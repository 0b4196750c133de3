/** The video player panel: the description trimmed at its first blank line
    and collapsed to 300 characters until expanded, and the view, like and
    comment counts shown with thousands separators. */
module VideoPlayer {
  import opened JsText
  import Truncation

  const MaxDescriptionLength: nat := 300
  const BlankLine: string := "\n\n"

  // ---------------------------------------------------------------------
  // trimYouTubeDescription
  // ---------------------------------------------------------------------

  /** `trimYouTubeDescription(description)`: None stands for a missing or
      non-string description. The text is cut at its first blank line. */
  function TrimDescription(description: Option<string>): (r: string)
    ensures description.None? ==> r == ""
    ensures description.Some? ==> r <= description.value
    ensures description.Some? && !Contains(description.value, BlankLine) ==> r == description.value
    ensures description.Some? && r != description.value ==>
              OccursAt(description.value, BlankLine, |r|)
              && forall j: nat :: j < |r| ==> !OccursAt(description.value, BlankLine, j)
    ensures !Contains(r, BlankLine)
  {
    if description.None? || description.value == "" then ""
    else
      var d := description.value;
      var i := IndexOf(d, BlankLine);
      if i == -1 then d
      else
        PrefixHasNoEarlierOccurrence(d, BlankLine, i);
        d[..i]
  }

  /** A prefix of `s` that ends before the first occurrence of `pat` does
      not contain `pat`. */
  lemma PrefixHasNoEarlierOccurrence(s: string, pat: string, i: nat)
    requires i <= |s| && |pat| > 0
    requires forall j: nat :: j < i ==> !OccursAt(s, pat, j)
    ensures !Contains(s[..i], pat)
  {
    forall j: nat | OccursAt(s[..i], pat, j)
      ensures false
    {
      assert j < i;
      assert s[..i][j..j + |pat|] == s[j..j + |pat|];
      assert OccursAt(s, pat, j);
    }
  }

  /** Trimming an already trimmed description changes nothing. */
  lemma TrimIdempotent(description: Option<string>)
    ensures TrimDescription(Some(TrimDescription(description))) == TrimDescription(description)
  {
  }

  /** The description as displayed: `isLong && !descExpanded ?
      trimmed.slice(0, 300) + "... " : trimmed`. */
  function DisplayDescription(description: Option<string>, expanded: bool): (r: string)
    ensures var t := TrimDescription(description);
            expanded || |t| <= MaxDescriptionLength ==> r == t
    ensures var t := TrimDescription(description);
            !expanded && |t| > MaxDescriptionLength ==>
              |r| == MaxDescriptionLength + 4 && r == t[..MaxDescriptionLength] + "... "
  {
    Truncation.Clip(TrimDescription(description), MaxDescriptionLength, expanded)
  }

  // ---------------------------------------------------------------------
  // count.toString().replace(/\B(?=(\d{3})+(?!\d))/g, ",")
  // ---------------------------------------------------------------------

  /** The number of consecutive digits of `s` starting at `p`. */
  function DigitRunFrom(s: string, p: nat): (n: nat)
    requires p <= |s|
    decreases |s| - p
    ensures p + n <= |s|
    ensures forall k :: p <= k < p + n ==> IsDigit(s[k])
    ensures p + n == |s| || !IsDigit(s[p + n])
  {
    if p < |s| && IsDigit(s[p]) then 1 + DigitRunFrom(s, p + 1) else 0
  }

  /** The end of `k` groups of three characters starting at `p`. */
  function GroupsEnd(p: nat, k: nat): nat {
    p + 3 * k
  }

  /** The lookahead `(?=(\d{3})+(?!\d))` at `p`, read literally: one or more
      groups of three digits follow, and no digit follows them. */
  ghost predicate LookaheadAt(s: string, p: nat) {
    exists k: nat ::
      && k >= 1
      && GroupsEnd(p, k) <= |s|
      && (forall m :: p <= m < GroupsEnd(p, k) ==> IsDigit(s[m]))
      && (GroupsEnd(p, k) == |s| || !IsDigit(s[GroupsEnd(p, k)]))
  }

  /** The regular expression `/\B(?=(\d{3})+(?!\d))/` matches the empty
      string at `p`. */
  predicate SeparatorAt(s: string, p: nat)
    requires p <= |s|
    ensures SeparatorAt(s, p) <==> !IsWordBoundary(s, p) && LookaheadAt(s, p)
  {
    LookaheadIsWholeGroups(s, p);
    var run := DigitRunFrom(s, p);
    !IsWordBoundary(s, p) && run >= 3 && run % 3 == 0
  }

  /** A digit run that is known to end at `e` has length `e - p`. */
  lemma {:induction false} DigitRunEndsAt(s: string, p: nat, e: nat)
    requires p <= e <= |s|
    requires forall m :: p <= m < e ==> IsDigit(s[m])
    requires e == |s| || !IsDigit(s[e])
    ensures DigitRunFrom(s, p) == e - p
    decreases e - p
  {
    if p < e {
      DigitRunEndsAt(s, p + 1, e);
    }
  }

  /** The lookahead holds exactly when the digits starting at `p` form a
      non-empty whole number of groups of three, as `SeparatorAt` tests. */
  lemma LookaheadIsWholeGroups(s: string, p: nat)
    requires p <= |s|
    ensures LookaheadAt(s, p) <==> (DigitRunFrom(s, p) >= 3 && DigitRunFrom(s, p) % 3 == 0)
  {
    var run := DigitRunFrom(s, p);
    if LookaheadAt(s, p) {
      var k: nat :| && k >= 1
                    && GroupsEnd(p, k) <= |s|
                    && (forall m :: p <= m < GroupsEnd(p, k) ==> IsDigit(s[m]))
                    && (GroupsEnd(p, k) == |s| || !IsDigit(s[GroupsEnd(p, k)]));
      DigitRunEndsAt(s, p, GroupsEnd(p, k));
    }
    if run >= 3 && run % 3 == 0 {
      var k: nat := run / 3;
      assert GroupsEnd(p, k) == p + run;
    }
  }

  /** The output for positions `p..` of `s`: a comma before every position
      where the regular expression matches. */
  function GroupFrom(s: string, p: nat): string
    requires p <= |s|
    decreases |s| - p
  {
    if p == |s| then []
    else (if SeparatorAt(s, p) then "," else "") + [s[p]] + GroupFrom(s, p + 1)
  }

  /** The global replace: `s.replace(/\B(?=(\d{3})+(?!\d))/g, ",")`.
      It only inserts commas: removing them from the output and from the
      input gives the same string. */
  function GroupThousands(s: string): (r: string)
    ensures StripCommas(r) == StripCommas(s)
  {
    GroupFromThenStrip(s, 0);
    assert s[0..] == s;
    GroupFrom(s, 0)
  }

  /** The count as displayed; the statistics API sends counts as decimal
      strings, which `toString` returns unchanged. */
  function FormatCount(count: string): (r: string)
    ensures AllDigits(count) && count != [] ==> GroupedShape(r)
    ensures AllDigits(count) ==> StripCommas(r) == count
  {
    GroupThousandsShape(count);
    var r := GroupThousands(count);
    if AllDigits(count) then StripCommasOfDigits(count); r else r
  }

  /** The reference grouping of a digit string: the last three digits
      split off behind a comma, as long as more than three remain. */
  function ReferenceGroup(s: string): string
    decreases |s|
  {
    if |s| <= 3 then s else ReferenceGroup(s[..|s| - 3]) + "," + s[|s| - 3..]
  }

  /** Removes every comma. */
  function StripCommas(t: string): (r: string)
    ensures |r| <= |t|
  {
    if t == [] then [] else (if t[0] == ',' then [] else [t[0]]) + StripCommas(t[1..])
  }

  lemma {:induction false} StripCommasAppend(a: string, b: string)
    ensures StripCommas(a + b) == StripCommas(a) + StripCommas(b)
    decreases |a|
  {
    if a == [] {
      assert a + b == b;
    } else {
      assert (a + b)[0] == a[0];
      assert (a + b)[1..] == a[1..] + b;
      StripCommasAppend(a[1..], b);
      assert StripCommas(a) == (if a[0] == ',' then [] else [a[0]]) + StripCommas(a[1..]);
    }
  }

  /** Removing the commas from the output gives back the input with its
      own commas removed, for every string. */
  lemma {:induction false} GroupFromThenStrip(s: string, p: nat)
    requires p <= |s|
    ensures StripCommas(GroupFrom(s, p)) == StripCommas(s[p..])
    decreases |s| - p
  {
    if p < |s| {
      GroupFromThenStrip(s, p + 1);
      var sep: string := if SeparatorAt(s, p) then "," else "";
      StripCommasAppend(sep + [s[p]], GroupFrom(s, p + 1));
      StripCommasAppend(sep, [s[p]]);
      assert s[p..] == [s[p]] + s[p + 1..];
      StripCommasAppend([s[p]], s[p + 1..]);
    }
  }

  lemma {:induction false} StripCommasOfDigits(s: string)
    requires AllDigits(s)
    ensures StripCommas(s) == s
    decreases |s|
  {
    if s != [] {
      StripCommasOfDigits(s[1..]);
    }
  }

  /** Fewer than three characters from the end nothing is inserted. */
  lemma {:induction false} GroupFromNearEnd(s: string, p: nat)
    requires p <= |s| && |s| - p < 3
    ensures GroupFrom(s, p) == s[p..]
    decreases |s| - p
  {
    if p < |s| {
      GroupFromNearEnd(s, p + 1);
      assert s[p..] == [s[p]] + s[p + 1..];
    }
  }

  /** No comma is ever put in front of the first character: either the
      start is a word boundary, or the first character is not a digit. */
  lemma NoSeparatorAtStart(s: string)
    ensures !SeparatorAt(s, 0)
  {
  }

  /** Strings of at most three characters are shown unchanged. */
  lemma ShortCountUnchanged(s: string)
    requires |s| <= 3
    ensures GroupThousands(s) == s
  {
    if s != [] {
      NoSeparatorAtStart(s);
      GroupFromNearEnd(s, 1);
      assert s == [s[0]] + s[1..];
    }
  }

  /** In a digit string a comma goes exactly before the interior positions
      that are a multiple of three from the end. */
  lemma SeparatorInDigits(s: string, p: nat)
    requires AllDigits(s) && p <= |s|
    ensures SeparatorAt(s, p) <==> 0 < p < |s| && (|s| - p) % 3 == 0
  {
    DigitRunEndsAt(s, p, |s|);
  }

  /** `d` is a multiple of three, counted down three at a time. */
  predicate MultipleOfThree(d: nat)
    decreases d
  {
    d == 0 || (d >= 3 && MultipleOfThree(d - 3))
  }

  lemma {:induction false} MultipleOfThreeIsMod(d: nat)
    ensures MultipleOfThree(d) <==> d % 3 == 0
    decreases d
  {
    if d >= 3 {
      MultipleOfThreeIsMod(d - 3);
    }
  }

  /** A comma goes in front of position `p` of an `n`-digit string. */
  predicate CommaBefore(n: nat, p: nat) {
    0 < p <= n && MultipleOfThree(n - p)
  }

  /** The output for a digit string, with the comma positions that
      `SeparatorInDigits` establishes. */
  ghost function DigitGroupFrom(s: string, p: nat): string
    requires p <= |s|
    decreases |s| - p
  {
    if p == |s| then []
    else if CommaBefore(|s|, p) then [',', s[p]] + DigitGroupFrom(s, p + 1)
    else [s[p]] + DigitGroupFrom(s, p + 1)
  }

  lemma {:induction false} GroupFromOfDigits(s: string, p: nat)
    requires AllDigits(s) && p <= |s|
    ensures GroupFrom(s, p) == DigitGroupFrom(s, p)
    decreases |s| - p
  {
    if p < |s| {
      SeparatorInDigits(s, p);
      MultipleOfThreeIsMod(|s| - p);
      GroupFromOfDigits(s, p + 1);
    }
  }

  /** Splitting the last group off a digit string does not move the commas
      in front of it. */
  lemma {:induction false} DigitGroupFromSplit(s: string, p: nat)
    requires |s| > 3 && p <= |s| - 3
    ensures DigitGroupFrom(s, p) == DigitGroupFrom(s[..|s| - 3], p) + [',', s[|s| - 3], s[|s| - 2], s[|s| - 1]]
    decreases |s| - p
  {
    var n := |s|;
    if p == n - 3 {
      var init := s[..n - 3];
      assert DigitGroupFrom(init, |init|) == [];
      DigitGroupFromLastGroup(s);
    } else {
      DigitGroupFromSplit(s, p + 1);
      DigitGroupFromStep(s, p);
    }
  }

  /** The last group of a string longer than three gets a comma in front. */
  lemma DigitGroupFromLastGroup(s: string)
    requires |s| > 3
    ensures DigitGroupFrom(s, |s| - 3) == [',', s[|s| - 3], s[|s| - 2], s[|s| - 1]]
  {
    var n, p := |s|, |s| - 3;
    assert CommaBefore(n, p) by {
      assert n - p == 3 && MultipleOfThree(3);
    }
    DigitGroupFromLastTwo(s);
    assert DigitGroupFrom(s, p) == [',', s[p]] + DigitGroupFrom(s, p + 1);
  }

  /** The last two positions get no comma. */
  lemma DigitGroupFromLastTwo(s: string)
    requires |s| >= 2
    ensures DigitGroupFrom(s, |s| - 2) == [s[|s| - 2], s[|s| - 1]]
  {
    var n, p := |s|, |s| - 2;
    DigitGroupFromLastOne(s);
    assert !CommaBefore(n, p) by {
      assert n - p == 2 && !MultipleOfThree(2);
    }
  }

  /** The last position gets no comma. */
  lemma DigitGroupFromLastOne(s: string)
    requires |s| >= 1
    ensures DigitGroupFrom(s, |s| - 1) == [s[|s| - 1]]
  {
    var n, p := |s|, |s| - 1;
    assert !CommaBefore(n, p) by {
      assert n - p == 1 && !MultipleOfThree(1);
    }
  }

  /** One step of `DigitGroupFromSplit`: the position `p` gets the same
      separator in `s` as in `s` without its last group. */
  lemma DigitGroupFromStep(s: string, p: nat)
    requires |s| > 3 && p < |s| - 3
    requires DigitGroupFrom(s, p + 1) == DigitGroupFrom(s[..|s| - 3], p + 1) + [',', s[|s| - 3], s[|s| - 2], s[|s| - 1]]
    ensures DigitGroupFrom(s, p) == DigitGroupFrom(s[..|s| - 3], p) + [',', s[|s| - 3], s[|s| - 2], s[|s| - 1]]
  {
    var n := |s|;
    var init := s[..n - 3];
    assert CommaBefore(n, p) == CommaBefore(n - 3, p) by {
      assert MultipleOfThree(n - p) == MultipleOfThree(n - 3 - p);
    }
    assert init[p] == s[p];
  }

  /** The regular expression groups a digit string exactly as the
      reference grouping does. */
  lemma {:induction false} GroupMatchesReference(s: string)
    requires AllDigits(s)
    ensures GroupThousands(s) == ReferenceGroup(s)
    decreases |s|
  {
    if |s| <= 3 {
      ShortCountUnchanged(s);
    } else {
      var init := s[..|s| - 3];
      assert AllDigits(init);
      GroupMatchesReference(init);
      GroupSplitsOffLastGroup(s);
    }
  }

  /** The grouping of a digit string longer than three is the grouping of
      all but its last three digits, a comma and those three digits. */
  lemma GroupSplitsOffLastGroup(s: string)
    requires AllDigits(s) && |s| > 3
    ensures GroupThousands(s) == GroupThousands(s[..|s| - 3]) + "," + s[|s| - 3..]
  {
    var n := |s|;
    var init := s[..n - 3];
    assert AllDigits(init);
    GroupFromOfDigits(s, 0);
    GroupFromOfDigits(init, 0);
    DigitGroupFromSplit(s, 0);
    assert "," + s[n - 3..] == [',', s[n - 3], s[n - 2], s[n - 1]];
  }

  /** Three digits start at `j`, followed by a comma or the end. */
  predicate ThreeDigitsAt(t: string, j: nat) {
    j + 3 <= |t| && IsDigit(t[j]) && IsDigit(t[j + 1]) && IsDigit(t[j + 2]) && (j + 3 == |t| || t[j + 3] == ',')
  }

  predicate DigitsAndCommas(t: string) {
    forall i :: 0 <= i < |t| ==> IsDigit(t[i]) || t[i] == ','
  }

  predicate CommasLeadGroups(t: string) {
    forall i :: 0 <= i < |t| && t[i] == ',' ==> ThreeDigitsAt(t, i + 1)
  }

  predicate FourDigitsAt(t: string, i: nat) {
    i + 4 <= |t| && IsDigit(t[i]) && IsDigit(t[i + 1]) && IsDigit(t[i + 2]) && IsDigit(t[i + 3])
  }

  predicate NoFourDigitsInARow(t: string) {
    forall i: nat :: i < |t| ==> !FourDigitsAt(t, i)
  }

  /** A well-formed grouped number: digits and commas only, no leading or
      trailing comma, exactly three digits after each comma before the next
      comma or the end, and nowhere four digits in a row (so the leading
      group has one to three digits). */
  predicate GroupedShape(t: string) {
    && |t| > 0
    && t[0] != ','
    && t[|t| - 1] != ','
    && DigitsAndCommas(t)
    && CommasLeadGroups(t)
    && NoFourDigitsInARow(t)
  }

  /** Appending a comma and a group of three digits to a well-formed
      grouped number gives a well-formed grouped number. */
  lemma AppendGroupShape(a: string, last: string)
    requires GroupedShape(a)
    requires |last| == 3 && AllDigits(last)
    ensures GroupedShape(a + "," + last)
  {
    var t := a + "," + last;
    var n := |a|;
    assert t == a + [',', last[0], last[1], last[2]];
    AppendKeepsDigitsAndCommas(a, last);
    AppendKeepsCommasLeadGroups(a, last);
    AppendKeepsNoFourDigits(a, last);
  }

  lemma AppendKeepsDigitsAndCommas(a: string, last: string)
    requires DigitsAndCommas(a)
    requires |last| == 3 && AllDigits(last)
    ensures DigitsAndCommas(a + "," + last)
  {
    var t := a + "," + last;
    forall i | 0 <= i < |t|
      ensures IsDigit(t[i]) || t[i] == ','
    {
      if i < |a| {
        assert t[i] == a[i];
      } else if i > |a| {
        assert t[i] == last[i - |a| - 1];
      }
    }
  }

  lemma AppendKeepsCommasLeadGroups(a: string, last: string)
    requires CommasLeadGroups(a) && |a| > 0 && IsDigit(a[|a| - 1])
    requires |last| == 3 && AllDigits(last)
    ensures CommasLeadGroups(a + "," + last)
  {
    var t := a + "," + last;
    var n := |a|;
    assert forall j :: n < j < |t| ==> t[j] == last[j - n - 1] && IsDigit(t[j]);
    forall i | 0 <= i < |t| && t[i] == ','
      ensures ThreeDigitsAt(t, i + 1)
    {
      if i < n {
        assert t[i] == a[i];
        assert ThreeDigitsAt(a, i + 1);
        assert t[i + 1] == a[i + 1] && t[i + 2] == a[i + 2] && t[i + 3] == a[i + 3];
        if i + 4 < n {
          assert t[i + 4] == a[i + 4];
        }
      } else if i == n {
        assert t[n + 1] == last[0] && t[n + 2] == last[1] && t[n + 3] == last[2];
      }
    }
  }

  lemma AppendKeepsNoFourDigits(a: string, last: string)
    requires NoFourDigitsInARow(a)
    requires |last| == 3
    ensures NoFourDigitsInARow(a + "," + last)
  {
    var t := a + "," + last;
    var n := |a|;
    forall i: nat | i + 4 <= |t|
      ensures !FourDigitsAt(t, i)
    {
      if i + 3 < n {
        assert !FourDigitsAt(a, i);
        assert t[i] == a[i] && t[i + 1] == a[i + 1] && t[i + 2] == a[i + 2] && t[i + 3] == a[i + 3];
      } else if i == n {
        assert t[i] == ',';
      } else if i == n - 1 {
        assert t[i + 1] == ',';
      } else if i == n - 2 {
        assert t[i + 2] == ',';
      } else {
        assert i == n - 3 && t[i + 3] == ',';
      }
    }
  }

  lemma {:induction false} ReferenceGroupShape(s: string)
    requires AllDigits(s) && s != []
    ensures GroupedShape(ReferenceGroup(s))
    decreases |s|
  {
    if |s| > 3 {
      var init, last := s[..|s| - 3], s[|s| - 3..];
      assert AllDigits(init) && AllDigits(last);
      ReferenceGroupShape(init);
      AppendGroupShape(ReferenceGroup(init), last);
    }
  }

  /** The grouped output of a non-empty digit string is well formed. */
  lemma GroupThousandsShape(s: string)
    ensures AllDigits(s) && s != [] ==> GroupedShape(GroupThousands(s))
  {
    if AllDigits(s) && s != [] {
      GroupMatchesReference(s);
      ReferenceGroupShape(s);
    }
  }

  // ---------------------------------------------------------------------
  // The component's state
  // ---------------------------------------------------------------------

  /** The player panel of one video: its raw description and the
      `descExpanded` flag. */
  class PlayerView {
    const rawDescription: Option<string>
    var descExpanded: bool

    constructor (description: Option<string>)
      ensures rawDescription == description && !descExpanded
    {
      rawDescription := description;
      descExpanded := false;
    }

    /** `isLong`: the trimmed description is longer than 300 characters. */
    predicate IsLong()
      ensures IsLong() <==> |TrimDescription(rawDescription)| > MaxDescriptionLength
    {
      Truncation.IsLong(TrimDescription(rawDescription), MaxDescriptionLength)
    }

    function Displayed(): (r: string)
      reads this
      ensures !IsLong() || descExpanded ==> r == TrimDescription(rawDescription)
      ensures IsLong() && !descExpanded ==>
                r == TrimDescription(rawDescription)[..MaxDescriptionLength] + Truncation.Ellipsis
                && |r| == MaxDescriptionLength + 4
    {
      DisplayDescription(rawDescription, descExpanded)
    }

    /** The show-more/show-less control: present only for a long
        description. */
    function ControlLabel(): (r: Option<string>)
      reads this
      ensures r.Some? <==> IsLong()
      ensures r.Some? ==> r.value == (if descExpanded then Truncation.ShowLessLabel else Truncation.ShowMoreLabel)
    {
      Truncation.ToggleLabel(TrimDescription(rawDescription), MaxDescriptionLength, descExpanded)
    }

    /** `setDescExpanded(prev => !prev)`. */
    method ToggleDescription()
      modifies this
      ensures descExpanded == !old(descExpanded)
    {
      descExpanded := !descExpanded;
    }
  }
}
