/** The comment-analysis panel of a video: a word-frequency bar chart built
    from a one-shot summary, and a list of top-rated comments that a click on
    a bar filters down to the comments containing that word. Clicking the
    bar of the word already selected clears the filter again. */
module VideoCommentsAnalysis {
  import opened JsText

  /** Colour of the selected word's bar, and of every other bar. */
  const HighlightColour: string := "#ff6384"
  const BarColour: string := "#36A2EB"

  /** One comment of the summary's `topRatedComments`; `text` is None when
      the backend left it out. */
  datatype Comment = Comment(
    text: Option<string>,
    authorName: string,
    authorProfileImageUrl: string,
    likeCount: int,
    publishedAt: string)

  /** The summary the panel fetches once per video. `wordsFrequency` is the
      JavaScript object as its own keys with their counts, in the order
      `Object.keys` enumerates them. */
  datatype Summary = Summary(wordsFrequency: seq<(string, int)>, topRatedComments: seq<Comment>)

  /** The outcome of the summary request: the request or the decoding threw,
      the body decoded to JSON `null`, or it decoded to a summary. */
  datatype Payload = FetchFailed | NullPayload | Received(summary: Summary)

  /** An object cannot hold the same key twice. */
  predicate WellFormed(s: Summary) {
    forall i, j :: 0 <= i < j < |s.wordsFrequency| ==> s.wordsFrequency[i].0 != s.wordsFrequency[j].0
  }

  /** `Object.keys(wordsFrequency)`: the chart's labels, one per bar. */
  function Words(s: Summary): (r: seq<string>)
    ensures |r| == |s.wordsFrequency|
    ensures forall i :: 0 <= i < |r| ==> r[i] == s.wordsFrequency[i].0
    ensures WellFormed(s) ==> forall i, j :: 0 <= i < j < |r| ==> r[i] != r[j]
  {
    seq(|s.wordsFrequency|, i requires 0 <= i < |s.wordsFrequency| => s.wordsFrequency[i].0)
  }

  // ---------------------------------------------------------------------
  // Whole-word matching: new RegExp(`\b${word.toLowerCase()}\b`, 'i').test(text)
  // ---------------------------------------------------------------------

  /** Characters that mean something other than themselves in a pattern. */
  predicate IsRegexMeta(c: char) {
    c in "\\^$.|?*+()[]{}"
  }

  /** The word is spliced into the pattern unescaped, so the pattern matches
      the word literally only when no character of it is a metacharacter. */
  predicate IsLiteralPattern(word: string) {
    forall i :: 0 <= i < |word| ==> !IsRegexMeta(word[i])
  }

  /** The pattern `\b<pattern>\b` with the ignore-case flag matches `text`
      at index `i`. */
  predicate MatchesAt(text: string, pattern: string, i: nat) {
    && i + |pattern| <= |text|
    && IsWordBoundary(text, i)
    && IsWordBoundary(text, i + |pattern|)
    && forall k :: 0 <= k < |pattern| ==> LowerAscii(text[i + k]) == LowerAscii(pattern[k])
  }

  /** The reference meaning: `word` occurs in `text`, ignoring case, with a
      word boundary on each side. */
  ghost predicate ContainsWholeWord(text: string, word: string) {
    exists i: nat :: MatchesAt(text, word, i)
  }

  /** The regular-expression search: the leftmost index at or after `from`
      where the pattern matches. */
  function FirstMatchFrom(text: string, pattern: string, from: nat): (r: Option<nat>)
    decreases |text| - from
    ensures r.Some? ==> from <= r.value && MatchesAt(text, pattern, r.value)
    ensures r.Some? ==> forall j: nat :: from <= j < r.value ==> !MatchesAt(text, pattern, j)
    ensures r.None? ==> forall j: nat :: from <= j ==> !MatchesAt(text, pattern, j)
  {
    if from + |pattern| > |text| then None
    else if MatchesAt(text, pattern, from) then Some(from)
    else FirstMatchFrom(text, pattern, from + 1)
  }

  /** `regex.test(text)` for the pattern built from `word.toLowerCase()`:
      it succeeds exactly when the word occurs in the text as a whole word,
      ignoring case. */
  predicate RegexTest(text: string, word: string)
    requires IsLiteralPattern(word)
    ensures RegexTest(text, word) <==> ContainsWholeWord(text, word)
  {
    LowerCasedPatternFindsWord(text, word);
    FirstMatchFrom(text, LowerAsciiString(word), 0).Some?
  }

  /** Lower-casing the word before building the pattern makes no difference
      under the ignore-case flag: the search finds exactly the whole-word
      occurrences of the word as given. */
  lemma LowerCasedPatternFindsWord(text: string, word: string)
    ensures FirstMatchFrom(text, LowerAsciiString(word), 0).Some? <==> ContainsWholeWord(text, word)
  {
    var pattern := LowerAsciiString(word);
    forall i: nat
      ensures MatchesAt(text, pattern, i) <==> MatchesAt(text, word, i)
    {
      forall k | 0 <= k < |word|
        ensures LowerAscii(pattern[k]) == LowerAscii(word[k])
      {
        LowerAsciiIdempotent(word[k]);
      }
    }
    var r := FirstMatchFrom(text, pattern, 0);
    if r.Some? {
      assert MatchesAt(text, word, r.value);
    }
  }

  /** The filter callback: a comment without text, or with empty text, is
      dropped; otherwise it is kept when the search succeeds. */
  predicate IsKept(c: Comment, word: string)
    requires IsLiteralPattern(word)
    ensures IsKept(c, word) <==> c.text.Some? && c.text.value != "" && ContainsWholeWord(c.text.value, word)
  {
    c.text.Some? && c.text.value != "" && RegexTest(c.text.value, word)
  }

  /** `topRatedComments.filter(...)` with the callback above. */
  function FilterByWord(cs: seq<Comment>, word: string): (r: seq<Comment>)
    requires IsLiteralPattern(word)
    ensures |r| <= |cs|
    ensures forall c :: c in r <==> c in cs && IsKept(c, word)
  {
    if cs == [] then []
    else
      var init, last := cs[..|cs| - 1], cs[|cs| - 1];
      assert cs == init + [last];
      FilterByWord(init, word) + (if IsKept(last, word) then [last] else [])
  }

  /** The indices of the comments the filter keeps, in increasing order. */
  function KeptIndices(cs: seq<Comment>, word: string): seq<nat>
    requires IsLiteralPattern(word)
  {
    if cs == [] then []
    else KeptIndices(cs[..|cs| - 1], word) + (if IsKept(cs[|cs| - 1], word) then [|cs| - 1] else [])
  }

  /** `r` is the elements of `cs` at the strictly increasing indices `idx`. */
  ghost predicate Selects(r: seq<Comment>, cs: seq<Comment>, idx: seq<nat>) {
    && |idx| == |r|
    && (forall k :: 0 <= k < |idx| ==> idx[k] < |cs| && r[k] == cs[idx[k]])
    && (forall k, l :: 0 <= k < l < |idx| ==> idx[k] < idx[l])
  }

  /** `r` is an order-preserving subsequence of `cs`. */
  ghost predicate IsSubsequence(r: seq<Comment>, cs: seq<Comment>) {
    exists idx :: Selects(r, cs, idx)
  }

  /** The kept indices are in range, strictly increasing, and name exactly
      the positions whose comment the callback keeps. */
  lemma {:induction false} KeptIndicesAreKeptPositions(cs: seq<Comment>, word: string)
    requires IsLiteralPattern(word)
    ensures forall k :: 0 <= k < |KeptIndices(cs, word)| ==> KeptIndices(cs, word)[k] < |cs|
    ensures forall k, l :: 0 <= k < l < |KeptIndices(cs, word)| ==> KeptIndices(cs, word)[k] < KeptIndices(cs, word)[l]
    ensures forall j :: 0 <= j < |cs| ==> (j in KeptIndices(cs, word) <==> IsKept(cs[j], word))
  {
    if cs != [] {
      var n := |cs|;
      var init := cs[..n - 1];
      KeptIndicesAreKeptPositions(init, word);
      var idx0, idx := KeptIndices(init, word), KeptIndices(cs, word);
      var keepLast := IsKept(cs[n - 1], word);
      assert idx == idx0 + (if keepLast then [n - 1] else []);
      forall j | 0 <= j < n
        ensures j in idx <==> IsKept(cs[j], word)
      {
        if j < n - 1 {
          assert init[j] == cs[j];
        }
      }
    }
  }

  /** The filtered list is the comments at the kept indices, in order. */
  lemma {:induction false} FilterSelectsKeptComments(cs: seq<Comment>, word: string)
    requires IsLiteralPattern(word)
    ensures Selects(FilterByWord(cs, word), cs, KeptIndices(cs, word))
    ensures forall j :: 0 <= j < |cs| ==> (j in KeptIndices(cs, word) <==> IsKept(cs[j], word))
  {
    KeptIndicesAreKeptPositions(cs, word);
    FilterAtKeptIndices(cs, word);
  }

  lemma {:induction false} FilterAtKeptIndices(cs: seq<Comment>, word: string)
    requires IsLiteralPattern(word)
    ensures |KeptIndices(cs, word)| == |FilterByWord(cs, word)|
    ensures forall k :: 0 <= k < |KeptIndices(cs, word)| ==>
              KeptIndices(cs, word)[k] < |cs| && FilterByWord(cs, word)[k] == cs[KeptIndices(cs, word)[k]]
  {
    if cs != [] {
      var n := |cs|;
      var init := cs[..n - 1];
      FilterAtKeptIndices(init, word);
      var idx0, r0 := KeptIndices(init, word), FilterByWord(init, word);
      var idx, r := KeptIndices(cs, word), FilterByWord(cs, word);
      if IsKept(cs[n - 1], word) {
        assert idx == idx0 + [n - 1] && r == r0 + [cs[n - 1]];
      } else {
        assert idx == idx0 && r == r0;
      }
      forall k | 0 <= k < |idx0|
        ensures idx[k] < n && r[k] == cs[idx[k]]
      {
        assert idx[k] == idx0[k] && r[k] == r0[k];
        assert init[idx0[k]] == cs[idx0[k]];
      }
    }
  }

  lemma FilterIsSubsequence(cs: seq<Comment>, word: string)
    requires IsLiteralPattern(word)
    ensures IsSubsequence(FilterByWord(cs, word), cs)
  {
    FilterSelectsKeptComments(cs, word);
  }

  lemma FullListIsSubsequence(cs: seq<Comment>)
    ensures IsSubsequence(cs, cs)
  {
    var idx := seq(|cs|, i requires 0 <= i < |cs| => i as nat);
    assert Selects(cs, cs, idx);
  }

  /** No comment without text or with empty text survives a filter. */
  lemma FilteredCommentsHaveText(cs: seq<Comment>, word: string)
    requires IsLiteralPattern(word)
    ensures forall c :: c in FilterByWord(cs, word) ==> c.text.Some? && c.text.value != ""
  {
  }

  // ---------------------------------------------------------------------
  // The toggle
  // ---------------------------------------------------------------------

  /** The two pieces of panel state the toggle changes. */
  datatype FilterView = FilterView(selectedWord: Option<string>, filteredComments: seq<Comment>)

  /** `filterCommentsByWord(word)` once the summary is loaded, over its
      `topRatedComments` list `all`. */
  function ToggleWord(v: FilterView, all: seq<Comment>, word: string): (r: FilterView)
    requires v.selectedWord != Some(word) ==> IsLiteralPattern(word)
    ensures v.selectedWord == Some(word) ==> r.selectedWord == None && r.filteredComments == all
    ensures v.selectedWord != Some(word) ==>
              && r.selectedWord == Some(word)
              && r.filteredComments == FilterByWord(all, word)
              && forall c :: c in r.filteredComments <==> c in all && IsKept(c, word)
  {
    if v.selectedWord == Some(word) then FilterView(None, all)
    else FilterView(Some(word), FilterByWord(all, word))
  }

  /** Whatever the toggle does, the list it leaves is an order-preserving
      subsequence of the full list, so it is never longer. */
  lemma ToggleLeavesSubsequence(v: FilterView, all: seq<Comment>, word: string)
    requires v.selectedWord != Some(word) ==> IsLiteralPattern(word)
    ensures IsSubsequence(ToggleWord(v, all, word).filteredComments, all)
    ensures |ToggleWord(v, all, word).filteredComments| <= |all|
  {
    if v.selectedWord == Some(word) {
      FullListIsSubsequence(all);
    } else {
      FilterIsSubsequence(all, word);
    }
  }

  /** Picking the same word twice in a row clears the filter, unless that
      word was already the selection, in which case the first pick clears
      it and the second selects it again. */
  lemma ToggleTwice(v: FilterView, all: seq<Comment>, word: string)
    requires IsLiteralPattern(word)
    ensures var r := ToggleWord(ToggleWord(v, all, word), all, word);
            if v.selectedWord == Some(word) then r == FilterView(Some(word), FilterByWord(all, word))
            else r == FilterView(None, all)
  {
  }

  // ---------------------------------------------------------------------
  // The chart's bar colours
  // ---------------------------------------------------------------------

  /** `words.map(word => word === selectedWord ? highlight : normal)`, used
      for both the background and the border colour of the bars. */
  function BarColours(words: seq<string>, selected: Option<string>): (r: seq<string>)
    ensures |r| == |words|
    ensures forall i :: 0 <= i < |words| ==> (r[i] == HighlightColour <==> selected == Some(words[i]))
    ensures forall i :: 0 <= i < |words| ==> (r[i] == BarColour <==> selected != Some(words[i]))
  {
    seq(|words|, i requires 0 <= i < |words| => if selected == Some(words[i]) then HighlightColour else BarColour)
  }

  /** At most one bar is highlighted, and one is exactly when the selected
      word is one of the chart's words. */
  lemma {:induction false} OneBarHighlighted(s: Summary, selected: Option<string>)
    requires WellFormed(s)
    ensures var r := BarColours(Words(s), selected);
            forall i, j :: 0 <= i < j < |r| ==> !(r[i] == HighlightColour && r[j] == HighlightColour)
    ensures var r := BarColours(Words(s), selected);
            (exists i :: 0 <= i < |r| && r[i] == HighlightColour) <==> (selected.Some? && selected.value in Words(s))
  {
    var words := Words(s);
    var r := BarColours(words, selected);
    if selected.Some? && selected.value in words {
      var i :| 0 <= i < |words| && words[i] == selected.value;
      assert r[i] == HighlightColour;
    }
  }

  // ---------------------------------------------------------------------
  // The component's state
  // ---------------------------------------------------------------------

  /** The panel's React state: the loaded summary (`initialCommentsSummary`),
      the loading flag, the list shown and the word selected. */
  class AnalysisView {
    var summary: Option<Summary>
    var loading: bool
    var filteredComments: seq<Comment>
    var selectedWord: Option<string>

    /** The list shown is always drawn, in order, from the summary's list,
        and is the whole list while no word is selected. */
    ghost predicate Valid()
      reads this
    {
      summary.Some? ==>
        && WellFormed(summary.value)
        && IsSubsequence(filteredComments, summary.value.topRatedComments)
        && (selectedWord.None? ==> filteredComments == summary.value.topRatedComments)
    }

    function View(): (v: FilterView)
      reads this
    {
      FilterView(selectedWord, filteredComments)
    }

    /** The state on mount: nothing loaded, loading, nothing selected. */
    constructor ()
      ensures Valid()
      ensures summary.None? && loading && filteredComments == [] && selectedWord.None?
    {
      summary := None;
      loading := true;
      filteredComments := [];
      selectedWord := None;
    }

    /** The end of the summary fetch. A decoded payload replaces the stored
        summary, and a summary's list replaces the list shown; a `null`
        payload clears the summary but leaves the list shown. A request that
        threw changes neither. The selected word is not reset, also when a
        new video's summary arrives. */
    method ReceiveSummary(response: Payload)
      requires Valid()
      requires response.Received? ==> WellFormed(response.summary)
      modifies this
      ensures Valid()
      ensures !loading && selectedWord == old(selectedWord)
      ensures response.Received? ==>
                summary == Some(response.summary) && filteredComments == response.summary.topRatedComments
      ensures response.NullPayload? ==> summary.None? && filteredComments == old(filteredComments)
      ensures response.FetchFailed? ==> summary == old(summary) && filteredComments == old(filteredComments)
    {
      match response {
        case Received(received) =>
          summary := Some(received);
          filteredComments := received.topRatedComments;
          FullListIsSubsequence(filteredComments);
        case NullPayload =>
          summary := None;
        case FetchFailed =>
      }
      loading := false;
    }

    /** `filterCommentsByWord(word)`: nothing happens before a summary is
        loaded; afterwards it is the toggle. */
    method FilterCommentsByWord(word: string)
      requires Valid()
      requires summary.Some? && selectedWord != Some(word) ==> IsLiteralPattern(word)
      modifies this
      ensures Valid()
      ensures summary == old(summary) && loading == old(loading)
      ensures old(summary).None? ==> View() == old(View())
      ensures old(summary).Some? ==> View() == ToggleWord(old(View()), summary.value.topRatedComments, word)
    {
      if summary.None? {
        return;
      }
      var all := summary.value.topRatedComments;
      if selectedWord == Some(word) {
        FullListIsSubsequence(all);
        filteredComments := all;
        selectedWord := None;
      } else {
        var filtered := FilterByWord(all, word);
        FilterIsSubsequence(all, word);
        filteredComments := filtered;
        selectedWord := Some(word);
      }
    }

    /** `handleBarClick(event, elements)`: the chart reports the bar nearest
        to the pointer by index (its interaction does not require the pointer
        to be over the bar); a click outside the plot area reports none. */
    method HandleBarClick(elements: seq<nat>)
      requires Valid()
      requires |elements| > 0 ==> summary.Some? && elements[0] < |summary.value.wordsFrequency|
      requires |elements| > 0 ==>
                 var clicked := Words(summary.value)[elements[0]];
                 selectedWord != Some(clicked) ==> IsLiteralPattern(clicked)
      modifies this
      ensures Valid()
      ensures summary == old(summary) && loading == old(loading)
      ensures |elements| == 0 ==> View() == old(View())
      ensures |elements| > 0 ==>
                View() == ToggleWord(old(View()), summary.value.topRatedComments, Words(summary.value)[elements[0]])
    {
      if |elements| > 0 {
        var words := Words(summary.value);
        FilterCommentsByWord(words[elements[0]]);
      }
    }

    /** The "Clear Filter" button, rendered only while the selected word is
        a non-empty string: it picks the selected word again. */
    method ClearFilter()
      requires Valid() && selectedWord.Some? && selectedWord.value != ""
      modifies this
      ensures Valid()
      ensures summary == old(summary) && loading == old(loading)
      ensures summary.Some? ==> selectedWord.None? && filteredComments == summary.value.topRatedComments
      ensures summary.None? ==> View() == old(View())
    {
      FilterCommentsByWord(selectedWord.value);
    }

    /** The colours of the chart's bars in the current state. */
    function ChartColours(): (r: seq<string>)
      reads this
      requires summary.Some?
      ensures |r| == |summary.value.wordsFrequency|
      ensures forall i :: 0 <= i < |r| ==> (r[i] == HighlightColour <==> selectedWord == Some(Words(summary.value)[i]))
      ensures forall i :: 0 <= i < |r| ==> (r[i] == BarColour <==> selectedWord != Some(Words(summary.value)[i]))
    {
      BarColours(Words(summary.value), selectedWord)
    }
  }
}
