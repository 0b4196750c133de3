/** The collapse-or-expand rule that both the video description and every
    comment card use: a text longer than a limit is shown cut to the limit
    and followed by an ellipsis until the reader expands it, and a "show
    more" / "show less" control appears only beside a long text. */
module Truncation {
  import opened JsText

  const Ellipsis: string := "... "
  const ShowMoreLabel: string := " show more..."
  const ShowLessLabel: string := " show less"

  predicate IsLong(text: string, limit: nat) {
    |text| > limit
  }

  /** `isLong && !expanded ? text.slice(0, limit) + "... " : text`. */
  function Clip(text: string, limit: nat, expanded: bool): (r: string)
    ensures expanded || !IsLong(text, limit) ==> r == text
    ensures !expanded && IsLong(text, limit) ==>
              |r| == limit + |Ellipsis| && r[..limit] == text[..limit] && r[limit..] == Ellipsis
    ensures !expanded ==> |r| <= limit + |Ellipsis|
  {
    if IsLong(text, limit) && !expanded then text[..limit] + Ellipsis else text
  }

  /** Whatever is shown, the text before any ellipsis is the start of the
      real text: the display never alters or reorders characters. */
  lemma ClipShowsAPrefix(text: string, limit: nat, expanded: bool)
    ensures var r := Clip(text, limit, expanded);
            r == text || (|r| >= |Ellipsis| && r[..|r| - |Ellipsis|] <= text && r[|r| - |Ellipsis|..] == Ellipsis)
  {
  }

  /** The label of the show-more/show-less control, or None when no control
      is rendered (the text is short). */
  function ToggleLabel(text: string, limit: nat, expanded: bool): (r: Option<string>)
    ensures r.Some? <==> IsLong(text, limit)
    ensures r.Some? ==> r.value == (if expanded then ShowLessLabel else ShowMoreLabel)
  {
    if IsLong(text, limit) then Some(if expanded then ShowLessLabel else ShowMoreLabel) else None
  }
}
