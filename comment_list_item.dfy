/** One comment card of the comment list: its decoded text, collapsed to 300
    characters until the reader expands it. */
module CommentListItem {
  import opened JsText
  import Truncation

  const MaxCommentLength: nat := 300

  /** A rendered comment card. `decodedText` is the comment's text after
      HTML-entity decoding; `expanded` is the card's React state. The list
      keys its cards by position, so a card lives as long as its position in
      the list and is handed whichever comment lands there. */
  class CommentCard {
    var decodedText: string
    var expanded: bool

    constructor (decodedText: string)
      ensures this.decodedText == decodedText && !expanded
    {
      this.decodedText := decodedText;
      expanded := false;
    }

    /** `isLong`: the decoded text is longer than 300 characters. */
    predicate IsLong()
      reads this
      ensures IsLong() <==> |decodedText| > MaxCommentLength
    {
      Truncation.IsLong(decodedText, MaxCommentLength)
    }

    /** The text shown: the first 300 characters and an ellipsis for a long
        card that is not expanded, the whole text otherwise. */
    function ShownText(): (r: string)
      reads this
      ensures !IsLong() || expanded ==> r == decodedText
      ensures IsLong() && !expanded ==>
                r == decodedText[..MaxCommentLength] + Truncation.Ellipsis && |r| == MaxCommentLength + 4
    {
      Truncation.Clip(decodedText, MaxCommentLength, expanded)
    }

    /** The show-more/show-less control: present only on a long card. */
    function ControlLabel(): (r: Option<string>)
      reads this
      ensures r.Some? <==> IsLong()
      ensures r.Some? ==> r.value == (if expanded then Truncation.ShowLessLabel else Truncation.ShowMoreLabel)
    {
      Truncation.ToggleLabel(decodedText, MaxCommentLength, expanded)
    }

    /** `toggleExpand`: `setExpanded(prev => !prev)`. */
    method ToggleExpand()
      modifies this
      ensures expanded == !old(expanded) && decodedText == old(decodedText)
    {
      expanded := !expanded;
    }

    /** A new comment arrives at this card's position after the list
        changes: the text is replaced and the `expanded` state is kept, so
        the new comment is shown collapsed or whole as the old one was. */
    method ReceiveComment(text: string)
      modifies this
      ensures decodedText == text && expanded == old(expanded)
      ensures ShownText() == Truncation.Clip(text, MaxCommentLength, old(expanded))
    {
      decodedText := text;
    }
  }

  /** Toggling twice restores the card: the flag, and with it the text
      shown, are what they were. */
  method ToggleTwice(card: CommentCard)
    modifies card
    ensures card.expanded == old(card.expanded)
    ensures card.ShownText() == old(card.ShownText())
  {
    card.ToggleExpand();
    card.ToggleExpand();
  }
}
