/**
 * Content.MarkedContent: collects the selected text while the view is drawn. The
 * characters of the row being drawn gather in Chars; InsertChars puts them, trimmed,
 * as a row of their own before the text gathered so far.
 */
module MarkedContent {
  import opened TextUtil

  class MarkedContent {
    var text: string
    var chars: seq<char>

    constructor()
      ensures text == "" && chars == []
    {
      text := "";
      chars := [];
    }

    /** HasText: Text is neither null nor empty; the model's text is never null. */
    predicate HasText(): (b: bool)
      reads this
      ensures b <==> |text| > 0
    {
      text != ""
    }

    /** HasChars: some characters are gathered. */
    predicate HasChars(): (b: bool)
      reads this
      ensures b <==> chars != []
    {
      |chars| > 0
    }

    method ClearText()
      modifies this
      ensures text == "" && chars == old(chars)
      ensures !HasText()
    {
      text := "";
    }

    method ClearChars()
      modifies this
      ensures chars == [] && text == old(text)
      ensures !HasChars()
    {
      chars := [];
    }

    /** InsertChars: with characters gathered, their trimmed text and CR LF go before Text; Chars stay. */
    method InsertChars()
      modifies this
      ensures chars == old(chars)
      ensures old(chars) == [] ==> text == old(text)
      ensures old(chars) != [] ==> text == Trim(old(chars)) + "\r\n" + old(text)
      ensures old(chars) != [] ==> HasText()
    {
      if |chars| > 0 {
        text := Trim(chars) + "\r\n" + text;
        assert |text| > 0;
      }
    }

    /** TrimText: Text without its leading and trailing white space; trimming twice changes nothing more. */
    method TrimText()
      modifies this
      ensures text == Trim(old(text)) && chars == old(chars)
      ensures text == Trim(text)
    {
      text := Trim(text);
      TrimIdempotent(old(text));
    }
  }
}
