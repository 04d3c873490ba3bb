/**
 * Content.Line: one parsed line of the newer content model, its characters with their
 * format changes, its interactive URLs and texts, and the wrap layout computed for the
 * control's width.
 */
module ContentLine {
  import opened TextUtil
  import opened Content
  import opened Spans
  import opened Layout

  class Line {
    /** The characters of the line; the parser adds them all before the line is used. */
    const chars: seq<Char>
    const interactiveUrls: SpanCollection<string>
    const interactiveTexts: SpanCollection<InteractiveData>
    /** IconImage != null. */
    var hasIconImage: bool
    var wrapIndexes: seq<int>
    var width: int
    var rowsHigh: int

    /** A line with the parsed characters and spans, before its dimensions are calculated. */
    constructor(chars: seq<Char>, urls: seq<Span<string>>, texts: seq<Span<InteractiveData>>)
      ensures this.chars == chars && interactiveUrls.items == urls && interactiveTexts.items == texts
      ensures fresh(interactiveUrls) && fresh(interactiveTexts)
      ensures !hasIconImage && wrapIndexes == [] && width == 0 && rowsHigh == 0
    {
      this.chars := chars;
      interactiveUrls := new SpanCollection.Of(urls);
      interactiveTexts := new SpanCollection.Of(texts);
      hasIconImage := false;
      wrapIndexes := [];
      width := 0;
      rowsHigh := 0;
    }

    /** Text: the characters of the line in order, control codes already gone. */
    function Text(): (s: string)
      ensures |s| == |chars| && forall k :: 0 <= k < |chars| ==> s[k] == chars[k].c
    {
      TextOf(chars)
    }

    /**
     * Height: CharHeight per row; with line icons shown and an icon set, at least one
     * CharHeight even for a line of no rows.
     */
    function Height(charHeight: int, showLineIcons: bool): (h: int)
      reads this
      ensures rowsHigh == 1 + |wrapIndexes| && !(showLineIcons && hasIconImage) ==> h == charHeight * (1 + |wrapIndexes|)
      ensures showLineIcons && hasIconImage ==> h >= charHeight && h >= charHeight * rowsHigh
      ensures showLineIcons && hasIconImage ==> h == charHeight || h == charHeight * rowsHigh
      ensures rowsHigh >= 1 && charHeight >= 0 ==> h == charHeight * rowsHigh
      ensures !(showLineIcons && hasIconImage) ==> h == charHeight * rowsHigh
    {
      if showLineIcons && hasIconImage then Max(charHeight * rowsHigh, charHeight) else charHeight * rowsHigh
    }

    /**
     * CalculateDimensions: wrap indexes, row count and Width of the text for
     * MaxWidthInChars; Width only ever grows, since it is never reset.
     */
    method CalculateDimensions(maxWidthInChars: int)
      modifies this
      ensures var r := Wrap(Text(), maxWidthInChars, old(width));
              wrapIndexes == r.wraps && rowsHigh == r.rowsHigh && width == r.width
      ensures rowsHigh == 1 + |wrapIndexes| && old(width) <= width
      ensures hasIconImage == old(hasIconImage)
    {
      wrapIndexes, rowsHigh, width := ComputeWrap(TextOf(chars), maxWidthInChars, width);
    }
  }
}
