/**
 * Content.Lines: the newer content model's bounded list of lines. It keeps the same
 * capacity and front insertion as the legacy list (module LineBuffer) and adds a
 * counter of unseen lines, appending a parsed line of markup, and the text of all
 * lines, oldest first, one per CR LF terminated row.
 */
module ContentLines {
  import opened Wrappers
  import opened Fonts
  import opened Content
  import opened LineParser
  import opened ContentLine
  import opened LineBuffer

  /** The Aggregate of Text: each line's text and CR LF put before what the earlier (newer) lines gave. */
  function Aggregate(lines: seq<Line>, current: string): string
    decreases |lines|
  {
    if lines == [] then current else Aggregate(lines[1..], lines[0].Text() + "\r\n" + current)
  }

  /** The rows of the view from the top: the oldest line first, every line followed by CR LF. */
  function Listing(lines: seq<Line>): string
    decreases |lines|
  {
    if lines == [] then "" else Listing(lines[1..]) + lines[0].Text() + "\r\n"
  }

  /** Aggregating from `current` puts the whole listing before it. */
  lemma {:induction false} AggregateIsListing(lines: seq<Line>, current: string)
    ensures Aggregate(lines, current) == Listing(lines) + current
    decreases |lines|
  {
    if lines != [] {
      AggregateIsListing(lines[1..], lines[0].Text() + "\r\n" + current);
    }
  }

  /** A line appended at the back (the oldest end) comes first in the text. */
  lemma {:induction false} ListingAppend(lines: seq<Line>, line: Line)
    ensures Listing(lines + [line]) == line.Text() + "\r\n" + Listing(lines)
    decreases |lines|
  {
    if lines == [] {
      assert [] + [line] == [line];
    } else {
      assert (lines + [line])[1..] == lines[1..] + [line];
      ListingAppend(lines[1..], line);
    }
  }

  /** A line inserted at the front (the newest end) comes last in the text. */
  lemma ListingInsert(lines: seq<Line>, line: Line)
    ensures Listing([line] + lines) == Listing(lines) + line.Text() + "\r\n"
  {
    assert ([line] + lines)[1..] == lines;
  }

  class ContentLines {
    const buffer: Lines<Line>
    /** Lines added while the view was not scrolled to the bottom. */
    var unseenCount: int

    constructor()
      ensures fresh(buffer) && buffer.Valid() && buffer.lines == [] && buffer.maxLines == 100
      ensures unseenCount == 0
    {
      buffer := new Lines();
      unseenCount := 0;
    }

    /**
     * Add(string): the line parsed from the markup goes at the back, without a purge;
     * when the parser throws, nothing is added.
     */
    method Add(text: string, font: Font, maxWidthInChars: int, markUrls: string -> string) returns (error: Option<Exception>)
      modifies buffer
      ensures var spec := ParseLine(text, font, markUrls);
              && (error.Some? <==> spec.Failure?)
              && (spec.Failure? ==> error.value == spec.error && buffer.lines == old(buffer.lines))
              && (spec.Success? ==>
                   && |buffer.lines| == |old(buffer.lines)| + 1 && buffer.lines[..|old(buffer.lines)|] == old(buffer.lines)
                   && var line := buffer.lines[|buffer.lines| - 1];
                      fresh(line) && line.chars == spec.value.chars && line.interactiveTexts.items == spec.value.texts
                      && line.interactiveUrls.items == spec.value.urls)
      ensures buffer.maxLines == old(buffer.maxLines)
    {
      var r := ParseLineText(text, font, maxWidthInChars, markUrls);
      if r.Failure? {
        return Some(r.error);
      }
      buffer.Append(r.value);
      error := None;
    }

    /** Text: every line's text with CR LF, from the oldest (the last index) to the newest. */
    function Text(): (s: string)
      reads this, buffer
      ensures s == Listing(buffer.lines)
    {
      AggregateIsListing(buffer.lines, "");
      Aggregate(buffer.lines, "")
    }
  }
}
