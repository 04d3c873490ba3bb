/**
 * The DonkeyScroller control, without its drawing: the two markup builders it offers,
 * AddText (which parses with the legacy Line and inserts at the front), the mouse
 * wheel on the vertical scroll bar, and the integer arithmetic that turns mouse
 * positions into rows, columns and character indexes. Text measurement gives
 * CharWidth and CharHeight and the layout gives the text area; they are parameters.
 */
module Scroller {
  import opened Wrappers
  import opened Drawing
  import opened TextUtil
  import ControlChar
  import opened Content
  import opened Spans
  import opened InteractiveScan
  import opened Parsers
  import opened IRCColorTable
  import opened LegacyUtils
  import opened LegacyLine
  import opened LegacyLineFacts
  import opened LineBuffer
  import ScrollerUtils

  // ---------------------------------------------------------------------------
  // Markup builders
  // ---------------------------------------------------------------------------

  /** CreateInteractiveString(id, text): InteractiveStart, the id, InteractiveSplit, the text, InteractiveEnd. */
  function CreateInteractiveString(id: string, text: string): (s: string)
    ensures s == ScrollerUtils.CreateInteractiveText(id, text)
  {
    [ControlChar.InteractiveTextStart] + id + [ControlChar.InteractiveTextSplit] + text + [ControlChar.InteractiveTextEnd]
  }

  /** A text the legacy switch leaves alone has no InteractiveTextEnd. */
  lemma NoEndInLegacyPlain(text: string)
    requires forall k :: 0 <= k < |text| ==> !ControlChar.IsLegacyHandled(text[k])
    ensures ControlChar.InteractiveTextEnd !in text
  {
  }

  /**
   * The legacy parser reads an interactive string back: it shows exactly the text,
   * Black on no background, and records one segment over it carrying the id.
   */
  lemma LegacyParseInteractiveString(id: string, text: string, entries: seq<Color>)
    requires ControlChar.InteractiveTextSplit !in id
    requires forall k :: 0 <= k < |text| ==> !ControlChar.IsLegacyHandled(text[k])
    ensures var s := CreateInteractiveString(id, text);
            var r := LegacyRun(s, LegacyInitial(entries));
            && r.Done?
            && r.st.chars == PlainChars(text) && LegacyTextOf(r.st.chars) == text
            && r.st.segments == [Span(0, |text| - 1, InteractiveData(id, text))]
            && r.st.urls == [] && r.st.entries == entries
  {
    var s := CreateInteractiveString(id, text);
    var end := |s| - 1;
    var st1 := LegacyInteractiveFirst(id, text, entries);
    forall k | st1.i <= k < end
      ensures !ControlChar.IsLegacyHandled(s[k])
    {
      assert s[|id| + 2 + (k - st1.i)] == text[k - st1.i];
    }
    LegacyRunPlain(s, st1, end);
    assert s[st1.i..end] == text;
    var st2 := st1.(chars := PlainChars(text), i := end);
    LegacyInteractiveLast(s, st2);
    PlainText(text);
  }

  /** The first step on an interactive string records its segment and resumes at the text. */
  lemma LegacyInteractiveFirst(id: string, text: string, entries: seq<Color>) returns (st1: LegacyState)
    requires ControlChar.InteractiveTextSplit !in id
    requires forall k :: 0 <= k < |text| ==> !ControlChar.IsLegacyHandled(text[k])
    ensures var st0 := LegacyInitial(entries);
            var s := CreateInteractiveString(id, text);
            && st1 == st0.(segments := [Span(0, |text| - 1, InteractiveData(id, text))], i := |id| + 2)
            && LegacyValid(st1) && LegacyRun(s, st0) == LegacyRun(s, st1)
  {
    var s := CreateInteractiveString(id, text);
    var split, end := |id| + 1, |s| - 1;
    NoEndInLegacyPlain(text);
    ScrollerUtils.ScanCreateInteractiveText(id, text);
    var st0 := LegacyInitial(entries);
    var span := Span(0, |text| - 1, InteractiveData(id, text));
    assert s[split + 1..end] == text;
    assert DisplayedSpan(s, id, split, end, 0) == span;
    st1 := st0.(segments := [span], i := split + 1);
    assert ScanAt(s, 0) == Terminated(id, split, end);
    assert st0.segments + [span] == [span];
    assert LegacyStepInteractive(s, st0) == st1;
    assert LegacyStep(s, st0) == Success(st1);
  }

  /** An InteractiveTextEnd as the last character is skipped, and the parse is done. */
  lemma LegacyInteractiveLast(s: string, st: LegacyState)
    requires LegacyValid(st) && st.i == |s| - 1 && s[st.i] == ControlChar.InteractiveTextEnd
    ensures LegacyRun(s, st) == Done(st.(i := |s|))
  {
    assert LegacyStep(s, st) == Success(st.(i := |s|));
  }

  /** The palette number IRCColorTable.Get(color) gives with its defaults: the colour's key, else 1. */
  function PaletteIndex(color: Color, entries: seq<Color>): (n: int)
    ensures n >= 0
    ensures color in entries ==> HasKey(entries, n) && entries[n] == color && forall j :: 0 <= j < n ==> entries[j] != color
    ensures color !in entries ==> n == MircColorCode.Black.Code()
  {
    if color in entries then
      GetFound(entries, color, 1, false);
      GetSpec(entries, color, 1, false).index
    else
      GetAbsent(entries, color, 1);
      GetSpec(entries, color, 1, false).index
  }

  /**
   * CreateInteractiveString(id, text, color) as written: `IRCControlChar.Color +
   * IRCColorTable.Get(color)` adds a char and an int, which in C# is the int 3 + the
   * palette number, so the string starts with that number in decimal.
   */
  function CreateColoredInteractiveStringAsWritten(id: string, text: string, color: Color, entries: seq<Color>): (s: string)
    ensures |s| > 0 && IsDigit(s[0])
  {
    var number := IntToString((ControlChar.Color as int) + PaletteIndex(color, entries));
    number + CreateInteractiveString(id, text) + [ControlChar.Color]
  }

  /**
   * The string as written never starts with a colour code: the legacy parser shows its
   * first character, a digit, as text.
   */
  lemma AsWrittenShowsNumber(id: string, text: string, color: Color, entries: seq<Color>)
    ensures var s := CreateColoredInteractiveStringAsWritten(id, text, color, entries);
            var st := LegacyInitial(entries);
            && IsDigit(s[0]) && s[0] != ControlChar.Color
            && LegacyStep(s, st) == Success(LegacyStepEmit(s[0], st))
  {
  }

  /** For Red in the standard palette (number 4), the string starts with the digit 7. */
  lemma AsWrittenRedStartsWithSeven(id: string, text: string, lightBlack: Color)
    requires lightBlack != Drawing.Red
    ensures CreateColoredInteractiveStringAsWritten(id, text, Drawing.Red, BaseEntries(lightBlack))[0] == '7'
  {
    var entries := BaseEntries(lightBlack);
    RedIsFour(lightBlack);
    assert NatToString(7) == ['7'];
  }

  /** Red is palette number 4 of the standard palette. */
  lemma RedIsFour(lightBlack: Color)
    requires lightBlack != Drawing.Red
    ensures PaletteIndex(Drawing.Red, BaseEntries(lightBlack)) == 4
  {
    var entries := BaseEntries(lightBlack);
    assert entries[4] == Drawing.Red;
    assert entries[0].g != Drawing.Red.g && entries[2].r != Drawing.Red.r && entries[3].r != Drawing.Red.r;
    forall j | 0 <= j < 4
      ensures entries[j] != Drawing.Red
    {
      assert j == 0 || j == 1 || j == 2 || j == 3;
    }
    FirstIndexUnique(entries, Drawing.Red, PaletteIndex(Drawing.Red, entries), 4);
  }

  /** A value has one first position in a sequence. */
  lemma FirstIndexUnique(entries: seq<Color>, color: Color, n: int, m: int)
    requires 0 <= n < |entries| && entries[n] == color && forall j :: 0 <= j < n ==> entries[j] != color
    requires 0 <= m < |entries| && entries[m] == color && forall j :: 0 <= j < m ==> entries[j] != color
    ensures n == m
  {
  }

  /**
   * CreateInteractiveString(id, text, color) as intended: the colour code of the
   * palette number (as GetColorString writes it), the interactive string, and a bare
   * Color that ends the colour.
   */
  function CreateColoredInteractiveString(id: string, text: string, color: Color, entries: seq<Color>): (s: string)
    ensures |s| > 0 && s[0] == ControlChar.Color
  {
    GetForeColorString(PaletteIndex(color, entries)) + CreateInteractiveString(id, text) + [ControlChar.Color]
  }

  /**
   * The legacy parser reads the intended string's colour code as the colour's palette
   * number on no background and goes on at the interactive string.
   */
  lemma ColoredInteractiveStringReadsColor(id: string, text: string, color: Color, entries: seq<Color>)
    requires PaletteIndex(color, entries) <= 99
    ensures var s := CreateColoredInteractiveString(id, text, color, entries);
            var n := PaletteIndex(color, entries);
            var st := LegacyInitial(entries);
            && LegacyStep(s, st) == Success(st.(foreColor := n, backColor := -1, i := |IntToString(n)| + 1))
            && s[|IntToString(n)| + 1..] == CreateInteractiveString(id, text) + [ControlChar.Color]
  {
    var n := PaletteIndex(color, entries);
    var rest := CreateInteractiveString(id, text) + [ControlChar.Color];
    ForeColorStringRoundTrip(n, rest);
    var s := CreateColoredInteractiveString(id, text, color, entries);
    assert s == GetForeColorString(n) + rest;
  }

  // ---------------------------------------------------------------------------
  // Mouse positions
  // ---------------------------------------------------------------------------

  /** `q` is `a / b` in C#: the quotient rounded toward zero. */
  predicate TruncatesTo(a: int, b: int, q: int) {
    && (a >= 0 ==> q * b <= a < (q + 1) * b)
    && (a < 0 ==> (q - 1) * b < a <= q * b)
  }

  /** MaxWidthInChars: how many whole characters fit in the width of the text area. */
  function MaxWidthInChars(textAreaWidth: int, charWidth: int): (n: int)
    requires charWidth > 0
    ensures n * charWidth <= textAreaWidth < (n + 1) * charWidth
  {
    DivBounds(textAreaWidth, charWidth);
    textAreaWidth / charWidth
  }

  /** The quotient of Dafny's division by a positive number is rounded down. */
  lemma DivBounds(a: int, b: int)
    requires b > 0
    ensures (a / b) * b <= a < (a / b + 1) * b
  {
    var q, r := a / b, a % b;
    assert a == q * b + r;
    assert (q + 1) * b == q * b + b;
  }

  /** TruncDiv rounds toward zero. */
  lemma TruncDivTruncates(a: int, b: int)
    requires b > 0
    ensures TruncatesTo(a, b, TruncDiv(a, b))
  {
    if a >= 0 {
      DivBounds(a, b);
    } else {
      DivBounds(-a, b);
      var p := (-a) / b;
      assert (-p) * b == -(p * b);
      assert (-p - 1) * b == -(p * b) - b;
    }
  }

  /** A positive product with a positive factor has a positive other factor. */
  lemma PositiveFactor(x: int, b: int)
    requires b > 0 && x * b > 0
    ensures x > 0
  {
  }

  /**
   * PointToRowColumn: the column is X over CharWidth, the row the distance above the
   * bottom of the text area over CharHeight, both rounded toward zero.
   */
  function PointToRowColumn(x: int, y: int, textAreaHeight: int, charWidth: int, charHeight: int): (rc: RowColumn)
    requires charWidth > 0 && charHeight > 0
    ensures TruncatesTo(x, charWidth, rc.column)
    ensures TruncatesTo(textAreaHeight - y, charHeight, rc.row)
  {
    var column := TruncDiv(x, charWidth);
    var row := TruncDiv(textAreaHeight - y, charHeight);
    TruncDivTruncates(x, charWidth);
    TruncDivTruncates(textAreaHeight - y, charHeight);
    RowColumn(row, column)
  }

  /**
   * GetLineCharIndexFromPoint: the offsets of the point from the line's rectangle,
   * each divided by the cell size only when positive, as a row-major index with
   * MaxWidthInChars per row. For a point inside the rectangle and within the row
   * width, the index names the cell under the point.
   */
  function GetLineCharIndexFromPoint(x: int, y: int, left: int, top: int, charWidth: int, charHeight: int, maxWidthInChars: int): (index: int)
    requires charWidth > 0 && charHeight > 0
    ensures var dx, dy := x - left, y - top;
            0 < maxWidthInChars && 0 <= dx < maxWidthInChars * charWidth && 0 <= dy ==>
              && (index / maxWidthInChars) * charHeight <= dy < (index / maxWidthInChars + 1) * charHeight
              && (index % maxWidthInChars) * charWidth <= dx < (index % maxWidthInChars + 1) * charWidth
  {
    var dy := y - top;
    var dx := x - left;
    var row := if dy > 0 then dy / charHeight else dy;
    var column := if dx > 0 then dx / charWidth else dx;
    CellIndexInside(row, column, maxWidthInChars, dx, dy, charWidth, charHeight);
    row * maxWidthInChars + column
  }

  /** For a point inside the rectangle, the divided offsets are the row and column of its cell. */
  lemma CellIndexInside(row: int, column: int, maxWidthInChars: int, dx: int, dy: int, charWidth: int, charHeight: int)
    requires charWidth > 0 && charHeight > 0
    requires row == (if dy > 0 then dy / charHeight else dy) && column == (if dx > 0 then dx / charWidth else dx)
    ensures 0 < maxWidthInChars && 0 <= dx < maxWidthInChars * charWidth && 0 <= dy ==>
              var index := row * maxWidthInChars + column;
              && (index / maxWidthInChars) * charHeight <= dy < (index / maxWidthInChars + 1) * charHeight
              && (index % maxWidthInChars) * charWidth <= dx < (index % maxWidthInChars + 1) * charWidth
  {
    if 0 < maxWidthInChars && 0 <= dx < maxWidthInChars * charWidth && 0 <= dy {
      CellIndex(row, column, maxWidthInChars, dx, dy, charWidth, charHeight);
    }
  }

  /** A row-major index splits back into the row and the column. */
  lemma CellIndex(row: int, column: int, maxWidthInChars: int, dx: int, dy: int, charWidth: int, charHeight: int)
    requires charWidth > 0 && charHeight > 0 && 0 < maxWidthInChars && 0 <= dx < maxWidthInChars * charWidth && 0 <= dy
    requires row == dy / charHeight && column == dx / charWidth
    ensures var index := row * maxWidthInChars + column;
            index / maxWidthInChars == row && index % maxWidthInChars == column
            && row * charHeight <= dy < (row + 1) * charHeight
            && column * charWidth <= dx < (column + 1) * charWidth
  {
    DivBounds(dx, charWidth);
    DivBounds(dy, charHeight);
    assert (maxWidthInChars - column) * charWidth == maxWidthInChars * charWidth - column * charWidth;
    PositiveFactor(maxWidthInChars - column, charWidth);
    Layout.DivOfMulAdd(row, maxWidthInChars, column);
  }

  // ---------------------------------------------------------------------------
  // The control's state
  // ---------------------------------------------------------------------------

  class DonkeyScroller {
    /** The lines of the view, newest first. */
    const lines: Lines<Line>
    /** The process-wide IRCColorTable. */
    const palette: Palette
    /** The vertical scroll bar's Maximum and Value. */
    var scrollMaximum: int
    var scrollValue: int

    ghost predicate Valid()
      reads this, lines
    {
      lines.Valid() && 0 <= scrollValue <= scrollMaximum
    }

    /** A new control: no lines, and a scroll bar with its defaults (Maximum 100, Value 0). */
    constructor(palette: Palette)
      ensures Valid() && fresh(lines) && lines.lines == [] && lines.maxLines == 100
      ensures this.palette == palette && scrollMaximum == 100 && scrollValue == 0
    {
      lines := new Lines();
      this.palette := palette;
      scrollMaximum := 100;
      scrollValue := 0;
    }

    /** OnMouseWheel: a step up for a positive delta, else a step down, never leaving [0, Maximum]. */
    method OnMouseWheel(delta: int)
      requires Valid()
      modifies this
      ensures Valid() && scrollMaximum == old(scrollMaximum)
      ensures delta > 0 ==> scrollValue == if old(scrollValue) > 0 then old(scrollValue) - 1 else old(scrollValue)
      ensures delta <= 0 ==> scrollValue == if old(scrollValue) < scrollMaximum then old(scrollValue) + 1 else old(scrollValue)
    {
      if delta > 0 {
        if scrollValue > 0 {
          scrollValue := scrollValue - 1;
        }
      } else {
        if scrollValue < scrollMaximum {
          scrollValue := scrollValue + 1;
        }
      }
    }

    /**
     * AddText: nothing for white space only; otherwise the text with its URLs marked,
     * after the colour code of `color` (none for None), is parsed by the legacy Line and
     * inserted at the front, and the scroll bar goes to the bottom. An exception of the
     * parser leaves the lines and the scroll bar alone (the palette keeps what the
     * codes before it added).
     */
    method AddText(text: string, color: MircColorCode, maxWidthInChars: int, markUrls: string -> string)
      returns (error: Option<Exception>)
      requires Valid()
      modifies this, lines, palette
      ensures Valid() && lines.maxLines == old(lines.maxLines)
      ensures IsWhiteSpaceOnly(text) ==>
                && error.None? && lines.lines == old(lines.lines) && palette.entries == old(palette.entries)
                && scrollMaximum == old(scrollMaximum) && scrollValue == old(scrollValue)
      ensures !IsWhiteSpaceOnly(text) ==>
                match LegacyRun(GetCodeForeColorString(color) + markUrls(text), LegacyInitial(old(palette.entries)))
                case Threw(e, entries) =>
                  && error == Some(e) && palette.entries == entries && lines.lines == old(lines.lines)
                  && scrollMaximum == old(scrollMaximum) && scrollValue == old(scrollValue)
                case Done(st) =>
                  && error.None? && palette.entries == st.entries
                  && |lines.lines| > 0 && fresh(lines.lines[0]) && lines.lines[0].chars == st.chars
                  && lines.lines[0].urlSegments.items == st.urls && lines.lines[0].interactiveSegments.items == st.segments
                  && lines.lines == Keep([lines.lines[0]] + old(lines.lines), lines.maxLines)
                  && scrollMaximum == |lines.lines| && scrollValue == scrollMaximum
    {
      if IsWhiteSpaceOnly(text) {
        return Option.None;
      }
      var marked := markUrls(text);
      marked := GetCodeForeColorString(color) + marked;
      var line := Parse(marked, maxWidthInChars, palette);
      if line.Failure? {
        return Some(line.error);
      }
      lines.Insert(line.value);
      scrollMaximum := |lines.lines|;
      scrollValue := scrollMaximum;
      error := Option.None;
    }
  }
}
