/**
 * The legacy Line (DonkeyScroller/Line.cs), the one the control itself parses with:
 * a list of legacy characters with their URL and interactive segments, the wrap
 * layout, and the static Parse. The legacy dialect has Bold and Underline (two
 * codes) but no Italic or StrikeThrough, colours as palette numbers, and marks the
 * characters inside URL markers in Blue, underlined, when they have the default
 * colours. A bare Color resets the background to none.
 *
 * `LegacyStep` is one iteration of Parse's loop as a function, `LegacyRun` the rest of
 * it; the hex case can add colours to the shared palette, so the state carries the
 * palette's entries and an exception reports the palette as it was left.
 */
module LegacyLine {
  import opened Wrappers
  import opened Drawing
  import opened TextUtil
  import ControlChar
  import opened Spans
  import opened InteractiveScan
  import opened Parsers
  import opened IRCColorTable
  import opened LegacyUtils
  import opened Layout

  /** The text of legacy characters. */
  function LegacyTextOf(chars: seq<LegacyChar>): (s: string)
    ensures |s| == |chars| && forall k :: 0 <= k < |chars| ==> s[k] == chars[k].c
  {
    if |chars| == 0 then "" else LegacyTextOf(chars[..|chars| - 1]) + [chars[|chars| - 1].c]
  }

  class Line {
    const chars: seq<LegacyChar>
    const urlSegments: SpanCollection<string>
    const interactiveSegments: SpanCollection<InteractiveData>
    var wrapIndexes: seq<int>
    var width: int
    var rowsHigh: int

    /** A line with the parsed characters and segments, before its dimensions are calculated. */
    constructor(chars: seq<LegacyChar>, urls: seq<Span<string>>, segments: seq<Span<InteractiveData>>)
      ensures this.chars == chars && urlSegments.items == urls && interactiveSegments.items == segments
      ensures fresh(urlSegments) && fresh(interactiveSegments)
      ensures wrapIndexes == [] && width == 0 && rowsHigh == 0
    {
      this.chars := chars;
      urlSegments := new SpanCollection.Of(urls);
      interactiveSegments := new SpanCollection.Of(segments);
      wrapIndexes := [];
      width := 0;
      rowsHigh := 0;
    }

    /** Text: the characters in order. */
    function Text(): (s: string)
      ensures |s| == |chars| && forall k :: 0 <= k < |chars| ==> s[k] == chars[k].c
    {
      LegacyTextOf(chars)
    }

    /** Height: CharHeight per row; after CalculateDimensions that is one row more than there are wraps. */
    function Height(charHeight: int): (h: int)
      reads this
      ensures rowsHigh == 1 + |wrapIndexes| ==> h == charHeight * (1 + |wrapIndexes|)
      ensures charHeight >= 0 && rowsHigh >= 1 ==> h >= charHeight
    {
      charHeight * rowsHigh
    }

    /** CalculateDimensions: the same wrap loop as the newer Line, on this line's text. */
    method CalculateDimensions(maxWidthInChars: int)
      modifies this
      ensures var r := Wrap(Text(), maxWidthInChars, old(width));
              wrapIndexes == r.wraps && rowsHigh == r.rowsHigh && width == r.width
      ensures rowsHigh == 1 + |wrapIndexes| && old(width) <= width
    {
      wrapIndexes, rowsHigh, width := ComputeWrap(LegacyTextOf(chars), maxWidthInChars, width);
    }
  }

  /** Parse's loop variables, with the shared palette's entries. */
  datatype LegacyState = LegacyState(
    i: int,
    foreColor: int, backColor: int, bold: bool, underline: bool,
    markingUrl: bool, urlStart: int,
    chars: seq<LegacyChar>, urls: seq<Span<string>>, segments: seq<Span<InteractiveData>>,
    entries: seq<Color>)

  /** Black on no background, no style, nothing parsed yet, and the palette as it is. */
  function LegacyInitial(entries: seq<Color>): LegacyState {
    LegacyState(0, MircColorCode.Black.Code(), MircColorCode.None.Code(), false, false, false, -1, [], [], [], entries)
  }

  predicate LegacyValid(st: LegacyState) {
    0 <= st.i && (st.markingUrl ==> 0 <= st.urlStart <= |st.chars|)
  }

  /** The HexColor case: both numbers from the hex code, looked up in (and maybe added to) the palette. */
  function LegacyStepHex(text: string, st: LegacyState): (r: Result<LegacyState>)
    requires LegacyValid(st)
    ensures r.Success? ==> LegacyValid(r.value) && r.value.i > st.i
  {
    var o := LegacyHexSpec(text, st.i, st.entries);
    match o.result
    case Failure(e) => Failure(e)
    case Success(p) => Success(st.(foreColor := p.fore, backColor := p.back, i := p.next + 1, entries := o.entries))
  }

  /** The Color case: both numbers straight from the code, so a bare Color resets the background. */
  function LegacyStepColor(text: string, st: LegacyState): (r: Result<LegacyState>)
    requires LegacyValid(st)
    ensures r.Success? ==> LegacyValid(r.value) && r.value.i > st.i
  {
    match LegacyParseIRCColors(text, st.i)
    case Failure(e) => Failure(e)
    case Success(p) => Success(st.(foreColor := p.fore, backColor := p.back, i := p.next + 1))
  }

  /** The Url case: the first marker opens a URL, the second records its segment and text. */
  function LegacyStepUrl(st: LegacyState): (r: LegacyState)
    requires LegacyValid(st)
    ensures LegacyValid(r) && r.i == st.i + 1
  {
    if !st.markingUrl then st.(urlStart := |st.chars|, markingUrl := true, i := st.i + 1)
    else
      var url := Span(st.urlStart, |st.chars| - 1, LegacyTextOf(st.chars[st.urlStart..]));
      st.(urls := st.urls + [url], markingUrl := false, i := st.i + 1)
  }

  /** The InteractiveStart case: the same scan as the newer parser's. */
  function LegacyStepInteractive(text: string, st: LegacyState): (r: LegacyState)
    requires 0 <= st.i < |text| && LegacyValid(st)
    ensures LegacyValid(r) && r.i > st.i
  {
    var scan := ScanAt(text, st.i);
    ScanAtShape(text, st.i);
    var segments := if scan.Terminated? then st.segments + [DisplayedSpan(text, scan.id, scan.split, scan.end, |st.chars|)] else st.segments;
    st.(segments := segments, i := CursorAfter(text, scan) + 1)
  }

  /** The character the default case adds: Blue and underlined inside a URL when the colours are the defaults. */
  function LegacyCharOf(c: char, st: LegacyState): LegacyChar {
    if st.markingUrl && st.foreColor == MircColorCode.Black.Code() && st.backColor == MircColorCode.None.Code() then
      LegacyChar(MircColorCode.Blue.Code(), st.backColor, st.bold, true, c)
    else
      LegacyChar(st.foreColor, st.backColor, st.bold, st.underline, c)
  }

  function LegacyStepEmit(c: char, st: LegacyState): (r: LegacyState)
    requires LegacyValid(st)
    ensures LegacyValid(r) && r.i == st.i + 1
  {
    st.(chars := st.chars + [LegacyCharOf(c, st)], i := st.i + 1)
  }

  /** One iteration of Parse's loop on the character at `st.i`. */
  function LegacyStep(text: string, st: LegacyState): (r: Result<LegacyState>)
    requires st.i < |text| && LegacyValid(st)
    ensures r.Success? ==> LegacyValid(r.value) && r.value.i > st.i
  {
    var c := text[st.i];
    if c == ControlChar.InteractiveTextEnd then Success(st.(i := st.i + 1))
    else if c == ControlChar.InteractiveTextStart then Success(LegacyStepInteractive(text, st))
    else if c == ControlChar.Url then Success(LegacyStepUrl(st))
    else if c == ControlChar.HexColor then LegacyStepHex(text, st)
    else if c == ControlChar.Color then LegacyStepColor(text, st)
    else if c == ControlChar.Bold then Success(st.(bold := !st.bold, i := st.i + 1))
    else if c == ControlChar.Underline || c == ControlChar.Underline2 then Success(st.(underline := !st.underline, i := st.i + 1))
    else Success(LegacyStepEmit(c, st))
  }

  /** How Parse ends: the final state, or an exception with the palette as it was left. */
  datatype Outcome = Done(st: LegacyState) | Threw(error: Exception, entries: seq<Color>)

  /** The rest of Parse's loop from `st`. */
  function LegacyRun(text: string, st: LegacyState): Outcome
    requires LegacyValid(st)
    decreases |text| - st.i
  {
    if st.i >= |text| then Done(st)
    else
      match LegacyStep(text, st)
      case Failure(e) => Threw(e, st.entries)
      case Success(next) => LegacyRun(text, next)
  }

  /** One pass of Parse's loop body against the shared palette. */
  method LegacyParseChar(text: string, st: LegacyState, table: Palette) returns (r: Result<LegacyState>)
    requires st.i < |text| && LegacyValid(st) && table.entries == st.entries
    modifies table
    ensures r == LegacyStep(text, st)
    ensures table.entries == if r.Success? then r.value.entries else st.entries
  {
    var c := text[st.i];
    if c == ControlChar.InteractiveTextEnd {
      r := Success(st.(i := st.i + 1));
    } else if c == ControlChar.InteractiveTextStart {
      var next := LegacyInteractiveCase(text, st);
      r := Success(next);
    } else if c == ControlChar.Url {
      var next := LegacyUrlCase(st);
      r := Success(next);
    } else if c == ControlChar.HexColor {
      r := LegacyHexCase(text, st, table);
    } else if c == ControlChar.Color {
      r := LegacyColorCase(text, st);
    } else if c == ControlChar.Bold {
      r := Success(st.(bold := !st.bold, i := st.i + 1));
    } else if c == ControlChar.Underline || c == ControlChar.Underline2 {
      r := Success(st.(underline := !st.underline, i := st.i + 1));
    } else {
      r := Success(st.(chars := st.chars + [LegacyCharOf(c, st)], i := st.i + 1));
    }
  }

  /** The HexColor case: Utils.ParseHexColors on the shared palette. */
  method LegacyHexCase(text: string, st: LegacyState, table: Palette) returns (r: Result<LegacyState>)
    requires LegacyValid(st) && table.entries == st.entries
    modifies table
    ensures r == LegacyStepHex(text, st)
    ensures table.entries == if r.Success? then r.value.entries else st.entries
  {
    var parsed := LegacyParseHexColors(text, st.i, table);
    if parsed.Failure? {
      return Failure(parsed.error);
    }
    r := Success(st.(foreColor := parsed.value.fore, backColor := parsed.value.back, i := parsed.value.next + 1,
                     entries := table.entries));
  }

  /** The Color case: Utils.ParseIRCColors. */
  method LegacyColorCase(text: string, st: LegacyState) returns (r: Result<LegacyState>)
    requires LegacyValid(st)
    ensures r == LegacyStepColor(text, st)
  {
    var parsed := LegacyParseIRCColors(text, st.i);
    if parsed.Failure? {
      return Failure(parsed.error);
    }
    r := Success(st.(foreColor := parsed.value.fore, backColor := parsed.value.back, i := parsed.value.next + 1));
  }

  /** The Url case. */
  method LegacyUrlCase(st: LegacyState) returns (r: LegacyState)
    requires LegacyValid(st)
    ensures r == LegacyStepUrl(st)
  {
    r := st;
    if !r.markingUrl {
      r := r.(urlStart := |r.chars|);
    } else {
      var urlEnd := |r.chars|;
      var url := LegacyTextOf(r.chars[r.urlStart..urlEnd]);
      assert r.chars[r.urlStart..urlEnd] == st.chars[st.urlStart..];
      r := r.(urls := r.urls + [Span(r.urlStart, urlEnd - 1, url)]);
    }
    r := r.(markingUrl := !r.markingUrl, i := r.i + 1);
  }

  /** The InteractiveStart case: the nested scanning loops, then the segment they found. */
  method LegacyInteractiveCase(text: string, st: LegacyState) returns (r: LegacyState)
    requires 0 <= st.i < |text| && LegacyValid(st)
    ensures r == LegacyStepInteractive(text, st)
  {
    var i, found := ScanInteractiveText(text, st.i, |st.chars|);
    ScanAtShape(text, st.i);
    r := st;
    if found.Some? {
      r := r.(segments := r.segments + [found.value]);
    }
    r := r.(i := i + 1);
  }

  /**
   * Line.Parse: the parsing loop against the shared palette, then CalculateDimensions
   * for `maxWidthInChars`. An exception of a colour parser ends the parse, leaving
   * the palette with whatever the codes before it added.
   */
  method Parse(text: string, maxWidthInChars: int, table: Palette) returns (r: Result<Line>)
    modifies table
    ensures match LegacyRun(text, LegacyInitial(old(table.entries)))
            case Threw(e, entries) => r == Failure(e) && table.entries == entries
            case Done(st) =>
              && r.Success? && fresh(r.value) && table.entries == st.entries
              && r.value.chars == st.chars && r.value.urlSegments.items == st.urls
              && r.value.interactiveSegments.items == st.segments
              && var w := Wrap(LegacyTextOf(st.chars), maxWidthInChars, 0);
                 r.value.wrapIndexes == w.wraps && r.value.rowsHigh == w.rowsHigh && r.value.width == w.width
  {
    var st := LegacyInitial(table.entries);
    ghost var initial := st;
    while st.i < |text|
      invariant LegacyValid(st) && table.entries == st.entries
      invariant LegacyRun(text, st) == LegacyRun(text, initial)
      decreases |text| - st.i
    {
      var next := LegacyParseChar(text, st, table);
      if next.Failure? {
        return Failure(next.error);
      }
      st := next.value;
    }
    var line := new Line(st.chars, st.urls, st.segments);
    line.CalculateDimensions(maxWidthInChars);
    r := Success(line);
  }
}
