/**
 * ParseLineText (Internal/Parsers.cs): one line of markup into a Content.Line. The
 * text is trimmed on the right, URLs are wrapped in Url markers, and one pass over
 * the characters keeps the current style and colours, records URL and interactive
 * spans, and emits every other character with its format, storing the format only
 * where it differs from the previous character's.
 *
 * `Step` is one iteration of that pass as a function, `Run` the rest of the pass;
 * the method `ParseLineText` is the loop itself, proved to compute `ParseLine`.
 */
module LineParser {
  import opened Wrappers
  import opened TextUtil
  import opened Drawing
  import opened Fonts
  import ControlChar
  import opened Content
  import opened Spans
  import opened InteractiveScan
  import opened Parsers
  import InternalUtils
  import opened ContentLine
  import Layout

  /** The loop's variables, plus the format of every emitted character (`formats`). */
  datatype ParseState = ParseState(
    i: int,
    bold: bool, underline: bool, strikethrough: bool, italic: bool,
    markingUrl: bool, urlStartIndex: int,
    foreColor: Color, backColor: Color,
    currentCharFormat: CharData,
    chars: seq<Char>, formats: seq<CharData>,
    urls: seq<Span<string>>, texts: seq<Span<InteractiveData>>)

  /** The format in force before the first character: the control's font, Black on Transparent. */
  function BaseFormat(font: Font): CharData {
    CharData(font, Some(Black), Some(Transparent))
  }

  function Initial(font: Font): ParseState {
    ParseState(0, false, false, false, false, false, -1, Black, Transparent, BaseFormat(font), [], [], [], [])
  }

  /** One format per character; an open URL starts inside the characters emitted so far. */
  predicate Valid(st: ParseState) {
    && 0 <= st.i
    && |st.formats| == |st.chars|
    && (st.markingUrl ==> 0 <= st.urlStartIndex <= |st.chars|)
  }

  /** The format a character emitted now gets. */
  function FormatNow(font: Font, st: ParseState): CharData {
    var style := InternalUtils.GetFontStyle(st.bold, st.underline, st.italic, st.strikethrough);
    CharData(WithStyle(font, style), Some(st.foreColor), Some(st.backColor))
  }

  /** The HexColor case: both colours from the hex code; the cursor moves past it. */
  function StepHexColor(text: string, st: ParseState): (r: Result<ParseState>)
    requires 0 <= st.i < |text| && Valid(st)
    ensures r.Success? ==> Valid(r.value) && r.value.i > st.i
  {
    match ParseHexColors(text, st.i)
    case Failure(e) => Failure(e)
    case Success(p) => Success(st.(foreColor := p.fore, backColor := p.back, i := p.next + 1))
  }

  /**
   * The Color case: both colours from the mIRC code, except that a code without a
   * palette background keeps the background already in force.
   */
  function StepColor(text: string, st: ParseState): (r: Result<ParseState>)
    requires 0 <= st.i < |text| && Valid(st)
    ensures r.Success? ==> Valid(r.value) && r.value.i > st.i
  {
    match ParseIRCColors(text, st.i)
    case Failure(e) => Failure(e)
    case Success(p) =>
      var back := if p.back == Transparent && st.backColor != Transparent then st.backColor else p.back;
      Success(st.(foreColor := p.fore, backColor := back, i := p.next + 1))
  }

  /** The Url case: the first marker opens a URL, the second records its span and text. */
  function StepUrl(st: ParseState): (r: ParseState)
    requires Valid(st)
    ensures Valid(r) && r.i == st.i + 1
  {
    if !st.markingUrl then st.(urlStartIndex := |st.chars|, markingUrl := true, i := st.i + 1)
    else
      var url := Span(st.urlStartIndex, |st.chars| - 1, TextOf(st.chars[st.urlStartIndex..]));
      st.(urls := st.urls + [url], markingUrl := false, i := st.i + 1)
  }

  /** The InteractiveTextStart case: a span for a terminated markup; the cursor per CursorAfter. */
  function StepInteractive(text: string, st: ParseState): (r: ParseState)
    requires 0 <= st.i < |text| && Valid(st)
    ensures Valid(r) && r.i > st.i
  {
    var scan := ScanAt(text, st.i);
    ScanAtShape(text, st.i);
    var texts := if scan.Terminated? then st.texts + [DisplayedSpan(text, scan.id, scan.split, scan.end, |st.chars|)] else st.texts;
    st.(texts := texts, i := CursorAfter(text, scan) + 1)
  }

  /** The default case: the character is emitted, with its format only when that changed. */
  function StepEmit(font: Font, c: char, st: ParseState): (r: ParseState)
    requires Valid(st)
    ensures Valid(r) && r.i == st.i + 1
  {
    var format := FormatNow(font, st);
    var data := if !format.Equals(Some(st.currentCharFormat)) then Some(format) else None;
    st.(chars := st.chars + [Char(c, data)], formats := st.formats + [format], currentCharFormat := format, i := st.i + 1)
  }

  /** One iteration of the loop, on the character at `st.i`; the cursor moves past what it consumed. */
  function Step(text: string, font: Font, st: ParseState): (r: Result<ParseState>)
    requires st.i < |text| && Valid(st)
    ensures r.Success? ==> Valid(r.value) && r.value.i > st.i
  {
    var c := text[st.i];
    if c == ControlChar.Bold then Success(st.(bold := !st.bold, i := st.i + 1))
    else if c == ControlChar.StrikeThrough then Success(st.(strikethrough := !st.strikethrough, i := st.i + 1))
    else if c == ControlChar.Italic then Success(st.(italic := !st.italic, i := st.i + 1))
    else if c == ControlChar.Underline || c == ControlChar.Underline2 then Success(st.(underline := !st.underline, i := st.i + 1))
    else if c == ControlChar.HexColor then StepHexColor(text, st)
    else if c == ControlChar.Color then StepColor(text, st)
    else if c == ControlChar.Url then Success(StepUrl(st))
    else if c == ControlChar.InteractiveTextEnd then Success(st.(i := st.i + 1))
    else if c == ControlChar.InteractiveTextStart then Success(StepInteractive(text, st))
    else Success(StepEmit(font, c, st))
  }

  /** The rest of the loop from `st`: the first exception, or the final state. */
  function Run(text: string, font: Font, st: ParseState): Result<ParseState>
    requires Valid(st)
    decreases |text| - st.i
  {
    if st.i >= |text| then Success(st)
    else
      match Step(text, font, st)
      case Failure(e) => Failure(e)
      case Success(next) => Run(text, font, next)
  }

  /** What ParseLineText computes before laying the line out, with UrlRegex.Replace as `markUrls`. */
  function ParseLine(text: string, font: Font, markUrls: string -> string): Result<ParseState> {
    Run(markUrls(TrimRight(text)), font, Initial(font))
  }

  /**
   * One pass of the loop body of ParseLineText on the character at `st.i`: the switch
   * over the control characters, with the loop's variables held in `st`.
   */
  method ParseChar(text: string, font: Font, st: ParseState) returns (r: Result<ParseState>)
    requires st.i < |text| && Valid(st)
    ensures r == Step(text, font, st)
  {
    var c := text[st.i];
    if c == ControlChar.Bold {
      r := Success(st.(bold := !st.bold, i := st.i + 1));
    } else if c == ControlChar.StrikeThrough {
      r := Success(st.(strikethrough := !st.strikethrough, i := st.i + 1));
    } else if c == ControlChar.Italic {
      r := Success(st.(italic := !st.italic, i := st.i + 1));
    } else if c == ControlChar.Underline || c == ControlChar.Underline2 {
      r := Success(st.(underline := !st.underline, i := st.i + 1));
    } else if c == ControlChar.HexColor {
      r := HexColorCase(text, st);
    } else if c == ControlChar.Color {
      r := ColorCase(text, st);
    } else if c == ControlChar.Url {
      var next := UrlCase(st);
      r := Success(next);
    } else if c == ControlChar.InteractiveTextEnd {
      r := Success(st.(i := st.i + 1));
    } else if c == ControlChar.InteractiveTextStart {
      var next := InteractiveCase(text, st);
      r := Success(next);
    } else {
      var next := EmitCase(font, c, st);
      r := Success(next);
    }
  }

  /** The HexColor case: ParseHexColors sets both colours and moves the cursor. */
  method HexColorCase(text: string, st: ParseState) returns (r: Result<ParseState>)
    requires 0 <= st.i < |text| && Valid(st)
    ensures r == StepHexColor(text, st)
  {
    var parsed := ParseHexColors(text, st.i);
    if parsed.Failure? {
      return Failure(parsed.error);
    }
    var foreColor, backColor, i := parsed.value.fore, parsed.value.back, parsed.value.next;
    r := Success(st.(foreColor := foreColor, backColor := backColor, i := i + 1));
  }

  /** The Color case: ParseIRCColors sets both colours; a missing background restores the previous one. */
  method ColorCase(text: string, st: ParseState) returns (r: Result<ParseState>)
    requires 0 <= st.i < |text| && Valid(st)
    ensures r == StepColor(text, st)
  {
    var previousBackColor := st.backColor;
    var parsed := ParseIRCColors(text, st.i);
    if parsed.Failure? {
      return Failure(parsed.error);
    }
    var foreColor, backColor, i := parsed.value.fore, parsed.value.back, parsed.value.next;
    if backColor == Transparent && previousBackColor != Transparent {
      backColor := previousBackColor;
    }
    r := Success(st.(foreColor := foreColor, backColor := backColor, i := i + 1));
  }

  /** The Url case. */
  method UrlCase(st: ParseState) returns (r: ParseState)
    requires Valid(st)
    ensures r == StepUrl(st)
  {
    r := st;
    if !r.markingUrl {
      r := r.(urlStartIndex := |r.chars|);
    } else {
      var urlEndIndex := |r.chars|;
      var url := TextOf(r.chars[r.urlStartIndex..urlEndIndex]);
      assert r.chars[r.urlStartIndex..urlEndIndex] == st.chars[st.urlStartIndex..];
      r := r.(urls := r.urls + [Span(r.urlStartIndex, urlEndIndex - 1, url)]);
    }
    r := r.(markingUrl := !r.markingUrl, i := r.i + 1);
  }

  /** The InteractiveTextStart case: the nested scanning loops, then the span they found. */
  method InteractiveCase(text: string, st: ParseState) returns (r: ParseState)
    requires 0 <= st.i < |text| && Valid(st)
    ensures r == StepInteractive(text, st)
  {
    var i, found := ScanInteractiveText(text, st.i, |st.chars|);
    ScanAtShape(text, st.i);
    r := st;
    if found.Some? {
      r := r.(texts := r.texts + [found.value]);
    }
    r := r.(i := i + 1);
  }

  /** The default case: the character is added with its format, or with none if unchanged. */
  method EmitCase(font: Font, c: char, st: ParseState) returns (r: ParseState)
    requires Valid(st)
    ensures r == StepEmit(font, c, st)
  {
    var fontStyle := InternalUtils.GetFontStyle(st.bold, st.underline, st.italic, st.strikethrough);
    var newCharFormat := CharData(WithStyle(font, fontStyle), Some(st.foreColor), Some(st.backColor));
    var data := if !newCharFormat.Equals(Some(st.currentCharFormat)) then Some(newCharFormat) else None;
    r := st.(chars := st.chars + [Char(c, data)], formats := st.formats + [newCharFormat],
             currentCharFormat := newCharFormat, i := st.i + 1);
  }

  /**
   * ParseLineText: the parsing loop, then CalculateDimensions for `maxWidthInChars`.
   * The exceptions of the colour parsers end the parse.
   */
  method ParseLineText(text0: string, font: Font, maxWidthInChars: int, markUrls: string -> string) returns (r: Result<Line>)
    ensures var spec := ParseLine(text0, font, markUrls);
            && (r.Success? <==> spec.Success?)
            && (r.Failure? ==> r.error == spec.error)
            && (r.Success? ==>
                 && fresh(r.value)
                 && r.value.chars == spec.value.chars
                 && r.value.interactiveUrls.items == spec.value.urls
                 && r.value.interactiveTexts.items == spec.value.texts
                 && var w := Layout.Wrap(TextOf(spec.value.chars), maxWidthInChars, 0);
                    r.value.wrapIndexes == w.wraps && r.value.rowsHigh == w.rowsHigh && r.value.width == w.width)
  {
    var text := TrimLineTextRightSide(text0);
    text := markUrls(text);
    var st := Initial(font);
    while st.i < |text|
      invariant Valid(st)
      invariant Run(text, font, st) == Run(text, font, Initial(font))
      decreases |text| - st.i
    {
      var next := ParseChar(text, font, st);
      if next.Failure? {
        return Failure(next.error);
      }
      st := next.value;
    }
    var line := new Line(st.chars, st.urls, st.texts);
    line.CalculateDimensions(maxWidthInChars);
    r := Success(line);
  }
}
