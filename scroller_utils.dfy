/**
 * DonkeyScrollerUtils: the two encoders applications use to build markup, an
 * interactive (double-clickable) text and a hex colour code, each proved to be read
 * back by the parser as what it encodes.
 */
module ScrollerUtils {
  import opened Wrappers
  import opened Drawing
  import opened Fonts
  import ControlChar
  import opened Content
  import opened Spans
  import opened InteractiveScan
  import opened Parsers
  import opened LineParser
  import opened LineParserFacts

  /** CreateInteractiveText: InteractiveTextStart, the hidden data, Split, the displayed text, End. */
  function CreateInteractiveText(data: string, text: string): (s: string)
    ensures |s| == |data| + |text| + 3
    ensures s[0] == ControlChar.InteractiveTextStart && s[|data| + 1] == ControlChar.InteractiveTextSplit
    ensures s[|s| - 1] == ControlChar.InteractiveTextEnd
    ensures forall j :: 0 <= j < |data| ==> s[1 + j] == data[j]
    ensures forall j :: 0 <= j < |text| ==> s[|data| + 2 + j] == text[j]
  {
    [ControlChar.InteractiveTextStart] + data + [ControlChar.InteractiveTextSplit] + text + [ControlChar.InteractiveTextEnd]
  }

  /**
   * The scan from the start of the markup reads back the data and finds the displayed
   * text, provided the data holds no Split and the text no End.
   */
  lemma ScanCreateInteractiveText(data: string, text: string)
    requires ControlChar.InteractiveTextSplit !in data && ControlChar.InteractiveTextEnd !in text
    ensures var line := CreateInteractiveText(data, text);
            ScanAt(line, 0) == Terminated(data, |data| + 1, |line| - 1)
  {
    var line := CreateInteractiveText(data, text);
    var split := |data| + 1;
    forall k | 1 <= k < split
      ensures line[k] != ControlChar.InteractiveTextSplit
    {
      assert line[1 + (k - 1)] == data[k - 1];
    }
    IndexFromAt(line, ControlChar.InteractiveTextSplit, 1, split);
    forall k | split + 1 <= k < |line| - 1
      ensures line[k] != ControlChar.InteractiveTextEnd
    {
      assert line[|data| + 2 + (k - split - 1)] == text[k - split - 1];
    }
    IndexFromAt(line, ControlChar.InteractiveTextEnd, split + 1, |line| - 1);
    assert line[1..split] == data;
  }

  /**
   * A line that is just an interactive text shows exactly the displayed text and
   * records one span over it carrying the data, when the data holds no Split and the
   * text no control character the parser handles.
   */
  lemma ParseCreateInteractiveText(data: string, text: string, font: Font)
    requires ControlChar.InteractiveTextSplit !in data
    requires forall k :: 0 <= k < |text| ==> !ControlChar.IsHandled(text[k])
    ensures var line := CreateInteractiveText(data, text);
            var r := Run(line, font, Initial(font));
            && r.Success?
            && TextOf(r.value.chars) == text
            && r.value.texts == [Span(0, |text| - 1, InteractiveData(data, text))]
            && r.value.urls == []
  {
    var line := CreateInteractiveText(data, text);
    var end := |line| - 1;
    NoEndInPlain(text);
    ScanCreateInteractiveText(data, text);
    var st1 := InteractiveFirst(line, font, data, text);
    forall k | st1.i <= k < end
      ensures !ControlChar.IsHandled(line[k])
    {
      assert line[|data| + 2 + (k - st1.i)] == text[k - st1.i];
    }
    RunPlain(line, font, st1, end);
    EmitRunText(line, font, st1, end);
    assert line[st1.i..end] == text;
    var e := EmitRun(line, font, st1, end);
    InteractiveLast(line, font, e);
    assert TextOf(e.chars) == text;
  }

  /** The closing End is the last step: the run is done right after it. */
  lemma InteractiveLast(line: string, font: Font, e: ParseState)
    requires Valid(e) && e.i == |line| - 1 && line[e.i] == ControlChar.InteractiveTextEnd
    ensures Run(line, font, e) == Success(e.(i := |line|))
  {
    ToggleSteps(line, font, e);
    var done := e.(i := |line|);
    assert Run(line, font, done) == Success(done);
  }

  lemma NoEndInPlain(text: string)
    requires forall k :: 0 <= k < |text| ==> !ControlChar.IsHandled(text[k])
    ensures ControlChar.InteractiveTextEnd !in text
  {
  }

  /** The first iteration on an interactive text records its span and resumes at the displayed text. */
  lemma InteractiveFirst(line: string, font: Font, data: string, text: string) returns (st1: ParseState)
    requires line == CreateInteractiveText(data, text)
    requires ScanAt(line, 0) == Terminated(data, |data| + 1, |line| - 1)
    ensures Valid(st1) && st1.i == |data| + 2 && st1.chars == [] && st1.urls == []
    ensures st1.texts == [Span(0, |text| - 1, InteractiveData(data, text))]
    ensures Run(line, font, Initial(font)) == Run(line, font, st1)
  {
    var st0 := Initial(font);
    st1 := StepInteractive(line, st0);
    InteractiveStep(line, font, st0);
    assert line[|data| + 2..|line| - 1] == text;
  }

  /**
   * CreateHexColorString: HexColor, the foreground as six hex digits, then the
   * background the same way or "XXXXXX" when there is none.
   */
  function CreateHexColorString(foreground: Color, background: Option<Color>): (s: string)
    ensures |s| == 13 && s[0] == ControlChar.HexColor
    ensures s[1..7] == ToHtmlHex(foreground)
    ensures background.Some? ==> s[7..13] == ToHtmlHex(background.value)
    ensures background.None? ==> s[7..13] == "XXXXXX"
  {
    var fore := ToHtmlHex(foreground);
    var back := if background.Some? then ToHtmlHex(background.value) else "XXXXXX";
    var s := [ControlChar.HexColor] + fore + back;
    assert s[1..7] == fore && s[7..13] == back;
    s
  }

  /**
   * The hex parser reads the code back: the opaque colours with the same RGB (names
   * and alpha are not encoded), Transparent for no background, and the cursor on the
   * code's last character.
   */
  lemma ParseCreateHexColorString(foreground: Color, background: Option<Color>)
    ensures var s := CreateHexColorString(foreground, background);
            ParseHexColors(s, 0) == Success(ColorPair(
              FromRgb(foreground.r, foreground.g, foreground.b),
              if background.Some? then FromRgb(background.value.r, background.value.g, background.value.b) else Transparent,
              12))
  {
    var s := CreateHexColorString(foreground, background);
    FromHtmlToHtmlHex(foreground);
    assert s[1..7] == ToHtmlHex(foreground);
    if background.Some? {
      FromHtmlToHtmlHex(background.value);
      var g := s[7..13];
      assert g == ToHtmlHex(background.value);
      assert forall k :: 0 <= k < 6 ==> g[k] != 'X' && g[k] != 'x';
      assert !HasX(g);
    } else {
      assert s[7..13][0] == 'X';
    }
  }
}
