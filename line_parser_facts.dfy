/**
 * What ParseLineText promises about the line it builds, proved on the loop's
 * specification `Run`: every emitted character is one the switch does not handle;
 * a character carries a format exactly where its format differs from the previous
 * character's, so the formats can be recovered from the stored ones alone; every
 * URL span holds the characters between its markers; and a line without markup is
 * emitted as it is.
 */
module LineParserFacts {
  import opened Wrappers
  import opened Drawing
  import opened Fonts
  import ControlChar
  import opened Content
  import opened Spans
  import opened Parsers
  import opened LineParser
  import IRCColorTranslator
  import opened TextUtil

  /** The format the character at `k` is compared with: its predecessor's, or the base format. */
  function PrevFormat(font: Font, formats: seq<CharData>, k: int): CharData
    requires 0 <= k < |formats|
  {
    if k == 0 then BaseFormat(font) else formats[k - 1]
  }

  /** The format of the last character emitted, or the base format before the first. */
  function LastFormat(font: Font, formats: seq<CharData>): CharData {
    if |formats| == 0 then BaseFormat(font) else formats[|formats| - 1]
  }

  /** A character stores its format exactly when that differs from the previous character's. */
  predicate Compressed(font: Font, chars: seq<Char>, formats: seq<CharData>)
    requires |chars| == |formats|
  {
    forall k :: 0 <= k < |chars| ==>
      chars[k].data == (if formats[k] == PrevFormat(font, formats, k) then None else Some(formats[k]))
  }

  /** A URL span covers emitted characters, and its url is their text. */
  predicate UrlSpanOk(chars: seq<Char>, u: Span<string>) {
    0 <= u.charStart <= u.charEnd + 1 <= |chars| && u.payload == TextOf(chars[u.charStart..u.charEnd + 1])
  }

  /** What holds of the loop's variables between iterations. */
  predicate ParseInv(font: Font, st: ParseState) {
    && Valid(st)
    && (forall k :: 0 <= k < |st.chars| ==> !ControlChar.IsHandled(st.chars[k].c))
    && st.currentCharFormat == LastFormat(font, st.formats)
    && Compressed(font, st.chars, st.formats)
    && (forall u :: u in st.urls ==> UrlSpanOk(st.chars, u))
  }

  lemma InitialInv(font: Font)
    ensures ParseInv(font, Initial(font))
  {
  }

  /** The default case keeps the invariant: the new character is compared with the last format. */
  lemma EmitInv(text: string, font: Font, st: ParseState)
    requires st.i < |text| && ParseInv(font, st) && !ControlChar.IsHandled(text[st.i])
    ensures ParseInv(font, StepEmit(font, text[st.i], st))
  {
    var c := text[st.i];
    var f := FormatNow(font, st);
    var ch := Char(c, if f == LastFormat(font, st.formats) then None else Some(f));
    var r := StepEmit(font, c, st);
    assert r == st.(chars := st.chars + [ch], formats := st.formats + [f], currentCharFormat := f, i := st.i + 1);
    CompressedPush(font, st.chars, st.formats, ch, f);
    UrlSpansAfterPush(st.chars, ch, st.urls);
    assert LastFormat(font, r.formats) == f;
    HandledAfterPush(st.chars, ch);
  }

  /** A character pushed with its format stored only when that differs from the last keeps the line compressed. */
  lemma CompressedPush(font: Font, chars: seq<Char>, formats: seq<CharData>, ch: Char, f: CharData)
    requires |chars| == |formats| && Compressed(font, chars, formats)
    requires ch.data == (if f == LastFormat(font, formats) then None else Some(f))
    ensures Compressed(font, chars + [ch], formats + [f])
  {
    var n := |chars|;
    var cs, fs := chars + [ch], formats + [f];
    forall k | 0 <= k < n + 1
      ensures cs[k].data == (if fs[k] == PrevFormat(font, fs, k) then None else Some(fs[k]))
    {
      if k < n {
        PrevFormatPush(font, formats, f, k);
      } else {
        assert PrevFormat(font, fs, n) == LastFormat(font, formats);
      }
    }
  }

  /** Appending a format leaves the earlier characters' comparisons as they were. */
  lemma PrevFormatPush(font: Font, formats: seq<CharData>, f: CharData, k: int)
    requires 0 <= k < |formats|
    ensures (formats + [f])[k] == formats[k] && PrevFormat(font, formats + [f], k) == PrevFormat(font, formats, k)
  {
  }

  /** Pushing a character the switch does not handle keeps every character unhandled. */
  lemma HandledAfterPush(chars: seq<Char>, ch: Char)
    requires !ControlChar.IsHandled(ch.c)
    requires forall k :: 0 <= k < |chars| ==> !ControlChar.IsHandled(chars[k].c)
    ensures forall k :: 0 <= k < |chars| + 1 ==> !ControlChar.IsHandled((chars + [ch])[k].c)
  {
  }

  /** Emitting a character leaves every recorded URL span over the same characters. */
  lemma UrlSpansAfterPush(chars: seq<Char>, ch: Char, urls: seq<Span<string>>)
    requires forall u :: u in urls ==> UrlSpanOk(chars, u)
    ensures forall u :: u in urls ==> UrlSpanOk(chars + [ch], u)
  {
    forall u | u in urls
      ensures UrlSpanOk(chars + [ch], u)
    {
      assert UrlSpanOk(chars, u);
      assert (chars + [ch])[u.charStart..u.charEnd + 1] == chars[u.charStart..u.charEnd + 1];
    }
  }

  /** The Url case keeps the invariant: a closing marker records the characters since the opening one. */
  lemma UrlInv(font: Font, st: ParseState)
    requires ParseInv(font, st)
    ensures ParseInv(font, StepUrl(st))
  {
    var r := StepUrl(st);
    if st.markingUrl {
      var u := Span(st.urlStartIndex, |st.chars| - 1, TextOf(st.chars[st.urlStartIndex..]));
      assert r.urls == st.urls + [u];
      assert st.chars[u.charStart..u.charEnd + 1] == st.chars[st.urlStartIndex..];
      assert UrlSpanOk(r.chars, u);
    }
  }

  /** Every iteration keeps the invariant. */
  lemma StepInv(text: string, font: Font, st: ParseState)
    requires st.i < |text| && ParseInv(font, st) && Step(text, font, st).Success?
    ensures ParseInv(font, Step(text, font, st).value)
  {
    var c := text[st.i];
    var r := Step(text, font, st).value;
    if c == ControlChar.Url {
      UrlInv(font, st);
    } else if !ControlChar.IsHandled(c) {
      EmitStep(text, font, st);
      EmitInv(text, font, st);
    } else {
      OtherStepKeeps(text, font, st);
    }
  }

  /** InteractiveTextStart goes to the scanning case. */
  lemma InteractiveStep(text: string, font: Font, st: ParseState)
    requires st.i < |text| && Valid(st) && text[st.i] == ControlChar.InteractiveTextStart
    ensures Step(text, font, st) == Success(StepInteractive(text, st))
  {
  }

  /** A character the switch does not handle goes to the default case. */
  lemma EmitStep(text: string, font: Font, st: ParseState)
    requires st.i < |text| && Valid(st) && !ControlChar.IsHandled(text[st.i])
    ensures Step(text, font, st) == Success(StepEmit(font, text[st.i], st))
  {
  }

  /** The cases other than Url and the default one leave the characters, their formats and the URL spans alone. */
  lemma OtherStepKeeps(text: string, font: Font, st: ParseState)
    requires st.i < |text| && Valid(st) && Step(text, font, st).Success?
    requires ControlChar.IsHandled(text[st.i]) && text[st.i] != ControlChar.Url
    ensures var r := Step(text, font, st).value;
            r.chars == st.chars && r.formats == st.formats && r.urls == st.urls
            && r.currentCharFormat == st.currentCharFormat
  {
    var c := text[st.i];
    if c == ControlChar.HexColor {
      assert Step(text, font, st) == StepHexColor(text, st);
    } else if c == ControlChar.Color {
      assert Step(text, font, st) == StepColor(text, st);
    } else if c == ControlChar.InteractiveTextStart {
      assert Step(text, font, st) == Success(StepInteractive(text, st));
    } else {
      ToggleSteps(text, font, st);
    }
  }

  /** The rest of the loop keeps the invariant. */
  lemma {:induction false} RunInv(text: string, font: Font, st: ParseState)
    requires ParseInv(font, st) && Run(text, font, st).Success?
    ensures ParseInv(font, Run(text, font, st).value)
    decreases |text| - st.i
  {
    if st.i < |text| {
      StepInv(text, font, st);
      RunInv(text, font, Step(text, font, st).value);
    }
  }

  /**
   * ParseLineText's line: no handled control character is emitted, every character
   * stores its format exactly when it differs from the previous one (Black on
   * Transparent in the control's font before the first), and every URL span's url is
   * the text of the characters it covers.
   */
  lemma ParseLineInv(text: string, font: Font, markUrls: string -> string)
    requires ParseLine(text, font, markUrls).Success?
    ensures ParseInv(font, ParseLine(text, font, markUrls).value)
  {
    InitialInv(font);
    RunInv(markUrls(TrimRight(text)), font, Initial(font));
  }

  /** The format in force at character `k`, found as a renderer finds it: the last stored one at or before `k`. */
  function Effective(font: Font, chars: seq<Char>, k: int): CharData
    requires -1 <= k < |chars|
    decreases k + 1
  {
    if k < 0 then BaseFormat(font)
    else match chars[k].data
      case Some(d) => d
      case None => Effective(font, chars, k - 1)
  }

  /** The compression loses nothing: the stored formats give back every character's format. */
  lemma {:induction false} EffectiveIsFormat(font: Font, chars: seq<Char>, formats: seq<CharData>, k: int)
    requires |chars| == |formats| && Compressed(font, chars, formats) && 0 <= k < |chars|
    ensures Effective(font, chars, k) == formats[k]
    decreases k
  {
    if chars[k].data.None? && k > 0 {
      EffectiveIsFormat(font, chars, formats, k - 1);
    }
  }

  /** Each style toggle flips its own flag and nothing else. */
  lemma ToggleSteps(text: string, font: Font, st: ParseState)
    requires st.i < |text| && Valid(st)
    ensures text[st.i] == ControlChar.Bold ==> Step(text, font, st) == Success(st.(bold := !st.bold, i := st.i + 1))
    ensures text[st.i] == ControlChar.Italic ==> Step(text, font, st) == Success(st.(italic := !st.italic, i := st.i + 1))
    ensures text[st.i] == ControlChar.StrikeThrough ==>
              Step(text, font, st) == Success(st.(strikethrough := !st.strikethrough, i := st.i + 1))
    ensures text[st.i] in {ControlChar.Underline, ControlChar.Underline2} ==>
              Step(text, font, st) == Success(st.(underline := !st.underline, i := st.i + 1))
    ensures text[st.i] == ControlChar.InteractiveTextEnd ==> Step(text, font, st) == Success(st.(i := st.i + 1))
  {
  }

  /**
   * The Color case: the foreground is the palette colour of the code (Black outside
   * 0..15), and the background is the code's palette colour, or the one already in
   * force when the code gives none in 0..15.
   */
  lemma ColorStep(text: string, font: Font, st: ParseState)
    requires st.i < |text| && Valid(st) && text[st.i] == ControlChar.Color
    requires ParseIRCColorCode(text, st.i).Success?
    ensures var code := ParseIRCColorCode(text, st.i).value;
            var r := Step(text, font, st);
            && r.Success?
            && r.value.i == code.next + 1
            && r.value.foreColor == (if 0 <= code.foreground < 16 then IRCColorTranslator.ColorsTable[code.foreground] else Black)
            && r.value.backColor == (if 0 <= code.background < 16 then IRCColorTranslator.ColorsTable[code.background] else st.backColor)
            && r.value.chars == st.chars && r.value.urls == st.urls && r.value.texts == st.texts
  {
    assert IRCColorTranslator.Colors() == IRCColorTranslator.ColorsTable;
  }

  /** The state after the default case has emitted `text[st.i..stop]` one character at a time. */
  function EmitRun(text: string, font: Font, st: ParseState, stop: int): (r: ParseState)
    requires Valid(st) && st.i <= stop <= |text|
    ensures Valid(r) && r.i == stop
    decreases stop - st.i
  {
    if st.i == stop then st else EmitRun(text, font, StepEmit(font, text[st.i], st), stop)
  }

  /** Emitting adds exactly the characters of the text, and no span. */
  lemma {:induction false} EmitRunText(text: string, font: Font, st: ParseState, stop: int)
    requires Valid(st) && st.i <= stop <= |text|
    ensures var r := EmitRun(text, font, st, stop);
            TextOf(r.chars) == TextOf(st.chars) + text[st.i..stop] && r.urls == st.urls && r.texts == st.texts
    decreases stop - st.i
  {
    if st.i < stop {
      var next := StepEmit(font, text[st.i], st);
      assert EmitRun(text, font, st, stop) == EmitRun(text, font, next, stop);
      EmitRunText(text, font, next, stop);
      assert next.chars == st.chars + [next.chars[|st.chars|]] && next.chars[|st.chars|].c == text[st.i];
      TextOfPush(st.chars, next.chars[|st.chars|]);
      SliceFirst(text, st.i, stop);
    }
  }

  /** Characters the switch does not handle are all emitted by the default case, in order. */
  lemma {:induction false} RunPlain(text: string, font: Font, st: ParseState, stop: int)
    requires Valid(st) && st.i <= stop <= |text|
    requires forall k :: st.i <= k < stop ==> !ControlChar.IsHandled(text[k])
    ensures Run(text, font, st) == Run(text, font, EmitRun(text, font, st, stop))
    decreases stop - st.i
  {
    if st.i < stop {
      var next := StepEmit(font, text[st.i], st);
      EmitStep(text, font, st);
      assert Run(text, font, st) == Run(text, font, next);
      RunPlain(text, font, next, stop);
    }
  }

  lemma TextOfPush(chars: seq<Char>, ch: Char)
    ensures TextOf(chars + [ch]) == TextOf(chars) + [ch.c]
  {
    assert (chars + [ch])[..|chars|] == chars;
  }

  /** A line whose marked-up text has no handled control characters shows exactly that text. */
  lemma PlainLine(text: string, font: Font, markUrls: string -> string)
    requires forall k :: 0 <= k < |markUrls(TrimRight(text))| ==> !ControlChar.IsHandled(markUrls(TrimRight(text))[k])
    ensures ParseLine(text, font, markUrls).Success?
    ensures var r := ParseLine(text, font, markUrls).value;
            TextOf(r.chars) == markUrls(TrimRight(text)) && r.urls == [] && r.texts == []
  {
    var line := markUrls(TrimRight(text));
    RunPlain(line, font, Initial(font), |line|);
    EmitRunText(line, font, Initial(font), |line|);
    var e := EmitRun(line, font, Initial(font), |line|);
    assert Run(line, font, e) == Success(e);
  }
}
