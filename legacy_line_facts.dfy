/**
 * What the legacy Parse promises, proved on `LegacyRun`: only characters its switch
 * does not handle are emitted, every URL segment holds the characters between its
 * markers, the shared palette only ever grows (also when a later code throws), a bare
 * Color resets the background, and plain text is emitted Black on no background.
 */
module LegacyLineFacts {
  import opened Wrappers
  import opened Drawing
  import opened TextUtil
  import ControlChar
  import opened Spans
  import opened Parsers
  import opened IRCColorTable
  import opened LegacyUtils
  import opened LegacyLine

  /** A URL segment covers emitted characters, and its url is their text. */
  predicate UrlSegmentOk(chars: seq<LegacyChar>, u: Span<string>) {
    0 <= u.charStart <= u.charEnd + 1 <= |chars| && u.payload == LegacyTextOf(chars[u.charStart..u.charEnd + 1])
  }

  /** What holds between iterations, for a parse that started with the palette `base`. */
  predicate LegacyInv(base: seq<Color>, st: LegacyState) {
    && LegacyValid(st)
    && (forall k :: 0 <= k < |st.chars| ==> !ControlChar.IsLegacyHandled(st.chars[k].c))
    && (forall u :: u in st.urls ==> UrlSegmentOk(st.chars, u))
    && base <= st.entries
  }

  /** The default case keeps the invariant. */
  lemma LegacyEmitInv(base: seq<Color>, c: char, st: LegacyState)
    requires LegacyInv(base, st) && !ControlChar.IsLegacyHandled(c)
    ensures LegacyInv(base, LegacyStepEmit(c, st))
  {
    var r := LegacyStepEmit(c, st);
    forall u | u in r.urls
      ensures UrlSegmentOk(r.chars, u)
    {
      assert UrlSegmentOk(st.chars, u);
      assert r.chars[u.charStart..u.charEnd + 1] == st.chars[u.charStart..u.charEnd + 1];
    }
  }

  /** The Url case keeps the invariant. */
  lemma LegacyUrlInv(base: seq<Color>, st: LegacyState)
    requires LegacyInv(base, st)
    ensures LegacyInv(base, LegacyStepUrl(st))
  {
    if st.markingUrl {
      var u := Span(st.urlStart, |st.chars| - 1, LegacyTextOf(st.chars[st.urlStart..]));
      assert LegacyStepUrl(st).urls == st.urls + [u];
      assert st.chars[u.charStart..u.charEnd + 1] == st.chars[st.urlStart..];
    }
  }

  /** The HexColor case only extends the palette. */
  lemma LegacyHexInv(base: seq<Color>, text: string, st: LegacyState)
    requires LegacyInv(base, st) && LegacyStepHex(text, st).Success?
    ensures LegacyInv(base, LegacyStepHex(text, st).value)
  {
    var o := LegacyHexSpec(text, st.i, st.entries);
    assert st.entries <= o.entries;
  }

  /** Every iteration keeps the invariant. */
  lemma LegacyStepInv(base: seq<Color>, text: string, st: LegacyState)
    requires st.i < |text| && LegacyInv(base, st) && LegacyStep(text, st).Success?
    ensures LegacyInv(base, LegacyStep(text, st).value)
  {
    var c := text[st.i];
    if c == ControlChar.Url {
      assert LegacyStep(text, st) == Success(LegacyStepUrl(st));
      LegacyUrlInv(base, st);
    } else if c == ControlChar.HexColor {
      assert LegacyStep(text, st) == LegacyStepHex(text, st);
      LegacyHexInv(base, text, st);
    } else if !ControlChar.IsLegacyHandled(c) {
      assert LegacyStep(text, st) == Success(LegacyStepEmit(c, st));
      LegacyEmitInv(base, c, st);
    } else {
      LegacyOtherKeeps(text, st);
    }
  }

  /** The cases other than Url, HexColor and the default leave characters, segments and palette alone. */
  lemma LegacyOtherKeeps(text: string, st: LegacyState)
    requires st.i < |text| && LegacyValid(st) && LegacyStep(text, st).Success?
    requires ControlChar.IsLegacyHandled(text[st.i]) && text[st.i] != ControlChar.Url && text[st.i] != ControlChar.HexColor
    ensures var r := LegacyStep(text, st).value;
            r.chars == st.chars && r.urls == st.urls && r.entries == st.entries
  {
    var c := text[st.i];
    if c == ControlChar.Color {
      assert LegacyStep(text, st) == LegacyStepColor(text, st);
    } else if c == ControlChar.InteractiveTextStart {
      assert LegacyStep(text, st) == Success(LegacyStepInteractive(text, st));
    }
  }

  /**
   * The rest of the loop keeps the invariant, and an exception leaves a palette that
   * still extends the one the parse started with.
   */
  lemma {:induction false} LegacyRunInv(base: seq<Color>, text: string, st: LegacyState)
    requires LegacyInv(base, st)
    ensures match LegacyRun(text, st)
            case Done(r) => LegacyInv(base, r)
            case Threw(_, entries) => base <= entries
    decreases |text| - st.i
  {
    if st.i < |text| {
      match LegacyStep(text, st)
      case Failure(e) =>
      case Success(next) =>
        LegacyStepInv(base, text, st);
        LegacyRunInv(base, text, next);
    }
  }

  /**
   * Parse's outcome: no character the legacy switch handles is emitted, every URL
   * segment's url is the text of the characters it covers, and the palette afterwards
   * (also after an exception) extends the one before.
   */
  lemma ParseFacts(text: string, entries: seq<Color>)
    ensures match LegacyRun(text, LegacyInitial(entries))
            case Done(r) =>
              && (forall k :: 0 <= k < |r.chars| ==> !ControlChar.IsLegacyHandled(r.chars[k].c))
              && (forall u :: u in r.urls ==> UrlSegmentOk(r.chars, u))
              && entries <= r.entries
            case Threw(_, after) => entries <= after
  {
    LegacyRunInv(entries, text, LegacyInitial(entries));
  }

  /**
   * A Color without digits after it sets Black on no background: unlike the newer
   * dialect, the background in force is not kept.
   */
  lemma BareColorResetsBackground(text: string, st: LegacyState)
    requires st.i < |text| && LegacyValid(st) && text[st.i] == ControlChar.Color
    requires !(st.i + 1 < |text| && IsDigit(text[st.i + 1]))
    ensures LegacyStep(text, st) == Success(st.(foreColor := 1, backColor := -1, i := st.i + 1))
  {
    assert ParseIRCColorCode(text, st.i).Success?;
  }

  /** Bold flips only on Bold, underline on both underline codes; Italic and StrikeThrough are emitted. */
  lemma LegacyToggles(text: string, st: LegacyState)
    requires st.i < |text| && LegacyValid(st)
    ensures text[st.i] == ControlChar.Bold ==> LegacyStep(text, st) == Success(st.(bold := !st.bold, i := st.i + 1))
    ensures text[st.i] in {ControlChar.Underline, ControlChar.Underline2} ==>
              LegacyStep(text, st) == Success(st.(underline := !st.underline, i := st.i + 1))
    ensures text[st.i] in {ControlChar.Italic, ControlChar.StrikeThrough, ControlChar.Reset, ControlChar.Reverse} ==>
              LegacyStep(text, st) == Success(LegacyStepEmit(text[st.i], st))
  {
  }

  /**
   * Inside URL markers a character with the default colours is drawn Blue and
   * underlined; any other character keeps the colours and styles in force.
   */
  lemma UrlCharsAreBlue(c: char, st: LegacyState)
    ensures var ch := LegacyCharOf(c, st);
            && ch.c == c && ch.bold == st.bold && ch.backColor == st.backColor
            && (st.markingUrl && st.foreColor == 1 && st.backColor == -1 ==> ch.foreColor == 12 && ch.underline)
            && (!(st.markingUrl && st.foreColor == 1 && st.backColor == -1) ==>
                  ch.foreColor == st.foreColor && ch.underline == st.underline)
  {
  }

  /** The legacy characters of plain text, Black on no background, without style. */
  function PlainChars(s: string): (chars: seq<LegacyChar>)
    ensures |chars| == |s|
    ensures forall k :: 0 <= k < |s| ==> chars[k] == LegacyChar(1, -1, false, false, s[k])
  {
    if |s| == 0 then [] else PlainChars(s[..|s| - 1]) + [LegacyChar(1, -1, false, false, s[|s| - 1])]
  }

  lemma PlainCharsCons(c: char, s: string)
    ensures PlainChars([c] + s) == [LegacyChar(1, -1, false, false, c)] + PlainChars(s)
  {
    var l := PlainChars([c] + s);
    var r := [LegacyChar(1, -1, false, false, c)] + PlainChars(s);
    assert |l| == |r|;
    forall k | 0 <= k < |l|
      ensures l[k] == r[k]
    {
      if k > 0 {
        assert ([c] + s)[k] == s[k - 1];
      }
    }
  }

  /**
   * A stretch of text without a character the legacy switch handles, from the cursor
   * up to `stop`, is emitted as it is, Black on no background without style; nothing
   * else in the state changes.
   */
  lemma {:induction false} LegacyRunPlain(text: string, st: LegacyState, stop: int)
    requires LegacyValid(st) && st.i <= stop <= |text| && !st.markingUrl
    requires st.foreColor == 1 && st.backColor == -1 && !st.bold && !st.underline
    requires forall k :: st.i <= k < stop ==> !ControlChar.IsLegacyHandled(text[k])
    ensures LegacyRun(text, st) == LegacyRun(text, st.(chars := st.chars + PlainChars(text[st.i..stop]), i := stop))
    decreases stop - st.i
  {
    if st.i < stop {
      var next := LegacyPlainStep(text, st);
      LegacyRunPlain(text, next, stop);
      PlainCharsStep(text, st.chars, st.i, stop);
    } else {
      assert text[st.i..stop] == [];
      assert st.(chars := st.chars + PlainChars(text[st.i..stop]), i := stop) == st;
    }
  }

  /** One plain character: emitted Black on no background, and the run goes on after it. */
  lemma LegacyPlainStep(text: string, st: LegacyState) returns (next: LegacyState)
    requires LegacyValid(st) && st.i < |text| && !st.markingUrl
    requires st.foreColor == 1 && st.backColor == -1 && !st.bold && !st.underline
    requires !ControlChar.IsLegacyHandled(text[st.i])
    ensures LegacyValid(next) && next == st.(chars := st.chars + [LegacyChar(1, -1, false, false, text[st.i])], i := st.i + 1)
    ensures LegacyRun(text, st) == LegacyRun(text, next)
  {
    next := LegacyStepEmit(text[st.i], st);
    assert LegacyStep(text, st) == Success(next);
  }

  /** Emitting one plain character, then the rest, is emitting the whole stretch. */
  lemma PlainCharsStep(text: string, chars: seq<LegacyChar>, i: int, stop: int)
    requires 0 <= i < stop <= |text|
    ensures (chars + [LegacyChar(1, -1, false, false, text[i])]) + PlainChars(text[i + 1..stop])
            == chars + PlainChars(text[i..stop])
  {
    SliceFirst(text, i, stop);
    PlainCharsCons(text[i], text[i + 1..stop]);
  }

  /** Parsing a plain line gives exactly its characters, Black on no background. */
  lemma ParsePlain(text: string, entries: seq<Color>)
    requires forall k :: 0 <= k < |text| ==> !ControlChar.IsLegacyHandled(text[k])
    ensures LegacyRun(text, LegacyInitial(entries)).Done?
    ensures var r := LegacyRun(text, LegacyInitial(entries)).st;
            r.chars == PlainChars(text) && LegacyTextOf(r.chars) == text && r.urls == [] && r.segments == []
            && r.entries == entries
  {
    PlainFromStart(text, LegacyInitial(entries));
    PlainText(text);
  }

  /** From the start of a plain text with no characters yet, the run emits the whole text. */
  lemma PlainFromStart(text: string, st: LegacyState)
    requires LegacyValid(st) && st.i == 0 && st.chars == [] && !st.markingUrl
    requires st.foreColor == 1 && st.backColor == -1 && !st.bold && !st.underline
    requires forall k :: 0 <= k < |text| ==> !ControlChar.IsLegacyHandled(text[k])
    ensures LegacyRun(text, st) == Done(st.(chars := PlainChars(text), i := |text|))
  {
    LegacyRunPlain(text, st, |text|);
    assert text[0..|text|] == text;
    assert st.chars + PlainChars(text) == PlainChars(text);
    var st1 := st.(chars := PlainChars(text), i := |text|);
    assert LegacyRun(text, st1) == Done(st1);
  }

  /** The text of plain characters is the text they came from. */
  lemma PlainText(s: string)
    ensures LegacyTextOf(PlainChars(s)) == s
  {
    var t := LegacyTextOf(PlainChars(s));
    assert |t| == |s|;
    forall k | 0 <= k < |s|
      ensures t[k] == s[k]
    {
    }
  }
}
