/**
 * The helpers of the newer line parser (Internal/Parsers.cs): trimming formatting
 * codes off the end of a line, and reading an mIRC colour code or a hex colour code
 * at a cursor. The cursor is C#'s `ref int i`; here each parser returns where it
 * left it. Every exception these helpers can raise is a `Failure`.
 */
module Parsers {
  import opened Wrappers
  import opened TextUtil
  import opened Drawing
  import ControlChar
  import IRCColorTranslator
  import IRCColorTable

  // ---------------------------------------------------------------------------
  // Trimming the end of a line
  // ---------------------------------------------------------------------------

  /** The one-character toggles TrimLineTextRightSideSingleControlChars removes. */
  predicate IsSingleControlChar(c: char) {
    c == ControlChar.Bold || c == ControlChar.StrikeThrough || c == ControlChar.Italic
    || c == ControlChar.Underline2 || c == ControlChar.Underline
  }

  /** Characters a trailing colour code may consist of. */
  predicate IsColorCodeChar(c: char) {
    IsDigit(c) || c == ',' || c == ControlChar.Color
  }

  /** Every character a right-side trim may remove. */
  predicate IsTrailingFormatting(c: char) {
    IsSingleControlChar(c) || IsColorCodeChar(c)
  }

  /** TrimLineTextRightSideSingleControlChars: drops every trailing toggle character. */
  function TrimSingleControlChars(text: string): (r: string)
    ensures r <= text
    ensures r == [] || !IsSingleControlChar(r[|r| - 1])
    ensures forall k :: |r| <= k < |text| ==> IsSingleControlChar(text[k])
  {
    TrimEndBy(text, IsSingleControlChar)
  }

  /**
   * What TrimLineTextRightSideColorCode returns: when the text ends in a digit and
   * everything from its last Color character on is digits, commas and Color
   * characters, the text before that Color character; otherwise the text itself.
   */
  function TrimColorCode(text: string): string {
    if |text| > 0 && IsDigit(text[|text| - 1]) then
      var k := LastIndexOf(text, ControlChar.Color);
      if k != -1 && forall j :: k <= j < |text| ==> IsColorCodeChar(text[j]) then text[..k] else text
    else text
  }

  /** TrimLineTextRightSideColorCode: the scan from the last Color character to the end. */
  method TrimLineTextRightSideColorCode(text: string) returns (r: string)
    ensures r == TrimColorCode(text)
  {
    if |text| > 0 && IsDigit(text[|text| - 1]) {
      var colorControlCharIndex := LastIndexOf(text, ControlChar.Color);
      if colorControlCharIndex == -1 {
        return text;
      }
      var j := colorControlCharIndex;
      while j < |text|
        invariant colorControlCharIndex <= j <= |text|
        invariant forall m :: colorControlCharIndex <= m < j ==> IsColorCodeChar(text[m])
      {
        var c := text[j];
        if !IsDigit(c) && c != ',' && c != ControlChar.Color {
          return text;
        }
        j := j + 1;
      }
      return text[..colorControlCharIndex];
    }
    return text;
  }

  /** What TrimLineTextRightSide returns. */
  function TrimRight(text: string): string {
    if |text| == 0 then "" else TrimColorCode(TrimSingleControlChars(text))
  }

  /** TrimLineTextRightSide: toggles first, then one trailing colour code. */
  method TrimLineTextRightSide(text: string) returns (r: string)
    ensures r == TrimRight(text)
  {
    if |text| == 0 {
      return "";
    }
    var t := TrimSingleControlChars(text);
    r := TrimLineTextRightSideColorCode(t);
  }

  /**
   * The right-side trim removes only a suffix, and only formatting characters: the
   * text shown is never shortened.
   */
  lemma TrimRightRemovesOnlyFormatting(text: string)
    ensures TrimRight(text) <= text
    ensures forall k :: |TrimRight(text)| <= k < |text| ==> IsTrailingFormatting(text[k])
  {
    if |text| > 0 {
      var t := TrimSingleControlChars(text);
      assert forall k :: 0 <= k < |t| ==> t[k] == text[k];
    }
  }

  /**
   * A colour code is removed exactly when the text ends in a digit after its last
   * Color character with nothing but code characters in between; what goes is that
   * whole code, Color character included.
   */
  lemma TrimColorCodeRemovesLastCode(text: string)
    ensures TrimColorCode(text) != text <==>
              (|text| > 0 && IsDigit(text[|text| - 1]) && ControlChar.Color in text
               && forall j :: LastIndexOf(text, ControlChar.Color) <= j < |text| ==> IsColorCodeChar(text[j]))
    ensures TrimColorCode(text) != text ==>
              var r := TrimColorCode(text);
              text[|r|] == ControlChar.Color && ControlChar.Color !in text[|r| + 1..]
  {
    var r := TrimColorCode(text);
    if r != text {
      var k := LastIndexOf(text, ControlChar.Color);
      assert |r| == k;
    }
  }

  // ---------------------------------------------------------------------------
  // mIRC colour codes
  // ---------------------------------------------------------------------------

  /**
   * The out parameters of ParseIRCColors(text, ref i, out fg, out bg, out fgLen,
   * out bgLen): the two numbers (-1 when absent), their lengths as written, and the
   * new cursor, which is left on the last character of the code.
   */
  datatype ColorCode = ColorCode(foreground: int, background: int, foregroundLength: int, backgroundLength: int, next: int)

  /** The length of the foreground number after position `i`: two digits when there are, else one. */
  function ForegroundLength(t: string): nat
    requires |t| > 0
  {
    if |t| > 1 && IsDigit(t[1]) then 2 else 1
  }

  /**
   * ParseIRCColors with integer results, for the code whose Color character is at
   * `i`. Substring(i + 1) out of range, int.Parse of a malformed two-character
   * background, and a comma at the very end (text[0] on an empty string) all throw.
   */
  function ParseIRCColorCode(text: string, i: int): (r: Result<ColorCode>)
    ensures r.Success? ==> i <= r.value.next < |text|
    ensures r.Success? ==> -1 <= r.value.foreground <= 99 && -9 <= r.value.background <= 99
    ensures r.Success? ==> (r.value.foreground == -1 <==> r.value.next == i)
    ensures r.Success? && r.value.foreground == -1 ==> r.value.background == -1
    ensures r.Success? && r.value.foreground != -1 ==>
              var n := r.value.foregroundLength;
              (n == 1 || n == 2) && 0 <= i + 1 && i + 1 + n <= |text| && AllDigits(text[i + 1..i + 1 + n])
              && r.value.foreground == DecimalValue(text[i + 1..i + 1 + n])
  {
    if i + 1 < 0 || i + 1 > |text| then Failure(ArgumentOutOfRange)
    else
      var t := text[i + 1..];
      if !(|t| > 0 && IsDigit(t[0])) then Success(ColorCode(-1, -1, 1, 1, i))
      else
        var fgLen := ForegroundLength(t);
        assert t[..fgLen] == text[i + 1..i + 1 + fgLen];
        var fg := DecimalValue(t[..fgLen]);
        TwoDigitValue(t[..fgLen]);
        var rest := t[fgLen..];
        var j := i + fgLen;
        if |rest| > 0 && rest[0] == ',' then
          var after := rest[1..];
          if |after| > 1 && IsDigit(after[1]) then
            match ParseInt(after[..2])
            case Failure(e) => Failure(e)
            case Success(bg) => Success(ColorCode(fg, bg, fgLen, 2, j + 3))
          else if |after| == 0 then Failure(IndexOutOfRange)
          else if IsDigit(after[0]) then Success(ColorCode(fg, DigitValue(after[0]), fgLen, 1, j + 2))
          else Success(ColorCode(fg, -1, fgLen, 1, j))
        else Success(ColorCode(fg, -1, fgLen, 1, j))
  }

  /**
   * The colour-code parser throws exactly when the cursor is outside the text, when a
   * code ends in a comma, or when the two characters after a comma end in a digit
   * but do not start with a digit, a sign or number white space.
   */
  lemma ParseIRCColorCodeFailures(text: string, i: int)
    ensures ParseIRCColorCode(text, i).Failure? <==>
              (i + 1 < 0 || i + 1 > |text|)
              || (var t := text[i + 1..];
                  |t| > 0 && IsDigit(t[0]) &&
                  var c := 1 + ForegroundLength(t);
                  |t| > ForegroundLength(t) && t[ForegroundLength(t)] == ',' &&
                  (|t| == c
                   || (|t| > c + 1 && IsDigit(t[c + 1])
                       && !(IsDigit(t[c]) || t[c] == '-' || t[c] == '+' || IsNumberWhite(t[c])))))
  {
    if 0 <= i + 1 <= |text| {
      var t := text[i + 1..];
      if |t| > 0 && IsDigit(t[0]) {
        var n := ForegroundLength(t);
        var rest := t[n..];
        if |rest| > 0 && rest[0] == ',' {
          var after := rest[1..];
          if |after| > 1 {
            assert after[..2] == [t[n + 1], t[n + 2]];
          }
        }
      }
    }
  }

  /**
   * What the colour-code parser reads, case by case over the text: a digit after the
   * Color character starts a foreground of one digit, or of two when the next
   * character is a digit too (the cursor then rests on its last digit). A comma
   * after it followed by two characters ending in a digit reads those two with
   * int.Parse; a comma followed by one digit reads that digit; a comma followed by
   * anything else is left unread. In each case the cursor ends on the last
   * character read.
   */
  lemma {:induction false} ParseIRCColorCodeCases(text: string, i: int)
    ensures !(0 <= i + 1 <= |text|) ==> ParseIRCColorCode(text, i) == Failure(ArgumentOutOfRange)
    ensures 0 <= i + 1 <= |text| && !(i + 1 < |text| && IsDigit(text[i + 1])) ==>
              ParseIRCColorCode(text, i) == Success(ColorCode(-1, -1, 1, 1, i))
    ensures 0 <= i + 1 < |text| && IsDigit(text[i + 1]) ==>
              var two := i + 2 < |text| && IsDigit(text[i + 2]);
              var n := if two then 2 else 1;
              var fg := if two then 10 * DigitValue(text[i + 1]) + DigitValue(text[i + 2]) else DigitValue(text[i + 1]);
              var c := i + 1 + n;
              var r := ParseIRCColorCode(text, i);
              && (!(c < |text| && text[c] == ',') ==> r == Success(ColorCode(fg, -1, n, 1, i + n)))
              && (c < |text| && text[c] == ',' ==>
                    && (c + 1 == |text| ==> r == Failure(IndexOutOfRange))
                    && (c + 2 < |text| && IsDigit(text[c + 2]) ==>
                          r == match ParseInt(text[c + 1..c + 3])
                               case Failure(e) => Failure(e)
                               case Success(bg) => Success(ColorCode(fg, bg, n, 2, i + n + 3)))
                    && (c + 1 < |text| && !(c + 2 < |text| && IsDigit(text[c + 2])) && IsDigit(text[c + 1]) ==>
                          r == Success(ColorCode(fg, DigitValue(text[c + 1]), n, 1, i + n + 2)))
                    && (c + 1 < |text| && !(c + 2 < |text| && IsDigit(text[c + 2])) && !IsDigit(text[c + 1]) ==>
                          r == Success(ColorCode(fg, -1, n, 1, i + n))))
  {
    if 0 <= i + 1 < |text| && IsDigit(text[i + 1]) {
      var t := text[i + 1..];
      var n := ForegroundLength(t);
      var w := t[..n];
      if n == 2 {
        assert w[..1][..0] == [];
        assert DecimalValue(w[..1]) == DigitValue(text[i + 1]);
        assert DecimalValue(w) == 10 * DigitValue(text[i + 1]) + DigitValue(text[i + 2]);
      } else {
        assert w[..0] == [];
        assert DecimalValue(w) == DigitValue(text[i + 1]);
      }
      var rest := t[n..];
      assert |rest| == |text| - (i + 1 + n);
      if |rest| > 0 {
        assert rest[0] == text[i + 1 + n];
      }
      if |rest| > 0 && rest[0] == ',' {
        var after := rest[1..];
        if |after| > 0 {
          assert after[0] == text[i + n + 2];
        }
        if |after| > 1 {
          assert after[1] == text[i + n + 3];
          assert after[..2] == text[i + n + 2..i + n + 4];
        }
      }
    }
  }

  /** The newer ParseIRCColors result: colours and the new cursor. */
  datatype ColorPair = ColorPair(fore: Color, back: Color, next: int)

  /**
   * ParseIRCColors(text, ref i, out Color, out Color): palette colours for the
   * numbers, Black for a missing or unknown foreground and Transparent for a missing
   * or unknown background.
   */
  function ParseIRCColors(text: string, i: int): (r: Result<ColorPair>)
    ensures r.Success? <==> ParseIRCColorCode(text, i).Success?
    ensures r.Success? ==>
              var code := ParseIRCColorCode(text, i).value;
              r.value.next == code.next
              && (0 <= code.foreground < 16 ==> r.value.fore == IRCColorTranslator.ColorsTable[code.foreground])
              && (!(0 <= code.foreground < 16) ==> r.value.fore == Black)
              && (0 <= code.background < 16 ==> r.value.back == IRCColorTranslator.ColorsTable[code.background])
              && (!(0 <= code.background < 16) ==> r.value.back == Transparent)
  {
    match ParseIRCColorCode(text, i)
    case Failure(e) => Failure(e)
    case Success(code) =>
      Success(ColorPair(IRCColorTranslator.NumberToColor(code.foreground, Some(Black)),
                        IRCColorTranslator.NumberToColor(code.background, Some(Transparent)), code.next))
  }

  // ---------------------------------------------------------------------------
  // Hex colour codes
  // ---------------------------------------------------------------------------

  /** hexBackground.ToUpper().Contains("X"). */
  predicate HasX(group: string) {
    'X' in group || 'x' in group
  }

  /**
   * ParseHexColors: after HexColor come six hex digits of foreground and six of
   * background; a background group holding an X means "no background" (Transparent).
   * Fewer than twelve characters throw ArgumentOutOfRange; a group FromHtml cannot
   * read throws its FormatException or ArgumentException; the foreground is read
   * first.
   */
  function ParseHexColors(text: string, i: int): (r: Result<ColorPair>)
    ensures r == Failure(ArgumentOutOfRange) <==> !(0 <= i + 1 && i + 13 <= |text|)
    ensures r.Success? <==>
              0 <= i + 1 && i + 13 <= |text|
              && FromHtml(text[i + 1..i + 7]).Success?
              && (HasX(text[i + 7..i + 13]) || FromHtml(text[i + 7..i + 13]).Success?)
    ensures r.Success? ==>
              r.value.next == i + 12 && r.value.fore == FromHtml(text[i + 1..i + 7]).value
              && (r.value.back == Transparent <==> HasX(text[i + 7..i + 13]))
              && (!HasX(text[i + 7..i + 13]) ==> r.value.back == FromHtml(text[i + 7..i + 13]).value)
  {
    if i + 1 < 0 || i + 1 > |text| then Failure(ArgumentOutOfRange)
    else
      var t := text[i + 1..];
      if |t| < 6 then Failure(ArgumentOutOfRange)
      else if |t| < 12 then Failure(ArgumentOutOfRange)
      else
        var hexForeground := t[0..6];
        var hexBackground := t[6..12];
        assert hexForeground == text[i + 1..i + 7] && hexBackground == text[i + 7..i + 13];
        match FromHtml(hexForeground)
        case Failure(e) => Failure(e)
        case Success(fore) =>
          if HasX(hexBackground) then Success(ColorPair(fore, Transparent, i + 12))
          else
            match FromHtml(hexBackground)
            case Failure(e) => Failure(e)
            case Success(back) => Success(ColorPair(fore, back, i + 12))
  }

  // ---------------------------------------------------------------------------
  // ParseColorsStringAt
  // ---------------------------------------------------------------------------

  /**
   * ParseColorsStringAt: "" for a blank text or one that does not start with Color,
   * else the colour code at `index` rebuilt by RebuildColorCode.
   */
  function ParseColorsStringAt(text: string, index: int): (r: Result<string>)
    ensures IsWhiteSpaceOnly(text) ==> r == Success("")
    ensures !IsWhiteSpaceOnly(text) && text[0] != ControlChar.Color ==> r == Success("")
    ensures !IsWhiteSpaceOnly(text) && text[0] == ControlChar.Color ==> r == RebuildColorCode(text, index)
    ensures r.Success? && r.value != "" ==> r.value[0] == ControlChar.Color
  {
    TrimEmptyIffWhiteSpace(text);
    if Trim(text) == [] then Success("")
    else if text[0] != ControlChar.Color then Success("")
    else RebuildColorCode(text, index)
  }

  /**
   * The rebuilding half of ParseColorsStringAt: the code at `index` read by the
   * colour-code parser and written back after a Color, each number padded with
   * zeros to the width it was read from; the parser's exceptions pass through.
   */
  function RebuildColorCode(text: string, index: int): (r: Result<string>)
    ensures r.Success? <==> ParseIRCColorCode(text, index).Success?
    ensures r.Failure? ==> r.error == ParseIRCColorCode(text, index).error
    ensures r.Success? ==> |r.value| >= 1 && r.value[0] == ControlChar.Color
  {
    match ParseIRCColorCode(text, index)
    case Failure(e) => Failure(e)
    case Success(code) => Success(ColorCodeString(code))
  }

  /**
   * The text RebuildColorCode writes for the numbers of a code: Color, then the
   * foreground padded with zeros to its width, then a comma and the background
   * padded to its width; a missing number (-1) and everything after it is left out.
   */
  function ColorCodeString(code: ColorCode): (s: string)
    ensures |s| >= 1 && s[0] == ControlChar.Color
    ensures code.foreground == -1 <==> s == [ControlChar.Color]
  {
    if code.foreground == -1 then [ControlChar.Color]
    else
      var fore := PadLeft(IntToString(code.foreground), code.foregroundLength, '0');
      if code.background == -1 then [ControlChar.Color] + fore
      else [ControlChar.Color] + fore + "," + PadLeft(IntToString(code.background), code.backgroundLength, '0')
  }

  /**
   * RebuildColorCode gives the code at `index` back as it was written, from the
   * Color character to the cursor, when its numbers are written in plain digits: a
   * Color with no digit after it comes back bare, a foreground alone as its digits,
   * and a foreground with a background as the whole code. A background written with
   * a sign or white space before its digit comes back as its value in the same two
   * characters ("+5" and " 5" as "05", "-5" as "-5"), and one read as -1 is dropped.
   */
  lemma {:induction false} RebuildColorCodeAsWritten(text: string, index: int)
    requires ParseIRCColorCode(text, index).Success?
    ensures var code := ParseIRCColorCode(text, index).value;
            var s := RebuildColorCode(text, index);
            var n := code.foregroundLength;
            var b := code.background;
            && s.Success?
            && (code.foreground == -1 ==> s.value == [ControlChar.Color])
            && (code.foreground != -1 && b == -1 ==> s.value == [ControlChar.Color] + text[index + 1..index + 1 + n])
            && (b != -1 ==>
                  && 0 <= index + 1 && index + n + 2 <= code.next < |text|
                  && (IsDigit(text[index + n + 2]) ==> s.value == [ControlChar.Color] + text[index + 1..code.next + 1])
                  && (!IsDigit(text[index + n + 2]) ==>
                        s.value == [ControlChar.Color] + text[index + 1..index + n + 2]
                                   + (if b < 0 then IntToString(b) else "0" + IntToString(b))))
  {
    var code := ParseIRCColorCode(text, index).value;
    if code.foreground != -1 {
      ForegroundFound(text, index);
    }
    if code.background != -1 {
      BackgroundFound(text, index);
    }
    CodeStringAsWritten(text, index, code);
  }

  /** What the parser found for a foreground of `code` after the Color at `index`: its digits and their value. */
  predicate ForegroundRead(text: string, index: int, code: ColorCode) {
    var n := code.foregroundLength;
    && (n == 1 || n == 2) && 0 <= index + 1 && index + 1 + n <= |text|
    && IsDigit(text[index + 1]) && (n == 2 ==> IsDigit(text[index + 2]))
    && code.foreground == (if n == 2 then 10 * DigitValue(text[index + 1]) + DigitValue(text[index + 2])
                           else DigitValue(text[index + 1]))
  }

  /**
   * What the parser found for a background of `code`: a comma after the foreground,
   * then one digit, or two characters ending in a digit, up to the cursor; two
   * digits give their decimal value, a sign or white space and a digit the digit,
   * possibly negated.
   */
  predicate BackgroundRead(text: string, index: int, code: ColorCode) {
    var n := code.foregroundLength;
    var m := code.backgroundLength;
    var b := code.background;
    && ForegroundRead(text, index, code)
    && index + n + 2 <= code.next < |text|
    && m == code.next + 1 - (index + n + 2) && (m == 1 || m == 2)
    && text[index + 1 + n] == ',' && IsDigit(text[code.next])
    && (m == 1 ==> b == DigitValue(text[code.next]))
    && (m == 2 && IsDigit(text[index + n + 2]) ==>
          b == 10 * DigitValue(text[index + n + 2]) + DigitValue(text[code.next]))
    && (m == 2 && !IsDigit(text[index + n + 2]) ==>
          b == DigitValue(text[code.next]) || b + DigitValue(text[code.next]) == 0)
  }

  /** ColorCodeString against the text a code was read from, given what the parser found there. */
  lemma CodeStringAsWritten(text: string, index: int, code: ColorCode)
    requires code.foreground == -1 ==> code.background == -1
    requires code.foreground != -1 ==> ForegroundRead(text, index, code)
    requires code.background != -1 ==> BackgroundRead(text, index, code)
    ensures var s := ColorCodeString(code);
            var n := code.foregroundLength;
            var b := code.background;
            && (code.foreground == -1 ==> s == [ControlChar.Color])
            && (code.foreground != -1 && b == -1 ==> s == [ControlChar.Color] + text[index + 1..index + 1 + n])
            && (b != -1 ==>
                  && (IsDigit(text[index + n + 2]) ==> s == [ControlChar.Color] + text[index + 1..code.next + 1])
                  && (!IsDigit(text[index + n + 2]) ==>
                        s == [ControlChar.Color] + text[index + 1..index + n + 2]
                             + (if b < 0 then IntToString(b) else "0" + IntToString(b))))
  {
    if code.foreground != -1 {
      if code.background == -1 {
        ForegroundAsWritten(text, index, code);
      } else if IsDigit(text[index + code.foregroundLength + 2]) {
        BackgroundAsWritten(text, index, code);
      } else {
        SignedBackgroundAsWritten(text, index, code);
      }
    }
  }

  /** A foreground alone is written back as the digits it was read from. */
  lemma ForegroundAsWritten(text: string, index: int, code: ColorCode)
    requires code.foreground != -1 && code.background == -1 && ForegroundRead(text, index, code)
    ensures ColorCodeString(code) == [ControlChar.Color] + text[index + 1..index + 1 + code.foregroundLength]
  {
    var w := text[index + 1..index + 1 + code.foregroundLength];
    DigitPair(w);
    ZeroPaddedDigits(w);
  }

  /** A foreground with a background written in digits is written back as the whole code. */
  lemma BackgroundAsWritten(text: string, index: int, code: ColorCode)
    requires code.foreground != -1 && code.background != -1 && BackgroundRead(text, index, code)
    requires IsDigit(text[index + code.foregroundLength + 2])
    ensures ColorCodeString(code) == [ControlChar.Color] + text[index + 1..code.next + 1]
  {
    var n := code.foregroundLength;
    var bw := text[index + n + 2..code.next + 1];
    var w := text[index + 1..index + 1 + n];
    BackgroundPieces(text, index, code);
    SplitAtComma(text, index + 1, index + 1 + n, code.next + 1);
    assert text[index + 1..code.next + 1] == text[index + 1..index + n + 2] + bw;
    Rejoin(ColorCodeString(code), w, bw, w, text[index + 1..index + n + 2], text[index + 1..code.next + 1], bw);
  }

  /**
   * A foreground with a background written as a sign or white space and a digit is
   * written back with the background's value in two characters.
   */
  lemma SignedBackgroundAsWritten(text: string, index: int, code: ColorCode)
    requires code.foreground != -1 && code.background != -1 && BackgroundRead(text, index, code)
    requires !IsDigit(text[index + code.foregroundLength + 2])
    ensures var b := code.background;
            ColorCodeString(code) == [ControlChar.Color] + text[index + 1..index + code.foregroundLength + 2]
                                     + (if b < 0 then IntToString(b) else "0" + IntToString(b))
  {
    var n := code.foregroundLength;
    var b := code.background;
    var w := text[index + 1..index + 1 + n];
    BackgroundPieces(text, index, code);
    SplitAtComma(text, index + 1, index + 1 + n, code.next + 1);
    var back := if b < 0 then IntToString(b) else "0" + IntToString(b);
    Rejoin(ColorCodeString(code), w, back, w, text[index + 1..index + n + 2], text[index + 1..code.next + 1], back);
  }

  /**
   * The two pieces ColorCodeString writes for a code with a background: the
   * foreground digits as read, and the background's text in its written width.
   */
  lemma BackgroundPieces(text: string, index: int, code: ColorCode)
    requires code.foreground != -1 && code.background != -1 && BackgroundRead(text, index, code)
    ensures var n := code.foregroundLength;
            var b := code.background;
            var bw := text[index + n + 2..code.next + 1];
            && (IsDigit(bw[0]) ==> ColorCodeString(code) == [ControlChar.Color] + text[index + 1..index + 1 + n] + "," + bw)
            && (!IsDigit(bw[0]) ==>
                  ColorCodeString(code) == [ControlChar.Color] + text[index + 1..index + 1 + n] + ","
                                           + (if b < 0 then IntToString(b) else "0" + IntToString(b)))
  {
    var n := code.foregroundLength;
    ForegroundPiece(text, index, code);
    BackgroundPiece(text, index, code);
    var fore := PadLeft(IntToString(code.foreground), n, '0');
    var back := PadLeft(IntToString(code.background), code.backgroundLength, '0');
    assert ColorCodeString(code) == [ControlChar.Color] + fore + "," + back;
    assert text[index + n + 2..code.next + 1][0] == text[index + n + 2];
  }

  /** The foreground ColorCodeString writes is the digits it was read from. */
  lemma ForegroundPiece(text: string, index: int, code: ColorCode)
    requires ForegroundRead(text, index, code)
    ensures PadLeft(IntToString(code.foreground), code.foregroundLength, '0')
            == text[index + 1..index + 1 + code.foregroundLength]
  {
    var w := text[index + 1..index + 1 + code.foregroundLength];
    DigitPair(w);
    ZeroPaddedDigits(w);
  }

  /** The background ColorCodeString writes, against the characters it was read from. */
  lemma BackgroundPiece(text: string, index: int, code: ColorCode)
    requires code.background != -1 && BackgroundRead(text, index, code)
    ensures var n := code.foregroundLength;
            var b := code.background;
            var back := PadLeft(IntToString(b), code.backgroundLength, '0');
            && (IsDigit(text[index + n + 2]) ==> back == text[index + n + 2..code.next + 1])
            && (!IsDigit(text[index + n + 2]) ==> back == (if b < 0 then IntToString(b) else "0" + IntToString(b)))
  {
    var n := code.foregroundLength;
    var bw := text[index + n + 2..code.next + 1];
    assert bw[0] == text[index + n + 2] && bw[|bw| - 1] == text[code.next];
    RebuiltBackground(bw, code.background);
  }

  /** One or two digit characters and their decimal value. */
  lemma DigitPair(w: string)
    requires (|w| == 1 || |w| == 2) && IsDigit(w[0]) && IsDigit(w[|w| - 1])
    ensures AllDigits(w)
    ensures DecimalValue(w) == if |w| == 2 then 10 * DigitValue(w[0]) + DigitValue(w[1]) else DigitValue(w[0])
  {
    if |w| == 2 {
      assert w[..1][..0] == [];
      assert DecimalValue(w[..1]) == DigitValue(w[0]);
    } else {
      assert w[..0] == [];
    }
  }

  /** Color, the foreground and the background joined at a comma, against the code as written. */
  lemma Rejoin(s: string, fore: string, back: string, w: string, head: string, whole: string, bw: string)
    requires s == [ControlChar.Color] + fore + "," + back && fore == w && head == w + ","
    ensures s == [ControlChar.Color] + head + back
    ensures whole == head + bw && back == bw ==> s == [ControlChar.Color] + whole
  {
  }

  /** A code's text split at its comma: the foreground digits, the comma, the background. */
  lemma SplitAtComma(text: string, a: int, c: int, e: int)
    requires 0 <= a <= c < e <= |text|
    ensures text[a..c + 1] == text[a..c] + [text[c]]
    ensures text[a..e] == text[a..c] + [text[c]] + text[c + 1..e]
  {
  }

  /** A foreground the parser found is one or two digits after the Color, with their value. */
  lemma ForegroundFound(text: string, index: int)
    requires ParseIRCColorCode(text, index).Success?
    requires ParseIRCColorCode(text, index).value.foreground != -1
    ensures ForegroundRead(text, index, ParseIRCColorCode(text, index).value)
  {
    var code := ParseIRCColorCode(text, index).value;
    var w := text[index + 1..index + 1 + code.foregroundLength];
    assert IsDigit(w[0]) && IsDigit(w[|w| - 1]);
    DigitPair(w);
  }

  /**
   * A background the parser found follows a comma after the foreground and runs to
   * the cursor: one digit, or two characters ending in a digit.
   */
  lemma BackgroundFound(text: string, index: int)
    requires ParseIRCColorCode(text, index).Success?
    requires ParseIRCColorCode(text, index).value.background != -1
    ensures ParseIRCColorCode(text, index).value.foreground != -1
    ensures BackgroundRead(text, index, ParseIRCColorCode(text, index).value)
  {
    ParseIRCColorCodeCases(text, index);
    ForegroundFound(text, index);
  }

  /**
   * The background text RebuildColorCode writes in the width `bw` had: `bw`
   * itself when it is written in digits, else the signed digit, padded with a zero
   * when it has no minus sign.
   */
  lemma RebuiltBackground(bw: string, b: int)
    requires (|bw| == 1 || |bw| == 2) && IsDigit(bw[|bw| - 1]) && b != -1
    requires |bw| == 1 ==> b == DigitValue(bw[0])
    requires |bw| == 2 && IsDigit(bw[0]) ==> b == 10 * DigitValue(bw[0]) + DigitValue(bw[1])
    requires |bw| == 2 && !IsDigit(bw[0]) ==> b == DigitValue(bw[1]) || b + DigitValue(bw[1]) == 0
    ensures var back := PadLeft(IntToString(b), |bw|, '0');
            && (IsDigit(bw[0]) ==> back == bw)
            && (!IsDigit(bw[0]) ==> back == (if b < 0 then IntToString(b) else "0" + IntToString(b)))
  {
    if IsDigit(bw[0]) {
      DigitPair(bw);
      ZeroPaddedDigits(bw);
    } else if b >= 0 {
      var back := PadLeft(IntToString(b), |bw|, '0');
      assert back == "0" + IntToString(b);
    }
  }

  // ---------------------------------------------------------------------------
  // Round trips with the writers of colour codes
  // ---------------------------------------------------------------------------

  /** `rest` cannot extend a number written just before it. */
  predicate EndsNumber(rest: string) {
    rest == [] || !IsDigit(rest[0])
  }

  /**
   * The code GetColorString(f, b) writes is read back as f and b, with the cursor
   * left on its last character, for every foreground of at most two digits and
   * every background the two-character int.Parse accepts.
   */
  lemma ColorStringRoundTrip(f: int, b: int, rest: string)
    requires 0 <= f <= 99 && -9 <= b <= 99 && EndsNumber(rest)
    ensures var code := IRCColorTable.GetColorString(f, b);
            ParseIRCColorCode(code + rest, 0)
              == Success(ColorCode(f, b, |IntToString(f)|, |IntToString(b)|, |code| - 1))
  {
    var fs, bs := IntToString(f), IntToString(b);
    var code := IRCColorTable.GetColorString(f, b);
    var text := code + rest;
    var t := text[1..];
    assert t == fs + ("," + bs + rest);
    ForegroundDigits(f, "," + bs + rest);
    var after := t[|fs|..][1..];
    assert after == bs + rest;
    BackgroundDigits(b, rest);
    var n := |fs|;
    assert ForegroundLength(t) == n && t[..n] == fs && t[n..] == "," + bs + rest;
    assert DecimalValue(t[..n]) == f;
  }

  /** The decimal foreground at the head of a string is read back as one or two digits. */
  lemma ForegroundDigits(f: int, tail: string)
    requires 0 <= f <= 99 && (tail == [] || !IsDigit(tail[0]))
    ensures var fs := IntToString(f);
            var t := fs + tail;
            && IsDigit(t[0]) && ForegroundLength(t) == |fs| && t[..|fs|] == fs && t[|fs|..] == tail
            && AllDigits(fs) && DecimalValue(fs) == f
  {
    var fs := IntToString(f);
    assert (fs + tail)[..|fs|] == fs;
  }

  /** The background the code writes, followed by a non-digit, is read back by the comma branch. */
  lemma BackgroundDigits(b: int, rest: string)
    requires -9 <= b <= 99 && EndsNumber(rest)
    ensures var bs := IntToString(b);
            var after := bs + rest;
            && (|bs| == 2 ==> |after| > 1 && IsDigit(after[1]) && ParseInt(after[..2]) == Success(b))
            && (|bs| == 1 ==> |after| > 0 && !(|after| > 1 && IsDigit(after[1])) && IsDigit(after[0])
                              && DigitValue(after[0]) == b)
  {
    var bs := IntToString(b);
    var after := bs + rest;
    if |bs| == 2 {
      assert after[..2] == bs;
      if b < 0 {
        assert bs == "-" + NatToString(-b);
      } else {
        assert AllDigits(bs);
      }
    } else {
      assert after[0] == bs[0];
    }
  }

  /** The code GetColorString(f) writes is read back as f with no background. */
  lemma ForeColorStringRoundTrip(f: int, rest: string)
    requires 0 <= f <= 99 && EndsNumber(rest) && (rest == [] || rest[0] != ',')
    ensures var code := IRCColorTable.GetForeColorString(f);
            ParseIRCColorCode(code + rest, 0) == Success(ColorCode(f, -1, |IntToString(f)|, 1, |code| - 1))
  {
    var fs := IntToString(f);
    var text := IRCColorTable.GetForeColorString(f) + rest;
    var t := text[1..];
    assert t == fs + rest;
    assert t[..|fs|] == fs;
    assert t[|fs|..] == rest;
  }

  /**
   * ParseColorsStringAt at the start of a code GetColorString(f, b) wrote gives that
   * code back; a background of -1 is read as "no background" and dropped.
   */
  lemma ColorsStringAtRoundTrip(f: int, b: int, rest: string)
    requires 0 <= f <= 99 && -9 <= b <= 99 && EndsNumber(rest)
    ensures var code := IRCColorTable.GetColorString(f, b);
            ParseColorsStringAt(code + rest, 0)
              == Success(if b == -1 then IRCColorTable.GetForeColorString(f) else code)
  {
    var code := IRCColorTable.GetColorString(f, b);
    var text := code + rest;
    ColorStringRoundTrip(f, b, rest);
    ColorsStringAtOfCode(text, f, b, |code| - 1);
  }

  /** A code the colour-code parser reads as f and b, at full width, is rewritten as it was. */
  lemma ColorsStringAtOfCode(text: string, f: int, b: int, next: int)
    requires |text| > 0 && text[0] == ControlChar.Color && 0 <= f
    requires ParseIRCColorCode(text, 0) == Success(ColorCode(f, b, |IntToString(f)|, |IntToString(b)|, next))
    ensures ParseColorsStringAt(text, 0) == Success(
              if b == -1 then [ControlChar.Color] + IntToString(f)
              else [ControlChar.Color] + IntToString(f) + "," + IntToString(b))
  {
    assert !IsWhiteSpace(text[0]);
    TrimEmptyIffWhiteSpace(text);
  }
}
