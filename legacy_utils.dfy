/**
 * The legacy control's Utils (DonkeyScroller/Utils.cs): the font style of a legacy
 * character and the two colour-code parsers of the legacy dialect, which give palette
 * numbers instead of colours. The hex parser looks both colours up in the shared
 * IRCColorTable, adding the ones it has not seen.
 */
module LegacyUtils {
  import opened Wrappers
  import opened Drawing
  import opened Fonts
  import opened TextUtil
  import ControlChar
  import opened Parsers
  import opened IRCColorTable

  /** A legacy Char: palette numbers for its colours (-1 for no background), two style flags, the character. */
  datatype LegacyChar = LegacyChar(foreColor: int, backColor: int, bold: bool, underline: bool, c: char)

  /** GetFontStyle(Char): Bold and Underline as the character's flags say, and nothing else. */
  function GetFontStyle(ch: LegacyChar): (style: FontStyle)
    ensures FontFlag.Bold in style <==> ch.bold
    ensures FontFlag.Underline in style <==> ch.underline
    ensures FontFlag.Italic !in style && FontFlag.Strikeout !in style
  {
    var style := Regular;
    var style := if ch.bold then style + {FontFlag.Bold} else style;
    if ch.underline then style + {FontFlag.Underline} else style
  }

  /** The out parameters of the legacy colour parsers: the two palette numbers and the new cursor. */
  datatype ColorIndexes = ColorIndexes(fore: int, back: int, next: int)

  /**
   * ParseIRCColors (legacy): the same reading of the code as the newer parser's
   * integer overload, and the same exceptions, except that a Color without digits
   * gives Black (1) and no background (-1) where the newer one gives -1 and -1.
   */
  function LegacyParseIRCColors(text: string, i: int): (r: Result<ColorIndexes>)
    ensures r.Success? <==> ParseIRCColorCode(text, i).Success?
    ensures r.Success? ==> i <= r.value.next < |text|
    ensures r.Success? ==> 0 <= r.value.fore <= 99 && -9 <= r.value.back <= 99
    ensures r.Success? && r.value.next == i ==> r.value.fore == MircColorCode.Black.Code() && r.value.back == MircColorCode.None.Code()
    ensures r.Success? ==> (r.value.next == i <==> !(0 <= i + 1 < |text| && IsDigit(text[i + 1])))
  {
    match ParseIRCColorCode(text, i)
    case Failure(e) => Failure(e)
    case Success(code) =>
      if code.foreground == -1 then Success(ColorIndexes(MircColorCode.Black.Code(), MircColorCode.None.Code(), i))
      else Success(ColorIndexes(code.foreground, code.background, code.next))
  }

  /**
   * Where a code has digits the two dialects read the same numbers and stop at the
   * same place; where it has none the legacy one says Black on no background and the
   * newer one -1 on -1.
   */
  lemma DialectsReadSameNumbers(text: string, i: int)
    requires ParseIRCColorCode(text, i).Success?
    ensures var code := ParseIRCColorCode(text, i).value;
            var legacy := LegacyParseIRCColors(text, i).value;
            && legacy.next == code.next
            && (code.foreground != -1 ==> legacy.fore == code.foreground && legacy.back == code.background)
            && (code.foreground == -1 ==> legacy.fore == 1 && legacy.back == -1 && code.background == -1)
  {
  }

  /**
   * What the legacy parser reads, case by case over the text: the newer parser's
   * cases with palette numbers, except that a Color without a digit after it
   * gives Black (1) on no background (-1) and leaves the cursor where it was.
   */
  lemma {:induction false} LegacyParseIRCColorsCases(text: string, i: int)
    ensures !(0 <= i + 1 <= |text|) ==> LegacyParseIRCColors(text, i) == Failure(ArgumentOutOfRange)
    ensures 0 <= i + 1 <= |text| && !(i + 1 < |text| && IsDigit(text[i + 1])) ==>
              LegacyParseIRCColors(text, i) == Success(ColorIndexes(1, -1, i))
    ensures 0 <= i + 1 < |text| && IsDigit(text[i + 1]) ==>
              var two := i + 2 < |text| && IsDigit(text[i + 2]);
              var n := if two then 2 else 1;
              var fg := if two then 10 * DigitValue(text[i + 1]) + DigitValue(text[i + 2]) else DigitValue(text[i + 1]);
              var c := i + 1 + n;
              var r := LegacyParseIRCColors(text, i);
              && (!(c < |text| && text[c] == ',') ==> r == Success(ColorIndexes(fg, -1, i + n)))
              && (c < |text| && text[c] == ',' ==>
                    && (c + 1 == |text| ==> r == Failure(IndexOutOfRange))
                    && (c + 2 < |text| && IsDigit(text[c + 2]) ==>
                          r == match ParseInt(text[c + 1..c + 3])
                               case Failure(e) => Failure(e)
                               case Success(bg) => Success(ColorIndexes(fg, bg, i + n + 3)))
                    && (c + 1 < |text| && !(c + 2 < |text| && IsDigit(text[c + 2])) && IsDigit(text[c + 1]) ==>
                          r == Success(ColorIndexes(fg, DigitValue(text[c + 1]), i + n + 2)))
                    && (c + 1 < |text| && !(c + 2 < |text| && IsDigit(text[c + 2])) && !IsDigit(text[c + 1]) ==>
                          r == Success(ColorIndexes(fg, -1, i + n))))
  {
    ParseIRCColorCodeCases(text, i);
  }

  /** The outcome of the legacy hex parser: the result and the colour table afterwards. */
  datatype HexOutcome = HexOutcome(result: Result<ColorIndexes>, entries: seq<Color>)

  /**
   * ParseHexColors (legacy) on the table `entries`: the background is looked up (and
   * added) first, then the foreground; an X in the background group means no
   * background (-1). Every exception comes before the table is touched.
   */
  function LegacyHexSpec(text: string, i: int, entries: seq<Color>): (r: HexOutcome)
    ensures r.result.Failure? <==> Parsers.ParseHexColors(text, i).Failure?
    ensures r.result.Failure? ==> r.result.error == Parsers.ParseHexColors(text, i).error && r.entries == entries
    ensures r.result.Success? ==>
              var pair := Parsers.ParseHexColors(text, i).value;
              && entries <= r.entries
              && r.result.value.next == i + 12
              && HasKey(r.entries, r.result.value.fore) && r.entries[r.result.value.fore] == pair.fore
              && (r.result.value.back == -1 <==> pair.back == Transparent)
              && (r.result.value.back != -1 ==> HasKey(r.entries, r.result.value.back) && r.entries[r.result.value.back] == pair.back)
  {
    match Parsers.ParseHexColors(text, i)
    case Failure(e) => HexOutcome(Failure(e), entries)
    case Success(pair) =>
      var back := if pair.back == Transparent then Lookup(MircColorCode.None.Code(), entries) else GetSpec(entries, pair.back, 0, true);
      var fore := GetSpec(back.entries, pair.fore, 1, true);
      GetStores(entries, pair.back, 0);
      GetStores(back.entries, pair.fore, 1);
      HexOutcome(Success(ColorIndexes(fore.index, back.index, i + 12)), fore.entries)
  }

  /** A lookup that may add returns a key holding the colour, and only ever extends the table. */
  lemma GetStores(entries: seq<Color>, color: Color, defaultValue: int)
    ensures var r := GetSpec(entries, color, defaultValue, true);
            entries <= r.entries && HasKey(r.entries, r.index) && r.entries[r.index] == color
  {
    if color in entries {
      GetFound(entries, color, defaultValue, true);
    }
  }

  /** ParseHexColors (legacy) against the shared table. */
  method LegacyParseHexColors(text: string, i: int, table: Palette) returns (r: Result<ColorIndexes>)
    modifies table
    ensures HexOutcome(r, table.entries) == LegacyHexSpec(text, i, old(table.entries))
  {
    if i + 1 < 0 || i + 1 > |text| {
      return Failure(ArgumentOutOfRange);
    }
    var t := text[i + 1..];
    if |t| < 6 || |t| < 12 {
      return Failure(ArgumentOutOfRange);
    }
    var hexForeground := t[0..6];
    var hexBackground := t[6..12];
    assert hexForeground == text[i + 1..i + 7] && hexBackground == text[i + 7..i + 13];
    var clrForeGround := FromHtml(hexForeground);
    if clrForeGround.Failure? {
      return Failure(clrForeGround.error);
    }
    var colorBackground;
    if !HasX(hexBackground) {
      var clrBackGround := FromHtml(hexBackground);
      if clrBackGround.Failure? {
        return Failure(clrBackGround.error);
      }
      colorBackground := table.Get(clrBackGround.value, 0, true);
    } else {
      colorBackground := MircColorCode.None.Code();
    }
    var colorForeground := table.Get(clrForeGround.value, 1, true);
    r := Success(ColorIndexes(colorForeground, colorBackground, i + 12));
  }
}
