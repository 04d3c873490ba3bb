/**
 * System.Drawing.Color as a value, and the two conversions of ColorTranslator the
 * markup uses: the six-hex-digit "#RRGGBB" form read by FromHtml and written by
 * ToHtml.
 *
 * .NET colours compare by value and by name: `Color.Black` (a known colour) is not
 * equal to `Color.FromArgb(0, 0, 0)` although both are opaque black. The datatype
 * keeps that distinction, so its built-in equality is the .NET `==`.
 */
module Drawing {
  import opened Wrappers

  type Byte = x: int | 0 <= x < 256

  datatype Color =
    | Argb(a: Byte, r: Byte, g: Byte, b: Byte)                 // Color.FromArgb(...): no name
    | Known(name: string, a: Byte, r: Byte, g: Byte, b: Byte)  // Color.Red, Color.Transparent, ...
  {
    /** Color.FromArgb(c.A, c.R, c.G, c.B) (or FromArgb(c.ToArgb())): the same channels without the name. */
    function Unnamed(): (u: Color)
      ensures u.Argb? && u.a == a && u.r == r && u.g == g && u.b == b
    {
      Argb(a, r, g, b)
    }
  }

  /** Color.FromArgb(r, g, b): an opaque colour. */
  function FromRgb(r: Byte, g: Byte, b: Byte): Color {
    Argb(255, r, g, b)
  }

  // The known colours the palettes use, with their .NET channel values.
  const Transparent: Color := Known("Transparent", 0, 255, 255, 255)
  const White: Color := Known("White", 255, 255, 255, 255)
  const Black: Color := Known("Black", 255, 0, 0, 0)
  const Navy: Color := Known("Navy", 255, 0, 0, 128)
  const Green: Color := Known("Green", 255, 0, 128, 0)
  const Red: Color := Known("Red", 255, 255, 0, 0)
  const Brown: Color := Known("Brown", 255, 165, 42, 42)
  const Purple: Color := Known("Purple", 255, 128, 0, 128)
  const DarkOrange: Color := Known("DarkOrange", 255, 255, 140, 0)
  const Yellow: Color := Known("Yellow", 255, 255, 255, 0)
  const LimeGreen: Color := Known("LimeGreen", 255, 50, 205, 50)
  const DarkCyan: Color := Known("DarkCyan", 255, 0, 139, 139)
  const Cyan: Color := Known("Cyan", 255, 0, 255, 255)
  const Blue: Color := Known("Blue", 255, 0, 0, 255)
  const DeepPink: Color := Known("DeepPink", 255, 255, 20, 147)
  const Gray: Color := Known("Gray", 255, 128, 128, 128)
  const LightGray: Color := Known("LightGray", 255, 211, 211, 211)

  // ---------------------------------------------------------------------------
  // Hexadecimal text
  // ---------------------------------------------------------------------------

  predicate IsHexDigit(c: char) {
    '0' <= c <= '9' || 'a' <= c <= 'f' || 'A' <= c <= 'F'
  }

  function HexValue(c: char): (v: nat)
    requires IsHexDigit(c)
    ensures v < 16
  {
    if '0' <= c <= '9' then (c as int) - ('0' as int)
    else if 'a' <= c <= 'f' then (c as int) - ('a' as int) + 10
    else (c as int) - ('A' as int) + 10
  }

  /** The upper-case hexadecimal digit ToHtml writes. */
  function HexChar(v: nat): (c: char)
    requires v < 16
    ensures IsHexDigit(c) && HexValue(c) == v
    ensures c != 'X' && c != 'x'
  {
    "0123456789ABCDEF"[v]
  }

  /** Two hex digits of a byte, most significant first. */
  function ByteToHex(v: Byte): (s: string)
    ensures |s| == 2 && IsHexDigit(s[0]) && IsHexDigit(s[1])
    ensures 16 * HexValue(s[0]) + HexValue(s[1]) == v
  {
    [HexChar(v / 16), HexChar(v % 16)]
  }

  /**
   * The two-character groups Convert.ToInt32(pair, 16) reads: two hex digits, or a
   * plus sign (which it skips) and one hex digit.
   */
  predicate IsHexPair(pair: string)
    requires |pair| == 2
  {
    (IsHexDigit(pair[0]) || pair[0] == '+') && IsHexDigit(pair[1])
  }

  /**
   * Convert.ToInt32(pair, 16) on a two-character group: the number the hex digits
   * spell. A minus sign first throws ArgumentException (a negative number in base
   * 16); a plus sign first is skipped; anything else that is not a hex digit throws
   * FormatException. No white space is allowed, and "0x" is a prefix with no digits
   * after it.
   */
  function HexPairValue(pair: string): (r: Result<Byte>)
    requires |pair| == 2
    ensures r.Success? <==> IsHexPair(pair)
    ensures r.Failure? ==> (r.error == Argument <==> pair[0] == '-') && (r.error == Argument || r.error == Format)
    ensures r.Success? && IsHexDigit(pair[0]) ==> r.value / 16 == HexValue(pair[0]) && r.value % 16 == HexValue(pair[1])
    ensures r.Success? && pair[0] == '+' ==> r.value == HexValue(pair[1])
  {
    if pair[0] == '-' then
      Failure(Argument)
    else if pair[0] == '+' then
      if IsHexDigit(pair[1]) then Success(HexValue(pair[1])) else Failure(Format)
    else if IsHexDigit(pair[0]) && IsHexDigit(pair[1]) then
      Success(16 * HexValue(pair[0]) + HexValue(pair[1]))
    else
      Failure(Format)
  }

  /**
   * ColorTranslator.FromHtml("#" + hex) for a six-character group: the opaque,
   * unnamed colour whose channels are the three pairs read by Convert.ToInt32 in
   * base 16, left to right, so the first unreadable pair decides the exception.
   */
  function FromHtml(hex: string): (r: Result<Color>)
    requires |hex| == 6
    ensures r.Success? <==> IsHexPair(hex[0..2]) && IsHexPair(hex[2..4]) && IsHexPair(hex[4..6])
    ensures (forall k :: 0 <= k < 6 ==> IsHexDigit(hex[k])) ==> r.Success?
    ensures r.Success? ==> r.value.Argb? && r.value.a == 255
    ensures r.Failure? ==> (r.error == Argument || r.error == Format)
    ensures r.Failure? && r.error == Argument ==> hex[0] == '-' || hex[2] == '-' || hex[4] == '-'
    ensures hex[0] == '-' ==> r == Failure(Argument)
  {
    match (HexPairValue(hex[0..2]), HexPairValue(hex[2..4]), HexPairValue(hex[4..6]))
    case (Success(red), Success(green), Success(blue)) => Success(FromRgb(red, green, blue))
    case (Failure(e), _, _) => Failure(e)
    case (_, Failure(e), _) => Failure(e)
    case (_, _, Failure(e)) => Failure(e)
  }

  /** ColorTranslator.ToHtml(Color.FromArgb(c.ToArgb())).Substring(1): "RRGGBB" in upper case. */
  function ToHtmlHex(c: Color): (hex: string)
    ensures |hex| == 6 && forall k :: 0 <= k < 6 ==> IsHexDigit(hex[k]) && hex[k] != 'X' && hex[k] != 'x'
  {
    ByteToHex(c.r) + ByteToHex(c.g) + ByteToHex(c.b)
  }

  /** Writing a colour as hex and reading it back gives the opaque, unnamed colour with the same RGB. */
  lemma FromHtmlToHtmlHex(c: Color)
    ensures FromHtml(ToHtmlHex(c)) == Success(FromRgb(c.r, c.g, c.b))
  {
    var hex := ToHtmlHex(c);
    assert hex[0..2] == ByteToHex(c.r);
    assert hex[2..4] == ByteToHex(c.g);
    assert hex[4..6] == ByteToHex(c.b);
  }

  /** Writing the value of a hex pair gives back digits of the same value. */
  lemma HexPairRoundTrip(pair: string)
    requires |pair| == 2 && IsHexDigit(pair[0]) && IsHexDigit(pair[1])
    ensures HexPairValue(pair).Success?
    ensures HexValue(ByteToHex(HexPairValue(pair).value)[0]) == HexValue(pair[0])
    ensures HexValue(ByteToHex(HexPairValue(pair).value)[1]) == HexValue(pair[1])
  {
    var v := 16 * HexValue(pair[0]) + HexValue(pair[1]);
    assert v / 16 == HexValue(pair[0]) && v % 16 == HexValue(pair[1]);
  }

  /** Reading six hex digits and writing them back gives the same digits, up to letter case. */
  lemma ToHtmlHexFromHtml(hex: string)
    requires |hex| == 6 && forall k :: 0 <= k < 6 ==> IsHexDigit(hex[k])
    ensures FromHtml(hex).Success?
    ensures forall k :: 0 <= k < 6 ==> HexValue(ToHtmlHex(FromHtml(hex).value)[k]) == HexValue(hex[k])
  {
    HexPairRoundTrip(hex[0..2]);
    HexPairRoundTrip(hex[2..4]);
    HexPairRoundTrip(hex[4..6]);
    var c := FromHtml(hex).value;
    assert c.r == HexPairValue(hex[0..2]).value;
    assert c.g == HexPairValue(hex[2..4]).value;
    assert c.b == HexPairValue(hex[4..6]).value;
  }
}
