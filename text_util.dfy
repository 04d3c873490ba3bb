/**
 * The pieces of the .NET base library the markup engine relies on, stated over
 * `string` = `seq<char>`: character classes, `int.Parse` on the one- and
 * two-character slices the colour parsers hand it, `int.ToString`, `PadLeft`,
 * `Trim`/`TrimEnd`, `LastIndexOf`, `List.IndexOf` and C# integer division.
 */
module TextUtil {
  import opened Wrappers

  // ---------------------------------------------------------------------------
  // Character classes
  // ---------------------------------------------------------------------------

  /** `char.IsDigit`, restricted to the ASCII digits. */
  predicate IsDigit(c: char) {
    '0' <= c <= '9'
  }

  function DigitValue(c: char): (d: nat)
    requires IsDigit(c)
    ensures d < 10
  {
    (c as int) - ('0' as int)
  }

  function DigitChar(d: nat): (c: char)
    requires d < 10
    ensures IsDigit(c) && DigitValue(c) == d
  {
    (('0' as int) + d) as char
  }

  /** `char.IsWhiteSpace`: the Unicode space separators plus U+0009..U+000D, U+0085, U+2028 and U+2029. */
  predicate IsWhiteSpace(c: char) {
    var n := c as int;
    (9 <= n <= 13) || n == 0x20 || n == 0x85 || n == 0xA0 || n == 0x1680
    || (0x2000 <= n <= 0x200A) || n == 0x2028 || n == 0x2029 || n == 0x202F
    || n == 0x205F || n == 0x3000
  }

  /** The white space `int.Parse` skips around a number (NumberStyles.Integer): U+0009..U+000D and U+0020. */
  predicate IsNumberWhite(c: char) {
    c == ' ' || '\t' <= c <= '\r'
  }

  /**
   * `char.IsLetterOrDigit`. Exact on U+0000..U+00FF (ASCII letters and digits and
   * the Latin-1 letters); every character above U+00FF counts as a letter.
   */
  predicate IsLetterOrDigit(c: char) {
    var n := c as int;
    ('0' <= c <= '9') || ('A' <= c <= 'Z') || ('a' <= c <= 'z')
    || n == 0xAA || n == 0xB5 || n == 0xBA
    || (0xC0 <= n <= 0xFF && n != 0xD7 && n != 0xF7)
    || n > 0xFF
  }

  // ---------------------------------------------------------------------------
  // Numbers as text
  // ---------------------------------------------------------------------------

  predicate AllDigits(s: string) {
    forall k :: 0 <= k < |s| ==> IsDigit(s[k])
  }

  /** The value of a string of decimal digits. */
  function DecimalValue(s: string): (n: nat)
    requires AllDigits(s)
  {
    if |s| == 0 then 0 else 10 * DecimalValue(s[..|s| - 1]) + DigitValue(s[|s| - 1])
  }

  /** At most two digits make at most 99. */
  /** A non-empty slice is its first element followed by the rest. */
  lemma SliceFirst<T>(s: seq<T>, i: int, j: int)
    requires 0 <= i < j <= |s|
    ensures s[i..j] == [s[i]] + s[i + 1..j]
  {
  }

  lemma TwoDigitValue(s: string)
    requires |s| <= 2 && AllDigits(s)
    ensures DecimalValue(s) <= 99
  {
    if |s| == 2 {
      assert s[..1][..0] == [];
    }
  }

  /**
   * `int.Parse(s)` with NumberStyles.Integer, for the only shapes the colour
   * parsers pass it: one or two characters whose last one is a digit. The first
   * of two characters may be a digit, a sign, or leading white; anything else
   * raises a FormatException.
   */
  function ParseInt(s: string): (r: Result<int>)
    requires 1 <= |s| <= 2 && IsDigit(s[|s| - 1])
    ensures r.Success? <==> |s| == 1 || IsDigit(s[0]) || s[0] == '-' || s[0] == '+' || IsNumberWhite(s[0])
    ensures AllDigits(s) ==> r == Success(DecimalValue(s))
    ensures r.Success? ==> -9 <= r.value <= 99
  {
    var last: int := DigitValue(s[|s| - 1]);
    if |s| == 1 then Success(last)
    else if IsDigit(s[0]) then
      assert DecimalValue(s[..1]) == DigitValue(s[0]) by {
        assert s[..1][..0] == [];
      }
      Success(10 * DigitValue(s[0]) + last)
    else if s[0] == '-' then Success(-last)
    else if s[0] == '+' || IsNumberWhite(s[0]) then Success(last)
    else Failure(Format)
  }

  /** `n.ToString()` for a natural number: its decimal digits, without leading zeros. */
  function NatToString(n: nat): (s: string)
    ensures 1 <= |s| && AllDigits(s) && DecimalValue(s) == n
    ensures (|s| == 1 <==> n < 10) && (|s| == 2 <==> 10 <= n < 100)
    ensures |s| > 1 ==> s[0] != '0'
  {
    if n < 10 then [DigitChar(n)]
    else
      var p := NatToString(n / 10);
      var s := p + [DigitChar(n % 10)];
      assert s[..|s| - 1] == p;
      s
  }

  /** `n.ToString()` for an `int`: a minus sign before the digits of a negative number. */
  function IntToString(n: int): (s: string)
    ensures 1 <= |s|
    ensures n >= 0 ==> s == NatToString(n)
    ensures n < 0 ==> s == "-" + NatToString(-n)
  {
    if n < 0 then "-" + NatToString(-n) else NatToString(n)
  }

  /** `s.PadLeft(width, pad)`. */
  function PadLeft(s: string, width: int, pad: char): (r: string)
    ensures |s| >= width ==> r == s
    ensures |s| < width ==> |r| == width && r[width - |s|..] == s
    ensures forall k :: 0 <= k < |r| - |s| ==> r[k] == pad
  {
    if |s| >= width then s else seq(width - |s|, _ => pad) + s
  }

  /** A number below 100 padded with zeros is still its own decimal text. */
  lemma ZeroPaddedValue(v: nat, width: int)
    requires v <= 99 && width <= 2
    ensures var s := PadLeft(IntToString(v), width, '0');
            |s| == Max(width, |IntToString(v)|) && AllDigits(s) && DecimalValue(s) == v
  {
    var d := IntToString(v);
    var s := PadLeft(d, width, '0');
    if |d| < width {
      assert s == ['0'] + d;
      assert s[..1] == ['0'] && s[..1][..0] == [];
      assert s[..|s| - 1] == ['0'];
    }
  }

  /** One or two decimal digits are the zero-padded text of their value, in their own width. */
  lemma {:induction false} ZeroPaddedDigits(w: string)
    requires 1 <= |w| <= 2 && AllDigits(w)
    ensures DecimalValue(w) <= 99
    ensures PadLeft(IntToString(DecimalValue(w)), |w|, '0') == w
  {
    TwoDigitValue(w);
    var v := DecimalValue(w);
    ZeroPaddedValue(v, |w|);
    var s := PadLeft(IntToString(v), |w|, '0');
    assert |s| == |w| by {
      if |w| == 1 {
        assert w[..0] == [];
      } else {
        assert w[..1][..0] == [];
      }
    }
    SameDigitsSameText(s, w);
  }

  /** Equally long digit strings of at most two characters with the same value are equal. */
  lemma SameDigitsSameText(s: string, w: string)
    requires |s| == |w| && 1 <= |w| <= 2 && AllDigits(s) && AllDigits(w)
    requires DecimalValue(s) == DecimalValue(w)
    ensures s == w
  {
    if |w| == 1 {
      assert s[..0] == [] && w[..0] == [];
    } else {
      assert s[..1][..0] == [] && w[..1][..0] == [];
      assert DecimalValue(s[..1]) == DigitValue(s[0]) && DecimalValue(w[..1]) == DigitValue(w[0]);
      assert DigitValue(s[0]) == DigitValue(w[0]) && DigitValue(s[1]) == DigitValue(w[1]);
      assert s[0] == w[0] && s[1] == w[1];
    }
  }

  // ---------------------------------------------------------------------------
  // Trimming and searching
  // ---------------------------------------------------------------------------

  /** `s.TrimEnd(...)`: drops the longest suffix whose characters all satisfy `drop`. */
  function TrimEndBy(s: string, drop: char -> bool): (r: string)
    ensures r <= s
    ensures r == [] || !drop(r[|r| - 1])
    ensures forall k :: |r| <= k < |s| ==> drop(s[k])
  {
    if |s| > 0 && drop(s[|s| - 1]) then TrimEndBy(s[..|s| - 1], drop) else s
  }

  /** `s.TrimStart(...)`: drops the longest prefix whose characters all satisfy `drop`. */
  function TrimStartBy(s: string, drop: char -> bool): (r: string)
    ensures |r| <= |s| && r == s[|s| - |r|..]
    ensures r == [] || !drop(r[0])
    ensures forall k :: 0 <= k < |s| - |r| ==> drop(s[k])
  {
    if |s| > 0 && drop(s[0]) then
      var r := TrimStartBy(s[1..], drop);
      assert s[1..][|s| - 1 - |r|..] == s[|s| - |r|..];
      assert forall k :: 1 <= k < |s| - |r| ==> s[k] == s[1..][k - 1];
      r
    else s
  }

  /** `r` is `s[a..b]` with only white space before `a` and from `b` on. */
  predicate TrimWindow(s: string, r: string, a: int, b: int) {
    && 0 <= a <= b <= |s| && r == s[a..b]
    && (forall k :: 0 <= k < a ==> IsWhiteSpace(s[k]))
    && (forall k :: b <= k < |s| ==> IsWhiteSpace(s[k]))
  }

  /** `s.Trim()`: removes leading and trailing white space. */
  function Trim(s: string): (r: string)
    ensures r == [] || (!IsWhiteSpace(r[0]) && !IsWhiteSpace(r[|r| - 1]))
  {
    var e := TrimEndBy(s, IsWhiteSpace);
    TrimStartBy(e, IsWhiteSpace)
  }

  /** What Trim leaves is a window of the string with only white space around it. */
  lemma TrimIsWindow(s: string)
    ensures exists a, b :: TrimWindow(s, Trim(s), a, b)
  {
    var e := TrimEndBy(s, IsWhiteSpace);
    TrimWindowOf(s, e, Trim(s));
  }

  /** The two halves of Trim leave a window of `s`. */
  lemma TrimWindowOf(s: string, e: string, r: string)
    requires e == TrimEndBy(s, IsWhiteSpace) && r == TrimStartBy(e, IsWhiteSpace)
    ensures TrimWindow(s, r, |e| - |r|, |e|)
  {
    var a := |e| - |r|;
    forall k | 0 <= k < a
      ensures IsWhiteSpace(s[k])
    {
      assert s[k] == e[k];
    }
    assert e == s[..|e|];
    assert r == e[a..];
    assert e[a..] == s[a..|e|];
  }

  /** `string.IsNullOrWhiteSpace` on a non-null string. */
  predicate IsWhiteSpaceOnly(s: string) {
    forall k :: 0 <= k < |s| ==> IsWhiteSpace(s[k])
  }

  lemma {:induction false} TrimEmptyIffWhiteSpace(s: string)
    ensures Trim(s) == [] <==> IsWhiteSpaceOnly(s)
  {
    var e := TrimEndBy(s, IsWhiteSpace);
    if Trim(s) == [] {
      assert forall k :: 0 <= k < |e| ==> IsWhiteSpace(e[k]);
      assert forall k :: 0 <= k < |e| ==> s[k] == e[k];
    }
  }

  /** Trimming is idempotent: a trimmed string has nothing left to trim. */
  lemma TrimIdempotent(s: string)
    ensures Trim(Trim(s)) == Trim(s)
  {
    var t := Trim(s);
    if t != [] {
      assert TrimEndBy(t, IsWhiteSpace) == t;
      assert TrimStartBy(t, IsWhiteSpace) == t;
    }
  }

  /** Ordinal `s.LastIndexOf(c)`: the last position holding `c`, or -1. */
  function LastIndexOf(s: string, c: char): (k: int)
    ensures -1 <= k < |s|
    ensures k >= 0 ==> s[k] == c && forall j :: k < j < |s| ==> s[j] != c
    ensures k == -1 <==> c !in s
  {
    if |s| == 0 then -1
    else if s[|s| - 1] == c then |s| - 1
    else
      var k := LastIndexOf(s[..|s| - 1], c);
      assert c in s ==> c in s[..|s| - 1];
      k
  }

  /** `List.IndexOf(x)`: the first position holding `x`, or -1. */
  function IndexOf<T(==)>(s: seq<T>, x: T): (k: int)
    ensures -1 <= k < |s|
    ensures k >= 0 ==> s[k] == x && x !in s[..k]
    ensures k == -1 <==> x !in s
  {
    if |s| == 0 then -1
    else if s[0] == x then 0
    else
      var k := IndexOf(s[1..], x);
      assert x in s ==> x in s[1..];
      if k == -1 then -1
      else
        assert s[..k + 1] == [s[0]] + s[1..][..k];
        k + 1
  }

  // ---------------------------------------------------------------------------
  // Integer arithmetic of C#
  // ---------------------------------------------------------------------------

  /** C# `a / b` on `int`: the quotient truncated toward zero. */
  function TruncDiv(a: int, b: int): (q: int)
    requires b > 0
    ensures a >= 0 ==> q == a / b
    ensures a < 0 ==> q == -((-a) / b)
  {
    if a >= 0 then a / b else -((-a) / b)
  }

  function Max(a: int, b: int): int {
    if a >= b then a else b
  }

  function Min(a: int, b: int): int {
    if a <= b then a else b
  }
}
