/**
 * IRCColorTable: the process-wide palette that maps mIRC colour numbers to colours.
 * It starts with the sixteen standard entries and `Get(color, _, addNew: true)`
 * appends colours it has not seen, so later lookups find them.
 *
 * The C# dictionary only ever receives keys 0..15 and then max(keys) + 1, so its
 * keys are always 0..n-1 and its enumeration order is key order; the model stores
 * it as the sequence `entries` with key k holding `entries[k]`.
 */
module IRCColorTable {
  import opened Wrappers
  import opened Drawing
  import opened TextUtil
  import ControlChar

  /** MircColorCode: the sixteen standard colour numbers, and None. */
  datatype MircColorCode =
    | White | Black | DarkBlue | DarkGreen | Red | DarkRed | DarkViolet | Orange
    | Yellow | LightGreen | Cyan | LightCyan | Blue | Violet | DarkGray | LightGray
    | None
  {
    /** The enum's integer value. */
    function Code(): (n: int)
      ensures None? <==> n == -1
      ensures -1 <= n < 16
    {
      match this
      case White => 0 case Black => 1 case DarkBlue => 2 case DarkGreen => 3
      case Red => 4 case DarkRed => 5 case DarkViolet => 6 case Orange => 7
      case Yellow => 8 case LightGreen => 9 case Cyan => 10 case LightCyan => 11
      case Blue => 12 case Violet => 13 case DarkGray => 14 case LightGray => 15
      case None => -1
    }
  }

  /**
   * The initial table. Entry 1 is ControlPaint.Light(Color.Black), a colour the
   * model does not compute, so it is a parameter.
   */
  function BaseEntries(lightBlack: Color): (t: seq<Color>)
    ensures |t| == 16 && t[1] == lightBlack
  {
    [Drawing.White, lightBlack, Navy, Green, Drawing.Red, Brown, Purple, DarkOrange,
     Drawing.Yellow, LimeGreen, DarkCyan, Drawing.Cyan, Drawing.Blue, DeepPink, Gray, Drawing.LightGray]
  }

  /** Whether the dictionary has the key. */
  predicate HasKey(entries: seq<Color>, k: int) {
    0 <= k < |entries|
  }

  /** The outcome of `Get(color, ...)`: the index returned and the table afterwards. */
  datatype Lookup = Lookup(index: int, entries: seq<Color>)

  /**
   * `Get(color, defaultValue, addNew)` as a function of the table: the first key whose
   * colour equals `color`; else, with `addNew`, a new key max(keys) + 1 holding `color`;
   * else `defaultValue`.
   */
  function GetSpec(entries: seq<Color>, color: Color, defaultValue: int, addNew: bool): Lookup {
    var k := IndexOf(entries, color);
    if k != -1 then Lookup(k, entries)
    else if addNew then Lookup(|entries|, entries + [color])
    else Lookup(defaultValue, entries)
  }

  /** A found key holds the colour, and no smaller key does. */
  lemma {:induction false} GetFound(entries: seq<Color>, color: Color, defaultValue: int, addNew: bool)
    requires color in entries
    ensures var r := GetSpec(entries, color, defaultValue, addNew);
            r.entries == entries && HasKey(entries, r.index) && entries[r.index] == color
            && forall j :: 0 <= j < r.index ==> entries[j] != color
  {
    var k := IndexOf(entries, color);
    assert forall j :: 0 <= j < k ==> entries[..k][j] == entries[j];
  }

  /** An absent colour without `addNew` gives the default and leaves the table alone. */
  lemma GetAbsent(entries: seq<Color>, color: Color, defaultValue: int)
    requires color !in entries
    ensures GetSpec(entries, color, defaultValue, false) == Lookup(defaultValue, entries)
  {
  }

  /**
   * An absent colour with `addNew` adds exactly one key, max(keys ∪ {0}) + 1, holding the
   * colour; every old key keeps its colour, and a later lookup of the colour returns the new key.
   */
  lemma GetAdds(entries: seq<Color>, color: Color, defaultValue: int, defaultValue2: int, addNew2: bool)
    requires |entries| >= 1 && color !in entries
    ensures var r := GetSpec(entries, color, defaultValue, true);
            && (forall k :: HasKey(r.entries, k) <==> HasKey(entries, k) || k == r.index)
            && (forall k :: HasKey(entries, k) ==> k < r.index)
            && (HasKey(entries, r.index - 1) || r.index - 1 == 0)
            && r.entries[r.index] == color
            && (forall k :: HasKey(entries, k) ==> r.entries[k] == entries[k])
            && GetSpec(r.entries, color, defaultValue2, addNew2) == Lookup(r.index, r.entries)
  {
    var r := GetSpec(entries, color, defaultValue, true);
    assert r.entries == entries + [color];
    var k := IndexOf(r.entries, color);
    assert color in r.entries;
    assert k == |entries|;
  }

  class Palette {
    /** Key k of the dictionary holds entries[k]. */
    var entries: seq<Color>

    constructor(lightBlack: Color)
      ensures entries == BaseEntries(lightBlack)
    {
      entries := BaseEntries(lightBlack);
    }

    /** IRCColorTable.Get(Color, int, bool): scans the table in key order. */
    method Get(color: Color, defaultValue: int, addNew: bool) returns (index: int)
      modifies this
      ensures Lookup(index, entries) == GetSpec(old(entries), color, defaultValue, addNew)
    {
      var k := 0;
      while k < |entries|
        invariant 0 <= k <= |entries|
        invariant color !in entries[..k]
      {
        if entries[k] == color {
          assert IndexOf(entries, color) == k;
          return k;
        }
        k := k + 1;
      }
      assert entries[..k] == entries;
      if addNew {
        index := |entries|;
        entries := entries + [color];
        return;
      }
      return defaultValue;
    }

    /** IRCColorTable.Get(int, Color?): the colour under a key, else the default colour, else Black. */
    function GetColor(index: int, defaultColor: Option<Color>): (c: Color)
      reads this
      ensures HasKey(entries, index) ==> c == entries[index]
      ensures !HasKey(entries, index) ==> c == defaultColor.GetOr(Drawing.Black)
    {
      if 0 <= index < |entries| then entries[index] else defaultColor.GetOr(Drawing.Black)
    }

    /** GetColorString(Color, Color, int, int, bool): looks up both colours, foreground first. */
    method GetColorStringOfColors(foreColor: Color, backColor: Color, defaultForeColor: int, defaultBackColor: int, addNew: bool)
      returns (s: string)
      modifies this
      ensures var fore := GetSpec(old(entries), foreColor, defaultForeColor, addNew);
              var back := GetSpec(fore.entries, backColor, defaultBackColor, addNew);
              s == GetColorString(fore.index, back.index) && entries == back.entries
    {
      var foreIndex := Get(foreColor, defaultForeColor, addNew);
      var backIndex := Get(backColor, defaultBackColor, addNew);
      s := GetColorString(foreIndex, backIndex);
    }

    /** GetColorString(Color, int, bool): looks up the foreground only. */
    method GetColorStringOfColor(foreColor: Color, defaultValue: int, addNew: bool) returns (s: string)
      modifies this
      ensures var fore := GetSpec(old(entries), foreColor, defaultValue, addNew);
              s == GetForeColorString(fore.index) && entries == fore.entries
    {
      var foreIndex := Get(foreColor, defaultValue, addNew);
      s := GetForeColorString(foreIndex);
    }
  }

  /** GetColorString(int, int): Color, the decimal foreground, a comma and the decimal background. */
  function GetColorString(foreColor: int, backColor: int): (s: string)
    ensures |s| >= 4 && s[0] == ControlChar.Color
  {
    [ControlChar.Color] + IntToString(foreColor) + "," + IntToString(backColor)
  }

  /** GetColorString(int): Color and the decimal foreground. */
  function GetForeColorString(foreColor: int): (s: string)
    ensures |s| >= 2 && s[0] == ControlChar.Color && s[1..] == IntToString(foreColor)
  {
    [ControlChar.Color] + IntToString(foreColor)
  }

  /** GetColorString(MircColorCode, MircColorCode): empty for a None foreground. */
  function GetCodeColorString(foreColor: MircColorCode, backColor: MircColorCode): (s: string)
    ensures foreColor.None? <==> s == ""
    ensures !foreColor.None? ==> s == GetColorString(foreColor.Code(), backColor.Code())
  {
    if foreColor.None? then "" else GetColorString(foreColor.Code(), backColor.Code())
  }

  /** GetColorString(MircColorCode): empty for None. */
  function GetCodeForeColorString(foreColor: MircColorCode): (s: string)
    ensures foreColor.None? <==> s == ""
    ensures !foreColor.None? ==> s == GetForeColorString(foreColor.Code())
  {
    if foreColor.None? then "" else GetForeColorString(foreColor.Code())
  }
}
