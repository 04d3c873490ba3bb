/**
 * The value records of the newer content model: CharData (the rendering format of a
 * character and of those after it without their own), Char (a displayed character),
 * and RowColumn (a cell of the view; the legacy control's RowColumn is the same class).
 */
module Content {
  import opened Wrappers
  import opened Drawing
  import opened Fonts
  import opened TextUtil

  /** CharData: font and optional colours; its fields are set only by the constructor. */
  datatype CharData = CharData(font: Font, foreColor: Option<Color>, backColor: Option<Color>) {
    /**
     * Equals(CharData): false for null, otherwise equal colours and an equal font.
     * ReferenceEquals(this, other) implies the same, so a value model loses nothing.
     */
    function Equals(other: Option<CharData>): (r: bool)
      ensures other.None? ==> !r
      ensures other.Some? ==> (r <==> other.value == this)
    {
      other.Some? && foreColor == other.value.foreColor && backColor == other.value.backColor
      && font == other.value.font
    }

    /** Equals(object): false for null and for an object of another runtime type, otherwise Equals(CharData). */
    function EqualsObject(obj: Option<Object>): (r: bool)
      ensures r <==> obj == Some(CharDataObject(this))
    {
      match obj
      case None => false
      case Some(CharDataObject(d)) => Equals(Some(d))
      case Some(OtherObject) => false
    }
  }

  /** The CharData constructor: stores exactly what it is given. */
  function NewCharData(font: Font, foreColor: Option<Color>, backColor: Option<Color>): (d: CharData)
    ensures d.font == font && d.foreColor == foreColor && d.backColor == backColor
  {
    CharData(font, foreColor, backColor)
  }

  /** The runtime object passed to Equals(object): a CharData or an object of some other type. */
  datatype Object = CharDataObject(data: CharData) | OtherObject

  /** CharData equality is reflexive and symmetric, and Equals(object) agrees with Equals(CharData). */
  lemma CharDataEqualsLaws(a: CharData, b: CharData)
    ensures a.Equals(Some(a))
    ensures a.Equals(Some(b)) == b.Equals(Some(a))
    ensures a.EqualsObject(Some(CharDataObject(b))) == a.Equals(Some(b))
    ensures !a.EqualsObject(Some(OtherObject)) && !a.EqualsObject(None)
  {
  }

  /** A character of a line: the character shown and, when its format changes there, the new format. */
  datatype Char = Char(c: char, data: Option<CharData>)

  /** Line.Text: the characters of the line, control codes already gone. */
  function TextOf(chars: seq<Char>): (s: string)
    ensures |s| == |chars| && forall k :: 0 <= k < |chars| ==> s[k] == chars[k].c
  {
    if |chars| == 0 then "" else TextOf(chars[..|chars| - 1]) + [chars[|chars| - 1].c]
  }

  lemma {:induction false} TextOfAppend(a: seq<Char>, b: seq<Char>)
    ensures TextOf(a + b) == TextOf(a) + TextOf(b)
  {
    assert |TextOf(a + b)| == |TextOf(a) + TextOf(b)|;
    forall k | 0 <= k < |a| + |b|
      ensures TextOf(a + b)[k] == (TextOf(a) + TextOf(b))[k]
    {
      if k < |a| {
        assert (a + b)[k] == a[k];
      } else {
        assert (a + b)[k] == b[k - |a|];
      }
    }
  }

  // ---------------------------------------------------------------------------
  // RowColumn
  // ---------------------------------------------------------------------------

  datatype RowColumn = RowColumn(row: int, column: int) {
    /** Equals(RowColumn): false for null, otherwise the same row and column. */
    function Equals(other: Option<RowColumn>): (r: bool)
      ensures other.None? ==> !r
      ensures other.Some? ==> (r <==> row == other.value.row && column == other.value.column)
    {
      other.Some? && row == other.value.row && column == other.value.column
    }

    /** ToString: the row in decimal, ':' and the column in decimal. */
    function ToString(): (s: string)
      ensures exists k :: (0 <= k < |s| && s[k] == ':' && s[..k] == IntToString(row) && s[k + 1..] == IntToString(column))
    {
      var r := IntToString(row);
      var s := r + ":" + IntToString(column);
      assert s[..|r|] == r && s[|r| + 1..] == IntToString(column);
      s
    }
  }

  /** For non-null arguments RowColumn equality is reflexive and symmetric, and agrees with value equality. */
  lemma RowColumnEqualsLaws(a: RowColumn, b: RowColumn)
    ensures a.Equals(Some(a))
    ensures a.Equals(Some(b)) == b.Equals(Some(a))
    ensures a.Equals(Some(b)) <==> a == b
  {
  }

  /** Decimal text never contains ':'. */
  lemma NoColonInInt(n: int)
    ensures ':' !in IntToString(n)
  {
    var s := IntToString(n);
    forall k | 0 <= k < |s|
      ensures s[k] != ':'
    {
      if n < 0 && k > 0 {
        assert s[k] == NatToString(-n)[k - 1];
      }
    }
  }

  /** Different numbers have different decimal text. */
  lemma IntToStringInjective(a: int, b: int)
    requires IntToString(a) == IntToString(b)
    ensures a == b
  {
    var s := IntToString(a);
    assert (s[0] == '-') == (a < 0);
    assert (s[0] == '-') == (b < 0);
    if a < 0 {
      assert NatToString(-a) == s[1..] == NatToString(-b);
    }
  }

  /** ToString tells RowColumns apart: equal text means equal row and column. */
  lemma {:induction false} RowColumnToStringInjective(a: RowColumn, b: RowColumn)
    requires a.ToString() == b.ToString()
    ensures a == b
  {
    var ra, rb := IntToString(a.row), IntToString(b.row);
    var s := a.ToString();
    assert s == ra + ":" + IntToString(a.column);
    assert s == rb + ":" + IntToString(b.column);
    NoColonInInt(a.row);
    NoColonInInt(b.row);
    assert s[|ra|] == ':' && s[|rb|] == ':';
    assert forall k :: 0 <= k < |ra| ==> s[k] == ra[k];
    assert forall k :: 0 <= k < |rb| ==> s[k] == rb[k];
    assert ra == s[..|ra|] == rb;
    assert IntToString(a.column) == s[|ra| + 1..] == IntToString(b.column);
    IntToStringInjective(a.row, b.row);
    IntToStringInjective(a.column, b.column);
  }
}
