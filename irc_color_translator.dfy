/**
 * IRCColorTranslator: the fixed sixteen-entry mIRC palette as unnamed RGB colours,
 * and the two lookups between palette numbers and colours.
 */
module IRCColorTranslator {
  import opened Wrappers
  import opened Drawing
  import TextUtil

  /** The standard IRC colours, index = colour number. */
  const ColorsTable: seq<Color> := [
    FromRgb(255, 255, 255), FromRgb(0, 0, 0), FromRgb(0, 0, 127), FromRgb(0, 147, 0),
    FromRgb(255, 0, 0), FromRgb(127, 0, 0), FromRgb(156, 0, 156), FromRgb(252, 127, 0),
    FromRgb(255, 255, 0), FromRgb(0, 252, 0), FromRgb(0, 147, 147), FromRgb(0, 255, 255),
    FromRgb(0, 0, 252), FromRgb(255, 0, 255), FromRgb(127, 127, 127), FromRgb(210, 210, 210)
  ]

  /** The `Colors` property: a copy of the table, entry n being the colour of palette number n. */
  function Colors(): (cs: seq<Color>)
    ensures |cs| == 16
    ensures forall n :: 0 <= n < 16 ==> cs[n] == NumberToColor(n, None)
    ensures forall n :: 0 <= n < 16 ==> cs[n].Argb? && cs[n].a == 255
  {
    ColorsTable
  }

  /** NumberToColor: the table entry for a palette number, else the default colour, else Black. */
  function NumberToColor(number: int, defaultColor: Option<Color>): (c: Color)
    ensures 0 <= number < 16 ==> c == ColorsTable[number]
    ensures !(0 <= number < 16) ==> c == defaultColor.GetOr(Black)
  {
    if 0 <= number < |ColorsTable| then ColorsTable[number] else defaultColor.GetOr(Black)
  }

  /** ColorToNumber: the table position of the colour's ARGB value, ignoring its name, else the default index. */
  function ColorToNumber(color: Color, defaultIndex: int): (n: int)
    ensures color.Unnamed() !in ColorsTable ==> n == defaultIndex
    ensures color.Unnamed() in ColorsTable ==>
              (0 <= n < 16 && ColorsTable[n] == color.Unnamed()
               && forall m :: 0 <= m < n ==> ColorsTable[m] != color.Unnamed())
  {
    var i := TextUtil.IndexOf(ColorsTable, color.Unnamed());
    if i == -1 then defaultIndex else i
  }

  /** The sixteen RGB triples are pairwise distinct. */
  lemma TableDistinct()
    ensures forall m, n :: 0 <= m < n < 16 ==> ColorsTable[m] != ColorsTable[n]
  {
  }

  /** A palette number survives the trip through its colour and back. */
  lemma ColorToNumberOfNumberToColor(n: int, defaultIndex: int)
    requires 0 <= n < 16
    ensures ColorToNumber(NumberToColor(n, None), defaultIndex) == n
  {
    TableDistinct();
    var c := NumberToColor(n, None);
    assert c.Unnamed() == c;
    var k := ColorToNumber(c, defaultIndex);
    assert 0 <= k < 16 && ColorsTable[k] == c;
  }

  /** A colour in the table comes back, unnamed, from its number. */
  lemma NumberToColorOfColorToNumber(c: Color, defaultIndex: int, defaultColor: Option<Color>)
    requires c.Unnamed() in ColorsTable
    ensures NumberToColor(ColorToNumber(c, defaultIndex), defaultColor) == c.Unnamed()
  {
  }
}
