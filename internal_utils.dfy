/** The pure helpers of the newer control's internal Utils class. */
module InternalUtils {
  import opened Fonts

  /** The font style for a character: one flag per style argument that is true. */
  function GetFontStyle(bold: bool, underline: bool, italic: bool, strikethrough: bool): (style: FontStyle)
    ensures (FontFlag.Bold in style <==> bold) && (FontFlag.Underline in style <==> underline)
    ensures (FontFlag.Italic in style <==> italic) && (FontFlag.Strikeout in style <==> strikethrough)
    ensures !bold && !underline && !italic && !strikethrough ==> style == Regular
  {
    (if bold then {FontFlag.Bold} else {})
    + (if underline then {FontFlag.Underline} else {})
    + (if italic then {FontFlag.Italic} else {})
    + (if strikethrough then {FontFlag.Strikeout} else {})
  }

  /** Different combinations of the four flags never give the same style. */
  lemma GetFontStyleInjective(b1: bool, u1: bool, i1: bool, s1: bool, b2: bool, u2: bool, i2: bool, s2: bool)
    requires GetFontStyle(b1, u1, i1, s1) == GetFontStyle(b2, u2, i2, s2)
    ensures b1 == b2 && u1 == u2 && i1 == i2 && s1 == s2
  {
    var st := GetFontStyle(b1, u1, i1, s1);
    assert FontFlag.Bold in st <==> b1;
    assert FontFlag.Underline in st <==> u1;
    assert FontFlag.Italic in st <==> i1;
    assert FontFlag.Strikeout in st <==> s1;
  }

  /** System.Windows.Forms.MouseButtons, one value per button. */
  datatype MouseButtons = NoButton | Left | Right | Middle | XButton1 | XButton2

  /**
   * CheckMouseButton: whether the event's button is the one asked for, reading the
   * left and right buttons the other way round when the user has swapped them
   * (SystemInformation.MouseButtonsSwapped, here the parameter `swapped`).
   */
  function CheckMouseButton(eventButton: MouseButtons, checkForButton: MouseButtons, swapped: bool): (pressed: bool)
    ensures !swapped ==> (pressed <==> eventButton == checkForButton)
    ensures swapped && checkForButton == Right ==> (pressed <==> eventButton == Left)
    ensures swapped && checkForButton == Left ==> (pressed <==> eventButton == Right)
    ensures checkForButton != Left && checkForButton != Right ==> (pressed <==> eventButton == checkForButton)
  {
    if swapped && checkForButton == Right then eventButton == Left
    else if swapped && checkForButton == Left then eventButton == Right
    else eventButton == checkForButton
  }

  /** With the buttons swapped, the check is the unswapped check of the mirrored button. */
  lemma CheckMouseButtonMirror(eventButton: MouseButtons, checkForButton: MouseButtons)
    ensures CheckMouseButton(eventButton, checkForButton, true) == CheckMouseButton(Mirror(eventButton), checkForButton, false)
  {
  }

  /** Left and right exchanged; every other button unchanged. */
  function Mirror(b: MouseButtons): (m: MouseButtons)
    ensures (b == Left <==> m == Right) && (b == Right <==> m == Left)
    ensures b != Left && b != Right ==> m == b
  {
    match b
    case Left => Right
    case Right => Left
    case _ => b
  }
}
