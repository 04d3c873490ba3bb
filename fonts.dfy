/**
 * System.Drawing.Font reduced to what the markup engine decides: a base face (family
 * and size, chosen by the host control and never inspected) and a FontStyle flag set.
 */
module Fonts {
  datatype FontFlag = Bold | Italic | Underline | Strikeout

  /** FontStyle: a set of flags; FontStyle.Regular is the empty set. */
  type FontStyle = set<FontFlag>

  const Regular: FontStyle := {}

  /** The family, size and unit of a font: opaque to the model. */
  datatype FontFace = FontFace(family: string, emSize: real)

  datatype Font = Font(face: FontFace, style: FontStyle)

  /** `new Font(prototype, style)`: the prototype's face with the given style. */
  function WithStyle(prototype: Font, style: FontStyle): (f: Font)
    ensures f.face == prototype.face && f.style == style
  {
    Font(prototype.face, style)
  }
}
