/**
 * The in-band control characters of the markup. Both dialects use the same code
 * points: ControlChar (newer parser) and IRCControlChar (legacy parser, which
 * names the interactive markers InteractiveStart/Split/End and adds Ctcp).
 */
module ControlChar {
  const Ctcp: char := 0x01 as char
  const Bold: char := 0x02 as char
  const Color: char := 0x03 as char
  /** URL start and end marker; injected around detected URLs, never typed by users. */
  const Url: char := 0x04 as char
  const InteractiveTextStart: char := 0x05 as char
  const InteractiveTextSplit: char := 0x06 as char
  const InteractiveTextEnd: char := 0x07 as char
  const Italic: char := 0x09 as char
  const Reset: char := 0x0f as char
  const HexColor: char := 0x10 as char
  const StrikeThrough: char := 0x13 as char
  const Underline: char := 0x15 as char
  const Reverse: char := 0x16 as char
  const Underline2: char := 0x1f as char

  /** The characters the newer parser's switch handles itself; every other character is displayed. */
  predicate IsHandled(c: char) {
    c == Bold || c == StrikeThrough || c == Italic || c == Underline || c == Underline2
    || c == HexColor || c == Color || c == Url || c == InteractiveTextEnd
    || c == InteractiveTextStart
  }

  /** The characters the legacy parser's switch handles itself (it has no italic or strikethrough). */
  predicate IsLegacyHandled(c: char) {
    c == InteractiveTextEnd || c == InteractiveTextStart || c == Url || c == HexColor
    || c == Color || c == Bold || c == Underline || c == Underline2
  }
}
