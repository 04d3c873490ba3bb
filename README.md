# DonkeyScroller markup engine in Dafny

DonkeyScroller is a WinForms chat view for IRC-style text. A line of text is added
with in-band control characters:

- Bold, Italic, Underline (two codes) and StrikeThrough toggles.
- `\x03` mIRC palette colour codes (`\x03f,b`).
- `\x10` hex colour codes (twelve hex digits).
- URL markers around every URL.
- Interactive texts, written as `\x05 id \x06 text \x07`.

The control parses each line into characters with formats, URL spans and interactive
spans. It then lays the line out in rows of at most MaxWidthInChars characters and
keeps a bounded list of lines, newest first.

This project models that engine. Drawing is not modelled.

**The markup has two dialects.** They are modelled separately because they behave
differently.

- The newer dialect, `Parsers.ParseLineText`:
  - The `ParseLineText` method is the parsing loop. It is proved to compute the
    function `LineParser.ParseLine`.
  - Each case of the `switch` is its own method. Each is proved equal to a step
    function.
  - The lemmas in `LineParserFacts` state what the whole pass guarantees.
- The legacy dialect, `Line.Parse`, is the one the control itself calls. It has
  palette-number colours and a shared, growable palette. It is modelled by
  `LegacyLine` and `LegacyLineFacts`.

**Around the parsers:**

- Colour-code sub-parsers and encoders (`Parsers`, `LegacyUtils`, `IRCColorTable`,
  `ScrollerUtils`), with their round trips.
- The word-wrap loop of both `Line` classes (`Layout`).
- The bounded line buffer of both `Lines` classes (`LineBuffer`, `ContentLines`).
- The selection (`ContentSelection`).
- The span collections (`Spans`).
- The colour tables (`IRCColorTable`, `IRCColorTranslator`).
- The selected-text accumulator (`MarkedContent`).
- The control's own arithmetic (`Scroller`).

**Shared models.** The same class sometimes appears twice in the source; each is
modelled once.

- `DonkeyScroller/RowColumn.cs` and `DonkeyScroller/Content/RowColumn.cs` are the same
  class. Both are modelled by `Content.RowColumn`.
- The four span collections differ only in their payload. They are all
  `Spans.SpanCollection<T>`:
  - `Interactive/InteractiveTextCollection.cs`
  - `Interactive/InteractiveUrlCollection.cs`
  - `InteractiveSegmentCollection.cs`
  - `UrlSegmentCollection.cs`
- Both `Lines` classes share `LineBuffer.Lines<L>`.
- Both `CalculateDimensions` loops share `Layout.ComputeWrap`.

**How the C# is mapped:**

- Every exception the C# code can throw is a `Failure` of `Wrappers.Result`. Callers
  do not catch them. They come from:
  - `Substring` or an index out of range;
  - `int.Parse` and `Convert.ToInt32`.
- A `ref int` cursor becomes a returned `next` position.
- `Color` is a datatype with an ARGB value and an optional known name, so
  `Color.Red != Color.FromArgb(255, 0, 0)` as in .NET.
- `Font` is an opaque face plus a set of style flags.

**Where the doc comments and the code disagree, the model follows the code.**
ControlChar.cs documents Reset (0x0f) and Reverse (0x16), but neither parser handles
them: both are emitted as ordinary characters.

## Model

| member | source | states |
|---|---|---|
| TextUtil.Trim | DonkeyScroller/Content/MarkedContent.cs:46 | `string.Trim()`: the result neither starts nor ends with white space |
| TextUtil.TrimIsWindow | DonkeyScroller/Content/MarkedContent.cs:54 | what Trim leaves is a contiguous slice of the input with only white space cut on either side |
| TextUtil.TrimIdempotent | DonkeyScroller/Content/MarkedContent.cs:52-55 | trimming twice is trimming once |
| TextUtil.TrimEmptyIffWhiteSpace | DonkeyScroller/DonkeyScroller.cs:224-225 | Trim gives "" exactly for null-or-white-space text |
| TextUtil.LastIndexOf | DonkeyScroller/Internal/Parsers.cs:48 | ordinal LastIndexOf: the last position holding the char, -1 exactly when absent |
| TextUtil.ParseInt | DonkeyScroller/Internal/Parsers.cs:280-282 | int.Parse of a one- or two-character group ending in a digit: succeeds exactly when the first character is a digit, sign or number white space; all-digit groups give their decimal value |
| TextUtil.IntToString | DonkeyScroller/IRCColorTable.cs:100-103 | int.ToString(): a minus sign for negatives, then the digits without leading zeros |
| Drawing.FromHtml | DonkeyScroller/Internal/Parsers.cs:315-318 | ColorTranslator.FromHtml("#"+six characters): the opaque colour of the three pairs, read left to right by Convert.ToInt32(pair, 16); succeeds exactly when every pair is two hex digits or a plus sign and one; a minus sign first throws ArgumentException, any other unreadable pair a FormatException |
| Drawing.ToHtmlHex | DonkeyScroller/DonkeyScrollerUtils.cs:28-30 | ToHtml(...).Substring(1): six upper-case hex digits |
| Drawing.FromHtmlToHtmlHex | DonkeyScroller/DonkeyScrollerUtils.cs:26-34 | writing a colour as hex and reading it back gives the opaque colour with the same RGB |
| Drawing.ToHtmlHexFromHtml | DonkeyScroller/Internal/Parsers.cs:308-322 | six hex digits read and written back are the same digits up to letter case |
| Drawing.HexPairValue | DonkeyScroller/Internal/Parsers.cs:315 | Convert.ToInt32(pair, 16): two hex digits give the byte whose high and low digits they are; a plus sign and a hex digit give that digit; a minus sign first throws ArgumentException; anything else, white space included, a FormatException |
| Fonts.WithStyle | DonkeyScroller/Internal/Parsers.cs:211 | `new Font(prototype, style)` keeps the face and takes the style |
| InternalUtils.GetFontStyle | DonkeyScroller/Internal/Utils.cs:21-35 | each of Bold, Underline, Italic, Strikeout is in the style exactly when its argument is true; all false gives Regular |
| InternalUtils.GetFontStyleInjective | DonkeyScroller/Internal/Utils.cs:21-35 | different flag tuples give different styles |
| InternalUtils.CheckMouseButton | DonkeyScroller/Internal/Utils.cs:123-133 | without swapping, plain equality; swapped, Left and Right test each other and other buttons are unchanged |
| InternalUtils.CheckMouseButtonMirror | DonkeyScroller/Internal/Utils.cs:125-132 | swapping is checking against the mirrored button |
| Content.NewCharData | DonkeyScroller/Content/CharData.cs:30-35 | the constructor stores font and both colours as given |
| Content.CharData.Equals | DonkeyScroller/Content/CharData.cs:43-48 | false for null; otherwise equal exactly when font and both colours are equal |
| Content.CharData.EqualsObject | DonkeyScroller/Content/CharData.cs:54-60 | false for null and for other runtime types; otherwise Equals(CharData) |
| Content.CharDataEqualsLaws | DonkeyScroller/Content/CharData.cs:43-60 | reflexive, symmetric, and the object overload agrees with the typed one |
| Content.TextOf | DonkeyScroller/Content/Line.cs:76-83 | Text: the characters' chars in order, one per character |
| Content.RowColumn.Equals | DonkeyScroller/Content/RowColumn.cs:21-24 | false for null; otherwise the same row and column |
| Content.RowColumnEqualsLaws | DonkeyScroller/Content/RowColumn.cs:21-24 | reflexive, symmetric, and the same as value equality |
| Content.RowColumn.ToString | DonkeyScroller/Content/RowColumn.cs:29-32 | decimal row, ':', decimal column |
| Content.RowColumnToStringInjective | DonkeyScroller/Content/RowColumn.cs:29-32 | equal text means equal row and column |
| IRCColorTranslator.Colors | DonkeyScroller/IRCColorTranslator.cs:37 | a 16-entry copy of the table: entry n is the colour NumberToColor gives palette number n, opaque |
| IRCColorTranslator.NumberToColor | DonkeyScroller/IRCColorTranslator.cs:44-50 | entry n for 0 <= n < 16, else the default colour, else Black |
| IRCColorTranslator.ColorToNumber | DonkeyScroller/IRCColorTranslator.cs:57-62 | the first table position holding the colour's ARGB (its name ignored), else the default index |
| IRCColorTranslator.TableDistinct | DonkeyScroller/IRCColorTranslator.cs:15-33 | the 16 ARGB values are pairwise distinct |
| IRCColorTranslator.ColorToNumberOfNumberToColor | DonkeyScroller/IRCColorTranslator.cs:15-62 | ColorToNumber(NumberToColor(n)) == n for 0 <= n < 16 |
| IRCColorTranslator.NumberToColorOfColorToNumber | DonkeyScroller/IRCColorTranslator.cs:44-62 | a colour found in the table comes back as the table entry with its ARGB |
| IRCColorTable.BaseEntries | DonkeyScroller/IRCColorTable.cs:16-34 | the initial table has keys 0..15 |
| IRCColorTable.GetFound | DonkeyScroller/IRCColorTable.cs:45-48 | a present colour gives the first key holding it, and the table is unchanged |
| IRCColorTable.GetAbsent | DonkeyScroller/IRCColorTable.cs:49-55 | an absent colour without addNew gives the default and leaves the table alone |
| IRCColorTable.GetAdds | DonkeyScroller/IRCColorTable.cs:49-54 | an absent colour with addNew adds one key max(keys)+1 holding it, keeps every old key, and a later Get returns the new key |
| IRCColorTable.Palette.constructor | DonkeyScroller/IRCColorTable.cs:16-34 | the table starts as the 16 base entries |
| IRCColorTable.Palette.Get | DonkeyScroller/IRCColorTable.cs:42-56 | the key-order scan computes the lookup specification and its new table |
| IRCColorTable.Palette.GetColor | DonkeyScroller/IRCColorTable.cs:63-66 | the colour under a present key, else the default colour, else Black |
| IRCColorTable.Palette.GetColorStringOfColors | DonkeyScroller/IRCColorTable.cs:76-81 | both colours looked up, foreground first, written as a colour code |
| IRCColorTable.Palette.GetColorStringOfColor | DonkeyScroller/IRCColorTable.cs:89-93 | the foreground looked up and written as a colour code |
| IRCColorTable.GetColorString | DonkeyScroller/IRCColorTable.cs:100-103 | Color, decimal foreground, ',', decimal background |
| IRCColorTable.GetForeColorString | DonkeyScroller/IRCColorTable.cs:109-112 | Color then the decimal foreground |
| IRCColorTable.GetCodeColorString | DonkeyScroller/IRCColorTable.cs:120-125 | "" exactly for a None foreground, else the numeric code |
| IRCColorTable.GetCodeForeColorString | DonkeyScroller/IRCColorTable.cs:131-136 | "" exactly for None, else the numeric code |
| Parsers.TrimSingleControlChars | DonkeyScroller/Internal/Parsers.cs:77-94 | a prefix that no longer ends in a toggle, and only toggles were removed |
| Parsers.TrimLineTextRightSideColorCode | DonkeyScroller/Internal/Parsers.cs:43-71 | the scanning loop computes the trailing-code trim |
| Parsers.TrimColorCodeRemovesLastCode | DonkeyScroller/Internal/Parsers.cs:45-70 | text changes exactly when it ends in a digit and everything from its last Color on is digits, commas and Color; then the prefix before that Color is returned |
| Parsers.TrimLineTextRightSide | DonkeyScroller/Internal/Parsers.cs:27-37 | toggles then one trailing colour code are removed |
| Parsers.TrimRightRemovesOnlyFormatting | DonkeyScroller/Internal/Parsers.cs:27-37 | the trim removes a suffix of formatting characters only |
| Parsers.ParseIRCColorCode | DonkeyScroller/Internal/Parsers.cs:252-300 | no digit: -1,-1 with the cursor unchanged; else one or two digits of foreground, lengths reported, an optional comma and background, cursor on the code's last character |
| Parsers.ParseIRCColorCodeCases | DonkeyScroller/Internal/Parsers.cs:252-300 | case by case over the text: a digit after Color starts a foreground of two digits exactly when the next character is a digit too; without a comma after it the cursor ends on its last digit with no background; after a comma, two characters ending in a digit are read by int.Parse (cursor past them), else one digit is the background (cursor on it), else the comma is left unread; a comma at the end throws |
| Parsers.ParseIRCColorCodeFailures | DonkeyScroller/Internal/Parsers.cs:276-292 | throws exactly for a cursor outside the text, a trailing comma, or a two-character background whose first character int.Parse rejects |
| Parsers.ParseIRCColors | DonkeyScroller/Internal/Parsers.cs:233-242 | palette colours of the numbers; Black for a missing or unknown foreground, Transparent for a missing or unknown background |
| Parsers.ParseHexColors | DonkeyScroller/Internal/Parsers.cs:308-322 | ArgumentOutOfRange exactly when fewer than twelve characters follow; otherwise succeeds exactly when FromHtml reads the foreground group and the background group holds an X or is read too, the foreground's exception first; cursor moves by 12; background Transparent exactly when its group holds an X |
| Parsers.ParseColorsStringAt | DonkeyScroller/Internal/Parsers.cs:329-354 | "" for blank text or one not starting with Color; otherwise the code at the index as RebuildColorCode writes it |
| Parsers.RebuildColorCode | DonkeyScroller/Internal/Parsers.cs:336-351 | succeeds exactly when ParseIRCColors does, passing its exception through; the result starts with Color |
| Parsers.ColorCodeString | DonkeyScroller/Internal/Parsers.cs:338-349 | Color alone exactly when there is no foreground |
| Parsers.RebuildColorCodeAsWritten | DonkeyScroller/Internal/Parsers.cs:336-351 | the code comes back as written from Color to the cursor: bare Color without digits, the foreground digits alone, or the whole code when the background is written in digits; a background written as a sign or white space and a digit comes back as its value in two characters ("05", "-5"); a background of -1 is dropped |
| Parsers.ColorStringRoundTrip | DonkeyScroller/Internal/Parsers.cs:252-300 | the code GetColorString(f, b) writes is read back as f and b, cursor on its last character |
| Parsers.ForeColorStringRoundTrip | DonkeyScroller/IRCColorTable.cs:109-112 | the code GetColorString(f) writes is read back as f with no background |
| Parsers.ColorsStringAtRoundTrip | DonkeyScroller/Internal/Parsers.cs:329-354 | ParseColorsStringAt rebuilds the code GetColorString(f, b) wrote |
| Parsers.ColorsStringAtOfCode | DonkeyScroller/Internal/Parsers.cs:329-354 | a code read at full width is rewritten as it was |
| InteractiveScan.IndexFrom | DonkeyScroller/Internal/Parsers.cs:183-199 | the first occurrence of a char from a position, -1 exactly when none |
| InteractiveScan.ScanAtShape | DonkeyScroller/Internal/Parsers.cs:178-207 | a terminated scan has its id before the first Split and its text up to the first End after it; no Split means no span |
| InteractiveScan.ScanDisplayedText | DonkeyScroller/Internal/Parsers.cs:189-199 | the inner loop stops at the first End, records the span and rewinds to textStart - 3 |
| InteractiveScan.ScanInteractiveText | DonkeyScroller/Internal/Parsers.cs:178-207 | the nested loops leave the cursor and the span of the scan specification |
| LineParser.Step | DonkeyScroller/Internal/Parsers.cs:123-219 | every iteration succeeds into a valid state and advances the cursor |
| LineParser.ParseChar | DonkeyScroller/Internal/Parsers.cs:123-219 | the switch body computes the step function |
| LineParser.ParseLineText | DonkeyScroller/Internal/Parsers.cs:101-223 | the loop computes ParseLine: the same characters, URL and interactive spans, or the same exception |
| LineParserFacts.ParseLineInv | DonkeyScroller/Internal/Parsers.cs:101-223 | no handled control char is emitted; a char stores its format exactly when it differs from the previous one (Black on Transparent first); each URL span's url is the text it covers |
| LineParserFacts.RunInv | DonkeyScroller/Internal/Parsers.cs:114-221 | the rest of the loop keeps that invariant |
| LineParserFacts.EffectiveIsFormat | DonkeyScroller/Internal/Parsers.cs:209-218 | the stored formats give back every character's format: compression loses nothing |
| LineParserFacts.ToggleSteps | DonkeyScroller/Internal/Parsers.cs:125-137 | each toggle flips only its own flag; InteractiveTextEnd is skipped |
| LineParserFacts.ColorStep | DonkeyScroller/Internal/Parsers.cs:143-156 | a Color code sets the foreground and keeps the background in force when the code gives none |
| LineParserFacts.EmitRunText | DonkeyScroller/Internal/Parsers.cs:209-218 | the default case emits exactly the text, in order, and no span |
| LineParserFacts.PlainLine | DonkeyScroller/Internal/Parsers.cs:101-223 | a line without handled control characters shows exactly its text |
| Layout.StepInv | DonkeyScroller/Content/Line.cs:97-113 | each iteration keeps the wrap invariant, only appends wraps and only widens |
| Layout.WrapFromInv | DonkeyScroller/Content/Line.cs:97-113 | the whole walk keeps it |
| Layout.Wrap | DonkeyScroller/Content/Line.cs:88-116 | rows = 1 + wraps; wrap indexes strictly increase inside [1, Count]; Width never shrinks |
| Layout.ComputeWrap | DonkeyScroller/Content/Line.cs:88-116 | the loop computes Wrap |
| Layout.ShortLineNoWrap | DonkeyScroller/Line.cs:77-93 | a line shorter than MaxWidthInChars has no wraps and one row |
| Layout.WidthFrom | DonkeyScroller/Content/Line.cs:54 | the starting Width affects only the Width result, through Max |
| Layout.WrapRerun | DonkeyScroller/Content/Line.cs:88-115 | running again gives the same wraps, rows and Width |
| Layout.WordFrom | DonkeyScroller/Content/Line.cs:100-111 | walking a run of word characters wraps at every multiple of the row width |
| Layout.UnbrokenWordWraps | DonkeyScroller/Content/Line.cs:100-111 | a line with no break character is cut every MaxWidthInChars characters |
| ContentLine.Line.constructor | DonkeyScroller/Content/Line.cs:121-124 | a line with the parsed characters and spans, no wraps yet |
| ContentLine.Line.Text | DonkeyScroller/Content/Line.cs:76-83 | the characters in order |
| ContentLine.Line.Height | DonkeyScroller/Content/Line.cs:59-68 | CharHeight per row; with line icons shown and an icon set, the larger of that and one CharHeight; for a line of at least one row and a non-negative CharHeight, always CharHeight per row |
| ContentLine.Line.CalculateDimensions | DonkeyScroller/Content/Line.cs:88-116 | wraps, rows and Width are those of Wrap on the line's text |
| LegacyLine.LegacyTextOf | DonkeyScroller/Line.cs:48-55 | the legacy characters' chars in order |
| LegacyLine.Line.constructor | DonkeyScroller/Line.cs:60 | a line with the parsed characters and segments |
| LegacyLine.Line.Text | DonkeyScroller/Line.cs:48-55 | the characters in order |
| LegacyLine.Line.Height | DonkeyScroller/Line.cs:31 | CharHeight per row |
| LegacyLine.Line.CalculateDimensions | DonkeyScroller/Line.cs:68-96 | the same wrap loop on this line's text |
| LegacyLine.LegacyStep | DonkeyScroller/Line.cs:230-318 | every iteration succeeds into a valid state and advances the cursor |
| LegacyLine.LegacyParseChar | DonkeyScroller/Line.cs:233-318 | the switch body computes the step, and the shared palette is the step's |
| LegacyLine.Parse | DonkeyScroller/Line.cs:218-321 | the loop computes LegacyRun: the line, or the exception with the palette as it was left |
| LegacyLineFacts.LegacyRunInv | DonkeyScroller/Line.cs:230-318 | the loop keeps the invariant; a failed run still extends the palette |
| LegacyLineFacts.ParseFacts | DonkeyScroller/Line.cs:218-321 | no handled char is emitted; each URL segment's url is its text; the palette only grows |
| LegacyLineFacts.BareColorResetsBackground | DonkeyScroller/Line.cs:291-295 | a Color without digits sets Black on no background |
| LegacyLineFacts.LegacyToggles | DonkeyScroller/Line.cs:296-306 | Bold flips only on Bold, underline on both codes; Italic, StrikeThrough, Reset and Reverse are emitted |
| LegacyLineFacts.UrlCharsAreBlue | DonkeyScroller/Line.cs:307-316 | inside URL markers a char with default colours is Blue and underlined |
| LegacyLineFacts.ParsePlain | DonkeyScroller/Line.cs:218-321 | a plain line is emitted exactly, Black on no background |
| LegacyUtils.GetFontStyle | DonkeyScroller/Utils.cs:18-26 | Bold and Underline exactly as the char's flags, nothing else |
| LegacyUtils.LegacyParseIRCColors | DonkeyScroller/Utils.cs:34-83 | the newer reading and exceptions; no digits gives Black on no background with the cursor unchanged |
| LegacyUtils.LegacyParseIRCColorsCases | DonkeyScroller/Utils.cs:34-82 | the legacy parser case by case over the text: the newer parser's cases with palette numbers, and Black (1) on no background (-1) with the cursor unchanged when no digit follows Color |
| LegacyUtils.DialectsReadSameNumbers | DonkeyScroller/Utils.cs:34-83 | with digits both dialects read the same numbers and stop at the same place |
| LegacyUtils.LegacyHexSpec | DonkeyScroller/Utils.cs:92-112 | the same failures as the newer hex parser, before the table is touched; background looked up first; X means no background |
| LegacyUtils.GetStores | DonkeyScroller/IRCColorTable.cs:42-56 | a lookup with addNew returns a key holding the colour and only extends the table |
| LegacyUtils.LegacyParseHexColors | DonkeyScroller/Utils.cs:92-112 | the method computes LegacyHexSpec on the shared palette |
| LineBuffer.Keep | DonkeyScroller/Lines.cs:35-39 | the purge leaves a prefix of length min(Count, MaxLines) |
| LineBuffer.Lines.constructor | DonkeyScroller/Lines.cs:14 | empty, capacity 100 |
| LineBuffer.Lines.SetMaxLines | DonkeyScroller/Lines.cs:18-31 | same value: nothing changes; else capacity max(value, 10), purged at once, Count <= MaxLines |
| LineBuffer.Lines.PurgeExcessLines | DonkeyScroller/Lines.cs:35-39 | removing from the tail leaves Keep of the lines |
| LineBuffer.Lines.Insert | DonkeyScroller/Lines.cs:45-49 | the line at index 0, then the purge; Count <= MaxLines |
| LineBuffer.Lines.Append | DonkeyScroller/Content/Lines.cs:91 | List.Add: the line at the end, capacity unchanged |
| LineBuffer.InsertAllKeepsNewest | DonkeyScroller/Content/Lines.cs:80-84 | k inserts keep the newest lines, newest first, then the older ones, cut to the capacity |
| LineBuffer.InsertFromEmpty | DonkeyScroller/Content/Lines.cs:80-84 | from empty, the min(k, capacity) most recent lines, newest first |
| ContentLines.ContentLines.constructor | DonkeyScroller/Content/Lines.cs:25-37 | capacity 100, no lines, UnseenCount 0 |
| ContentLines.ContentLines.Add | DonkeyScroller/Content/Lines.cs:89-92 | the parsed line appended without a purge; a parser exception adds nothing |
| ContentLines.ContentLines.Text | DonkeyScroller/Content/Lines.cs:59-65 | every line's text plus CR LF, oldest first |
| ContentLines.AggregateIsListing | DonkeyScroller/Content/Lines.cs:63 | the Aggregate fold is the oldest-first listing |
| ContentLines.ListingAppend | DonkeyScroller/Content/Lines.cs:89-92 | an appended line comes first in the text |
| ContentLines.ListingInsert | DonkeyScroller/Content/Lines.cs:80-84 | an inserted line comes last in the text |
| ContentSelection.NewSelection | DonkeyScroller/Content/Selection.cs:21-33 | Start <= End row-first; the two points kept or swapped, never invented |
| ContentSelection.NewSelectionSymmetric | DonkeyScroller/Content/Selection.cs:21-33 | the order the points are given in does not matter |
| ContentSelection.Selection.InsideAt | DonkeyScroller/Content/Selection.cs:40-43 | Inside(row, column) is Inside of the point |
| ContentSelection.EndsInside | DonkeyScroller/Content/Selection.cs:49-61 | both ends are inside |
| ContentSelection.RowsBetweenInside | DonkeyScroller/Content/Selection.cs:53-54 | rows strictly between are wholly inside |
| ContentSelection.SingleRow | DonkeyScroller/Content/Selection.cs:51-52 | on one row, inside exactly between the two columns |
| ContentSelection.ManyRowsReadingOrder | DonkeyScroller/Content/Selection.cs:49-61 | across rows, inside exactly between End and Start in reading order |
| ContentSelection.OutsideRows | DonkeyScroller/Content/Selection.cs:55-59 | rows outside the two end rows are never inside |
| Spans.FirstContaining | DonkeyScroller/Interactive/InteractiveTextCollection.cs:35-38 | the first record containing the position, none exactly when no record does |
| Spans.SpanCollection.constructor | DonkeyScroller/UrlSegmentCollection.cs:9 | a new collection holds no records |
| Spans.SpanCollection.Add | DonkeyScroller/Interactive/InteractiveTextCollection.cs:18-24 | one record built from the fields appended, the others unchanged |
| Spans.SpanCollection.AddSpan | DonkeyScroller/Interactive/InteractiveUrlCollection.cs:26-29 | the record appended, the others unchanged |
| Spans.SpanCollection.Get | DonkeyScroller/InteractiveSegmentCollection.cs:35-38 | the earliest record with CharStart <= pos <= CharEnd, or null when none contains it |
| Spans.EmptySpanNeverFound | DonkeyScroller/InteractiveSegmentCollection.cs:37 | a record ending before it starts is never found |
| Spans.FirstContainingUnique | DonkeyScroller/UrlSegmentCollection.cs:34-37 | among disjoint records the found one is the only owner |
| Spans.FirstContainingAppend | DonkeyScroller/Interactive/InteractiveUrlCollection.cs:35-38 | appending never changes an earlier match |
| MarkedContent.MarkedContent.constructor | DonkeyScroller/Content/MarkedContent.cs:22-26 | Text "" and no Chars |
| MarkedContent.MarkedContent.HasText | DonkeyScroller/Content/MarkedContent.cs:14 | true exactly when Text is not empty |
| MarkedContent.MarkedContent.HasChars | DonkeyScroller/Content/MarkedContent.cs:18 | true exactly when some characters are gathered |
| MarkedContent.MarkedContent.ClearText | DonkeyScroller/Content/MarkedContent.cs:30-33 | Text "", Chars unchanged |
| MarkedContent.MarkedContent.ClearChars | DonkeyScroller/Content/MarkedContent.cs:37-40 | Chars empty, Text unchanged |
| MarkedContent.MarkedContent.InsertChars | DonkeyScroller/Content/MarkedContent.cs:44-48 | no chars: no change; else Trim(Chars) + CR LF before Text; Chars kept |
| MarkedContent.MarkedContent.TrimText | DonkeyScroller/Content/MarkedContent.cs:52-55 | Text trimmed; trimming again changes nothing |
| ScrollerUtils.CreateInteractiveText | DonkeyScroller/DonkeyScrollerUtils.cs:16-19 | Start, data, Split, text, End |
| ScrollerUtils.ScanCreateInteractiveText | DonkeyScroller/DonkeyScrollerUtils.cs:18 | the scan reads back the data and finds the text |
| ScrollerUtils.ParseCreateInteractiveText | DonkeyScroller/DonkeyScrollerUtils.cs:16-19 | parsing the markup shows exactly the text and records one span carrying the data |
| ScrollerUtils.CreateHexColorString | DonkeyScroller/DonkeyScrollerUtils.cs:26-34 | HexColor then six digits of foreground and six of background, "XXXXXX" for none |
| ScrollerUtils.ParseCreateHexColorString | DonkeyScroller/DonkeyScrollerUtils.cs:26-34 | the hex parser reads back the RGB colours, Transparent for none, cursor on the last digit |
| Scroller.CreateInteractiveString | DonkeyScroller/DonkeyScroller.cs:207-210 | the same markup as CreateInteractiveText |
| Scroller.LegacyParseInteractiveString | DonkeyScroller/DonkeyScroller.cs:207-210 | the legacy parser shows exactly the text and records one segment carrying the id |
| Scroller.PaletteIndex | DonkeyScroller/IRCColorTable.cs:42-56 | the first key holding the colour, else Black's number |
| Scroller.CreateColoredInteractiveStringAsWritten | DonkeyScroller/DonkeyScroller.cs:197-200 | the string as written starts with a digit, not with Color |
| Scroller.AsWrittenShowsNumber | DonkeyScroller/DonkeyScroller.cs:199 | the legacy parser shows that digit as text |
| Scroller.AsWrittenRedStartsWithSeven | DonkeyScroller/DonkeyScroller.cs:199 | for Red the string starts with '7' |
| Scroller.RedIsFour | DonkeyScroller/IRCColorTable.cs:16-34 | Red is palette number 4 |
| Scroller.CreateColoredInteractiveString | DonkeyScroller/DonkeyScroller.cs:197-200 | the intended string starts with Color |
| Scroller.ColoredInteractiveStringReadsColor | DonkeyScroller/DonkeyScroller.cs:197-200 | the legacy parser reads the colour's palette number on no background and goes on at the interactive string |
| Scroller.MaxWidthInChars | DonkeyScroller/DonkeyScroller.cs:80 | the largest n with n * CharWidth <= width |
| Scroller.PointToRowColumn | DonkeyScroller/DonkeyScroller.cs:250-258 | column X / CharWidth and row (height - Y) / CharHeight, truncated toward zero |
| Scroller.GetLineCharIndexFromPoint | DonkeyScroller/DonkeyScroller.cs:298-310 | offsets divided only when positive, row-major index |
| Scroller.CellIndexInside | DonkeyScroller/DonkeyScroller.cs:298-310 | for a point inside the rectangle and row, the index splits back into the cell's row and column |
| Scroller.DonkeyScroller.constructor | DonkeyScroller/DonkeyScroller.cs:154 | no lines, capacity 100, scroll bar Maximum 100 and Value 0 |
| Scroller.DonkeyScroller.OnMouseWheel | DonkeyScroller/DonkeyScroller.cs:167-181 | a positive delta steps up only above 0, otherwise down only below Maximum; Value stays in [0, Maximum] |
| Scroller.DonkeyScroller.AddText | DonkeyScroller/DonkeyScroller.cs:217-243 | white space only: nothing changes; else the parsed line goes in front and the scroll bar to the bottom; a parser exception changes no line |

## Left out

- The URL regular expressions at DonkeyScroller/DonkeyScroller.cs:25 and
  DonkeyScroller/Internal/Parsers.cs:18. .NET regex semantics are not modelled. The
  `UrlRegex.Replace` pass is a parameter function `markUrls`.
- Rendering is not modelled: it is GDI+ pixel output. This covers:
  - `Line.Draw` and `AdvanceCoords`;
  - Content/LineRenderer.cs;
  - `OnPaint` and the selection brushes.
- Font and brush caches, `SetFont` and `Lines.SetFont`. They only memoise GDI+ objects.
- Thread marshalling: `InvokeIfRequired`, `IsDisposed` and the asynchronous-state
  handling. These are concurrency.
- Text measurement: CharWidth, CharHeight and the text area size are parameters.
  P/Invoke (NativeMethods.cs, `LockWindowUpdate`) is not part of this model.
- The mouse, clipboard and `Process.Start` handlers, the designer and event-argument
  classes, and scroll-bar wiring beyond Maximum and Value. These are UI plumbing.
- `CharData.GetHashCode`. It rests on `Font.GetHashCode`, which is foreign.
- `ControlPaint.Light(Color.Black)`, entry 1 of the colour table, is not computed. It
  is a parameter, `lightBlack`.
- `ControlPaint.Dark` and the other colour arithmetic of drawing.
- The culture-sensitive `LastIndexOf` at DonkeyScroller/Internal/Parsers.cs:48 is
  modelled as an ordinal search.
- `char.IsLetterOrDigit` is exact on U+0000..U+00FF. Every character above U+00FF
  counts as a letter.
- `char.IsDigit` is the ASCII digits only.
- Null strings and null lines are not modelled. `string.IsNullOrWhiteSpace` is
  white-space-only on a string.
- The interplay of `Lines.Add`, the unseen-line counter and the event it raises is not
  modelled. Only the counter's initial value is stated.
- `TextUtil.Trim`: the contract states only that the ends are not white space. That
  the result is the input with white space cut from both ends is the lemma
  `TextUtil.TrimIsWindow`.
- `Scroller.MaxWidthInChars`, `Scroller.PointToRowColumn` and
  `Scroller.GetLineCharIndexFromPoint` require a positive CharWidth (and CharHeight).
  The C# divides by the measured size, which is always positive once a font is set.
- `Scroller.ColoredInteractiveStringReadsColor` holds for palette numbers up to 99.
  A larger number does not fit the two-digit colour code.
- `Scroller.GetLineCharIndexFromPoint`: its contract pins the index to the cell only
  for a point inside the line's rectangle and row width. Outside, only the formula is
  stated.
- `MarkedContent.MarkedContent.InsertChars`: the row it adds is the trimmed text of the
  gathered characters. Which characters the drawing code gathers is not modelled.

## Findings

| source | as written | input that shows it | evidently intended | confidence | as-written member | corrected member |
|---|---|---|---|---|---|---|
| DonkeyScroller/DonkeyScroller.cs:199 | `IRCControlChar.Color + IRCColorTable.Get(color)` adds a char and an int, so the string starts with the decimal number 3 + palette number, not with a colour code | `Color.Red`, palette number 4: the string starts with "7" and the legacy parser shows "7" as text | the Color character followed by the palette number, so that the interactive text is drawn in that colour | not executed | `Scroller.AsWrittenRedStartsWithSeven` | `Scroller.ColoredInteractiveStringReadsColor` |
