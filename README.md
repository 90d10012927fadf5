# Binmap in Dafny

Binmap is a small desktop tool for annotating binary files. It loads a file and shows one cell per byte in a scrollable grid. The user can:

- pick a display format (hex, decimal, binary, two decimal nibbles, ASCII) for selected bytes;
- break rows at chosen bytes;
- attach a comment to the first byte of a row;
- copy the selected bytes to the clipboard.

It saves these annotations in a `.binmap` sidecar file next to the data file and loads them back from there.

This project models the core of Binmap, module by module:

- `Bins` (`bin.dfy`): the byte record. It has its format, line break, comment and selection mark, and its caption and colour in each format.
- `Numerals` (`numerals.dfy`): the .NET number formatting the captions use.
- `Items` (`bin_list_item.dfy`): a grid cell. It covers the cell's width template, its binding to a record, its mark, its comment field and its row address caption.
- `TextInputs` (`text_input.dfy`): the one-line comment field and the keys it reacts to.
- `Scrollbars` (`scrollbar.dfy`): the scrollbar. It covers the clamped scroll positions, the thumb height, and the button, drag and wheel handling of one frame.
- `SortedLists` (`sorted_list.dfy`): the sorted selection.
- `Texts` (`texts.dfy`): `String.Join` and `String.Split`.
- `Flows` (`flow.dfy`): the row-wrapping placement, as a pure function.
- `Lists` (`bin_list.dfy`): the grid control. A method that changes the grid is proved to leave its cells showing `Flows.Cells`. The file also covers selection by click and Shift-click, the format change, the keyboard commands, and locking.
- `Streams` (`binary_stream.dfy`): the `BinaryWriter`/`BinaryReader` encoding, including UTF-8 and 7-bit lengths.
- `Sidecars` (`sidecar.dfy`): the sidecar format and its round trip.
- `Layouters` (`layouter.dfy`): the screen that loads a data file or a sidecar from a file system, fills the list, applies the sidecar and saves it again.
- `Wrappers` (`wrappers.dfy`): `Option` and `Result`.

How the model represents the program:

- Records, cells, the list, the scrollbar, the text field and the screen are classes. The source changes their fields in place, and the list, the selection, the anchor and the cells share the same record objects.
- The file system is a map from names to byte sequences.
- An exception is a value. The sidecar reader's exceptions are `Sidecars.Fault`. The division by zero of the scrollbar thumb is `None` from `Scrollbars.ThumbHeightAsWritten`.
- The measuring calls of the two fonts are parameters of the screen's constructor. The list's `measure` field is the one `Main.DefaultFont` holds. The timer, the pointer position and the `Math.Round` of a drag are parameters too.
- The scrollbar sees the list through a `Target` (MaxScrollValue, NumVisible, ScrollStepSize) and a function `visible`. `visible(p)` is the NumVisible the list has after `OnScroll(p)`, `Lists.BinList.VisibleFrom`, so every clamp and thumb layout after a hand-off reads the list as that hand-off left it.

## Model

| member | source | states |
|---|---|---|
| Bins.FromCode | Binmap/Screens/Layouter.cs:139-144 | the cast of a stored format byte gives a format value the enum can hold, whose code is that byte |
| Bins.CodeRoundTrip | Binmap/Screens/Layouter.cs:172 | casting the written code of a format back gives that format |
| Bins.Bin.constructor | Binmap/Core/Bin.cs:75-79 | a new record holds its byte and offset, is Hex, has no line break, an empty comment (the field defaults of lines 12-14) and no anchor mark (the default of a `bool` field the source never declares) |
| Bins.HexText | Binmap/Core/Bin.cs:30-31 | Hex text is two upper-case hex digits that read back as the byte |
| Bins.BinaryText | Binmap/Core/Bin.cs:33-34 | Binary text is eight '0'/'1' digits that read back as the byte in base 2 |
| Bins.DecimalText | Binmap/Core/Bin.cs:27-28 | Decimal text is 1 to 3 digits without a leading zero that read back as the byte |
| Bins.NibbleText | Binmap/Core/Bin.cs:36-39 | nibble text is two decimal numerals around a space, each below 16, high * 16 + low being the byte |
| Bins.AsciiText | Binmap/Core/Bin.cs:41-42 | a printable byte (32..126) shows as its character in the Ascii colour, any other as its decimal text in red |
| Bins.AsciiTextAmbiguous | Binmap/Core/Bin.cs:41-42 | Ascii text alone does not tell bytes apart: 5 and '5' both show "5" (only the colour differs) |
| Bins.AsciiTextAndColorInjective | Binmap/Core/Bin.cs:41-68 | in Ascii, text and colour together determine the byte |
| Bins.NumericTextInjective | Binmap/Core/Bin.cs:27-39 | in the four numeric formats the text determines the byte |
| Bins.CommaInText | Binmap/Core/Bin.cs:19-47 | a caption contains a comma exactly when it is the Ascii caption of byte 44 |
| Bins.UndefinedText | Binmap/Core/Bin.cs:43-71 | a format code the enum does not name shows as empty text in white |
| Numerals.DigitsCorrect | Binmap/Core/Bin.cs:27-28 | `ToString` digits use only base-b digits, read back as the number, are non-empty and have no leading zero |
| Numerals.DigitsLength | Binmap/Core/Bin.cs:33-34 | a number below b^k takes at most k digits |
| Numerals.PadLeft | Binmap/Core/Bin.cs:34 | `PadLeft` keeps the string as a suffix, reaches the width, and fills only with the pad character |
| Numerals.PadLeftZeros | Binmap/Core/Bin.cs:34 | padding a numeral with zeros keeps its value and its digit alphabet |
| Numerals.Hex4Correct | Binmap/Controls/BinListItem.cs:136 | `ToString("X4")` has at least four hex digits (exactly four below 0x10000) and reads back as the number |
| Items.WidthIgnoresValue | Binmap/Controls/BinListItem.cs:24-47 | outside Ascii a cell's width does not depend on its byte |
| Items.TemplateCoversCaption | Binmap/Controls/BinListItem.cs:24-46 | the width template is never shorter than the caption; exactly as long for Hex and Binary; the caption itself for Ascii and unnamed formats |
| Items.BinListItem.constructor | Binmap/Controls/BinListItem.cs:60-72 | a new cell is 10 x 10 at (0, 0), has ID -1, no record, no row link, no mark, and a hidden, empty comment field |
| Items.BinListItem.SetBin | Binmap/Controls/BinListItem.cs:19-48 | binding a record sets the cell width from the template of the record's format and changes nothing else |
| Items.BinListItem.Bind | Binmap/Controls/BinList.cs:151-155 | a layout step binds the record, clears the row link, sets ID, height and the mark, and leaves the position |
| Items.BinListItem.MoveTo | Binmap/Controls/BinList.cs:169-170 | placing a cell sets its position only |
| Items.BinListItem.MouseDown | Binmap/Controls/BinListItem.cs:79-83 | a mouse-down flips the cell's mark and nothing else |
| Items.BinListItem.CommentChanged | Binmap/Controls/BinListItem.cs:74-77 | the change callback copies the field's text into the record's comment, keeping format, line break and mark |
| Items.BinListItem.TypeIntoComment | Binmap/Controls/BinListItem.cs:68-77 | a key typed into the comment field keeps its caret valid; the record's comment follows the text exactly when the text changed |
| Items.BinListItem.SyncComment | Binmap/Controls/BinListItem.cs:100-112 | drawing shows the comment field on the first record and on row starts, reloads its text from the record, keeps the caret, and leaves the field valid exactly when the caret still fits the new text |
| Items.BinListItem.Fill | Binmap/Controls/BinListItem.cs:97 | the background is fuchsia exactly for a marked cell holding the anchor, and the window's background colour exactly for an unmarked cell |
| Items.BinListItem.CaptionReadsBack | Binmap/Controls/BinListItem.cs:133-144 | the address caption is empty exactly off a row start, reads back as the row's start offset, and is a range "start - end" exactly when the row spans several records |
| TextInputs.Typed | Binmap/Controls/TextInput.cs:98-218 | exactly the typing keys insert a character, always printable ASCII; letters are lower-case without Shift; digits type their digit without Shift |
| TextInputs.ShiftedDigits | Binmap/Controls/TextInput.cs:196-213 | Shift changes what a digit key types except for the '3' key |
| TextInputs.NumPadSameAsDigitRow | Binmap/Controls/TextInput.cs:175-195 | the number pad types what the digit row types |
| TextInputs.TextInput.constructor | Binmap/Controls/TextInput.cs:11-36 | a new field is empty, its caret at 0, visible and valid |
| TextInputs.TextInput.MouseDown | Binmap/Controls/TextInput.cs:38-42 | a click puts the caret after the last character |
| TextInputs.TextInput.ProcessKey | Binmap/Controls/TextInput.cs:81-238 | the key is handled exactly when it is not ignored; a typing key inserts at the caret and moves it on; Back deletes before the caret; Left/Right move it within the text; the callback runs exactly when the text changed; ASCII text stays ASCII |
| Scrollbars.Quot | Binmap/Controls/Scrollbar.cs:59 | C# integer division agrees with Dafny's on a non-negative dividend and positive divisor |
| Scrollbars.QuotTruncates | Binmap/Controls/Scrollbar.cs:59 | the quotient truncates toward zero: the remainder is smaller than the divisor and has the dividend's sign |
| Scrollbars.ScrollToPosition | Binmap/Controls/Scrollbar.cs:75-80 | `ScrollTo` clamps the request to [0, MaxScrollValue], and to 0 when that range is empty |
| Scrollbars.ScrollToIdempotent | Binmap/Controls/Scrollbar.cs:75-80 | scrolling to a position `ScrollTo` reached stays there |
| Scrollbars.Stepped | Binmap/Controls/Scrollbar.cs:82-88 | a step moves by delta, clamped to [0, max(0, MaxScrollValue - NumVisible)] |
| Scrollbars.SteppedMonotone | Binmap/Controls/Scrollbar.cs:82-88 | stepping is monotone in the step, a zero step keeps an in-range position, and the range lies within [0, MaxScrollValue] |
| Scrollbars.DragIndex | Binmap/Controls/Scrollbar.cs:65-73 | a drag requests the position plus the rounded distance, clamped to [0, max(1, MaxScrollValue - NumVisible)] |
| Scrollbars.DragLands | Binmap/Controls/Scrollbar.cs:65-80 | a drag lands in [0, MaxScrollValue], no later than the last full page when there is one, on 0 or 1 otherwise |
| Scrollbars.WheelDelta | Binmap/Controls/Scrollbar.cs:125-127 | the wheel steps one ScrollStepSize back when its value grew and forward when it fell |
| Scrollbars.ThumbDivisor | Binmap/Controls/Scrollbar.cs:59 | the corrected divisor is never 0: MaxScrollValue when that is not 0 |
| Scrollbars.ThumbHeight | Binmap/Controls/Scrollbar.cs:56-59 | the corrected thumb height is at least the thumb's width and at most the track |
| Scrollbars.ThumbHeightAsWritten | Binmap/Controls/Scrollbar.cs:59 | the source's thumb height throws exactly when MaxScrollValue is 0, and otherwise equals the corrected one |
| Scrollbars.ThumbProportional | Binmap/Controls/Scrollbar.cs:59 | when not everything is visible the thumb is the visible share of the track, at least its width |
| Scrollbars.ThumbFillsTrack | Binmap/Controls/Scrollbar.cs:59 | when every record is visible the thumb fills the track, a single record included |
| Scrollbars.Scrollbar.constructor | Binmap/Controls/Scrollbar.cs:12-39 | a new bar is 20 x 20 with 14 x 14 buttons and thumb, at position 0, not dragging, with the current wheel value |
| Scrollbars.Scrollbar.ThumbClicked | Binmap/Controls/Scrollbar.cs:51-54 | clicking the thumb starts a drag at the pointer's y |
| Scrollbars.Scrollbar.Layout | Binmap/Controls/Scrollbar.cs:56-63 | the thumb gets the bar's width less 4 and the corrected share of the track |
| Scrollbars.Scrollbar.ScrollTo | Binmap/Controls/Scrollbar.cs:75-80 | the bar moves to the clamped position and hands it to the list; the thumb is then laid out against the NumVisible that hand-off left |
| Scrollbars.Scrollbar.Step | Binmap/Controls/Scrollbar.cs:82-88 | the bar moves by the step clamped against the list as it was, hands the position to the list, and lays out the thumb against the list as it now is |
| Scrollbars.Scrollbar.ScrollByDistance | Binmap/Controls/Scrollbar.cs:65-73 | a drag distance moves the bar to the clamped drag index through `ScrollTo`, and the thumb follows the list as it now is |
| Scrollbars.Scrollbar.UpdateButtons | Binmap/Controls/Scrollbar.cs:94-108 | when a repeat is due, a held up button steps back, then a held down button steps forward clamped against the NumVisible the up step's hand-off left; each position is handed to the list in order |
| Scrollbars.Scrollbar.UpdateDrag | Binmap/Controls/Scrollbar.cs:110-118 | a drag in progress scrolls by the pointer's movement, follows the pointer, and ends on release; otherwise no position is handed and the position, the thumb and the drag state stay |
| Scrollbars.Scrollbar.UpdateWheel | Binmap/Controls/Scrollbar.cs:120-129 | over the list a changed wheel value steps once; the wheel value is always recorded |
| Scrollbars.Scrollbar.UpdatePointer | Binmap/Controls/Scrollbar.cs:110-129 | after the buttons' hand-offs, the drag hands the clamped drag index computed against the list they left, then a changed wheel value over the list steps once from where the drag left the bar, clamped against the list the drag left |
| Scrollbars.Scrollbar.Update | Binmap/Controls/Scrollbar.cs:90-130 | one frame hands the list the buttons' positions `a`, the drag's `b` and the wheel's `c`, in that order: `a` is the up step then the down step clamped against the NumVisible the up step left; `b` is the drag index from where the buttons left the bar, with the pointer's movement scaled by the track the thumb had after the buttons laid it out; `c` is one wheel step clamped against the list the drag left; every position lies in [0, MaxScrollValue], the bar ends at the last one, the wheel value is recorded and the drag state follows the pointer |
| Scrollbars.Scrollbar.Resize | Binmap/Controls/Scrollbar.cs:132-143 | the bar takes the size, its buttons become w x w, and the thumb is laid out on the track between them |
| Streams.SignedUnsigned | Binmap/Screens/Layouter.cs:138 | the casts between int and uint are inverse to each other |
| Streams.ReadBool | Binmap/Screens/Layouter.cs:140 | a bool is read exactly when a byte remains, true for any non-zero byte |
| Streams.ByteRoundTrip | Binmap/Screens/Layouter.cs:172 | a written byte reads back, whatever follows it |
| Streams.BoolRoundTrip | Binmap/Screens/Layouter.cs:173 | a written bool reads back, whatever follows it |
| Streams.WriteInt32 | Binmap/Screens/Layouter.cs:171 | an int is written as four bytes |
| Streams.ReadInt32 | Binmap/Screens/Layouter.cs:138 | an int is read exactly when four bytes remain, and lies in the int32 range |
| Streams.Int32RoundTrip | Binmap/Screens/Layouter.cs:165 | a written int reads back, whatever follows it (little-endian two's complement) |
| Streams.Write7Bit | Binmap/Screens/Layouter.cs:162 | a 7-bit encoded number takes at least one byte |
| Streams.Write7BitLength | Binmap/Screens/Layouter.cs:162 | a number below 128^k takes at most k bytes |
| Streams.Read7BitLength | Binmap/Screens/Layouter.cs:117 | a 7-bit integer takes between 1 and the remaining of its 5 bytes |
| Streams.Read7BitInt | Binmap/Screens/Layouter.cs:117 | a read 7-bit integer is an int32 and takes 1 to 5 bytes |
| Streams.GroupsOfWrite | Binmap/Screens/Layouter.cs:162 | the seven-bit groups of an encoding carry the number |
| Streams.EndOfWrite | Binmap/Screens/Layouter.cs:117 | the reader stops exactly where an encoding ends, whatever follows |
| Streams.Int7BitRoundTrip | Binmap/Screens/Layouter.cs:162 | a written 7-bit integer reads back in at most 5 bytes, whatever follows it |
| Streams.EncodeChar | Binmap/Screens/Layouter.cs:174 | a character takes 1 to 4 UTF-8 bytes |
| Streams.DecodeOne | Binmap/Screens/Layouter.cs:141 | decoding takes at least one and at most the remaining bytes |
| Streams.DecodeEncoded | Binmap/Screens/Layouter.cs:141 | the UTF-8 bytes of a character decode to it, taking exactly those bytes |
| Streams.Utf8RoundTrip | Binmap/Screens/Layouter.cs:174 | decoding the UTF-8 of any string gives the string |
| Streams.AsciiUtf8 | Binmap/Screens/Layouter.cs:174 | ASCII text encodes as its own character codes, one byte each |
| Streams.ReadCounted | Binmap/Screens/Layouter.cs:141 | a counted read consumes its count and its bytes |
| Streams.ReadString | Binmap/Screens/Layouter.cs:141 | a string read consumes at least one byte |
| Streams.CountedRoundTrip | Binmap/Screens/Layouter.cs:174 | bytes behind their 7-bit count read back, whatever follows |
| Streams.StringRoundTrip | Binmap/Screens/Layouter.cs:174 | a written string reads back, whatever follows it |
| Sidecars.HeaderStringsWritable | Binmap/Screens/Layouter.cs:162-163 | the signature and the version can be written |
| Sidecars.ReadEntry | Binmap/Screens/Layouter.cs:138-141 | an entry read consumes bytes |
| Sidecars.NoteOf | Binmap/Screens/Layouter.cs:144-146 | an entry gives its record the format whose code is the stored byte, its line break and its comment |
| Sidecars.Apply | Binmap/Screens/Layouter.cs:143-146 | applying entries keeps the number of records |
| Sidecars.ApplyOutcome | Binmap/Screens/Layouter.cs:136-147 | applying stops exactly when some offset lies outside the list, at such an offset, and a record that no entry names keeps its annotation |
| Sidecars.ReadHeader | Binmap/Screens/Layouter.cs:117-125 | a read header leaves fewer bytes behind it |
| Sidecars.ReadBody | Binmap/Screens/Layouter.cs:127-147 | the body keeps the number of records; a rejection is a count mismatch and changes nothing |
| Sidecars.BodyApplies | Binmap/Screens/Layouter.cs:129-147 | once the count matches, the body applies its scanned entries, and its outcome is that of the scan and the apply |
| Sidecars.Load | Binmap/Screens/Layouter.cs:115-153 | a wrong signature is rejected exactly when it is one; a count mismatch only in apply mode; a rejection or the probe mode changes no record; the name is taken exactly when the header was read |
| Sidecars.LoadHeader | Binmap/Screens/Layouter.cs:117-150 | the same outcome rules, given the header as read |
| Sidecars.EntryReads | Binmap/Screens/Layouter.cs:138-141 | an entry whose four fields read back reads back |
| Sidecars.EntryRoundTrip | Binmap/Screens/Layouter.cs:169-176 | a written entry reads back as its record's entry, whatever follows |
| Sidecars.ScanStep | Binmap/Screens/Layouter.cs:136-141 | the reading loop goes on behind an entry that reads |
| Sidecars.ScanRoundTrip | Binmap/Screens/Layouter.cs:136-147 | the written entries read back as the records' entries, up to the end of the stream, with no failure |
| Sidecars.ApplyStep | Binmap/Screens/Layouter.cs:143-146 | an in-range entry is applied and the rest follow |
| Sidecars.EntryNote | Binmap/Screens/Layouter.cs:144-146 | a record's entry gives back its annotation |
| Sidecars.ApplyRoundTrip | Binmap/Screens/Layouter.cs:143-147 | the entries of numbered records hit no missing offset, restore every emitted record, and leave the others |
| Sidecars.HeaderReads | Binmap/Screens/Layouter.cs:117-125 | a header whose three strings read back reads back |
| Sidecars.HeaderRoundTrip | Binmap/Screens/Layouter.cs:162-164 | a written header reads back with the body behind it |
| Sidecars.BodyRoundTrip | Binmap/Screens/Layouter.cs:165-176 | a written body read onto as many records applies its entries, and is accepted when they all fit |
| Sidecars.BodyCountChecked | Binmap/Screens/Layouter.cs:129-134 | a written body read onto a different number of records is rejected and changes nothing |
| Sidecars.RoundTrip | Binmap/Screens/Layouter.cs:156-180 | a written sidecar loaded onto as many records is accepted, names the data file, restores every emitted record and keeps the others; probing it changes nothing |
| Sidecars.SparseLoss | Binmap/Screens/Layouter.cs:169 | onto fresh records, a Hex record without a line break comes back with an empty comment whatever it had; every other record comes back as saved |
| Sidecars.CountChecked | Binmap/Screens/Layouter.cs:129-134 | a written sidecar loaded onto a different number of records is rejected, names the file, and changes nothing |
| Flows.FlowStep | Binmap/Controls/BinList.cs:135-175 | one round of the placing loop: the next cell is placed by the rule and the rest follow from the advanced cursor |
| Flows.FlowDone | Binmap/Controls/BinList.cs:135 | placement ends once records run out or the cursor reaches the height limit |
| Flows.FlowRule | Binmap/Controls/BinList.cs:135-175 | every placed cell was reached above the limit, opens a row at x = 100 one row lower exactly when it wraps, and otherwise sits at the cursor; placement covers every record unless the cursor passed the limit |
| Flows.LineBreakOpensRow | Binmap/Controls/BinList.cs:157-166 | a record with a line break always opens a row at the left margin |
| Flows.KeptCellsFit | Binmap/Controls/BinList.cs:179-185 | when some records got no cell the last placed cell is dropped and every kept cell is above the limit; at most the records from the scroll position on are shown |
| Flows.LastRecordShown | Binmap/Controls/BinList.cs:135-179 | once scrolled the last record is never shown; from the top it is shown exactly when every record got a cell |
| Flows.RowEndAt | Binmap/Controls/BinList.cs:157-177 | a row ends where the next row starts, or at the last cell |
| Flows.RowIsLevel | Binmap/Controls/BinList.cs:157-172 | a row's cells lie on one line and none of them after the first wraps |
| SortedLists.ContainsKeyCorrect | Binmap/Controls/BinList.cs:155 | `ContainsKey` answers exactly whether the key is present |
| SortedLists.AddCorrect | Binmap/Controls/BinList.cs:215 | adding an absent key keeps the list sorted and adds exactly that entry |
| SortedLists.RemoveCorrect | Binmap/Controls/BinList.cs:237 | removing a key keeps the list sorted and takes out exactly that key's entries |
| SortedLists.SortedEntriesByKey | Binmap/Controls/BinList.cs:17 | in a sorted list a key identifies its entry |
| SortedLists.FirstIsMinimum | Binmap/Controls/BinList.cs:273 | `First()` has the smallest key |
| Texts.Join | Binmap/Controls/BinList.cs:263 | the joined text starts with the first part and is as long as all parts plus one separator between each two; an empty list joins to ""; `SplitJoin` is its inverse |
| Texts.SplitJoin | Binmap/Controls/BinList.cs:263 | splitting a join at the separator gives the parts back when no part holds it |
| Lists.Advance | Binmap/Controls/BinList.cs:149-174 | one placed cell extends the partial layout and, when it wraps, closes the open row |
| Lists.CloseRow | Binmap/Controls/BinList.cs:157-165 | when a cell wraps, the open row's first cell links to the previous cell |
| Lists.CloseWindow | Binmap/Controls/BinList.cs:177 | once the last row's first cell links to the last cell, the placed cells show the window |
| Lists.LinkRow | Binmap/Controls/BinList.cs:177 | the final link sets only the open row's first cell's row end |
| Lists.Range | Binmap/Controls/BinList.cs:212 | the range holds exactly the integers from lo to hi |
| Lists.Copied | Binmap/Controls/BinList.cs:256-262 | Ctrl+C copies one piece per selected record |
| Lists.ClipboardReadsBack | Binmap/Controls/BinList.cs:256-263 | the clipboard text splits back at the commas into the pieces, unless a comma byte is shown as Ascii |
| Lists.OneRecordLayoutThrows | Binmap/Controls/BinList.cs:188 | with one record the trailing scrollbar layout divides by MaxScrollValue = 0 and throws; the corrected thumb fills the track |
| Lists.BinList.constructor | Binmap/Controls/BinList.cs:75-99 | a new list is empty, unlocked, clean, at scroll position 0, with a 160-pixel comment column, 20 x 20 cells, no spacing, measuring in the font it is given |
| Lists.BinList.Layout | Binmap/Controls/BinList.cs:112-189 | the cells show the window `Flows.Cells` computes from the scroll position, cells are reused from the front, the settings stay, and with no records every cell goes and `dirty` is unchanged |
| Lists.BinList.LayoutWindow | Binmap/Controls/BinList.cs:125-187 | with records, a layout places, links, trims and leaves the list laid out |
| Lists.BinList.TrimItems | Binmap/Controls/BinList.cs:179-187 | surplus cells go from the end, and the scrollbar shows when some record has no cell |
| Lists.BinList.TakeCell | Binmap/Controls/BinList.cs:139-147 | the next cell is the existing one at that index or a new cell appended with the comment column width |
| Lists.BinList.PlaceCell | Binmap/Controls/BinList.cs:149-174 | a cell is bound and lands where `Flows.Next` puts its record; a wrap closes the open row |
| Lists.BinList.PlaceWindow | Binmap/Controls/BinList.cs:127-177 | the placing loop leaves the placed cells showing the window, repeats no cell, and keeps the cells it started with |
| Lists.BinList.CloseLayout | Binmap/Controls/BinList.cs:177 | after the loop the placed cells show the window |
| Lists.BinList.ShownCell | Binmap/Controls/BinList.cs:135-187 | after a layout cell k shows record startIndex + k, numbered k, at its computed place, with the record's width, the row height, and marked exactly when selected |
| Lists.BinList.LaidOutGrid | Binmap/Controls/BinList.cs:151-155 | a layout binds the cells to consecutive records from the scroll position |
| Lists.BinList.VisibleBound | Binmap/Controls/BinList.cs:135 | at most the records from the scroll position on have a cell |
| Lists.BinList.TrimmedCellsFit | Binmap/Controls/BinList.cs:179-185 | when some records got no cell the last placed cell was dropped and every kept cell is above the height limit |
| Lists.BinList.DeselectAll | Binmap/Controls/BinList.cs:242-248 | the anchor loses its mark and the selection empties |
| Lists.BinList.SelectRange | Binmap/Controls/BinList.cs:212-216 | the range loop adds exactly the offsets lo .. hi to the selection |
| Lists.BinList.Relayout | Binmap/Controls/BinList.cs:218 | a layout that keeps records and settings keeps cell k bound and marked from the selection |
| Lists.BinList.SelectAndShow | Binmap/Controls/BinList.cs:205-219 | a range selection followed by a layout marks the clicked cell and adds exactly the range |
| Lists.BinList.SelectSpan | Binmap/Controls/BinList.cs:205-220 | a Shift-click with an anchor elsewhere adds exactly the span, lays out and marks the clicked cell; any other click changes nothing; annotations stay |
| Lists.BinList.ExtendToAnchor | Binmap/Controls/BinList.cs:205-219 | a Shift-click whose span covers several records adds exactly the span from the anchor to the clicked record, lays out, and leaves the clicked cell marked and bound to its record |
| Lists.BinList.ApplyMark | Binmap/Controls/BinList.cs:222-239 | the anchor loses its mark; a marked cell makes its record the anchor and adds it; an unmarked one removes it and leaves no anchor; annotations and binding stay |
| Lists.BinList.Anchor | Binmap/Controls/BinList.cs:222-239 | the selection and the anchor as the mark step leaves them |
| Lists.BinList.Remark | Binmap/Controls/BinList.cs:222-231 | only marks change: the old anchor loses its mark and a marked cell's record gets it, and the layout stays |
| Lists.BinList.ItemClick | Binmap/Controls/BinList.cs:201-240 | after a click the cell is marked exactly when a span was added or it was marked; a marked cell is the anchor and its record and the span are added; an unmarked one is removed with no anchor; a range click lays out; no record's format, line break or comment changes, and the cells stay bound |
| Lists.BinList.Press | Binmap/Controls/BinListItem.cs:79-81 | a mouse-down flips one mark and keeps the cells bound |
| Lists.BinList.MouseDownOn | Binmap/Controls/BinListItem.cs:79-83 | a mouse-down and its click: the cell ends marked exactly when a span was added or it was unmarked, with the selection and anchor that follow, annotations kept and the cells bound |
| Lists.BinList.Reformat | Binmap/Controls/BinList.cs:108 | exactly the selected records take the format; nothing else changes |
| Lists.BinList.SetBinFormat | Binmap/Controls/BinList.cs:106-110 | exactly the selected records take the format, and with a selection the list lays out |
| Lists.BinList.CopyText | Binmap/Controls/BinList.cs:254-263 | the copied text is the comma join of the pieces of the selected records in offset order |
| Lists.BinList.ProcessKey | Binmap/Controls/BinList.cs:250-302 | Ctrl+C returns the clipboard text and status, or "No bytes selected!"; with a selection Enter breaks the row at the lowest selected record unless it is record 0, Back removes its break, each clearing its comment and laying out |
| Lists.BinList.Update | Binmap/Controls/BinList.cs:304-314 | a right-button press over the list clears the selection and the anchor and lays out; otherwise nothing changes |
| Lists.BinList.Resize | Binmap/Controls/BinList.cs:363-368 | the list takes the size and lays out unless locked |
| Lists.BinList.OnScroll | Binmap/Controls/BinList.cs:370-374 | the window starts at the scroll position and is laid out, so `NumVisible` becomes `VisibleFrom(position)`, the scrollbar's `visible`; records, selection and sizes stay |
| Lists.BinList.Lock | Binmap/Controls/BinList.cs:377-380 | the list is locked |
| Lists.BinList.Unlock | Binmap/Controls/BinList.cs:382-386 | unlocking lays out exactly when something changed while locked |
| Lists.BinList.AddItem | Binmap/Controls/BinList.cs:388-393 | the record is appended; locked, the list stays dirty; unlocked, it is laid out and clean |
| Lists.BinList.Clear | Binmap/Controls/BinList.cs:402-408 | no records, no cells, no selection, no anchor, position 0, dirty |
| Lists.BinList.SetItemSize | Binmap/Controls/BinList.cs:20-30 | an equal size changes nothing; another makes the list dirty and lays out unless locked |
| Lists.BinList.SetItemSpace | Binmap/Controls/BinList.cs:32-42 | the same for the spacing |
| Layouters.GetFileName | Binmap/Screens/Layouter.cs:164 | the file name is a suffix of the path without separators or ':', and the character just before it, when there is one, is a separator or ':' |
| Layouters.SidecarExtension | Binmap/Screens/Layouter.cs:77 | the name a sidecar gets has the `.binmap` extension |
| Layouters.FileNameOf | Binmap/Screens/Layouter.cs:164 | the file name of a directory plus a name is the name |
| Layouters.SidecarFindsData | Binmap/Screens/Layouter.cs:69-78 | the data file name stored in a sidecar, combined with the sidecar's directory, is the data file again |
| Layouters.Open | Binmap/Screens/Layouter.cs:109-113 | a missing file or a wrong extension is rejected without a name and changes nothing; the name is taken whenever the load is accepted |
| Layouters.OpenSaved | Binmap/Screens/Layouter.cs:109-153 | a saved sidecar, opened in apply mode onto as many records, is accepted, names the data file and restores every emitted record |
| Layouters.SaveThenLoad | Binmap/Screens/Layouter.cs:156-180 | a sidecar saved from records numbered from 0, loaded onto as many fresh records, is accepted, names the data file, and gives each record its saved annotation when it was emitted and the default otherwise |
| Layouters.SidecarNamed | Binmap/Screens/Layouter.cs:69-78 | the sidecar `LoadFile` settles on has the `.binmap` extension |
| Layouters.SetNote | Binmap/Screens/Layouter.cs:143-146 | one entry changes the annotation of the record at its offset only |
| Layouters.ApplyEntries | Binmap/Screens/Layouter.cs:136-147 | the reading loop in place leaves the annotations and the stopping offset `Sidecars.Apply` gives |
| Layouters.Layouter.constructor | Binmap/Screens/Layouter.cs:38-65 | a new screen has no file names, an empty unlocked list 96 x 40 pixels smaller than the window, 2-pixel spacing, the large font's 20 x 15 cells measured in the large font, and no save button |
| Layouters.Layouter.Arrange | Binmap/Screens/Layouter.cs:59-64 | the constructor's calls on the empty list: 2-pixel spacing, the window's size less the button column and status line, and the large font with its 20 x 15 cells |
| Layouters.Layouter.Resize | Binmap/Screens/Layouter.cs:289-316 | the list keeps 96 pixels for the buttons and 40 for the status line; the save button shows when there are cells and room below the buttons |
| Layouters.Layouter.SetItemFontSize | Binmap/Screens/Layouter.cs:193-210 | font 0 is the small font and 1 the large one: the list measures every cell in the chosen font, the cells become 20 x (13 + 2 * id), and a changed size lays the unlocked list out with every kept cell as wide as its caption in that font; records, selection and the list's size stay |
| Layouters.Layouter.TypeButtonClicked | Binmap/Screens/Layouter.cs:212-215 | exactly the selected records take the button's format |
| Layouters.Layouter.SaveFile | Binmap/Screens/Layouter.cs:156-180 | without a data file nothing is written; otherwise the sidecar `Encode` lays out replaces the file and the status reports it for 4 seconds |
| Layouters.Layouter.LoadBinmapFile | Binmap/Screens/Layouter.cs:109-154 | the outcome, annotations, name and fault are those of `Open` |
| Layouters.Layouter.TakeHeader | Binmap/Screens/Layouter.cs:117-150 | behind the header read: those of `LoadHeader` |
| Layouters.Layouter.ApplyBody | Binmap/Screens/Layouter.cs:127-147 | the apply mode's outcome and annotations are those of `ReadBody` |
| Layouters.Layouter.LoadFile | Binmap/Screens/Layouter.cs:67-107 | an accepted sidecar names the data file in its directory, by `Path.Combine` (an empty stored name gives the directory itself); any other file is the data file with `.binmap` added; a probe that throws keeps both file names, the error text and every record; a missing data file is reported and changes no record; otherwise the list holds one fresh record per byte with the sidecar applied, laid out unless applying threw; every failure leaves the save button as it was |
| Layouters.Layouter.Locate | Binmap/Screens/Layouter.cs:69-84 | the probe; the data file is the stored name combined with the sidecar's directory by `Path.Combine`'s rules (an empty stored name gives the directory) or the file itself, the sidecar the file or the file with `.binmap` added; a missing data file is reported with its name; a probe that throws keeps both names and the error text; no record's annotation changes |
| Layouters.Layouter.Fill | Binmap/Screens/Layouter.cs:86-102 | the list holds the bytes as fresh numbered records with the sidecar applied, locked exactly when applying threw, and then left with no cells and the save button as it was |
| Layouters.Layouter.Finish | Binmap/Screens/Layouter.cs:100-104 | the sidecar is applied; only if it did not throw is the list unlocked, laid out and the save button shown with cells; if it threw, the cells and the save button stay as they were |
| Layouters.Layouter.Show | Binmap/Screens/Layouter.cs:102-104 | the list is unlocked and laid out, and the save button shows when there are cells |
| Layouters.Layouter.Populate | Binmap/Screens/Layouter.cs:86-98 | the locked list is cleared and given one fresh default record per byte, numbered from 0 |

## Left out

- Bins.Bin.constructor: the source never declares `Bin.Selected`, yet BinList.cs:224 and :231 and BinListItem.cs:97 read and write it (Bin.cs:12-17 declares only `Format`, `LineBreak`, `Comment`, `Value` and `Offset`). The model supplies the field as `selected`, starting at C#'s default for a `bool`, false.
- Streams.ReadString: decodes each string on its own, so an incomplete UTF-8 sequence at the end of a string becomes U+FFFD. .NET's `BinaryReader.ReadString` passes every string through one decoder that it does not flush, so such a tail is held back and continues the next string read. For example, a comment ending in the bytes E2 82, followed by a comment starting with AC, reads in the source as the first comment without those bytes and the second starting with '€'. The model instead ends the first with U+FFFD and starts the second with U+FFFD. Only sidecars whose strings are not well-formed UTF-8 differ, and `Layouters.Layouter.SaveFile` never writes one: every written string is complete UTF-8, so the round trips hold as stated.
- Lists.BinList.Layout: the trailing `scrollbar.Layout()` (BinList.cs:188) is not called. On a list of exactly one record that call divides by zero and throws. `Lists.OneRecordLayoutThrows` states the throw, and the model goes on as the corrected thumb would (see Findings). The same applies wherever `Layout` runs: `Resize`, `Unlock`, `AddItem`, `OnScroll`, `SetItemSize`, `SetItemSpace`, `SetBinFormat`, `ProcessKey`, `Update` and `ItemClick` of `Lists.BinList`.
- Layouters.Layouter.LoadFile: for a one-byte data file the source throws at the final unlock (the division above); the model reports success and a laid-out list.
- Lists.BinList.Resize: `scrollbar.Resize(14, h)` (BinList.cs:366) is not called; it divides by zero on one record too.
- Scrollbars.Scrollbar.Layout: uses the corrected `ThumbHeight`, not the throwing division. The float thumb position (Scrollbar.cs:60-62) is left out.
- Lists.BinList.Clear: the scrollbar is decoupled from the list. `scrollbar.ScrollTo(0)` (BinList.cs:407) is modelled as `OnScroll(0)`, which is what `ScrollTo(0)` hands the list when it is empty. The scrollbar's own position is not reset.
- Scrollbars: the bar does not call the list. Its operations return the positions they would hand to `OnScroll`. The list's `MaxScrollValue`, `NumVisible` and `ScrollStepSize` are passed in as a `Target`, and the `NumVisible` after a hand-off as `visible`. That `visible` is `Lists.BinList.VisibleFrom` is stated by `OnScroll`, not by a call from one class to the other.
- Items.BinListItem.TypeIntoComment: requires a valid caret. `SyncComment` can leave the caret past the end of a shorter comment, as BinListItem.cs:103 sets the text without moving it. A key press in that state throws at TextInput.cs:83-84 in the source, and the model does not reach it.
- TextInputs.TextInput.ProcessKey: Enter's `Main.SetFocus(null)` (TextInput.cs:230) is not modelled. The keyboard focus is left out everywhere, including `Main.SetFocus(this)` in `BinList.itemClick` and `TextInput.OnMouseDown`.
- Lists.BinList.CopyText: returns the text instead of calling `Clipboard.SetText` (BinList.cs:263). The clipboard belongs to the operating system.
- Lists.BinList.ProcessKey: the status callback is returned as a message and a duration.
- Layouters.Layouter.SaveFile: its output is returned as a status instead of calling `showStatus`. It requires the data file name and every comment to fit an int32 byte count. The source throws beyond those sizes.
- Layouters.SaveThenLoad: requires the records' formats to be ones the enum names, and sizes that fit an int32.
- Layouters.Layouter.LoadFile: requires every file to be shorter than 2^31 bytes, the largest array and offset a C# int can index.
- Layouters.Layouter.SetItemFontSize: requires a font id of 0 or 1. The source indexes a two-element array with it, and its buttons pass only those ids.
- TextInputs.Typed: a letter key without Shift is lower-cased by adding 32 to its code, as the invariant culture does. TextInput.cs:125 calls `ToLower()`, which follows the current culture, so under a Turkish culture `Keys.I` types the dotless 'ı' (U+0131). "Printable ASCII" in the rows of `Typed` and `TextInputs.TextInput.ProcessKey` holds for the invariant culture only.
- Strings: a Dafny `char` is a Unicode scalar value, while C# strings are UTF-16. A comment holding a lone surrogate cannot be represented, so the model has no counterpart of what the .NET encoder does with one.
- The itemSelected callback (BinList.cs:83, 225, 233, 247) is left out. `Layouter` constructs the list without it, at Layouter.cs:59.
- Timing: the status fade in `Layouter.Update` (Layouter.cs:228-261) and `showStatus` are left out. The 0.1 s button repeat is a parameter `repeatDue`.
- Rendering: all drawing, the hover tooltip (BinList.cs:327-361), and font measuring are left out. The one drawing decision modelled is the choice of a cell's background colour (BinListItem.cs:97, `Items.BinListItem.Fill`), because it is how a marked cell and its anchor are shown. The two fonts' measuring calls are parameters of `Layouters.Layouter`'s constructor.
- Float arithmetic: the drag's `Math.Round` of a float is a parameter `round`.
- Layouters.ButtonsBottom and Layouters.SaveShown: the button column layout is kept only as far as `Layouter.Resize` needs it to decide whether the save button shows.
- `RemoveItem` (BinList.cs:395-400) is never called, and is not modelled.
- File and path handling: `File.Exists`, `File.ReadAllBytes` and `File.Open` work on a map from names to bytes. `Path.GetFileName`, `GetDirectoryName`, `GetExtension` and `Combine` follow their rules for the separators '\\', '/' and ':'; the check for invalid path characters, UNC paths and the normalisation `GetDirectoryName` applies are not modelled.
- Not part of this model:
  - `Main.cs` (window, input polling, drag and drop, focus);
  - `Program.cs`;
  - `Control.cs`, `Container.cs` (the widget tree, mouse events);
  - `Button.cs`.

## Findings

| source | as written | input that shows it | evidently intended | confidence | as-written member | corrected member |
|---|---|---|---|---|---|---|
| Binmap/Controls/Scrollbar.cs:59 | the thumb height divides by `MaxScrollValue`. That is `bins.Count - 1` (BinList.cs:55), and every non-empty `Layout` ends by calling it (BinList.cs:188). | loading a one-byte data file: `MaxScrollValue` is 0 and the final `Unlock` throws `DivideByZeroException` | a thumb that fills the track when every record is visible | not executed | Scrollbars.ThumbHeightAsWritten, Lists.OneRecordLayoutThrows | Scrollbars.ThumbHeight, Scrollbars.ThumbFillsTrack |
