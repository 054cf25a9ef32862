# A verified model of the terminal core

This project models the parts of the terminal emulator whose specifications are simple and whose implementations are
not, and proves the one from the other.

* **The grid and its rewrap.** `Cells`, `Grid` and `Reflow` are the row, the screen and the rewrap as values, each
  operation a function to the next value and the rows that departed. `RowObject.RowBuffer` and `ScreenObject.Screen`
  are the same as objects whose fields the methods update in place, each method proved to leave the value its function
  gives. `Transcript`, `CursorTrack`, `RoundTrip`, `WideChunk` and `SeamCount` are the theorems about the rewrap, resting
  on `Recut`, `InkLaws` and `ReachLaws`; `CutCharacter` is one grid that shows what a cut character costs; `GridRuns` has
  the theorems about every run of operations. A reading of rows as logical lines (`Reading`) that knows nothing of the
  rewrap is what its theorems are stated in; `SemanticMarks` reads marks off rows in the same way and says where a rewrap
  takes them. `Effects` and `GridEffects` say, column by column and row by row, what every operation leaves where.
* **Printing and runs.** `Print` and `TerminalObject` prove batched printing to be per-character printing, `Typing` and
  `Joining` what printing adds to the text; `Runs` proves the fast run builders to be the reference, `RunLaws` what the
  reference says of each column.
* **The VT parser.** `ByteMachine` reads one byte at a time through a transition table; `MachineLaws` says which cuts of
  a stream are harmless and proves that those cannot be seen, `CutLaws` that any other can, however many there are;
  `ControlLaws` says what each kind of sequence asks for, on the bytes that spell it; `ParserObject.Parser` is the parser
  with its bulk paths and per-state functions. `Utf8` is `str::from_utf8`, from section 4 of RFC 3629.
* **The wake protocol.** `Notify` is the deadline arithmetic on an integer clock, `NotifierObject.Notifier` the object,
  `WakeProtocol` the two threads interleaved at every atomic access.
* **The stores.** `LedgerObject.Ledger` is the linked list through a map, proved to be a plain sequence; `Stores` has the
  two stores over it.
* **The codecs.** `Checksum` and `Zlib` (CRC-32 by slices of eight, deferred Adler-32, stored blocks), `SixelPicture`,
  `SixelRepeat`, `SixelColors` and `SixelDecoder` (tokens, the two passes, repeat counts, colours), `KittyProtocol`,
  `KittyCommand`, `KittyObject` and `Base64` (control data, chunked transfers and the echo repair).

Where the obvious stronger claim is false of the code, the claim is stated with the exact condition under which it holds
and an input that fails it:

* a wide character that straddles a new row boundary moves down whole, and the blank it leaves is text from then on
  (`Transcript.RewrapKeepsTranscriptIff`, `CutCharacter.CutCharacterIsPadded`), which moves what an offset past it names
  (`CursorTrack.RewrapHoldsCharacterIff`, `CutCharacter.CutCharacterMisplacesCursor`);
* a mark past the last row of its line is hung on that row's end, gives way past eight or is left behind at the seam
  (`SemanticMarks.RewrapKeepsMarksIff`, `SemanticMarks.RewrapMarks`), and one beside a character that was moved down is
  doubled or lost (`SemanticMarks.PaddedMarkIsDoubled`, `SemanticMarks.DroppedMarkIsLost`);
* with autowrap off, what joins a character that ended at the margin lands on the column left of it
  (`Joining.LeadFoundIff`, `Joining.AccentStrays`), though src/emu/screen.rs:463-467 says it finds its cell;
* a width round trip loses the layout when a character is cut on the way, or when a styled tail without text stands below
  the last text and cursor (`RoundTrip.WidthRoundTripIff`, `CutCharacter.CutCharacterLosesLayout`,
  `RoundTrip.StyledTailIsLost`), though README.org:314-316 promises the original layout back;
* a deletion can leave attachments out of column order (`RowLaws.DeleteKeepsOrderIff`, `RowLaws.DeleteCanDisorder`), and
  the run builder then misses some (`Runs.MissedIff`, `Runs.CursorRunsAgreeIff`, `Runs.DisorderedLinkIsMissed`);
* a line of characters none of which fits leaves its last row wrapped (`WideChunk.LastRowRunsOnIff`,
  `WideChunk.WideCharacterRunsOn`);
* a width change without a rewrap does not rescale the seam count (`SeamCount.ClampSeamIff`, `SeamCount.CutLosesCount`);
* a cut inside a two-byte character can be seen (`CutLaws.ChunksAgreeIff`, `CutLaws.HarmfulCuts`);
* a deferred announcement leaves a hold without a bound (`Notify.HoldEndsIff`, `Notify.DeferredAnnouncementExample`), and
  a cleared sync deadline renews one (`Notify.EndedUpdateRenewsTheHold`);
* a sixel repeat of zero still claims height (`SixelRepeat.EmptyRunIsNothingIff`, `SixelRepeat.EmptyRunCanMatter`);
* the length a raw picture is checked against can wrap (`KittyProtocol.DescribedIsBoundedIff`,
  `KittyProtocol.DescribedCanWrap`), though src/emu/png.rs:165-167 says it cannot.

`dafny verify dfyconfig.toml` checks the whole project.

## Model

| member | source | states |
|---|---|---|
| `Transcript.RewrapKeepsTranscriptIff` | src/emu/screen.rs:1208-1311 | for every grid, every seam and every new size, the logical lines read off the rows that departed followed by the new grid are the lines of the rows in use, glyph for glyph with style and attachments, up to trailing blanks of a line and the empty lines of the rows left over below, if and only if no row boundary of the new size falls inside a character |
| `Transcript.PlainCutsCleanly` | src/emu/screen.rs:1400-1415 | on a grid without continuation cells no boundary at any width falls inside a character |
| `Recut.ChunkReadsIff` | src/emu/screen.rs:1397-1429 | a line cut and read back is one line, and the line it was up to trailing blanks if and only if no row boundary falls inside a character |
| `Recut.ChunkStarts` | src/emu/screen.rs:1397-1429 | however wide its characters, every row a line is cut into after the first begins at the start of one |
| `Transcript.FlowReadsIff` | src/emu/screen.rs:1275-1287 | all the lines cut, over whatever stands below, read back as themselves if and only if no boundary falls inside a character of any; two lines that run together are seen as one too few |
| `CutCharacter.CutCharacterIsPadded` | src/emu/screen.rs:1406-1413 | a letter and a wide character, three columns to two: the column the character leaves is read back as a blank, and the transcript is not what it was |
| `ReflowLaws.AssembleReads` | src/emu/screen.rs:1217-1235 | the lines reassembled from `wrapped` chains are the lines the rows read as, a reading defined without mention of how rows are reassembled |
| `ReflowLaws.RowOfGlyphs` | src/emu/screen.rs:1462-1486 | a row cut from a line shows the glyphs of its span, then blanks, and nothing else |
| `ReflowLaws.SortAt` | src/emu/screen.rs:1462-1486 | sorting a cut row's attachments by column keeps what each column holds, in order |
| `ReflowLaws.PlainRowsRead` | src/emu/screen.rs:1397-1429 | the rows a line is cut into read back as that one line, less some trailing blanks |
| `ReflowLaws.ChunkSeen` | src/emu/screen.rs:1418-1428 | hanging the marks no row covers on the last row changes nothing the renderer sees |
| `ReflowLaws.ChunkOk` | src/emu/screen.rs:1397-1429 | every row a line is cut into has exactly the new width and its attachments in range and in order |
| `Transcript.SeamReadsIff` | src/emu/screen.rs:1249-1268 | whatever comes to stand below the fragment handed over to complete the head's last visual row, the two read as the lines there were if and only if what stands below reads as the lines left |
| `Transcript.GridLinesRead` | src/emu/screen.rs:1215-1243 | the lines a rewrap works on, the cursor's padded out to the cursor, are those the rows in use read as, up to blanks |
| `SemanticMarks.RewrapMarks` | src/emu/screen.rs:1208-1311 | in a rewrap that splits no character, at every line and offset: past the reach of the line there is no mark afterwards; short of it the ids are those the rows in use had there, in order, and its last place has besides those of the marks past it, as long as they and those of the last row are eight at most; a line that ended at the seam leaves the marks past it behind |
| `SemanticMarks.RewrapKeepsMarksIff` | src/emu/screen.rs:1208-1311 | in such a rewrap every mark keeps its line and offset, read off the rows that departed and the new grid, if and only if none stood past the reach of its line |
| `SemanticMarks.AssembledMarks` | src/emu/screen.rs:1369-1388 | the marks of the reassembled lines are those the rows hold, at the lines and offsets they name, on text or past it |
| `SemanticMarks.RowMarks` | src/emu/screen.rs:1462-1486 | a row cut from a line has on each column the marks of the offset it shows, text there or not |
| `SemanticMarks.ChunkMarks` | src/emu/screen.rs:1397-1429 | however a line is cut, each row but the last has on its columns the marks of the offsets it shows, and the last has them before any are hung on it; so a mark between where a row ends and the next begins is on both, or on none |
| `SemanticMarks.LastRowHangs` | src/emu/screen.rs:1418-1428 | marks past the last row are hung on its last column, in order, if it then has eight or fewer; else it keeps as many as it had, or eight |
| `SemanticMarks.LineMarks` | src/emu/screen.rs:1397-1429 | a line cut evenly, laid out from any place and read back: its marks are at the offsets they had, the hung ones at the last |
| `SemanticMarks.SeamMarks` | src/emu/screen.rs:1438-1456 | the fragment handed over takes the marks on its own cells, and the rest of the line keeps the others that much nearer its start |
| `SemanticMarks.RefillMarks` | src/emu/screen.rs:1284-1311 | rows that leave the top keep their marks, and the blank ones that fill up below bring none |
| `SemanticMarks.MarkRowTakes` | src/emu/cell.rs:720-736 | a row with fewer than eight marks takes another on its column, after what is there |
| `SemanticMarks.MarkRowEvicts` | src/emu/cell.rs:754-776 | one with eight or more gives up a mark of the least id for it, and no other |
| `SemanticMarks.PaddedMarkIsDoubled` | src/emu/screen.rs:1462-1486 | a letter and a wide character cut at two columns: the mark on the character is read on the blank it left and where it went |
| `SemanticMarks.DroppedMarkIsLost` | src/emu/screen.rs:1406-1413 | a three-column character cut at two columns: the mark on its last column is on no row |
| `CursorTrack.RewrapKeepsCursorIff` | src/emu/screen.rs:1208-1311 | as long as no character is wider than the screen, the cursor is at the same offset of the same logical line afterwards if and only if that cell was neither in the fragment handed over nor on a row that overflows the top |
| `CursorTrack.LinePosIsPosition` | src/emu/screen.rs:1218-1235 | the line and offset computed for the cursor are its position in the lines the rows read as |
| `CursorTrack.PlacedPosition` | src/emu/screen.rs:1333-1340 | the row and column an offset is placed at are that offset of that line in the re-cut rows, whether or not characters were cut |
| `CursorTrack.PlaceHoldsIff` | src/emu/screen.rs:1333-1340 | that row and column show the cell the offset named, or the end of the line, if and only if no boundary up to the end of its character falls inside one |
| `CursorTrack.RewrapHoldsCharacterIff` | src/emu/screen.rs:1275-1287 | a cursor not handed over stands, among the re-cut rows, on the character it stood on if and only if no boundary from the start of its line to the end of that character falls inside one |
| `CutCharacter.CutCharacterMisplacesCursor` | src/emu/screen.rs:1333-1340 | the cursor just past that wide character is placed on its second column |
| `RoundTrip.WidthRoundTripIff` | src/emu/screen.rs:1150-1158 | resizing to any other width and back, with room both times and nothing handed over, restores cells and wrapped flags of the rows in use if and only if no row boundary falls inside a character at either width and the last re-cut row holds text or the cursor; the cursor's offset in its line is kept whenever no boundary does |
| `RoundTrip.StyledTailIsLost` | src/emu/screen.rs:1113-1128 | a letter and a coloured blank, two columns to one and back, with room both times: every other condition holds, and the coloured blank comes back a plain one |
| `CutCharacter.CutCharacterLosesLayout` | src/emu/screen.rs:1406-1413 | a letter and a wide character, three columns to two and back, with room both times and the last row showing: the letter comes back with two blanks after it and the character on a row of its own |
| `RoundTrip.OneWay` | src/emu/screen.rs:1208-1311 | a rewrap with room never adds a cell that shows; if it loses none, the last such cell of the lines stands no nearer than it did, and further off if a character was cut |
| `RoundTrip.StaysClean` | src/emu/screen.rs:1208-1311 | what stands between two such resizes can be cut at the first width as cleanly as what was there before them |
| `RoundTrip.SameCut` | src/emu/screen.rs:1397-1429 | cutting the reassembled lines at the width they came from gives the rows back, cells and wrapped flags |
| `InkLaws.InkFlow` | src/emu/screen.rs:1397-1429 | cutting lines into rows makes no cell that is not a default blank, and loses none if and only if every character fits the width |
| `ReachLaws.FlowReach` | src/emu/screen.rs:1397-1429 | lines whose characters all fit reach no less far once they are cut, and further if a boundary fell inside a character |
| `InkLaws.InkAssemble` | src/emu/screen.rs:1369-1388 | reassembling rows into lines keeps every cell that is not a default blank |
| `WideChunk.ChunkKeepsCharacters` | src/emu/screen.rs:1397-1429 | when every character fits, each row is exactly `cols` cells, the spans cover the line in order without a gap, no later row starts inside a character, each cut is greedy, and a row is wrapped exactly when it is not the last |
| `WideChunk.LastRowRunsOnIff` | src/emu/screen.rs:1406-1417 | the last row of a line is left wrapped if and only if the line is not empty and none of its characters fits the width |
| `WideChunk.WideCharacterRunsOn` | src/emu/screen.rs:1406-1417 | a two-column character on a one-column screen is such a line |
| `GridRuns.StepSound` | src/emu/screen.rs:539-1107 | each operation keeps the grid well-formed and every unflagged row as it looked, keeps attachments column-sorted unless it is a deletion that disorders them, and such a deletion does leave them unsorted |
| `GridRuns.RunWellFormed` | src/emu/screen.rs:240-257 | in every run of operations the grid stays well-formed, every row exactly as wide as the screen, cursor and region inside it; rows not flagged look as they did; attachments stay sorted as long as no deletion disorders them |
| `GridRuns.RunFromStart` | src/emu/screen.rs:240-271 | so every run from a new screen or a scratch one is well-formed, and sorted if no deletion disorders it |
| `GridRuns.DrainReportsEverything` | src/emu/screen.rs:430-440 | whatever ran between two drains, a mirror that redraws only the rows reported by the second equals the grid, and nothing is left flagged |
| `GridLaws.DeleteCharsSound` | src/emu/screen.rs:1005-1010 | deleting characters keeps a sorted table sorted if and only if no attachment is moved left past a mark the deletion spares, and its damage is honest |
| `GridLaws.PlaceSound` | src/emu/screen.rs:539-596 | placing a character, with its margin decision and scroll, keeps the grid well-formed, sorted and honestly flagged |
| `GridLaws.JoinSound` | src/emu/screen.rs:484-530 | joining a mark, with the cell growing or shrinking under the cursor, keeps the same |
| `GridLaws.WriteRunSound` | src/emu/screen.rs:667-682 | writing a run in one piece keeps the same |
| `GridLaws.WriteClusterSound` | src/emu/screen.rs:629-647 | writing a cluster keeps the same |
| `GridLaws.ScrollUpSound` | src/emu/screen.rs:805-832 | scrolling up keeps the same |
| `GridLaws.ScrollDownSound` | src/emu/screen.rs:883-894 | scrolling down keeps the same |
| `GridLaws.InsertLinesSound` | src/emu/screen.rs:1014-1025 | inserting lines keeps the same |
| `GridLaws.DeleteLinesSound` | src/emu/screen.rs:1027-1045 | deleting lines keeps the same |
| `GridLaws.EraseDisplaySound` | src/emu/screen.rs:950-979 | erasing the display, any part of it, keeps the same |
| `GridLaws.EraseLineSound` | src/emu/screen.rs:927-937 | erasing a line, any part of it, keeps the same |
| `GridLaws.InsertCharsSound` | src/emu/screen.rs:998-1003 | inserting blanks keeps the same |
| `GridLaws.MarkCellSound` | src/emu/screen.rs:337-341 | a semantic mark may be placed without damage: nothing the renderer sees changes |
| `GridLaws.ClampResizeSound` | src/emu/screen.rs:1160-1193 | a resize that cuts or pads rows keeps the same |
| `GridLaws.RewrapSound` | src/emu/screen.rs:1208-1311 | a rewrap leaves a well-formed grid in column order whatever it started from, every row flagged |
| `GridEffects.ScrollUpLeaves` | src/emu/screen.rs:805-832 | row i of the region is row i + n of the grid before, the rows below are bare with the erased pen, rows outside the region and every other field are as they were |
| `GridEffects.ScrollUpArchives` | src/emu/screen.rs:799-832 | what departs reads as the rows that were scrolled off, and nothing departs unless the whole screen scrolls into a history |
| `GridEffects.ScrollKeepsLines` | src/emu/screen.rs:805-832 | departed rows followed by the new ones read, row for row, as the old ones followed by as many blank ones: no line is lost and none shows twice |
| `GridEffects.LinefeedLeaves` | src/emu/screen.rs:776-786 | at the bottom of the region a line feed scrolls it by one, elsewhere it moves the cursor down if there is a row |
| `GridEffects.LinefeedKeepsLines` | src/emu/screen.rs:776-786 | departed rows followed by the new ones read as the old ones, and a blank one if the cursor stood on the last row |
| `GridEffects.ScrollDownLeaves` | src/emu/screen.rs:883-894 | row i of the region is row i - n of the grid before, the rows above are bare with the erased pen, the rest stays |
| `GridEffects.ReverseIndexLeaves` | src/emu/screen.rs:789-796 | at the top of the region the cursor stays and the region moves down by one, elsewhere the cursor moves up |
| `GridEffects.LinesOpenAndClose` | src/emu/screen.rs:1014-1045 | lines open at the cursor and close up there inside the region alone, bare ones coming in; outside it nothing happens, and the carry stays |
| `GridEffects.RemoveRowsLeaves` | src/emu/screen.rs:855-881 | the rows taken out close up, default blanks come in at the bottom, the cursor keeps to its row if that stays, and the carry goes only with the top row |
| `GridEffects.EraseLineLeaves` | src/emu/screen.rs:927-937 | the cells each mode blanks on the cursor's row, with the erased pen and sparing marks; all else stays, and only a whole line stops running on |
| `GridEffects.ErasedPaints` | src/emu/cell.rs:156-172 | an erased blank shows the colour a blank in the pen would, reversed or not, and keeps nothing else of the pen |
| `GridEffects.EraseDisplayLeaves` | src/emu/screen.rs:950-990 | the rows each mode makes bare, the part of the cursor's row it blanks, and that the rest stays |
| `GridEffects.EraseDisplayArchives` | src/emu/screen.rs:950-979 | erasing everything archives the rows down to the last that shows anything, if the whole screen scrolls into a history, and nothing else does |
| `GridEffects.CharsOpenAndClose` | src/emu/screen.rs:998-1010 | inserted blanks move the rest of the row right, deleted characters let it close up and blanks come in, column by column with attachments; marks on deleted columns stay |
| `GridEffects.EraseCharsLeaves` | src/emu/screen.rs:992-996 | the columns blanked from the cursor on, and that the rest stays |
| `GridEffects.PlaceLeaves` | src/emu/screen.rs:539-620 | the character's cell is on the column the margin gives it, its continuations follow, every other column is as it was or moved right by an insert, a row stepped over the margin runs on and any other does not change, and the cursor settles past the character |
| `GridEffects.JoinLeaves` | src/emu/screen.rs:484-530 | the mark joins the text on the cell before the cursor and no other column changes; a new width takes or gives back columns, unless there is no room |
| `GridEffects.AttachmentsLeave` | src/emu/screen.rs:697-731 | the underline colour or link of the cell written last is replaced or taken off, and nothing else changes |
| `GridEffects.PlaceImageRowLeaves` | src/emu/screen.rs:748-773 | each column from the cursor is a blank with its part of the picture, numbered in order and cut off at the margin |
| `GridEffects.ClampResizeLeaves` | src/emu/screen.rs:1160-1193 | rows are cut or padded to the width, blank rows below those in use go first, what still does not fit departs off the top and reads as it stood, and the cursor follows |
| `GridEffects.RewrapResets` | src/emu/screen.rs:1208-1327 | a rewrap takes the new size, keeps the modes, and starts over with every row flagged, the whole screen as region and a tab stop on every eighth column but the first |
| `Typing.ReprintingFlagsNothing` | src/emu/screen.rs:376-385 | printing over a row what it already says, in the style it says it in, flags no row and changes none |
| `GridEffects.ErasingBlanksFlagsNothing` | src/emu/screen.rs:927-937 | nor does an erase that finds blanks of the pen's colour |
| `GridEffects.FlagsStay` | src/emu/screen.rs:387-407 | a scroll flags its region and no more, and the writers of one row flag no other |
| `GridEffects.MovesStayInside` | src/emu/screen.rs:915-925 | a move that starts inside the region ends inside it, and goes as far as it was asked to unless it would leave |
| `GridEffects.NextStopIsFirst` | src/emu/screen.rs:1056-1069 | a tab goes to the first stop to the right, or the last column |
| `GridEffects.PrevStopIsLast` | src/emu/screen.rs:1075-1088 | a back tab to the last stop to the left, or the first column |
| `Effects.DeleteCellsLeaves` | src/emu/cell.rs:1032-1045 | columns past the deleted ones move left with all that is attached to them, blanks come in, and marks on the deleted columns stay where they were, ahead of what moves onto them if the table is in order |
| `Effects.InsertBlankLeaves` | src/emu/cell.rs:1015-1030 | columns from the gap on move right with all that is attached to them, and the gap is blank |
| `Effects.PlaceCellsLeave` | src/emu/screen.rs:570-596 | the character and its continuations are written, over what was there or pushing it right, and every other column stays or moves |
| `Effects.CombineLeaves` | src/emu/cell.rs:899-912 | the mark goes on the first text of the column, or is the first of it |
| `Effects.OnInsert` | src/emu/cell.rs:507-512 | an attachment that goes into the table stands on its column and no other, last there if the table is in column order |
| `Effects.OnShiftLeft` | src/emu/cell.rs:531-548 | entries moved left join what was kept on the column they come to, after it if the table is in column order |
| `SeamCount.SeamIsExact` | src/emu/screen.rs:301-314 | over every run since the count was last reset, `carried * cols` is the total width of the wrapped rows the departed text ends in, unless some step is a width change that does not rewrap while part of the top line is handed over |
| `SeamCount.RewrapSeam` | src/emu/screen.rs:1208-1311 | a rewrap keeps the count exact at the new width |
| `SeamCount.RealignSeam` | src/emu/screen.rs:1249-1268 | re-aligning leaves a whole number of rows of the new width handed over, or a finished line |
| `SeamCount.CarryCounts` | src/emu/screen.rs:301-314 | handing rows over advances the count by exactly the rows its line gained |
| `SeamCount.ClampSeamIff` | src/emu/screen.rs:1160-1193 | after a resize that cuts or pads rows the count is exact if and only if, on the grid before it, the width is the same, nothing was carried, or one of the top rows about to be shed (counted from the cursor and the last row that still has text at the new width) is not wrapped |
| `SeamCount.ShedIsForeseen` | src/emu/screen.rs:1166-1186 | the rows the resize sheds are those counted on the grid before it, line ends and all |
| `SeamCount.CutLosesCount` | src/emu/screen.rs:1160-1193 | two rows running on below a handed-over one, halved in width and cut to one row: the count is wrong |
| `SeamCount.SeamFromStart` | src/emu/screen.rs:301-314 | so over every such run from a new screen |
| `ScreenObject.Screen.Place` | src/emu/screen.rs:539-596 | the fields become the value `Grid.Place` gives, and the rows that scrolled off are returned in order |
| `ScreenObject.Screen.Join` | src/emu/screen.rs:484-530 | the fields become the value `Grid.Join` gives, and the column settled at is answered |
| `ScreenObject.Screen.WriteCluster` | src/emu/screen.rs:629-647 | the fields become the value `Grid.WriteCluster` gives |
| `ScreenObject.Screen.WriteRun` | src/emu/screen.rs:667-682 | the fields become the value `Grid.WriteRun` gives, and how much was placed is answered |
| `ScreenObject.Screen.PlaceImageRow` | src/emu/screen.rs:748-773 | the fields become the value `Grid.PlaceImageRow` gives |
| `ScreenObject.Screen.Linefeed` | src/emu/screen.rs:776-786 | the fields become the value `Grid.Linefeed` gives |
| `ScreenObject.Screen.ReverseIndex` | src/emu/screen.rs:789-796 | the fields become the value `Grid.ReverseIndex` gives |
| `ScreenObject.Screen.ScrollUp` | src/emu/screen.rs:805-832 | the rotate, blank and carry loops leave the value `Grid.ScrollUp` gives and return what became history |
| `ScreenObject.Screen.ScrollDown` | src/emu/screen.rs:883-894 | the fields become the value `Grid.ScrollDown` gives |
| `ScreenObject.Screen.InsertLines` | src/emu/screen.rs:1014-1025 | the fields become the value `Grid.InsertLines` gives |
| `ScreenObject.Screen.DeleteLines` | src/emu/screen.rs:1027-1045 | the fields become the value `Grid.DeleteLines` gives, the carry left as it was |
| `ScreenObject.Screen.RemoveRows` | src/emu/screen.rs:855-881 | the fields become the value `Grid.RemoveRows` gives |
| `ScreenObject.Screen.EraseDisplay` | src/emu/screen.rs:950-979 | the fields become the value `Grid.EraseDisplay` gives, and the text that becomes history is returned |
| `ScreenObject.Screen.DrainDamage` | src/emu/screen.rs:430-440 | the flagged rows in order, every flag put down |
| `ScreenObject.Screen.Carry` | src/emu/screen.rs:301-314 | the count becomes what `Grid.CarryOf` gives for the rows that departed |
| `ScreenObject.Screen.Used` | src/emu/screen.rs:1126-1128 | the rows in use, found by a scan from the bottom |
| `ScreenObject.Screen.Clamp` | src/emu/screen.rs:1160-1193 | a resize without rewrap leaves the value `Grid.ClampResize` gives |
| `ScreenObject.Screen.Rewrap` | src/emu/screen.rs:1208-1311 | the loops of the rewrap leave the value `Reflow.Rewrap` gives and return the departed rows in order |
| `ScreenObject.Screen.Resize` | src/emu/screen.rs:1150-1194 | the resize leaves the value `Reflow.Resize` gives in every mode |
| `ScreenObject.AssembleLines` | src/emu/screen.rs:1217-1235 | one pass over the rows gives the reassembled lines and the cursor's line and offset |
| `ScreenObject.ChunkLine` | src/emu/screen.rs:1397-1429 | the cutting loop gives the rows `Reflow.Chunk` does |
| `ScreenObject.RealignSeam` | src/emu/screen.rs:1249-1268 | the seam step gives what `Reflow.Realign` does |
| `ScreenObject.Rechunk` | src/emu/screen.rs:1270-1283 | cutting every line while tracking the cursor gives the flow of rows and the cursor among them |
| `RowLaws.DeleteKeepsOrderIff` | src/emu/cell.rs:1032-1045 | deleting columns keeps the side table sorted if and only if no later entry is moved left past a mark the deletion spared |
| `RowLaws.DeleteCanDisorder` | src/emu/cell.rs:1032-1045 | a mark on the second column and a link on the third, two columns deleted from the first: the link ends up left of the mark and after it |
| `RowLaws.MarkUnseen` | src/emu/cell.rs:720-736 | attaching a semantic mark, evicting the oldest if need be, changes nothing the renderer sees |
| `RowLaws.MarkRowKept` | src/emu/cell.rs:720-776 | attaching a mark keeps the row's width, the range of its attachments and their order |
| `RowLaws.InsertBlankKept` | src/emu/cell.rs:1015-1030 | opening a gap keeps the row's width, the range of its attachments and their order |
| `RowLaws.PlaceImageKept` | src/emu/cell.rs:888-896 | placing an image cell keeps the same |
| `RowLaws.CombineKept` | src/emu/cell.rs:899-912 | combining a character keeps the same |
| `RowObject.OldestIsFirstLeast` | src/emu/cell.rs:754-776 | the mark that makes room is the first in table order among those with the least id |
| `RowObject.RowBuffer.Set` | src/emu/cell.rs:821-832 | the cell stored, the column's attachments retired, and whether anything differed |
| `RowObject.RowBuffer.FillRun` | src/emu/cell.rs:849-880 | a run stored cell by cell leaves the row `Cells.FillRun` gives and answers the same |
| `RowObject.RowBuffer.Fill` | src/emu/cell.rs:916-937 | the blanked span leaves the row `Cells.Fill` gives and answers the same |
| `RowObject.RowBuffer.EraseAll` | src/emu/cell.rs:996-1004 | the erased row is the one `Cells.EraseAll` gives, with the same answer |
| `RowObject.RowBuffer.Clear` | src/emu/cell.rs:979-983 | every cell blank, no attachment left, marks included, and the line ended |
| `RowObject.RowBuffer.Resize` | src/emu/cell.rs:1010-1013 | the row is cut or padded with default cells, entries past the end dropped |
| `RowObject.RowBuffer.InsertBlank` | src/emu/cell.rs:1015-1030 | cells and later entries move right, what leaves the row is dropped |
| `RowObject.RowBuffer.Delete` | src/emu/cell.rs:1032-1045 | cells close up, entries past the span move left, marks in the span stay |
| `RowObject.RowBuffer.Mark` | src/emu/cell.rs:720-736 | the mark is attached, the oldest making room past the cap |
| `RowObject.RowBuffer.Combine` | src/emu/cell.rs:899-912 | the mark joins the column's combining text or starts it |
| `RowObject.RowBuffer.SetLink` | src/emu/cell.rs:695-702 | the column's link is replaced or removed |
| `RowObject.RowBuffer.SetUnderline` | src/emu/cell.rs:683-688 | the column's underline colour is replaced or removed |
| `RowObject.FindOldest` | src/emu/cell.rs:754-776 | one pass counts the marks and finds the oldest |
| `RowObject.Pruned` | src/emu/cell.rs:515-518 | the pruning loop keeps exactly the entries outside the span, and the marks when they are spared |
| `RowObject.Shifted` | src/emu/cell.rs:531-548 | the shifting loop moves the entries at or past a column and drops those that leave the row |
| `Runs.RunsTo` | src/emu/cell.rs:1182-1187 | for every row and end the dispatch to the two fast builders returns what a cursor that never goes back sees, which is the reference whenever it sees every character as it looks, as on every sorted table |
| `Runs.BuildRuns` | src/emu/cell.rs:1295-1387 | one pass with a cursor gives the runs the cursor sees on any table, and the reference when it sees every character as it looks |
| `Runs.MissedIff` | src/emu/cell.rs:1311-1330 | the cursor misses an entry if and only if one before it stands to its right, or one before it on its own column is followed by one to its left |
| `Runs.CursorRunsAgreeIff` | src/emu/cell.rs:1295-1387 | however much of a row is built, the cursor's runs are the reference's if and only if it sees every character as it looks; what it misses on a continuation cell changes nothing |
| `Runs.DisorderedLinkIsMissed` | src/emu/cell.rs:1043-1044 | on the table a deletion can leave, the link is missed and its run loses it |
| `Runs.BuildPlainRuns` | src/emu/cell.rs:1205-1280 | whole spans at a time, on a row without attachments, give the reference runs |
| `Runs.ColumnsAddUp` | src/emu/cell.rs:1122-1180 | the runs stand on every column but the orphan continuation cells at the front |
| `Runs.RunsSpellTheRow` | src/emu/cell.rs:1122-1180 | the text of the runs is the row's characters, each with the marks combined onto it, in column order: none lost, doubled or moved |
| `RunLaws.RunsDescribe` | src/emu/cell.rs:1122-1180 | every column that holds a character, from the first on, is in a run whose style, underline and link are its own; the run's text and its decorations unrolled are those of its columns in order; and two runs side by side differ in style, underline, link or kind of decoration |
| `RunLaws.LookIsColumn` | src/emu/cell.rs:1122-1180 | the link, text, picture and underline a run builder takes for a column are the last of each kind attached to it |
| `Runs.DepartedKeepsRuns` | src/emu/screen.rs:105-117 | the cells and attachments a departed row keeps give the runs the row gave on the grid |
| `Runs.PackGlyphs` | src/emu/cell.rs:323-346 | the packed pairs unpack to the glyphs, no pair counts none, and a count that fills sixteen bits starts a new pair |
| `Runs.PackImages` | src/emu/cell.rs:347-358 | twelve bytes a cell, which unpack to the placements |
| `TerminalObject.Terminal.PrintStr` | src/emu/term/perform.rs:73-128 | printing a text in batches leaves the very value printing it one character at a time leaves: rows, attachments, cursor, deferred wrap, damage, segmenter, last print and the evicted rows in order |
| `TerminalObject.Terminal.Print` | src/emu/term/perform.rs:10-59 | one character through the segmenter, the margin and the pen's attachments |
| `Print.RunIsEach` | src/emu/screen.rs:667-682 | a run laid down in one piece is the run printed character by character |
| `Print.RunTurn` | src/emu/term/perform.rs:86-126 | one turn of the batched loop: whatever the grid took counts as printed, and the rest is still owed |
| `Print.FillRunStep` | src/emu/cell.rs:849-880 | filling a run is setting its first column and filling the rest, the answer about change included |
| `Print.PrintEachConcat` | src/emu/term/perform.rs:73-128 | printing a text is printing its parts one after the other |
| `Typing.TextAppends` | src/emu/term/perform.rs:73-128 | on a screen that scrolls into a history with autowrap on, read from the first archived row to the cursor, the text is what it was with the printed one-column characters at its end, in the pen's style and with its attachments, over however many margins and scrolls |
| `Typing.TypingAppends` | src/emu/term/perform.rs:73-128 | so at the end of the text, under a pen that erases to nothing, archive and grid read as the lines there were, the last one going on with the printed text after any gap the cursor left, and empty lines below |
| `Typing.CellAppends` | src/emu/screen.rs:539-620 | the same of one character of any width, after the columns it had to skip at the margin |
| `Typing.AlternateArchivesNothing` | src/emu/term/perform.rs:10-128 | nothing printed on the alternate screen is archived |
| `Joining.ClusterAppends` | src/emu/text.rs:178-243 | a character of any number of code points is one cell of that text: the first of them, the pen's attachments, and the others as combining text |
| `Joining.TextFollows` | src/emu/term/perform.rs:10-59 | over every printed text, whatever its characters and widths, the cell the segmenter takes itself to be on shows the first code point of its cluster and holds the others as combining text, with autowrap on |
| `Joining.ByteLenIsEncoded` | src/emu/text.rs:194-195 | the length a cluster is bounded by counts the bytes UTF-8 takes for it |
| `Joining.WriteClusterLeaves` | src/emu/screen.rs:629-647 | a cluster written in one piece stands where its first code point would, with the others combined onto it |
| `Joining.LeadFoundIff` | src/emu/screen.rs:484-490 | what joins a character just placed finds its column if and only if autowrap is on, or the character stopped short of the margin or took the whole row; else it goes one column left |
| `Joining.AccentStrays` | src/emu/screen.rs:484-490 | a letter and an accent written at the margin with autowrap off: the accent is on the letter before |
| `MachineLaws.CutsDoNotShow` | src/emu/parser/mod.rs:120-143 | however a stream is cut, if every cut is harmless, the performer is asked for the same actions and the parser ends in the same state as when it is read byte by byte |
| `MachineLaws.AnyTwoCuttings` | src/emu/parser/mod.rs:120-143 | so two ways of cutting one stream come to the same actions and state |
| `MachineLaws.CutsOutsidePairsAreHarmless` | src/emu/parser/mod.rs:775-823 | every cut outside a two-byte character is harmless: inside longer characters, malformed ones, control sequences and strings of every kind |
| `CutLaws.ChunksAgreeIff` | src/emu/parser/mod.rs:120-143 | from any state, a stream read in any number of chunks asks for the same actions and ends in the same state as read in one piece if and only if every cut is harmless: harmful cuts never cancel out |
| `CutLaws.LostEscapeShows` | src/emu/parser/mod.rs:797-806 | an escape skipped before a byte above ASCII shows, whatever else of the stream is skipped after it |
| `CutLaws.LostByteShows` | src/emu/parser/mod.rs:797-806 | so does any byte of ASCII, however the rest of the stream is cut |
| `CutLaws.ThinIsHeard` | src/emu/parser/mod.rs:775-823 | a stream that lost bytes of ASCII to harmful cuts asks for no less of what only text above ASCII asks for |
| `CutLaws.PickUpAgreesIff` | src/emu/parser/mod.rs:775-823 | in any state and however the stream goes on, picking up a cut-off character leads on to what reading byte by byte does if and only if it is not a two-byte character that spells a C1 control or is followed by ASCII and then a higher byte |
| `CutLaws.HarmfulCuts` | src/emu/parser/mod.rs:797-832 | [0xC3] and then [0xA9, 'x', 0x80], and [0xC2] and then [0x80], come to something else than in one read |
| `MachineLaws.HarmlessLeadsOn` | src/emu/parser/mod.rs:775-823 | after a harmless cut the two readings agree however the stream goes on |
| `MachineLaws.DecodedRuns` | src/emu/parser/mod.rs:702-771 | characters decoded in one piece are the characters read byte by byte |
| `MachineLaws.MalformedRuns` | src/emu/parser/mod.rs:702-771 | a malformed prefix is answered once, and reading goes on after it |
| `MachineLaws.PayloadRuns` | src/emu/parser/mod.rs:152-165 | a run of device control payload taken at once is the run put byte by byte |
| `MachineLaws.ApcRuns` | src/emu/parser/mod.rs:172-189 | a run of APC payload taken at once is the run collected byte by byte, the bound included |
| `ByteMachine.StepOk` | src/emu/parser/mod.rs:233-251 | every byte keeps the parser's state in bounds: at most 32 parameters of sixteen bits, at most two intermediates, fields of an OSC inside what was collected, and at most three bytes held back |
| `ByteMachine.RunConcat` | src/emu/parser/mod.rs:120-143 | reading a stream is reading its parts one after the other |
| `ControlLaws.CsiSequence` | src/emu/parser/mod.rs:254-320 | ESC [, a private marker, up to 32 numbers joined by colons inside a parameter and semicolons between them, intermediates and a final byte ask for exactly one dispatch, of those numbers as they are grouped, each 65535 at most, those intermediates and that final, and the parser is on the ground |
| `ControlLaws.DcsSequence` | src/emu/parser/mod.rs:323-403 | ESC P and the same hook, every data byte below DEL put in order, and the terminator, of either kind, unhooks |
| `ControlLaws.EscSequence` | src/emu/parser/mod.rs:406-463 | an escape, intermediates and a final byte ask for one dispatch, but for the six finals that introduce something longer |
| `ControlLaws.OscSequence` | src/emu/parser/mod.rs:466-493 | ESC ] and fields joined by semicolons ask for one dispatch of the first sixteen of them and say how they were ended, or for none if they are too long together |
| `ControlLaws.ApcSequence` | src/emu/parser/mod.rs:495-531 | ESC _ and a payload ask for that payload, or for nothing if it is too long |
| `ControlLaws.CsiIgnored` | src/emu/parser/mod.rs:283-303 | a sequence with a parameter byte where there can be none asks for nothing, and is over at its final byte |
| `ControlLaws.CancelEnds` | src/emu/parser/mod.rs:534-547 | CAN and SUB end anything that is being read and are carried out themselves, last |
| `ControlLaws.ControlsPass` | src/emu/parser/mod.rs:254-320 | the other controls are carried out inside a control or escape sequence, which goes on as if they were not there |
| `ControlLaws.MessageIgnored` | src/emu/parser/mod.rs:534-547 | privacy messages and start-of-string ask for nothing |
| `ControlLaws.TextSequence` | src/emu/parser/mod.rs:831-860 | text in UTF-8 asks for its characters one by one, controls carried out and the others printed |
| `ControlLaws.DigitsRun` | src/emu/parser/mod.rs:615-625 | digits read one by one give the number they spell, or 65535 if that is more |
| `ControlLaws.DecimalReads` | src/emu/parser/mod.rs:615-625 | a number written out in decimal is the number that is read |
| `ParserObject.Parser.Advance` | src/emu/parser/mod.rs:120-143 | the loop over bulk paths and byte functions leaves the state and asks for the actions of the byte-at-a-time parser after the pick-up |
| `ParserObject.Parser.AdvanceGround` | src/emu/parser/mod.rs:702-771 | a stretch of ground text decoded at once does what it does byte by byte |
| `ParserObject.Parser.AdvancePartialUtf8` | src/emu/parser/mod.rs:775-823 | the pick-up from at most four bytes does what `MachineLaws.Resume` says and takes that many bytes |
| `ParserObject.Parser.AdvanceDcsBulk` | src/emu/parser/mod.rs:152-165 | the bulk device control path does what its bytes do one at a time |
| `ParserObject.Parser.AdvanceApcBulk` | src/emu/parser/mod.rs:172-189 | the bulk APC path does what its bytes do one at a time |
| `ParserObject.Parser.ChangeState` | src/emu/parser/mod.rs:233-251 | the per-state byte functions together are the transition table |
| `ParserObject.Parser.AdvanceEscape` | src/emu/parser/mod.rs:406-449 | the escape arms are the table's |
| `ParserObject.Parser.AdvanceCsiEntry` | src/emu/parser/mod.rs:254-280 | the control sequence entry arms are the table's |
| `ParserObject.Parser.AdvanceCsiParam` | src/emu/parser/mod.rs:305-320 | the parameter arms are the table's |
| `ParserObject.Parser.AdvanceDcsEntry` | src/emu/parser/mod.rs:323-350 | the device control entry arms are the table's |
| `ParserObject.Parser.AdvanceDcsPassthrough` | src/emu/parser/mod.rs:383-403 | the passthrough arms are the table's |
| `ParserObject.Parser.AdvanceOscString` | src/emu/parser/mod.rs:466-486 | the OSC arms are the table's |
| `ParserObject.Parser.AdvanceApcString` | src/emu/parser/mod.rs:495-514 | the APC arms are the table's |
| `ParserObject.Parser.GroundDispatch` | src/emu/parser/mod.rs:831-855 | controls go to `execute` one at a time, the text between them in runs, in order |
| `Utf8.ScanReadsEncoding` | src/emu/parser/mod.rs:702-771 | the scan `from_utf8` performs reads every Unicode scalar value back from its encoding (section 3 of RFC 3629), whatever follows |
| `Utf8.OnlyEncodingsAreRead` | src/emu/parser/mod.rs:702-771 | and reads only encodings as characters: no overlong form, no surrogate (section 4 of RFC 3629) |
| `WakeProtocol.NoLostWake` | src/session.rs:368-478 | in every interleaving of the two threads, an undrained change has its flag up, or its wake in flight, or a thread inside feed-to-fed, clear-to-notify or acknowledge-to-drain; bytes written never exceed acknowledgements plus one |
| `WakeProtocol.NeverStuck` | src/session.rs:1217-1317 | with both threads at rest and the pipe open, an undrained change has the flag the next tick tries on, or a byte in the pipe |
| `WakeProtocol.DueFrameIsSent` | src/session.rs:424-449 | the tick that tries does put exactly one byte in the pipe once nothing holds the frame |
| `WakeProtocol.StepKeeps` | src/session.rs:802-830 | each load, store, swap or locked section keeps the invariant the above rest on |
| `Notify.HeldFrameIsBounded` | src/session.rs:312-325 | a frame opened on a clean notifier is sent by any flush later than the hold ceiling, the sync deadline then in force and the redisplay interval, whatever was read and whatever updates began and ended |
| `Notify.SyncIsFirstSinceEnded` | src/session.rs:503-514 | the deadline in force is the first adopted since the last update ended, or the one held from the start if none has |
| `Notify.SleepIsExact` | src/session.rs:537-560 | `poll_wait` is exactly the time to the instant a pending frame stops being held; at the instant itself the flush sends just when only the throttle was waited for |
| `Notify.EndedUpdateRenewsTheHold` | src/session.rs:503-514 | over every run on which a frame stays held, ending the update and beginning another holds it to any instant one likes, and beginning another alone changes nothing while a deadline is in force |
| `Notify.HoldEndsIff` | src/session.rs:312-325 | over every run on which the child keeps writing (reads, sync markers, pacing and ticks), a pending frame is bounded if and only if one of the two bounds is armed at its start, or there is no quiet to wait for |
| `Notify.UndrawableReadsHold` | src/session.rs:404-420 | with neither bound armed, reads that draw nothing hold the frame through every tick as long as they keep coming, and arm neither |
| `Notify.ArmedIffDrawn` | src/session.rs:404-420 | over a run of a frame no change opened, a bound gets armed if and only if some read of it drew something |
| `Notify.DrawnReadBounds` | src/session.rs:404-420 | from the first such read on, any flush past the ceiling it armed, the sync deadline and the throttle sends |
| `Notify.CeilingBounds` | src/session.rs:312-325 | an armed ceiling stays put, and any flush past it, the sync deadline in force and the throttle sends |
| `Notify.FramesApart` | src/session.rs:424-449 | over every run of reads, updates, ticks, announcements and drains, a frame is sent no sooner after the one before it than the interval that holds then |
| `Notify.DeferredAnnouncementUnbounded` | src/session.rs:386-394 | after an announcement the throttle defers and a read that draws nothing, every run of such reads holds the frame through every tick and arms neither bound |
| `Notify.DeferredAnnouncementExample` | src/session.rs:386-394 | half a millisecond of quiet and eight between frames: held for a fifth of a second, past the ceiling on a hold, and on |
| `NotifierObject.Notifier.Notify` | src/session.rs:368-376 | one byte unless one is in flight, and whether Emacs listens |
| `NotifierObject.Notifier.Fed` | src/session.rs:404-420 | the flags and deadlines become what `Notify.Fed` gives |
| `NotifierObject.Notifier.HoldLeft` | src/session.rs:312-325 | how much longer the frame is held, as `Notify.Hold` gives |
| `NotifierObject.Notifier.Flush` | src/session.rs:424-449 | the flags, deadlines and pipe become what `Notify.Flush` gives |
| `NotifierObject.Notifier.Announce` | src/session.rs:386-394 | the flags and deadlines become what `Notify.Announce` gives, a byte is written exactly when that sends, and whether Emacs listens is answered |
| `NotifierObject.Notifier.Acknowledge` | src/session.rs:462-464 | the in-flight flag comes down and nothing else changes |
| `NotifierObject.Notifier.Rearm` | src/session.rs:475-478 | a flush, a byte written exactly when it sends, and whether a notification is left waiting |
| `NotifierObject.Notifier.SetSync` | src/session.rs:503-514 | the first deadline of a frame is kept, and clearing it clears it |
| `NotifierObject.Notifier.PollWait` | src/session.rs:537-560 | the wait computed is the one `Notify.PollWait` gives |
| `LedgerObject.Ledger.Find` | src/emu/intern.rs:94-103 | the first id filed under the hash that matches moves to the newest end of the order; otherwise nothing changes |
| `LedgerObject.Ledger.Insert` | src/emu/intern.rs:106-112 | a never used id goes to the newest end and into its bucket |
| `LedgerObject.Ledger.Remove` | src/emu/intern.rs:130-142 | the id leaves the order and its bucket and nothing else moves; whether it was held |
| `LedgerObject.Ledger.EvictOldest` | src/emu/intern.rs:115-118 | the first of the order leaves it |
| `LedgerObject.Ledger.Unlink` | src/emu/intern.rs:174-193 | splicing the two links takes exactly that id out of the order |
| `LedgerObject.Ledger.LinkNewest` | src/emu/intern.rs:196-215 | splicing at the end appends exactly that id |
| `LedgerObject.Ledger.Touch` | src/emu/intern.rs:164-171 | the id moves to the newest end, the others keeping their order |
| `LedgerObject.Ledger.Lru` | src/emu/intern.rs:150-154 | following the links one way spells the order, oldest first |
| `LedgerObject.SpliceChained` | src/emu/intern.rs:174-193 | joining the neighbours of an id keeps forward and backward links spelling one order |
| `Stores.LinkStore.Intern` | src/emu/link.rs:95-109 | a live URI keeps its id and becomes newest; a new one gets an unused id; URIs and ids stay in bijection, `bytes` stays their summed length, and both caps are met after |
| `Stores.LinkStore.Evict` | src/emu/link.rs:123-132 | the oldest go, as few as meet both caps, out of every table |
| `Stores.CappedIs` | src/emu/link.rs:123-132 | what is left is the longest newest part that meets both caps |
| `Stores.ImageStore.Intern` | src/emu/image.rs:285-309 | equal digests share one id; the three tables keep equal key sets and the ids retired for the cap are returned oldest first |
| `Stores.ImageStore.Forget` | src/emu/image.rs:355-359 | the id leaves all three tables and nothing else does |
| `Stores.ImageStore.Evict` | src/emu/image.rs:363-374 | the oldest go until the count is met, and are returned |
| `Stores.ImageStore.SetAsked` | src/emu/image.rs:340-344 | only the named picture's asked size changes |
| `Stores.ImageStore.CellsOf` | src/emu/image.rs:327-330 | the asked rectangle, or the pixels in cells, or nothing for a picture not held |
| `Stores.CellsCover` | src/emu/image.rs:139-147 | the cells along an axis cover the pixels and one fewer would not, up to the sixteen-bit limit |
| `Checksum.Crc32.Push` | src/emu/png.rs:339-360 | pushing any data, eight bytes at a time and the tail singly, leaves the register of the bit-at-a-time definition (section 3.4 of RFC 2083) carried on over it |
| `Checksum.CrcOfPieces` | src/emu/png.rs:339-360 | pieces pushed one after another have the checksum of the whole |
| `Checksum.ChecksumOf` | src/emu/png.rs:234-242 | built, fed a kind and then data, and finished: the checksum of the two as one |
| `Checksum.SliceIsEightBytes` | src/emu/png.rs:339-360 | eight lookups in eight tables are eight bytes a bit at a time |
| `Checksum.FoldLinear` | src/emu/png.rs:297-325 | shifting through bytes is linear in exclusive or, which the tables rest on |
| `Checksum.Tables` | src/emu/png.rs:297-325 | table k answers for a byte what k+1 bytes of shifting do to it |
| `Checksum.Adler32` | src/emu/png.rs:269-281 | the sum is the per-byte definition (section 2.2 of RFC 1950), no addition overflowing 32 bits |
| `Checksum.DeferredModulo` | src/emu/png.rs:269-281 | reducing once per block is reducing at every byte |
| `Checksum.BlockFits` | src/emu/png.rs:269-281 | from every reduced start the sums over any 5552 bytes fit in 32 bits, and over 5553 bytes of 0xFF from the largest start the second does not |
| `Zlib.ZlibStored` | src/emu/png.rs:245-260 | a reader of stored blocks written from the standard (section 2.2 of RFC 1950, section 3.2.4 of RFC 1951) reads the stream back as the data, checksum verified |
| `Zlib.BlocksRead` | src/emu/png.rs:245-260 | blocks of at most 65535 bytes, only the last marked final, read back as the data whatever follows |
| `Zlib.PushChunk` | src/emu/png.rs:234-242 | a chunk is read back (section 3.2 of RFC 2083) as its kind and data with the right checksum, whatever follows, for data under four gigabytes |
| `SixelPicture.LastCoverShows` | src/emu/sixel.rs:133-197 | a pixel has the colour the pen had at the last data token that covers it |
| `SixelPicture.UncoveredIsClear` | src/emu/sixel.rs:133-197 | a pixel no token covers is fully transparent |
| `SixelColors.DefinitionColoursPixel` | src/emu/sixel.rs:133-197 | after `#n;2;r;g;b` anywhere in a body, a pixel last covered by something drawn before another register is touched is opaque, and each channel is the byte nearest to that many hundredths, at most all, of 255 |
| `SixelColors.SelectedShows` | src/emu/sixel.rs:143-158 | so is one drawn after the register was selected again, if it was not redefined meanwhile |
| `SixelColors.FirstIsBlack` | src/emu/sixel.rs:133-141 | before any register is touched what is drawn is black |
| `SixelPicture.NothingIsClipped` | src/emu/sixel.rs:94-130 | whenever there is a picture every token lies wholly on its canvas in both directions: the two passes agree |
| `SixelPicture.NothingOutside` | src/emu/sixel.rs:157-187 | nothing outside the measured canvas is ever painted |
| `SixelPicture.BandsFit` | src/emu/sixel.rs:94-130 | for every body the terminal keeps, the pixel rows of a band fit 32 bits |
| `SixelPicture.TokensAreShort` | src/emu/sixel.rs:271-326 | every token takes at least a byte and carries six bits |
| `SixelDecoder.TokenReader.Next` | src/emu/sixel.rs:271-326 | the iterator yields exactly the tokens of the rest of the body, in order |
| `SixelDecoder.TokenReader.ReadParams` | src/emu/sixel.rs:239-265 | the slots hold the parameters, the rest zero, and how many were filled is answered |
| `SixelDecoder.MeasureBody` | src/emu/sixel.rs:94-130 | the first pass answers the size of the tokens' picture, or nothing for an empty or too large one |
| `SixelDecoder.Render` | src/emu/sixel.rs:133-197 | the second pass, on a canvas of any size, paints every pixel of it as the picture has it, every write in bounds |
| `SixelDecoder.PaintRun` | src/emu/sixel.rs:157-187 | a run clipped to the canvas paints what is on it and moves the cursor by the whole of it |
| `SixelDecoder.DecodeBody` | src/emu/sixel.rs:77-86 | the size measured, and a buffer that shows the picture pixel for pixel |
| `SixelRepeat.CountIsCopies` | src/emu/sixel.rs:279-292 | `!n` before a character decodes as n of that character, for every n but zero, anywhere in a body |
| `SixelRepeat.EmptyRunIsNothingIff` | src/emu/sixel.rs:98-109 | a repeat of zero can be left out if and only if the height it asks for does not change the canvas |
| `SixelRepeat.EmptyRunCanMatter` | src/emu/sixel.rs:98-109 | `!0~?` is a picture and `?` is none |
| `SixelRepeat.TokensAcross` | src/emu/sixel.rs:271-326 | a body that ends on the end of an instruction keeps its tokens whatever instruction follows |
| `KittyProtocol.ChunksReassemble` | src/emu/kitty.rs:251-369 | a payload within the bound, cut into any chunks with no id or the opener's and any probes, deletes and places in between, ends in the outcome, answer and session of sending it whole; on the way chunks are silent and the others are answered as if alone |
| `KittyProtocol.OverlongIsRefused` | src/emu/kitty.rs:444-450 | the chunk that passes the bound gets the refusal the whole would get, and the transfer ends |
| `KittyProtocol.TransfersAreBounded` | src/emu/kitty.rs:193-211 | in every run of commands, bindings and losses, a transfer under way was opened by a command that may open one and holds at most the bound |
| `KittyProtocol.PictureArrives` | src/emu/kitty.rs:371-441 | a PNG sent in chunks whose text picked up newlines and echoed keys arrives byte for byte, with its geometry, id and flags |
| `KittyProtocol.DescribedIsBoundedIff` | src/emu/kitty.rs:411-427 | a raw picture that passes the geometry test truly needs at most twice what arrived if and only if its true length fits 64 bits |
| `KittyProtocol.DescribedCanWrap` | src/emu/png.rs:165-170 | a size whose fields fit and whose length comes to four past a whole turn of 64 bits passes with two bytes |
| `KittyProtocol.DisplacedIsTold` | src/emu/kitty.rs:284-294 | a second picture drops the first, which is told first under its own id, and fares as if nothing had been there |
| `KittyProtocol.ProbeLeavesNoTrace` | src/emu/kitty.rs:320-326 | a probe changes nothing in the session, a transfer under way included, and is answered |
| `KittyProtocol.AnswersAreOwed` | src/emu/kitty.rs:472-483 | every answer is addressed to the command or to the transfer it ended, in that order of events, and never passes what `q=` lets through |
| `KittyProtocol.PlaceFindsItsPicture` | src/emu/kitty.rs:334-346 | a place finds what was last bound to its id and nothing that was lost since |
| `KittyProtocol.ParseSettles` | src/emu/kitty.rs:108-167 | the action and id that apply are those named or the protocol's own, and every number fits its field |
| `KittyCommand.CommandReadsBack` | src/emu/kitty.rs:108-167 | a command written out, each field under its own key, formats by their numbers and actions by their letters, is the command that is read |
| `KittyCommand.RefusedCapabilities` | src/emu/kitty.rs:138-147 | another medium, another compression or a placeholder is remembered as unsupported, whatever was said before |
| `KittyProtocol.UnknownKeyIsIgnored` | src/emu/kitty.rs:101-114 | a key that is not known, wherever it stands, changes nothing |
| `KittyProtocol.ReadAllAcross` | src/emu/kitty.rs:108-167 | control data is read pair by pair, in order |
| `KittyObject.Kitty.FeedPayload` | src/emu/kitty.rs:251-313 | the session, outcome and answers become those of `KittyProtocol.Feed` |
| `KittyObject.Kitty.Obey` | src/emu/kitty.rs:268-312 | the branches of a parsed command leave what `KittyProtocol.FeedCommand` gives |
| `KittyObject.Kitty.AnswerAlone` | src/emu/kitty.rs:320-349 | probe, delete and place leave what `KittyProtocol.Standalone` gives |
| `KittyObject.Kitty.BeginTransfer` | src/emu/kitty.rs:352-369 | opening a transfer leaves what `KittyProtocol.Begin` gives |
| `KittyObject.Kitty.Complete` | src/emu/kitty.rs:371-441 | a whole payload comes to what `KittyProtocol.Finish` gives |
| `KittyObject.ParseControl` | src/emu/kitty.rs:108-167 | the loop over pairs gives the command `KittyProtocol.Parse` does |
| `Base64.DecodeEncode` | src/emu/kitty.rs:514-570 | decoding undoes encoding for any bytes (section 4 of RFC 4648) |
| `Base64.LetterIsInAlphabet` | src/emu/kitty.rs:526-531 | the character for six bits is the one at that place of the alphabet of section 4 of RFC 4648 |
| `Base64.SextetIsPlace` | src/emu/kitty.rs:526-531 | and a byte stands for six bits exactly if it is the character at that place |
| `Base64.NoiseIsLifted` | src/emu/kitty.rs:527-534 | whitespace and caret-plus-byte pairs at any positions, and a caret cut off at the end, change nothing about what is decoded |
| `Base64.EchoesAreRepaired` | src/emu/kitty.rs:485-545 | an encoded payload that picked up such noise decodes to the bytes sent |
| `Base64.DecodeBase64` | src/emu/kitty.rs:514-545 | the loop over a 32-bit accumulator that is never cleared gives exactly the decoding, refusals included |
| `Base64.EncodeBase64` | src/emu/kitty.rs:553-570 | the loop over groups of three gives exactly the encoding |

## Left out

- In-place rows inside the grid: `ScreenObject.Screen` holds its rows as values, so aliasing and update in place of a row are modelled only in `RowObject.RowBuffer`.
- Sixteen-bit columns, `usize` limits, capacities and allocation: sizes are unbounded, except where the code saturates or wraps on purpose.
- The `touches` counter, the saved cursor, and `Screen::line_text`, `Screen::mark` lookups and other readers that change nothing.
- ScreenObject.Screen.Place: requires at least one column, as every caller guarantees; a zero-width character joins instead.
- CursorTrack.RewrapKeepsCursorIff: nothing is said of a screen narrower than one of the characters on it, whose end a rewrap drops.
- CursorTrack.PlacedPosition: the same.
- CursorTrack.PlaceHoldsIff: the same.
- CursorTrack.RewrapHoldsCharacterIff: the same.
- SemanticMarks.RewrapMarks: marks on the rows below those in use, which a rewrap drops with the rows, are not read.
- Typing.TextAppends: the other screens (a region, no history, autowrap off) drop text by design; what is written on them is `GridEffects.PlaceLeaves`.
- Joining.TextFollows: assumes of the width tables that a cluster measures at least one column; one resized to none would blank its own cell.
- Joining.WriteClusterLeaves: a cluster whose marks stray, which `Joining.LeadFoundIff` singles out, is not described further.
- A departed row is kept as the cells and attachments its runs are built from; `Runs.DepartedKeepsRuns` ties the two together.
- RowObject.InsertionPoint: the binary search of `partition_point` on a table that is out of order is modelled as plain bisection; the standard library leaves it unspecified there.
- `Term` and `State` beyond the fields `print` and `print_str` touch, and the dispatch tables of control, OSC and graphics sequences: one-branch members.
- Widths, grapheme boundaries, glyph classification, hashes and image digests are arbitrary functions; printable ASCII is one column and opens a cell.
- `Parser::advance_until_terminated` and the division of text and payload into print and put calls: a performer's requests are compared character by character.
- ByteMachine.StepOk: the parameters are modelled as groups of numbers; the flat arrays of `Params` are not.
- The clock is read once in each notifier call, and errors of the wake pipe other than Emacs having gone are not modelled.
- Sessions beyond the order in which `read_loop`, `finish`, `drain` and `ready` call the notifier: the pty, signals, foreground sampling and resizing.
- LedgerObject.Ledger.Insert: assumes fewer than 2^32 - 1 inserts, past which the original would wrap its ids and hand one out twice.
- Stores.LinkStore.Intern: the same bound on inserts.
- Stores.ImageStore.Intern: the same bound on inserts.
- The PNG and PPM headers around pixels (`png_from_rgba`, `ppm_from_rgb`), header sniffing and inflate: the first are framing around parts proved here, inflate is an arbitrary function.
- SixelDecoder.Render: the four bytes of a pixel are one element of the buffer.
- SixelPicture.BandsFit: bodies within the limit the terminal collects, as its only caller passes; a longer body could overflow the row arithmetic.
- Answers to the child are an id and a text; their framing bytes, and the lossy decoding of control data, are not modelled.
- `src/env.rs`, the Lisp conversion, `src/pty.rs`, `src/platform` and `src/error.rs`: bindings and system calls.
