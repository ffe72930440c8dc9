# Verification of the terminal, its queue, its text decoders and the package build order

Dafny models of four parts of the system and proofs about them. `dafny verify dfyconfig.toml` checks everything.

**The terminal screen.** `TerminalRows` and `TerminalRing` describe a buffer as a value: rows of cells, seen from the
first row of the screen on. `FastResize`, `Reflow` and `TerminalResize` describe resizing, `TerminalState` the emulator
as a state machine over printing, control characters, escape sequences, screen switches, resets and resizes.
`PackedRows.PackedRow`, `TerminalBuffers.TerminalBuffer` and `TerminalEmulators.TerminalEmulator` are the mutable
objects: a row as an array of Java characters that is shifted and grown in place, a circular array of row references,
and an emulator that owns two of these buffers. Each method is proved to do what the value-level function says;
`PackedText`, `PackedCells` and `PackedCopies` relate the Java characters to the cells. The theorems are about the
functions: what copies do to rows with double-width and combining characters (`RowCopies`, `BlockCopies`), scrolling as
lists (`TerminalRing`), what editing, modes and resets do (`Editing`, `LineEditing`, `ScreenEffects`), cursor movements
(`CursorMoves`, `CursorEffects`), what one printed character leaves (`PrintEffects`), what a resize keeps of lines and
cursor (`FastResize`, `ShrunkScreen`, `ReflowText`, `Retyping`, `ReflowLines`, `LineBreaks`, `KeptLines`,
`ResizeCursors`), isolation of the alternate screen (`AlternateScreen`), and printing followed by reading or by a resize
(`Typing`, `Pages`, `PageReading`, `PrintAndRead`, `PrintAndResize`): rows are described as pages on which code points
are typed. `EmulatorRuns` draws two of these for the emulator object. `Utf8Stream` is the
byte decoder in front of the emulator and `EscapeParser` the parser of escape sequences; `IntSteps` redoes the cursor
movements in 32-bit arithmetic, `EmulatorBytes` puts decoder, parser and steps together, `EscapeSequences` says for the
bytes of each sequence what they leave of the terminal, and `ScreenExits` when the cursor leaves the screen.

**The byte queue.** `ByteQueues.ByteQueue` is the circular buffer; `QueueThreads` is the monitor as a state machine in
which every section under the lock is one step and a reader, a writer, a close, interrupts and spurious wake-ups
interleave freely.

**Text decoding in C.** `Utf8`, `MultibyteTable`, `MultibyteText` and `Mbsrtowcs` model mbsrtowcs and its bit-packed
table on bit-vectors. `Transcoding` and `Iconv` model the UTF-16 and UTF-32 cases of iconv, `MissingValues` the GB18030
case and the loops that select a code point which a table lacks, `CodeNumbers` what the numbers of the codes count.

**The build order.** `Dependencies` and `BuildOrder` model buildorder.py; names are numbers in alphabetical order.

Where the code does not do what one might expect, the model follows the code, and the exact condition is proved:

- A double-width character that is copied over a column with combining code points takes them over, because only the
  base is removed (TerminalRow.java:249-254), so IL followed by DL need not restore a line:
  `RowCopies.PlainCopyIff`, `RowCopies.WholeRowCopyIff`, `LineEditing.InsertThenDelete`.
- Copying cells to the right within a row reads the styles while it overwrites them (TerminalRow.java:79), so ICH can
  change styles: `RowCopies.StylesKeptWithinRow`.
- Clearing a row does not reset its wrap flag (TerminalRow.java:140-145), so the line that a scroll reveals may still
  count as wrapped: `TerminalRing.RevealedLineWraps`. The transcript then joins separate lines:
  `PrintAndRead.PrintAnything`, `PrintAndRead.StaleFlagJoinsLines`.
- A shrinking screen may drop rows with text: `ShrunkScreen.LostRowsAreBlank`.
- The reflow cuts the cursor row after the base character under the cursor, so its combining characters go too:
  `ResizeCursors.TargetWritten`. It keeps the lines exactly if no wrapped blank row comes before text and no double-width
  character leaves a column blank (TerminalBuffer.java:241-243, 281): `KeptLines.ReflowKeepsLinesIff`.
- Blank rows that the reflow writes later may scroll, and this scroll does not move the recorded cursor
  (TerminalBuffer.java:247-249), so the cursor can end up below its character: `ResizeCursors.SlowCursorIff`,
  `ResizeCursors.CursorDrifts`.
- In origin mode HPA, CNL, CPL and VPR add the top margin to the line of the cursor, which already includes it
  (TerminalEmulator.java:1412, 1415, 1564, 2286): `CursorEffects.ColumnKeepsLineIff`, `CursorEffects.LinesDownIff`. RIS
  leaves the cursor at the top margin in origin mode: `ScreenEffects.FullResetHomeIff`. ESC F goes to the first line,
  not to the lower left corner: `CursorEffects.LowerLeftMissed`.
- CUD and CUF add the argument to the cursor before they take the minimum (TerminalEmulator.java:1402, 1406), so the sum
  may wrap around and the cursor leaves the screen: `IntSteps.CursorLeavesScreen`, `ScreenExits.FarDownBytes`. As long
  as no left-out sequence has been completed, this is the only way: `ScreenExits.BytesLeaveScreenIff`. Left and right
  margins, which are left out, open others: on three or more columns, ESC [ ? 69 h, ESC [ 3 s and a backspace lead to
  column -1.
- A backspace does not undo printing in the last column: `CursorMoves.BackspaceAfterPrint`.
- The overlong test of the terminal misses 7FF in three bytes and FFFF in four: `Utf8Stream.OverlongExactly`.
- mbsrtowcs accepts F4 90..9F, that is, values up to 11FFFF (internal.c:18).
- The third byte FF of a GB18030 code collides with the next code (iconv.c:276): `MissingValues.GbCollisions`,
  `MissingValues.GbOwnNumber`. The selected value is not limited to code points: `MissingValues.GbWithinUnicode`.
- A queue of capacity 0 loses a wake-up: `QueueThreads.NoLostWakeups`.
- An empty set of packages has no build order, although it has no cycle: `BuildOrder.GenerateFullBuildOrder`.

## Model

| member | source | states |
|---|---|---|
| `PackedRows.PackedRow.constructor` | app/src/main/java/app/virtshell/emulator/TerminalRow.java:50-55 | The array of a new row holds the text of blank cells |
| `PackedRows.PackedRow.FindStartOfColumn` | app/src/main/java/app/virtshell/emulator/TerminalRow.java:88-124 | For every column, also the right half of a character: the index in the array of the character that covers it |
| `PackedRows.PackedRow.WideDisplayCharacterStartingAt` | app/src/main/java/app/virtshell/emulator/TerminalRow.java:126-138 | True if and only if a double-width character begins in the column, for every integer |
| `PackedRows.PackedRow.Clear` | app/src/main/java/app/virtshell/emulator/TerminalRow.java:140-145 | The array holds the text of blank cells |
| `PackedRows.PackedRow.SetChar` | app/src/main/java/app/virtshell/emulator/TerminalRow.java:148-257 | In place and in a grown array, on the fast path and through the calls of itself: the array holds the text, surrogates included, of the cells after the store, for every row and code point |
| `PackedRows.PackedRow.CopyInterval` | app/src/main/java/app/virtshell/emulator/TerminalRow.java:58-82 | The loop over the Java characters of another row or of the row itself: the array holds the text of the cells after the copy, cut characters and styles read on the way included |
| `PackedRows.PackedRow.IsBlank` | app/src/main/java/app/virtshell/emulator/TerminalRow.java:259-263 | True if and only if every column holds one space |
| `PackedCells.FlatStored` | app/src/main/java/app/virtshell/emulator/TerminalRow.java:177-256 | The text of the updated cells is the old text with one column replaced, a space added or a base removed |
| `PackedCells.PutIsStored` | app/src/main/java/app/virtshell/emulator/TerminalRow.java:163-176 | Breaking up the characters on either side and then storing is the store of the cell model, by width of the code point |
| `PackedCopies.Advance` | app/src/main/java/app/virtshell/emulator/TerminalRow.java:65-80 | Reading one code point and putting it leaves the same copy to be done, at the next place of the array |
| `RowCopies.PutNarrowAt` | app/src/main/java/app/virtshell/emulator/TerminalRow.java:148-257 | On any row, what a width-1 character leaves in every cell: halves it cuts become spaces |
| `RowCopies.PutWideAt` | app/src/main/java/app/virtshell/emulator/TerminalRow.java:148-257 | On any row, what a double-width character leaves in every cell, and the combining code points it takes over |
| `BlockCopies.FillCellsAt` | app/src/main/java/app/virtshell/emulator/TerminalBuffer.java:413-415 | On any row, every cell after a stretch is filled: characters cut at either end become spaces |
| `RowCopies.CopyIntervalText` | app/src/main/java/app/virtshell/emulator/TerminalRow.java:58-81 | On any two rows and for any columns, the text of every cell after the copy |
| `RowCopies.CopyIntervalStyle` | app/src/main/java/app/virtshell/emulator/TerminalRow.java:58-81 | On any two rows, and in either direction within a row, the exact style of every cell |
| `RowCopies.PlainCopyIff` | app/src/main/java/app/virtshell/emulator/TerminalRow.java:58-81 | The copy is a plain copy of the text, and nothing else changes, if and only if no character is visibly cut at an edge and no double-width character lands where the next column has combining code points |
| `RowCopies.WholeRowCopyIff` | app/src/main/java/app/virtshell/emulator/TerminalRow.java:58-81 | For whole rows: if and only if no double-width character lands so |
| `RowCopies.CutCharacter` | app/src/main/java/app/virtshell/emulator/TerminalRow.java:65-73 | The halves of a character that is cut become spaces |
| `RowCopies.AccentTakenOver` | app/src/main/java/app/virtshell/emulator/TerminalRow.java:249-254 | A row whose accent ends up on the double-width character copied over it |
| `RowCopies.StylesKeptElsewhere` | app/src/main/java/app/virtshell/emulator/TerminalRow.java:58-81 | Between different rows and to the left within a row, every character arrives with its style |
| `RowCopies.StylesKeptWithinRow` | app/src/main/java/app/virtshell/emulator/TerminalRow.java:58-81 | Copying to the right within any row keeps the styles if and only if every character has the style of the column from which its style is read by then |
| `RowCopies.RepeatsWithoutHalves` | app/src/main/java/app/virtshell/emulator/TerminalRow.java:58-81 | Without halves of double-width characters that means: the styles repeat with the distance of the copy |
| `RowCopies.StylesSmearExample` | app/src/main/java/app/virtshell/emulator/TerminalRow.java:58-81 | A row in which such a copy changes a style |
| `TerminalRing.ScrollRefinesListScroll` | app/src/main/java/app/virtshell/emulator/TerminalBuffer.java:355-377 | For every margin pair: as lists, the screen loses the top line of the region and gains a cleared line at its bottom, and the history gains the lost line and drops its oldest one when full; also when there is no history at all |
| `TerminalRing.RevealedLineWraps` | app/src/main/java/app/virtshell/emulator/TerminalRow.java:140-145 | The revealed line is unwrapped if and only if the row used for it did not exist or was unwrapped |
| `TerminalRing.ClearTranscript` | app/src/main/java/app/virtshell/emulator/TerminalBuffer.java:458-466 | The history is empty afterwards and the screen is unchanged |
| `TerminalRing.BlankScreenRows` | app/src/main/java/app/virtshell/emulator/TerminalBuffer.java:53-60 | The block set of the constructor creates exactly the rows of the screen, all blank |
| `BlockCopies.BlockCopyIsSimultaneous` | app/src/main/java/app/virtshell/emulator/TerminalBuffer.java:391-401 | For all screens and all rectangles in range, overlapping or not: the text of every cell is that of the row copy from source and destination row as they were before the call |
| `BlockCopies.BlockCopyRow` | app/src/main/java/app/virtshell/emulator/TerminalBuffer.java:391-401 | Each destination row is written from the source row as it was before the call; no other row changes |
| `BlockCopies.BlockCopyIsPlainIff` | app/src/main/java/app/virtshell/emulator/TerminalBuffer.java:391-401 | A destination row is a plain copy of the text if and only if no character is visibly cut at an edge or lands over combining code points in that row |
| `BlockCopies.BlockCopyStyle` | app/src/main/java/app/virtshell/emulator/TerminalBuffer.java:391-401 | The exact style of every cell of the destination rows, on all screens and for all rectangles in range |
| `BlockCopies.CopyThenClear` | app/src/main/java/app/virtshell/emulator/TerminalBuffer.java:391-416 | What a block copy followed by a block clear leaves in every cell, on all screens |
| `FastResize.ShiftOfTop` | app/src/main/java/app/virtshell/emulator/TerminalBuffer.java:178-197 | The bounds of the shift: between 0 and the rows given up when shrinking, at most the history when growing |
| `FastResize.ResizeKeepsLines` | app/src/main/java/app/virtshell/emulator/TerminalBuffer.java:176-203 | With unchanged columns and total: line i of history and screen stays line i, new lines at the bottom are blank, no history is lost, everything fits the ring |
| `FastResize.ResizeCursor` | app/src/main/java/app/virtshell/emulator/TerminalBuffer.java:202-203 | The cursor, moved by the shift, stays above the bottom of the new screen |
| `ShrunkScreen.LostRowsAreBlank` | app/src/main/java/app/virtshell/emulator/TerminalBuffer.java:179-187 | The rows that a shrinking screen drops are all blank if and only if enough blank rows follow each other at the bottom or no other blank row is below the cursor |
| `ShrunkScreen.LastRowLost` | app/src/main/java/app/virtshell/emulator/TerminalBuffer.java:179-187 | Three rows of which the last one is lost although it has text |
| `ReflowText.ReflowConservesText` | app/src/main/java/app/virtshell/emulator/TerminalBuffer.java:204-317 | The text of the rows that fell off the ring followed by that of the new history and screen is the old text, with the cursor row cut after the character under the cursor |
| `ReflowText.ReflowKeepsText` | app/src/main/java/app/virtshell/emulator/TerminalBuffer.java:204-317 | The new text is a suffix of the old one, equal exactly when only blank rows fell off, and always when the new history is not full |
| `ReflowText.OldTextFrom` | app/src/main/java/app/virtshell/emulator/TerminalBuffer.java:233-306 | The old text is that of all rows, with only the cursor row cut |
| `ReflowText.FeedAllText` | app/src/main/java/app/virtshell/emulator/TerminalBuffer.java:270-306 | Writing the code points of a row appends their text, up to the cursor, to what has been written |
| `Retyping.ReflowRetypes` | app/src/main/java/app/virtshell/emulator/TerminalBuffer.java:204-317 | The rows that fell off, the new history and the new screen are, with their wrap flags, the rows that typing the logical lines of the old rows on a page of the new width gives, up to blank rows at the end; a row that is used again has the flag of the row it replaces |
| `Retyping.CopyLinesTyped` | app/src/main/java/app/virtshell/emulator/TerminalBuffer.java:232-317 | After any number of old rows the output is such a page, and the blank rows passed since are those that its line breaks add |
| `Retyping.FeedTyped` | app/src/main/java/app/virtshell/emulator/TerminalBuffer.java:270-306 | Writing one code point types it: a character that does not fit begins a row and marks the one before as wrapped |
| `ReflowLines.TypedText` | app/src/main/java/app/virtshell/emulator/TerminalBuffer.java:280-289 | While no row is used again, the rows joined at the wrap flags are the typed lines, with a blank where a double-width character did not fit |
| `KeptLines.ReflowedLines` | app/src/main/java/app/virtshell/emulator/TerminalBuffer.java:204-317 | While the rows fit the ring, its lines are those of typing the logical lines of the old rows |
| `KeptLines.ReflowKeepsLinesIff` | app/src/main/java/app/virtshell/emulator/TerminalBuffer.java:204-317 | While the rows fit the ring, the lines of the new rows are those of the old ones, the cursor row cut, if and only if no wrapped blank row comes before text and no double-width character leaves the last column of a new row blank |
| `PrintAndResize.TypeLinesCodes` | app/src/main/java/app/virtshell/emulator/TerminalBuffer.java:232-317 | The logical lines of typed rows are the lines that were typed |
| `PrintAndResize.ReflowedPage` | app/src/main/java/app/virtshell/emulator/TerminalBuffer.java:204-317 | With the cursor at the end of typed lines, a change of columns leaves the transcript the same, under the conditions of the next row |
| `PrintAndResize.ResizeAfterPrinting` | app/src/main/java/app/virtshell/emulator/TerminalBuffer.java:174-325 | After printing lines that fit, a change of columns leaves getTranscriptText the same, if no wrapped row is blank, the cursor is on no character with combining ones, no double-width character leaves a column blank, and the new rows fit |
| `ResizeCursors.FastCursor` | app/src/main/java/app/virtshell/emulator/TerminalBuffer.java:176-203 | With unchanged columns and total the cursor keeps its line and column, unless the line is now in the history; exactly then it is at the origin |
| `ResizeCursors.AltFastCursor` | app/src/main/java/app/virtshell/emulator/TerminalBuffer.java:176-203 | On the alternate screen it moves up with the rows that go off the top, and goes to the origin exactly if its row is one of them |
| `ResizeCursors.CursorTracked` | app/src/main/java/app/virtshell/emulator/TerminalBuffer.java:241-317 | Through all old rows: the recorded cursor is d rows below its character, where d is 0 if and only if all text after blank rows below it begins on the first screen |
| `ResizeCursors.TargetWritten` | app/src/main/java/app/virtshell/emulator/TerminalBuffer.java:291-305 | The character under the old cursor stands, with its style and width and without its combining code points, where typing puts it |
| `ResizeCursors.SlowCursorLost` | app/src/main/java/app/virtshell/emulator/TerminalBuffer.java:293-306 | A cursor that is on no character or on a right half goes to the origin |
| `ResizeCursors.SlowCursorIff` | app/src/main/java/app/virtshell/emulator/TerminalBuffer.java:204-325 | The new cursor is where the character under the old one was written if and only if that is on the screen and all text after blank rows below it begins on the first screen; scrolled off it goes to the origin, otherwise it is below the character |
| `ResizeCursors.SlowCursorCharacter` | app/src/main/java/app/virtshell/emulator/TerminalBuffer.java:204-325 | And then the cell under the new cursor holds that character |
| `ResizeCursors.CursorDrifts` | app/src/main/java/app/virtshell/emulator/TerminalBuffer.java:244-253 | Six rows of two columns that become four of three: the cursor ends up below its character |
| `ResizeCursors.WindowRowsCursor` | app/src/main/java/app/virtshell/emulator/TerminalEmulator.java:346-379 | A new number of rows of the window: the cursor keeps its line, or goes to the origin exactly if that is in the history |
| `ResizeCursors.WindowColumnsCursor` | app/src/main/java/app/virtshell/emulator/TerminalEmulator.java:346-379 | A new number of columns of the window: exactly when the cursor stays on its character |
| `ResizeCursors.WindowSettings` | app/src/main/java/app/virtshell/emulator/TerminalEmulator.java:353-368 | A new number of rows resets the margins, columns keep their tab stops, new ones get the default, and the other screen keeps its size |
| `TerminalResize.ResizeValid` | app/src/main/java/app/virtshell/emulator/TerminalBuffer.java:174-325 | Both forms of resizing give a valid ring of the new size and leave the cursor on the new screen |
| `TerminalBuffers.TerminalBuffer.constructor` | app/src/main/java/app/virtshell/emulator/TerminalBuffer.java:53-60 | The object holds a fresh ring: blank screen, no history |
| `TerminalBuffers.TerminalBuffer.ExternalToInternalRow` | app/src/main/java/app/virtshell/emulator/TerminalBuffer.java:147-152 | The index is the position of the row in the circular array, for rows of the history too |
| `Rotation.DistinctRowsIff` | app/src/main/java/app/virtshell/emulator/TerminalBuffer.java:147-152 | The rows of a screen are stored at different places if and only if it has no more rows than the array |
| `TerminalBuffers.TerminalBuffer.SetChar` | app/src/main/java/app/virtshell/emulator/TerminalBuffer.java:422-427 | Only the addressed row changes, a missing row is created first |
| `TerminalBuffers.TerminalBuffer.BlockSet` | app/src/main/java/app/virtshell/emulator/TerminalBuffer.java:408-416 | The nested loops fill the rectangle as the ring function says; nothing happens for an empty one |
| `TerminalBuffers.TerminalBuffer.BlockCopy` | app/src/main/java/app/virtshell/emulator/TerminalBuffer.java:391-401 | The loop in either direction does the block copy of the ring; rows stay distinct objects |
| `TerminalBuffers.TerminalBuffer.BlockCopyLinesDown` | app/src/main/java/app/virtshell/emulator/TerminalBuffer.java:334-346 | A block of row references moves down by one in the circular array and the overwritten one comes back above it |
| `TerminalBuffers.TerminalBuffer.ScrollDownOneLine` | app/src/main/java/app/virtshell/emulator/TerminalBuffer.java:355-377 | The two moves and the turn of the array do the list scroll, reuse the row that leaves the ring, and keep all rows distinct |
| `TerminalBuffers.TerminalBuffer.ClearTranscript` | app/src/main/java/app/virtshell/emulator/TerminalBuffer.java:458-466 | The two fills clear exactly the history, across the end of the array |
| `TerminalBuffers.TerminalBuffer.ComputeShift` | app/src/main/java/app/virtshell/emulator/TerminalBuffer.java:178-197 | The scan for blank rows and the limit of the history give the shift of the ring function |
| `TerminalBuffers.TerminalBuffer.ResizeFast` | app/src/main/java/app/virtshell/emulator/TerminalBuffer.java:176-203 | The array turned in place holds the resized ring, also for the alternate buffer whose modulus changes |
| `TerminalBuffers.TerminalBuffer.WriteItem` | app/src/main/java/app/virtshell/emulator/TerminalBuffer.java:280-305 | One code point of the reflow: wrap, store, place the cursor |
| `TerminalBuffers.TerminalBuffer.WriteOldLines` | app/src/main/java/app/virtshell/emulator/TerminalBuffer.java:232-317 | The loop over the old array writes all old lines as the reflow of the ring does, which types the logical lines again (Retyping.ReflowRetypes) |
| `TerminalBuffers.TerminalBuffer.ResizeSlow` | app/src/main/java/app/virtshell/emulator/TerminalBuffer.java:204-321 | The object holds the reflowed ring and returns the placed cursor, of which Retyping.ReflowRetypes and ResizeCursors.SlowCursorIff say what they are |
| `TerminalBuffers.TerminalBuffer.Resize` | app/src/main/java/app/virtshell/emulator/TerminalBuffer.java:174-325 | The whole of resize, including the cursor that scrolled off, as the resized ring and cursor of FastCursor, SlowCursorIff and SlowCursorLost in ResizeCursors |
| `TerminalBuffers.TerminalBuffer.GetTranscriptText` | app/src/main/java/app/virtshell/emulator/TerminalBuffer.java:62-116 | The loop over history and screen returns the transcript text |
| `TerminalState.EveryRun` | app/src/main/java/app/virtshell/emulator/TerminalEmulator.java:155-219 | After any run of operations from a fresh terminal the cursor is on the screen, 0 <= top <= rows - 2, top + 2 <= bottom <= rows, and both buffers are valid |
| `TerminalState.Run` | app/src/main/java/app/virtshell/emulator/TerminalEmulator.java:496-562 | Every run of legal operations keeps the invariant; every call of a buffer has arguments in range |
| `TerminalState.StepCursor` | app/src/main/java/app/virtshell/emulator/TerminalEmulator.java:1398-1424 | Cursor movements, DECSTBM and DECOM keep the invariant and the sizes (where the cursor goes: CursorEffects) |
| `TerminalState.EmitCodePoint` | app/src/main/java/app/virtshell/emulator/TerminalEmulator.java:2131-2271 | Printing keeps the invariant; no wide character is stored in the last column (what is printed: PrintEffects) |
| `TerminalState.SetMargins` | app/src/main/java/app/virtshell/emulator/TerminalEmulator.java:1608-1622 | The margins are at least two lines apart and on the screen for all arguments |
| `TerminalState.RestoreCursor` | app/src/main/java/app/virtshell/emulator/TerminalEmulator.java:1357-1368 | The restored cursor is on the screen, whatever was saved |
| `TerminalState.EnterAlt` | app/src/main/java/app/virtshell/emulator/TerminalEmulator.java:1098-1124 | Entering the alternate screen keeps the invariant, saves the cursor and leaves the main buffer alone |
| `TerminalState.ResizeTerminal` | app/src/main/java/app/virtshell/emulator/TerminalEmulator.java:346-379 | A new window size keeps the invariant (lines and cursor: ResizeCursors, KeptLines) |
| `TerminalState.FullReset` | app/src/main/java/app/virtshell/emulator/TerminalEmulator.java:2305-2340 | RIS keeps the invariant (what it leaves: ScreenEffects.FullResetBy) |
| `AlternateScreen.RunKeepsMain` | app/src/main/java/app/virtshell/emulator/TerminalEmulator.java:1098-1124 | Any run on the alternate screen without resize, ED 3, RIS or DECSTR leaves the main buffer and what was saved for it unchanged |
| `AlternateScreen.AlternateScreenIsIsolated` | app/src/main/java/app/virtshell/emulator/TerminalEmulator.java:1098-1124 | After entering, such a run and leaving, main buffer, cursor, colours, effect, autowrap, origin mode and line drawing are as before |
| `LineEditing.InsertThenDelete` | app/src/main/java/app/virtshell/emulator/TerminalEmulator.java:1468-1486 | IL n and then DL n, for any n and any screen: lines outside the region are unchanged, those pushed off are blank, and each other line is restored if and only if neither of its two moves lands a double-width character over combining code points |
| `LineEditing.NotRestored` | app/src/main/java/app/virtshell/emulator/TerminalRow.java:249-254 | Two rows where IL 1 and DL 1 leave an accent on a double-width character |
| `Editing.InsertCharsText` | app/src/main/java/app/virtshell/emulator/TerminalEmulator.java:1388-1397 | ICH, any number on any screen: the exact text of every cell, and the plain shift wherever no character is cut and nothing is taken over |
| `Editing.DeleteCharsText` | app/src/main/java/app/virtshell/emulator/TerminalEmulator.java:1487-1501 | DCH, any number on any screen: the exact text of every cell, and the plain shift wherever no character is cut and nothing is taken over |
| `Editing.EraseCharsText` | app/src/main/java/app/virtshell/emulator/TerminalEmulator.java:1524-1527 | ECH on any screen: exactly which cells become blank; a character cut at either end goes as a whole |
| `Editing.InsertLinesText` | app/src/main/java/app/virtshell/emulator/TerminalEmulator.java:1468-1476 | IL, any number of lines, any cursor row and any screen: the text of every cell, with combining code points taken over |
| `Editing.DeleteLinesText` | app/src/main/java/app/virtshell/emulator/TerminalEmulator.java:1477-1486 | DL, any number of lines, any cursor row and any screen: the text of every cell, with combining code points taken over |
| `Editing.InsertColumnsText` | app/src/main/java/app/virtshell/emulator/TerminalEmulator.java:736-741 | DECIC, any number on any screen: the exact text of every cell, and the plain shift wherever no character is cut and nothing is taken over |
| `Editing.ScrollRegionDownText` | app/src/main/java/app/virtshell/emulator/TerminalEmulator.java:1508-1523 | SD on any screen: the text of every cell, with combining code points taken over |
| `Editing.ScrollLinesText` | app/src/main/java/app/virtshell/emulator/TerminalEmulator.java:1502-1507 | SU on any screen: the text of every cell; rows move as a whole, so nothing is taken over |
| `Editing.ReverseIndexText` | app/src/main/java/app/virtshell/emulator/TerminalEmulator.java:1306-1315 | RI on any screen: the text of every cell, with combining code points taken over |
| `Editing.BackIndexText` | app/src/main/java/app/virtshell/emulator/TerminalEmulator.java:1266-1274 | DECBI on any screen: the exact text of every cell, and the plain shift wherever no character is cut and nothing is taken over |
| `Editing.ForwardIndexText` | app/src/main/java/app/virtshell/emulator/TerminalEmulator.java:1281-1289 | DECFI on any screen: the exact text of every cell, and the plain shift wherever no character is cut and nothing is taken over |
| `Editing.EraseInLineText` | app/src/main/java/app/virtshell/emulator/TerminalEmulator.java:1451-1467 | EL 0, 1 and 2 on any screen: exactly which cells become blank; a character cut at the cursor goes as a whole |
| `Editing.EraseInDisplayText` | app/src/main/java/app/virtshell/emulator/TerminalEmulator.java:1427-1450 | ED 0, 1 and 2 on any screen: exactly which cells become blank; a character cut at the cursor goes as a whole |
| `Editing.ArrivingIsText` | app/src/main/java/app/virtshell/emulator/TerminalRow.java:249-254 | A cell of a moved line has its old text if and only if it is not a double-width character that lands over combining code points |
| `Editing.CleanWithoutHalves` | app/src/main/java/app/virtshell/emulator/TerminalEmulator.java:1388-1397 | On a row without double-width characters the shifts are plain, whatever combining code points it has |
| `PrintEffects.PrintedHere` | app/src/main/java/app/virtshell/emulator/TerminalEmulator.java:2131-2271 | A character of any width, a combining one, in insert mode or not, with autowrap or not, in every state: text and style of every cell of its row, cursor column and pending wrap; nothing else changes |
| `PrintEffects.DroppedCharacter` | app/src/main/java/app/virtshell/emulator/TerminalEmulator.java:2252-2256 | Without autowrap a double-width character in the last column changes nothing but the last character |
| `PrintEffects.PrintedOnNextLine` | app/src/main/java/app/virtshell/emulator/TerminalEmulator.java:2242-2271 | A character that does not fit is printed so on the next line |
| `PrintEffects.ContinuedLines` | app/src/main/java/app/virtshell/emulator/TerminalEmulator.java:2242-2251 | The line that is left is marked as wrapped, and the region scrolls at its end: every row of the screen |
| `PrintAndRead.PrintText` | app/src/main/java/app/virtshell/emulator/TerminalEmulator.java:2238-2271 | Printing characters of any width, with combining ones, on a plain terminal types them: it fills rows, wraps, scrolls and drops the oldest rows once the ring is full |
| `PrintAndRead.EndLine` | app/src/main/java/app/virtshell/emulator/TerminalEmulator.java:1221-1236 | CR LF ends the line, whether or not it scrolls, with the flag of a row that is used again |
| `PageReading.ReadPage` | app/src/main/java/app/virtshell/emulator/TerminalBuffer.java:62-116 | The transcript of a page whose rows fit the ring is the text of the page |
| `PageReading.ReadRows` | app/src/main/java/app/virtshell/emulator/TerminalBuffer.java:62-116 | Blank rows below do not show in the transcript |
| `PageReading.TypeLinesContent` | app/src/main/java/app/virtshell/emulator/TerminalBuffer.java:62-116 | The text of typed lines is the lines joined by newlines |
| `PrintAndRead.PrintThenRead` | app/src/main/java/app/virtshell/emulator/TerminalEmulator.java:2238-2271 | From a fresh terminal, printing lines of characters of any width that fit the ring, separated by CR LF, makes the transcript the text of those lines joined by newlines, however they wrapped and scrolled |
| `PrintAndRead.PrintedSize` | app/src/main/java/app/virtshell/emulator/TerminalEmulator.java:2238-2271 | The number of rows that lines take, by the widths of their characters |
| `PrintAndRead.ScreenTextIsLineIff` | app/src/main/java/app/virtshell/emulator/TerminalEmulator.java:2242-2251 | The text of a line on the screen is the line itself if and only if no double-width character comes where one column is left |
| `PrintAndRead.PrintAnything` | app/src/main/java/app/virtshell/emulator/TerminalEmulator.java:2238-2271 | The same for any lines, also more than the ring holds: the transcript has the last rows, joined where a row wrapped or the row used again had wrapped |
| `PrintAndRead.StaleFlag` | app/src/main/java/app/virtshell/emulator/TerminalRow.java:140-145 | A run after which the blank line revealed by a line feed counts as wrapped |
| `PrintAndRead.StaleFlagJoinsLines` | app/src/main/java/app/virtshell/emulator/TerminalBuffer.java:62-116 | A run after which two separate lines are one in the transcript |
| `CursorMoves.NextStop` | app/src/main/java/app/virtshell/emulator/TerminalEmulator.java:947-952 | The n-th tab stop to the right, by counting stops, or the last column if there are fewer |
| `CursorMoves.PreviousStop` | app/src/main/java/app/virtshell/emulator/TerminalEmulator.java:1528-1539 | The n-th tab stop to the left, by counting stops, or the first column if there are fewer |
| `CursorMoves.BackspaceAfterPrint` | app/src/main/java/app/virtshell/emulator/TerminalEmulator.java:506-517 | A backspace after a width-1 character brings the cursor back if and only if it was not in the last column |
| `CursorEffects.PlainMoves` | app/src/main/java/app/virtshell/emulator/TerminalEmulator.java:1398-1420 | CUU, CUD, CUF, CUB, CHA, VPA and CR: the line and the column, at the edges too, and that nothing else changes; origin mode does not matter |
| `CursorEffects.RegionMoves` | app/src/main/java/app/virtshell/emulator/TerminalEmulator.java:1411-1423 | CUP, CNL, CPL, HPA and VPR: the line of the region, in origin mode counted from the top margin, or the nearest one, and the column |
| `CursorEffects.IntPositionReached` | app/src/main/java/app/virtshell/emulator/TerminalEmulator.java:2004-2013 | The same position in 32-bit arithmetic, where a line too far down counts as above the region |
| `CursorEffects.ColumnKeepsLineIff` | app/src/main/java/app/virtshell/emulator/TerminalEmulator.java:2285-2287 | HPA keeps the line if and only if not in origin mode, or without a top margin and not below the region, or on its last line |
| `CursorEffects.LinesDownIff` | app/src/main/java/app/virtshell/emulator/TerminalEmulator.java:1411-1413 | CNL and VPR go n lines down if and only if not in origin mode, or without a top margin, or to the last line |
| `CursorEffects.MarginsSet` | app/src/main/java/app/virtshell/emulator/TerminalEmulator.java:1608-1622 | DECSTBM: the first and last line of the region for all arguments, and the cursor at its beginning or that of the screen |
| `CursorEffects.OriginSet` | app/src/main/java/app/virtshell/emulator/TerminalEmulator.java:1064-1066 | DECOM: the cursor goes to the beginning of the region when the mode is set, and stays when it is reset |
| `CursorEffects.LowerLeftMissed` | app/src/main/java/app/virtshell/emulator/TerminalEmulator.java:1300-1302 | ESC F never reaches the lower left corner |
| `ScreenEffects.HistoryErasedBy` | app/src/main/java/app/virtshell/emulator/TerminalEmulator.java:1442-1444 | ED 3 empties the history and leaves the screen |
| `ScreenEffects.LineFedBy` | app/src/main/java/app/virtshell/emulator/TerminalEmulator.java:1221-1236 | LF and NEL with margins: the text of every cell and the cursor, at the last line of the region, below it and elsewhere |
| `ScreenEffects.ReverseIndexedBy` | app/src/main/java/app/virtshell/emulator/TerminalEmulator.java:1306-1315 | RI: the line before, or every cell of the region moved down |
| `ScreenEffects.AlternateEntered` | app/src/main/java/app/virtshell/emulator/TerminalEmulator.java:1098-1124 | The alternate screen is blank on entry, the cursor and modes are saved, the main screen is unchanged |
| `ScreenEffects.AlternateLeft` | app/src/main/java/app/virtshell/emulator/TerminalEmulator.java:1098-1124 | Leaving it brings back the main screen and what was saved |
| `ScreenEffects.FullResetBy` | app/src/main/java/app/virtshell/emulator/TerminalEmulator.java:2305-2340 | RIS: every cell blank, no history, all modes, margins and tab stops reset, and where the cursor is |
| `ScreenEffects.FullResetHomeIff` | app/src/main/java/app/virtshell/emulator/TerminalEmulator.java:2305-2309 | The cursor is on the first line after RIS if and only if not in origin mode with a top margin |
| `ScreenEffects.SoftResetBy` | app/src/main/java/app/virtshell/emulator/TerminalEmulator.java:2310-2340 | DECSTR: all modes, margins, tab stops and colours reset; screens, cursor and effect stay |
| `ScreenEffects.SaveThenRestore` | app/src/main/java/app/virtshell/emulator/TerminalEmulator.java:1343-1368 | What DECSC saved, DECRC brings back after anything that leaves it alone |
| `ScreenEffects.TabbedBy` | app/src/main/java/app/virtshell/emulator/TerminalEmulator.java:947-952 | HT, CHT and CBT: the n-th tab stop by counting stops; HT and CBT keep the pending wrap |
| `ScreenEffects.BackspacedBy` | app/src/main/java/app/virtshell/emulator/TerminalEmulator.java:506-517 | BS: to the left, or back to the end of a wrapped line, which is then no longer wrapped |
| `TerminalEmulators.TerminalEmulator.constructor` | app/src/main/java/app/virtshell/emulator/TerminalEmulator.java:304-312 | A new object is in the initial state of the state machine |
| `TerminalEmulators.TerminalEmulator.Execute` | app/src/main/java/app/virtshell/emulator/TerminalEmulator.java:496-562 | Every operation changes the object as the state machine says, with both buffers valid and disjoint |
| `TerminalEmulators.TerminalEmulator.FindNextTabStop` | app/src/main/java/app/virtshell/emulator/TerminalEmulator.java:947-952 | The loop ends at the tab stop to the right of the cursor with n - 1 stops between, or at the last column if there are fewer than n |
| `TerminalEmulators.TerminalEmulator.FindPreviousTabStop` | app/src/main/java/app/virtshell/emulator/TerminalEmulator.java:1528-1539 | The loop ends at the tab stop to the left of the cursor with n - 1 stops between, or at column 0 if there are fewer than n |
| `TerminalEmulators.TerminalEmulator.LeaveAlt` | app/src/main/java/app/virtshell/emulator/TerminalEmulator.java:1098-1124 | Back to the main screen, with the cursor not limited before a resize |
| `TerminalEmulators.TerminalEmulator.Resize` | app/src/main/java/app/virtshell/emulator/TerminalEmulator.java:346-379 | The object is resized as the state machine says |
| `EmulatorRuns.ExecuteAll` | app/src/main/java/app/virtshell/emulator/TerminalEmulator.java:496-562 | A list of operations takes the object through the run of the state machine |
| `EmulatorRuns.PrintLinesAndRead` | app/src/main/java/app/virtshell/emulator/TerminalBuffer.java:62-116 | A new object that executes the printing of lines returns from getTranscriptText those lines joined by newlines, if they fit, and otherwise the last rows |
| `EmulatorRuns.VisitAlternateScreen` | app/src/main/java/app/virtshell/emulator/TerminalEmulator.java:1098-1124 | The object comes back from the alternate screen with the main buffer and what DECSC saves as before |
| `EscapeParser.Process` | app/src/main/java/app/virtshell/emulator/TerminalEmulator.java:496-829 | Every code point in every state of the parser keeps its arguments and collected text within bounds and asks only for operations that are legal in every state; the sequences of LeftOut ask for none (what each sequence does: EscapeSequences) |
| `EscapeParser.ParserAlone` | app/src/main/java/app/virtshell/emulator/TerminalEmulator.java:496-829 | The next state of the parser depends on its state and the code point alone, so a caller can tell beforehand which code points complete a left-out sequence |
| `EscapeParser.ProcessInGround` | app/src/main/java/app/virtshell/emulator/TerminalEmulator.java:561-565 | Outside of sequences, printable characters are printed and line ends are line ends |
| `EscapeParser.CancelEndsAll` | app/src/main/java/app/virtshell/emulator/TerminalEmulator.java:542-549 | CAN and SUB end every sequence |
| `EscapeParser.ParseNumbers` | app/src/main/java/app/virtshell/emulator/TerminalEmulator.java:2028-2051 | Up to sixteen numbers in decimal notation, separated by semicolons, are read as these numbers if and only if all are ints of 32 bits |
| `EscapeParser.SimpleIsLegal` | app/src/main/java/app/virtshell/emulator/TerminalEmulator.java:496-829 | Such operations are a legal run from every state that meets the invariant |
| `EmulatorBytes.FeedBytes` | app/src/main/java/app/virtshell/emulator/TerminalEmulator.java:426-494 | Decoding, parsing and stepping any bytes in 32-bit arithmetic keeps the invariants of decoder and parser, and that of the terminal until the cursor has left the screen or a left-out sequence has been completed |
| `EmulatorBytes.EveryByteSequence` | app/src/main/java/app/virtshell/emulator/TerminalEmulator.java:426-829 | After every sequence of bytes sent to a new terminal: unless the cursor has left the screen or a left-out sequence (DECLRMM switched on, recalled modes, DECSED, DECSEL, rectangles, DECDC) has been completed, the cursor is on the screen, the margins are in order and both buffers are valid |
| `ScreenExits.BytesLeaveScreenIff` | app/src/main/java/app/virtshell/emulator/TerminalEmulator.java:426-829 | The cursor leaves the screen if and only if a decoded code point completes a CUD or CUF whose argument plus the cursor is no int and none before it completes a left-out sequence; and the model ends at a left-out sequence if and only if one is completed before any such CUD or CUF |
| `ScreenExits.LeavesScreenIff` | app/src/main/java/app/virtshell/emulator/TerminalEmulator.java:496-829 | The same for any code points and any state of parser and terminal |
| `ScreenExits.StaysOn` | app/src/main/java/app/virtshell/emulator/TerminalEmulator.java:496-829 | The screen is on, and the parser where the code points alone lead it, if and only if neither has come |
| `ScreenExits.DownSequence` | app/src/main/java/app/virtshell/emulator/TerminalEmulator.java:1401-1403 | The bytes ESC [ n B, for any int n in decimal notation, are CUD n in 32-bit arithmetic |
| `ScreenExits.FarDownBytes` | app/src/main/java/app/virtshell/emulator/TerminalEmulator.java:1401-1403 | LF and ESC [ 2147483647 B on two rows: the cursor is off the screen |
| `ScreenExits.MarginModeLeftOut` | app/src/main/java/app/virtshell/emulator/TerminalEmulator.java:1074-1079 | ESC [ ? 69 h completes a left-out sequence |
| `EscapeSequences.SentIsFed` | app/src/main/java/app/virtshell/emulator/TerminalEmulator.java:426-494 | Such bytes go through decoder, parser and terminal as the next rows say |
| `EscapeSequences.EraseInLineSequence` | app/src/main/java/app/virtshell/emulator/TerminalEmulator.java:1451-1467 | ESC [ n K: exactly the cells of EL become blank; cursor and modes stay |
| `EscapeSequences.EraseInDisplaySequence` | app/src/main/java/app/virtshell/emulator/TerminalEmulator.java:1427-1450 | ESC [ n J: exactly the cells of ED become blank; cursor and modes stay |
| `EscapeSequences.EraseHistorySequence` | app/src/main/java/app/virtshell/emulator/TerminalEmulator.java:1442-1450 | ESC [ 3 J empties the history |
| `EscapeSequences.EraseCharactersSequence` | app/src/main/java/app/virtshell/emulator/TerminalEmulator.java:1524-1527 | ESC [ n X: exactly the cells of ECH become blank |
| `EscapeSequences.InsertCharactersSequence` | app/src/main/java/app/virtshell/emulator/TerminalEmulator.java:1388-1397 | ESC [ n @: every cell after ICH |
| `EscapeSequences.DeleteCharactersSequence` | app/src/main/java/app/virtshell/emulator/TerminalEmulator.java:1487-1501 | ESC [ n P: every cell after DCH |
| `EscapeSequences.InsertLinesSequence` | app/src/main/java/app/virtshell/emulator/TerminalEmulator.java:1468-1476 | ESC [ n L: every cell after IL |
| `EscapeSequences.DeleteLinesSequence` | app/src/main/java/app/virtshell/emulator/TerminalEmulator.java:1477-1486 | ESC [ n M: every cell after DL |
| `EscapeSequences.ScrollUpSequence` | app/src/main/java/app/virtshell/emulator/TerminalEmulator.java:1502-1507 | ESC [ n S: every cell after SU |
| `EscapeSequences.ScrollDownSequence` | app/src/main/java/app/virtshell/emulator/TerminalEmulator.java:1508-1523 | ESC [ n T with at most one argument: every cell after SD |
| `EscapeSequences.UpSequence` | app/src/main/java/app/virtshell/emulator/TerminalEmulator.java:1398-1400 | ESC [ n A: the cursor n lines up |
| `EscapeSequences.LinesDownSequence` | app/src/main/java/app/virtshell/emulator/TerminalEmulator.java:1401-1403 | ESC [ n B: n lines down, where the sum is an int |
| `EscapeSequences.RightSequence` | app/src/main/java/app/virtshell/emulator/TerminalEmulator.java:1404-1407 | ESC [ n C: n columns to the right, where the sum is an int |
| `EscapeSequences.RelativeRightSequence` | app/src/main/java/app/virtshell/emulator/TerminalEmulator.java:1404-1407 | ESC [ n a: the same |
| `EscapeSequences.LeftSequence` | app/src/main/java/app/virtshell/emulator/TerminalEmulator.java:1408-1410 | ESC [ n D: n columns to the left |
| `EscapeSequences.NextLineSequence` | app/src/main/java/app/virtshell/emulator/TerminalEmulator.java:1411-1413 | ESC [ n E, in origin mode and 32-bit arithmetic too |
| `EscapeSequences.PreviousLineSequence` | app/src/main/java/app/virtshell/emulator/TerminalEmulator.java:1414-1416 | ESC [ n F, in origin mode too |
| `EscapeSequences.ToColumnSequence` | app/src/main/java/app/virtshell/emulator/TerminalEmulator.java:1417-1419 | ESC [ n G: to column n |
| `EscapeSequences.PositionSequence` | app/src/main/java/app/virtshell/emulator/TerminalEmulator.java:1420-1423 | ESC [ y ; x H: to line y and column x, in origin mode and 32-bit arithmetic too |
| `EscapeSequences.OtherPositionSequence` | app/src/main/java/app/virtshell/emulator/TerminalEmulator.java:1420-1423 | ESC [ y ; x f: the same |
| `EscapeSequences.ToColumnInRegionSequence` | app/src/main/java/app/virtshell/emulator/TerminalEmulator.java:1546-1548 | ESC [ n `: to column n, and to another line in origin mode |
| `EscapeSequences.ToLineSequence` | app/src/main/java/app/virtshell/emulator/TerminalEmulator.java:1560-1562 | ESC [ n d: to line n |
| `EscapeSequences.RelativeLineSequence` | app/src/main/java/app/virtshell/emulator/TerminalEmulator.java:1563-1565 | ESC [ n e, in origin mode and 32-bit arithmetic too |
| `EscapeSequences.MarginsSequence` | app/src/main/java/app/virtshell/emulator/TerminalEmulator.java:1608-1622 | ESC [ y1 ; y2 r: the region and the cursor |
| `EscapeSequences.ForwardTabsSequence` | app/src/main/java/app/virtshell/emulator/TerminalEmulator.java:1424-1426 | ESC [ n I: the n-th tab stop to the right |
| `EscapeSequences.BackTabsSequence` | app/src/main/java/app/virtshell/emulator/TerminalEmulator.java:1528-1539 | ESC [ n Z: the n-th tab stop to the left |
| `EscapeSequences.ClearTabsSequence` | app/src/main/java/app/virtshell/emulator/TerminalEmulator.java:1567-1581 | ESC [ n g: which tab stops are left |
| `EscapeSequences.InsertModeSequence` | app/src/main/java/app/virtshell/emulator/TerminalEmulator.java:1582-1587 | ESC [ 4 h and l: insert mode |
| `EscapeSequences.StyleSequence` | app/src/main/java/app/virtshell/emulator/TerminalEmulator.java:1588-1590 | ESC [ ns m: the style that the table of attributes gives for these numbers |
| `EscapeSequences.RepeatSequence` | app/src/main/java/app/virtshell/emulator/TerminalEmulator.java:1549-1553 | ESC [ n b: the run that prints the last character n times |
| `EscapeSequences.OriginModeSequence` | app/src/main/java/app/virtshell/emulator/TerminalEmulator.java:1038-1066 | ESC [ ? 6 h and l: origin mode and the cursor |
| `EscapeSequences.AutowrapSequence` | app/src/main/java/app/virtshell/emulator/TerminalEmulator.java:1038-1067 | ESC [ ? 7 h and l: autowrap |
| `EscapeSequences.ColumnModeSequence` | app/src/main/java/app/virtshell/emulator/TerminalEmulator.java:1046-1059 | ESC [ ? 3 h and l: an empty screen without margins |
| `EscapeSequences.EnterAlternateSequence` | app/src/main/java/app/virtshell/emulator/TerminalEmulator.java:1098-1124 | ESC [ ? 1049 h, 1047 and 47: an empty alternate screen, with the cursor and modes saved |
| `EscapeSequences.LeaveAlternateSequence` | app/src/main/java/app/virtshell/emulator/TerminalEmulator.java:1098-1124 | ESC [ ? 1049 l, 1047 and 47: back to the main screen |
| `EscapeSequences.ModesInTurn` | app/src/main/java/app/virtshell/emulator/TerminalEmulator.java:996-1001 | Several private modes in one sequence are set one after the other |
| `EscapeSequences.SaveSequence` | app/src/main/java/app/virtshell/emulator/TerminalEmulator.java:1275-1277 | ESC 7 saves the cursor, style, modes and character sets |
| `EscapeSequences.RestoreSequence` | app/src/main/java/app/virtshell/emulator/TerminalEmulator.java:1278-1280 | ESC 8 brings them back |
| `EscapeSequences.OtherSaveSequences` | app/src/main/java/app/virtshell/emulator/TerminalEmulator.java:1623-1635 | ESC [ s, ESC [ u and ESC [ ? 1048 do the same |
| `EscapeSequences.IndexSequence` | app/src/main/java/app/virtshell/emulator/TerminalEmulator.java:1293-1295 | ESC D: the next line, or the region scrolls |
| `EscapeSequences.NextLineStartSequence` | app/src/main/java/app/virtshell/emulator/TerminalEmulator.java:1296-1299 | ESC E: the same from the first column |
| `EscapeSequences.ReverseIndexSequence` | app/src/main/java/app/virtshell/emulator/TerminalEmulator.java:1306-1315 | ESC M: the line before, or the region scrolls down |
| `EscapeSequences.FullResetSequence` | app/src/main/java/app/virtshell/emulator/TerminalEmulator.java:1290-1292 | ESC c: blank screen, no history, modes reset |
| `EscapeSequences.SetTabSequence` | app/src/main/java/app/virtshell/emulator/TerminalEmulator.java:1303-1305 | ESC H sets a tab stop |
| `EscapeSequences.LowerLeftSequence` | app/src/main/java/app/virtshell/emulator/TerminalEmulator.java:1300-1302 | ESC F: the first line |
| `EscapeSequences.BackIndexSequence` | app/src/main/java/app/virtshell/emulator/TerminalEmulator.java:1266-1274 | ESC 6: to the left, or the region moves |
| `EscapeSequences.ForwardIndexSequence` | app/src/main/java/app/virtshell/emulator/TerminalEmulator.java:1281-1289 | ESC 9: to the right, or the region moves |
| `EscapeSequences.AlignSequence` | app/src/main/java/app/virtshell/emulator/TerminalEmulator.java:1243-1247 | ESC # 8: the letter E in every cell |
| `EscapeSequences.CharacterSetSequence` | app/src/main/java/app/virtshell/emulator/TerminalEmulator.java:573-578 | ESC ( and ESC ): the line-drawing characters exactly for 0 |
| `EscapeSequences.SoftResetSequence` | app/src/main/java/app/virtshell/emulator/TerminalEmulator.java:582-588 | ESC [ ! p: modes reset |
| `EscapeSequences.InsertColumnsSequence` | app/src/main/java/app/virtshell/emulator/TerminalEmulator.java:735-741 | ESC [ n ' }: every cell after DECIC |
| `EscapeSequences.ControlCharacters` | app/src/main/java/app/virtshell/emulator/TerminalEmulator.java:528-541 | CR, LF, SO and SI, also in the middle of a sequence |
| `EscapeSequences.TabCharacter` | app/src/main/java/app/virtshell/emulator/TerminalEmulator.java:518-527 | HT: the next tab stop |
| `EscapeSequences.BackspaceCharacter` | app/src/main/java/app/virtshell/emulator/TerminalEmulator.java:506-517 | BS |
| `IntSteps.CursorLeavesScreen` | app/src/main/java/app/virtshell/emulator/TerminalEmulator.java:1401-1407 | One operation in 32-bit arithmetic puts the cursor off the screen if and only if it is such a CUD or CUF |
| `IntSteps.IntStepIsStep` | app/src/main/java/app/virtshell/emulator/TerminalEmulator.java:1401-1422 | It does what the state machine says if and only if no sum of position and argument exceeds an int |
| `IntSteps.FarDown` | app/src/main/java/app/virtshell/emulator/TerminalEmulator.java:1401-1403 | CUD with the largest int on the second row |
| `EscapeParser.OnlyTheseMove` | app/src/main/java/app/virtshell/emulator/TerminalEmulator.java:1371-1407 | CUD and CUF come from control sequences that end in B, C or a, with the first argument, and from nothing else |
| `EmulatorBytes.DecodeFirst` | app/src/main/java/app/virtshell/emulator/TerminalEmulator.java:426-494 | Byte by byte is the same as decoding everything first and then parsing |
| `EmulatorBytes.TextRuns` | app/src/main/java/app/virtshell/emulator/TerminalEmulator.java:426-565 | The bytes of lines of printable characters of any width cause exactly the run that prints these lines |
| `EmulatorBytes.BytesThenRead` | app/src/main/java/app/virtshell/emulator/TerminalEmulator.java:426-565 | The UTF-8 bytes of lines of characters of any width that fit the ring are read back from the transcript as the text of these lines |
| `Utf8Stream.Utf8Decoder.ProcessByte` | app/src/main/java/app/virtshell/emulator/TerminalEmulator.java:431-494 | One byte: new state and what is delivered; the 4-byte buffer is not overrun, and the self-call ends at depth one |
| `Utf8Stream.Utf8Decoder.Append` | app/src/main/java/app/virtshell/emulator/TerminalEmulator.java:426-429 | A chunk of bytes is decoded as the fold of its bytes |
| `Utf8Stream.ChunksDoNotMatter` | app/src/main/java/app/virtshell/emulator/TerminalEmulator.java:426-429 | Bytes cut into any chunks are decoded like the whole |
| `Utf8Stream.GatherIsValue` | app/src/main/java/app/virtshell/emulator/TerminalEmulator.java:437-440 | The bits put together are the value of the sequence |
| `Utf8Stream.RoundTripInChunks` | app/src/main/java/app/virtshell/emulator/TerminalEmulator.java:431-494 | Encoding any scalar values and feeding the bytes in any chunks delivers them without C1 controls, unassigned ones replaced |
| `Utf8Stream.TextAfterAnything` | app/src/main/java/app/virtshell/emulator/TerminalEmulator.java:464-476 | Text after arbitrary bytes is decoded in full; an incomplete sequence before it leaves one replacement character |
| `Utf8Stream.AtMostOnePerByte` | app/src/main/java/app/virtshell/emulator/TerminalEmulator.java:431-494 | No more code points are delivered than bytes fed |
| `Utf8Stream.OverlongExactly` | app/src/main/java/app/virtshell/emulator/TerminalEmulator.java:441-445 | The test finds the overlong sequences except those of 7FF in three bytes and FFFF in four |
| `Utf8Stream.OverlongExample` | app/src/main/java/app/virtshell/emulator/TerminalEmulator.java:441-445 | E0 9F BF is delivered as 7FF |
| `ByteQueues.ByteQueue.Take` | app/src/main/java/app/virtshell/emulator/ByteQueue.java:56-71 | Exactly min(destination, stored) bytes are taken off the front, in order and across the end of the buffer |
| `ByteQueues.ByteQueue.Put` | app/src/main/java/app/virtshell/emulator/ByteQueue.java:104-124 | The bytes are appended at the back, across the end of the buffer |
| `ByteQueues.ByteQueue.Read` | app/src/main/java/app/virtshell/emulator/ByteQueue.java:42-74 | The part of read between taking and releasing the lock |
| `ByteQueues.ByteQueue.Write` | app/src/main/java/app/virtshell/emulator/ByteQueue.java:90-128 | The part of write between taking and releasing the lock, and where it resumes |
| `ByteQueues.ByteQueue.Close` | app/src/main/java/app/virtshell/emulator/ByteQueue.java:37-40 | The queue is closed, keeps its contents and one waiting thread is notified |
| `ByteQueues.CheckWrite` | app/src/main/java/app/virtshell/emulator/ByteQueue.java:82-86 | Exactly which arguments are accepted |
| `QueueThreads.StepConsistent` | app/src/main/java/app/virtshell/emulator/ByteQueue.java:42-129 | Every step of every interleaving keeps: delivered bytes followed by the contents are the accepted bytes |
| `QueueThreads.FirstInFirstOut` | app/src/main/java/app/virtshell/emulator/ByteQueue.java:42-129 | So in every run; and a call of write returns true if and only if all its bytes were accepted |
| `QueueThreads.DeliveredIsPrefix` | app/src/main/java/app/virtshell/emulator/ByteQueue.java:42-129 | In every run the bytes read are a prefix of the bytes of all calls of write in order, also across a close |
| `QueueThreads.StepWaits` | app/src/main/java/app/virtshell/emulator/ByteQueue.java:43-54 | Every step keeps: a waiting reader that is not notified has an empty open queue, a waiting writer a full open one |
| `QueueThreads.NoLostWakeups` | app/src/main/java/app/virtshell/emulator/ByteQueue.java:37-54 | That holds in all runs if and only if the capacity is at least one |
| `QueueThreads.BothWaitWithoutRoom` | app/src/main/java/app/virtshell/emulator/ByteQueue.java:37-40 | With capacity 0 both threads wait and close wakes only one |
| `QueueThreads.NeverBothWaiting` | app/src/main/java/app/virtshell/emulator/ByteQueue.java:37-54 | Reader and writer never wait un-notified together |
| `QueueThreads.Progress` | app/src/main/java/app/virtshell/emulator/ByteQueue.java:42-129 | When both threads are in a call, one of them can return or hand over a byte, in every reachable state |
| `MultibyteTable.BoundsAreGrammar` | native-packages/packages/libandroid-support/sources/src/musl-multibyte/internal.c:9-32 | The bounds packed in the state table accept exactly the second bytes of the grammar |
| `MultibyteTable.StateAfter4` | native-packages/packages/libandroid-support/sources/src/musl-multibyte/mbsrtowcs.c:75-84 | Shifting in the bytes of a four-byte sequence gives its value |
| `MultibyteTable.WordTest` | native-packages/packages/libandroid-support/sources/src/musl-multibyte/mbsrtowcs.c:60-60 | The test on a word holds if and only if all four bytes are in 01..7F |
| `Utf8.SequenceIsEncoding` | native-packages/packages/libandroid-support/sources/src/musl-multibyte/internal.c:9-32 | Every sequence of the grammar in section 4 of RFC 3629 (F4 widened) is the encoding of its value |
| `Utf8.EncodingIsSequence` | native-packages/packages/libandroid-support/sources/src/musl-multibyte/internal.c:9-32 | Every encoding follows the grammar and has its value |
| `MultibyteText.AcceptedTexts` | native-packages/packages/libandroid-support/sources/src/musl-multibyte/mbsrtowcs.c:91-100 | A text leaves nothing over if and only if it is the encoding of some characters |
| `MultibyteText.ParseUnique` | native-packages/packages/libandroid-support/sources/src/musl-multibyte/mbsrtowcs.c:54-100 | Characters and rest are determined by the text |
| `MultibyteText.TwoCalls` | native-packages/packages/libandroid-support/sources/src/musl-multibyte/mbsrtowcs.c:55-58 | A call for m characters and one for n where it stopped amount to one call for m + n |
| `MultibyteText.CallsConcatenate` | native-packages/packages/libandroid-support/sources/src/musl-multibyte/mbsrtowcs.c:55-58 | Any series of short calls amounts to one long call |
| `Mbsrtowcs.NextWide` | native-packages/packages/libandroid-support/sources/src/musl-multibyte/mbsrtowcs.c:73-84 | A character that is not ASCII is read if and only if its encoding stands there; otherwise the pointer is at its first byte |
| `Mbsrtowcs.SkipWide` | native-packages/packages/libandroid-support/sources/src/musl-multibyte/mbsrtowcs.c:39-51 | The same for the counting loop, which follows the bits of the state |
| `Mbsrtowcs.StoreWords` | native-packages/packages/libandroid-support/sources/src/musl-multibyte/mbsrtowcs.c:59-67 | The four-at-a-time loop stores exactly the ASCII characters it skips, and reads only words that hold part of the string |
| `Mbsrtowcs.Store` | native-packages/packages/libandroid-support/sources/src/musl-multibyte/mbsrtowcs.c:54-100 | The storing call: characters written, terminator, returned count and source pointer for complete, full and illegal; at most wn elements are written |
| `Mbsrtowcs.Count` | native-packages/packages/libandroid-support/sources/src/musl-multibyte/mbsrtowcs.c:27-53 | The counting call returns the number of characters, or an error exactly for a text with a rest |
| `Mbsrtowcs.CountIsStore` | native-packages/packages/libandroid-support/sources/src/musl-multibyte/mbsrtowcs.c:27-100 | With more room than characters, the storing call returns n if and only if the counting call does, and fails if and only if it fails |
| `Mbsrtowcs.CountThenStore` | native-packages/packages/libandroid-support/sources/src/musl-multibyte/mbsrtowcs.c:27-100 | Counting, making room and storing gives the characters whose encoding is the text, and fails if and only if there are none |
| `Transcoding.Get16Put16` | native-packages/packages/libandroid-support/sources/src/musl-locale/iconv.c:126-137 | Reading back a written 16-bit unit in either byte order |
| `Transcoding.Put32Get32` | native-packages/packages/libandroid-support/sources/src/musl-locale/iconv.c:139-152 | Writing again a 32-bit unit that was read, for every value of the order bits |
| `Transcoding.GetPut` | native-packages/packages/libandroid-support/sources/src/musl-locale/iconv.c:195-219 | A scalar value that is written is read back, whatever follows |
| `Transcoding.PutGet` | native-packages/packages/libandroid-support/sources/src/musl-locale/iconv.c:195-219 | What is read is a scalar value whose encoding is the input |
| `Transcoding.Utf16BeBytes` | native-packages/packages/libandroid-support/sources/src/musl-locale/iconv.c:413-428 | The bytes written for UTF-16BE: one unit, or the two surrogates of section 2.1 of RFC 2781, high byte first |
| `Transcoding.Utf16LeBytes` | native-packages/packages/libandroid-support/sources/src/musl-locale/iconv.c:413-428 | UTF-16LE: the bytes of every unit swapped |
| `Transcoding.Utf32Bytes` | native-packages/packages/libandroid-support/sources/src/musl-locale/iconv.c:429-440 | UTF-32: four bytes, most significant first, or reversed |
| `Transcoding.Utf16Read` | native-packages/packages/libandroid-support/sources/src/musl-locale/iconv.c:203-219 | Which units are characters, errors or ask for more input, and the value of a pair of surrogates |
| `Transcoding.Utf32Read` | native-packages/packages/libandroid-support/sources/src/musl-locale/iconv.c:195-202 | Which words are characters, errors or ask for more input |
| `Iconv.Run` | native-packages/packages/libandroid-support/sources/src/musl-locale/iconv.c:176-219 | The loop over input and output pointers with its three errors does the conversion and touches only the output it reports |
| `Iconv.ConvertsScalars` | native-packages/packages/libandroid-support/sources/src/musl-locale/iconv.c:413-440 | The encoding of scalar values in one form is converted to their encoding in the other, with just enough room |
| `Iconv.RoundTrip` | native-packages/packages/libandroid-support/sources/src/musl-locale/iconv.c:176-219 | To another form and back, in any byte orders, is the identity on scalar values |
| `Iconv.ConvertedScalars` | native-packages/packages/libandroid-support/sources/src/musl-locale/iconv.c:176-219 | What any call has consumed and written encodes the same scalar values |
| `Iconv.Resume` | native-packages/packages/libandroid-support/sources/src/musl-locale/iconv.c:441-456 | A call stopped by full output, truncated input or an error can be taken up with more input and room: the same as one call |
| `Iconv.SessionIsOneCall` | native-packages/packages/libandroid-support/sources/src/musl-locale/iconv.c:441-456 | Any series of interrupted calls amounts to one call on all the input |
| `Iconv.FinishedSession` | native-packages/packages/libandroid-support/sources/src/musl-locale/iconv.c:441-456 | When all input is converted, all output is that of one call |
| `MissingValues.CountEntries` | native-packages/packages/libandroid-support/sources/src/musl-locale/iconv.c:283-288 | The nested loops with the unsigned comparison count the table entries between two bounds |
| `MissingValues.Select` | native-packages/packages/libandroid-support/sources/src/musl-locale/iconv.c:282-291 | The loop ends at a value not in the table; for distinct entries exactly the starting number of missing values lie below it |
| `MissingValues.MissingIncreases` | native-packages/packages/libandroid-support/sources/src/musl-locale/iconv.c:282-291 | The selected value grows strictly with the number, so it is unique |
| `MissingValues.DecodeGb` | native-packages/packages/libandroid-support/sources/src/musl-locale/iconv.c:259-297 | A whole code: when more input is needed, which two-byte and four-byte codes are accepted, the value of each for the number that CodeNumbers.GbCounts describes, and exactly when it is a code point |
| `MissingValues.GbCollisions` | native-packages/packages/libandroid-support/sources/src/musl-locale/iconv.c:274-281 | Two codes have the same number if and only if they are equal or one has third byte FF and carries to the other |
| `MissingValues.GbOwnNumber` | native-packages/packages/libandroid-support/sources/src/musl-locale/iconv.c:276-276 | A code shares its number if and only if its third byte is FF, and it is not FE 39, or 81, and it is not 81 30 |
| `MissingValues.GbExample` | native-packages/packages/libandroid-support/sources/src/musl-locale/iconv.c:276-276 | 81 30 FF 30 and 81 31 81 30 have the same number |
| `CodeNumbers.GbCounts` | native-packages/packages/libandroid-support/sources/src/musl-locale/iconv.c:269-281 | For third bytes up to FE, the number of a four-byte code is 128 more than the number of such codes before it |
| `CodeNumbers.ColumnCounts` | native-packages/packages/libandroid-support/sources/src/musl-locale/iconv.c:292-297 | The column of a two-byte code is the number of second bytes before its own |
| `MissingValues.GbValues` | native-packages/packages/libandroid-support/sources/src/musl-locale/iconv.c:274-291 | The values are in the order of the numbers, in no two-byte table, and equal only for codes that collide |
| `MissingValues.GbWithinUnicode` | native-packages/packages/libandroid-support/sources/src/musl-locale/iconv.c:282-291 | The selected value is at most 10FFFF if and only if the number and the size of the table are together at most 10FFFF |
| `MissingValues.GbBeyondUnicode` | native-packages/packages/libandroid-support/sources/src/musl-locale/iconv.c:274-291 | The value of FE 39 FE 39 is beyond the last code point, whatever the table holds |
| `MissingValues.DecodeKr` | native-packages/packages/libandroid-support/sources/src/musl-locale/iconv.c:341-363 | Extended EUC-KR codes: which are accepted, and the selected value for the number that CodeNumbers.KrCounts describes |
| `CodeNumbers.ExtendedCodes` | native-packages/packages/libandroid-support/sources/src/musl-locale/iconv.c:342-349 | Exactly which pairs of bytes are extended codes, as ranges of both bytes |
| `CodeNumbers.KrCounts` | native-packages/packages/libandroid-support/sources/src/musl-locale/iconv.c:341-352 | For lead bytes up to C6, the number of an extended code is AC00 plus the number of accepted extended codes before it |
| `CodeNumbers.LastKr` | native-packages/packages/libandroid-support/sources/src/musl-locale/iconv.c:341-352 | The numbers run through AC00 and the 8821 after it |
| `MissingValues.KrIncreases` | native-packages/packages/libandroid-support/sources/src/musl-locale/iconv.c:342-352 | The numbers of extended codes increase strictly with the code |
| `MissingValues.KrValues` | native-packages/packages/libandroid-support/sources/src/musl-locale/iconv.c:350-362 | No two extended codes have the same value and none has a value of the table |
| `BuildOrder.ReadNeededBy` | native-packages/scripts/buildorder.py:108-113 | needed_by is the reverse of deps, or an error exactly if a dependency does not exist |
| `BuildOrder.GenerateFullBuildOrder` | native-packages/scripts/buildorder.py:117-162 | An order is returned if and only if the graph is not empty and has no cycle; it has every package once and after its dependencies; no package is entered in the queue twice; otherwise the rest is stuck |
| `BuildOrder.LookAtAll` | native-packages/scripts/buildorder.py:147-152 | The inner loop keeps the queue invariant |
| `Dependencies.OrderedIsAcyclic` | native-packages/scripts/buildorder.py:154-162 | A complete list with dependencies first excludes cycles |
| `Dependencies.StuckIsCyclic` | native-packages/scripts/buildorder.py:154-160 | Packages that all depend on one of them contain a cycle |
| `BuildOrder.UniqueEverseen` | native-packages/scripts/buildorder.py:10-27 | The loop with the set of seen names keeps the first occurrences |
| `BuildOrder.FirstOccurrencesOrdered` | native-packages/scripts/buildorder.py:10-27 | Removing later occurrences keeps dependencies first |
| `BuildOrder.RecursiveDependencies` | native-packages/scripts/buildorder.py:82-89 | On an acyclic graph it ends and lists exactly the transitive dependencies, once each, each after its own, never the package itself |

## Left out

- DECLRMM with left and right margins, DECDC, DECCARA, DECRARA, DECCRA, DECFRA, DECERA and the selective erasures DECSED, DECSEL and DECSERA: the margins are always the whole width.
- EscapeParser.Process: asks for no operation where EscapeParser.LeftOut holds: a sequence of the line above or a recalled mode is completed.
- EmulatorBytes.FeedBytes: says nothing about the screen from the first left-out sequence on.
- EmulatorBytes.EveryByteSequence: says nothing about the screen from the first left-out sequence on, and DECLRMM is the reason why it could not: with it the cursor can leave the screen, and a double-width character can meet the last column.
- ScreenExits.LeavesScreenIff: says of left-out sequences only when the first one is completed.
- The effects of OSC and DCS strings and the exceptions that malformed ones throw, mouse and focus reports, titles, colours; SGR is an operation that sets colours and effect, chosen by a table that is a parameter.
- Recalling saved private modes (CSI ? r with mode 6, 7 or 69) and cursor styles.
- PackedRows.PackedRow.SetChar: the number of Java characters is not limited to the range of Java's short, as the source itself notes no limit of combining characters; the exception for a double-width character in the last column is a precondition; a row of one column, which the emulator rejects, is excluded.
- TerminalBuffers.TerminalBuffer holds rows of cells; that a row of Java characters does the same is proved for the row alone.
- The widths of code points and the set of unassigned ones: tables that are parameters, with widths of at most 2.
- IllegalArgumentException of the buffer methods: their conditions are preconditions, which the proof of the emulator establishes for every call.
- A window of fewer than two rows or columns, which the emulator rejects.
- TerminalState.Run: arguments are unbounded, and IntSteps.IntStepIsStep says exactly when 32-bit arithmetic gives the same; excludes a window with more rows than the ring of 5000 rows, which the source says should not happen (TerminalBuffer.java:175): two rows of the screen would be one object, exactly then, by Rotation.DistinctRowsIff.
- TerminalState.EveryRun: arguments are unbounded likewise; excludes a window with more rows than the ring, for the same reason.
- TerminalEmulators.TerminalEmulator.Execute: arguments are unbounded likewise.
- TerminalState.ResizeTerminal: excludes a window with more rows than the ring, for the same reason.
- TerminalBuffers.TerminalBuffer.Resize: excludes a screen with more rows than the ring, for the same reason.
- TerminalEmulators.TerminalEmulator.Resize: excludes a window with more rows than the ring, for the same reason.
- ScreenExits.BytesLeaveScreenIff: for windows of at most 2^30 rows and columns, and of left-out sequences only when the first one is completed.
- Selections of part of the text: only getTranscriptText is modelled.
- PrintAndRead.PrintThenRead: for lines that begin with no combining character, printed with default modes; what one character leaves in all other states is PrintEffects.PrintedHere and PrintEffects.PrintedOnNextLine.
- KeptLines.ReflowKeepsLinesIff: for rows in which no space is stored as a double-width character, and rows that fit the ring; for all rows and rings the new rows are those of Retyping.ReflowRetypes.
- PrintAndResize.ResizeAfterPrinting: states that these conditions suffice; that they are needed as well is KeptLines.ReflowKeepsLinesIff.
- ResizeCursors.SlowCursorIff: speaks of the place where the character was written; another cell may hold the same character.
- EscapeSequences.PositionSequence, and those with a sum of cursor and argument: for windows of at most 2^30 rows and columns.
- EscapeSequences.StyleSequence: the attributes are a table that is a parameter.
- The table of line-drawing characters is part of the model, but nothing is proved about its entries.
- ReflowText.ReflowKeepsText: speaks of characters other than spaces, because spaces at the end of lines are not kept.
- ByteQueues.ByteQueue.Write: a negative offset, for which Java's array copy throws, is excluded.
- mbsrtowcs with a pending state from an earlier call, and the wrap-around of its counters at the size of an address.
- iconv for UTF-8, UCS-2, WCHAR_T, ASCII, the legacy code pages and the other CJK encodings: the tables are parameters, and functions it needs are not part of this model.
- Reading build scripts, the printing of errors, and the order of the packages beyond what the dependencies demand.
