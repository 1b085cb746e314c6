# Models of four parts of the repository

Dafny models of four parts that keep mutable state, with proofs about what every step keeps, what
whole runs do and where the code falls short of it.

**The terminal's document editor** (`Grid`, `Document`, `Landing`, `Walk`, `Arriving`, `Erasing`,
`RowEdits`, `Spans`, `Shuffling`, `Styles`, `Sgr`, `Inks`, `Scanner`, `Sequences`, `Slips`, `Streams`,
`Sheets`, `Tracks`, `Counting`, `Wrapping`, `Terminal`, `Tree`). The document inside the
home block is a sequence of tokens in document order (text, br, the beginning and the end of a
span), split at the input line; `Tree` shows that every such document is the order of a node tree
and that the recursive count over the tree is the recount used everywhere else. A document shows a
sequence of cells, each a character with the styles of the spans around it, and `Rows` cuts the
cells into rows. `Landing` says where a move really ends, `Walk` is the loop of `moveTo`, and the
class `Terminal` has the fields and the operations of the source. Its ghost field `slip` is the
first step that has left a wrong coordinate in the cache, either a move that is not safe or text
that was taken to end in a wrong column; `Valid` says that until then every cached coordinate is
unknown or equal to the recount, and that a slip is never noted without being one. Every operation
says exactly when it slips. `Sheets` has the shape of the screen, that is the widths of its rows and
the cursor's place, and `Tracks.Follow` is a function that follows a stream of output on that shape
alone, until a move does not reach its goal: `InsertString` ends where it ends, and slips if and
only if it does, for every stream of which that can be told (`Tracks.AllIsTold`). `Inks.Writes` is the
text that a stream writes, each character in the styles wanted at that point. `Valid` ties the
spans around the cursor to `currentStyles` while nothing is to be adjusted, the ghost field `inked`
is the text with the styles it was really put in, and `astray` counts the prints in other styles:
none as long as every span has a style (`bare`).

**The GL trace** (`Wire`, `Records`, `RoundTrip`, `Traces`, `TraceWriter`, `GlRecorder`,
`TraceReader`, `Threads`, `Handles`, `Replay`). `Wire` has the fields of a record with what each
put appends and what each get takes off; `Records` has one call of every record shape, the fields
it is recorded as and the abstract decoder; `RoundTrip` and `Traces` prove that recorded calls are
read back. `TraceWriter` and `GlRecorder` are the recorder with its window, `TraceReader` the
decoder with its moving pointer. `Threads` is the recorder as a state machine over the steps of
any number of threads, with calls that the driver makes inside other calls. `Handles` and `Replay`
are the handle maps of a replay.

**The mesh generators** (`MeshGrid`, `MeshViewer`, `PNTMeshViewer`). The loops that fill the
arrays of a triangulated grid, for any numbers of subdivisions. Floats are a type parameter and
their functions are parameters. `Division`, `Int32` and `Options` are shared by
several parts.

**The slide show** (`SlideShow`). The list of files with its position, and the three slots with
the loadings of the current file and its neighbours.

## Where the code falls short

- `moveTo` past the last row fills up from the column of the old row, so the cached column is
  wrong unless the goal is column 0 or the last row ends at column 0 (`Landing.LandsRightIffSafe`,
  `Landing.LineFeedPastTheEnd`).
- A backspace leaves the cached column at -1 if the cursor is in column 0 of a row below the first
  and the document ends, but for the ends of spans, with the break in front of that row; so does one
  that takes a character over to the right while the column is unknown. Both ways of it are in
  `Terminal.Terminal.Backspace`, for every state. -1 means unknown, so nothing is wrong yet, but
  `insertString` goes on counting from there, and text that is printed next is cached as ending one
  or more columns too far left (`Terminal.Terminal.BackspaceAtTheEnd`).
- `cursorLeft` gives up its short cut at the letter t, where a tab was meant; the plain move that
  follows is right all the same.
- `adjustStyle` counts styled spans only but leaves spans of any kind, so an unwanted style can
  stay (`Styles.AdjustedIsWanted`, `Styles.WrongSpanLeft`), and text is then printed in it
  (`Terminal.Terminal.InsertSimpleOutput`).
- `getFloatPtr` does not pass the second word of a null or marker value
  (`Wire.FloatPtrReadBack`); the names of attached shaders are passed only in a replay; more than
  thirty-one attribute pairs are refused. `RoundTrip.Readable` is the condition, and
  `RoundTrip.ReadBackIffReadable` says that it is exact.
- A null string reads back as the empty one, an empty block as null, a shader length that is not
  positive as -1, and a four-byte pointer sign-extended: these are the canonical forms of
  `RoundTrip.Canon`.
- `glUniform4fv` records count floats of the 4 * count it is given: what is recorded reads back.
- A buffer binding is noted after the lock has been given back, so a draw call on another thread
  can be laid out by the old binding (`Threads.RaceIsNotFramed`, with the exact condition in
  `Threads.FramedIff`).
- A replay that uses a surface or context before any was created looks it up in a map that does
  not exist (`Replay.NoMap`).
- Reloading an image that is still being loaded leaves a cancelled loading in its slot
  (`SlideShow.Show.Reload`).

## Model

| member | source | states |
|---|---|---|
| `Landing.LandsRightIffSafe` | apps/experiments/WebTerminal/src/webterminal/WebTerminal.java:1593-1792 | moveTo, started at the beginning, recounts to its goal if and only if the goal row exists, the goal is column 0, or the last row ends at column 0; for every document and goal |
| `Landing.LineFeedPastTheEnd` | apps/experiments/WebTerminal/src/webterminal/WebTerminal.java:1739-1761 | a concrete move past the last row that lands three columns short of the goal that is then cached |
| `Landing.LandsAt` | apps/experiments/WebTerminal/src/webterminal/WebTerminal.java:1593-1792 | from any place at or before the goal, the place a move really comes to |
| `Landing.PadOnlyIfMissing` | apps/experiments/WebTerminal/src/webterminal/WebTerminal.java:1640-1761 | spaces or newlines are put in if and only if no place of the document ahead recounts to the goal |
| `Landing.PadIsBlank` | apps/experiments/WebTerminal/src/webterminal/WebTerminal.java:1640-1761 | only spaces and newlines are ever put in |
| `Landing.FastIsSlow` | apps/experiments/WebTerminal/src/webterminal/WebTerminal.java:1601-1618 | starting at the cached cursor ends with the same cells and the same recount as starting at the first child; at the same place too if no character has zero width |
| `Landing.RelativeIsAbsolute` | apps/experiments/WebTerminal/src/webterminal/WebTerminal.java:1073-1078 | a move counted in rows from where the cursor stands is the absolute move to that row |
| `Landing.MoveLeftLands` | apps/experiments/WebTerminal/src/webterminal/WebTerminal.java:1140-1142 | moving left within a row changes nothing and stops at column 0 at the latest |
| `Walk.MergeTexts` | apps/experiments/WebTerminal/src/webterminal/WebTerminal.java:1659-1672 | joining adjacent text nodes keeps every character, its styles, the nesting and the cursor's place |
| `Walk.ScanText` | apps/experiments/WebTerminal/src/webterminal/WebTerminal.java:1671-1704 | the character loop over a text node advances line and column as the recount does and pads exactly where the move needs it |
| `Walk.VisitText` | apps/experiments/WebTerminal/src/webterminal/WebTerminal.java:1659-1730 | one text node: the outcome of the whole move is unchanged, and either the move ends or a node is passed |
| `Walk.VisitBreak` | apps/experiments/WebTerminal/src/webterminal/WebTerminal.java:1640-1658 | one br node, likewise, with the spaces that may be needed in front of it |
| `Walk.Climb` | apps/experiments/WebTerminal/src/webterminal/WebTerminal.java:1737-1771 | leaving the spans that end here changes neither the document nor the place |
| `Walk.Extend` | apps/experiments/WebTerminal/src/webterminal/WebTerminal.java:1742-1757 | what is appended when the block ends before the goal |
| `Walk.MoveFrom` | apps/experiments/WebTerminal/src/webterminal/WebTerminal.java:1593-1792 | the tree loop terminates on every document and ends as the abstract move does from its start; the coordinates it caches are right exactly when the move is safe, and for a goal at the start of a row the cached column is 0 unless the document ends there |
| `Walk.FellOffCount` | apps/experiments/WebTerminal/src/webterminal/WebTerminal.java:1739-1761 | past the last row the cached column is right exactly if the goal is column 0 or the old row was left at column 0 |
| `Walk.FallsAtRow` | apps/experiments/WebTerminal/src/webterminal/WebTerminal.java:1635-1761 | a move from the start to a row that is there runs off the end of the document if and only if that row is the last one and the document ends, but for the ends of spans, with the row break in front of it |
| `Terminal.Terminal.MoveTo` | apps/experiments/WebTerminal/src/webterminal/WebTerminal.java:1583-1792 | the document and the cursor are those of the abstract move; the cache stays right exactly if the move is safe, and a move that is not is the slip unless there was one before; the goal is cached either way; the styles are to be adjusted before anything is printed |
| `Terminal.Terminal.MoveOn` | apps/experiments/WebTerminal/src/webterminal/WebTerminal.java:1615-1792 | the same from any place in the document at or before the goal |
| `Terminal.Terminal.MoveDown` | apps/experiments/WebTerminal/src/webterminal/WebTerminal.java:1593-1792 | the relative move down by rows is the absolute one, leaves a right cache whatever it was before, and the styles to be adjusted |
| `Arriving.ArrivedConserves` | apps/experiments/WebTerminal/src/webterminal/WebTerminal.java:1593-1792 | a move changes the document by blanks at one place at most, and by nothing if the goal is a place of it: no character is lost, doubled or reordered |
| `Arriving.ArrivedReaches` | apps/experiments/WebTerminal/src/webterminal/WebTerminal.java:1593-1792 | the recount at the end of a move |
| `Arriving.DownIsAbsolute` | apps/experiments/WebTerminal/src/webterminal/WebTerminal.java:1073-1078 | the optimised form of cursorLineStart ends where the plain one does |
| `Sheets.ArrivedSheet` | apps/experiments/WebTerminal/src/webterminal/WebTerminal.java:1593-1792 | what every move, to any goal, makes of the widths of the rows and of the cursor: a short row is filled up, missing rows come in with the last one short by the width of the old last row, and a row above the first stands for the first row that is wide enough |
| `Sheets.SafeIsReaching` | apps/experiments/WebTerminal/src/webterminal/WebTerminal.java:1593-1792 | a move is safe exactly if, by the widths of the rows, its row is there, its column is the first, or the last row is empty |
| `Sheets.TypedCells` | apps/experiments/WebTerminal/src/webterminal/WebTerminal.java:1343-1376 | text typed over the row makes it as wide as before or up to the end of the text, whichever is more, and changes no other width |
| `Sheets.BrokenCells` | apps/experiments/WebTerminal/src/webterminal/WebTerminal.java:1466-1476 | a wrap break splits the widths of the row behind the mark |
| `Sheets.CutCells` | apps/experiments/WebTerminal/src/webterminal/WebTerminal.java:962-1064 | deleted columns go off the width of the row, down to the cursor |
| `Terminal.Terminal.CursorLineStart` | apps/experiments/WebTerminal/src/webterminal/WebTerminal.java:1073-1078 | the start of a row below or above, always with a right cache afterwards if it was right before |
| `Terminal.Terminal.CursorDown` | apps/experiments/WebTerminal/src/webterminal/WebTerminal.java:1080-1082 | the same column some rows below; the cache is right, and nothing slips, exactly if the move is safe |
| `Terminal.Terminal.CursorRight` | apps/experiments/WebTerminal/src/webterminal/WebTerminal.java:1084-1094 | columns to the right in the same row, never unsafe |
| `Terminal.Terminal.CursorLeft` | apps/experiments/WebTerminal/src/webterminal/WebTerminal.java:1096-1143 | nothing changes and the cursor stands that many columns to the left, or at column 0: the shuffling of text between nodes agrees with moveTo |
| `Terminal.Terminal.MoveLeft` | apps/experiments/WebTerminal/src/webterminal/WebTerminal.java:1140-1142 | the long way to the left, with the column that it caches: in front of column 0 it is 0 unless the document ends where the row begins |
| `Terminal.Terminal.ShiftLeft` | apps/experiments/WebTerminal/src/webterminal/WebTerminal.java:1124-1138 | the characters in front of the cursor are taken over to the other side, in the same row, and the cached column goes down with them only if it is positive |
| `Shuffling.StepBack` | apps/experiments/WebTerminal/src/webterminal/WebTerminal.java:1101-1123 | the scan back over the text before the cursor finds the tail of exactly that many columns, if the text has one without characters that stop the scan, and gives up otherwise |
| `Shuffling.ShuffleText` | apps/experiments/WebTerminal/src/webterminal/WebTerminal.java:1124-1138 | moving the tail of one text node to the next keeps characters, styles and nesting |
| `Terminal.Terminal.SaveCursor` | apps/experiments/WebTerminal/src/webterminal/WebTerminal.java:224-227 | the saved coordinates are those of the recount |
| `Terminal.Terminal.RestoreCursor` | apps/experiments/WebTerminal/src/webterminal/WebTerminal.java:229-231 | the cursor comes back to the saved place, the cache being right exactly if that move is safe |
| `Terminal.Terminal.UpdateCursorCache` | apps/experiments/WebTerminal/src/webterminal/WebTerminal.java:183-187 | both cached coordinates become the recount |
| `Terminal.Terminal.GetCursorLine` | apps/experiments/WebTerminal/src/webterminal/WebTerminal.java:192-196 | the cached line if there is one, otherwise the recounted one |
| `Terminal.Terminal.GetCursorColumn` | apps/experiments/WebTerminal/src/webterminal/WebTerminal.java:201-205 | the cached column if there is one, otherwise the recounted one |
| `Counting.Delta2D` | apps/experiments/WebTerminal/src/webterminal/WebTerminal.java:1836-1885 | the loop that counts lines and columns computes the recount of the cells |
| `Counting.PackingIsExact` | apps/experiments/WebTerminal/src/webterminal/WebTerminal.java:1836-1885 | line and column survive packing into one long, with or without the stop bit, for lines below 2^31 and columns below 2^30, in both ways of unpacking |
| `Counting.PackingOverflows` | apps/experiments/WebTerminal/src/webterminal/WebTerminal.java:1836-1885 | column 2^30 does not survive it |
| `Counting.PackedIsRecount` | apps/experiments/WebTerminal/src/webterminal/WebTerminal.java:1836-1885 | the count on packed values over any document whose positions fit is its recount, packed |
| `Tree.Delta2DIsRecount` | apps/experiments/WebTerminal/src/webterminal/WebTerminal.java:1840-1885 | the recursive count over a node tree up to the input line is the recount of the cells in front of it, for every tree |
| `Tree.EveryDocumentIsATree` | apps/experiments/WebTerminal/src/webterminal/WebTerminal.java:1593-1792 | every balanced document with the input line in it is the document order of a node tree |
| `Tree.PlaceInOrder` | apps/experiments/WebTerminal/src/webterminal/WebTerminal.java:1593-1792 | what is in front of a place in the node tree and what is behind it make up the document order |
| `Tree.StepIsRight` | apps/experiments/WebTerminal/src/webterminal/WebTerminal.java:1640-1771 | going to the first child of a span, from any other node to its next sibling, and from a last sibling to the one behind its parent is always one step to the right in the document order, until that ends |
| `Erasing.ErasedIsRowPart` | apps/experiments/WebTerminal/src/webterminal/WebTerminal.java:962-1064 | what is erased is part of the cursor's row: the fewest characters that have the columns asked for, or all the rest of the row if it has fewer; zero-width characters count for nothing |
| `Erasing.ErasedRows` | apps/experiments/WebTerminal/src/webterminal/WebTerminal.java:962-1064 | erasing takes that part off the first row and leaves the other rows alone, whatever the document holds |
| `Erasing.EraseRight` | apps/experiments/WebTerminal/src/webterminal/WebTerminal.java:962-1064 | the loop over text nodes, breaks and nested spans deletes exactly those characters and keeps the nesting |
| `Terminal.Terminal.DeleteCharactersRight` | apps/experiments/WebTerminal/src/webterminal/WebTerminal.java:962-1064 | what is left of the cursor stays, and what is right of it loses exactly the erased part |
| `RowEdits.ReplaceIsOverwrite` | apps/experiments/WebTerminal/src/webterminal/WebTerminal.java:1343-1376 | deleting the w columns ahead and inserting a text of w columns overwrites the cursor's row at the cursor, leaves all other rows, and moves the cursor by w; for every document, wrap marks included |
| `RowEdits.OverwriteByColumns` | apps/experiments/WebTerminal/src/webterminal/WebTerminal.java:1343-1376 | where the row and the text have one column for every character the overwritten row is row[..col] + text + row[min(len, col+w)..] |
| `Terminal.Terminal.InsertRawOutput` | apps/experiments/WebTerminal/src/webterminal/WebTerminal.java:1378-1388 | the text goes in front of the input line with the enclosing styles of that place |
| `Terminal.Terminal.InsertSimpleOutput` | apps/experiments/WebTerminal/src/webterminal/WebTerminal.java:1343-1376 | the text is added once to what has been printed and put in front of the input line, in exactly the styles that adjusting makes of the wanted ones at the spans where they were adjusted last or are now: the wanted ones if and only if nothing else stays there, and always if every span has a style; the columns up to the one it is taken to end in go, and if that is right it is typed over the cursor's row; it slips exactly if that is wrong and known |
| `Terminal.Terminal.PutText` | apps/experiments/WebTerminal/src/webterminal/WebTerminal.java:1348-1376 | the same for text that is not empty |
| `Terminal.Terminal.AdjustIfNeeded` | apps/experiments/WebTerminal/src/webterminal/WebTerminal.java:1348-1349 | whether the styles have to be adjusted or not, the spans around the cursor declare afterwards what adjusting makes of the wanted styles; no cell and no place changes |
| `Terminal.Terminal.ReplaceColumns` | apps/experiments/WebTerminal/src/webterminal/WebTerminal.java:1355-1376 | likewise, for text that is not empty and styles that are in force: of the rows of the screen the cursor's is typed over and no other changes |
| `Terminal.Terminal.InsertErrorSpan` | apps/experiments/WebTerminal/src/webterminal/WebTerminal.java:1363-1371 | error output is in a span of its own |
| `Terminal.Terminal.InsertWrapBreak` | apps/experiments/WebTerminal/src/webterminal/WebTerminal.java:1466-1476 | a wrap break starts the next row at column 0 |
| `Terminal.Terminal.InsertLinesIgnoreScroll` | apps/experiments/WebTerminal/src/webterminal/WebTerminal.java:855-866 | newlines behind the cursor, as many as asked for |
| `Terminal.Terminal.DeleteLinesIgnoreScroll` | apps/experiments/WebTerminal/src/webterminal/WebTerminal.java:868-891 | on a flat block the first rows right of the cursor go, up to the first that is not ended |
| `RowEdits.RegionUp` | apps/experiments/WebTerminal/src/webterminal/WebTerminal.java:901-926 | taking rows out at the top of a region and blanks in at its bottom keeps all other rows and their number |
| `RowEdits.RegionDown` | apps/experiments/WebTerminal/src/webterminal/WebTerminal.java:893-926 | taking rows out at the bottom of a region and blanks in at its top, likewise |
| `Terminal.Terminal.InsertLines` | apps/experiments/WebTerminal/src/webterminal/WebTerminal.java:893-899 | in a flat block: blanks at the cursor's row, the rest of the region moves down, the rows above the cursor and from the bottom of the region on stay; the bottom is the one that was set, or that of the screen if none was |
| `Terminal.Terminal.DeleteLines` | apps/experiments/WebTerminal/src/webterminal/WebTerminal.java:901-907 | entered at column 0: the rows go, the rest of the region moves up, blanks at its end, rows outside it stay; the bottom likewise |
| `Terminal.Terminal.ScrollForward` | apps/experiments/WebTerminal/src/webterminal/WebTerminal.java:909-917 | the rows of the scroll region move up by count, with blanks at its bottom, and no other row moves; the bottom likewise |
| `Terminal.Terminal.ScrollReverse` | apps/experiments/WebTerminal/src/webterminal/WebTerminal.java:919-926 | the rows of the scroll region move down by count, with blanks at its top, and no other row moves; the bottom likewise |
| `Terminal.Terminal.EditRegion` | apps/experiments/WebTerminal/src/webterminal/WebTerminal.java:679-699 | with a scroll region set, S, T, L and M leave every row above it and every row below it as it was, L and M with the cursor in the region |
| `Terminal.Terminal.RegionOnly` | apps/experiments/WebTerminal/src/webterminal/WebTerminal.java:621-699 | after r with top t and bottom b, S, T, L and M change rows t - 1 to b - 1 only |
| `Styles.SplitJoin` | apps/experiments/WebTerminal/src/webterminal/WebTerminal.java:771-811 | splitting a style attribute at its semicolons gives back the entries that were joined with them, for trimmed entries without semicolons |
| `Styles.MatchStyle` | apps/experiments/WebTerminal/src/webterminal/WebTerminal.java:771-793 | one style attribute agrees with the next wanted styles exactly if its declarations are a prefix of them |
| `Styles.Compare` | apps/experiments/WebTerminal/src/webterminal/WebTerminal.java:744-799 | as many styled spans are kept as agree one after the other with the wanted styles, and as many wanted styles as they declare |
| `Styles.AgreeingIsLongest` | apps/experiments/WebTerminal/src/webterminal/WebTerminal.java:744-799 | the agreeing spans declare the first of the wanted styles, and one span more would not, unless all is declared or no span is left |
| `Styles.AdjustedIsWanted` | apps/experiments/WebTerminal/src/webterminal/WebTerminal.java:741-821 | for every path of spans and all wanted styles: the wanted styles result if and only if every span that stays outside the agreeing ones declares nothing |
| `Styles.AdjustedWhenStyled` | apps/experiments/WebTerminal/src/webterminal/WebTerminal.java:741-821 | with nothing but styled spans around the cursor the wanted styles always result |
| `Styles.WrongSpanLeft` | apps/experiments/WebTerminal/src/webterminal/WebTerminal.java:741-821 | an unstyled span inside a styled one and nothing wanted: no span agrees, one is left, and the unwanted style stays |
| `Spans.SpanSplits` | apps/experiments/WebTerminal/src/webterminal/WebTerminal.java:828-853 | splitting a span around the cursor keeps every character and its style list |
| `Terminal.Terminal.PopStyle` | apps/experiments/WebTerminal/src/webterminal/WebTerminal.java:828-853 | the cursor leaves its innermost span, and no cell and no place changes |
| `Terminal.Terminal.PushSpan` | apps/experiments/WebTerminal/src/webterminal/WebTerminal.java:804-820 | a new span declares the given styles in order behind those in force |
| `Terminal.Terminal.AddStyles` | apps/experiments/WebTerminal/src/webterminal/WebTerminal.java:804-820 | the wanted styles that are not declared yet are, in order, and no cell changes |
| `Terminal.Terminal.AdjustStyle` | apps/experiments/WebTerminal/src/webterminal/WebTerminal.java:741-821 | row text, place and every character's styles stay; what is declared around the cursor afterwards is what Styles.Adjusted says of the spans and currentStyles, and that is currentStyles exactly if nothing else stays |
| `Sgr.PushSimpleStyle` | apps/experiments/WebTerminal/src/webterminal/WebTerminal.java:719-731 | all entries of the property go, and the new one, if any, is last |
| `Sgr.LastWriteWins` | apps/experiments/WebTerminal/src/webterminal/WebTerminal.java:569-616 | after any run of parameters a property has at most one entry, that of the last parameter that wrote it |
| `Sgr.ApplyParameter` | apps/experiments/WebTerminal/src/webterminal/WebTerminal.java:569-617 | one parameter of the m sequence, all supported codes; what each of them does is said by the laws below |
| `Sgr.BoldAndUnderline` | apps/experiments/WebTerminal/src/webterminal/WebTerminal.java:578-589 | 1 takes every font-weight entry out and puts bold in at the end, 4 likewise underline, and 22 and 24 only take out |
| `Sgr.Colours` | apps/experiments/WebTerminal/src/webterminal/WebTerminal.java:598-615 | 30 + n and 40 + n put in the n-th of the eight colours, as colour and as background, and 39 and 49 take colour and background out |
| `Sgr.ReverseVideo` | apps/experiments/WebTerminal/src/webterminal/WebTerminal.java:590-597 | 7 is white on black, and 27 takes both out |
| `Sgr.OtherCodes` | apps/experiments/WebTerminal/src/webterminal/WebTerminal.java:570-618 | 0 and negative codes clear the list, and every code that is not supported changes nothing |
| `Sgr.OthersStay` | apps/experiments/WebTerminal/src/webterminal/WebTerminal.java:577-616 | a code leaves the entries of every property but its own as they are, in order |
| `Sgr.Undone` | apps/experiments/WebTerminal/src/webterminal/WebTerminal.java:577-616 | for every list before: 22 undoes 1, 24 undoes 4, 39 undoes 30 to 37 and 49 undoes 40 to 47 |
| `Sgr.ReverseUndone` | apps/experiments/WebTerminal/src/webterminal/WebTerminal.java:590-597 | 27 undoes 7 |
| `Sgr.WithoutIs` | apps/experiments/WebTerminal/src/webterminal/WebTerminal.java:719-731 | what is left without a property is exactly the entries that do not begin with it, as often and in the same order |
| `Terminal.Terminal.SelectGraphicRendition` | apps/experiments/WebTerminal/src/webterminal/WebTerminal.java:569-620 | the parameters are applied in order |
| `Scanner.Scanner.CloseParameter` | apps/experiments/WebTerminal/src/webterminal/WebTerminal.java:1208-1217 | a parameter is kept in the array, which grows when it is full |
| `Scanner.Scanner.Feed` | apps/experiments/WebTerminal/src/webterminal/WebTerminal.java:1175-1257 | one character of an escape sequence: the machine with its array refines a machine on sequences, without an access out of bounds at any number of parameters |
| `Scanner.Chunking` | apps/experiments/WebTerminal/src/webterminal/WebTerminal.java:1167-1341 | a stream read in two chunks prints and dispatches what it does in one |
| `Scanner.AnyChunking` | apps/experiments/WebTerminal/src/webterminal/WebTerminal.java:1167-1341 | so does any chunking |
| `Terminal.Terminal.InsertChunks` | apps/experiments/WebTerminal/src/webterminal/WebTerminal.java:428-434 | any number of insertString calls on one terminal print and dispatch what one call with the whole text has to, with the same styles for each character; if that can be followed to its end, the cursor and the widths of the rows are those of the whole text however it is cut, and nothing slips |
| `Scanner.ParsePrinted` | apps/experiments/WebTerminal/src/webterminal/WebTerminal.java:1196-1227 | a control sequence printed from any parameters below 2^31, omitted ones being -1, is read back as one dispatch with exactly those |
| `Scanner.ParseEscape` | apps/experiments/WebTerminal/src/webterminal/WebTerminal.java:1176-1195 | an escape of two characters is one dispatch, and prints nothing |
| `Scanner.ParseSystemControl` | apps/experiments/WebTerminal/src/webterminal/WebTerminal.java:1229-1257 | an operating system control printed from any code below 2^31 and any text is read back as one dispatch with exactly those, ended by a bell or a zero, and prints nothing |
| `Inks.WritesRendition` | apps/experiments/WebTerminal/src/webterminal/WebTerminal.java:569-620 | a printed m sequence sets the styles of the text behind it to what its parameters make of those before, and writes nothing |
| `Inks.WritesOther` | apps/experiments/WebTerminal/src/webterminal/WebTerminal.java:519-701 | any other printed sequence, a move for one, changes neither what is written nor the styles of the text behind it |
| `Inks.WritesText` | apps/experiments/WebTerminal/src/webterminal/WebTerminal.java:1320-1337 | text is written in the styles wanted, in order |
| `Inks.WritesConcat` | apps/experiments/WebTerminal/src/webterminal/WebTerminal.java:1167-1341 | a stream writes in two parts what it writes as one |
| `Wrapping.LayFits` | apps/experiments/WebTerminal/src/webterminal/WebTerminal.java:1320-1331 | for text that starts within the width, every piece between wrap breaks fits, the pieces together are the text, and no piece could have taken the character behind its break |
| `Terminal.Terminal.MoveCursor` | apps/experiments/WebTerminal/src/webterminal/WebTerminal.java:528-649 | where A, B, C, D, H and d send the cursor, with their defaults, when the cache is right afterwards, and what becomes of the widths of the rows |
| `Terminal.Terminal.Edit` | apps/experiments/WebTerminal/src/webterminal/WebTerminal.java:673-699 | K, L, M, P, S and T: the rows or the part of the row that each takes out and puts in |
| `Terminal.Terminal.SetMode` | apps/experiments/WebTerminal/src/webterminal/WebTerminal.java:534-568 | h and l: the cursor is saved or restored, or nothing in the document changes |
| `Terminal.Terminal.HandleEscape` | apps/experiments/WebTerminal/src/webterminal/WebTerminal.java:1188-1195 | 7 and 8 save and restore the cursor and M inserts a row: the slip, the cursor and the widths of the rows are exactly those that Tracks.Does gives |
| `Terminal.Terminal.HandleControlSequence` | apps/experiments/WebTerminal/src/webterminal/WebTerminal.java:519-701 | what each control sequence does, and that the others leave the document, the styles and the scroll region alone; where the cursor and the widths of the rows are known before, so they are afterwards, and it slips exactly if a move does not reach its goal by these widths |
| `Terminal.Terminal.CarriageReturn` | apps/experiments/WebTerminal/src/webterminal/WebTerminal.java:1260-1272 | the start of the row, or of the next one when a newline follows and the cursor is not in the last row of the scroll region |
| `Terminal.Terminal.LineFeed` | apps/experiments/WebTerminal/src/webterminal/WebTerminal.java:1273-1292 | the same column of the next row, or in the last row of the region the rows move; it slips exactly if that move is unsafe |
| `Terminal.Terminal.Tab` | apps/experiments/WebTerminal/src/webterminal/WebTerminal.java:1312-1319 | the next multiple of eight columns in the same row |
| `Terminal.Terminal.Backspace` | apps/experiments/WebTerminal/src/webterminal/WebTerminal.java:1293-1299 | one column to the left, and it never slips; the column is cached as unknown exactly if it was unknown and the character in front is taken over, or if that cannot be, the cursor is in column 0 below the first row and the document ends with that row's break |
| `Terminal.Terminal.BackspaceAtTheEnd` | apps/experiments/WebTerminal/src/webterminal/WebTerminal.java:1293-1299 | carriage return, newline, backspace and x on a new screen: column 0 is cached where the recount is 1 |
| `Terminal.Terminal.Obey` | apps/experiments/WebTerminal/src/webterminal/WebTerminal.java:1259-1319 | the effect of each control character; only a newline can slip, exactly if its move is unsafe; after a backspace the column is right exactly unless the cursor was in column 0 below the first row where the document ends, and nothing else makes a right column wrong; the cursor and the widths of the rows are as followed |
| `Terminal.Terminal.PrintAndObey` | apps/experiments/WebTerminal/src/webterminal/WebTerminal.java:1259-1319 | pending text is printed first and then the control character has its effect; the slip afterwards is given exactly, and the pending column is wrong after a backspace exactly if nothing was pending at the end of the document |
| `Terminal.Terminal.InsertControl` | apps/experiments/WebTerminal/src/webterminal/WebTerminal.java:1259-1319 | likewise, with the machine: what is printed and dispatched is that of the stream, a newline taken with its carriage return is read only once, and the stream is followed |
| `Terminal.Terminal.Flush` | apps/experiments/WebTerminal/src/webterminal/WebTerminal.java:1334-1337 | the pending text is printed, in the wanted styles if nothing else stays where they are adjusted, which is counted exactly; it slips exactly if the column it is taken to end in is known and wrong |
| `Terminal.Terminal.WrapRow` | apps/experiments/WebTerminal/src/webterminal/WebTerminal.java:1322-1328 | what is pending is printed with a wrap break behind it |
| `Terminal.Terminal.InsertGraphic` | apps/experiments/WebTerminal/src/webterminal/WebTerminal.java:1320-1331 | a character that would go beyond the width starts a new row, nothing is lost, and the cursor and the widths of the rows are as followed |
| `Terminal.Terminal.InsertCharacter` | apps/experiments/WebTerminal/src/webterminal/WebTerminal.java:1258-1333 | printed and pending text together are the stream so far; a slip is text pending in a wrong column or a newline that does not come at a row's start; a backspace makes the pending column wrong exactly if nothing is pending at the end of the document; the stream is followed |
| `Terminal.Terminal.Dispatch` | apps/experiments/WebTerminal/src/webterminal/WebTerminal.java:1176-1257 | a finished escape sequence has its effect once and is added to those dispatched; the slip, the cursor and the widths of the rows are exactly those that Tracks.Does gives |
| `Terminal.Terminal.ContinueSequence` | apps/experiments/WebTerminal/src/webterminal/WebTerminal.java:1176-1257 | a character inside a sequence is observed as the machine has it, and the slip, the cursor and the widths of the rows are exactly those that Tracks.Feed gives |
| `Terminal.Terminal.ReadOutside` | apps/experiments/WebTerminal/src/webterminal/WebTerminal.java:1258-1333 | one round of the loop outside a sequence, from any state: the slip and the cursor afterwards are exactly those of the stream followed from the state before, a backspace loses the column exactly at the end of the document, and what is printed and pending is the stream so far |
| `Terminal.Terminal.ReadInside` | apps/experiments/WebTerminal/src/webterminal/WebTerminal.java:1176-1257 | one round of the loop inside a sequence, likewise: the slip is that of the sequence's own move in the rows there are, or none |
| `Terminal.Terminal.InsertString` | apps/experiments/WebTerminal/src/webterminal/WebTerminal.java:1167-1341 | over any chunk: the text printed and the sequences dispatched are those of the stream; for every stream that Tracks.Follow follows, the cursor and the widths of the rows end as it says, and the cache slips if and only if it says so, by the move it says, which then goes below all the rows there were, to a column that is not the first; otherwise only by a newline not behind a carriage return, a sequence that is not quiet, or text behind a backspace that is not behind text; text lines never slip; printable text is laid out with breaks at the width; the text is written in the styles that the stream asks for at each character, whatever moves are between, unless one print has gone astray, and in a document whose spans all have a style none does but for error output |
| `Terminal.Terminal.ReadAll` | apps/experiments/WebTerminal/src/webterminal/WebTerminal.java:1167-1333 | the loop over the characters of a chunk: everything up to what is still pending is as the stream has it, or it stops at something outside the model |
| `Tracks.UnsafeIsBelow` | apps/experiments/WebTerminal/src/webterminal/WebTerminal.java:1167-1341 | a stream goes wrong only by a move below all the rows there were when it began, to a column that is not the first, from a last row that is not empty; moves to rows that exist and to column 0 never do |
| `Tracks.AllIsTold` | apps/experiments/WebTerminal/src/webterminal/WebTerminal.java:1167-1341 | with the shape known, all is told of every character but a form feed, a sequence outside the model, and text right behind a backspace that may have lost the column; and the shape stays known until rows are put in, taken out or scrolled |
| `Tracks.FollowConcat` | apps/experiments/WebTerminal/src/webterminal/WebTerminal.java:1167-1341 | a stream is followed in two parts as in one |
| `Tracks.FollowRefines` | apps/experiments/WebTerminal/src/webterminal/WebTerminal.java:1167-1341 | who knows more of the screen follows at least as far, to the same place, and sees the same move go wrong |
| `Tracks.FollowPrinted` | apps/experiments/WebTerminal/src/webterminal/WebTerminal.java:519-701 | a printed control sequence is done once, whole, by its parameters |
| `Tracks.CountedMoves` | apps/experiments/WebTerminal/src/webterminal/WebTerminal.java:528-690 | printed with a count n: A, B, C and d send the cursor n rows up or down, n columns to the right and to row n, D goes back and P cuts n columns |
| `Tracks.OmittedCount` | apps/experiments/WebTerminal/src/webterminal/WebTerminal.java:528-699 | without a count A, B, C, D, d, L, M, P, S and T do what they do with 1 |
| `Tracks.PlacedMoves` | apps/experiments/WebTerminal/src/webterminal/WebTerminal.java:621-649 | H goes to a row and column counted from 1, what is left out being 1, and r sets the bottom of the scroll region |
| `Tracks.SavedAndBack` | apps/experiments/WebTerminal/src/webterminal/WebTerminal.java:1188-1193 | escape 7 saves the place of the cursor, and escape 8 sends it back there |
| `Streams.NoRisk` | apps/experiments/WebTerminal/src/webterminal/WebTerminal.java:1258-1319 | text in lines holds nothing that may make the cache slip |
| `Wire.Int` | tools/gltrace/iolib.c:177-183 | a word that was put is the word that is got, and the decoder stands right behind it |
| `Wire.LongLong` | tools/gltrace/iolib.c:233-249 | likewise for 64 bits |
| `Wire.Ptr` | tools/gltrace/iolib.c:252-268 | likewise for a pointer of the recording machine, sign-extended if it has four bytes |
| `Wire.IntPtr` | tools/gltrace/iolib.c:186-202 | a pointer to an int, null or not and even if the int is the marker, is read back and passed exactly |
| `Wire.FloatPtrReadBack` | tools/gltrace/iolib.c:379-391 | a pointer to a float is always read back, but passed if and only if it is not null and not the marker |
| `Wire.Str` | tools/gltrace/iolib.c:271-292 | a string is read back and passed with its padding; null reads back as the empty string |
| `Wire.Blob` | tools/gltrace/iolib.c:295-314 | a block is read back and passed with its padding; an empty one reads back as null |
| `Wire.GetString` | tools/gltrace/iolib.c:412-421 | the decoder never goes back, whatever the bytes are |
| `TraceWriter.Writer.constructor` | tools/gltrace/iolib.c:52-73 | a new trace holds the header |
| `TraceWriter.Writer.Enlarge` | tools/gltrace/iolib.c:127-154 | called on a full window only; the log is unchanged and the new window empty |
| `TraceWriter.Writer.Copy` | tools/gltrace/iolib.c:240-248 | bytes of any number, over as many windows as they need, are appended contiguously |
| `TraceWriter.Writer.Pad` | tools/gltrace/iolib.c:291-291 | padding ends on a multiple of four bytes and never crosses the end of the window |
| `TraceWriter.SamePadding` | tools/gltrace/iolib.c:291-313 | padding by the writer's address and padding by the reader's length are the same for a field that begins aligned |
| `TraceWriter.Writer.PutWord` | tools/gltrace/iolib.c:177-183 | an int is written at once, never across the end of the window |
| `TraceWriter.Writer.PutInt` | tools/gltrace/iolib.c:177-183 | one field is appended, unless the call is inside another |
| `TraceWriter.Writer.PutIntPtr` | tools/gltrace/iolib.c:186-202 | likewise |
| `TraceWriter.Writer.PutFloat` | tools/gltrace/iolib.c:205-211 | likewise |
| `TraceWriter.Writer.PutFloatPtr` | tools/gltrace/iolib.c:214-230 | likewise |
| `TraceWriter.Writer.PutLongLong` | tools/gltrace/iolib.c:233-249 | likewise, across windows |
| `TraceWriter.Writer.PutPtr` | tools/gltrace/iolib.c:252-268 | likewise |
| `TraceWriter.Writer.PutString` | tools/gltrace/iolib.c:271-292 | likewise, with the padding |
| `TraceWriter.Writer.PutBytes` | tools/gltrace/iolib.c:295-314 | likewise, with the size in front and the padding |
| `TraceWriter.Writer.PutCmd` | tools/gltrace/iolib.c:161-174 | the outermost call writes its thread if it has changed and its command; a call inside it nothing |
| `TraceWriter.Writer.PutTime` | tools/gltrace/iolib.c:317-329 | the times end the record, and the depth goes back by one |
| `TraceWriter.Writer.Fini` | tools/gltrace/iolib.c:111-120 | the file that is left is exactly the bytes that were put |
| `GlRecorder.GatheredAt` | tools/gltrace/gles.c:193-206 | byte k of vertex j of a recorded array is the one at j steps and k bytes behind the attribute's pointer |
| `GlRecorder.StrideLaw` | tools/gltrace/gles.c:193-206 | the step is the attribute's stride if that is positive as an int, and otherwise the size of an element: byte k of vertex j is at pointer + j * stride + k or at pointer + j * size + k |
| `GlRecorder.ArrayOf` | tools/gltrace/gles.c:180-207 | the array of an enabled attribute is as far down the list as there are enabled attributes in front of it |
| `GlRecorder.Recorder.DrawnVertex` | tools/gltrace/gles.c:962-987 | the record of a draw call: for each enabled attribute, where its array is, how long, and for each of its bytes the address it was taken from, by the attribute's pointer, stride, size and type |
| `GlRecorder.Recorder.DrawnIndices` | tools/gltrace/gles.c:962-987 | the indices in the record are the count bytes, shorts or ints behind the pointer |
| `GlRecorder.Gather` | tools/gltrace/gles.c:195-205 | the two loops fill the buffer with exactly those vertices and stay inside it |
| `GlRecorder.ArrayedEnabled` | tools/gltrace/gles.c:180-207 | there is one recorded array for each enabled attribute |
| `GlRecorder.Recorder.PutVertexAttrib` | tools/gltrace/gles.c:180-207 | the enabled arrays are recorded in order of their index, in a buffer large enough for each; it fails exactly for a type of unknown size |
| `GlRecorder.Recorder.PutPairs` | tools/gltrace/egl.c:358-363 | an attribute list is recorded up to its end, and a null one as its end |
| `GlRecorder.Recorder.ReadsBack` | tools/gltrace/iolib.c:156-329 | after any calls the decoder shows exactly those, and ends with the recorder's own bindings and flags at the end of the file |
| `GlRecorder.Recorder.BindAttribLocation` | tools/gltrace/gles.c:243-259 | a record with a string: the trace grows by exactly this call's record |
| `GlRecorder.Recorder.BindBuffer` | tools/gltrace/gles.c:261-283 | the trace grows by exactly this call's record, laid out for the bindings in force, and the statics are as the call leaves them |
| `GlRecorder.Recorder.BufferData` | tools/gltrace/gles.c:424-441 | a record with a block: the trace grows by exactly this call's record |
| `GlRecorder.Recorder.DeleteTextures` | tools/gltrace/gles.c:823-841 | a record with a counted list, likewise |
| `GlRecorder.Recorder.DisableVertexAttribArray` | tools/gltrace/gles.c:927-942 | the trace grows by exactly this call's record, laid out for the bindings in force, and the statics are as the call leaves them |
| `GlRecorder.Recorder.DrawElements` | tools/gltrace/gles.c:962-987 | the trace grows by a record with the offset or the indices, and with the vertex arrays, as the bindings require; it fails exactly for a type of unknown size |
| `GlRecorder.Recorder.EnableVertexAttribArray` | tools/gltrace/gles.c:1005-1020 | the trace grows by exactly this call's record, laid out for the bindings in force, and the statics are as the call leaves them |
| `GlRecorder.Recorder.GetActiveUniform` | tools/gltrace/gles.c:1209-1233 | a record with fields that are there only if the caller asks for them: the trace grows by exactly this call's record |
| `GlRecorder.Recorder.GetAttachedShaders` | tools/gltrace/gles.c:1235-1259 | a record with a counted list that is there only if the caller asks for it, likewise |
| `GlRecorder.Recorder.GetIntegerv` | tools/gltrace/gles.c:1358-1373 | a record with a pointer that may be null, likewise |
| `GlRecorder.Recorder.ShaderSource` | tools/gltrace/gles.c:1704-1730 | a record with strings that have a length or end with a zero, likewise |
| `GlRecorder.Recorder.Uniform4fv` | tools/gltrace/gles.c:2032-2048 | a record with a block whose size is computed in 32 bits, likewise |
| `GlRecorder.Recorder.VertexAttribPointer` | tools/gltrace/gles.c:2225-2249 | the trace grows by exactly this call's record, laid out for the bindings in force, and the statics are as the call leaves them |
| `GlRecorder.Recorder.ChooseConfig` | tools/gltrace/egl.c:151-182 | a record with an attribute list and results, likewise |
| `GlRecorder.Recorder.CreateContext` | tools/gltrace/egl.c:349-375 | a record with an attribute list and a handle, likewise |
| `GlRecorder.Recorder.MakeCurrent` | tools/gltrace/egl.c:399-419 | a record with operands, likewise |
| `RoundTrip.PairsRead` | tools/gltrace/retrace.c:3439-3448 | an attribute list is read back if it has at most thirty-one pairs, and is refused otherwise |
| `RoundTrip.ReadBackIffReadable` | tools/gltrace/retrace.c:2486-3640 | the record of every modelled call, laid out for the decoder's state, decodes to the call in canonical form and is passed exactly, if and only if it is none of the unreadable ones: whatever follows it in the file |
| `RoundTrip.CanonKeepsState` | tools/gltrace/retrace.c:2513-2524 | decoding the canonical call changes the shadow state as the call did |
| `Traces.RecordRead` | tools/gltrace/retrace.c:2475-2484 | a whole record with its thread prefix and times is read back on the right thread |
| `Traces.StreamRead` | tools/gltrace/retrace.c:2468-3657 | for any records and any number of frames, the decoder shows the calls up to the last frame in order and stops at the record behind it, or at the end |
| `Traces.FramesAdd` | tools/gltrace/retrace.c:2468-3657 | showing j frames and then k more is showing j + k, for any bytes at all |
| `Traces.FramesShown` | tools/gltrace/retrace.c:2468-3657 | for any bytes: showing n frames ends right behind the n-th SwapBuffers shown, or the file ends, or stops being readable, before that one |
| `Traces.LastDecides` | tools/gltrace/retrace.c:2513-2524 | after any calls each binding is that of the last call for its target, 0x8892 or 0x8893, and an attribute is enabled exactly if the last call that names it enables it |
| `Traces.FileFields` | tools/gltrace/iolib.c:52-73 | the file of two calls, field by field, from the header to the last time |
| `Traces.HeaderRead` | tools/gltrace/iolib.c:89-106 | the header opens as a trace with the recorder's pointer size |
| `Traces.FileRead` | tools/gltrace/retrace.c:2468-3657 | whole-trace round trip: every sequence of readable calls is read back with its threads and times, up to the canonical forms, and the decoder stops exactly at the end of the file |
| `TraceReader.Reader.Command` | tools/gltrace/iolib.c:336-342 | reads what the abstract get reads, and moves as far, at any place of any file |
| `TraceReader.Reader.Int` | tools/gltrace/iolib.c:345-351 | reads what the abstract get reads, and moves as far, at any place of any file |
| `TraceReader.Reader.IntPtr` | tools/gltrace/iolib.c:354-367 | reads what the abstract get reads, and moves as far, at any place of any file |
| `TraceReader.Reader.Float` | tools/gltrace/iolib.c:370-376 | reads what the abstract get reads, and moves as far, at any place of any file |
| `TraceReader.Reader.FloatPtr` | tools/gltrace/iolib.c:379-391 | reads what the abstract get reads, and moves as far, at any place of any file |
| `TraceReader.Reader.LongLong` | tools/gltrace/iolib.c:394-400 | reads what the abstract get reads, and moves as far, at any place of any file |
| `TraceReader.Reader.Ptr` | tools/gltrace/iolib.c:403-409 | reads what the abstract get reads, and moves as far, at any place of any file |
| `TraceReader.Reader.String` | tools/gltrace/iolib.c:412-421 | reads what the abstract get reads, and moves as far, at any place of any file |
| `TraceReader.Reader.Data` | tools/gltrace/iolib.c:424-436 | reads what the abstract get reads, and moves as far, at any place of any file |
| `TraceReader.Decoder.Ints` | tools/gltrace/retrace.c:2856-2865 | a counted list, whatever the count |
| `TraceReader.Decoder.Ptrs` | tools/gltrace/retrace.c:3449-3454 | as many configurations as both counts allow |
| `TraceReader.Decoder.Sources` | tools/gltrace/retrace.c:3128-3146 | the strings of a shader, each in its own form |
| `TraceReader.Decoder.Pairs` | tools/gltrace/retrace.c:3439-3448 | the attribute list in an array of 64 words, never beyond its end |
| `TraceReader.Decoder.VertexArrays` | tools/gltrace/retrace.c:2807-2814 | one block for each enabled attribute, unless a buffer is bound |
| `TraceReader.Decoder.GlRecord` | tools/gltrace/retrace.c:2487-3311 | the GL commands, field by field |
| `TraceReader.Decoder.EglRecord` | tools/gltrace/retrace.c:3393-3631 | the EGL commands, field by field |
| `TraceReader.Decoder.Track` | tools/gltrace/retrace.c:2513-2524 | bindings and flags follow the decoded calls |
| `TraceReader.Decoder.Next` | tools/gltrace/retrace.c:2473-3642 | one record, or the reason to stop |
| `TraceReader.Decoder.Show` | tools/gltrace/retrace.c:2468-3657 | the loop shows what the abstract decoder shows, for any bytes and any number of frames |
| `TraceReader.OpenTrace` | tools/gltrace/iolib.c:74-107 | the header decides whether it is a trace and how wide its pointers are |
| `TraceReader.ShowRecording` | tools/gltrace/retrace.c:2468-3657 | the file of a recording shows exactly the calls that were recorded, to its end |
| `Threads.StepKeeps` | tools/gltrace/iolib.c:156-174 | every step of every thread keeps: the lock is held by the thread that is in a call, as often as it is in one, which is the reentrance count; the log is the header, whole records, and what there is of the one in progress, also while a draw call reads the bindings between its puts |
| `Threads.NestedAddsNothing` | tools/gltrace/iolib.c:161-164 | calls made inside another call, whatever they are, add no bytes and leave the outer call as it was |
| `Threads.IdleFileShowsAll` | tools/gltrace/iolib.c:316-329 | after any interleaving that leaves no thread in a call, the file is that of the outermost calls in the order of the lock, and decodes to them with their threads |
| `Threads.Completes` | tools/gltrace/iolib.c:316-329 | from any reachable state the thread that holds the lock can finish, after which the lock is free and its record whole |
| `Threads.FramedIff` | tools/gltrace/gles.c:261-283 | for every run, with each binding read where the source reads it: the records are laid out as the decoder expects if and only if at each of the two reads of every outermost draw call the statics and the calls recorded so far say the same |
| `Threads.FramedIffNotesIdle` | tools/gltrace/gles.c:261-283 | with one binding noted at a time and none made by the driver: if and only if at each of those reads the binding still to be noted, if any, makes no difference to what is read |
| `Threads.OneDrawerIsFramed` | tools/gltrace/gles.c:261-283 | if one thread makes all binding and draw calls, and the driver makes none that changes the statics, every draw record is laid out as the decoder expects, under any interleaving with other threads |
| `Threads.OneDrawerReadsBack` | tools/gltrace/retrace.c:2802-2817 | so the file of such a run decodes to the calls that were recorded |
| `Threads.RaceIsNotFramed` | tools/gltrace/gles.c:261-283 | two threads whose draw record is not laid out as the decoder expects, because a binding is noted only after the lock was given back |
| `Handles.Maps.CreateMap` | tools/gltrace/map.c:42-49 | a new map is empty, and there are sixteen |
| `Handles.Maps.PutMap` | tools/gltrace/map.c:52-69 | the map gains or changes that key; a null key changes nothing; other maps are untouched; it fails exactly if the map has sixteen keys and not this one |
| `Handles.Maps.GetMap` | tools/gltrace/map.c:72-85 | the value of the key, or null |
| `Handles.ContentsBounded` | tools/gltrace/map.c:51-69 | a map has at most sixteen keys, none of them null, and they fill a prefix of its slots |
| `Handles.SlotPut` | tools/gltrace/map.c:52-69 | writing one slot keeps keys distinct and in a prefix, and updates the finite map the slots stand for |
| `Replay.Replayer.Operands` | tools/gltrace/retrace.c:3524-3613 | each surface or context operand becomes the handle returned for the latest creation of it |
| `Replay.Untranslated` | tools/gltrace/retrace.c:3524-3613 | if every handle comes back as it was recorded, every call is replayed as it was recorded |
| `Replay.OperandsOwn` | tools/gltrace/retrace.c:3524-3613 | each operand is replaced by the handle that came back for it, whatever came back for the others |
| `Replay.LatestIs` | tools/gltrace/retrace.c:3524-3613 | of several creations recorded with one handle the latest counts |
| `Replay.Replayer.Issue` | tools/gltrace/retrace.c:3471-3634 | over any run: the operands are translated, creations are noted, and it fails exactly if a map is needed that was never made or a seventeenth handle is to be kept |
| `MeshGrid.CornersInRange` | apps/toys/FX8-3DFeatures/src/fx83dfeatures/MeshViewer.java:134-162 | every corner of every triangle is a point of the grid |
| `MeshGrid.TrianglePlaces` | apps/toys/FX8-3DFeatures/src/fx83dfeatures/MeshViewer.java:134-162 | the columns and rows of the six corners of the two triangles of a quad |
| `MeshGrid.TexCoordAt` | apps/toys/FX8-3DFeatures/src/fx83dfeatures/MeshViewer.java:113-132 | the texture coordinate at an index is that of its column and row |
| `MeshGrid.NoSideTwice` | apps/toys/FX8-3DFeatures/src/fx83dfeatures/MeshViewer.java:134-162 | no directed side occurs twice, for all numbers of subdivisions |
| `MeshGrid.OppositeIffInner` | apps/toys/FX8-3DFeatures/src/fx83dfeatures/MeshViewer.java:134-162 | a side has an opposite in the mesh if and only if it is not on the border of the grid |
| `MeshGrid.FillPoints` | apps/toys/FX8-3DFeatures/src/fx83dfeatures/MeshViewer.java:113-132 | the loop computes every point once, into an array that may hold anything |
| `MeshGrid.PointAt` | apps/toys/FX8-3DFeatures/src/fx83dfeatures/MeshViewer.java:113-132 | the point in a column and row has its coordinates at the index the faces use |
| `MeshViewer.IndicesInRange` | apps/toys/FX8-3DFeatures/src/fx83dfeatures/MeshViewer.java:134-162 | every index in the face array is that of a point |
| `MeshViewer.TextureIndicesAgree` | apps/toys/FX8-3DFeatures/src/fx83dfeatures/MeshViewer.java:134-162 | every corner of every face has the texture index of its own point |
| `MeshViewer.CornerShown` | apps/toys/FX8-3DFeatures/src/fx83dfeatures/MeshViewer.java:98-180 | at each corner of each face a mesh shows the point that was computed for the corner's column and row, with the texture coordinate of that column and row |
| `MeshViewer.NoFaceSideTwice` | apps/toys/FX8-3DFeatures/src/fx83dfeatures/MeshViewer.java:134-162 | no directed side is in two faces of the built array or twice in one |
| `MeshViewer.FaceSideOppositeIffInner` | apps/toys/FX8-3DFeatures/src/fx83dfeatures/MeshViewer.java:134-162 | inner edges of the built array occur once in each direction, border edges once |
| `MeshViewer.FillFaces` | apps/toys/FX8-3DFeatures/src/fx83dfeatures/MeshViewer.java:134-162 | the loop writes every slot of the face array once and in order, with the corners of the triangles |
| `MeshViewer.BuildTriangleMesh` | apps/toys/FX8-3DFeatures/src/fx83dfeatures/MeshViewer.java:98-180 | points, texture coordinates and faces of a new mesh |
| `MeshViewer.ComputeMesh` | apps/toys/FX8-3DFeatures/src/fx83dfeatures/MeshViewer.java:71-96 | recomputing leaves the points of a mesh built with the new function value, and the rest alone |
| `PNTMeshViewer.NormalIndicesAgree` | apps/toys/FX8-3DFeatures/src/fx83dfeatures/PNTMeshViewer.java:139-139 | the three normal indices of face k are k, so the assertion in computeMesh holds for every mesh that was built |
| `PNTMeshViewer.CornerShown` | apps/toys/FX8-3DFeatures/src/fx83dfeatures/PNTMeshViewer.java:150-289 | at each corner of each face a mesh shows the point that was computed for the corner's column and row, with the texture coordinate of that column and row |
| `PNTMeshViewer.NormalIsOfPoints` | apps/toys/FX8-3DFeatures/src/fx83dfeatures/PNTMeshViewer.java:188-268 | normal k is computed from the coordinates of the three points of face k, in the order of its corners |
| `PNTMeshViewer.NormalAt` | apps/toys/FX8-3DFeatures/src/fx83dfeatures/PNTMeshViewer.java:188-268 | normal k is the normal of the three points of face k |
| `PNTMeshViewer.FillFaces` | apps/toys/FX8-3DFeatures/src/fx83dfeatures/PNTMeshViewer.java:188-268 | the loop with its running normal count fills faces and normals completely |
| `PNTMeshViewer.BuildTriangleMesh` | apps/toys/FX8-3DFeatures/src/fx83dfeatures/PNTMeshViewer.java:150-289 | points, normals, texture coordinates and faces of a new mesh |
| `PNTMeshViewer.ComputeMesh` | apps/toys/FX8-3DFeatures/src/fx83dfeatures/PNTMeshViewer.java:82-148 | recomputing in place leaves the points and normals of a mesh built with the new function value |
| `SlideShow.StepBack` | apps/toys/FXSlideShow/src/fxslideshow/Files.java:140-171 | a step that was made is undone by the step back, looping or not |
| `SlideShow.LoopIsCircle` | apps/toys/FXSlideShow/src/fxslideshow/Files.java:140-171 | after any steps a looping list of n files is at (start + net steps) mod n |
| `SlideShow.Files.SetLoop` | apps/toys/FXSlideShow/src/fxslideshow/Files.java:184-188 | the neighbours are known from then on, also for lists of one and two files |
| `SlideShow.Files.Next` | apps/toys/FXSlideShow/src/fxslideshow/Files.java:140-152 | one step forward, or none at the end of a list that does not loop |
| `SlideShow.Files.Previous` | apps/toys/FXSlideShow/src/fxslideshow/Files.java:158-171 | one step back, likewise |
| `SlideShow.Files.NextFilePath` | apps/toys/FXSlideShow/src/fxslideshow/Files.java:92-98 | the path of the next file, if there is one |
| `SlideShow.Files.PrevFilePath` | apps/toys/FXSlideShow/src/fxslideshow/Files.java:104-110 | the path of the previous file, if there is one |
| `SlideShow.Show.constructor` | apps/toys/FXSlideShow/src/fxslideshow/FXSlideShow.java:579-655 | the current file and the next one, if there is one, are being loaded, and nothing else |
| `SlideShow.Show.NextImage` | apps/toys/FXSlideShow/src/fxslideshow/FXSlideShow.java:419-479 | each slot keeps matching its place in the list or is empty; the file ahead is prefetched, the one left is kept if it is to be, and no cancelled loading comes into a slot |
| `SlideShow.Show.Shift` | apps/toys/FXSlideShow/src/fxslideshow/FXSlideShow.java:444-477 | which loadings move, start and are dropped |
| `SlideShow.Show.Reload` | apps/toys/FXSlideShow/src/fxslideshow/FXSlideShow.java:490-495 | reloading cancels the current loading if it runs, and only then leaves a cancelled one in its slot |

## Left out

- The terminal's DOM is modelled as its document order, on values: node identity and aliasing, and the attributes of spans other than `style`, are not.
- Terminal.Terminal.InsertString: answers false, and then stops, for form feed, operating system command 72, `@`, `J`, `K` with a parameter above 0, insert mode and the alternate screen; the document holds no tab, carriage return or form feed characters, wrapping is on, line editing is off and the columns of the home block are unbounded.
- Terminal.Terminal.MoveTo: coordinates are unbounded integers; that they survive packing into a long is `Counting.PackingIsExact`.
- Terminal.Terminal.DeleteCharactersRight: the deleting form of `eraseCharactersRight` only, since the other does not advance past a text node it has blanked.
- `eraseUntil` (it removes the span that holds the cursor), object elements, nested blocks, prompts, the input line's own text, focus and key events.
- Terminal.Terminal.InsertLines: the row equations are for flat blocks, without spans, in which no row begins with a zero-width character, for counts within the region, and for regions that end above the last row of the document; what the row operations do inside spans is only that the document stays well formed.
- Terminal.Terminal.ScrollForward: likewise.
- Terminal.Terminal.ScrollReverse: likewise.
- Terminal.Terminal.DeleteLines: likewise, and entered at column 0.
- Terminal.Terminal.Edit: likewise for L, M, S and T.
- Terminal.Terminal.EditRegion: likewise.
- Terminal.Terminal.RegionOnly: likewise.
- Terminal.Terminal.DeleteLinesIgnoreScroll: which rows go is said for flat blocks only.
- Terminal.Terminal.ContinueSequence: what the sequence it ends does to the cells and the styles is stated by `Dispatch` and `HandleControlSequence`, not again here.
- Terminal.Terminal.InsertChunks: says that the cursor and the widths of the rows are the same however the text is cut, not that the nodes and the characters are.
- Tracks.AllIsTold: rows that are put in, taken out or scrolled leave only the cursor known, until the chunk ends; what a flat block's rows then are is stated by `InsertLines` and the others.
- Terminal.Terminal.SetMode: answers false for insert mode and the alternate screen.
- Terminal.Terminal.HandleControlSequence: answers false for `@`, `J` and `K` with a parameter above 0.
- Terminal.Terminal.Dispatch: answers false for operating system command 72.
- Erasing.EraseRight: that spans are removed once they are empty is done but not stated.
- Counting.Delta2D: text without tabs, carriage returns and form feeds, which the document never holds.
- Counting.PackedIsRecount: likewise.
- Tree.Delta2DIsRecount: likewise.
- TraceReader.Decoder.GlRecord: one command of each record shape, not all opcodes.
- TraceReader.Decoder.EglRecord: likewise.
- MeshViewer.BuildTriangleMesh: smoothing groups and the overflow of int are not modelled.
- Calls whose records have the shape of a modelled one, opcodes the decoder does not implement, `eglGetConfigAttrib` (its arguments are read in no fixed order) and all printing.
- Files that were cut short or damaged: the decoder is total in the model, with nothing behind the end of the file; strings and blocks are shorter than 2^31 - 4 bytes.
- TraceReader.OpenTrace: any pointer size other than 4 is taken for 8, the only other one a recorder writes.
- TraceWriter.Writer.Enlarge: the window keeps its address from one mapping to the next.
- GlRecorder.Recorder.ChooseConfig: a null configuration array with a positive size and results is not modelled, since the recorder reads through it.
- GlRecorder.Recorder.DrawElements: vertex arrays and indices that are recorded are below 2^31 - 4 bytes, and products are taken not to overflow.
- Threads.StepKeeps: a put, and the reading of one binding, are single steps.
- Threads.FramedIffNotesIdle: one note at a time; `FramedIff` is for all runs.
- Mapping, locking, loading of libraries, the drivers and the clock are foreign: the file is a sequence of bytes, the lock an owner and a depth, the driver's answers and the times are parameters.
- `sb_appendFloat` and the rest of the printing buffer, frame rates and dumped textures.
- MeshGrid.FillPoints: floats are uninterpreted, so nothing is said about rounding, and a mesh without subdivisions has whatever points the functions give.
- SlideShow.Show.NextImage: how far a loading has come between steps is arbitrary; what is shown on the screen and the timer that steps on are not modelled.
- Smoothing groups, materials and everything that is shown of a mesh.
- `Files.add` and `Files.randomize`, the other applications of the repository, `WebOutputStream` and the Unicode tables.
