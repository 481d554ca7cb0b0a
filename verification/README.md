# Verified models of CodeMirror's document, Java-WebSocket's protocol, simpledb's store and NanoHTTPD's boundary search

This project models the stateful core of four components of the repository and proves, for every input,
run and reachable state, that each of them does what a much simpler structure does.

**CodeMirror's document** (`gui/introduction/js/codemirror.js`)

- `Chunks`, `ChunkInsert`, `ChunkRemove`, `LineTree`: the B-tree of lines. Inserting and removing lines
  equals inserting into and deleting from a flat list of lines; cached sizes and heights stay the true sums,
  parent links stay exact, leaves keep at most 50 lines and branches at most 10 children, through the
  25-line cuts, spilling up to the root and collapsing.
- `LineLookup`: line number, line and height are looked up in the tree as they would be in the list.
- `Text`, `UpdateDoc`: a text is a list of lines, changes of which are glued together by an associative
  operation. All branches of `updateDoc` on the tree equal one flat replacement; positions are carried over
  a change in order and together with the text around them.
- `History`, `HistoryRuns`, `HistoryFaults`: undo and redo with merging, trimming and generation numbers against
  plain stacks of texts, and runs that lose an edit.
- `Selections`, `Replacements`: normal selections, and replacing all selected ranges at once.
- `Styles`: overlays on the run-length style array, and the search in it.
- `View`: the cached list of visible line objects with what is drawn of them, together with the tree that it looks into.

**RFC 6455** (`src/org/java_websocket`)

- `Frames`, `FrameStream`, `Fragments`: encoding and decoding of frames, streams cut into chunks, messages
  cut into fragments, as functions with their laws.
- `Draft6455`: the buffers, loops and fields of the program, method by method equal to those functions.
- `Connection`: the life of a connection.
- `Wire`: what the bytes of a frame are, as an independent definition that decoder and encoder agree with.
- `Utf8`: what the automaton for UTF-8 lets pass.
- `Endpoint`: all of these together, from the bytes of the reads to what the listener is told and how the
  connection ends.

**simpledb** (`src/org/simpledb`)

- `Cache`, `CacheRuns`: the write-back cache with flusher and eviction.
- `PartFile`: one flat range over part files.
- `Sectors`, `StringArray`, `StoreRuns`, `StoreFaults`: the array of byte strings in sectors and records, which
  answers every run of calls like a sequence up to a call that can be told beforehand, and runs in which it does not.

**NanoHTTPD** (`src/org/nanohttpd/NanoHTTPD.java`)

- `Boundary`: the search in a sliding window finds what a search of the whole body finds.

`Bytes`, `Seqs`, `Options` and `CloseCodes` hold what the others share. Lemmas with a proof turn automatic
induction off, so that their bodies are the whole proof.

## Where the program does less than it seems to promise

Each of these is kept as the program has it, and the condition under which the promise holds is part of the
contract named here.

- An offset of a file that is written with fewer bytes than before makes the count of cached bytes too high,
  and the eviction loop may then spin for ever (`CacheRuns.ShorterWriteHangs` for the cache,
  `StoreFaults.HangsOnFourthCall` for the array). When it does: `Cache.ActionThread.MakeRoom`. It never does while
  each offset has one length (`CacheRuns.RunAccesses`), nor in a run on the array whose cache has room for a part
  beside what its sets leave of the sectors they write to (`StoreRuns.RunCalls`, `StoreRuns.RunFromNew`).
- Reading zero bytes, which happens for an empty item, puts an empty entry into the cache; where the item is at the
  start of a part, at the start of the part before. That hides the bytes there: exactly the item that has the
  first of them is lost (`StringArray.InfinityStringArray.GetBytes`, `Sectors.RiskyReadLoses`,
  `StoreFaults.HiddenByEmpty`).
- An empty byte string that is added has no sector; setting it to one byte, or to none again, writes that byte at
  position 0 of the data file, over the item there (`StringArray.InfinityStringArray.SetBytes`,
  `Sectors.ClashLoses`, `StoreFaults.OverwrittenByEmpty`). Adding it harms no other item
  (`Sectors.EmptyAdded`), and reading it is a read of zero bytes at position 0.
- A selection set in the operation of the last selection overwrites the top entry of the undo stack even if
  that is a change, which then can not be undone (`History.Doc.SetSelection`, `HistoryFaults.EditIsLost`); so
  does undoSelection with the entry below the selection that it goes to (`History.Doc.MakeChangeFromHistory`).
- `clearHistory` reuses the highest generation number for the present text (`History.Doc.ClearHistory`,
  `HistoryFaults.CleanWithoutTheEdit`).
- The boundary search never reports a boundary that ends with the last byte (`Boundary.MissesLastOnly`).
- A change of the whole text that makes the document shorter than the view leaves the view wrong until it is
  adjusted (`View.Display.ChangeFull`).
- A frame whose size is beyond the range of `int` makes the size wrap around, and the decoder fails
  (`Frames.RoundTrip`).

## Model

| member | source | states |
|---|---|---|
| LineTree.Document.Insert | gui/introduction/js/codemirror.js:6121-6125 | The lines appear at the place asked for in the flat list of lines, in order, and nothing else changes there; afterwards every cached size and height is the true one, every parent link exact, every node but the root non-empty, every leaf has at most 50 lines and every branch at most 10 children |
| LineTree.Document.Remove | gui/introduction/js/codemirror.js:6126 | The given lines disappear from the flat list and nothing else changes there; the same invariant holds afterwards; the lines removed have no parent then, every line that stays has one, and lines outside of the document get none |
| LineTree.Document.constructor | gui/introduction/js/codemirror.js:6085-6089 | A new document has one empty line and meets the invariant |
| LineTree.Document.NewLine | gui/introduction/js/codemirror.js:1666-1670 | A new line object that no leaf holds yet, different from all others; the document is not touched |
| LineTree.Document.InsertIntoBranch | gui/introduction/js/codemirror.js:5660-5686 | Insertion below a node whose parent has counted the lines in advance restores the invariant of the whole tree and puts the lines at the right place of the whole document |
| LineTree.Document.InsertIntoLeaf | gui/introduction/js/codemirror.js:5593-5599 | A leaf takes the lines at their place, counts their height and becomes their parent; no other node changes |
| LineTree.Document.SplitAndSpill | gui/introduction/js/codemirror.js:5669-5681 | A leaf that has grown over 50 lines is cut into pieces and its branch spilled, however far up: all size limits hold again and the list of lines is the same |
| LineTree.Document.SplitLeaf | gui/introduction/js/codemirror.js:5672-5679 | The first 25 to 49 lines stay, all others go to new leaves of exactly 25 lines each right behind, in order, with exact heights and parents |
| LineTree.Document.MaybeSpill | gui/introduction/js/codemirror.js:5689-5709 | From a tree in which only this branch may have too many children to one in which none has, with the same list of lines; the recursion up to the root terminates |
| LineTree.Document.Spill | gui/introduction/js/codemirror.js:5692-5708 | One turn of the loop: five children move to a new sibling right behind, whose parent may now be the only node over the limit |
| LineTree.Document.SpillSibling | gui/introduction/js/codemirror.js:5693-5706 | The new sibling has the last five children, and sizes and heights of both halves and of their parent are the true sums |
| LineTree.Document.SplitRoot | gui/introduction/js/codemirror.js:5695-5699 | The root becomes the parent of two new nodes that share its children between them |
| LineTree.Document.RemoveInner | gui/introduction/js/codemirror.js:5574-5584 | On any node, while its ancestors are being updated: its lines are those before without the ones removed, which have lost their parent, and all nodes but those ancestors are consistent |
| LineTree.Document.RemoveFromBranch | gui/introduction/js/codemirror.js:5628-5652 | The same for a branch, with the loop over its children, children left empty dropped, and a branch below 25 lines made into one leaf |
| LineTree.Document.RemoveFromLeaf | gui/introduction/js/codemirror.js:5574-5584 | The lines leave the leaf and lose their parent, and the height goes down by theirs |
| LineTree.Document.RemoveFromChild | gui/introduction/js/codemirror.js:5633-5638 | One child loses some of its lines; if all, it leaves the list of children |
| LineTree.Document.RemoveLines | gui/introduction/js/codemirror.js:5631-5642 | After the loop the children of the branch together have exactly the lines that were not removed |
| LineTree.Document.Collapse | gui/introduction/js/codemirror.js:5645-5651 | A branch of few lines gets a single new leaf as its child, with the same lines in the same order, of which that leaf is now the parent |
| LineTree.Document.Gather | gui/introduction/js/codemirror.js:5654-5658 | The lines below a node, in the order of the document |
| ChunkInsert.SplitKeeps | gui/introduction/js/codemirror.js:5669-5681 | Cutting a leaf into pieces preserves the invariant of the whole tree and the list of lines |
| ChunkInsert.SpillKeeps | gui/introduction/js/codemirror.js:5693-5706 | Moving five children to a new sibling preserves the invariant of the whole tree and the list of lines |
| ChunkInsert.RootSplitKeeps | gui/introduction/js/codemirror.js:5695-5699 | Putting a new level below the root preserves the invariant and the list of lines |
| ChunkInsert.LeafInsertKeeps | gui/introduction/js/codemirror.js:5593-5599 | An insertion into a leaf that its ancestors have counted makes the whole tree consistent again |
| ChunkInsert.EnterKeeps | gui/introduction/js/codemirror.js:5663-5668 | Counting lines in advance on the way down leaves exactly one child behind, at the right offset |
| ChunkInsert.SpillBounds | gui/introduction/js/codemirror.js:5707-5708 | After a spill only the node itself and its parent can have more than 10 children |
| ChunkRemove.CollapseSettled | gui/introduction/js/codemirror.js:5645-5651 | After collapsing, the branch has one leaf with all its lines, and all limits on sizes hold below it |
| LineLookup.GetLine | gui/introduction/js/codemirror.js:874-885 | The line object at a place of the flat list, and an error exactly for places outside of it |
| LineLookup.LineNo | gui/introduction/js/codemirror.js:917-927 | The place of a line object in the flat list, and null exactly for a line without a parent |
| LineLookup.LineNoOfLine | gui/introduction/js/codemirror.js:874-927 | lineNo of getLine of n is n, for every line of every document |
| LineLookup.FlatNoDup | gui/introduction/js/codemirror.js:917-927 | No line object is in a document twice, so that its number is unique |
| Chunks.HolderOf | gui/introduction/js/codemirror.js:5557-5608 | A line of the document is held by the leaf that it names as its parent, with the height that is counted for it |
| LineLookup.HeightAtLine | gui/introduction/js/codemirror.js:1607-1624 | The sum of the heights of all lines before the line, read off the cached heights of the tree |
| LineLookup.LineAtHeight | gui/introduction/js/codemirror.js:931-949 | The line that begins at or above a height and ends below it, the number of lines if there is none, and the first line for a negative height |
| LineLookup.OneLineAtHeight | gui/introduction/js/codemirror.js:931-949 | With non-negative heights there is only one such line |
| LineLookup.UpdateLineHeight | gui/introduction/js/codemirror.js:910-913 | The line has the new height, in its place in the flat list, and all cached heights up to the document are exact again; a line outside of the document changes nothing else |
| Text.HeadTail | gui/introduction/js/codemirror.js:890-900 | A text is what comes before a position, continued by what comes behind it |
| Text.SplitUnique | gui/introduction/js/codemirror.js:890-900 | Only one text ends at a given position of a text, and only one begins there |
| Text.EndOfChange | gui/introduction/js/codemirror.js:4613-4617 | changeEnd is where the new text of a change ends in the changed text: before it are the text before the change and the new text, behind it the text behind the change |
| Text.InverseUndoes | gui/introduction/js/codemirror.js:4804-4811 | The change recorded in the history for a change fits the changed text and takes it back to exactly what it was |
| Text.FlatGlue | gui/introduction/js/codemirror.js:4697-4746 | The text as one string, with line separators, of two texts one behind the other is the two strings one behind the other |
| Text.FlatReplaced | gui/introduction/js/codemirror.js:4697-4746 | A change of lines is one replacement in the text as one string |
| Text.BeforeStays | gui/introduction/js/codemirror.js:4622 | Positions up to the start of a change, and the text before them, are not affected by the change |
| Text.AfterMoves | gui/introduction/js/codemirror.js:4625-4627 | Behind the adjusted place of a position past the change is the same text as before |
| Text.AdjustedTo | gui/introduction/js/codemirror.js:4621-4624 | A position before the change stays, and one within it becomes the end of the new text |
| Text.AdjustKeepsOrder | gui/introduction/js/codemirror.js:4621-4628 | Adjusting positions for a change keeps their order and leads to positions of the new text |
| Text.FlatAdjust | gui/introduction/js/codemirror.js:4621-4628 | The same in the text as one string: what is before a position up to the change and behind one past it |
| UpdateDoc.UpdateDoc | gui/introduction/js/codemirror.js:4697-4746 | Whichever branch is taken, the text of the tree is the old text with the range of the change replaced; line objects before and behind the lines of the change stay the same ones, and all of them if the change is within a line and no whole-line update; every line of the change has the height estimated for its new text, and all others keep theirs |
| UpdateDoc.UpdateFull | gui/introduction/js/codemirror.js:4715-4717 | A full change leaves exactly the new text, with the heights estimated for it |
| UpdateDoc.UpdateWholeLines | gui/introduction/js/codemirror.js:4718-4724 | The branch for whole lines is the same flat replacement, and the line behind the new ones is measured again as well |
| UpdateDoc.UpdateOneLine | gui/introduction/js/codemirror.js:4725-4733 | So are the branches for a change within one line, into one line or many; the lines of the change are measured |
| UpdateDoc.UpdateToOneLine | gui/introduction/js/codemirror.js:4734-4736 | So is the branch that joins lines into one, which is measured |
| UpdateDoc.UpdateManyLines | gui/introduction/js/codemirror.js:4737-4743 | So is the branch that replaces many lines by many, all of which are measured |
| UpdateDoc.UpdateLine | gui/introduction/js/codemirror.js:1678-1687 | The line has its new text and the height estimated for it; text, height and place of all other lines are kept, and the sums are exact |
| UpdateDoc.LinesFor | gui/introduction/js/codemirror.js:4703-4708 | New line objects with the texts and the heights estimated for them, in no leaf yet, while the document keeps its lines |
| UpdateDoc.WholeLines | gui/introduction/js/codemirror.js:4718-4724 | Dropping and inserting whole lines in front of an untouched last line is the flat replacement |
| UpdateDoc.ManyToMany | gui/introduction/js/codemirror.js:4737-4743 | Editing both end lines and replacing the lines between is the flat replacement |
| History.Doc.MakeChange | gui/introduction/js/codemirror.js:5267-5282 | The text is the changed one. The change joins the newest event if and only if it is made in the operation of the last one or its origin ties it to that, and such an event is found; then the stack of texts to go back to stays, otherwise it gets the old text on top. The oldest entries are dropped exactly as far as undoDepth demands, and none while the stack is within it. There is nothing to go forward to, the generation is a new one, and the selection is the one asked for and recorded. A change that changes nothing does nothing at all |
| History.Doc.MakeChangeFromHistory | gui/introduction/js/codemirror.js:5285-5357 | Undo goes to the exact text on top of the past and puts the text it left on top of the future, redo the other way round; without anything to take back nothing happens; the selection shown is the one recorded before the event, and the one that was recorded after it, or is present, lies below the event that leads back, with the generation that it leads back to; the selections in between have moved over; undoSelection and redoSelection go to the newest other selection or take an event back, whichever is newer. The history stays sound if and only if undoSelection does not put its selection in the place of an event |
| History.Doc.AddChangeToHistory | gui/introduction/js/codemirror.js:4838-4879 | All stored events remain applicable and lead to the same texts, seen from the text to come; whether the change is merged, which entries remain, and that the new generation stands for that text alone |
| History.Doc.MergeIntoLast | gui/introduction/js/codemirror.js:4850-4858 | A change merged into the last event, also by only moving the end of an insertion: the event now leads from the new text to the text that it led to before |
| History.Doc.NewEvent | gui/introduction/js/codemirror.js:4860-4871 | A new event leads from the new text back to the old one, and undoDepth drops the oldest entries only as far as it must |
| History.Doc.Trim | gui/introduction/js/codemirror.js:4867-4870 | What remains is the newest part of the stack with at most undoDepth entries, one less where that would begin with an event without its selection, and the texts of the events in it; nothing is dropped from a stack within undoDepth |
| History.Doc.LastChangeEvent | gui/introduction/js/codemirror.js:4823-4833 | An event is found if and only if there is one (with force), or one among the two newest entries (without); only selections above it are popped, and without one nothing is popped unless forced |
| History.Doc.Stamp | gui/introduction/js/codemirror.js:4872-4876 | The new text gets a generation that no text had before, and no older generation changes its meaning |
| History.Doc.SetSelection | gui/introduction/js/codemirror.js:4894-4914 | The selection is set and takes the place of the newest entry or comes on top of it; text, texts and generation are kept, selections on top of what can be redone go if that is asked for, and the history stays sound if and only if the selection does not overwrite a change on top of the stack |
| History.Doc.MarkClean | gui/introduction/js/codemirror.js:6272-6279 | The marked generation stands for the present text, and later changes are not merged into what is there |
| History.Doc.IsClean | gui/introduction/js/codemirror.js:6280-6282 | When the answer is yes, the text is the one that had the marked (or the given) generation |
| History.Doc.ClearHistory | gui/introduction/js/codemirror.js:6270 | Nothing is left to undo or redo, and generations still stand for one text each if and only if the highest generation stood for the present text |
| History.Doc.constructor | gui/introduction/js/codemirror.js:4787-4800 | A new history is empty, without a limit on its depth, and stands for the text at hand in its first generation |
| History.Doc.RevertChanges | gui/introduction/js/codemirror.js:5320-5356 | Making the changes of an event, the last one first, leads to the text before the event, and the changes collected on the way lead back |
| History.PopEvents | gui/introduction/js/codemirror.js:5303-5316 | Selections move over to the other stack until an event, or a selection to show, is found, and which of the two it is: exactly the entries above it have moved, in order, and the last of them is the selection to come back to; both stacks keep their meaning |
| History.RevertExtended | gui/introduction/js/codemirror.js:4851-4854 | Moving the end of the last insertion has the same effect as recording another insertion right behind it |
| History.RevertInverse | gui/introduction/js/codemirror.js:4855-4858 | Appending the inverse of a change to an event leads back to where the event led |
| History.ChainTrim | gui/introduction/js/codemirror.js:4867-4870 | The stack without its oldest event, and without the selection before it, leads to the same texts but the oldest |
| History.FewerEvents | gui/introduction/js/codemirror.js:4905 | A stack whose top event was overwritten by a selection does not lead to the same texts any more |
| HistoryRuns.Perform | gui/introduction/js/codemirror.js:4838-4879 | Each call does to the text and the two stacks of texts what it would do to a plain undo list, with merging of edits and of selections and trimming exactly where the program does them, and shows the selection that was recorded |
| HistoryRuns.UndoThenRedo | gui/introduction/js/codemirror.js:5285-5357 | Redo after undo restores text, past, future and generation, and shows the selection recorded right above the event, or the one that was present |
| HistoryRuns.BackAndForth | gui/introduction/js/codemirror.js:5285-5357 | The same for any undo and redo of a run |
| HistoryRuns.EditUndoRedo | gui/introduction/js/codemirror.js:4838-4879 | After an edit, an undo and a redo there are the text, the generation and the selection that the edit left |
| HistoryRuns.RunCalls | gui/introduction/js/codemirror.js:5285-5357 | The same for every run of edits, undos, redos, selections (set, undone and redone) and marks under any undoDepth, up to the first call that is outside of the text or would overwrite an event; at any two times of the run the same generation means the same text, and a document whose generation is the marked one has the text that was marked |
| HistoryRuns.EditsTogether | gui/introduction/js/codemirror.js:4838-4879 | Two edits in a row, where undoDepth leaves room for an event, are taken back by one undo if and only if they were made in one operation or the origin of the second ties it to the first; otherwise the undo goes to the text between them |
| HistoryFaults.EditIsLost | gui/introduction/js/codemirror.js:4901-4907 | A selection, a redo and another selection in one operation, after which the edit that was redone can not be undone |
| HistoryFaults.CleanWithoutTheEdit | gui/introduction/js/codemirror.js:6270-6282 | An edit, an undo and clearHistory, after which isClean says yes to the generation of the edit although the text is without it |
| Selections.NormalizeSelection | gui/introduction/js/codemirror.js:4589-4605 | Ranges come out sorted and separated (if they may touch: strictly, or touching in front of a non-empty one), cover exactly the same positions, and the primary index names the range that contains the old primary range; only ranges that touch or overlap one before them in their group are merged into it; a range that is not empty has the direction of the first non-empty range within it |
| Selections.MergedStandsFor | gui/introduction/js/codemirror.js:4598-4601 | A merged range has the direction of the first of its parts that is not empty |
| Selections.ChainsMerged | gui/introduction/js/codemirror.js:4594-4602 | A merge joins two groups of ranges of which each but the first touches or overlaps one before it to another such group, and the range that stands for it ends where one of them does |
| Selections.SortByFrom | gui/introduction/js/codemirror.js:4592 | Sorted by where the ranges start, and the same ranges |
| Selections.MergeStep | gui/introduction/js/codemirror.js:4597-4602 | Replacing two overlapping neighbours by their union keeps order, separation, cover and the primary range |
| Selections.MergedCovers | gui/introduction/js/codemirror.js:4598-4601 | The merged range covers exactly what its two parts cover, and starts where the first one does |
| Replacements.ReplaceSelections | gui/introduction/js/codemirror.js:6242-6255 | The text is that of all selected ranges replaced at once, and each new range, worked out beforehand, lies around (or at the start of) its own new text in that final text |
| Replacements.MakeChanges | gui/introduction/js/codemirror.js:6251-6252 | Making the changes from the last to the first equals replacing all ranges at once |
| Replacements.OneMore | gui/introduction/js/codemirror.js:6251-6252 | One change in front of those that have been made still fits, and is one more part replaced |
| Replacements.ComputeReplacedSel | gui/introduction/js/codemirror.js:4649-4666 | For each change the range is right in the final text, turned like the range that it replaces |
| Replacements.EndsBracket | gui/introduction/js/codemirror.js:4653-4657 | Between the two ends is exactly the inserted text, with the right text before and behind |
| Replacements.OffsetOfEnd | gui/introduction/js/codemirror.js:4640-4645 | offsetPos moves the end of a text to where the same text ends behind another one |
| Replacements.OffsetsRight | gui/introduction/js/codemirror.js:4654-4655 | The two positions that are added up from change to change are the ends of the new text in the final text |
| Replacements.NormalInOrder | gui/introduction/js/codemirror.js:6246-6249 | The ranges of a normal selection make changes that lie one behind the other |
| Styles.HighlightLine | gui/introduction/js/codemirror.js:1051-1094 | The entries have strictly increasing ends that cover the line, and each character has the style of the mode, extended by each overlay that is not opaque or replaced by one that is, in order: it is spelled by the style of the mode, if no opaque overlay hides it, and behind it the mark and the own style of each overlay that no later opaque one hides |
| Styles.LayeredSpells | gui/introduction/js/codemirror.js:1075-1083 | The same for any number of overlays at one character |
| Styles.WordsMore | gui/introduction/js/codemirror.js:1075-1083 | One more overlay: its mark and style replace all others if it is opaque, join them if not, and nothing happens where it has no style |
| Styles.ApplyOverlay | gui/introduction/js/codemirror.js:1061-1089 | The same for one overlay on any entries |
| Styles.ApplyToken | gui/introduction/js/codemirror.js:1065-1085 | One token of an overlay: its characters are restyled or replaced, all others keep their style, and the entries still cover the line |
| Styles.Align | gui/introduction/js/codemirror.js:1067-1074 | After the loop an entry ends where the token does, and no character has another style |
| Styles.RestyleEntries | gui/introduction/js/codemirror.js:1080-1083 | Exactly the entries between the two places get the overlay added to their style |
| Styles.EntryAt | gui/introduction/js/codemirror.js:8319-8324 | The binary search ends, at the only entry that covers the character before a position |
| Styles.GetTokenTypeAt | gui/introduction/js/codemirror.js:8313-8327 | The style of that character without its overlays; at the start of a line that of the first character; nothing in an empty line |
| Styles.TokenTypeIsBase | gui/introduction/js/codemirror.js:8313-8327 | After highlighting, the token type is what the mode said, or nothing where an opaque overlay covers it |
| Styles.BaseOfUnder | gui/introduction/js/codemirror.js:8325-8326 | Cutting a combined style at the first overlay gives the style of the mode back |
| Styles.LayeredUnder | gui/introduction/js/codemirror.js:1075-1083 | A combined style starts with the style of the mode unless an opaque overlay covers it |
| View.Display.RegChange | gui/introduction/js/codemirror.js:2976-3037 | Told of the lines a change left alone, the view lists again exactly the line objects of the present document between its ends, if it did before; the lines left alone keep their views, with what is drawn of them, and no other line is drawn. Told of a full change, it is right if and only if it ended within the new document |
| View.Display.RegLineChange | gui/introduction/js/codemirror.js:3041-3052 | The view lists the same lines, and only the view of the changed line, if it is drawn, gets the mark, once |
| View.Display.AdjustView | gui/introduction/js/codemirror.js:3088-3105 | Whatever the view was, also after full changes, it then lists exactly the line objects asked for; those it had keep what is drawn of them, and no other line is drawn |
| View.Display.ResetView | gui/introduction/js/codemirror.js:3055-3059 | An empty view, which is right for every document |
| View.Display.BuildViewArray | gui/introduction/js/codemirror.js:1989-1997 | The line objects of the range, in order, none missing and none drawn |
| View.Display.FindViewIndex | gui/introduction/js/codemirror.js:2959-2967 | The place in the view of a line of the document, and nothing exactly for lines that it does not show |
| View.Display.PatchDisplay | gui/introduction/js/codemirror.js:4172-4211 | If no node shows an old text without a mark, each line of an exact view is afterwards on the screen with its present text, and nothing is marked as changed |
| View.Display.DrawLine | gui/introduction/js/codemirror.js:2077-2085 | A line that is not drawn gets a node with its text, and a drawn one another node if its text has changed; no marks are left |
| View.Display.Redraw | gui/introduction/js/codemirror.js:4053-4098 | Exactly the lines asked for are on the screen, with their present text |
| View.CarriedCurrent | gui/introduction/js/codemirror.js:2976-3037 | If no node showed an old text without a mark before a change, none does in a view in which only the lines left alone keep their nodes |
| View.MarkedCurrent | gui/introduction/js/codemirror.js:3041-3052 | The same for a change in one line of which the view is marked |
| View.Display.Change | gui/introduction/js/codemirror.js:5425-5455 | A change of the tree and what the view is told about it together keep the view exact, and keep every node either up to date or marked, for every change that is not full; the lines of the change are measured and all others keep their heights |
| View.Display.ChangeFull | gui/introduction/js/codemirror.js:5450-5451 | After a full change the view is exact if and only if it ended within the new document, whose lines are all measured |
| View.RunEvents | gui/introduction/js/codemirror.js:5425-5455 | In every run of changes, full changes and redraws the text is what the changes make of it; a change keeps an exact view exact, after a full change it is exact if and only if it ended within the new text, and each redraw makes it exact again and leaves exactly the present text of its lines on the screen |
| View.BottomKept | gui/introduction/js/codemirror.js:3000-3008 | The part of a view below a change is right at its new place in the changed document |
| View.TopKept | gui/introduction/js/codemirror.js:3009-3016 | The part of a view above a change is right in the changed document |
| Frames.RoundTrip | src/org/java_websocket/drafts/Draft_6455.java:422-513 | Decoding an encoded frame with anything behind it gives back the same frame and takes exactly its bytes, if and only if it is within maxFrameSize and the range of int and passes its own check; for every length and masked or not |
| Frames.ShortestLength | src/org/java_websocket/drafts/Draft_6455.java:602-609 | The length is written in the shortest of the three forms of section 5.2 of RFC 6455 and reads back as itself |
| Frames.ReadEncodedLength | src/org/java_websocket/drafts/Draft_6455.java:527-573 | Reading the length of an encoded frame gives that length and how many bytes it took, within the limit |
| Frames.ReadOrTooLarge | src/org/java_websocket/drafts/Draft_6455.java:462-573 | An encoded frame that passed the check of the sender is read back, or refused for a length beyond maxFrameSize and for nothing else |
| Frames.OpcodeRoundTrip | src/org/java_websocket/drafts/Draft_6455.java:739-773 | Every opcode is read back from its code, which fits in four bits |
| Frames.MaskTwice | src/org/java_websocket/drafts/Draft_6455.java:489-494 | Masking twice with the same key gives the payload back |
| Frames.PrefixStable | src/org/java_websocket/drafts/Draft_6455.java:462-513 | More bytes do not change a result that was reached, and a frame that asked for more either asks for more still or is complete once it got what it asked for |
| Frames.PreferredIsLarger | src/org/java_websocket/drafts/Draft_6455.java:575-586 | An unfinished frame always asks for more bytes than there are, and a frame that is read took at least two bytes and no more than there were |
| Frames.ReadGivenHeader | src/org/java_websocket/drafts/Draft_6455.java:483-512 | What becomes of a frame once header and payload are read: it is accepted exactly within the limits |
| FrameStream.ChunkingIndependence | src/org/java_websocket/drafts/Draft_6455.java:612-661 | However a stream is cut into chunks, the frames read, the bytes left over and the first error are those of reading it at once |
| FrameStream.ParseContinues | src/org/java_websocket/drafts/Draft_6455.java:645-659 | Reading on from the bytes left over is reading the longer stream |
| FrameStream.RestIsUnfinished | src/org/java_websocket/drafts/Draft_6455.java:650-657 | What is left over is nothing, or the beginning of one frame that asks for more |
| FrameStream.ParseEncoded | src/org/java_websocket/drafts/Draft_6455.java:422-661 | A stream of encoded frames is read as exactly those frames, with nothing left over |
| FrameStream.ParseArrived | src/org/java_websocket/drafts/Draft_6455.java:611-661 | However much of an encoded stream has arrived, the frames read are the first ones that were sent, all of them when it has arrived as a whole, and only a frame beyond maxFrameSize breaks it, with the error for that |
| FrameStream.ParsedFramesAreChecked | src/org/java_websocket/drafts/Draft_6455.java:560-573 | Frames that come out of the decoder are within maxFrameSize and passed their own check |
| Fragments.EndToEnd | src/org/java_websocket/drafts/Draft_6455.java:777-911 | A message cut by continuousFrame into any pieces, encoded with any keys, with pings and pongs anywhere in between, received in any chunks, is delivered exactly once and whole, and no fragment stays behind, if and only if it is within the receiver's limit and, if text, UTF-8 (section 5.4 of RFC 6455); otherwise nothing is delivered, and the error is that of the limit exactly if the message is too long |
| Fragments.MessageArrives | src/org/java_websocket/drafts/Draft_6455.java:777-911 | The same for decoded frames of which perhaps only the first ones have come: nothing is delivered so far, or the whole message once if it is deliverable, or it is refused with its error if it is not; when all have come it is one of the last two |
| Fragments.PiecesArrive | src/org/java_websocket/drafts/Draft_6455.java:808-911 | The same from the middle of a message on, with the pieces collected so far |
| Fragments.OnlyPings | src/org/java_websocket/drafts/Draft_6455.java:781-785 | Pings and pongs alone deliver no message and leave the receiver at rest |
| Fragments.DeliveredMessages | src/org/java_websocket/drafts/Draft_6455.java:777-911 | Whatever frames are processed without an error, their data frames are one message after the other, each a first frame and its continuations up to the one marked final, and exactly these messages are delivered, whole and in order; what is left is kept |
| Fragments.OutOfOrder | src/org/java_websocket/drafts/Draft_6455.java:788-820 | Frames are refused as out of order exactly if they continue nothing or begin a message within another |
| Fragments.DeliveredWithinLimit | src/org/java_websocket/drafts/Draft_6455.java:961-968 | No delivered message exceeds maxFrameSize, whatever frames arrive |
| Fragments.ReceiveAtOnce | src/org/java_websocket/drafts/Draft_6455.java:612-661 | For every stream and every cut, the frames of the reads before the first one that can not be parsed are processed as if they had been read at once, up to the first error among them, and if there is none the error of that read comes last, which is that of the whole stream; if everything can be parsed the cut makes no difference |
| Fragments.ReadsBeforeBroken | src/org/java_websocket/drafts/Draft_6455.java:612-661 | A broken stream can be parsed up to the end of the reads before the failing one, and with that read it has the error that it has as a whole |
| Fragments.ProcessInTwoParts | src/org/java_websocket/drafts/Draft_6455.java:777-799 | Processing frames in two goes is processing them in one |
| Fragments.PiecesAcceptable | src/org/java_websocket/drafts/Draft.java:185-213 | Every frame that continuousFrame makes of a message carries one of its pieces and has passed the check of the sender; the decoder accepts it if it is within the limit |
| Draft6455.Draft.TranslateFrame | src/org/java_websocket/drafts/Draft_6455.java:611-661 | Frames and error are those of reading the stored bytes and the new ones at once, what is left over is stored with room for what it asks for, and the retry loop ends |
| Draft6455.Draft.CompleteFrame | src/org/java_websocket/drafts/Draft_6455.java:616-643 | One turn of the retry: the frame is read and the rest of the buffer goes on from there, or a longer buffer takes over and at least one byte has been taken |
| Draft6455.Draft.StoreAvailable | src/org/java_websocket/drafts/Draft_6455.java:623-628 | All bytes are stored, and nothing can be read from them yet |
| Draft6455.Draft.ReadFullFrames | src/org/java_websocket/drafts/Draft_6455.java:645-659 | All full frames are read, and the bytes of the unfinished one are stored |
| Draft6455.Draft.Extend | src/org/java_websocket/drafts/Draft_6455.java:634-641 | The longer buffer starts with all the bytes of the old one |
| Draft6455.Draft.TranslateSingleFrame | src/org/java_websocket/drafts/Draft_6455.java:462-513 | Result and position of the buffer are those of the decoding function on the remaining bytes |
| Draft6455.Draft.TranslatePayloadLength | src/org/java_websocket/drafts/Draft_6455.java:527-553 | The length as the decoding function reads it, and the position behind it |
| Draft6455.Draft.ReadPayload | src/org/java_websocket/drafts/Draft_6455.java:488-498 | The payload, unmasked, and the position behind it |
| Draft6455.Draft.Unmask | src/org/java_websocket/drafts/Draft_6455.java:492-494 | Unmasking byte by byte is the masking function on the whole payload |
| Draft6455.CreateByteBuffer | src/org/java_websocket/drafts/Draft_6455.java:422-460 | The bytes written are those of the encoding function |
| Draft6455.PutBody | src/org/java_websocket/drafts/Draft_6455.java:445-455 | Masking key and masked payload, or the payload, behind a header that is not touched |
| Draft6455.ToByteArray | src/org/java_websocket/drafts/Draft_6455.java:729-736 | The bytes of a number, the most significant first |
| Bytes.XorBitsDigit | src/org/java_websocket/drafts/Draft_6455.java:492-494 | Digit by digit, the number computed is the exclusive or of the two |
| Bytes.OnlyXor | src/org/java_websocket/drafts/Draft_6455.java:492-494 | A byte is the one computed exactly if its bits are those that are set in one of the two and not in the other |
| Wire.FrameRead | src/org/java_websocket/drafts/Draft_6455.java:462-513 | For all bytes: a frame is read from them exactly if they begin with it as section 5.2 of RFC 6455 lays it out (opcode, no reserved bits, one of three lengths, and each payload byte with the bits of byte i % 4 of the key turned over) and it is within the limits, passes its own check, and if it is a control frame is final and has the short length |
| Wire.LengthRead | src/org/java_websocket/drafts/Draft_6455.java:527-573 | The length is read as the bytes say in one of the three forms, within the limits, and for control frames only in the short one |
| Wire.PayloadRead | src/org/java_websocket/drafts/Draft_6455.java:488-498 | The payload read is the one that the bytes and the key spell, and no other |
| Wire.FirstByteRead | src/org/java_websocket/drafts/Draft_6455.java:464-480 | Final mark, opcode and reserved bits are those of the first byte, with the numbers of section 5.2 of RFC 6455 |
| Wire.FrameUnique | src/org/java_websocket/drafts/Draft_6455.java:462-513 | Bytes begin with one frame at most |
| Wire.FrameWritten | src/org/java_websocket/drafts/Draft_6455.java:422-460 | The bytes that are written begin with the frame, as section 5.2 of RFC 6455 lays it out, with the key in front of the payload |
| Wire.AllowedCodes | src/org/java_websocket/framing/CloseFrame.java:236-252 | A close frame passes exactly with a code from 1000 to 1014 other than 1004, 1005 and 1006, with 1007 only if there is a reason, or from 3000 to 4999 (section 7.4 of RFC 6455) |
| Wire.ClosePayloadRead | src/org/java_websocket/framing/CloseFrame.java:254-311 | Code and reason are read back from the payload that was made of them, for every code of two bytes |
| Wire.CloseArrives | src/org/java_websocket/framing/CloseFrame.java:254-311 | A close frame is read exactly if its code is allowed, its reason has at most 123 bytes and it is within the limit, and then the listener is told its code and its reason |
| Wire.CloseRead | src/org/java_websocket/drafts/Draft_6455.java:918-926 | For all bytes: what the listener is told of a close frame that was read is what its payload spells, 1000 without a payload, and a code that is allowed |
| Utf8.Passes | src/org/java_websocket/util/Charsetfunctions.java:105-121 | The automaton of the table rejects exactly the bytes that no further bytes can make the encoding of Unicode scalar values (RFC 3629), and is in its first state exactly after such an encoding |
| Utf8.IsValidUtf8 | src/org/java_websocket/util/Charsetfunctions.java:131-144 | The check passes exactly bytes that can be continued to UTF-8 and are no fewer than the offset |
| Utf8.FirstPartPasses | src/org/java_websocket/drafts/Draft_6455.java:818-820 | However a text in UTF-8 is cut, also within a character, its first part passes the check |
| Utf8.TextIsUtf8 | src/org/java_websocket/util/Charsetfunctions.java:86-99 | If the JDK's strict decoder accepts exactly UTF-8, the check of frames takes nothing away: the texts that arrive are those within the limit that are UTF-8 |
| Bytes.ValueOfBigEndian | src/org/java_websocket/drafts/Draft_6455.java:729-736 | Those bytes stand for the number again, if it fits |
| Bytes.BigEndianDigit | src/org/java_websocket/drafts/Draft_6455.java:732-734 | Each of them is the number shifted right by whole bytes and cut to one |
| Draft6455.Draft.ProcessFrame | src/org/java_websocket/drafts/Draft_6455.java:777-799 | State, events and error are those of the reassembly function, for every frame |
| Draft6455.Draft.ProcessContinuousAndNonFin | src/org/java_websocket/drafts/Draft_6455.java:808-826 | The same for a fragment |
| Draft6455.Draft.ProcessIsFin | src/org/java_websocket/drafts/Draft_6455.java:870-896 | The same for a last fragment; without an error nothing is left behind |
| Draft6455.Draft.CheckBufferLimit | src/org/java_websocket/drafts/Draft_6455.java:961-968 | An error and no fragments left, exactly if they are together longer than the limit |
| Draft6455.Draft.PayloadFromList | src/org/java_websocket/drafts/Draft_6455.java:1011-1026 | The payloads of all fragments one behind the other |
| Draft6455.Draft.ContinuousFrame | src/org/java_websocket/drafts/Draft.java:185-213 | The frame, the error and the field are those of the sending function |
| Draft6455.Draft.DecodeFrames | src/org/java_websocket/WebSocketImpl.java:374-393 | One read: the frames of the stored and the new bytes at once are processed in order up to the first error; if the stream is broken none is |
| Endpoint.DecodeFrames | src/org/java_websocket/WebSocketImpl.java:374-393 | One read, from its bytes on: the connection does exactly what it does for the frames and the error that the stored and the new bytes amount to, an unchecked exception leaves it as it was, and while it stays open the draft keeps the unread bytes and the fragments |
| Endpoint.ProcessFrames | src/org/java_websocket/WebSocketImpl.java:378-381 | The frames of one read, one after the other: the connection does what it does for what each of them amounts to, up to a refused one |
| Endpoint.ProcessFrame | src/org/java_websocket/drafts/Draft_6455.java:777-799 | What the connection does for one frame is settled by the frame and the fragments before it, which are kept as the reassembly function says |
| Endpoint.FrameTold | src/org/java_websocket/drafts/Draft_6455.java:777-911 | On an open connection a frame that the decoder let pass leads to its message, to the pong that is due, or to nothing, or it is refused, and then the close frame that answers it is valid and has 1007, 1009 or 1002 |
| Endpoint.CloseTold | src/org/java_websocket/drafts/Draft_6455.java:918-937 | An open connection that reads a close frame answers with its code, is closing from then on, and tells the listener the code and that the other side closes |
| Endpoint.FramesTold | src/org/java_websocket/WebSocketImpl.java:378-393 | The frames of a read without close frames: all messages are told and pings answered in order, and the connection closes with the code of the first error |
| Endpoint.ReadTold | src/org/java_websocket/WebSocketImpl.java:374-393 | The same for the bytes of a read; bytes that can not be parsed close the connection and nothing of them is told |
| Endpoint.ReadAll | src/org/java_websocket/WebSocketImpl.java:211-229 | All reads of an open connection: however the bytes are cut the listener is told the messages that come out of the stream, pings are answered, and the connection is closed for the error that the stream ends in, if any |
| Endpoint.ReceiveMessage | src/org/java_websocket/WebSocketImpl.java:211-229 | A message that is cut, encoded, mixed with pings and pongs and received in any way is told to the listener exactly once and whole, each ping is answered and the connection stays open, if it is within the limit and, if text, UTF-8; otherwise no message is told and the last packet is a close frame with code 1009 or 1007 |
| Connection.RunCalls | src/org/java_websocket/WebSocketImpl.java:211-586 | In every run each call does what it is for, the state never moves back, there is at most one close frame in the queue and nothing behind it (section 5.5.1 of RFC 6455), and the listener is told at most once each that the connection is closing and that it is closed |
| Connection.Perform | src/org/java_websocket/WebSocketImpl.java:211-586 | The same for one call: a listener that was told of a closing is told the same code and side at the end, and otherwise of an abnormal end or of a connection that never was |
| Connection.ValidIsSafe | src/org/java_websocket/WebSocketImpl.java:434-586 | What the invariant of a connection means for its queue and its listener |
| Connection.WebSocketImpl.Close | src/org/java_websocket/WebSocketImpl.java:434-478 | A close frame is queued exactly if the connection is open, the code is not that of an abnormal close and the frame is valid; afterwards the connection is closing, and the listener has heard with which code and from which side; on a connection that was closing or closed nothing happens at all |
| Connection.WebSocketImpl.FlushAndClose | src/org/java_websocket/WebSocketImpl.java:549-569 | Only the first call stores how the connection closes and tells the listener |
| Connection.WebSocketImpl.CloseConnection | src/org/java_websocket/WebSocketImpl.java:496-532 | The connection is closed, and the listener is told so unless it was closed before |
| Connection.WebSocketImpl.CloseConnectionStored | src/org/java_websocket/WebSocketImpl.java:538-543 | The same with what flushAndClose stored, and an error exactly if it has not been called |
| Connection.WebSocketImpl.Eot | src/org/java_websocket/WebSocketImpl.java:571-586 | After the end of the stream the connection is closed in every case and the listener told with the right code, once; the call fails exactly on a closed connection that never had a draft |
| Connection.WebSocketImpl.Send | src/org/java_websocket/WebSocketImpl.java:627-640 | Frames are queued, in order, if the connection is open, and refused without an effect otherwise |
| Connection.WebSocketImpl.ProcessFrame | src/org/java_websocket/WebSocketImpl.java:377-381 | For every incoming frame what becomes of it: messages go to the listener, a ping is answered if the connection is open and is an error otherwise, a close frame ends a connection that is closing and is echoed on an open one; nothing else changes |
| Connection.WebSocketImpl.DecodeFrames | src/org/java_websocket/WebSocketImpl.java:374-393 | The frames of one buffer take effect one after the other, up to one that is refused, which closes the connection; the listener is told of an error unless it is an exceeded limit other than that of int |
| Connection.WebSocketImpl.Refuse | src/org/java_websocket/WebSocketImpl.java:382-392 | An exception closes the connection with its code; the listener is told of it unless it is a limit that was set |
| Connection.WebSocketImpl.DecodeHandshake | src/org/java_websocket/WebSocketImpl.java:235-372 | The connection is open exactly if the handshake matched, a server that has no draft yet answers it, and each other outcome closes the connection in its own way, with an error told where the listener's own code failed |
| Connection.WebSocketImpl.Decode | src/org/java_websocket/WebSocketImpl.java:211-229 | A read is a handshake first and then frames, and is ignored on a connection that is closing or closed |
| Connection.WebSocketImpl.StartHandshake | src/org/java_websocket/WebSocketImpl.java:669-690 | The request is queued, and nothing else happens |
| Cache.ActionThread.Read | src/org/simpledb/ActionThread.java:42-75 | The bytes that were last written there, from the cache or from the file; what is held elsewhere is kept and the count of cached bytes stays as exact as it was; the call spins for ever only if the count is wrong and beyond the limit with the new entry, and then does if it is too high by that much |
| Cache.ActionThread.Write | src/org/simpledb/ActionThread.java:77-102 | Readers find the bytes there from then on; what is held elsewhere is kept; replacing an entry moves the count by the difference of the lengths; when the call spins, as for reads |
| Cache.ActionThread.Open | src/org/simpledb/ActionThread.java:17-21 | A new cache is empty whatever the files hold |
| Cache.ActionThread.AddToCache | src/org/simpledb/ActionThread.java:23-40 | The entry is added and nothing that was held is lost; the cache is then not larger than its limit or the entry alone |
| Cache.ActionThread.MakeRoom | src/org/simpledb/ActionThread.java:24-35 | The loop ends with room or with nothing counted, unless the count differs from the true total and exceeds the limit with the new entry, and surely spins if it is too high by that much |
| Cache.ActionThread.Evict | src/org/simpledb/ActionThread.java:25-33 | Whichever entry is polled, what is held is kept, and count and total go down together |
| Cache.ActionThread.Flush | src/org/simpledb/ActionThread.java:106-116 | The oldest pending write reaches its file, what is held is kept, and its entry is the one that is no longer pending and no longer marked as changed |
| Cache.ActionThread.RemoveFromSequence | src/org/simpledb/ActionThread.java:95 | Exactly this entry is not pending any more |
| Cache.FlushKeeps | src/org/simpledb/ActionThread.java:109-113 | Writing an entry out changes nothing that a reader finds, and entries that are not pending agree with the disk |
| Cache.EvictKeeps | src/org/simpledb/ActionThread.java:25-33 | So does polling an entry, written out first if it is not clean |
| Cache.TotalChange | src/org/simpledb/ActionThread.java:93-97 | How the true total changes when one entry gets another length |
| CacheRuns.RunAccesses | src/org/simpledb/ActionThread.java:23-126 | When each offset is always accessed with one length, every run of reads, writes and flushes ends, each read returns the bytes last written there, the count is the true total throughout, and the cache keeps to its limit or to the longest entry |
| CacheRuns.PollFindsEntry | src/org/simpledb/ActionThread.java:25-27 | In such a run there is an entry to poll as long as anything is counted |
| CacheRuns.ShorterWriteHangs | src/org/simpledb/ActionThread.java:23-40 | Three writes after which the eviction loop spins for ever |
| PartFile.InfinityFile.Read | src/org/simpledb/InfinityFile.java:63-91 | Nothing beyond the end of the file, else the bytes last written to the range, whether in one part or in two; the rest of the store is kept, but a read of no bytes leaves an empty entry that may hide what is there; the call spins only if the count of cached bytes is too high for the range, and then does if that is so for its first piece |
| PartFile.InfinityFile.Write | src/org/simpledb/InfinityFile.java:93-131 | The range holds the bytes, everything outside of it is kept, and the file grows exactly if they were written at its end; the count of cached bytes gets no further off than the room that was there exceeds the bytes; when the call spins, as for reads |
| PartFile.InfinityFile.Add | src/org/simpledb/InfinityFile.java:133-137 | The bytes are held from the old end of the file on, where the file now ends behind them; when the call spins, as for writes |
| PartFile.InfinityFile.Open | src/org/simpledb/InfinityFile.java:24-40 | A file that is opened has the size of its parts together |
| PartFile.InfinityFile.GetPartFile | src/org/simpledb/InfinityFile.java:44-60 | The part with this number, made if it is the next one |
| PartFile.InfinityFile.Parts | src/org/simpledb/InfinityFile.java:68-84 | The numbers of the first and the last part of a range, and the corner case in which the last comes out before the first |
| PartFile.KeysApart | src/org/simpledb/InfinityFile.java:93-131 | Ranges that do not overlap have no cache entry in common |
| PartFile.ReadFromTwo | src/org/simpledb/InfinityFile.java:79-89 | Two reads make up the bytes of a range over two parts |
| PartFile.MoreRoomKeeps | src/org/simpledb/InfinityFile.java:105-106 | A file can grow at its end without overlapping what is there |
| StringArray.InfinityStringArray.GetBytes | src/org/simpledb/InfinityStringArray.java:37-53 | The byte string at the index, or an error exactly for an index outside of the array. The array is kept, except that reading an empty item may leave an empty entry at the first byte of a part: the array is then in order if and only if no item has that byte or the entry was cached and is not empty, and otherwise exactly the item with that byte is lost. The call returns if the count of cached bytes leaves room for a part, and spins if it is too high for the first piece that is not cached |
| StringArray.InfinityStringArray.SetBytes | src/org/simpledb/InfinityStringArray.java:55-80 | The array is the old one with this item replaced, whether in its old sector or in a new one, and unchanged, with an error, for an index outside of it; a byte set for an item without a sector overwrites exactly the item at the start of the file; by how much the count of cached bytes can get too high, and that the call returns if it leaves room for a part |
| StringArray.InfinityStringArray.SetInNewSector | src/org/simpledb/InfinityStringArray.java:59-67 | The case of a longer sector: the item moves behind all others |
| StringArray.InfinityStringArray.SetInOldSector | src/org/simpledb/InfinityStringArray.java:73-79 | The case in which the item stays where it is; an item without a sector is written at 0, where another item may be lost |
| StringArray.InfinityStringArray.AddBytes | src/org/simpledb/InfinityStringArray.java:127-135 | The array has the byte string behind all others, at the index returned; an empty one gets no sector and the record of position 0; when the call surely returns and when it surely spins |
| StringArray.InfinityStringArray.GetMeta | src/org/simpledb/InfinityConstArray.java:9-15 | The record of the item, and an error exactly for an index outside of the array |
| StringArray.InfinityStringArray.AddRecord | src/org/simpledb/InfinityConstArray.java:23-26 | The record is stored behind all others, and the number returned counts them |
| StringArray.InfinityStringArray.GetSectorLength | src/org/simpledb/InfinityStringArray.java:145-150 | The doubling loop yields the sector length |
| StringArray.InfinityStringArray.Flush | src/org/simpledb/ActionThread.java:106-116 | A turn of the flusher does not change the array |
| StringArray.InfinityStringArray.constructor | src/org/simpledb/InfinityStringArray.java:29-31 | A new array is empty, on empty files and with an empty cache |
| StringArray.InfinityStringArray.Open | src/org/simpledb/InfinityStringArray.java:14-31 | An array on files that hold the items of given slots has these items |
| Sectors.SectorIsLeast | src/org/simpledb/InfinityStringArray.java:145-150 | The sector length is a power of two that is not less than the data, and the least such |
| Sectors.ParseBuild | src/org/simpledb/MetaCell.java:9-21 | A record is read back as it was written |
| Sectors.PutRepresents | src/org/simpledb/InfinityStringArray.java:55-80 | Storing an item in bytes that no other item uses gives the array with that item put in |
| Sectors.RiskyReadLoses | src/org/simpledb/InfinityStringArray.java:37-42 | After reading an empty item exactly those items are lost that have a byte at the offset of the entry left behind, if that entry is empty; all others are kept with their records |
| Sectors.VictimCovers | src/org/simpledb/InfinityStringArray.java:37-42 | An item is in danger if and only if the first byte of the part in question is one of its bytes, in its first or its second half |
| Sectors.ClashLoses | src/org/simpledb/InfinityStringArray.java:73-79 | A byte written for an item without a sector overwrites exactly the item at the start of the file, unless that is the same byte |
| Sectors.EmptyAdded | src/org/simpledb/InfinityStringArray.java:127-135 | Adding an empty string disturbs no other item |
| Sectors.Durable | src/org/simpledb/ActionThread.java:104-114 | When no write is pending, a program that starts again on the same files finds all items |
| StoreRuns.RunCalls | src/org/simpledb/InfinityStringArray.java:37-156 | Every run of adds, sets, gets and flusher turns, empty strings included, answers like a plain sequence of byte strings and ends with the array holding that sequence, up to the first call whose read could hide an item or whose write could overwrite one; every call returns if the cache has room for a part beside what the run can add to the count of cached bytes by mistake, which can be worked out beforehand |
| StoreRuns.Perform | src/org/simpledb/InfinityStringArray.java:37-156 | The same for one call |
| StoreRuns.RunFromNew | src/org/simpledb/InfinityStringArray.java:37-156 | On a new array whose cache has room for a part, a run in which no set leaves an item in a longer sector than it needs never spins and answers like the sequence |
| StoreRuns.KeptSectorsAreFree | src/org/simpledb/InfinityStringArray.java:73-79 | Such a run adds nothing to the count by mistake |
| StoreFaults.HangsOnFourthCall | src/org/simpledb/InfinityStringArray.java:55-80 | Four calls, after which the eviction loop spins for ever: an item gets shorter twice and another one is added |
| StoreFaults.ShrunkTwice | src/org/simpledb/InfinityStringArray.java:55-80 | The same for all lengths for which this happens |
| StoreFaults.HiddenByEmpty | src/org/simpledb/InfinityStringArray.java:37-42 | An item over the end of a part; the next one is set to the empty string and read, and then the second half of the first reads as zeros |
| StoreFaults.OverwrittenByEmpty | src/org/simpledb/InfinityStringArray.java:127-135 | One byte and an empty string are added; setting the second to another byte changes the first |
| Boundary.GetBoundaryPositions | src/org/nanohttpd/NanoHTTPD.java:903-942 | The positions found in the window are, in increasing order, exactly those below length minus boundary length at which the boundary occurs in the whole body, for every body and boundary |
| Boundary.FindsUnique | src/org/nanohttpd/NanoHTTPD.java:903-942 | There is only one such list |
| Boundary.MissesLastOnly | src/org/nanohttpd/NanoHTTPD.java:914 | It has all occurrences if and only if the boundary is not at the very end of the body |
| Boundary.SearchWindow | src/org/nanohttpd/NanoHTTPD.java:918-930 | One pass over the window finds the occurrences in its stretch of the body |
| Boundary.Refill | src/org/nanohttpd/NanoHTTPD.java:933-939 | After the window has moved on it holds the next stretch of the body, with an overlap as long as the boundary |
| Boundary.MatchesAt | src/org/nanohttpd/NanoHTTPD.java:919-929 | Whether the boundary is at a place of the window |

## Left out

General:

- The parts of the four components that are not named above: drawing, measuring, scrolling, keys, marked and
  collapsed text, linked documents, handshake texts, sockets and threads, the other file formats and services.
- Character sets: bytes stay bytes and strings are sequences of characters. The checks for UTF-8 are
  an arbitrary automaton and an arbitrary strict decoder, except in Utf8.
- Contracts over `hung` and `ok` describe a call that spins for ever or throws; what the program does after an
  exception other than those modelled is not part of this model.

The line tree and the document:

- LineTree.Document.Insert: the chunk and line objects are kept in maps from identities to their fields, with
  parent links as identities, not as objects on the heap; chunks that leave the tree leave the map as well.
- LineTree.Document.Remove: what the program tells the listeners of deleted lines, and marked spans, are not
  modelled.
- Ghost fields of a chunk (the lines below it, the same child by child, a level) are proof devices; the
  invariant ties them to the fields that the program has.
- UpdateDoc.UpdateDoc: no marked spans and no listeners; heights are those of an arbitrary estimate.
- UpdateDoc.UpdateFull: for a document that starts at line 0, as the program assumes there.
- LineLookup.HeightAtLine: without collapsed lines, as is LineLookup.LineAtHeight. Heights are integers.
- History.Doc.MakeChange: one document, no handlers that change or refuse changes, no read-only or collapsed
  text; the document of the history is a text, which UpdateDoc.UpdateDoc carries over to the tree. The clock
  and the option for the delay are parameters.
- History.Doc.MakeChangeFromHistory: the selection between the single changes of one event is left open.
- HistoryRuns.RunCalls: undoDepth is one value during a run; full changes are changes of the whole range;
  clearHistory is not among the calls, for which see History.Doc.ClearHistory; and how a selection in an operation of
  its own is recorded, on top or in the place of the last one, is given by History.Doc.SetSelection alone.
- Selections.NormalizeSelection: sorting is an insertion by the start of each range, one of the orders that
  the program's sort allows; equal ranges are not told apart.
- Replacements.ReplaceSelections: the hints "start" and "around"; with "end" no selection is computed.
- Styles.HighlightLine: the style array is a list of entries of end and style, without the number in front;
  the tokens of the modes are inputs that cover the line.
- Styles.TokenTypeIsBase: for styles of the mode that do not themselves contain "overlay ".
- View.Display.RegChange: no collapsed lines, so that each view shows one line; the measured line outside of the
  view and the first line number to be redrawn are not modelled.
- View.Display.PatchDisplay: a node is the text that it was made from; styles, line numbers and widgets are left
  out. It is called after AdjustView, as in the program.
- View.Display.Redraw: the lines to be shown are an input; that nothing is done when nothing is dirty is left out.

RFC 6455:

- Frames.RoundTrip: no reserved bits and no extension but the default one; whether the reason of a close frame is
  UTF-8 is a parameter.
- Utf8.TextIsUtf8: that the JDK's decoder accepts exactly UTF-8 is assumed there.
- Fragments.EndToEnd: pieces of at most 2^31 - 1 - 14 bytes, since a longer one has no frame of a size that fits
  an `int`; close frames end the run and are modelled in Connection and Endpoint.
- Draft6455.Draft.TranslateFrame: a buffer stands for the bytes of the program's buffer up to its limit, which for
  those of a socket is what was read.
- Endpoint.DecodeFrames: that a closing connection resets its draft is left out, since nothing is read from then on.
- Endpoint.ReadAll: says nothing of streams with a close frame, behind which the cut into reads matters, and of
  those with an unchecked exception; each of their reads is described by Endpoint.DecodeFrames.
- Connection.WebSocketImpl.DecodeFrames: what the frames amount to is an input there, and comes from the bytes in
  Endpoint.DecodeFrames.
- Connection.WebSocketImpl.Close: close messages are left out; whether the close frame passes its check is an input.
- Connection.WebSocketImpl.ProcessFrame: the listener does nothing but answer pings, and users send no close frames
  of their own.
- Connection.WebSocketImpl.DecodeHandshake: the outcome of reading the handshake is an input; the bytes kept for an
  incomplete one are not modelled.
- Connection.WebSocketImpl.StartHandshake: before anything is received, and accepted by the listener.

simpledb:

- Cache.ActionThread.Read: one atomic step per call and per turn of the flusher; reading and writing files
  succeeds, and files read as zeros beyond their end. The first reader of an entry shares its array with the
  cache in the program; here it gets a copy.
- Cache.ActionThread.Evict: times of use are left out, and any entry may be the next to be polled.
- StoreRuns.RunCalls: ends before a risky read also where a cached entry would save the item in danger, and before
  setting an item without a sector to at most one byte also where the byte at 0 belongs to no item any more.
- StringArray.InfinityStringArray.constructor: an array has its cache for itself; the program shares one cache
  between all files of a database.
- StringArray.InfinityStringArray.Open: the parts on disk are those that the size of the file calls for, as they
  are when the program has written everything.
- StringArray.InfinityStringArray.SetBytes: sectors are no longer than a part, data no longer than 2^30 bytes, and
  positions below 2^63, where the program's numbers would overflow; free sectors are never reused, as in the program.
- Sectors.ParseBuild: the third number of a record is always 0.
- PartFile.InfinityFile.Open: for parts on disk that are as many as the size of the file calls for.
- PartFile.InfinityFile.Write: where a range that begins in the file ends behind its end, which no caller does.

NanoHTTPD:

- Boundary.GetBoundaryPositions: the list grows by appending instead of copying arrays.
