# ds4: the radix tree, the server's text protocol and the line editor

This project models the parts of ds4 that carry invariants over time and proves what they keep: the
radix tree behind the tool memory (`rax.c`), the text side of the HTTP server (`ds4_server.c`: exact
replay of sampled tool calls, tool-call markup, streaming, prompt checkpoints, SHA-1) and the line
editor's hidden pastes (`linenoise.c`). Code that works by changing things in place is modelled by
classes, arrays and loops, each proved against a specification function; what the code promises is
then proved about those functions, for every input, run or way of cutting a stream.

## How it is organised

**Radix tree.** `RaxTypes` has nodes, slots and the leaf bitmap as they lie in memory. `RaxTree` has
the tree that a memory represents, the map the tree means, and trees with a hole. `RaxEdits` and
`RaxRemoval` have the local edits and what each does to shape, meaning and memory cells. `Rax` is the
tree itself: the class keeps an explicit memory of nodes, every pointer is an address, reallocation
may move a node, and its invariant says that the memory holds exactly the cells of the ghost tree,
each once, that the tree means the ghost map and that both counters are right. `RaxShapes` defines
insertion and deletion once more as recursions from the head down, and every insertion and deletion
is proved to leave that tree up to addresses: splits, compression, spilled values and the merges after
a deletion are all pinned. `RaxOrder`, `RaxIterator` and `RaxRuns` are the byte order and the
iterator. `RaxLongKeys` is a run with a key longer than a node.

**Tool memory.** `ToolMemorySpec` is the least recently used list as a sequence of items.
`ToolMemoryLists`, `ToolMemorySteps` and `ToolMemory` are the entries, the shared reference-counted
blocks, the doubly linked recency list and the per-block lists, again in an explicit memory.
`ToolReplay` attaches remembered texts to messages and has the theorems about whole runs. `KvToolMap`
and `KvToolMapFile` are the map stored beside a cached prefix, and `KvToolBlocks` says which blocks of a
text it is about.

**Markup and streams.** `Dsml` has the tags in their three spellings, `DsmlRender` and `Prompt` the
renderers, `DsmlParse` the parser of finished text, `DsmlRoundTrip` and `DsmlReparse` the round trip,
`JsonText`, `JsonValue`, `JsonArguments` and `JsonMinify` the JSON the arguments go through.
`DsmlTracker` is the incremental decoding tracker, `JsonStrings` and `DsmlTrace` say from a block and
its JSON values which state it has to report at every place, and `DsmlRecognizer` is the slow
recognizer it stands in for; `DsmlDisagree` and `DsmlUntyped` hold the texts on which two readers of
the same markup differ. `PromptPieces` says message by message what a prompt holds, `JsonUnicode` what
escapes decode to, and `ToolArgJson` that streamed arguments read as those of the batch parser.
`Utf8`, `StreamHold` and `TextSplit` decide what can be sent now, `ToolArgStream` streams tool
arguments, `OpenAiStream` and `AnthropicStream` are the two live streams.

**Line editor.** `TextSteps` has the steps of the cursor, `PasteInput` the terminator matcher and the
in-place line-end pass, `PasteFolds` the fold arithmetic, `FoldTable` the table of at most 16 folds in
its two arrays, `LineEditor` the editor.

**Hashing.** `Sha1Spec` is section 6.1 of FIPS 180-4; `Sha1` the incremental context.

## What is proved

* Every radix-tree operation keeps the whole invariant. Lookups, insertions and deletions do to the map
  what their names say; no node leaks, is freed twice or is reached after it was freed; freeing the tree
  empties the memory. Seeking and stepping to the end lists exactly the keys asked for, once each, in
  order, in both directions.
* After any run of puts and lookups the tool memory is within both limits, and whatever id it still
  knows, it knows with the text last put for it. A message gets its sampled text back exactly when all
  its ids are known with one and the same text. Every text is cut in one way into blocks and what stands
  between them; saving its map and loading it elsewhere gives exactly the mappings of those blocks.
* At every place of a block the decoding tracker reports the state that the parts of the block say, with
  JSON strings told by the count of quotes that no backslash escapes. It does not depend on how the text
  is cut, except right after a `<` in a value, and the theorem says exactly which cuts those are. Streaming tool arguments in any pieces gives the events
  of translating the text at once; of the blocks the batch parser accepts, the stream completes exactly
  those whose parameters all say whether they are strings, and the JSON it sends reads as the same
  arguments.
* Rendered tool calls always parse, and all members come back exactly when none is of a kind the markup
  cannot carry. Minified JSON is a fixed point, so calls that were read from JSON render to the same
  bytes after a full round of parsing, writing JSON and reading it again.
* A prompt is its head, one piece per message in order, and the open turn; a tool result can be read back
  from it. Appending the tool checkpoint suffix gives the future prompt exactly when thinking is off or a turn
  was pending; the thinking checkpoint is a prefix of every later tool-free prompt.
* For any way of cutting the text, the streams send exactly the reasoning and the visible text, after
  every update nothing but what must be held is unsent, and the client of the Anthropic stream receives a well-bracketed message with the blocks one expects.
* Every editing operation keeps the folds ordered, disjoint, inside the buffer and at most 16; the
  display buffer is filled to exactly the length that was computed. A recalled long text shows its first
  and last eight characters.

## Where code and text differ

* `rax.h` (lines 91-93) says that a chain that a deletion creates must be compressed, and the comment
  before the recompression in `rax.c` (lines 1327-1369) gives "FOO" and "FOOBAR" as the example: when "FOO"
  goes, "FOO" and "BAR" become one node. The code tries a merge only around a node of one byte, and the
  node that stops being the key "FOO" has the three bytes "BAR", so it does not merge. The model follows the code; `RaxShapes.CompressedKeyStays` states it for every such node.
* The merge after a deletion counts the bytes of a chain up to the size of a node but copies all of
  them. `RaxRemoval.CopyOverrunsIff` gives the exact trees on which the copy needs more room than was
  counted, and `RaxLongKeys.LongKeyRun` is a run that leads to one.
* The streaming reader of tool arguments and the batch parser differ on parameters without a `string`
  attribute (`ToolArgStream.StreamFinishesIffTyped`, `DsmlUntyped.UntypedBlocks`).
* For a parameter that is not a string and has no value the batch parser writes `null`, and the streaming
  reader sends an object that cannot be read (`ToolArgJson.MissingValueDiffers`).
* The tracker and the recognizer it replaces differ when a JSON string holds the closing tag of its
  parameter (`DsmlDisagree.QuotedEndDisagrees`).
* A string value that spells an entity, such as `&lt;`, and a key that ends in `string=` do not survive
  the markup (`DsmlRoundTrip.ValueRoundTrip`, `DsmlReparse.ParamKind`).
* Appending the tool checkpoint suffix is not the future prompt when thinking is on and no turn is
  pending (`Prompt.ToolCheckpointLaw`).

## Model

| member | source | states |
|---|---|---|
| `RaxEdits.GetSplit` | ds4_gb10/rax.c:825-935 | splitting a compressed node at any byte (ALGO 1) changes no lookup |
| `RaxEdits.GetSplitAtKey` | ds4_gb10/rax.c:939-1003 | splitting a compressed node where a key ends (ALGO 2) adds that one key and changes no other lookup |
| `RaxEdits.GetAddEdge` | ds4_gb10/rax.c:307-454 | opening a slot for a new byte among the sorted edges leads that byte to the slot and changes no other lookup, even when the value in slot 12 is spilled |
| `RaxEdits.AddEdgeCells` | ds4_gb10/rax.c:307-454 | opening the slot keeps all children and adds at most the node of the spilled value |
| `RaxEdits.BitmapInsert` | ds4_gb10/rax.c:438-445 | shifting the leaf bitmap keeps every bit in step with the slot it describes |
| `RaxEdits.GrowMeaning` | ds4_gb10/rax.c:1007-1064 | filling the new edge with a value adds exactly that key; with an empty node it adds none |
| `RaxEdits.ValueMeaning` | ds4_gb10/rax.c:212-226 | moving an inline value to a leaf node of its own changes no lookup |
| `RaxRemoval.GetDropKid` | ds4_gb10/rax.c:1141-1205 | dropping an edge removes the keys below it and no others |
| `RaxRemoval.BitmapRemove` | ds4_gb10/rax.c:1189-1197 | shifting the leaf bitmap down keeps every bit in step with the slot it describes |
| `RaxRemoval.DeadLine` | ds4_gb10/rax.c:1226-1265 | a node without a key whose only child leads to no key leads to none itself |
| `RaxRemoval.GetChain` | ds4_gb10/rax.c:1388-1443 | a chain of joinable nodes means what one node with all its bytes means |
| `RaxRemoval.MergeMeaning` | ds4_gb10/rax.c:1403-1461 | merging a chain changes no lookup and leaves a well-shaped node |
| `RaxRemoval.ChainFits` | ds4_gb10/rax.c:1388-1402 | a chain is no longer than the longest key below it, so keys that fit a node make chains that fit one |
| `RaxRemoval.CopyOverrunsIff` | ds4_gb10/rax.c:1388-1443 | for every well-shaped tree: the scan finds a chain to merge and counts fewer bytes than the copy writes, exactly when the first two nodes fit one node and the whole chain does not |
| `RaxRemoval.FittingChain` | ds4_gb10/rax.c:1388-1403 | a chain that fits one node is counted in full, and is merged exactly when it has two nodes |
| `Rax.Rax.Malloc` | ds4_gb10/rax.c:232-244 | allocation gives an address that was not in use and changes nothing else |
| `Rax.Rax.Realloc` | ds4_gb10/rax.c:264-268 | reallocation may move the block and keeps all other memory |
| `Rax.Rax.MatchRun` | ds4_gb10/rax.c:570-574 | how many bytes of a compressed edge match the key, and that the next one differs |
| `Rax.Rax.ScanEdge` | ds4_gb10/rax.c:581-590 | the scan of the edges finds the first one with the byte, or the end |
| `Rax.Rax.LowWalk` | ds4_gb10/rax.c:559-620 | where the walk stops: the node, the link that leads to it, the split position, the stack of parents and whether it is an inline value, all consistent with the key |
| `Rax.Rax.StopsGet` | ds4_gb10/rax.c:559-620 | what the stop position says about the map: which key is there with which value, and when the key is absent |
| `Rax.Rax.Find` | ds4_gb10/rax.c:1101-1117 | returns exactly what the map holds for the key |
| `Rax.Rax.AddChildNoAlloc` | ds4_gb10/rax.c:307-454 | in memory: the node with the new unset slot, its bytes and bitmap shifted, plus at most one node for a spilled value |
| `Rax.Rax.FillSlot` | ds4_gb10/rax.c:1021-1047 | storing a child or a value in a slot sets the bit of the bitmap exactly for values |
| `Rax.Rax.MaterializeInlineLeaf` | ds4_gb10/rax.c:212-226 | an inline value becomes a leaf node, its bit is cleared and one node is counted |
| `Rax.Rax.SetLink` | ds4_gb10/rax.c:1030-1056 | writing a new pointer where the old one was changes that slot, or the head, and nothing else |
| `Rax.Rax.ReallocForData` | ds4_gb10/rax.c:264-268 | the node moves and the link to it is patched |
| `Rax.Rax.SplitOnMismatch` | ds4_gb10/rax.c:825-935 | ALGO 1 in memory: the compressed node is replaced by trimmed, split and postfix nodes, and freed |
| `Rax.Rax.SplitAtEnd` | ds4_gb10/rax.c:939-1003 | ALGO 2 in memory: the compressed node is replaced by trimmed and postfix nodes, and freed |
| `Rax.Rax.CompressNode` | ds4_gb10/rax.c:488-512 | a childless node becomes a compressed one with an unset slot and is relinked |
| `Rax.Rax.GrowCompressedValue` | ds4_gb10/rax.c:1013-1028 | the last bytes of the key become one compressed edge that ends in the value; the tree is the one the recursive insertion grows |
| `Rax.Rax.GrowInlineValue` | ds4_gb10/rax.c:1037-1049 | the last byte becomes an edge with the value in its slot when that slot is below 13 |
| `Rax.Rax.GrowCompressedNode` | ds4_gb10/rax.c:1029-1034 | a full compressed edge is added and the insertion goes on below it |
| `Rax.Rax.GrowNode` | ds4_gb10/rax.c:1050-1062 | one edge to a new empty node is added and the insertion goes on there |
| `Rax.Rax.InsertRest` | ds4_gb10/rax.c:1005-1070 | the loop over the missing bytes adds exactly the key, and leaves the tree that the recursive insertion grows |
| `Rax.Rax.InsertBelowInline` | ds4_gb10/rax.c:653-668 | when an inline value is in the way it is moved to a node first; the key is added and nothing else changes |
| `Rax.Rax.InsertAtMismatch` | ds4_gb10/rax.c:825-935 | a key that leaves a compressed node inside it is added there |
| `Rax.Rax.InsertInside` | ds4_gb10/rax.c:939-1003 | a key that ends inside a compressed node is added there |
| `Rax.Rax.InsertOnNode` | ds4_gb10/rax.c:669-699 | a key whose node exists: the value is set or kept, the count grows exactly when the node was no key |
| `Rax.Rax.GenericInsert` | ds4_gb10/rax.c:629-1083 | keeps the whole invariant; the map gets the key or keeps the old value as asked; reports whether the key was absent and its old value; up to addresses the tree is that of the recursive insertion |
| `Rax.Rax.Insert` | ds4_gb10/rax.c:1087-1089 | inserts or overwrites |
| `Rax.Rax.TryInsert` | ds4_gb10/rax.c:1094-1096 | inserts only when the key is absent |
| `Rax.Rax.constructor` | ds4_gb10/rax.c:248-260 | a new tree is empty and has one node |
| `Rax.Rax.FindParentLink` | ds4_gb10/rax.c:1124-1133 | finds the one slot of the parent that points to the child |
| `Rax.Rax.OnlyAtLive` | ds4_gb10/rax.c:1124-1133 | in a valid tree exactly one slot of the parent points to a given child |
| `Rax.Rax.RemoveChildAtPtr` | ds4_gb10/rax.c:1141-1205 | in memory: the node without the slot, its bytes and bitmap shifted; a compressed node becomes an empty plain one |
| `Rax.Rax.RemoveCleanup` | ds4_gb10/rax.c:1226-1265 | frees the useless node and every ancestor that only led to it, unlinks the branch, and asks for a merge exactly when one byte and no key are left |
| `Rax.Rax.ClimbChain` | ds4_gb10/rax.c:1375-1386 | walks up to the first node of the chain; the node above it cannot join |
| `Rax.Rax.CountChain` | ds4_gb10/rax.c:1388-1402 | the nodes and bytes that the counting scan counts, for every tree, whatever the keys |
| `Rax.Rax.CopyChain` | ds4_gb10/rax.c:1421-1443 | copies the bytes of the whole chain, never past the room it was given, and frees its nodes, keeping what hangs below |
| `Rax.Rax.MergeChain` | ds4_gb10/rax.c:1403-1457 | the chain is replaced by one compressed node and relinked |
| `Rax.Rax.Recompress` | ds4_gb10/rax.c:1370-1462 | after the merge, or without one, the map is unchanged and the tree is the one the recursive deletion finishes with |
| `Rax.Rax.Remove` | ds4_gb10/rax.c:1269-1465 | keeps the whole invariant; removes exactly the key; reports whether it was there and its value; up to addresses the tree is that of the recursive deletion, with its cleanup and its merges |
| `Rax.Rax.RecursiveFree` | ds4_gb10/rax.c:1469-1494 | frees every node of a subtree exactly once and nothing else |
| `Rax.Rax.FreeTree` | ds4_gb10/rax.c:1498-1507 | afterwards no memory is left |
| `RaxShapes.InsPlug` | ds4_gb10/rax.c:629-1083 | inserting from the head down is inserting where the walk stops |
| `RaxShapes.InsertedSplit` | ds4_gb10/rax.c:825-935 | growing the node that a split leaves is what the recursive insertion does at a mismatch, whatever the addresses |
| `RaxShapes.GrowEdgeBare` | ds4_gb10/rax.c:1035-1062 | one step of the growth matches the recursion up to addresses |
| `RaxShapes.DeletePlug` | ds4_gb10/rax.c:1269-1465 | deleting from the head down is deleting where the walk stops and finishing upwards |
| `RaxShapes.FinishedMerge` | ds4_gb10/rax.c:1370-1462 | a chain that ends below a parent that cannot join is merged there and nowhere else |
| `RaxShapes.CompressedKeyStays` | ds4_gb10/rax.c:1306-1320 | deleting the key of a compressed node only clears the key: no merge is tried around it |
| `RaxLongKeys.OverrunAt` | ds4_gb10/rax.c:1388-1443 | at the head that is left by the run below the scan counts two nodes and 65535 bytes of a chain of 65536 |
| `RaxLongKeys.LongKeyRun` | ds4_gb10/rax.c:1269-1443 | inserting 65536 times one byte and then another byte, and deleting the second: the tree that insertion really builds, the edge that deletion really drops, and a count one byte short of the chain |
| `RaxOrder.AcrossNext` | ds4_gb10/rax.c:1740-1785 | leaving a child for its next sibling skips no key |
| `RaxOrder.SeekMismatch` | ds4_gb10/rax.c:2024-2037 | a byte that is no edge of a node splits the keys below it from those above |
| `RaxOrder.SeekInCompressed` | ds4_gb10/rax.c:2038-2072 | leaving a compressed node inside it puts all keys below it on one side, by the first byte that differs |
| `RaxOrder.ForwardRunComplete` | ds4_gb10/rax.c:2113-2123 | a run of steps to the end reports every key from its first on, each once, ascending |
| `RaxOrder.BackwardRunComplete` | ds4_gb10/rax.c:2128-2138 | a run of steps back reports every key up to its first, each once, descending |
| `RaxIterator.Iterator.EnterChild` | ds4_gb10/rax.c:1578-1597 | descends along an edge, or stops on its inline value, and extends the key by the edge |
| `RaxIterator.Iterator.StepNext` | ds4_gb10/rax.c:1680-1785 | steps to the least key above a bound, or finds that there is none |
| `RaxIterator.Iterator.SeekGreatest` | ds4_gb10/rax.c:1790-1798 | follows the last children to the greatest key of the subtree |
| `RaxIterator.Iterator.StepPrev` | ds4_gb10/rax.c:1803-1893 | steps to the greatest key below a bound, or finds that there is none |
| `RaxIterator.Iterator.Seek` | ds4_gb10/rax.c:1899-2108 | for every operator: the key found is the least or greatest on the side asked for, or the end is reached exactly when there is none; other operators are refused |
| `RaxIterator.Iterator.Next` | ds4_gb10/rax.c:2113-2123 | the next key in byte order with its value; false exactly at the end |
| `RaxIterator.Iterator.Prev` | ds4_gb10/rax.c:2128-2138 | the previous key in byte order with its value; false exactly at the start |
| `RaxRuns.KeysAfter` | ds4_gb10/rax.c:1899-2123 | seeking and stepping to the end lists exactly the keys from a string on, or after it, strictly ascending |
| `RaxRuns.KeysBefore` | ds4_gb10/rax.c:1899-2138 | seeking and stepping back lists exactly the keys up to a string, or before it, strictly descending |
| `Sha1.Context.Expand` | ds4_gb10/ds4_server.c:5192-5200 | fills the 80 words of the message schedule |
| `Sha1.Context.Transform` | ds4_gb10/ds4_server.c:5192-5231 | one block is the compression function of FIPS 180-4, section 6.1.2 |
| `Sha1.StepFunction` | ds4_gb10/ds4_server.c:5204-5218 | the functions and constants chosen by ranges, and written with or, are those of the standard |
| `Sha1.Context.Update` | ds4_gb10/ds4_server.c:5243-5258 | feeding bytes in any pieces appends them to what was fed |
| `Sha1.Context.Final` | ds4_gb10/ds4_server.c:5260-5275 | the digest is SHA-1 of all bytes fed, below the standard's length limit |
| `Sha1.HashPieces` | ds4_gb10/ds4_server.c:5286-5293 | hashing in any pieces is hashing the concatenation |
| `Sha1Spec.ZeroCountIsLeast` | ds4_gb10/ds4_server.c:5260-5266 | the padding is the shortest that the standard allows |
| `ToolMemory.ToolMemory.Unlink` | ds4_gb10/ds4_server.c:4790-4796 | takes an entry out of the doubly linked recency list |
| `ToolMemory.ToolMemory.TouchEntry` | ds4_gb10/ds4_server.c:4798-4803 | the entry becomes the most recently used, its source may become RAM, and nothing else changes |
| `ToolMemory.ToolMemory.GetBlock` | ds4_gb10/ds4_server.c:4825-4843 | the block of a text is shared, and made with its size counted when there is none |
| `ToolMemory.ToolMemory.ReleaseBlock` | ds4_gb10/ds4_server.c:4845-4856 | the last use frees the block and its size |
| `ToolMemory.ToolMemory.RemoveEntry` | ds4_gb10/ds4_server.c:4858-4872 | forgets one item and keeps the invariant: lists, counters, reference counts and indexes stay right |
| `ToolMemory.ToolMemory.AddEntry` | ds4_gb10/ds4_server.c:4889-4929 | a new id goes to the front and keeps the invariant |
| `ToolMemory.ToolMemory.Prune` | ds4_gb10/ds4_server.c:4874-4880 | drops from the least recently used end to the specified list |
| `ToolMemory.ToolMemory.Put` | ds4_gb10/ds4_server.c:4889-4929 | remembers the text, shared with others of the same text, then prunes; empty ids and texts are ignored |
| `ToolMemory.ToolMemory.Lookup` | ds4_gb10/ds4_server.c:4946-4955 | finds exactly the known ids, with text and source, and makes them the most recent |
| `ToolMemory.ToolMemory.FreeAll` | ds4_gb10/ds4_server.c:4931-4936 | everything is given back |
| `ToolMemory.ToolMemory.MatchCalls` | ds4_gb10/ds4_server.c:5001-5024 | the common text of the calls of a message, found by comparing block addresses, is the text they all have; counts the missing ids |
| `ToolMemorySteps.RemovedSound` | ds4_gb10/ds4_server.c:4858-4872 | removing an entry keeps the memory sound, and no counter is ever too small to subtract from |
| `ToolMemorySteps.AddedSound` | ds4_gb10/ds4_server.c:4889-4929 | adding an entry keeps the memory sound |
| `ToolMemorySpec.PrunedIsLongestFit` | ds4_gb10/ds4_server.c:4874-4880 | pruning keeps the longest most-recent part that meets both limits |
| `ToolMemorySpec.PutThenFound` | ds4_gb10/ds4_server.c:4889-4929 | what was just put is found with its text, unless it exceeds the byte budget all alone; then the memory is empty |
| `ToolMemorySpec.PutSource` | ds4_gb10/ds4_server.c:4889-4929 | where a put came from is remembered, and for the same text memory wins over disk |
| `ToolMemorySpec.LookedUpSurvives` | ds4_gb10/ds4_server.c:4798-4804 | what was just looked up outlives everything else that was not used since, whatever is put next |
| `ToolMemorySpec.ExactTextIff` | ds4_gb10/ds4_server.c:5001-5030 | a message is replayed exactly when it has calls and all of them have one text |
| `ToolReplay.AttachToMessages` | ds4_gb10/ds4_server.c:4983-5036 | every message gets its replayed form from the memory as it was at the start, and the statistics add up; disabled, nothing changes |
| `ToolReplay.RunKeepsLimits` | ds4_gb10/ds4_server.c:4874-4929 | after every run of puts and lookups both limits hold, ids are distinct and the list is in recency order |
| `ToolReplay.RunRemembersLastPut` | ds4_gb10/ds4_server.c:4889-4966 | after every run an id that is known is known with the text last put for it |
| `KvToolMap.Get32Put32` | ds4_gb10/ds4_server.c:5157-5173 | four little-endian bytes give the number back |
| `KvToolMap.ParseImage` | ds4_gb10/ds4_server.c:5432-5537 | reading a stored map gives exactly the records written |
| `KvToolMap.ReadUpTo` | ds4_gb10/ds4_server.c:5503-5537 | of a damaged map exactly the records before the damage are read |
| `KvToolMap.BestBlockIsFirst` | ds4_gb10/ds4_server.c:5387-5412 | no closed form starts before the block found |
| `KvToolBlocks.BestIsBlock` | ds4_gb10/ds4_server.c:5387-5412 | the block found opens with the opening text of a form, ends with its closing text, and that closing text does not stand earlier behind the opening |
| `KvToolBlocks.NothingBefore` | ds4_gb10/ds4_server.c:5387-5412 | before the block found no closed block of any form begins, and when none is found there is none |
| `KvToolBlocks.NextIs` | ds4_gb10/ds4_server.c:5387-5412 | conversely, a block before which none begins is the one that is found |
| `KvToolBlocks.CutBlocks` | ds4_gb10/ds4_server.c:5387-5430 | for a text that is cut into blocks and stretches in which none begins, the scan finds exactly those blocks in order |
| `KvToolBlocks.EveryTextIsCut` | ds4_gb10/ds4_server.c:5387-5430 | every text can be cut so |
| `KvToolBlocks.RenderedIsOneBlock` | ds4_gb10/ds4_server.c:1857-1877 | rendered calls are one block when the closing text stands only at their end |
| `KvToolMapFile.Visit` | ds4_gb10/ds4_server.c:5414-5430 | a text's block is returned on its first visit in a scan only |
| `KvToolMapFile.WriteMap` | ds4_gb10/ds4_server.c:5432-5501 | writes the records of the blocks the scan finds; header, count and size from the first pass agree with the records of the second; the memory is unchanged |
| `KvToolMapFile.RecordsAreMappings` | ds4_gb10/ds4_server.c:5432-5501 | the stored records are exactly the remembered ids whose block occurs in the text |
| `KvToolMapFile.RecordsOfCut` | ds4_gb10/ds4_server.c:5432-5501 | for a text cut into blocks the records are exactly the remembered mappings of the blocks that stand in it |
| `KvToolMapFile.RecordsOnce` | ds4_gb10/ds4_server.c:5432-5501 | no id is stored twice, however often a block is repeated |
| `KvToolMapFile.LoadMap` | ds4_gb10/ds4_server.c:5503-5537 | loads exactly the readable records that are wanted, in order, stopping at the first unreadable one |
| `KvToolMapFile.SavedThenLoaded` | ds4_gb10/ds4_server.c:5432-5537 | writing the map of a text cut into blocks and loading it into an empty memory with large enough limits gives exactly the mappings of the blocks that stand in the text |
| `Prompt.RenderPrompt` | ds4_gb10/ds4_server.c:1901-1978 | the three passes compute the prompt that `PromptPieces.RenderIsPieces` describes |
| `PromptPieces.RenderIsPieces` | ds4_gb10/ds4_server.c:1901-1978 | the prompt is the sentence mark, the extra prefix, the spaced system texts, then one piece per message in order, then the open turn; every piece is said from the messages alone |
| `PromptPieces.TurnStands` | ds4_gb10/ds4_server.c:1935-1968 | behind the pieces of the messages before it stand a user message behind its mark, a tool result escaped between its tags, a reply with its calls and the end mark |
| `PromptPieces.ResultReadsBack` | ds4_gb10/ds4_server.c:1767-1775 | the first closing tag behind a tool result is its own, and what stands before it unescapes to the result |
| `PromptPieces.SystemStands` | ds4_gb10/ds4_server.c:1908-1924 | every system message stands in the head of the prompt, in order |
| `PromptPieces.ReplyHoldsCalls` | ds4_gb10/ds4_server.c:1857-1877 | a remembered text of the calls is replayed as it is, otherwise the calls are rendered |
| `DsmlRoundTrip.TextRoundTrip` | ds4_gb10/ds4_server.c:1767-1775 | an escaped tool result has neither `<` nor `>` and unescapes to the result |
| `Prompt.PendingIs` | ds4_gb10/ds4_server.c:1930-1970 | whether an assistant turn is open at the end depends on the last user and assistant messages only |
| `Prompt.ToolCheckpointLaw` | ds4_gb10/ds4_server.c:6699-6710 | with tools: rendering the history and the reply is rendering the history and appending the checkpoint suffix, exactly when thinking is off or the turn was pending |
| `Prompt.ThinkingCheckpointLaw` | ds4_gb10/ds4_server.c:6722-6818 | without tools: the canonical text of a finished turn is a prefix of the prompt of every continuation with a user turn |
| `DsmlTracker.Tracker.Update` | ds4_gb10/ds4_server.c:3646-3785 | one update makes all moves the text allows, parks a fruitless search and reports the decoding state; `DsmlTrace.BlockTrace` says which state that is |
| `DsmlTracker.CutOnce` | ds4_gb10/ds4_server.c:3646-3785 | an update with a prefix and one with the whole is an update with the whole, at every safe cut |
| `DsmlTracker.ChunkingIsIrrelevant` | ds4_gb10/ds4_server.c:3646-3785 | the same for any number of safe cuts |
| `DsmlTracker.BareLtOnly` | ds4_gb10/ds4_server.c:3515-3524 | every cut that is not right after a `<` is safe |
| `DsmlTracker.SafeCutIff` | ds4_gb10/ds4_server.c:3515-3524 | a cut is safe exactly when no continuation can tell that it was made |
| `JsonStrings.QuotedIsString` | ds4_gb10/ds4_server.c:3715-3730 | in the JSON string of any text every place between the two quotes is inside the string, by the count of quotes that no backslash escapes, and no other place is |
| `JsonStrings.ValueIsStrung` | ds4_gb10/ds4_server.c:343-372 | in every JSON value the strings are closed and backslashes stand only in them |
| `DsmlTrace.BlockTrace` | ds4_gb10/ds4_server.c:3646-3785 | at every place of a text with a block the tracker reports the state that the parts of the block say: outside, markup, string value, JSON or JSON string, and markup inside an unfinished closing tag |
| `DsmlTrace.QuotedTrace` | ds4_gb10/ds4_server.c:3715-3730 | in a parameter with the JSON string of any text: in the string from its first quote to its last, and outside at the end of the block |
| `DsmlTrace.RenderedTrace` | ds4_gb10/ds4_server.c:1857-1877 | the same for every rendered block |
| `DsmlTrace.ParsedAreStrung` | ds4_gb10/ds4_server.c:1713-1756 | calls read from JSON whose members are plain meet the condition on their JSON values |
| `DsmlTrace.CutTrace` | ds4_gb10/ds4_server.c:3646-3785 | the same states however the text is fed, at safe cuts |
| `DsmlRecognizer.TrackerAgrees` | ds4_gb10/ds4_server.c:3556-3625 | on texts in which no closed JSON value has the closing tag in a string, the tracker reports what the slow recognizer does; both read single JSON bytes alike, and what those mean is `DsmlTrace.BlockTrace` |
| `DsmlDisagree.QuotedEndDisagrees` | ds4_gb10/ds4_server.c:3526-3625 | on every block with such a JSON string the tracker is outside and the recognizer still inside |
| `JsonText.EscapeRoundTrip` | ds4_gb10/ds4_server.c:209-251 | decoding an escaped string gives it back, whatever follows it |
| `JsonUnicode.EscapeDecoded` | ds4_gb10/ds4_server.c:178-251 | every code point, written as one escape or as a surrogate pair, decodes to its UTF-8 bytes, which are one valid character that decodes back |
| `JsonUnicode.ShortEscapeDecoded` | ds4_gb10/ds4_server.c:209-251 | the eight two-byte escapes of section 7 of RFC 8259 decode as that section says |
| `JsonValue.ValueMoved` | ds4_gb10/ds4_server.c:343-360 | where a value ends does not depend on what stands around it, unless a number goes on |
| `JsonMinify.ValueInPart` | ds4_gb10/ds4_server.c:343-372 | a value cut out of a text ends where it ended in the text |
| `JsonMinify.MinifiedIsMinimal` | ds4_gb10/ds4_server.c:374-399 | minifying a value gives one whole value that minifying again leaves alone |
| `JsonMinify.ParsedIsShort` | ds4_gb10/ds4_server.c:1713-1756 | every member read from an argument object is a string or in its shortest form; other text is kept as it is |
| `JsonArguments.ReadArguments` | ds4_gb10/ds4_server.c:1713-1756 | the loop reads the specified members, or gives the text up as a whole |
| `JsonArguments.ObjectBack` | ds4_gb10/ds4_server.c:2718-2729 | the object text written for parsed parameters reads back as the same ordered members |
| `DsmlRoundTrip.AttrRoundTrip` | ds4_gb10/ds4_server.c:1758-1766 | unescaping an escaped attribute gives it back |
| `DsmlRoundTrip.ShieldedHasNoEnd` | ds4_gb10/ds4_server.c:1777-1801 | a written value contains no closing tag |
| `DsmlRoundTrip.ValueEnds` | ds4_gb10/ds4_server.c:2743-2779 | the parser's search for the closing tag stops at the one that was written |
| `DsmlRoundTrip.ValueRoundTrip` | ds4_gb10/ds4_server.c:1777-1788 | a string value comes back exactly when it spells no entity; otherwise it comes back shorter |
| `DsmlParse.KindOnTag` | ds4_gb10/ds4_server.c:2704-2716 | a parsed parameter has a kind exactly when its tag has the attribute |
| `DsmlReparse.ParamKind` | ds4_gb10/ds4_server.c:2704-2716 | the kind is read back unless the key ends in `string=` |
| `DsmlReparse.ParseArg` | ds4_gb10/ds4_server.c:1803-1812 | every rendered parameter parses, and the parser sees exactly what the specification says |
| `DsmlReparse.SeenIsWrittenArgs` | ds4_gb10/ds4_server.c:1803-1812 | the parser sees a member as it was exactly when it is plain |
| `DsmlReparse.RenderThenParse` | ds4_gb10/ds4_server.c:1857-1877 | every rendered block parses to its end with the names and ordered members that were written, and all of it comes back exactly when every member is plain |
| `DsmlReparse.RereadIsWritten` | ds4_gb10/ds4_server.c:2718-2729 | reading the JSON of the parsed parameters gives the members that were written |
| `DsmlReparse.RenderAgain` | ds4_gb10/ds4_server.c:1814-1877 | for calls whose arguments were read from JSON and whose members are plain: parsing the block, writing JSON, reading it and rendering gives the same bytes |
| `Utf8.ComputeSafeLen` | ds4_gb10/ds4_server.c:909-931 | the backward scan computes the specified cut |
| `Utf8.SafeLenIsBoundary` | ds4_gb10/ds4_server.c:909-931 | on valid text the cut is the last character boundary |
| `StreamHold.ComputeEntityHold` | ds4_gb10/ds4_server.c:3787-3802 | the scan computes the specified cut |
| `StreamHold.NoEntityAcross` | ds4_gb10/ds4_server.c:3787-3802 | however the text goes on, no entity begins before the cut and ends after it |
| `StreamHold.ComputeValueLimit` | ds4_gb10/ds4_server.c:3804-3819 | the three holds together compute the specified limit |
| `StreamHold.ValueLimitOk` | ds4_gb10/ds4_server.c:3804-3819 | what is sent is never inside an entity nor past the start of the closing tag |
| `StreamHold.ValueLimitHeld` | ds4_gb10/ds4_server.c:3804-3819 | what is held back of a value is at most an unfinished character, an unfinished entity of a string, and an unfinished closing tag |
| `StreamHold.PlainValueIsSent` | ds4_gb10/ds4_server.c:3804-3819 | with neither `<` nor `&` among the bytes searched all whole characters are sent |
| `StreamHold.UnescapedSplit` | ds4_gb10/ds4_server.c:3827-3840 | unescaping in pieces at clean cuts is unescaping at once |
| `ToolArgStream.ToolStream.Update` | ds4_gb10/ds4_server.c:3966-4040 | one update sends what the specified update sends, and leaves its state |
| `ToolArgStream.UpdatedLives` | ds4_gb10/ds4_server.c:3966-4040 | after an update nothing is left but a tag that is not complete or the part of a value that must be held |
| `ToolArgStream.UpdateStable` | ds4_gb10/ds4_server.c:3966-4040 | an update with a prefix and then the translation of the rest is the translation of the whole |
| `ToolArgStream.ChunkingIsIrrelevant` | ds4_gb10/ds4_server.c:3966-4040 | in any pieces, once the last value is closed, the events are those of translating the text at once |
| `ToolArgStream.StreamIsBatch` | ds4_gb10/ds4_server.c:2828-2984 | for a block the batch parser accepts, with a kind on every parameter, the events are the names and JSON arguments the parser finds, and the stream ends where the parser does |
| `ToolArgJson.StreamedObject` | ds4_gb10/ds4_server.c:3827-3960 | the streamed object reads as the ordered members with their shortest values |
| `ToolArgJson.SameArguments` | ds4_gb10/ds4_server.c:2718-2729 | when every value that is not a string is JSON, the streamed object and the object of the batch parser read as the same arguments |
| `ToolArgJson.MissingValueDiffers` | ds4_gb10/ds4_server.c:2718-2729 | for an empty value that is not a string the batch parser writes `null` and the streamed object cannot be read |
| `ToolArgStream.UntypedFails` | ds4_gb10/ds4_server.c:3922-3946 | at a parameter without a kind the stream fails, and its tag has no such attribute |
| `ToolArgStream.StreamFinishesIffTyped` | ds4_gb10/ds4_server.c:3922-3946 | of the blocks the batch parser accepts the stream finishes exactly those with a kind on every parameter and fails on all others |
| `DsmlUntyped.UntypedBlocks` | ds4_gb10/ds4_server.c:2743-2779 | a family of blocks that the batch parser accepts as a string argument and the stream refuses |
| `TextSplit.ComputeThinkLimit` | ds4_gb10/ds4_server.c:4471-4481 | the computed limit of reasoning is the specified one |
| `TextSplit.ComputeTextLimit` | ds4_gb10/ds4_server.c:4411-4450 | the computed limit of visible text is the specified one, which `TextSplit.TextStep` bounds from above and `TextSplit.TextLimitHeld` from below |
| `TextSplit.ThinkStep` | ds4_gb10/ds4_server.c:4471-4481 | reasoning is never sent past what may still become the closing tag |
| `TextSplit.TextStep` | ds4_gb10/ds4_server.c:4411-4450 | visible text is never sent past what may still become a tool block or its separator, and is complete at a block or at the end |
| `TextSplit.ThinkLimitHeld` | ds4_gb10/ds4_server.c:4471-4481 | at most an unfinished character and seven bytes of reasoning are held back |
| `TextSplit.ThinkLimitIs` | ds4_gb10/ds4_server.c:4471-4481 | on valid text reasoning is sent up to the character in which the last seven bytes begin |
| `TextSplit.TextLimitHeld` | ds4_gb10/ds4_server.c:4411-4450 | at most an unfinished character and, with tools, whitespace and one marker of visible text are held back |
| `TextSplit.TextLimitIs` | ds4_gb10/ds4_server.c:4411-4450 | on valid text the limit is the last whole character before the marker that is held |
| `TextSplit.PlainTextIsSent` | ds4_gb10/ds4_server.c:4411-4450 | without tools, or without whitespace at the end and a `<` among the bytes searched, all whole characters are sent |
| `TextSplit.NoTagInParts` | ds4_gb10/ds4_server.c:4411-4530 | no closing tag is reasoning, no opening tag is visible text, and text before a block does not end in whitespace |
| `TextSplit.PartsMakeWhole` | ds4_gb10/ds4_server.c:2811-2826 | tags, reasoning, text, separator and block make up the whole text |
| `TextSplit.PartsWithoutThinking` | ds4_gb10/ds4_server.c:2811-2826 | with thinking off nothing is reasoning and text, separator and block make up the whole |
| `TextSplit.PartsWithoutTools` | ds4_gb10/ds4_server.c:2811-2826 | without tools everything that is not reasoning is text |
| `OpenAiStream.Stream.Update` | ds4_gb10/ds4_server.c:4042-4122 | what was sent is always a part of the specified split of the whole text, and all of it at the end; after every other update only what must be held is unsent, and a block has been seen when text has ended |
| `OpenAiStream.ParsedBlock` | ds4_gb10/ds4_server.c:4042-4122 | a block the batch parser accepts is streamed as it is parsed when every parameter has a kind, and otherwise fails |
| `OpenAiStream.StreamText` | ds4_gb10/ds4_server.c:4042-4122 | for any growing text: the reasoning and text sent are exactly those of the whole text, and the tool deltas are those of the first block |
| `AnthropicStream.AcceptedIsBracketed` | ds4_gb10/ds4_server.c:4312-4409 | a client that accepts a stream saw every start matched by a stop, indexes in order, and deltas only inside their block |
| `AnthropicStream.Stream.Update` | ds4_gb10/ds4_server.c:4452-4530 | every update leaves a stream the client accepts, in step with the split of the text; after every update but the last only what must be held is unsent, and a block has been seen when text has ended |
| `AnthropicStream.Stream.SendTools` | ds4_gb10/ds4_server.c:4532-4572 | one tool block for every call, in order |
| `AnthropicStream.Stream.Finish` | ds4_gb10/ds4_server.c:4574-4600 | the message ends with its stop reason and all blocks closed |
| `AnthropicStream.StopReasonIs` | ds4_gb10/ds4_server.c:4198-4202 | calls ask for their results, a reply cut by the token limit says so, any other is complete |
| `AnthropicStream.UseIdsDiffer` | ds4_gb10/ds4_server.c:4542 | the ids that the calls of one message get are different, unless they are cut off at 127 bytes |
| `AnthropicStream.SpokenIsAll` | ds4_gb10/ds4_server.c:4452-4530 | the blocks of a message are all of its reasoning and all of its text, in this order |
| `AnthropicStream.StreamMessage` | ds4_gb10/ds4_server.c:4312-4600 | for any growing text and calls the client receives exactly the thinking block, the text block and the tool blocks, and the end |
| `TextSteps.ComputeNextCharLen` | ds4_gb10/linenoise.c:311-356 | the loop over joined characters computes the specified step |
| `TextSteps.ComputePrevCharLen` | ds4_gb10/linenoise.c:255-307 | the loop back over joined characters computes the specified step |
| `TextSteps.StepStaysInText` | ds4_gb10/linenoise.c:311-356 | on valid text a step leads from one character boundary to another |
| `TextSteps.StepTakesMarks` | ds4_gb10/linenoise.c:311-356 | behind a step no mark is left that extends the character, and without one the step is one code point |
| `TextSteps.BackAgain` | ds4_gb10/linenoise.c:255-356 | in valid text a step back undoes a step, for a character that is no flag, is not itself a mark and does not stand behind a joiner |
| `PasteInput.MatchStep` | ds4_gb10/linenoise.c:1789-1816 | the matcher's state is always the longest beginning of the terminator that the input ends in |
| `PasteInput.FoundPaste` | ds4_gb10/linenoise.c:1789-1816 | the paste is what precedes the first terminator |
| `PasteInput.NormalizedTwice` | ds4_gb10/linenoise.c:1825-1838 | normal text has no CR and does not change |
| `PasteInput.LinesNormalized` | ds4_gb10/linenoise.c:1825-1838 | normal text has the same lines, each ended by one newline, whichever of the three line ends they had |
| `PasteInput.NormalizeInPlace` | ds4_gb10/linenoise.c:1825-1838 | the in-place pass leaves the normal form of the bytes |
| `PasteFolds.PasteFits` | ds4_gb10/linenoise.c:1776-1853 | hiding a paste at the cursor keeps the folds ordered, disjoint and inside the buffer |
| `PasteFolds.InsertKeepsHidden` | ds4_gb10/linenoise.c:1138-1152 | after an insertion every fold that was not typed into hides the same bytes |
| `PasteFolds.DeleteKeepsHidden` | ds4_gb10/linenoise.c:1156-1171 | after a deletion every fold that was not cut into hides the same bytes |
| `PasteFolds.KeptByInsertIs` | ds4_gb10/linenoise.c:1138-1152 | an insertion drops exactly the folds it goes into |
| `PasteFolds.KeptByDeleteIs` | ds4_gb10/linenoise.c:1156-1171 | a deletion drops exactly the folds that lose a byte |
| `PasteFolds.DeleteUndoesInsert` | ds4_gb10/linenoise.c:1138-1171 | deleting what was inserted outside the folds restores buffer and folds |
| `PasteFolds.MarkerFits` | ds4_gb10/linenoise.c:910-921 | the marker of any text fits the buffer it is printed to |
| `PasteFolds.MarkerSays` | ds4_gb10/linenoise.c:910-921 | the marker tells the bytes of a line, and the lines of a longer text |
| `PasteFolds.RenderedAround` | ds4_gb10/linenoise.c:998-1062 | at any fold the display is what comes before it, the marker of its bytes, and the rest |
| `PasteFolds.CursorIsLength` | ds4_gb10/linenoise.c:998-1062 | the displayed cursor is the length of what is shown before it |
| `PasteFolds.TypingIsVisible` | ds4_gb10/linenoise.c:998-1062 | typing outside the folds is typing at the displayed cursor of the displayed text |
| `FoldTable.Table.Add` | ds4_gb10/linenoise.c:1095-1108 | inserts the range in its place unless it is empty or the table of 16 is full |
| `FoldTable.Table.Remove` | ds4_gb10/linenoise.c:1116-1122 | drops one fold and moves the later ones down |
| `FoldTable.Table.Overlaps` | ds4_gb10/linenoise.c:1125-1134 | is part of the range hidden? |
| `FoldTable.Table.AdjustAfterInsert` | ds4_gb10/linenoise.c:1138-1152 | in place: folds behind the insertion move, a fold that was typed into goes |
| `FoldTable.Table.AdjustAfterDelete` | ds4_gb10/linenoise.c:1156-1171 | in place: folds behind the deletion move, a fold that was cut into goes |
| `LineEditor.Editor.Grow` | ds4_gb10/linenoise.c:1454-1482 | the capacity doubles until it holds what is needed, or stays when it must not grow |
| `LineEditor.Editor.Insert` | ds4_gb10/linenoise.c:1487-1504 | inserts at the cursor, with the folds moved, or changes nothing when there is no room |
| `LineEditor.Editor.EditNextLen` | ds4_gb10/linenoise.c:1066-1077 | the step to the right passes a fold as a whole |
| `LineEditor.Editor.EditPrevLen` | ds4_gb10/linenoise.c:1081-1092 | the step to the left passes a fold as a whole |
| `LineEditor.RightPassesFold` | ds4_gb10/linenoise.c:1066-1077 | where a fold begins the step lands behind it, elsewhere it takes one character |
| `LineEditor.LeftPassesFold` | ds4_gb10/linenoise.c:1081-1092 | the same to the left |
| `LineEditor.Editor.MoveLeft` | ds4_gb10/linenoise.c:1540-1545 | moves by one step |
| `LineEditor.Editor.MoveRight` | ds4_gb10/linenoise.c:1548-1553 | moves by one step |
| `LineEditor.Editor.Delete` | ds4_gb10/linenoise.c:1618-1627 | deletes the step to the right of the cursor and adjusts the folds |
| `LineEditor.Editor.Backspace` | ds4_gb10/linenoise.c:1630-1640 | deletes the step to the left of the cursor and adjusts the folds |
| `LineEditor.Editor.DeletePrevWord` | ds4_gb10/linenoise.c:1644-1659 | deletes back over spaces and a word |
| `LineEditor.WordStartIs` | ds4_gb10/linenoise.c:1644-1659 | in ASCII text without folds near by the spaces before the cursor and then the word before them are passed, up to a space or the start |
| `LineEditor.Editor.KillToEnd` | ds4_gb10/linenoise.c:2057-2062 | deletes from the cursor to the end |
| `LineEditor.Editor.KillLine` | ds4_gb10/linenoise.c:2051-2056 | empties the line and its folds |
| `LineEditor.Editor.Transpose` | ds4_gb10/linenoise.c:1933-1952 | swaps the characters around the cursor, unless one is hidden or too long |
| `LineEditor.SwapKeepsHidden` | ds4_gb10/linenoise.c:1933-1952 | swapping visible characters leaves what the folds hide alone |
| `LineEditor.SwappedPlaces` | ds4_gb10/linenoise.c:1933-1952 | the two characters change places, everything else keeps its place, and swapping back restores the text |
| `LineEditor.Editor.BuildHistoryFold` | ds4_gb10/linenoise.c:927-968 | the fold of a recalled entry that is long or has lines; `LineEditor.ContextIsShown` says what stays visible |
| `LineEditor.ContextIsShown` | ds4_gb10/linenoise.c:933-965 | of valid text longer than 16 bytes the first and the last eight characters stay visible; a side on which a line ends is hidden to the edge, and sides that meet hide everything |
| `LineEditor.RecalledLine` | ds4_gb10/linenoise.c:903-968 | a recalled line of ASCII text is shown whole below 200 bytes, and from there on with eight bytes at each end |
| `LineEditor.Editor.Recall` | ds4_gb10/linenoise.c:1575-1613 | saves the edited text, shows the other entry, clipped to the room, with its fold; at the ends nothing but the saved text changes |
| `LineEditor.Editor.ReadPaste` | ds4_gb10/linenoise.c:1776-1818 | reads up to the terminator; overflow exactly when the paste exceeds the room |
| `LineEditor.RoomIff` | ds4_gb10/linenoise.c:1776-1787 | a paste has room exactly when a fold is free, it is at most a mebibyte, and the text with it is within the limit, or within a buffer that cannot grow |
| `LineEditor.Editor.Paste` | ds4_gb10/linenoise.c:1776-1853 | inserts the normalized paste at the cursor and hides it when it should be, or drops it whole |
| `LineEditor.Editor.GetRenderFolds` | ds4_gb10/linenoise.c:973-991 | the folds that are shown |
| `LineEditor.Editor.RenderBuffer` | ds4_gb10/linenoise.c:998-1062 | the display array has exactly the computed length and a terminator, holds the rendered text, and the cursor is where it is shown |

## Left out

- Rax.Rax.Remove: requires that no key is longer than 65535 bytes, which is sufficient for every merge; the exact condition on the tree is `RaxRemoval.CopyOverrunsIff`, and what happens when it fails is not modelled.
- Rax.Rax.GenericInsert: the byte layout of a node (padding, the place of the value pointer, the `memmove` of its parts) is not modelled; a node has an edge string, a slot sequence and a bitmap of 13 bits, and a slot carries no tag, so code must consult the bitmap.
- Rax.Rax.SetLink: the pointer to a pointer is modelled as the head or as a node address with a slot index.
- Running out of memory: no allocation fails, so the paths after a failed allocation, and the incomplete stack they leave, are not modelled.
- Rax.Rax.FreeTree: the callback for values is not called.
- RaxIterator.Iterator.Next: the tree does not change under the iterator; the growing key buffer is a byte string.
- Random walks, comparisons, defragmentation, in-place updates through an iterator and the debugging output of the radix tree.
- Sha1.Context.Final: states the digest below 2^61 bytes, the length limit of the standard.
- ToolMemory.ToolMemory.Put: the two indexes by id and by text are maps, not instances of the radix tree; locks and the overflow of the 64-bit clocks are not modelled.
- KvToolMapFile.WriteMap: the file is a byte string; failing writes, seeking back to the header and the rest of the cache file are not modelled.
- KvToolMapFile.SavedThenLoaded: requires ids and texts of the lengths the loader accepts and limits that hold all records; below them the loader drops records and evicts, which `KvToolMapFile.LoadMap` states.
- Prompt.RenderPrompt: the text that describes the tools and the long-thinking preamble are parameters.
- Prompt.ThinkingCheckpointLaw: requires a later turn by the user and no later system message, which would move to the front of the prompt.
- Rewriting the live token sequence of a session to a checkpoint: tokens and the model are not part of this model, only the texts are.
- DsmlRecognizer.TrackerAgrees: the condition on the text is sufficient; two readings can meet again later in a text that violates it. `DsmlDisagree.QuotedEndDisagrees` is a family on which they differ.
- DsmlTrace.BlockTrace: is stated for blocks in the full spelling of the tags; the moves themselves are modelled for all three. A value that is read as JSON has its strings closed and backslashes only in them, as every JSON value has (`JsonStrings.ValueIsStrung`).
- ToolArgJson.SameArguments: the condition that the values that are not strings are JSON is sufficient; a value that is not JSON goes through both readers as it is. `ToolArgJson.MissingValueDiffers` is the case of no value.
- DsmlReparse.RenderAgain: the condition that all members are plain is sufficient; some members that are not plain also survive a second rendering.
- JsonValue.ValueMoved: a number is a maximal run of digits, signs, points and exponent letters; the spellings that `strtod` accepts beyond that (`inf`, `nan`, hexadecimal), and malformed runs of which it takes a part, are not modelled.
- Texts that contain a zero byte, at which the C strings of the original end.
- The recovery of tool calls that fail to parse, the conversion of whole requests and responses, and tool schemas.
- ToolArgStream.ToolStream.Update: call ids and the JSON framing of the server-sent events are left out; an event is its call index and its text.
- OpenAiStream.StreamText: stop sequences, writes that fail, and the final event for calls that were not streamed are left out; for a block that is cut off at the end only what the updates send is stated.
- AnthropicStream.StreamMessage: the calls are a parameter, for they come from the parser of the finished text; usage counts and writes that fail are left out.
- TextSteps.StepStaysInText: states the step for valid text; on bytes that break off inside a character the original can step past the end of the text.
- TextSteps.BackAgain: flags are left out, because a step to the right pairs them from the left and a step to the left from the right.
- LineEditor.WordStartIs: states the start of a word in ASCII text; elsewhere it is the number of steps that `LineEditor.WordStart` takes.
- LineEditor.Editor.MoveRight: requires that the character at the cursor ends inside the buffer, for the same reason.
- LineEditor.Editor.Delete: requires the same.
- LineEditor.Editor.Transpose: requires the same.
- LineEditor.Editor.RenderBuffer: drawing on the terminal, widths, hints, completion and raw mode are left out, and so is the failure to allocate the display buffer.
- LineEditor.Editor.Paste: the input is the bytes that will be read; a failing read is the end of the input.
- LineEditor.Editor.Recall: adding to, saving and loading the history are left out; whether masking is on does not change while a line is edited.
- Sockets, threads, the HTTP layer, the eviction scores of the disk cache (floating point), the model itself, its Metal and CUDA kernels, the command line and the tools for model files.
