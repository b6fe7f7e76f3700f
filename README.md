# Caliper memory pool and tree report formatter, in Dafny

This project models two sequential components of the Caliper performance
introspection library and proves properties of them.

- **The memory pool** (`src/caliper/MemoryPool.cpp`). This is the chunked bump
  allocator behind the runtime's metadata.
  - A pool is an ordered list of chunks of 8-byte words, each with a write
    mark, plus the index of the current chunk.
  - A request is rounded up to whole words and carved off the current chunk.
  - When the request does not fit, the pool appends a new chunk of at least
    64 Ki words, or refuses when expansion is disabled.
  - Module `MemoryPools` holds the pure specification (`AllocStep`,
    `ExpandState`, `Run`) and the class `MemoryPool`, whose fields `chunks` and
    `index` are updated in place by methods proved against that specification.
  - An allocation is a (chunk, word offset) pair rather than a pointer.
- **The tree report formatter** (`src/reader/TreeFormatter.cpp`). It collects
  snapshot records into a tree and prints that tree as an indented,
  column-aligned text report. It is built from these modules:
  - `Padding`: the two padding helpers, with their size_t wrap written out.
  - `PathKeys`: splitting the path-key argument, lazy resolution of the keys,
    the path predicate, and the path-column width of a node.
  - `ColumnWidths`: the per-attribute width table. It is an association list
    kept in attribute-id order, like the `std::map` it models.
  - `ColumnSelection`: the four attribute-selection modes.
  - `Rendering`: the header line and the rows of a depth-first walk.
  - `TreeFormatting`: the class `TreeFormatter`, whose `Configure`,
    `GetPathKeys`, `Add`, `PrintNodes` and `Flush` update the formatter's
    fields and are proved against the functions of the modules above.
  - `SnapshotTrees`: the snapshot tree as given input.
  - The tree merge itself is an abstract function parameter `addSnapshot`. It
    takes the tree, the record and the path predicate, and yields the new tree
    and the node reached (if any) together with its ancestors' label keys.
  - The report is a sequence of lines instead of an output stream.

Attributes are identified by their id throughout. This matches both the
width table's key order and `Attribute` equality in the source.

## Model

| member | source | states |
|---|---|---|
| MemoryPools.Words | src/caliper/MemoryPool.cpp:54 | a request of `bytes` takes the least number of words whose size covers it (ceil(bytes/8), 0 for 0 bytes) |
| MemoryPools.Fits | src/caliper/MemoryPool.cpp:56 | a request fits only when the current chunk exists and is large enough; a smaller request then fits too, and a 0-word request fits exactly when there is a current chunk |
| MemoryPools.ExpandState | src/caliper/MemoryPool.cpp:45-51 | `expand` appends exactly one chunk of max(ceil(bytes/8), 65536) words with write mark 0, keeps every older chunk, makes the new chunk current, and keeps the pool invariant |
| MemoryPools.Bump | src/caliper/MemoryPool.cpp:63-64 | carving n words advances only the current chunk's write mark, by exactly n; the index, the chunk count, the sizes and every other chunk are unchanged, and the invariant holds |
| MemoryPools.AllocStep | src/caliper/MemoryPool.cpp:53-67 | every allocation step keeps the invariant: each write mark within its chunk, the index a chunk or the one-past-the-end sentinel |
| MemoryPools.AllocFits | src/caliper/MemoryPool.cpp:56-64 | a request that fits is served at the current chunk's old write mark, that mark grows by exactly the word count, and the index, chunk count and every other chunk are unchanged |
| MemoryPools.AllocRefused | src/caliper/MemoryPool.cpp:56-60 | with no room (or no current chunk) and expansion disabled, the result is null and the pool is unchanged |
| MemoryPools.AllocExpands | src/caliper/MemoryPool.cpp:45-64 | with no room and expansion enabled, exactly one chunk of max(ceil(bytes/8), 65536) words is appended, becomes current, and serves the request at offset 0, leaving its mark at the word count |
| MemoryPools.AllocWithinChunk | src/caliper/MemoryPool.cpp:63-64 | a served request lies in the current chunk and ends at its new write mark, within its size |
| MemoryPools.AllocAppendOnly | src/caliper/MemoryPool.cpp:48-64 | chunks are only appended: none is removed or shrunk, no write mark goes back, the index never moves back, and chunks before the current one are untouched |
| MemoryPools.Run | src/caliper/MemoryPool.cpp:53-67 | a run of requests yields one result per request and keeps the invariant |
| MemoryPools.RunPrefix | src/caliper/MemoryPool.cpp:53-67 | serving a prefix of the requests yields a prefix of the results |
| MemoryPools.RunRegionsBelowMark | src/caliper/MemoryPool.cpp:63-64 | every region handed out in a run lies below the final write mark of its chunk |
| MemoryPools.RunRegionsDisjoint | src/caliper/MemoryPool.cpp:63-64 | two regions of one run in the same chunk do not overlap: the later starts at or after the end of the earlier |
| MemoryPools.ConsecutiveAllocsAdjacent | src/caliper/MemoryPool.cpp:63-64 | two consecutive results in one chunk are adjacent: the second starts where the first ends |
| MemoryPools.RunAbandonedFrozen | src/caliper/MemoryPool.cpp:48-50 | a chunk older than the current one is never written again: the space left in it is abandoned |
| MemoryPools.Initial | src/caliper/MemoryPool.cpp:69-77 | construction expands the empty pool once by `pool_size` bytes, giving a pool that satisfies the invariant |
| MemoryPools.InitialDefault | src/caliper/MemoryPool.cpp:89-100 | with the defaults (pool_size 2097152, can_expand true) the pool starts with one empty chunk of 262144 words |
| MemoryPools.ZeroSizedPoolServesFirstRequest | src/caliper/MemoryPool.cpp:69-77 | a pool configured with size 0 still gets a 65536-word chunk and serves a 100-byte request at offset 0, leaving the mark at 13 |
| MemoryPools.WordsAsWrittenAgrees | src/caliper/MemoryPool.cpp:54 | the size_t rounding agrees with the exact ceiling for every request up to 2^64 - 8 bytes |
| MemoryPools.WordsAsWrittenWraps | src/caliper/MemoryPool.cpp:54 | the size_t rounding of a 2^64 - 1 byte request is 0 words, far below the request |
| MemoryPools.MemoryPool.constructor | src/caliper/MemoryPool.cpp:69-107 | the new pool's state is `Initial(config)` and it keeps the configured `can_expand` |
| MemoryPools.MemoryPool.WithInitialBytes | src/caliper/MemoryPool.cpp:109-113 | the initial pool is expanded once more by `bytes`: two chunks, the second current |
| MemoryPools.MemoryPool.Expand | src/caliper/MemoryPool.cpp:45-51 | the fields are updated to `ExpandState` of the old state |
| MemoryPools.MemoryPool.AllocateWith | src/caliper/MemoryPool.cpp:53-67 | the result and the new fields are exactly `AllocStep` of the old state |
| MemoryPools.MemoryPool.Allocate | src/caliper/MemoryPool.cpp:120-127 | the public allocation is `AllocStep` with the configured `can_expand` |
| Padding.SizeSub | src/reader/TreeFormatter.cpp:66-72 | size_t subtraction: the plain difference when it is non-negative, 2^64 minus the shortfall otherwise |
| Padding.PadRight | src/reader/TreeFormatter.cpp:64-68 | the result is the string followed by at most 120 spaces |
| Padding.PadLeft | src/reader/TreeFormatter.cpp:70-74 | the result is at most 120 spaces, then the string, then one space |
| Padding.PadRightFits | src/reader/TreeFormatter.cpp:64-68 | a string that fits, with a gap of at most 120, fills a field of exactly width + 1 characters |
| Padding.PadRightCapped | src/reader/TreeFormatter.cpp:66 | a gap wider than 120 is capped at 120 spaces |
| Padding.PadRightOverlong | src/reader/TreeFormatter.cpp:66 | a string longer than width + 1 wraps the gap around and gets 120 trailing spaces |
| Padding.PadLeftFits | src/reader/TreeFormatter.cpp:70-74 | a string that fits is right-aligned in a field of width characters plus one separator |
| Padding.PadLeftCapped | src/reader/TreeFormatter.cpp:72 | a string that fits but leaves a gap wider than 120 gets exactly 120 leading spaces |
| Padding.PadLeftOverlong | src/reader/TreeFormatter.cpp:72 | a string longer than the width gets 120 leading spaces |
| PathKeys.Split | src/reader/TreeFormatter.cpp:96-98 | splitting yields at least one piece |
| PathKeys.JoinSplit | src/reader/TreeFormatter.cpp:96-98 | splitting loses nothing: the pieces joined with commas give the argument back |
| PathKeys.SplitPiecesHaveNoSeparator | src/reader/TreeFormatter.cpp:96-98 | no piece contains a comma |
| PathKeys.SplitCount | src/reader/TreeFormatter.cpp:96-98 | there is one more piece than there are commas |
| PathKeys.ConfiguredNames | src/reader/TreeFormatter.cpp:96-98 | without format arguments no names are added; otherwise the names are the comma-free pieces that join back to the first argument |
| PathKeys.Unresolved | src/reader/TreeFormatter.cpp:100 | the key cache has one entry per name, all invalid |
| PathKeys.Resolve | src/reader/TreeFormatter.cpp:104-127 | the resolved keys have one entry per name; entry i is valid iff it was cached or its name resolves now; a cached entry is kept, and an entry that changed is the current lookup of its name |
| PathKeys.ResolveEntries | src/reader/TreeFormatter.cpp:114-124 | entry i is valid iff it was cached or its name resolves now; a cached entry is kept as it was and is never looked up again |
| PathKeys.ResolveIdempotent | src/reader/TreeFormatter.cpp:104-127 | resolving twice against the same database is resolving once |
| PathKeys.ChoosePredicate | src/reader/TreeFormatter.cpp:132-143 | an attribute is on the path iff it is nested (no path-key names) or it is one of the valid resolved keys |
| PathKeys.UnresolvedKeysMatchNothing | src/reader/TreeFormatter.cpp:139-142 | while no key is resolved, the membership predicate matches no attribute |
| PathKeys.LabelledDepth | src/reader/TreeFormatter.cpp:153 | the count k of a parent chain is the length of its valid prefix: entries before k are valid, entry k (if any) is not |
| PathKeys.PathLen | src/reader/TreeFormatter.cpp:150-156 | the width a reached node asks for is its label length plus 2 per labelled level: exactly the label without a label key, at least label + 2 with one, and at most label + 2 per entry of the parent chain |
| PathKeys.PathColumnLen | src/reader/TreeFormatter.cpp:150-155 | the loop over the parent chain computes the label length plus 2 for the node and each consecutive labelled ancestor |
| PathKeys.LabelledDepthIs | src/reader/TreeFormatter.cpp:153 | the count is the one number whose prefix is valid and whose next entry is not |
| ColumnWidths.Lookup | src/reader/TreeFormatter.cpp:161 | `find` finds a width iff the table has an entry with that attribute id, and returns that entry's width |
| ColumnWidths.InsertOrdered | src/reader/TreeFormatter.cpp:164 | inserting a new attribute keeps the table in id order |
| ColumnWidths.LookupInsert | src/reader/TreeFormatter.cpp:164 | after an insertion the new attribute reads the inserted width and every other attribute reads as before |
| ColumnWidths.LookupAssign | src/reader/TreeFormatter.cpp:166 | after an assignment the attribute reads the new width and every other attribute reads as before |
| ColumnWidths.Observe | src/reader/TreeFormatter.cpp:160-166 | after recording one value the attribute has a width at least the value's length, and every attribute that had a width still has one |
| ColumnWidths.ObserveAll | src/reader/TreeFormatter.cpp:159-167 | after the update for a node every attribute of the node has a width, and every attribute that had a width still has one |
| ColumnWidths.ObserveLookupSame | src/reader/TreeFormatter.cpp:159-167 | a first sighting sets the width to max(value length, name length); a later one to max(old width, value length) |
| ColumnWidths.ObserveLookupOther | src/reader/TreeFormatter.cpp:159-167 | observing one attribute leaves every other attribute's width unchanged |
| ColumnWidths.ObserveAllOrdered | src/reader/TreeFormatter.cpp:159-167 | the width update for a whole node keeps the table in id order |
| ColumnWidths.ObserveAllHeadersFit | src/reader/TreeFormatter.cpp:164-166 | the width update keeps every width at least as long as its attribute's name |
| ColumnWidths.ObserveAllKeys | src/reader/TreeFormatter.cpp:159-167 | after the update an attribute has a width iff it had one or appears on the node |
| ColumnWidths.ObserveAllGrows | src/reader/TreeFormatter.cpp:166 | widths never decrease |
| ColumnWidths.ObserveAllCovers | src/reader/TreeFormatter.cpp:159-167 | after the update every value on the node fits its column's width |
| ColumnWidths.SubscriptedKeepsWidths | src/reader/TreeFormatter.cpp:201-203 | `operator[]` keeps the order and every width as read, and leaves the attribute in the table |
| ColumnWidths.SubscriptedAllKeepsWidths | src/reader/TreeFormatter.cpp:263-264 | subscripting every column in the header loop keeps the order and every width, and leaves all columns in the table |
| ColumnWidths.Subscripted | src/reader/TreeFormatter.cpp:264 | after `operator[]` the attribute is in the table, every attribute present stays present, and every attribute reads the same width as before (0 when absent) |
| ColumnWidths.SubscriptUnseenBreaksFloor | src/reader/TreeFormatter.cpp:264 | a listed column never seen by `add` enters the table with width 0, below its name's length |
| ColumnSelection.DefaultSelection | src/reader/TreeFormatter.cpp:226-236 | an attribute is a default column iff it is in the width table, not hidden and not named "cali."...; the columns follow the table's id order |
| ColumnSelection.AllSelection | src/reader/TreeFormatter.cpp:237-240 | the columns are every attribute of the table, in its order |
| ColumnSelection.ListSelection | src/reader/TreeFormatter.cpp:241-251 | an attribute is a column iff some listed name resolves to it |
| ColumnSelection.Unresolvable | src/reader/TreeFormatter.cpp:245-247 | a name is warned about iff it is listed and does not resolve; warnings and columns together account for every listed name |
| ColumnSelection.ListSelectionAllResolved | src/reader/TreeFormatter.cpp:241-251 | when every listed name resolves, the columns are exactly the listed attributes, in list order |
| ColumnSelection.ListSelectionConcat | src/reader/TreeFormatter.cpp:242-250 | List mode works name by name in list order: the columns of two lists in sequence are the columns of the first followed by those of the second |
| ColumnSelection.ListSelectionOne | src/reader/TreeFormatter.cpp:243-249 | one listed name gives its attribute when it resolves and nothing when it does not |
| ColumnSelection.ListSelectionRepeats | src/reader/TreeFormatter.cpp:242-250 | a name listed twice gives its column twice |
| ColumnSelection.SelectedColumnsFromTable | src/reader/TreeFormatter.cpp:225-255 | outside List mode every column comes from the width table and nothing is warned about |
| ColumnSelection.SelectColumns | src/reader/TreeFormatter.cpp:225-255 | None mode gives no columns; Default and All give only attributes of the width table; List gives only attributes some listed name resolves to |
| ColumnSelection.SelectionWarnings | src/reader/TreeFormatter.cpp:241-251 | a name is warned about iff the mode is List, the name is listed and it does not resolve |
| SnapshotTrees.FindEntry | src/reader/TreeFormatter.cpp:189-191 | a node's value for an attribute is found iff the node records that attribute, and it is the recorded value |
| SnapshotTrees.PreorderSize | src/reader/TreeFormatter.cpp:170-214 | the walk has one visit per node: its length is the number of nodes in the forest |
| SnapshotTrees.PreorderLevels | src/reader/TreeFormatter.cpp:212-213 | children are printed deeper than the level they start at |
| SnapshotTrees.PreorderSiblingOrder | src/reader/TreeFormatter.cpp:212-213 | the rows at the starting level are exactly the forest's roots, in sibling order |
| SnapshotTrees.PreorderSeqConcat | src/reader/TreeFormatter.cpp:212-213 | the walk of two consecutive groups of siblings is the walk of the first followed by the walk of the second |
| Rendering.ReportShape | src/reader/TreeFormatter.cpp:261-276 | the report is one header line that starts with "Path", then one row per node below the root |
| Rendering.Cell | src/reader/TreeFormatter.cpp:185-203 | a right-aligned cell (INT, UINT, DOUBLE, ADDR) ends with the value and one space; any other cell starts with the value |
| Rendering.RowLine | src/reader/TreeFormatter.cpp:179-204 | a node's line starts with its path string: 2 spaces per level, then its label |
| Rendering.HeaderLine | src/reader/TreeFormatter.cpp:261-264 | the header line starts with "Path" |
| Rendering.Report | src/reader/TreeFormatter.cpp:261-276 | the report is the header line followed by one line per node below the root |
| Rendering.RowStartsWithPath | src/reader/TreeFormatter.cpp:179-183 | every row starts with 2 spaces per level followed by the node's label |
| Rendering.CellPlacement | src/reader/TreeFormatter.cpp:194-203 | INT, UINT, DOUBLE and ADDR cells end with the value and a space; other cells start with the value |
| Rendering.MissingValueIsBlank | src/reader/TreeFormatter.cpp:186-192 | a node without the attribute gets a cell of spaces only |
| Rendering.CellWidth | src/reader/TreeFormatter.cpp:200-203 | a value that fits gives a cell of exactly the column width plus one, with either alignment |
| Rendering.RowAlignedWithHeader | src/reader/TreeFormatter.cpp:183-204 | when every text fits, each row is as long as the header: the path width plus one, plus each column's width plus one |
| TreeFormatting.TreeFormatter.constructor | src/reader/TreeFormatter.cpp:279-289 | a new formatter has an empty tree, no widths, path width 0 and the configured path keys and selection |
| TreeFormatting.TreeFormatter.Configure | src/reader/TreeFormatter.cpp:94-102 | the pieces of the first format argument are appended to the names, the key cache is reset to all invalid, and the selection is stored |
| TreeFormatting.TreeFormatter.GetPathKeys | src/reader/TreeFormatter.cpp:104-127 | the returned keys and the new cache are both `Resolve` of the old cache |
| TreeFormatting.TreeFormatter.Add | src/reader/TreeFormatter.cpp:129-168 | the tree is what `addSnapshot` yields under the chosen predicate; without a node the widths are unchanged, otherwise the path width is max(old, `PathLen`) and the table is `ObserveAll` of the node's attributes |
| TreeFormatting.TreeFormatter.ObserveAttributes | src/reader/TreeFormatter.cpp:159-167 | the loop over the node's attributes leaves the table equal to `ObserveAll` of the old table |
| TreeFormatting.TreeFormatter.Subscript | src/reader/TreeFormatter.cpp:264 | `operator[]` returns the width as read and inserts width 0 for an unseen attribute |
| TreeFormatting.TreeFormatter.PrintNodes | src/reader/TreeFormatter.cpp:170-214 | the lines printed for a node are the rows of its depth-first walk starting at its level: its own line, then its children one level deeper |
| TreeFormatting.TreeFormatter.PrintHeader | src/reader/TreeFormatter.cpp:261-266 | the header is `HeaderLine` under the widths before flushing, and every column has been subscripted |
| TreeFormatting.TreeFormatter.PrintSiblings | src/reader/TreeFormatter.cpp:212-213 | the loop over a list of siblings prints, in order, the rows of each sibling's walk from the given level, so the lines are the rows of the walk of the whole list; `Flush` runs it on the root's children from level 0 |
| TreeFormatting.TreeFormatter.Flush | src/reader/TreeFormatter.cpp:216-277 | the path width is floored at 4; the lines are `Report` over the selected columns and the widths gathered by `add`; the warnings are the unresolvable listed names |
| TreeFormatting.NestedRegionsExample | src/reader/TreeFormatter.cpp:151-276 | for the tree a, a/b, a/c, `add` gathers path widths 3, 5 and 5, `flush` keeps 5, and the report prints "Path  ", "a     ", "  b   ", "  c   " |

## Left out

- Locking: the reader-writer lock around the public `allocate` and the mutex in `get_path_keys` are not modelled. Only sequential behaviour is modelled.
- Raw memory: `new uint64_t[len]`, pointer arithmetic and the destructor's `delete[]` are not modelled. An allocation is a (chunk, word offset) pair.
- Runtime configuration lookup is not modelled. `pool_size` and `can_expand` are constructor parameters, and `DefaultConfig` holds the defaults of the "memory" config set.
- MemoryPools.MemoryPool.AllocateWith: rounds with the exact ceiling `Words`, not the size_t expression, which wraps for requests of at least 2^64 - 7 bytes (see Findings).
- MemoryPools.ExpandState: sizes the new chunk with the exact ceiling `Words`, not the size_t expression of line 46, which wraps for requests of at least 2^64 - 7 bytes and then gives a 65536-word chunk.
- MemoryPools.MemoryPool.Expand: inherits the exact-ceiling rounding of `ExpandState`.
- MemoryPools.Initial: inherits the exact-ceiling rounding of `ExpandState` for the configured `pool_size`.
- MemoryPools.MemoryPool.WithInitialBytes: inherits the exact-ceiling rounding of `ExpandState` for `bytes`.
- `SnapshotTree::add_snapshot` is not part of this model. It is the parameter `addSnapshot`, and its result carries the reached node and the label keys of its ancestors in place of the parent pointers.
- `util::split` is not part of this model. `Split` assumes a plain comma split that keeps empty pieces ("" gives one empty name).
- Value formatting is not modelled: `Variant::to_string`, including the rendering of doubles, is taken as a given string on each entry. Attribute metadata (name, type, hidden and nested flags) is taken as given.
- The attribute database is the parameter `db`, a function from name to optional attribute.
- Streams are not modelled. The report is a sequence of lines without the trailing newlines. The text of the warning printed to the error stream is not modelled; `Flush` returns the names it warns about.
- TreeFormatting.TreeFormatter.Add: widths and the path width are unbounded naturals; the source keeps them in `int` and does not guard against overflow.
- TreeFormatting.TreeFormatter.PrintNodes: reads the width table without modelling `operator[]` on it, because `Flush` subscripts every printed column first, so the row loop never inserts.
- Text is bytes: a `string` here stands for the bytes of a `std::string`, one `char` per byte, so `|s|` is `size()`. All widths are byte counts. This covers the padding of `pad_right` and `pad_left`, the path width of `add` and the column widths gathered from values and names. Non-ASCII text is not decoded: a label such as "é" counts as its two UTF-8 bytes, not as one character, exactly as in the source.
- Padding.PadRight, Padding.PadLeft, PathKeys.PathLen, ColumnWidths.Observe, ColumnWidths.ObserveAll: their lengths are byte counts, as in the line above; they do not measure characters or display columns, and neither does the source.
- The root of the snapshot tree always exists in the model, so the `if (node)` test in `flush` has no absent case.

## Findings

| source | as written | input that shows it | evidently intended | confidence | as-written member | corrected member |
|---|---|---|---|---|---|---|
| src/caliper/MemoryPool.cpp:46,54 | `(bytes+sizeof(uint64_t)-1)/sizeof(uint64_t)` in size_t wraps for the largest requests | `bytes` = 2^64 - 1 rounds to 0 words, so `allocate` succeeds without reserving anything | the word count is ceil(bytes/8) for every request | not executed | MemoryPools.WordsAsWrittenWraps | MemoryPools.Words |
