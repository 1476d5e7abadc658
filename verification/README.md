# Condensed de Bruijn graph, careful read filtering and 2-bit graph I/O

A Dafny model of three pieces of the SPAdes assembler.

**The double-stranded condensed de Bruijn graph** (`condensedGraph.cpp`).
- Every vertex holds a nucleotide sequence, the handle of its reverse-complement twin, and four outgoing slots keyed by nucleotide.
- Ancestors are not stored. They are read off the complement's slots.
- The graph is modelled as an arena: a map from integer handles to vertex records, plus a counter for fresh handles and an event log.
- The event log stands for the action-handler notifications.
- Every mutation (`AddVertex`, `AddDesc`, `LinkVertices`, `DeleteVertex`, the two incoming-edge fix-ups, `SplitVertex`, `Merge`) is a function from graph to graph.
- Each mutation has lemmas showing that it keeps the graph *valid*. A valid graph satisfies:
  - complements are paired and reverse-complementary;
  - every edge `a -> d` sits in the slot keyed by `d`'s k-th symbol;
  - `a` and `d` overlap by k-1 symbols;
  - the mirror edge `d' -> a'` is present.
- `DFS::go` and `DFS::Traverse` become a walk state (visited set, stack, report log) with a method over the list of roots.

**Longest-valid-run trimming** (`careful_filtering_reader_wrapper.hpp`).
- `LongestValidCoords` is a one-pass scan. Its result is proved to be the leftmost longest run of nucleotide characters.
- The single-read and paired `LongestValid` trim reads. The paired one recomputes the insert size modulo 2^64.
- The filtering wrapper is a stream over a list of reads. Reading it to the end yields exactly the trimmed, valid reads in input order.

**2-bit packing and the edge-record text format** (`graphio.cpp`).
- `codeNucleotide`, `codeRead`, `extractMer` and `decompress` form a big-endian base-4 code. It is proved to round-trip.
- `DataPrinter`/`DataReader` become a printer and a parser over a token list.
- Parsing what was printed gives back an edge whose sequences are non-empty, and gives back a long-edges map with the same keys and field-for-field equal edge records when its keys are listed once and its edges' sequences are non-empty. An empty sequence prints no word and is not read back.

Files:
- `wrappers.dfy` (Option/Result) and `nucleotide.dfy` (nucleotides, reverse complement, letters) are shared.
- `condensed_graph.dfy` holds the graph, the queries and the primitive mutations.
- `relink.dfy` holds the fix-up loops.
- `split.dfy` and `split_laws.dfy` hold the split.
- `merge.dfy` and `merge_laws.dfy` hold the merge.
- `traversal.dfy`, `careful_filtering.dfy` and `graphio.dfy` hold the rest.

## Model

| member | source | states |
|---|---|---|
| CondensedGraph.Desc | assembler/src/debruijn/condensedGraph.cpp:74-83 | at most four descendants; x is listed exactly when v has an edge to x |
| CondensedGraph.DescSlotOrder | assembler/src/debruijn/condensedGraph.cpp:76-82 | in a valid graph the descendants come in strictly increasing slot order (A, C, G, T of their k-th symbol), so none repeats |
| CondensedGraph.Anc | assembler/src/debruijn/condensedGraph.cpp:63-72 | at most four ancestors, all live; a is listed exactly when a is the complement of a target of v's complement |
| CondensedGraph.AncReversesDesc | assembler/src/debruijn/condensedGraph.cpp:63-72 | Anc(v) is Desc(v.complement) read backwards (slot 3 down to 0) with every entry complemented |
| CondensedGraph.AncMembership | assembler/src/debruijn/condensedGraph.cpp:63-72 | a is an ancestor of v exactly when a is live and v.complement has an edge to a.complement |
| CondensedGraph.NoForeignSlotTo | assembler/src/debruijn/condensedGraph.cpp:50-60 | the scan of ancestors returns true exactly when no ancestor other than v and v's complement has v in a slot |
| CondensedGraph.CanBeDeleted | assembler/src/debruijn/condensedGraph.cpp:48-61 | false exactly when some ancestor other than v and v.complement points at v |
| CondensedGraph.CanBeDeletedMeaning | assembler/src/debruijn/condensedGraph.cpp:48-61 | in a valid graph, CanBeDeleted(v) holds exactly when no live vertex other than v and v.complement has an edge into v |
| CondensedGraph.AddVertex | assembler/src/debruijn/condensedGraph.cpp:85-96 | two fresh handles holding s and RevComp(s), each the other's complement, with empty slots; every old vertex unchanged; exactly one Added event, for the first |
| CondensedGraph.AddVertexValid | assembler/src/debruijn/condensedGraph.cpp:85-96 | adding a pair for a sequence of length at least k keeps the graph valid |
| Nucleotide.RevCompInvolution | assembler/src/debruijn/condensedGraph.cpp:87-90 | reverse complement is an involution, so the two new vertices are each other's reverse complement |
| CondensedGraph.AddDesc | assembler/src/debruijn/condensedGraph.cpp:156-158 | the slot of anc keyed by desc's k-th symbol now holds desc; every other slot of every vertex is unchanged |
| CondensedGraph.LinkVertices | assembler/src/debruijn/condensedGraph.cpp:160-166 | writes a -> d and the mirror d.complement -> a.complement in their keyed slots and nothing else |
| CondensedGraph.OverlapMirror | assembler/src/debruijn/condensedGraph.cpp:162-165 | if d overlaps a by k-1 symbols, then RevComp(a) overlaps RevComp(d), so the mirror edge is linkable too |
| CondensedGraph.LinkVerticesValid | assembler/src/debruijn/condensedGraph.cpp:160-166 | linking two linkable vertices keeps the graph valid and leaves both the edge and its mirror present |
| CondensedGraph.MirrorEdge | assembler/src/debruijn/condensedGraph.cpp:164-165 | in a valid graph every edge a -> d has its mirror d.complement -> a.complement |
| CondensedGraph.DeleteVertex | assembler/src/debruijn/condensedGraph.cpp:98-111 | under both deletion guards, exactly v and its complement stop being live; every other record, k and the handle counter are unchanged; one Deleted(v) event is logged |
| CondensedGraph.DeleteVertexValid | assembler/src/debruijn/condensedGraph.cpp:98-111 | deleting a guarded pair keeps the graph valid, removes exactly the pair, leaves every other record as it was and leaves no edge into the pair |
| Relink.RelinkAll | assembler/src/debruijn/condensedGraph.cpp:20-30 | the loop over ancestors keeps the graph sound and the vertex set, handle counter and log unchanged |
| Relink.FixIncomingOnSplit | assembler/src/debruijn/condensedGraph.cpp:18-31 | the split fix-up (complement, self-loop and trivial cases) keeps the graph sound and the vertex set unchanged |
| Relink.FixIncomingOnMerge | assembler/src/debruijn/condensedGraph.cpp:33-46 | the merge fix-up (complement, self-loop and trivial cases) keeps the graph sound and the vertex set unchanged |
| Relink.RelinkAllSlots | assembler/src/debruijn/condensedGraph.cpp:18-46 | after the loop, every slot the three-case plan writes holds the planned value and every other slot holds its old value |
| SplitLaws.SplitVertex | assembler/src/debruijn/condensedGraph.cpp:113-138 | pos equal to the size returns v and changes nothing; otherwise the result is valid, v1 is returned and the split outcome holds |
| SplitLaws.OutcomeValid | assembler/src/debruijn/condensedGraph.cpp:113-138 | the graph a split leaves is valid again |
| SplitLaws.OutcomeEdges | assembler/src/debruijn/condensedGraph.cpp:123-135 | x -> y was an edge before the split exactly when Src(x) -> Tgt(y) is one after it; an edge into v now enters v1, one into v's complement enters v2's complement, and v's own edges leave from v2 |
| SplitLaws.OutcomePieces | assembler/src/debruijn/condensedGraph.cpp:121-126 | v1 followed by v2 past its first k-1 symbols is v's sequence; v1's only edge goes to v2 and v2's complement's only edge goes to v1's complement |
| Merge.Reported | assembler/src/debruijn/condensedGraph.cpp:144-149 | after the new vertex, both fix-ups and the report, the log gained Added(v) and Merged(v1, v2, v), before any deletion |
| Merge.MergeAbortsAsWritten | assembler/src/debruijn/condensedGraph.cpp:145-151 | for every mergeable pair, the mirror edge v2.complement -> v1.complement survives both fix-ups, so the guard CanBeDeleted(v1.complement) of line 101 is false when line 151 runs |
| Merge.CanBeDeletedWithMeaning | assembler/src/debruijn/condensedGraph.cpp:48-61 | the deletion guard widened to a second pair holds exactly when no live vertex outside both pairs has an edge into v |
| Merge.DeletePairs | assembler/src/debruijn/condensedGraph.cpp:151-152 | removes exactly the two pairs, keeps every other record and logs Deleted(v1) then Deleted(v2) |
| MergeLaws.MergeVertices | assembler/src/debruijn/condensedGraph.cpp:140-154 | the merged graph is valid; v1 and v2 are gone; the new vertex is returned and holds v1's sequence followed by v2's past its first k-1 symbols |
| MergeLaws.OutcomeValid | assembler/src/debruijn/condensedGraph.cpp:140-154 | the graph a merge leaves is valid again |
| MergeLaws.OutcomeEdges | assembler/src/debruijn/condensedGraph.cpp:144-147 | an edge between surviving carriers exists after the merge exactly when the matching edge existed before: edges leaving v2 now leave v, edges into v1 now enter v, and likewise for the complements |
| MergeLaws.SplitThenMergeable | assembler/src/debruijn/condensedGraph.cpp:113-142 | the two pieces of a split satisfy IsMergePossible and join back to the original sequence |
| MergeLaws.MergeThenSplitPieces | assembler/src/debruijn/condensedGraph.cpp:121-144 | cutting a merged vertex at v1's length gives back v1's and v2's sequences |
| Traversal.Go | assembler/src/debruijn/condensedGraph.cpp:168-179 | an unvisited vertex is appended to the start order, its start and edge reports are appended to the event log, it becomes visited and its descendants are pushed in Desc order; a visited one changes nothing |
| Traversal.DrainAsWritten | assembler/src/debruijn/condensedGraph.cpp:186-189 | the inner loop as written terminates even on cycles, empties the stack, keeps the walk invariant and visits the vertex on top of the stack |
| Traversal.Traverse | assembler/src/debruijn/condensedGraph.cpp:181-191 | every live vertex is started exactly once and each start is followed by its edge reports, in Desc order |
| Traversal.BlocksStarts | assembler/src/debruijn/condensedGraph.cpp:170-171 | a vertex is reported started exactly when it is in the start order |
| Traversal.BlocksEdges | assembler/src/debruijn/condensedGraph.cpp:172-176 | Edge(u, d) is reported exactly when u was started and u has an edge to d |
| Traversal.StartOnce | assembler/src/debruijn/condensedGraph.cpp:169-171 | with no vertex started twice, each started vertex is reported started exactly once |
| Traversal.WalkAsWrittenMisses | assembler/src/debruijn/condensedGraph.cpp:186-189 | on a valid two-pair graph with an edge 0 -> 2, the walk from root 0 as written ends with only vertex 0 visited |
| Traversal.DrainCorrected | assembler/src/debruijn/condensedGraph.cpp:186-189 | popping before expanding visits every vertex on the stack and leaves the visited set closed under edges |
| Traversal.WalkFrom | assembler/src/debruijn/condensedGraph.cpp:184-189 | the corrected walk from a root visits the root and leaves the visited set closed under edges, so everything reachable is started |
| Traversal.TraverseCorrected | assembler/src/debruijn/condensedGraph.cpp:181-191 | the corrected traversal reports every live vertex exactly once with its edges |
| CarefulFiltering.LongestValidCoords | assembler/src/include/io/careful_filtering_reader_wrapper.hpp:14-39 | (p, q) is a run of nucleotides within the read; no run is longer; no equally long run starts earlier; an empty run is (0, 0) |
| CarefulFiltering.CoordsEmpty | assembler/src/include/io/careful_filtering_reader_wrapper.hpp:35-37 | the result is (0, 0) with an empty run exactly when no character is a nucleotide |
| CarefulFiltering.CoordsUnique | assembler/src/include/io/careful_filtering_reader_wrapper.hpp:19-38 | any leftmost longest run is the scan's result |
| CarefulFiltering.LongestValid | assembler/src/include/io/careful_filtering_reader_wrapper.hpp:41-44 | the trimmed text is all nucleotides, is as long as any run, and is the leftmost longest run of the text; the name is kept |
| CarefulFiltering.LongestValidPair | assembler/src/include/io/careful_filtering_reader_wrapper.hpp:46-60 | the result is either the empty pair or a pair of two non-empty, all-nucleotide mates |
| CarefulFiltering.TrimmedInsert | assembler/src/include/io/careful_filtering_reader_wrapper.hpp:57 | the new insert size is insert_size - c1.first - size(second) + c2.second whenever that is non-negative |
| CarefulFiltering.PairEmptied | assembler/src/include/io/careful_filtering_reader_wrapper.hpp:46-53 | the result is the empty pair exactly when a mate has no nucleotide |
| CarefulFiltering.PairKept | assembler/src/include/io/careful_filtering_reader_wrapper.hpp:54-56 | a pair whose non-empty mates are all nucleotides is returned unchanged |
| CarefulFiltering.PairTrimmed | assembler/src/include/io/careful_filtering_reader_wrapper.hpp:57-59 | otherwise both mates are the single-read trims, and the insert size is congruent mod 2^64 to the line 57 formula |
| CarefulFiltering.ShortcutAgrees | assembler/src/include/io/careful_filtering_reader_wrapper.hpp:54-57 | for fully valid mates the trimming formula would give back the original pair, so the shortcut changes nothing |
| CarefulFiltering.StepForward | assembler/src/include/io/careful_filtering_reader_wrapper.hpp:108-117 | either eof with no valid trimmed read left, or a valid trimmed read is ready and it heads the kept reads |
| CarefulFiltering.Open | assembler/src/include/io/careful_filtering_reader_wrapper.hpp:72-75 | a fresh (or reset) wrapper is at eof exactly when no read trims to a valid read |
| CarefulFiltering.Next | assembler/src/include/io/careful_filtering_reader_wrapper.hpp:88-92 | the read handed out is the one that was ready, and the wrapper left behind has a ready read and remainder that yield exactly what was still to come |
| CarefulFiltering.OpenDrain | assembler/src/include/io/careful_filtering_reader_wrapper.hpp:88-117 | reading the wrapper to eof yields exactly the trimmed valid reads, in input order |
| GraphIO.CodeNucleotide | assembler/src/paireddebruijn/graphio.cpp:9-22 | A, C, G and T map to 0 to 3 in slot order; every other character maps to -1 |
| GraphIO.NuclChar | assembler/src/paireddebruijn/graphio.cpp:46 | the letter for a 2-bit code is coded back to that code |
| GraphIO.CodeRead | assembler/src/paireddebruijn/graphio.cpp:24-28 | code[i] is the code of read[i] for every i below readLength, and nothing past it changes |
| GraphIO.ExtractMer | assembler/src/paireddebruijn/graphio.cpp:30-37 | the result is the big-endian base-4 value of code[shift..shift+length) |
| GraphIO.BigEndianBound | assembler/src/paireddebruijn/graphio.cpp:30-37 | with every digit in 0..3, the packed value lies in [0, 4^length) |
| GraphIO.Decompress | assembler/src/paireddebruijn/graphio.cpp:39-50 | the result has exactly l characters |
| GraphIO.DecompressAt | assembler/src/paireddebruijn/graphio.cpp:45-48 | character l-1-i is the letter of the i-th 2-bit group of a |
| GraphIO.DecompressLowBits | assembler/src/paireddebruijn/graphio.cpp:39-50 | the result depends only on the low 2l bits of a |
| GraphIO.DecompressBigEndian | assembler/src/paireddebruijn/graphio.cpp:30-50 | unpacking a packed digit string gives back the letters of the digits |
| GraphIO.PackRoundTrip | assembler/src/paireddebruijn/graphio.cpp:24-50 | for a read of A/C/G/T, coding, packing and unpacking l symbols at shift gives back read[shift..shift+l), and the packed value is below 4^l |
| GraphIO.OutputSequence | assembler/src/paireddebruijn/graphio.cpp:169-172 | the size comes first; a non-empty sequence is followed by one word that reads back as the sequence, and an empty one by no word |
| GraphIO.OutputEdge | assembler/src/paireddebruijn/graphio.cpp:174-181 | id, from, to and length come first, then the upper sequence's size; the record is eight tokens exactly when both sequences are non-empty |
| GraphIO.OutputLongEdgesMap | assembler/src/paireddebruijn/graphio.cpp:183-189 | for an enumeration that lists every key of the map once, the first token is the map's size |
| GraphIO.EnumerationCount | assembler/src/paireddebruijn/graphio.cpp:183-185 | a repeat-free list of exactly the map's keys is as long as the map, so the count printed is the number of entries that follow |
| GraphIO.ReadInt | assembler/src/paireddebruijn/graphio.cpp:218-220 | succeeds exactly on a leading number, returns it and consumes one token |
| GraphIO.ReadSequence | assembler/src/paireddebruijn/graphio.cpp:222-228 | succeeds exactly when a number is followed by a word of A, C, G, T; returns the word's sequence and consumes two tokens |
| GraphIO.ReadEdge | assembler/src/paireddebruijn/graphio.cpp:230-240 | a successful read consumes eight tokens and the edge's id is the first one |
| GraphIO.ReadEntries | assembler/src/paireddebruijn/graphio.cpp:245-251 | a successful read consumes nine tokens per entry and keeps every entry already in the map, as `insert` does |
| GraphIO.ReadLongEdgesMap | assembler/src/paireddebruijn/graphio.cpp:242-252 | succeeds only on a leading count; a count of zero or less reads nothing more; entries already in the map are kept |
| GraphIO.EmptySequenceLost | assembler/src/paireddebruijn/graphio.cpp:169-172 | an empty sequence is printed without a word, so reading it back does not give the empty sequence and the rest of the input |
| GraphIO.EmptyEdgeLost | assembler/src/paireddebruijn/graphio.cpp:174-181 | an edge with an empty upper or lower sequence is not read back as itself |
| GraphIO.ReadSequenceOutput | assembler/src/paireddebruijn/graphio.cpp:222-228 | reading back a printed non-empty sequence yields it and leaves the rest of the input |
| GraphIO.ReadEdgeOutput | assembler/src/paireddebruijn/graphio.cpp:230-240 | reading back a printed edge (id, from, to, length, upper, lower) whose sequences are non-empty yields the same edge and the rest of the input |
| GraphIO.ReadEntriesOutput | assembler/src/paireddebruijn/graphio.cpp:245-251 | reading printed entries of edges with non-empty sequences succeeds and consumes exactly them; it keeps the entries already present and adds each printed key not yet present with its edge |
| GraphIO.LongEdgesMapRoundTrip | assembler/src/paireddebruijn/graphio.cpp:242-252 | reading a printed map (count, then key and edge per entry, each key listed once) whose edges have non-empty sequences into an empty map gives back the same map and the rest of the input |

## Left out

- I/O: `fopen`, `fprintf` and `fscanf` are modelled as a list of tokens. Integers print as `Num`. The letters of a non-empty sequence print as one `Word`. An empty sequence prints an empty line, which `fscanf` skips as white space, so it prints no `Word`.
- `outputLongEdges`, `outputLongEdgesThroughGenome`, the integer-array printers and readers, and the rest of `graphio.cpp`: visualiser and file output that is not part of the record format.
- `SimpleGraphVisualizer`, the DEBUG logging and the action-handler implementations. Notifications are entries of the event log.
- The iteration order of the vertex set, which is ordered by pointer address, and the iteration order of `longEdgesMap`. Both become parameters: the list of roots, and the list of keys to print.
- `is_nucl` and a read's `IsValid` are not part of this model. They are parameters. Read qualities and `Substr`'s handling of them are not modelled.
- `IsMergePossible` and `AreLinkable` are only declared, in `condensedGraph.hpp`, which is not part of this model. `IsMergePossible` is defined here as the condition `Merge` relies on: v1 and v2 are in different pairs, v1's only successor is v2, and v2's only ancestor is v1. `AreLinkable` is defined as the (k-1)-symbol overlap that the slot indexing of line 157 relies on.
- SplitLaws.SplitVertex: requires k <= pos, where the source asserts only pos <= size. Below k-1 the unsigned `pos - (k_ - 1)` wraps. At pos = k-1, v1 is shorter than k.
- CondensedGraph.AddVertexValid: requires the sequence to be at least k long. A shorter vertex cannot carry a keyed slot.
- CondensedGraph.LinkVerticesValid: requires both written slots to be empty or already hold the target. The source overwrites, and an overwrite that drops an edge without its mirror breaks validity. The split and merge proofs use the overwriting `LinkVertices` directly.
- Traversal.Traverse: the roots are a parameter that lists every live vertex. The source iterates the vertex set itself.
- GraphIO.ExtractMer: uses unbounded integers. The 64-bit overflow of `ll` past 31 symbols is not modelled.
- GraphIO.ReadSequence ignores the printed length, as `readSequence` does. It reads the whole word. The source's buffer of that length, and the overflow if the word is longer, are not modelled.
- CarefulFiltering.TrimmedInsert: states the exact value only when it is non-negative. The wrap-around modulo 2^64 is in the body, and PairTrimmed states it as a congruence.
- GraphIO.CodeRead: codes are integers, not `char`.
- GraphIO.NuclChar, GraphIO.OutputSequence and GraphIO.ReadSequence: `nucl` (graphio.cpp line 46), `Sequence::str()` (line 171) and the `Sequence(const char*)` constructor (line 227) are defined in files that are not part of this model. They are taken as follows. `nucl` is the inverse of `codeNucleotide` on 0..3. `str()` is the sequence's letters (`Render`). The constructor is `Parse`, which rejects any letter other than A, C, G and T. PackRoundTrip and every read-back lemma rest on these definitions.
- GraphIO.ReadInt: `Err` stands for a failed `fscanf` match (line 219). The source then leaves the value unset and carries on reading; the model stops with an error instead. ReadSequence, ReadEdge, ReadEntries and ReadLongEdgesMap pass that error on in the same way.
- GraphIO.LongEdgesMapRoundTrip: the map holds edge records, not `Edge *` pointers, and the round trip is equality of the fields. `readLongEdgesMap` allocates a new `Edge` for every entry (lines 248-250). So keys that shared one edge before saving, such as the entries whose edge carries another key's id that lines 56-58 skip, get separate copies after loading, and none of the original pointers comes back. That sharing is not restored.
- GraphIO.OutputSequence: an empty sequence is not read back. Its size is followed by no word, so `readSequence` takes the next token as its word. EmptySequenceLost and EmptyEdgeLost show this. ReadSequenceOutput, ReadEdgeOutput, ReadEntriesOutput and LongEdgesMapRoundTrip therefore require non-empty sequences.
- CarefulFiltering.LongestValid: that the trimmed read keeps its name rests on `SingleRead::Substr` keeping the name. `SingleRead` is not part of this model; `Substr` here keeps the name and cuts the text.

## Findings

| source | as written | input that shows it | evidently intended | confidence | as-written member | corrected member |
|---|---|---|---|---|---|---|
| assembler/src/debruijn/condensedGraph.cpp:145-152 | `FixIncomingOnMerge` moves only the edges into v1 and into v2's complement. The mirror edge v2.complement -> v1.complement survives. When `DeleteVertex(v1)` runs, its assert `CanBeDeleted(v1->complement())` at line 101 fails | any valid graph and any pair v1, v2 that satisfies IsMergePossible | remove both old pairs together, since the only edges left into them come from each other | not executed | Merge.MergeAbortsAsWritten | MergeLaws.MergeVertices (deletion by Merge.DeletePairs) |
| assembler/src/debruijn/condensedGraph.cpp:186-189 | `go(stack.back())` pushes the descendants. Then `pop_back()` pops the last pushed descendant, not the expanded vertex, so that descendant is never expanded from this root | the two-pair graph 0 = AC, 2 = CA with k = 2 and edge 0 -> 2: the walk from root 0 ends with only 0 visited | pop first and then expand, so that each root's walk starts everything reachable from it | not executed; the whole traversal still starts every vertex, because every vertex is also a root | Traversal.WalkAsWrittenMisses | Traversal.WalkFrom (Traversal.DrainCorrected, Traversal.TraverseCorrected) |
