# Fast Succinct Trie: a verified model

The library turns a sorted key list into a trie without ever building one. A single scan pushes
each byte onto per-level vectors (labels, child bits, node-start bits); the upper levels are then
re-encoded as 256-bit bitmaps per node ("dense"), the lower ones are concatenated ("sparse"), and
every later step, from a point lookup to a lower-bound seek, is rank and select arithmetic over
those bits. This project models that whole chain and proves it against one specification.

**The specification** (`Strands.dfy`) knows nothing of bits. Each distinct key is a *strand*
`(key, lo, hi, value)`: `lo` is the length it shares with the key before it and `hi` the length of
its stored prefix. A strand creates one item on each of the levels `lo..hi-1`; two strands lie in
the same node of level `l` when no strand between them drops below depth `l`. `Encoding.dfy` and
`DenseEncoding.dfy` give the breadth-first LOUDS sequences and the bitmaps of a strand list,
`Walks.dfy` the pointer walk, `Bounds.dfy` the order of keys and the lower bound, `Paths.dfy` the
positions of a key on every level. `KeyShape.dfy` and `KeySpec.dfy` state the results on the bare
key list, and the methods of `EndToEnd.dfy` run the modelled code from a key list to an answer and
promise those statements, so none of them rests on an assumed encoding.

**The code** is modelled in its own form. Immutable structures (bit vectors, rank, select, labels,
the two LOUDS encodings, the trie) are datatypes whose operations are methods with the source's
loops and branches; the builder and the three iterators are classes that update their fields;
concatenation, the rank table, the label array and the serialisation buffer work on arrays. Every
such method is proved against the specification, and the laws are lemmas about the specification.

| layer | files |
|---|---|
| bits and words | `Bits`, `Words`, `Levels`, `Bitvectors`, `Rank`, `Select`, `Labels` |
| specification | `Strands`, `Keys`, `Encoding`, `DenseEncoding`, `Walks`, `Paths`, `Bounds`, `Strays` |
| builder | `Growth`, `Builder` |
| navigation and lookup | `LoudsSparse`, `LoudsDense`, `Fst`, `Overruns` |
| iterators and seek | `DenseIter`, `SparseIter`, `FstIter`, `Seek` |
| serialisation | `Serialization` |
| theorems, whole runs, limits | `Consequences`, `KeyShape`, `KeySpec`, `EndToEnd`, `Counterexamples` |

## Hypotheses

* `Keys.ValidKeys`: the list is not empty; keys are non-empty, sorted, and prefix-free up to
  repetitions (`include/fst_builder.hpp:220`, `include/louds_dense.hpp:282`).
* Byte 255 is reserved (`include/config.hpp:35`), but it is allowed here. Keys may contain it
  anywhere; only a list whose one key begins with it is different: that key is filed as a prefix
  key, no lookup finds it, and an iterator has no label to start from (`KeySpec.ReservedKeys`,
  `Overruns.RootHasLabel`). Iteration and seeking exclude that list and no other.
* A seek compares with the key list itself through `keys[value]`, so it needs strictly sorted keys
  and `values[i] = i` (`Seek.IndexValues`), and a query that is not empty.

## Where the code falls short

Each of these is kept as the code has it, shown on a concrete input and bounded exactly.

* `distanceToNextSetBit` answers with the end of the last word, not of the vector, when it runs
  off the end across words (`include/bitvector.hpp:89-95`). The size computed for the last node of
  the trie can then be too large, and a search that finds nothing in it goes on behind the labels,
  where its answer depends on bytes nobody wrote. The model answers `PastEnd` there.
  `Overruns.PastEndExactly` and `KeyShape.RunsPastOnKeys` say for which queries this happens,
  `Overruns.SomeQueryRunsPast` and `KeyShape.CanRunPastOnKeys` for which tries and key lists it can
  happen at all, and `Overruns.LookupsMeetSpec` that lookups are right exactly for the others;
  `Counterexamples.LookUpAbsentKey` is a family of lists.
* The same function, asked at the last bit of a full last word, looks into the word behind the
  array (`include/bitvector.hpp:76-82`). An iterator does this when it leaves label 255 of the last
  dense node. The model lets that word hold anything, and every step stays right; `FstIter.Traverse`
  and `Seek.MoveToKeyGreaterThan` say exactly when the word is read.
* A list whose only key begins with 255 is filed as a prefix key and no lookup finds it
  (`Counterexamples.LookUpLoneKey`).
* A seek whose byte is missing at a dense node leaves the cursor on an unset bit and shows the
  query's own bytes (`include/louds_dense.hpp:524-529`). `Seek.MissingIsWrong` proves that what is
  shown is never a stored prefix, so such a seek is never right, and `Consequences.StrayIndex` says
  which key's value goes with it, or that the index lies outside the values; `EndToEnd.BuildAndSeek` proves that
  every other one is, save where it runs past the labels. `Counterexamples.SeekMissingByte` is the
  smallest case.
* The cost rule compares dense bitmaps counted in bits with sparse levels counted in bytes
  (`include/fst_builder.hpp:330-348`); `Consequences.DenseCost` and `Consequences.SparseCost` say what
  is counted. The cutoff affects speed and size only (`Fst.SplitIndependence`).
* A deserialised trie has lost its values (`Serialization.RestoredHasNoValues`); everything else is
  there (`Serialization.RestoredKeepsShape`).

## Model

| member | source | states |
|---|---|---|
| Words.PopcountLinear | include/popcount.h:94-116 | counts exactly the set bits among the `nbits` bits that start at word `x`, partial last word included |
| Words.Select64Naive | include/popcount.h:119-131 | the position of the k-th set bit of a word, or -1 exactly when there are fewer |
| Words.Select64PopcountSearch | include/popcount.h:133-148 | the six halving steps land on the k-th set bit whenever 1 <= k <= popcount |
| Words.Select64Agree | include/popcount.h:119-148 | the halving search and the bit-by-bit scan give the same position |
| Bitvectors.Bitvector.ReadBit | include/bitvector.hpp:66-71 | the bit at that position of the sequence that the words represent |
| Bitvectors.Bitvector.DistanceToNextSetBit | include/bitvector.hpp:73-96 | the exact gap to the next set bit if there is one; otherwise up to the end of the vector within the last word, and from an earlier word up to the next multiple of 64 not below it; at the last bit of a full last word some distance from 1 to 65, whatever the word behind the array holds |
| Bitvectors.TotalNumBits | include/bitvector.hpp:136-143 | the length of the concatenation of the chosen levels |
| Bitvectors.ConcatenateBitvectors | include/bitvector.hpp:145-179 | in place, with shifted words: the output is the concatenation of the levels' bits, zero after its end, for any lengths and level range |
| Bitvectors.MakeBitvector | include/bitvector.hpp:15-25 | the constructed vector represents that concatenation |
| Rank.MaskIsMod | include/rank.hpp:37-44 | masking with a power of two less one is the remainder, which is why the block offset is right |
| Rank.InitRankLut | include/rank.hpp:96-108 | table entry i is the number of set bits before block i, and the table has num_bits / block + 1 entries |
| Rank.BitvectorRank.Rank | include/rank.hpp:37-44 | the number of set bits in [0, pos], for any block size that is a power of two and whole words |
| Select.InitSelectLut | include/select.hpp:122-147 | the table has num_ones / interval + 1 entries and entry i > 0 is the position of the (i * interval)-th set bit |
| Select.BitvectorSelect.Select | include/select.hpp:36-67 | the position of the rank-th set bit, for every rank from 1 to num_ones, if the first bit is set |
| Select.RankOfSelect | include/select.hpp:36-67 | rank undoes select on the same bits |
| Labels.LabelVector.LinearSearch | include/label_vector.hpp:176-185 | the first match in the slice, or none exactly when the byte is absent |
| Labels.LabelVector.BinarySearch | include/label_vector.hpp:124-140 | the same answer as the linear scan, on an increasing slice |
| Labels.LabelVector.SimdSearch | include/label_vector.hpp:142-174 | the same answer sixteen labels at a time |
| Labels.LabelVector.Search | include/label_vector.hpp:95-108 | the dispatcher's answer does not depend on which search it picks, on a node's slice even when its size is too large |
| Labels.LabelVector.BinarySearchGreaterThan | include/label_vector.hpp:187-211 | the least label strictly greater, or none exactly when there is none |
| Labels.LabelVector.SearchGreaterThan | include/label_vector.hpp:110-122 | the same through the dispatcher, which may first skip a 255 |
| Labels.MakeLabelVector | include/label_vector.hpp:15-33 | the label array is the concatenation of the levels' labels |
| Keys.StrandsAreTrie | include/fst_builder.hpp:184-197 | a valid key list stands for a well-formed trie with minimal stored prefixes |
| Consequences.StoredIsShortestUnique | include/fst_builder.hpp:99-103 | a stored prefix belongs to no other key, and every shorter prefix of the key does |
| Builder.FstBuilder.PlaceByte | include/fst_builder.hpp:282-302 | the exact writes of one byte insertion on labels, child bits, node-start bits, counts, and nothing else |
| Builder.FstBuilder.InsertKeyByte | include/fst_builder.hpp:282-302 | after it, the vectors encode the strands so far with the current one grown by one level |
| Builder.InsertMarksParent | include/fst_builder.hpp:282-302 | inserting a byte turns exactly the last child bit of the level above on |
| Builder.InsertAppends | include/fst_builder.hpp:282-302 | on its own level it adds one childless item, which opens a node exactly when nothing shares its node |
| Builder.FstBuilder.PeekLast | include/fst_builder.hpp:213-222 | the last label of a level equals the new key's byte exactly on the levels the two keys share |
| Builder.FstBuilder.SkipCommonPrefix | include/fst_builder.hpp:213-222 | stops exactly at the length shared with the previous key, and changes nothing that is encoded |
| Builder.StopCondition | include/fst_builder.hpp:245-249 | the comparison with the next key after the first byte detects exactly the end of the stored prefix |
| Builder.GoesOn | include/fst_builder.hpp:254-258 | the one-byte test of the loop detects it from then on |
| Builder.FstBuilder.InsertKeyBytesToTrieUntilUnique | include/fst_builder.hpp:224-261 | extends the encoding by the whole strand, files its value on its last level, and returns the length of the stored prefix |
| Builder.FstBuilder.BuildSparse | include/fst_builder.hpp:184-197 | loop invariant and result: the per-level vectors and values are the breadth-first encoding of the strands so far |
| Builder.CostsMonotone | include/fst_builder.hpp:304-348 | once a level is too costly for bitmaps, every deeper one is |
| Builder.FstBuilder.FindCutoff | include/fst_builder.hpp:304-315 | the cutoff is the first depth, or the height, at which the dense cost of the levels above times the ratio is no longer below the sparse cost of the rest, and is at least 1 |
| Consequences.SparseLevelCost | include/fst_builder.hpp:341-348 | the sparse cost of one level is the least number of whole bytes above ten bits an item |
| Consequences.DenseLevelCost | include/fst_builder.hpp:330-339 | the dense cost of one level is 512 for each node, plus the least number of whole bytes above one bit for each node of the level above |
| Consequences.SparseCost | include/fst_builder.hpp:341-348 | on a trie: ten bits for every item from the level on, rounded up by at most a byte a level |
| Consequences.DenseCost | include/fst_builder.hpp:330-339 | on a trie: the lengths of the two bitmaps of the levels, bit for bit, plus a bit for every node that has a level below it among them, rounded up by at most a byte a level |
| Builder.FstBuilder.SplitValues | include/fst_builder.hpp:317-328 | the value vectors are the concatenations of the levels above and below the cutoff |
| Builder.MarkItem | include/fst_builder.hpp:350-394 | what placing one item adds to the three dense vectors of its level |
| Builder.FstBuilder.BuildDense | include/fst_builder.hpp:350-394 | for any cutoff, each dense level holds the bitmap encoding of that level |
| Builder.FstBuilder.Build | include/fst_builder.hpp:165-173 | both encodings of the key list's trie, cut at the right level |
| DenseEncoding.TwoKeysNoTerminators | include/fst_builder.hpp:418-423 | with two distinct keys, even with bytes 255, no item is a terminator |
| DenseEncoding.OneKeyTerminator | include/fst_builder.hpp:418-423 | with one key there is a terminator exactly when it begins with 255 |
| DenseEncoding.TerminatorHasBit | include/fst_builder.hpp:350-371 | with one key, the one prefix-key bit of the root is set exactly when the key begins with 255 |
| Strands.LeafHasSibling | include/fst_builder.hpp:224-261 | with two distinct keys every childless item shares its node with a neighbour |
| LoudsSparse.RoomAfterStart | include/louds_sparse.hpp:547-550 | a node's size is never asked for at the very last bit |
| Paths.PrefixBitsZero | include/fst_builder.hpp:350-371 | without terminators every prefix-key bit is zero |
| Consequences.Conservation | include/fst_builder.hpp:282-302 | a level has as many nodes as the level above has child bits, and its values and the next level's nodes add up to its items |
| Consequences.ValuesConserved | include/fst_builder.hpp:317-328 | dense and sparse values together are one per distinct key, for every cutoff |
| Encoding.ChildNumber | include/louds_sparse.hpp:529-531 | rank at an item plus the dense child count is the child's breadth-first number |
| Encoding.NodeStartsAt | include/louds_sparse.hpp:533-535 | the set bit that select asks for is the node's first label |
| Encoding.NodeExtent | include/louds_sparse.hpp:547-550 | the bits from a node's start to the next set bit, or to the end, are exactly its items |
| Encoding.ValueIndex | include/louds_sparse.hpp:274-283 | place less rank indexes the leaf's value |
| DenseEncoding.DenseBits | include/louds_dense.hpp:275-279 | bit node * 256 + byte is set exactly for the node's items, and the child bitmap agrees with their child bits |
| DenseEncoding.DenseRanks | include/louds_dense.hpp:279-283 | the bitmap ranks at an item are the sparse counts up to it |
| DenseEncoding.DenseChild | include/louds_dense.hpp:575-577 | the rank of a child bit is the child's breadth-first number, across levels |
| DenseEncoding.DenseValue | include/louds_dense.hpp:279-283 | the difference of the two ranks, less one, indexes the leaf's value |
| LoudsSparse.LoudsSparse.GetChildNodeNum | include/louds_sparse.hpp:529-531 | the child's breadth-first number |
| LoudsSparse.LoudsSparse.GetFirstLabelPos | include/louds_sparse.hpp:533-535 | the place of the node's first item |
| LoudsSparse.LoudsSparse.NodeSize | include/louds_sparse.hpp:547-550 | the node's size, except on an oversized last node, where it is the run-off distance |
| LoudsSparse.MakeLoudsSparse | include/louds_sparse.hpp:223-258 | the constructor's counts and vectors encode the levels below the cutoff; the children of the dense levels are counted as 0 when no level is sparse |
| LoudsSparse.LoudsSparse.LookupKeyAtNode | include/louds_sparse.hpp:289-314 | from any sparse node: the outcome of the pointer walk from there |
| LoudsSparse.LoudsSparse.LookupKey | include/louds_sparse.hpp:260-287 | the same from the node handed over by the dense levels |
| LoudsSparse.LoudsSparse.LookupNodeNumber | include/louds_sparse.hpp:372-383 | the number of the node that the path leads to |
| LoudsDense.MakeLoudsDense | include/louds_dense.hpp:233-258 | the constructor's bitmaps encode the levels above the cutoff |
| LoudsDense.LoudsDense.GetChildNodeNum | include/louds_dense.hpp:575-577 | the child's breadth-first number, never 0 |
| LoudsDense.LoudsDense.GetNextPos | include/louds_dense.hpp:591-593 | the next set label bit, or the end of the bitmaps; from their last bit some place behind them |
| LoudsDense.LoudsDense.LookupKeyAtNode | include/louds_dense.hpp:296-328 | miss, hit with value and node number 0, or the node of the first sparse level, as the pointer walk goes |
| LoudsDense.LoudsDense.LookupKey | include/louds_dense.hpp:262-294 | the same from the root |
| LoudsDense.LoudsDense.LookupNodeNumber | include/louds_dense.hpp:371-393 | the node the path ends at, or the one where it enters the sparse levels |
| Walks.WalkFindsMatch | include/fst.hpp:249-256 | the pointer walk ends at a leaf exactly when some stored prefix is a prefix of the query, and it is that leaf |
| Walks.WalkResumes | include/fst.hpp:275-288 | a walk may be cut at any node on its path and continued from there |
| Fst.Create | include/fst.hpp:203-211 | the trie built encodes the key list's strands, cut where the cost rule says |
| Fst.CreateSplitAt | include/fst_builder.hpp:304-329 | for every cutoff from 1 to the height the same construction encodes the same trie |
| Fst.Fst.LookupKey | include/fst.hpp:249-256 | answers as the walk from the root, with node number 0 as a sound sign for a hit in the dense levels |
| Fst.Fst.LookupNodeNum | include/fst.hpp:258-263 | the breadth-first number of the node that an interior path leads to |
| Fst.Fst.LookupKeyAtNode | include/fst.hpp:275-288 | resumed at any node on the query's path, answers as the lookup from the root |
| Consequences.LookupThrough | include/fst.hpp:258-288 | node number of a prefix, then resumed lookup: same answer as one lookup |
| Fst.HitMeans | include/fst.hpp:249-256 | a hit exactly when a stored prefix is a prefix of the query, with that key's value |
| Fst.InsertedKeyFound | include/fst.hpp:249-256 | every inserted key is found with the value of the first key of its run |
| Fst.SplitIndependence | include/fst.hpp:249-256 | tries cut at different levels hit on the same queries with the same values |
| Overruns.AnswerIs | include/fst.hpp:249-256 | for every trie and query: a miss on a lone key beginning with 255, undetermined if the query runs past the labels, and otherwise what the stored prefixes call for |
| Overruns.LookupsMeetSpec | include/fst.hpp:249-256 | lookups answer as they ought for all queries if and only if the trie is not a lone key beginning with 255 and its last node does not both cross into a part word and lack a label |
| KeySpec.ReservedKeys | include/fst_builder.hpp:350-371 | nothing is filed as a prefix key exactly when the list is not one repeated key beginning with 255 |
| KeySpec.LookupOnKeys | include/fst.hpp:249-256 | on the key list alone, for every list and query: which lookups hit and with what value, which run past the labels, and that the others miss |
| KeySpec.LookupsRightOnKeys | include/fst.hpp:249-256 | all lookups on a list are definite and right if and only if it is not a lone key beginning with 255 and no query runs past the labels |
| KeySpec.MissingOnKeys | include/louds_dense.hpp:262-294 | the walk stops for want of a byte exactly when the keys still differ at the query's longest known prefix and none has its next byte, and it stops at that depth |
| EndToEnd.BuildAndLookup | include/fst.hpp:203-256 | build any valid list, then look any query up: hit with the right value, past the labels, or miss, each exactly when the list and the cutoff say so |
| EndToEnd.BuildAndResume | include/fst.hpp:258-288 | the same three-way answer when the lookup is done in two steps, through the node of any prefix of the query that two keys share |
| EndToEnd.BuildAndTraverse | include/fst.hpp:415-541 | build any list but a lone key beginning with 255, then iterate to the end: one entry per distinct key, strictly rising, with first values |
| EndToEnd.BuildAndSeek | include/fst.hpp:378-399 | build, then seek any non-empty query: the index and stored prefix of the first key not below it, or invalid exactly when there is none, unless the byte is missing above the cutoff or the query runs past the labels; when the byte is missing, the query's own bytes are shown with the value of the last key, breadth first, whose stored prefix ends before it, or an index outside the values exactly when there is no such key; all told from the list and the cutoff |
| Overruns.PastEndExactly | include/bitvector.hpp:73-96 | a lookup reads past the labels exactly when the query follows the path of the last node, the node lacks its next byte, and the node's bits cross into a partly filled word |
| Overruns.SomeQueryRunsPast | include/bitvector.hpp:89-95 | some query does exactly when the last node crosses and has fewer than 256 labels |
| Overruns.RootHasLabel | include/louds_dense.hpp:679-688 | the root has a label bit to start from exactly when the trie is not a lone key beginning with 255 |
| KeyShape.SparseItems | include/louds_sparse.hpp:243-258 | the number of sparse items, counted from what neighbouring keys share |
| KeyShape.RunsPastOnKeys | include/bitvector.hpp:73-96 | for which queries a lookup reads past the labels, told from the key list and the cutoff |
| KeyShape.CanRunPastOnKeys | include/bitvector.hpp:89-95 | for which key lists any query does |
| Counterexamples.AbsentKeyReadsPastEnd | include/bitvector.hpp:89-95 | one last node of 65 to 255 labels, not a multiple of 64: looking up an absent key reads past them |
| Counterexamples.LookUpAbsentKey | include/bitvector.hpp:89-95 | the whole run on such a list, for any cost ratio but 0, ends past the labels |
| Counterexamples.LookUpLoneKey | include/fst_builder.hpp:355-357 | building the trie of the key 255 1 and looking that key up misses |
| Counterexamples.SeekMissingByte | include/louds_dense.hpp:524-529 | with keys a and c, seeking b leaves a valid iterator that shows b and carries the value of a |
| Counterexamples.LoneReservedKeyIsLost | include/fst_builder.hpp:355-357 | a concrete single key that its own lookup misses |
| DenseIter.Iter.RankValuePosition | include/louds_dense.hpp:772-782 | ranked once, then only incremented, the cursor counts the leaves of its level up to the current key |
| DenseIter.Iter.MoveToLeftMostKey | include/louds_dense.hpp:697-732 | from any item down to the smallest key under it, or to the node where the sparse levels go on |
| DenseIter.Iter.SetToFirstLabelInRoot | include/louds_dense.hpp:679-688 | onto the first key's first byte |
| DenseIter.Iter.Next | include/louds_dense.hpp:784-804 | from a key, or from where the sparse levels ran out, to the next key in order; invalid after the last; reads the word behind the bitmaps exactly when it starts on their last bit |
| DenseIter.NextLabel | include/louds_dense.hpp:591-593 | the next set bit stays in the node's 256 bits exactly when the next key comes in on this level |
| DenseIter.OnLastBitMeans | include/bitvector.hpp:76-82 | a key takes the last bit of the bitmaps exactly when its byte there is 255 and no later key has an item on the last dense level |
| SparseIter.LastLabelEndsNode | include/louds_sparse.hpp:663-668 | a childless item labelled 255 ends its node, so the terminator branch is never taken |
| SparseIter.Iter.IsTerminator | include/louds_sparse.hpp:663-668 | no childless item is taken for a terminator, whatever its label |
| LoudsSparse.LoudsSparse.IsEndOfNode | include/louds_sparse.hpp:552-554 | whether the place after an item starts a node or is past the end |
| SparseIter.Iter.RankValuePosition | include/louds_sparse.hpp:736-744 | as for the dense cursor, also after leaving and re-entering a level through other subtrees |
| SparseIter.Iter.MoveToLeftMostKey | include/louds_sparse.hpp:652-688 | from an item or a handed-over node down to the smallest key under it |
| SparseIter.Iter.Next | include/louds_sparse.hpp:746-765 | to the next key of the subtree, idle exactly when it has run out |
| SparseIter.AfterItem | include/louds_sparse.hpp:746-756 | the place after an item starts a node or is past the end exactly when the next key does not come in there |
| Consequences.SparseCursorIsRank | include/louds_sparse.hpp:736-744 | on every key the iterator stands on, the incremented cursor is the index that ranking would give |
| Consequences.DenseCursorIsRank | include/louds_dense.hpp:772-782 | the same for the dense cursor and the difference of ranks |
| FstIter.Iter.GetKey | include/fst.hpp:511-515 | the stored prefix of the current key, put together from both cursors; the empty string when the iterator is not valid |
| FstIter.Iter.GetValue | include/fst.hpp:506-509 | the value of the current key |
| FstIter.Iter.IncrementDenseIter | include/fst.hpp:519-529 | from any dense position with an idle sparse cursor to the next key, handing over the node number when it must |
| FstIter.Iter.Increment | include/fst.hpp:537-541 | from the k-th key to the (k+1)-th, or invalid exactly after the last, from where nothing moves; reads the word behind the bitmaps exactly when it leaves their last bit |
| FstIter.MoveToFirst | include/fst.hpp:415-428 | stands on the smallest key |
| FstIter.Traverse | include/fst.hpp:415-541 | a whole run visits every key once, in order, with its stored prefix and value; it reads the word behind the bitmaps exactly when some key takes their last bit |
| KeySpec.TraversalOnKeys | include/fst.hpp:415-541 | on the key list alone: strictly rising entries, one per distinct key, each a prefix that singles the key out, with its first value |
| Bounds.LessTotal | include/louds_dense.hpp:530-541 | the string order that seeks compare with is total |
| Bounds.LeastAtNode | include/louds_dense.hpp:508-522 | a query that ends at a node has the node's smallest key as its lower bound |
| Bounds.LeastAtLeaf | include/louds_sparse.hpp:471-485 | at a leaf, one comparison decides between that key and the next |
| Bounds.LeastInNode | include/louds_sparse.hpp:556-568 | a byte missing in a node splits its keys: the lower bound is the first key under the least greater label, or the key after the node |
| Seek.MoveDense | include/louds_dense.hpp:500-555 | the dense part: settled on the lower bound, handed over to the sparse levels, or astray exactly when the byte is missing, with the path, the flags and the value index it is left with |
| Seek.DenseStray | include/louds_dense.hpp:697-704 | at a missing byte the iterator keeps the walk's path, reports itself complete, and its value index is one less, in 32 bits, than the leaves before the byte |
| Strays.PartingStrand | include/louds_dense.hpp:524-529 | a byte that a node lacks parts its strands into smaller and greater ones |
| Strays.RanksBefore | include/rank.hpp:37-44 | ranks at the bit of a missing byte count the items and the children of the strands before it, over all dense levels |
| Strays.RankDifference | include/louds_dense.hpp:772-782 | their difference is the number of leaves on the levels above plus those before the byte on its own |
| Strays.SomeEndBefore | include/louds_dense.hpp:772-782 | that number is 0 exactly when no strand ends before the place |
| Strays.ValueBefore | include/louds_dense.hpp:768-770 | one less than it indexes the value of the last strand, breadth first, that ends before the place |
| Consequences.StrayIndex | include/louds_dense.hpp:768-782 | after a seek that misses a dense byte the value is that of the last strand to end before the byte, and the index lies outside the values exactly when there is none |
| Seek.MoveSparse | include/louds_sparse.hpp:454-508 | the sparse part: on the lower bound inside the subtree, or idle where the subtree ends |
| Seek.SubtreeSteps | include/fst.hpp:386-397 | a seek that uses up a sparse subtree steps off the last dense bit exactly when the subtree hangs under it |
| Seek.FirstIsTerminator | include/louds_sparse.hpp:492-499 | a query used up at a node never takes the node's first item for a terminator |
| Seek.MoveToLeftInNextSubtrie | include/louds_sparse.hpp:556-568 | over to the least greater label and down, or on from the node's last item |
| Seek.MoveToKeyGreaterThan | include/fst.hpp:378-399 | stands on the least key >= or > the query, or is invalid if none, including leaving a sparse subtree; with the whole state it is left in when a dense byte is missing, and exact flags for that, for reading past the labels and for reading behind the bitmaps |
| Seek.MissingIsWrong | include/louds_dense.hpp:524-529 | with a missing dense byte the iterator shows no stored prefix at all |
| KeySpec.StopsOnKeys | include/louds_dense.hpp:772-782 | the strands that end before a place are the keys whose stored prefix is short enough, or of that length and earlier in the list |
| KeySpec.SeekOnKeys | include/fst.hpp:378-399 | the seek's needs follow from the key list, and its lower bound is the first key of the list not below the query |
| Consequences.IndexValuesOf | include/louds_dense.hpp:530-541 | strictly sorted keys with their indices as values give the key lookup that the comparison relies on |
| Counterexamples.MissingDenseByte | include/louds_dense.hpp:524-529 | with keys a and c, a seek of b should give c but meets the missing byte |
| Serialization.WordRoundTrip | include/rank.hpp:66-93 | the eight bytes of a word read back as the same 64 bits |
| Serialization.IntBytes | include/rank.hpp:66-76 | the four bytes of a 32-bit number, weighted by 1, 256, 65536 and 16777216 from the first address on, add up to it |
| Serialization.WordBytesHoldWord | include/rank.hpp:66-76 | the 64 bits of a word, from the top, are the bits of its eight bytes from the last address to the first |
| Serialization.IntsRoundTrip | include/rank.hpp:66-93 | tables of 32-bit numbers read back as they were |
| Serialization.SerializeRank | include/rank.hpp:50-76 | writes the stated layout, exactly the serialized size from an aligned cursor, and touches nothing else |
| Serialization.DeSerializeRank | include/rank.hpp:78-93 | reads back the same bits and table and leaves the cursor where writing did |
| Serialization.SerializeSelect | include/select.hpp:73-98 | as for rank, with the sample table |
| Serialization.DeSerializeSelect | include/select.hpp:100-117 | reads back the same structure and cursor |
| Serialization.SerializeLabels | include/label_vector.hpp:41-74 | the labels and the one byte that is never set |
| Serialization.DeSerializeLabels | include/label_vector.hpp:76-84 | reads back the same labels and cursor |
| Serialization.SerializeDense | include/louds_dense.hpp:182-190 | height and three bitmaps, aligned, exactly the serialized size |
| Serialization.DeSerializeDense | include/louds_dense.hpp:192-202 | the same dense levels without values |
| Serialization.SerializeSparse | include/louds_sparse.hpp:139-153 | four numbers, labels, child and node-start bits, exactly the serialized size |
| Serialization.DeSerializeSparse | include/louds_sparse.hpp:155-174 | the same sparse levels without values |
| Serialization.DenseOffsets | include/louds_dense.hpp:557-563 | the computed size is where the aligned cursor ends |
| Serialization.SparseOffsets | include/louds_sparse.hpp:510-518 | the computed size is where the aligned cursor ends |
| Serialization.Serialize | include/fst.hpp:175-183 | fills a fresh buffer, dense then sparse, whose every number, word, table and label is told byte by byte: each at its offset, least significant byte first, padded to whole words, with no byte over |
| Serialization.DenseIsLaidOut | include/louds_dense.hpp:182-190 | what is stored for the dense levels, as the values of the bytes at each offset |
| Serialization.SparseIsLaidOut | include/louds_sparse.hpp:139-153 | the same for the sparse levels |
| Serialization.RoundTrip | include/fst.hpp:175-191 | writing and reading gives the same trie, except for values and keys |
| Serialization.EncodedFits | include/config.hpp:21-22 | every trie below 2^32 bits fits the 32-bit fields it is written to |
| Serialization.RestoredHasNoValues | include/fst.hpp:185-191 | a trie read back never holds its values |
| Serialization.RestoredKeepsShape | include/fst.hpp:185-191 | a trie read back holds everything but the values |
| Serialization.LookupNodeNumRestored | include/fst.hpp:258-263 | so a path looked up in it leads to the same node number |

## Left out

- Backward motion (`operator--`, `getPrevPos`, `moveToRightMostKey`, `moveToLast`, `moveToKeyLessThan`): `getPrevPos` takes position 0 for out of range and rightmost moves do not set the value cursor, so there is no contract to prove.
- `lookupRange`, `operator!=`, `Iter::compare`, and the entry points that start an iterator at a node or skip the dense levels (`isSkipped`, `skipped_ht_levels`); the last serve an external hybrid trie.
- `amacLookup`, `findNextNodeOrValue`, `getNode`, `lookupNodeNumberOption`, node contraction: helpers of the same external trie.
- The second constructors (offsets, integers, spans) and `skip_prefix`: they only shift the byte index; `skip_prefix` is 0 here.
- `include_dense = false`: value vectors are then never filled, so no lookup could return a value; the dense height is at least 1 throughout.
- `suxpopcount` (a commented-out alternative of the built-in population count), prefetching, inline assembly, real SSE instructions, destructors, memory-usage figures, `include/hash.hpp`, `bench/`, `test/`.
- 32-bit wrap-around: positions and counts are unbounded. The one exception is the value index of a seek that goes astray, which wraps below 0. The model is exact while bit counts, byte sizes and the sums `l + r` of the binary search stay below 2^32.
- The debug assertion that two neighbouring keys have equal length (`include/fst_builder.hpp:74-77`): it would reject the key lists of mixed lengths that the tests build (`test/test_fst_example_words.cpp`), so the behaviour without assertions is modelled, where the comparison is plain equality.
- What is read past the labels: the content of unwritten memory is not modelled; lookups and seeks report it as `PastEnd` or `overrun` instead of an answer.
- Empty seek key: the position less one would wrap.
- The bodies of the iterators' terminator and prefix-key branches: their conditions are modelled and proved false.
- Iteration and seeking on a list whose only key begins with 255: the root has no label bit, and the code goes on to read outside the bitmaps.
- In `Serialization`, reading copies the words and tables; that the original keeps pointers into the buffer is not captured.
- Serialization.DeSerialize: reads only buffers that `Serialize` wrote, because the code checks nothing in what it is given.
