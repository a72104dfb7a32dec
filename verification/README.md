# A verified model of ptrie

ptrie stores sets and maps of byte strings without hashing. A key of length n is read as the string
`[n / 256, n % 256, byte 0, byte 1, ...]`. Forward nodes consume one byte of it per level; a leaf covers an aligned
block of a forward node's 256 slots and holds a sorted bucket, which is split when it becomes full and merged when it
becomes small. This project models that structure, down to the bytes of the buckets and the blocks on the heap, and
proves that it behaves as the set, or map, that it stands for.

## Layers

* **Value layer** (`Bytes`, `Blocks`, `Entries`, `Shape`, `ShapeOps`, `ShapeMoves`). The trie as a value: which slots hold
  what, which leaf holds which keys under which ids. `Wf` is the invariant: paths form a tree, a leaf occupies exactly
  its aligned block, buckets are sorted and fit their place, every id points back to its leaf. Each structural move
  (claim, insert, remove, halve, shrink, lower, grow, merge, lift, prune, drop) is a function on such values, with a lemma
  that it keeps the invariant and what it does to the stored items.
* **Byte layer** (`Memory`, `Layout`, `Recovery`, `FlatBucket`, `FlatMoves`, `FlatInject`, `Teardown`, `Forest`). The bucket
  as `first` numbers, ids and one stretch of bytes in which no length is stored; long residues are pointers into a block
  heap whose allocator may reuse freed addresses in any order that its list of free addresses gives. Every routine
  recovers the lengths with its own 16-bit arithmetic; the proofs show that all of them agree, that the byte operations
  implement the entry operations, and that all writes stay inside their buffers. `Conserved` says that every leaf's bytes
  are laid out as its keys demand and that every block belongs to one entry.
* **Object layer** (`Nodes`, `Heap`, `Trie`, with `Search`, `Splitting`, `Merging`). Classes for forward nodes and leaves,
  with parent pointers and 256-slot arrays; a leaf holds its bucket's bytes. The class `Trie` runs the
  operations of the repository on them, with the same branches and the same mutual recursion. Every operation performs
  moves of the value layer, keeps `Conserved`, and exchanges heap blocks (`Fair`) only for those of the new buckets.
* **Clients** (`Runs`, `StableSet`, `StableMap`, `Order`, `Iteration`, `Copying`, `Twins`, `Destructor`). Whole runs, stable
  ids and unpacking, the map, iteration in both directions, the copy and its independence of the original, and the
  destructor. What a run has to answer is stated from its calls alone: by the last call before that inserted, wrote or
  erased the key (`Runs.Correct`, `StableMap.Fitting`, `Twins.Apt`).
* **The order that is kept** (`Rest`, `Settling`, `Census`, `Scratch`). Insertions and erasures leave no leaf waiting to be
  merged and no node below the root empty (`Tidy`, part of `Trie.Valid`). From this it follows that `merge_down`, which
  looks at a leaf once more after `readd_byte` has returned (lines 1782-1788), never looks at a deleted one on any run
  although it passes outdated counters; that every node but the root always has more than SPLITBOUND / 3 keys below it;
  and exactly when the root gets and loses child nodes.
* **Concurrent id allocator** (`LinkedBucket`, `Allocation`). A state machine in which each atomic access of `next` and
  `pop_back` is one step of one of N threads; the theorems hold for every interleaving, with spurious failures of the weak
  swap. `LinkedBucket` has the shared structure, `Allocation` what a thread receives and gives back. The trie takes its
  ids as one thread does (`OneThreadReceives`).
* **Hashing** (`Bits`, `Murmur`). The streaming and the one-shot form of MurmurHash2A, against a description of the hash by
  positions and bits.

Four theorems to start from are `Runs.Run` and `Destructor.WholeLife`, which say what whole runs answer, what they do
to the heap and what they never do, `Twins.CopyThenUse`, and `Allocation.NextId`.

Some predicates are wrapped in a quantifier with an explicit trigger (`Sound` for `Wf`, `Laid` for `Lays`, `Memory` for
`MemoryOk`, `Sustained` for `Conserved`), so that a proof opens them only where it names them; the two forms are
equivalent (for example `Shape.SoundIsWf`).

HEAPBOUND and SPLITBOUND stay symbolic under the static assertions of the source (`Config`). BSIZE is 8, the key type is
`unsigned char`, and keys have 1 to 65535 bytes. The constant `entries` of a trie tells the stable set and the map, which
keep an id for every key, from the plain set, which keeps none.

## Findings

* `readd_sizes` (line 1594) keeps the lengths in an array of 256 numbers. Some sequence of insertions and erasures overruns
  it exactly when SPLITBOUND exceeds 770, which the static assertions admit (`Scratch.OverrunsExactly`, and
  `Scratch.Overrun` for such a run). An erasure overruns it exactly if SPLITBOUND / 3 exceeds 256, the root slot for the
  high byte of the key's length leads to a node, and exactly SPLITBOUND / 3 + 1 stored keys share that byte
  (`Trie.Erase`).
* `build_path` (line 1967) passes `size - ps` as a 16-bit length. Where the path has used up the whole key this wraps to
  65535 and the offset is wrong for every entry but the first; `write_data` does not use it there (`SizeAndOffset`,
  `PathWrapsAtTheEnd`).
* `split_fwd` (line 951) tests the length at the shifted index j where it means entry i. In a leaf on one slot either all
  residues are empty or none is, so for keys that are not empty this has no effect (`SingleSlotIsEven`).
* Empty keys are not supported below the root: their length wraps to 65535 at depth one (`EmptyKeyWraps`). The assertion
  `length <= 65536` admits one length that does not fit 16 bits (`LongestKeyWraps`).
* The exit of `split_fwd` for `bsize == -1` is never taken (`Trie.SplitFwd`).

## Model

| member | source | states |
|---|---|---|
| Runs.Run | include/ptrie/ptrie_internal.hpp:1210-1428 | For every sequence of insert, erase, exists and unpack(id) calls on a new trie, the answers follow from the calls alone: insert is true exactly if the key was not inserted since its last erasure, and numbers the keys that it adds 0, 1, 2, ...; erase and exists are true exactly if it was; a stored key shows the id that it was added under, an absent one 18446744073709551615; unpack gives the key that has the id. Afterwards the trie holds those keys under those ids, every leaf has between 1 and SPLITBOUND - 1 of them, every node but the root has more than SPLITBOUND / 3 below it, the heap has gained exactly the blocks of the leaves, merge_down has read no deleted leaf, and the array of lengths has been overrun exactly if the history of the ideal map says so |
| Runs.ReplyIsCorrect | include/ptrie/ptrie_internal.hpp:1210-1428 | The ideal map gives the answers that the calls alone demand |
| Runs.LegalIsProper | include/ptrie/ptrie_stable.h:113-135 | A run may unpack an id exactly where the calls before say that some key has it |
| Runs.IdsTellKeys | include/ptrie/ptrie_internal.hpp:1345-1348 | By the calls alone: at any time two keys have the same id exactly if they are the same key, and ids are below the number of calls |
| Runs.Continue | include/ptrie/ptrie_internal.hpp:1233-1922 | The same from any valid trie; a key that is not erased keeps its id, an id that appears is none that was given out before, and no two keys share one |
| Runs.Perform | include/ptrie/ptrie_internal.hpp:1210-1428 | One call answers as the ideal map does and leaves trie and map in step, the root's child nodes and the overrun included |
| Runs.RunKeepsIds | include/ptrie/ptrie_internal.hpp:1345-1348 | Of two tries that represent the ideal map before and after a run, the later has the ids of the earlier for all keys not erased, other ids are new, and ids determine keys |
| Trie.Trie.Exists | include/ptrie/ptrie_internal.hpp:1210-1230 | exists is membership; it returns the stored id, or 18446744073709551615 when the key is absent or the trie keeps no ids |
| StableSet.NoKeyHasNoId | include/ptrie/ptrie_internal.hpp:1222-1222 | Up to 2^64 - 1 issued ids, no stored key has the id that a failed lookup returns |
| Trie.Trie.Insert | include/ptrie/ptrie_internal.hpp:1233-1428 | insert returns true exactly when the key was absent; it then adds that one key under the next id and changes nothing else; the id of a present key is returned unchanged; the trie stays valid down to its bytes and blocks, with no leaf waiting to be merged; a child of the root comes exactly for SPLITBOUND keys that share a high length byte |
| Trie.Trie.Erase | include/ptrie/ptrie_internal.hpp:1899-1922 | erase returns true exactly when the key was stored, and removes that key alone; no deleted leaf is read; the array of lengths is overrun exactly if SPLITBOUND / 3 exceeds 256, the root slot for the key's high length byte leads to a node, and exactly SPLITBOUND / 3 + 1 stored keys share that byte; a child of the root goes exactly when SPLITBOUND / 3 of its keys are left |
| Trie.Trie.FastForward | include/ptrie/ptrie_internal.hpp:671-700 | Following the key byte by byte stops at an empty slot or a leaf, without reading past the key, at the node that the prefix of the encoding names |
| Trie.Trie.BestMatch | include/ptrie/ptrie_internal.hpp:821-830 | Found exactly when the key is stored; otherwise the place where it belongs |
| Search.StepDown | include/ptrie/ptrie_internal.hpp:680-698 | A forward node on the way of a key is never deeper than the key is long plus one, so the next byte to read exists |
| Search.EmptySlotMeansAbsent | include/ptrie/ptrie_internal.hpp:690-691 | If the traversal ends at a self-loop the key is stored nowhere |
| Search.LeafDecides | include/ptrie/ptrie_internal.hpp:692-693 | If the traversal ends at a leaf, the key fits the leaf and is stored exactly when the leaf has it |
| Search.CompareResidue | include/ptrie/ptrie_internal.hpp:764-779 | The byte loop decides equality and lexicographic order of two residues of one length |
| Shape.Located | include/ptrie/ptrie_internal.hpp:671-700 | A stored key is reached by following its own encoding |
| Shape.OneHome | include/ptrie/ptrie_internal.hpp:1345-1348 | A key, and likewise an id, belongs to exactly one leaf and one item there |
| Trie.Trie.ClaimBlock | include/ptrie/ptrie_internal.hpp:1264-1282 | The bit loop finds a free aligned block around the byte; the next larger one, if any, is not free |
| ShapeOps.ClaimKeeps | include/ptrie/ptrie_internal.hpp:1284-1288 | Giving a free aligned block to a fresh leaf keeps every structural invariant and every stored key |
| Rest.ClaimAwaits | include/ptrie/ptrie_internal.hpp:1254-1288 | A new leaf on the largest free block leaves every other leaf at rest, and is at rest itself with its first key |
| ShapeOps.InsertKeeps | include/ptrie/ptrie_internal.hpp:1293-1406 | Adding an entry at its sorted position keeps the invariant and adds exactly that key |
| Rest.InsertRests | include/ptrie/ptrie_internal.hpp:1293-1406 | Every leaf at rest stays at rest when one of them gets a key, and no node below the root becomes empty |
| Trie.Trie.AddEntry | include/ptrie/ptrie_internal.hpp:1293-1406 | Of the leaf, the new bytes are those of the bucket with the key inserted under the next id, and the heap gains the block of this key alone |
| Entries.NewEntryIsEntryOf | include/ptrie/ptrie_internal.hpp:1318-1332 | The bytes that insert assembles are the entry of the key at that depth |
| Trie.Trie.SplitNode | include/ptrie/ptrie_internal.hpp:1049-1207 | Splitting a full leaf ends, leaves every leaf with between 1 and SPLITBOUND - 1 keys, keeps keys, ids, order and the id count, and exchanges the blocks of the old buckets for those of the new |
| Trie.Trie.SplitFwd | include/ptrie/ptrie_internal.hpp:833-1046 | Going one level down with a new forward node keeps the same; bsize is never negative, so the exit for a used-up key is never taken |
| ShapeOps.SplitKeeps | include/ptrie/ptrie_internal.hpp:1155-1203 | Halving a leaf at its first high key keeps the invariant and the stored items, including the back-pointers of the ids that move |
| Rest.SplitRests | include/ptrie/ptrie_internal.hpp:1155-1203 | Halving a full leaf leaves all leaves at rest: the halves stop each other |
| ShapeMoves.ShrinkKeeps | include/ptrie/ptrie_internal.hpp:1136-1154 | Narrowing a leaf to the half where all its keys lie keeps the invariant and the items |
| Rest.ShrinkRests | include/ptrie/ptrie_internal.hpp:1136-1154 | Narrowing a full leaf leaves all leaves at rest |
| ShapeMoves.LowerKeeps | include/ptrie/ptrie_internal.hpp:843-857 | Moving a single-slot leaf below a new forward node keeps the invariant and the items |
| Rest.LowerRests | include/ptrie/ptrie_internal.hpp:843-857 | Moving a full leaf below a new node leaves all leaves at rest |
| Splitting.RoomBelow | include/ptrie/ptrie_internal.hpp:836-840 | A single slot that holds two keys is not deeper than any of them is long |
| Splitting.CutBucket | include/ptrie/ptrie_internal.hpp:929-972 | Cutting every entry gives the bucket of the same keys one level down |
| Trie.Trie.Halve | include/ptrie/ptrie_internal.hpp:1155-1203 | Both halves get keys: the new leaf takes the high keys, and their entries point to it |
| Trie.Trie.DescendBoth | include/ptrie/ptrie_internal.hpp:1024-1045 | Both halves of the new node get keys: the low keys go to a new leaf and their entries point to it |
| Blocks.MasksAreBitwise | include/ptrie/ptrie_internal.hpp:172-175 | Testing, setting and clearing a mask by arithmetic is the bitwise operation, for every byte and mask |
| Blocks.BitPicksHalf | include/ptrie/ptrie_internal.hpp:1085-1096 | Within a block the tested bit tells the half of a byte |
| Entries.CutIsDeeper | include/ptrie/ptrie_internal.hpp:929-955 | Shifting `first` and pulling one residue byte turns the entry at depth d into the entry at depth d + 1 |
| Entries.InjectIsShallower | include/ptrie/ptrie_internal.hpp:1445-1482 | Pushing a path byte into `first` and its low byte into the residue turns the entry at depth d + 1 into the one at depth d |
| Entries.CutInjectInverse | include/ptrie/ptrie_internal.hpp:929-955 | Cut and inject undo each other, for every key and depth |
| Entries.EntryOrder | include/ptrie/ptrie_internal.hpp:734-812 | Below one path, comparing `first` and then the residue is comparing the encodings, and equal entries mean equal keys |
| Entries.DecodeEntry | include/ptrie/ptrie_internal.hpp:1972-2015 | Path, `first` and residue determine the key |
| Trie.Trie.MergeDown | include/ptrie/ptrie_internal.hpp:1771-1792 | The merge chain, second calls included, ends, keeps all items and leaves no empty leaf; afterwards every leaf that it changed is settled: another call on it would end before moving it to another node; if all other leaves are at rest, or the leaf itself is settled, no deleted leaf is read; the array of lengths is overrun exactly if a child of the root goes that had more than 256 keys below it |
| Trie.Trie.MergeAgain | include/ptrie/ptrie_internal.hpp:1785-1788 | The second call, with outdated counters, keeps items, blocks and bounds; it reads a deleted leaf exactly when the chain before it has deleted the leaf, and never further down |
| Trie.Trie.EraseAt | include/ptrie/ptrie_internal.hpp:1795-1897 | Removing an entry and merging leaves a tidy trie tidy, reads no deleted leaf and overruns the array exactly under the condition of Erase |
| Trie.Trie.MergeRegular | include/ptrie/ptrie_internal.hpp:1648-1768 | The same as MergeDown, for a leaf that looks at its sibling block |
| Trie.Trie.MergeWithLeaf | include/ptrie/ptrie_internal.hpp:1685-1768 | The same, when the sibling slot shows a leaf, including the detour into the narrower neighbour |
| Trie.Trie.MergeEmpty | include/ptrie/ptrie_internal.hpp:1493-1542 | The same, for an emptied leaf that covers its whole node: empty nodes above are pruned |
| Trie.Trie.ReaddByte | include/ptrie/ptrie_internal.hpp:1610-1645 | The same as MergeDown, for a leaf of at most SPLITBOUND / 3 keys that covers its whole node and moves up one level |
| Trie.Trie.LiftStep | include/ptrie/ptrie_internal.hpp:1586-1643 | Node, leaf and bytes move up one level; the array of lengths is overrun exactly by more than 256 keys at depth one |
| Trie.Trie.TakeSibling | include/ptrie/ptrie_internal.hpp:1545-1583 | Merging sibling buckets, bytes included, puts the low half first and repoints every id that moves |
| Merging.GrowLowers | include/ptrie/ptrie_internal.hpp:1750-1757 | Widening a leaf lowers the total weight of all leaves |
| Merging.MergeLowers | include/ptrie/ptrie_internal.hpp:1734-1766 | Merging two leaves lowers it |
| Merging.LiftLowers | include/ptrie/ptrie_internal.hpp:1610-1645 | Moving a leaf up a level lowers it |
| Merging.DropLowers | include/ptrie/ptrie_internal.hpp:1500-1504 | Dropping an empty leaf lowers it, so the chain ends |
| Merging.SiblingLeaf | include/ptrie/ptrie_internal.hpp:1674-1688 | A leaf met in the sibling slot is the sibling itself or a narrower leaf inside the sibling block |
| Settling.StaysSettled | include/ptrie/ptrie_internal.hpp:1674-1748 | A leaf that could go no further, and was left alone by a chain, still cannot go further after it |
| Settling.DetourSettles | include/ptrie/ptrie_internal.hpp:1685-1704 | After the detour into the narrower neighbour the leaf itself can go no further, whatever the neighbour has become |
| Settling.OppositeIsSettled | include/ptrie/ptrie_internal.hpp:1685-1704 | If all leaves but n are at rest, the leaves within the sibling block of n can go no further, so the detour never deletes n |
| Settling.CalmKept | include/ptrie/ptrie_internal.hpp:1771-1792 | If all leaves were at rest and a chain leaves each as it was or settled, all leaves are at rest again |
| Settling.EraseRests | include/ptrie/ptrie_internal.hpp:1795-1897 | Whatever merge_down does after a key is removed from a tidy trie, the result is tidy |
| Census.NodeIsCrowded | include/ptrie/ptrie_internal.hpp:1771-1792 | In a tidy trie every node but the root has more than SPLITBOUND / 3 keys below it |
| Census.FewWithoutChild | include/ptrie/ptrie_internal.hpp:1049-1070 | A high length byte without a node of its own is shared by fewer than SPLITBOUND keys |
| Census.CoverHasBand | include/ptrie/ptrie_internal.hpp:1610-1620 | A leaf that covers a child of the root holds all keys with that high length byte |
| Census.ErasedChildren | include/ptrie/ptrie_internal.hpp:1610-1645 | A child of the root goes exactly when an erasure leaves SPLITBOUND / 3 keys below it; it then overruns the array of lengths exactly if these are more than 256 |
| ShapeMoves.MergeKeeps | include/ptrie/ptrie_internal.hpp:1734-1766 | Merging siblings keeps the invariant and the items |
| ShapeMoves.GrowKeeps | include/ptrie/ptrie_internal.hpp:1750-1757 | Widening a leaf over a free sibling block keeps the invariant and the items |
| ShapeMoves.LiftKeeps | include/ptrie/ptrie_internal.hpp:1610-1645 | Lifting a leaf out of a node that it covers alone keeps the invariant and the items |
| ShapeMoves.LiftLower | include/ptrie/ptrie_internal.hpp:843-857 | Lifting undoes the descent below a new node |
| ShapeMoves.PruneKeeps | include/ptrie/ptrie_internal.hpp:1530-1537 | Deleting an empty forward node keeps the invariant and the items |
| ShapeMoves.DropKeeps | include/ptrie/ptrie_internal.hpp:1500-1504 | Deleting an empty leaf keeps the invariant and the items |
| Rest.WithoutRests | include/ptrie/ptrie_internal.hpp:1685-1736 | When an emptied leaf goes that does not face its sibling, all leaves stay at rest and its node is not empty |
| Rest.NoLeafWaits | include/ptrie/ptrie_internal.hpp:1648-1768 | In a trie at rest two leaves on the halves of one block have more than SPLITBOUND / 3 keys together, and a leaf with at most that many covers the whole root or has a slot next to it, within the block around it, that is taken by something else |
| ShapeOps.RemoveKeeps | include/ptrie/ptrie_internal.hpp:1833-1875 | Removing an entry keeps the invariant and removes that item alone |
| Merging.SizesAreRight | include/ptrie/ptrie_internal.hpp:1586-1639 | The lengths that readd_sizes and readd_byte hand to inject_byte are those of the keys |
| StableSet.FindMetadata | include/ptrie/ptrie_stable.h:84-111 | For the id of a stored key, the back-pointer leads to the leaf that lists the id, and the scan finds its position |
| StableSet.LiveIdHome | include/ptrie/ptrie_stable.h:95-105 | A live id points back to a leaf of the trie whose id list contains it |
| StableSet.BuildPath | include/ptrie/ptrie_internal.hpp:1925-1932 | Following the parent pointers yields the path of the leaf |
| StableSet.Unpack | include/ptrie/ptrie_internal.hpp:203-227 | Unpacking any position of any leaf gives the stored key |
| StableSet.UnpackId | include/ptrie/ptrie_stable.h:113-135 | Unpacking an id gives the key it was issued for |
| StableMap.PtrieMap.Get | include/ptrie/ptrie_map.h:62-64 | Reading a key gives its value, or the default of a key that was not there, and inserts the latter |
| StableMap.PtrieMap.Put | include/ptrie/ptrie_map.h:97-103 | Writing one key changes that key alone |
| StableMap.PtrieMap.Remove | include/ptrie/ptrie_map.h:45-45 | Erasing a key removes it alone |
| StableMap.RunMap | include/ptrie/ptrie_map.h:59-103 | In any sequence of reads, writes and erasures on a new map, a read shows the value written last, or the default if there was none or the key was erased since; an erasure is true exactly if the last use of the key was a read or a write; the map ends up as the uses say, and the heap gains the blocks of the leaves alone |
| StableMap.Continue | include/ptrie/ptrie_map.h:59-103 | The same from any map, whose values count as long as a key was not used |
| StableMap.LastWriteWins | include/ptrie/ptrie_map.h:62-64 | On the map object: a value put under a key is read back after any uses that neither write nor delete that key |
| StableMap.DeletionForgets | include/ptrie/ptrie_map.h:45-64 | On the map object: an erasure after any uses is true exactly if the last of them about the key was a read or a write (or there was none and the key was there), and from then on the key reads as the default until it is written again |
| Iteration.MoveForward | include/ptrie/ptrie_internal.hpp:98-143 | One step to the right passes over no key |
| Iteration.MoveBackward | include/ptrie/ptrie_internal.hpp:98-143 | One step to the left passes over no key |
| Iteration.Increment | include/ptrie/ptrie_internal.hpp:163-170 | ++ ends, and lands on the next key in shortlex order or at the end |
| Iteration.Decrement | include/ptrie/ptrie_internal.hpp:179-186 | -- ends, and lands on the previous key or at the beginning |
| Iteration.ForthAndBack | include/ptrie/ptrie_internal.hpp:163-186 | From every key, the last one included, ++ and then -- returns to the same leaf and index |
| Iteration.BackAndForth | include/ptrie/ptrie_internal.hpp:163-186 | From every key, the first one included, -- and then ++ returns to the same leaf and index |
| Iteration.BeginAndBack | include/ptrie/ptrie_internal.hpp:163-186 | From before the first key ++ and then -- returns there, for an empty trie too |
| Iteration.EndAndForth | include/ptrie/ptrie_internal.hpp:163-186 | From behind the last key -- and then ++ returns there |
| Iteration.Keys | include/ptrie/ptrie_internal.hpp:163-227 | Walking from begin to end lists every stored key exactly once, in strictly increasing shortlex order |
| Iteration.RunAndList | include/ptrie/ptrie_internal.hpp:163-227 | After any run on a new trie the walk lists, in strictly increasing shortlex order, exactly the keys inserted and not erased since |
| Bytes.EncOrderIsShortlex | include/ptrie/ptrie_internal.hpp:680-688 | The order of the encodings is length first, then bytes |
| Bytes.LessInWords | include/ptrie/ptrie_internal.hpp:783-783 | A byte string is less than another exactly if it is a proper prefix of it or smaller at the first byte where they differ |
| Order.LeafRange | include/ptrie/ptrie_internal.hpp:97-143 | The keys of a leaf are exactly the stored keys between the two ends of its block |
| Config.BoundsFit | include/ptrie/ptrie_internal.hpp:262-267 | The static assertions bound HEAPBOUND, SPLITBOUND and their product |
| Config.AdmittedBounds | include/ptrie/ptrie_internal.hpp:262-267 | Exactly the bounds with HEAPBOUND at least 9, SPLITBOUND at least 6 and a product below 65535 are admitted, among them one with SPLITBOUND 771 |
| Layout.LengthsOfLeaf | include/ptrie/ptrie_internal.hpp:729-749 | Path and `first` determine the length of every residue of a leaf |
| Layout.CellAt | include/ptrie/ptrie_internal.hpp:729-812 | Entry i occupies the bytes from the sum of the stored sizes before it: the residue itself if it is shorter than HEAPBOUND, otherwise eight bytes that point to a block that starts with it |
| Layout.OffsetFits | include/ptrie/ptrie_internal.hpp:262-267 | No offset of a bucket overflows 16 bits |
| Recovery.LengthsAgree | include/ptrie/ptrie_internal.hpp:729-1823 | The byte arithmetic of bucket_search, insert, erase, split_fwd, split_node and the destructor recovers one and the same length at every depth |
| Recovery.PathAgrees | include/ptrie/ptrie_internal.hpp:1934-1967 | So does build_path where the path is not longer than the key |
| Recovery.PathWrapsAtTheEnd | include/ptrie/ptrie_internal.hpp:1967-1967 | At depth two and more build_path recovers the length exactly when the path is not longer than the key |
| Recovery.ReaddAgrees | include/ptrie/ptrie_internal.hpp:1594-1603 | readd_sizes recovers the whole length of each key |
| Recovery.EmptyKeyWraps | include/ptrie/ptrie_internal.hpp:741-743 | At depth one the length comes out right exactly for keys that are not empty; an empty one counts 65535 bytes |
| Recovery.LongestKeyWraps | include/ptrie/ptrie_internal.hpp:1235-1235 | Of the lengths that the assertion admits, only 65536 is lost in 16 bits |
| FlatBucket.SearchBytes | include/ptrie/ptrie_internal.hpp:703-818 | Searching the bytes, with running offset and out-of-line residues, finds the key or its position |
| FlatBucket.InsertBytes | include/ptrie/ptrie_internal.hpp:1293-1406 | Inserting into the bytes gives the bytes of the bucket with the entry inserted, and allocates one block exactly when the residue has at least HEAPBOUND bytes |
| FlatBucket.BytesBefore | include/ptrie/ptrie_internal.hpp:1351-1365 | tmpsize is the offset of the insertion position |
| FlatBucket.EraseBytes | include/ptrie/ptrie_internal.hpp:1795-1875 | Erasing from the bytes gives the bytes without the entry, and frees its block, if it has one, and no other |
| FlatBucket.BytesBeforeErased | include/ptrie/ptrie_internal.hpp:1797-1823 | The 16-bit sum `before` is the offset of the erased entry |
| FlatBucket.SizeAndOffset | include/ptrie/ptrie_internal.hpp:1925-1969 | build_path returns the length of the key; its offset is right wherever it is used, and where the path has used up the key it is right only for entry 0 |
| FlatBucket.WriteKey | include/ptrie/ptrie_internal.hpp:1925-2015 | build_path and write_data on the bytes restore the key, inline or out of line |
| FlatMoves.HalveBytes | include/ptrie/ptrie_internal.hpp:1080-1189 | split_node cuts the bytes where it cuts the entries; lsize is the size of the low part |
| FlatMoves.PushBytes | include/ptrie/ptrie_internal.hpp:859-985 | split_fwd writes within the two new buffers, gives the bytes of the cut entries, and exchanges the blocks of the old entries for those of the new |
| FlatMoves.PushSizes | include/ptrie/ptrie_internal.hpp:872-922 | The lengths, and the two sizes with their negative count of empty residues |
| FlatMoves.SingleSlotIsEven | include/ptrie/ptrie_internal.hpp:950-955 | In a leaf on one slot all residues are empty or none is, so testing the length at the shifted index instead of the entry's own does no harm |
| FlatMoves.MergeBytes | include/ptrie/ptrie_internal.hpp:1545-1583 | merge_nodes puts one bucket behind the other |
| FlatInject.InjectBytes | include/ptrie/ptrie_internal.hpp:1432-1490 | inject_byte writes within the new buffer, gives the bytes of the injected entries, and exchanges blocks across the HEAPBOUND boundary |
| FlatInject.ReaddSizesBytes | include/ptrie/ptrie_internal.hpp:1586-1607 | From depth one to the root, with each key's own length, for any number of keys; whether the array holds the lengths is the subject of Scratch |
| FlatInject.ReaddByteBytes | include/ptrie/ptrie_internal.hpp:1624-1640 | From deeper levels, with one length for all |
| Scratch.OverrunsExactly | include/ptrie/ptrie_internal.hpp:1594-1594 | Some sequence of calls on a new trie overruns the array of 256 lengths exactly if SPLITBOUND exceeds 770 |
| Scratch.Overrun | include/ptrie/ptrie_internal.hpp:1594-1594 | Such a sequence, run on a trie: SPLITBOUND insertions and then erasures until SPLITBOUND / 3 keys are left |
| Forest.InsertInForest | include/ptrie/ptrie_internal.hpp:1387-1406 | After an insertion the trie's blocks in use are again exactly those the leaves point to, each once |
| Forest.EraseInForest | include/ptrie/ptrie_internal.hpp:1825-1875 | The same after an erasure |
| Forest.HalveInForest | include/ptrie/ptrie_internal.hpp:1155-1203 | The same when split_node shares a bucket out |
| Forest.PushInForest | include/ptrie/ptrie_internal.hpp:859-1045 | The same when split_fwd pushes a bucket down |
| Forest.TwoSided | include/ptrie/ptrie_internal.hpp:1024-1045 | The same for the two leaves under a new forward node |
| Forest.MergeInForest | include/ptrie/ptrie_internal.hpp:1545-1583 | The same when siblings merge |
| Forest.AbsorbForest | include/ptrie/ptrie_internal.hpp:1718-1731 | The same when an empty leaf gives its slots to its sibling |
| Forest.LiftInForest | include/ptrie/ptrie_internal.hpp:1610-1645 | The same when a bucket is lifted |
| Forest.Replace | include/ptrie/ptrie_internal.hpp:437-521 | Whatever leaves are replaced, if their blocks are exchanged for those of the new ones, all blocks stay accounted for |
| Forest.BlocksPerKey | include/ptrie/ptrie_internal.hpp:1382-1386 | A trie has at most one block on the heap per key |
| Teardown.CleanBytes | include/ptrie/ptrie_internal.hpp:480-521 | cleanup frees every block of the bucket once and no other |
| Teardown.CloneBytes | include/ptrie/ptrie_internal.hpp:620-660 | A copied bucket holds the same entries in blocks of its own, and the original stays as it was |
| Forest.Relabel | include/ptrie/ptrie_internal.hpp:1133-1154 | The same when a leaf only gets another block of slots |
| Forest.ClaimForest | include/ptrie/ptrie_internal.hpp:1254-1288 | The same for a fresh leaf |
| Forest.DropForest | include/ptrie/ptrie_internal.hpp:1500-1504 | The same when an empty leaf is deleted: it leaves no block behind |
| Copying.Copy | include/ptrie/ptrie_internal.hpp:571-618 | With enough free addresses the copy always succeeds: a valid trie of new nodes, leaves and blocks with the same rows and keys; the original stays valid with its own blocks, and the heap gains the copy's blocks and no other |
| Copying.CopyNode | include/ptrie/ptrie_internal.hpp:579-618 | Cloning a node copies exactly the nodes and leaves below it into new objects, each leaf once, with parent pointers to the copies |
| Copying.CopySlot | include/ptrie/ptrie_internal.hpp:587-616 | One slot: a self-loop, the leaf of the slot before, a new leaf, or a new child node |
| Copying.RenamedKeeps | include/ptrie/ptrie_internal.hpp:579-618 | A trie on other leaves with the same rows satisfies the invariant and stores the same keys |
| Copying.RenamedTidy | include/ptrie/ptrie_internal.hpp:579-618 | The copy has its leaves at rest and its nodes filled as the original has |
| Twins.DoBeside | include/ptrie/ptrie_internal.hpp:571-577 | Adding puts exactly the key into the set, removing takes exactly it out, asking changes nothing; adding is true exactly if the key was not in, removing and asking exactly if it was; another trie with nothing in common stays as it was, and valid |
| Twins.Interleave | include/ptrie/ptrie_internal.hpp:571-577 | In any interleaving of operations on two such tries, what a turn answers and what the sets end up as is decided on its own side: a key is in exactly if its last addition or removal there was an addition, or there was none and it was in at the start |
| Twins.CopyThenUse | include/ptrie/ptrie_internal.hpp:571-577 | A set and its copy, used in any order, answer each by the turns on its own side alone, as in Interleave, both starting with what was in the set when it was copied |
| Destructor.Destroy | include/ptrie/ptrie_internal.hpp:437-478 | The destructor frees all blocks of the trie and no other, and deletes every leaf and every forward node but the root exactly once |
| Destructor.WholeLife | include/ptrie/ptrie_internal.hpp:437-478 | Every run on a new trie that is then destroyed is answered as its calls demand (see Run) and leaves on the heap exactly the blocks that were there before |
| Destructor.CleanRow | include/ptrie/ptrie_internal.hpp:453-475 | Within one node a leaf is cleaned at its first slot only, and every forward child is noted once |
| Destructor.CleanSlot | include/ptrie/ptrie_internal.hpp:453-471 | One slot: a leaf is cleaned and deleted where it is met first, and a forward child is noted |
| Destructor.FirstMet | include/ptrie/ptrie_internal.hpp:456-459 | A slot shows the same leaf as the slot before it exactly when it is not the first of the leaf's block |
| LinkedBucket.ApplyKeeps | include/ptrie/linked_bucket.h:127-186 | No step of any thread, and no spurious failure, breaks the invariant, moves a linked bucket, changes its offset or removes it from the index |
| LinkedBucket.ChainInEveryRun | include/ptrie/linked_bucket.h:127-151 | In every interleaving the chain visits each bucket once and ends, and the bucket at position j has offset j * C |
| LinkedBucket.TryLinkKeeps | include/ptrie/linked_bucket.h:139-147 | The compare-and-swap with its carried-over expected value succeeds only at the tail |
| LinkedBucket.LinkKeeps | include/ptrie/linked_bucket.h:139-151 | A successful swap appends one bucket, at the end |
| LinkedBucket.IdsAreDistinct | include/ptrie/linked_bucket.h:127-157 | In every interleaving without pop_back all ids returned are different |
| LinkedBucket.OneThreadCounts | include/ptrie/linked_bucket.h:127-157 | Whatever one thread receives is 0, 1, 2, ... as long as it takes nothing back |
| Allocation.OneThreadReceives | include/ptrie/linked_bucket.h:127-157 | For every n, one thread alone receives 0, 1, ..., n - 1 after finitely many steps, which is how the trie takes its ids |
| LinkedBucket.ReturnedIdIsFree | include/ptrie/linked_bucket.h:127-163 | Exactly the last step of next returns an id, one that was not live; a permitted pop_back ends one live id, and no other action changes what is live |
| Allocation.NextReturns | include/ptrie/linked_bucket.h:127-186 | From every state, in the middle of any calls, a thread that runs alone without spurious failures returns from next after finitely many steps, with exactly one id |
| Allocation.NextAtOnce | include/ptrie/linked_bucket.h:153-157 | A call of a thread whose bucket has room takes two steps and returns exactly one id, offset plus count |
| Allocation.NextId | include/ptrie/linked_bucket.h:127-157 | In every interleaving with pop_back: of the bucket of the id that a thread received last, it receives the first cell behind the live ones, and if all are live, or it has received none, the first id of a bucket from which no thread has received one; thread 0 starts with 0 |
| Allocation.IdsAreConsecutive | include/ptrie/linked_bucket.h:127-157 | In every interleaving without pop_back a thread that received i receives i + 1 next, or the first id of another bucket if i is the last of its bucket |
| Allocation.PopTakesLast | include/ptrie/linked_bucket.h:159-163 | In every interleaving a thread may call pop_back exactly if it is between calls and the id that it received last of those still live lies in the bucket of the id that it received last; pop_back takes back that id and nothing else |
| Allocation.PopThenNext | include/ptrie/linked_bucket.h:127-163 | After pop_back the next call of the thread returns the same id, and the same ids are live as before |
| LinkedBucket.IndexKeeps | include/ptrie/linked_bucket.h:166-186 | Storing a bucket puts it into the slot for its own position |
| LinkedBucket.TryLinkPageKeeps | include/ptrie/linked_bucket.h:172-184 | Extending the index keeps it a chain of pages; losing the race changes nothing |
| LinkedBucket.IndexToBucket | include/ptrie/linked_bucket.h:188-198 | The index walk gives nothing or the bucket at position id / C of the chain, and gives the bucket for every live id |
| LinkedBucket.Access | include/ptrie/linked_bucket.h:77-114 | Index and chain walk lead to the same bucket and cell |
| LinkedBucket.CellsAreApart | include/ptrie/linked_bucket.h:77-95 | Different live ids have different cells, and no later step of any thread moves a cell |
| LinkedBucket.Size | include/ptrie/linked_bucket.h:116-125 | The sum of the counts is the number of live ids |
| LinkedBucket.PosIsQuotient | include/ptrie/linked_bucket.h:81-81 | Position and cell by repeated subtraction are quotient and remainder |
| Murmur.MurmurHash2A | benchmark/MurmurHash2.cpp:236-272 | The one-shot loop computes the hash of the whole string, described by positions and bits (see HashIs) |
| Murmur.HashIs | benchmark/MurmurHash2.cpp:227-272 | The hash is what the description over integers says: from the seed, each little-endian word, then the zero-filled rest, then the length are mixed in, by products with 1540483477 modulo 2^32, by xor-ing bit i + 24 into bit i, and by joining bit by bit; the scrambling does the same with 13, the product, and 15 |
| Murmur.OneHash | benchmark/MurmurHash2.cpp:227-272 | No other word meets that description |
| Murmur.KnownAnswer | benchmark/MurmurHash2.cpp:236-272 | The one byte 1 with seed 0 hashes to 0x3e03ddd5 |
| Murmur.Mmix | benchmark/MurmurHash2.cpp:227-234 | The five statements of the macro give the one word with the word mixed in |
| Murmur.Finish | benchmark/MurmurHash2.cpp:267-269 | The last three statements give the one word that is the scrambled hash |
| Murmur.Hasher.Add | benchmark/MurmurHash2.cpp:294-310 | Adding a chunk extends what has been hashed by that chunk |
| Murmur.Hasher.MixTail | benchmark/MurmurHash2.cpp:328-342 | The tail loop stops at a word boundary with a word waiting, or at the end |
| Murmur.Hasher.End | benchmark/MurmurHash2.cpp:312-322 | End returns the hash of everything that was added, as described by positions and bits |
| Murmur.FeedByte | benchmark/MurmurHash2.cpp:328-342 | One more byte extends the tail, or completes a word |
| Murmur.FeedWord | benchmark/MurmurHash2.cpp:300-306 | One more word at a boundary is mixed in |
| Murmur.Stream | benchmark/MurmurHash2.cpp:290-342 | Streaming any list of chunks gives the hash of their concatenation, as described by positions and bits |
| Murmur.StreamEqualsOneShot | benchmark/MurmurHash2.cpp:236-342 | Streaming and one-shot hashing agree for every cutting of every string and every seed |

## Left out

- The marks `deleted`, `dangling` and `overrun`: the program has none; they record what happened. `Trie.MergeDown` is proved for every sound trie, tidy or not, and does not go on with a deleted leaf; that there is none to go on with is promised for tidy tries.
- Copying.Copy: the plain set is copied, into a new trie. Assignment into a trie that is not empty, moving, and copying with entries (whose `_node` keeps pointing to the leaves of the original) are not modelled.
- Empty keys and keys of 65536 bytes: see the findings above.
- BSIZE 2 and 4, key types other than `unsigned char`, and custom byte iterators.
- Canonical shape: the shape depends on the history, because a node comes at SPLITBOUND keys and goes at SPLITBOUND / 3; for the children of the root this is exact (`Runs`), for deeper nodes only the lower bound is stated.
- `size()` of a stable set counts the ids issued, because the trie never gives an entry back; only the allocator's own sum is modelled (`LinkedBucket.Size`).
- Iterator comparison: the end points of a walk are the positions before the first and behind the last key; `operator==` itself is not modelled.
- Memory exhaustion: `new` always succeeds in the source; here a run asks for as many free addresses as it may come to need (one per key, and SPLITBOUND for rewriting a bucket).
- Sharing one allocator among tries: the trie's id list stands for `_entries` used by one thread; concurrent use of the trie itself is not supported by the source.
- Weak memory and reclamation in the allocator: each atomic access is one sequentially consistent step, buckets and pages that lose a race are not given back, and `size()` and `operator[]` run between steps.
- Machine integers of 64 bits (ids, sizes) do not wrap.
- Checks under NDEBUG, benchmarks, tools, the other hash functions and their statistical quality.
