# Proofs about the algorithms of this server

The Dafny files here model the self-contained algorithms that the server is built on, and prove what they
promise. Imperative code is modelled by methods over arrays, or by classes whose fields the methods reassign,
and each such method is proved against functions or predicates about which the lemmas speak. Concurrent code is
modelled as steps under sequential consistency: a step makes one access to what another thread may write, or one
write that another thread may see, with the thread's reads of what it alone writes. What is said of it holds in
every state of every run. Memory with pointers is a map from addresses to cells, so that sharing, updates in
place, use after free and double free can be expressed. Integer widths are written out where they matter
(`Words` has 32-bit words with their bit operations; `Basics` has what all modules share).

| files | what they model |
|---|---|
| Pigeonhole, Permute, PerfectTable, PerfectSearch, PerfectGreedy, PerfectHash | the perfect-hash builder: permuted scramble table, search for augmenting paths with rollback, and what it does while no path is needed |
| Words, HexCode, HexThree, HexFour, HexGuns | the search for hash expressions for three and four keys, and the meaning of the emitted code |
| SlotBytes, AhTable | the array hash table under the HAT-trie, on its packed bytes |
| TrieShape, TrieSteps, TrieBuckets, HatTrie | the HAT-trie on such tables, as a map through its bucket splits |
| ByteOrder, AhIter, TrieWalk, TrieIter | the order of keys, the iterators over packed tables and over the HAT-trie, and the copy of a map |
| FreeList, AtomicHash | the tagged free list of the atomic hash under concurrency; its table as one thread sees it |
| Spsc, Lfq, Dispatch | the one-producer one-consumer queues, the event loop, workers and reference counts |
| Aco | copy-stack coroutines |
| CsvSpec, CsvText, Csv | the CSV parser and writer: printed rows, any other text, and the buffer |
| HashSort, UtHash, Lru | uthash with its in-place merge sort, and the LRU cache on it |

Where the code disagrees with its comments or with what it seems meant to do, the model follows the code:

- `hexfour` says that a bit with two ones and two zeros becomes bit `o`; the code takes a bit whose count of
  ones is not two. One of the first two candidates always qualifies, so that the third is never needed, and the
  branches marked h4l, h4m and h4n can never be taken.
- A failure of the search for a perfect hash does not mean that there is none when groups have several keys, with
  transitive search too: a group is never moved to a value that sends a key to a cell the group itself holds, as it
  counts as explored (`GroupsMayBeMissed`). When every key has its own b it does mean that (`TryHash`).
- `hexfour` says that it takes ten instructions at most and `hexthree` six; it is never more than nine and five (`Budget4`,
  `Budget3`), and the code takes fewer wherever the tests for fewer can succeed.
- `hattrie_split` is meant to balance the two halves. Its loop can only move over characters that no key starts
  with, so the left half always gets the keys of the first character alone (`ChooseSplit`, `SplitHybridBucket`).
- A key of more than 32767 bytes is stored or ends the program depending on how deep the trie is already: what counts
  is the part that its bucket stores (`HatTrie.Hattrie.Set` says exactly when). `array_dup` can end
  the program only for a map with such a key (`ArrayDup`).
- `stailq_empty_lf_spsc` compares the divider with what follows the last node, and so never says that the queue
  is empty. Only the semaphore keeps a worker from following a null pointer (`TestNeverSaysEmpty`).
- `create_mem_pool` makes a pool of 2^32 nodes for fewer than two nodes requested; then one node has the number
  that ends the free list (`CreateMemPool` states exactly when).
- A hash whose upper 64 bits are zero is stored by `atomic_hash_add`, but no `atomic_hash_add`, `_get` or `_del`
  ever finds it again: what was added is found exactly if the upper half is not zero (`FoundIffUpperHalf`). An
  attempt to hold its node fails and leaves zero in the lower half too (`AfterTry`), each further add takes another
  seat and node (`AddedTwice`), and no operation gives them back (the table's invariant `Ok` counts them).
- `lru_add_to_cache` does not ask whether the key is cached, and adds a second entry for a key that is: each key stays
  in one entry exactly if it was not cached, or was in the oldest entry of a full cache, which goes
  (`KeysOnceAfterAdd`, `AddedTwice`).

## Model

| member | source | states |
|---|---|---|
| Permute.Mylog2 | lib/perfect/perfect.c:68-76 | the result is the ceiling of the base-2 logarithm: the least power of two that is not below the argument |
| Permute.OddMultiplierOneToOne | lib/perfect/perfect.c:91-96 | multiplying by an odd number and adding a constant is one-to-one modulo 2^n |
| Permute.XorShiftOneToOne | lib/perfect/perfect.c:91-96 | x ^ (x >> c) is one-to-one on nbits-bit words for any real shift c |
| Permute.PermutedIsPermutation | lib/perfect/perfect.c:78-98 | for every nbits up to 31, permute is a bijection on 0..2^nbits-1 that fixes 0 |
| Permute.Permute | lib/perfect/perfect.c:80-98 | the loop computes the permutation that the lemmas are about |
| Permute.PermutedIsScrambled | lib/perfect/perfect.c:100-113 | permuted values start with 0, and the first 2^nbits of them are distinct and below 2^nbits |
| Permute.ScrambleInit | lib/perfect/perfect.c:100-113 | after it the table is such a scramble table for the least nbits with smax <= 2^nbits |
| PerfectTable.EraseGroup | lib/perfect/perfect.c:403-412 | exactly the hash slots of the keys with this b are cleared, for a group that was not mapped too |
| PerfectTable.PlaceGroup | lib/perfect/perfect.c:417-434 | only free slots are taken; success means that all keys of the group are at their hashes, failure that one of them hits a taken slot |
| PerfectTable.Rollback | lib/perfect/perfect.c:383-438 | called after a collision anywhere on the path, it puts both tables back exactly to what they were before the path was applied |
| PerfectTable.Apply | lib/perfect/perfect.c:383-438 | success, exactly if no two groups on the path clash at their new values: the hash table is the exact inverse of the final hash on the mapped groups and the root's group, and tab[] changes on the path only; failure: both tables are as before |
| PerfectSearch.TreeIsSmall | lib/perfect/perfect.c:479-540 | the spanning tree holds each group at most once, so that the queue never needs more than blen + 1 entries |
| PerfectSearch.Scan | lib/perfect/perfect.c:485-505 | which single group, or none, the keys of a group would hit with a new value, and why a value cannot be used: a key leaves the range, or two groups are hit, or one that was explored before |
| PerfectSearch.Explore | lib/perfect/perfect.c:485-532 | one value for one group of the tree: either the path is applied and the invariant holds with the new group, or the hash table is unchanged and the tree is still a tree, which records why the value did not do |
| PerfectSearch.ClosedMeansNoTab | lib/perfect/perfect.c:460-541 | a closed tree of single-key groups, in which every value of every group is barred, proves that no tab[] makes the hash perfect (an argument by counting displaced keys) |
| PerfectSearch.SinglesNeverClash | lib/perfect/perfect.c:383-438 | an augmenting path of single-key groups can always be applied: its keys never meet |
| PerfectSearch.Augment | lib/perfect/perfect.c:460-541 | success maps the new group and keeps the inverse; if some value fits at once, the least such value is taken and no other group moves; failure changes only water marks and the queue, and means that no value fits at once and, with full transitive search, that every value of every group reached is barred or leads to a path that clashes |
| PerfectHash.Inittab | lib/perfect/perfect.c:158-194 | says no collision exactly if all pairs (a,b) differ, and lists each key once, under its b |
| PerfectHash.BuildPerfect | lib/perfect/perfect.c:545-581 | success: the final hash is one-to-one and below highhash and the table is its inverse; failure: all groups before some group are mapped and only those, and no value fits that group, nor with transitive search any group reached from it; it succeeds with the greedy tab[] if there is one, without transitive search only then, and for single-key groups with transitive search exactly if some tab[] is perfect |
| PerfectGreedy.FitsIsFree | lib/perfect/perfect.c:485-530 | for a state of the tables in which just the groups before are mapped, a value fits at once exactly if the final hash with it is in range and meets no key of a group before |
| PerfectGreedy.GreedyFits | lib/perfect/perfect.c:484-541 | of any greedy tab[], in which every group has the least value that does not disturb the groups before it, the next value is the one that fits first |
| PerfectGreedy.ZeroIsGreedy | lib/perfect/perfect.c:568-580 | if all a are different and below highhash, tab[] of zeros is greedy, in every mode and however many keys share a b |
| PerfectHash.TryHash | lib/perfect/perfect.c:545-581 | whatever the keys, TRUE means distinct pairs and a perfect hash, onto 0..nkeys-1 if minimal; FALSE means two equal pairs, or tables with all groups before some group mapped, in which no value fits it (nor, with transitive search, any group it reaches); a greedy tab[] is the result wherever there is one, in fast mode exactly then; keys with distinct a always succeed; for distinct b with slow or minimal search it succeeds if and only if any perfect hash of this form exists |
| PerfectHash.GroupsMayBeMissed | lib/perfect/perfect.c:497-520 | five keys in two groups for which, with transitive search, no augmenting path takes the second group in, although there is a perfect hash: the search never moves a group onto a cell that it holds itself |
| PerfectHash.MinimalReachesAll | lib/perfect/perfect.c:545-581 | a perfect hash into nkeys values reaches each of them |
| HexThree.SetLow | lib/perfect/perfhex.c:1203-1229 | the bits of diffbits are exactly those in which the keys differ, and lowbit and highbit bound them |
| HexThree.FindAdderMovesHoleTo3 | lib/perfect/perfhex.c:86-104 | the constant found, xored to three distinct values below 4, leaves them distinct and below 3 |
| HexThree.ClosestPair | lib/perfect/perfhex.c:214-249 | two bits that tell three keys apart can be chosen so that all bits between them are constant |
| HexThree.FourInstructionsSuffice | lib/perfect/perfhex.c:214-254 | for any three distinct keys some pair of shifts within the span of differing bits separates them, if no two neighbouring bits do |
| HexThree.FieldAboveFails | lib/perfect/perfhex.c:169-190 | the bounds of the loop leave out no two-bit field that would do |
| HexThree.SumAboveFails | lib/perfect/perfhex.c:192-213 | nor any shift that would do in a sum |
| HexThree.Hexthree | lib/perfect/perfhex.c:112-256 | for three distinct keys the fatal exit is never reached, and the emitted code maps them one-to-one into 0..3, or 0..2 in minimal mode, with every shift defined; it has one, two or three instructions, without the correction for minimal, wherever a field or sum at any shift separates the keys with so few, and otherwise four |
| HexFour.TestFour | lib/perfect/perfhex.c:264-272 | true exactly for the permutations of 0, 1, 2, 3 |
| HexFour.OneInstruction | lib/perfect/perfhex.c:299-324 | the code found works with one instruction; if none is found, neither the lowest nor the highest two bits separate the keys |
| HexFour.TwoInstructions | lib/perfect/perfhex.c:326-341 | the code found works with two instructions; if none is found, no two neighbouring bits separate the keys |
| HexFour.ThreeInstructions | lib/perfect/perfhex.c:343-386 | the code found works with three instructions at most; if none is found and no two neighbouring bits separate the keys, no shift at all would do with any of the three operators |
| HexFour.SkippedFails | lib/perfect/perfhex.c:344-348 | the two tests on diffbits and the bounds of the loop leave out no shift that would do |
| HexFour.FourInstructionsLinear | lib/perfect/perfhex.c:388-445 | the code found works with four instructions at most; if none is found and no two neighbouring bits separate the keys, no shift at all would do in any of the four tests |
| HexFour.FourInstructionsQuadratic | lib/perfect/perfhex.c:447-497 | nothing is ever found here: the branches h4l, h4m and h4n are unreachable, because the two-instruction search would have ended |
| HexFour.FiveInstructions | lib/perfect/perfhex.c:499-585 | the code found works with five instructions at most; if none is found, no two bits at all tell the four keys apart, and none of the tests succeeds at any two positions |
| HexFour.SkippedMixFails | lib/perfect/perfhex.c:388-394 | the tests on diffbits leave out nothing that would do |
| HexFour.SkippedPositionsFail | lib/perfect/perfhex.c:499-520 | nor do those for two positions |
| HexGuns.SomeMultiplierHits | lib/perfect/perfhex.c:587-634 | for three bits that tell four keys apart with one of them split one to three, some multiplier of that bit makes two bits tell them apart |
| HexGuns.OneOfTheFirstTwoIsUneven | lib/perfect/perfhex.c:632-641 | if no two bits tell the keys apart, the first or the second of the three bits is not set in exactly two keys |
| HexGuns.Code1Computes | lib/perfect/perfhex.c:646-667 | the code emitted for q = 1 is defined and computes the aimed two bits |
| HexGuns.Code2Computes | lib/perfect/perfhex.c:669-697 | the code emitted for q = 2 is defined and computes the aimed two bits, exchanged in one layout |
| HexGuns.Code3Computes | lib/perfect/perfhex.c:699-802 | the code emitted for q = 3, in all its layouts of the three bits, is defined and computes the aimed two bits |
| HexGuns.TryMultipliers | lib/perfect/perfhex.c:646-818 | some multiplier works, so that the last fatal exit is not reached |
| HexGuns.Hexfour | lib/perfect/perfhex.c:280-820 | any four distinct keys get defined code that maps them one-to-one onto 0..3, with one to five instructions wherever a test for so few succeeds at any shifts, and never more than nine; no fatal exit is reached |
| HexGuns.Inithex | lib/perfect/perfhex.c:1254-1280 | for three and four keys: duplicate keys are reported exactly if there are any, and otherwise the code hashes perfectly, with no more instructions than the tests allow |
| TrieShape.Tree.CoverIsUnique | lib/hat-trie/src/hat-trie.c:107-121 | the search for a key can end in one bucket only |
| TrieShape.Tree.CoverDecides | lib/hat-trie/src/hat-trie.c:107-171 | in that bucket the rest of the key is found exactly if the key is stored, with its value |
| TrieSteps.PutStores | lib/hat-trie/src/hat-trie.c:419-432 | setting the entry of the covering bucket sets that key and no other |
| TrieSteps.DropStores | lib/hat-trie/src/hat-trie.c:470-477 | dropping that entry drops that key and no other |
| TrieSteps.SplitPureStores | lib/hat-trie/src/hat-trie.c:229-261 | a pure bucket turned into the hybrid child of a new trie node: the same map, and runs, buckets and the ban on empty entries stay right |
| TrieSteps.SplitHybridStores | lib/hat-trie/src/hat-trie.c:263-370 | a hybrid bucket cut after any character of its range: the same map, with two non-empty character ranges |
| TrieBuckets.ChooseSplit | lib/hat-trie/src/hat-trie.c:281-301 | the cut leaves two ranges whatever the counts; it moves past the first character only over characters without entries, and says exactly when |
| TrieBuckets.CountFirst | lib/hat-trie/src/hat-trie.c:265-279 | the walk over the packed table counts the first characters of its entries |
| TrieBuckets.Distribute | lib/hat-trie/src/hat-trie.c:337-366 | the walk over the packed table puts each entry into one of two new packed tables: they are the two parts of the old one, without the first character where a table is for one character; no entry is refused |
| TrieBuckets.Buckets.SplitTable | lib/hat-trie/src/hat-trie.c:263-370 | the table of a bucket is replaced by two new ones with its two parts; every other bucket keeps its table and its contents |
| TrieBuckets.Buckets.Get | lib/hat-trie/src/hat-trie.c:419-431 | the table of the bucket holds the key afterwards, unless the key is too long, and the pointer is to its value; the tables of the other buckets keep theirs |
| HatTrie.Hattrie.SplitHybridBucket | lib/hat-trie/src/hat-trie.c:263-370 | nodes and tables afterwards are the split ones, and the left bucket holds entries of its first character only |
| HatTrie.Hattrie.SplitPureBucket | lib/hat-trie/src/hat-trie.c:239-261 | the nodes afterwards are the split ones; the bucket has no empty entry that would have to move to the trie node |
| HatTrie.NulHoldsOne | lib/hat-trie/src/hat-trie.c:399-415 | a pure bucket under NUL holds at most one entry, so that it is never full and never split |
| HatTrie.Hattrie.Split | lib/hat-trie/src/hat-trie.c:229-370 | one split keeps the map and all invariants, and the search for the key goes on at a trie node or at a bucket for fewer characters |
| HatTrie.Hattrie.Consume | lib/hat-trie/src/hat-trie.c:107-121 | the search ends at the bucket that covers the key, never reads past the key, and says what of the key is stored there |
| HatTrie.Hattrie.MakeRoom | lib/hat-trie/src/hat-trie.c:399-415 | the split loop terminates (rest of the key, then width of the bucket) with room in the bucket of the key and the map unchanged |
| HatTrie.Hattrie.Get | lib/hat-trie/src/hat-trie.c:372-432 | a pointer to the packed value of the key, which is made with value 0 if it is missing; nothing else changes; the program ends exactly if the part of the key for its bucket is over 32767 bytes |
| HatTrie.Hattrie.Set | assoc_array.h:16-21 | get and writing through the pointer update the map at the key, unless the program ends, and that exactly for a part over 32767 bytes |
| HatTrie.Hattrie.TryGet | lib/hat-trie/src/hat-trie.c:434-449 | finds the value of a key exactly if it is in the map |
| HatTrie.Hattrie.Del | lib/hat-trie/src/hat-trie.c:451-477 | removes the key; 0 if it was there, else -1 |
| HatTrie.Hattrie.Size | lib/hat-trie/src/hat-trie.c:61-64 | the counter is the number of keys in the map |
| ByteOrder.CmpKeyIsByteOrder | lib/hat-trie/src/ahtable.c:412-423 | memcmp over the common length and then the difference of the lengths is negative, zero or positive exactly as the byte order of the keys is; zero only for equal keys |
| AhIter.CmpThrough | lib/hat-trie/src/ahtable.c:412-423 | reading both lengths and keys through pointers into the slots compares the two keys |
| AhIter.Collect | lib/hat-trie/src/ahtable.c:446-457 | the pointers lead to all entries of all slots, each once, slot by slot, and there is always room in the array of m |
| AhIter.QSort | lib/hat-trie/src/ahtable.c:457 | the pointers in an order that cmpkey agrees with, none lost and none twice |
| AhIter.EntriesOf | lib/hat-trie/src/ahtable.c:438-590 | the entries given are those of the map, each key once with its value, in strictly increasing byte order if sorted, else slot by slot |
| TrieWalk.KidsInOrder | lib/hat-trie/src/hat-trie.c:553-572 | all keys below a child come before all keys below a later child, runs of equal pointers included |
| TrieWalk.TriePops | lib/hat-trie/src/hat-trie.c:532-584 | replacing a trie node on the stack by its children keeps the stack in key order and the buffer right for every entry of it |
| TrieWalk.LessIsLeft | lib/hat-trie/src/hat-trie.c:628-643 | each node is popped once: the set of nodes still to come shrinks |
| TrieIter.NextStep | lib/hat-trie/src/hat-trie.c:697-713 | the key left behind was not visited before, comes last in order, and nothing is forgotten |
| TrieIter.AllVisited | lib/hat-trie/src/hat-trie.c:697-718 | when nothing is left, every stored key was visited exactly once, strictly increasing if sorted |
| TrieIter.HattrieIter.NextNode | lib/hat-trie/src/hat-trie.c:532-584 | keeps all of that, reading the packed slots of the buckets, and the key buffer holds the way to the current node |
| TrieIter.HattrieIter.Key | lib/hat-trie/src/hat-trie.c:742-767 | the key put together in the reused buffer is the stored key, and the ways still needed are not overwritten |
| TrieIter.HattrieIter.Finished | lib/hat-trie/src/hat-trie.c:715-718 | says so exactly at the end, when all keys were visited |
| TrieIter.ArrayDup | assoc_array_impl_hattrie.h:41-52 | the copy is an equal map, or the program ends, and that only if a key is over 32767 bytes |
| SlotBytes.LengthReadBack | lib/hat-trie/src/ahtable.c:20-27 | the one or two length bytes are read back for every length up to 32767, whatever follows |
| SlotBytes.PackedUniquely | lib/hat-trie/src/ahtable.c:191-215 | packed bytes determine their list of entries |
| SlotBytes.AtEntry | lib/hat-trie/src/ahtable.c:306-330 | where the walk over a slot finds each entry and the next one |
| AhTable.SlotsExist | lib/hat-trie/src/ahtable.c:296-348 | any map of keys that are not too long is stored by packed slots of any number |
| AhTable.Table.Search | lib/hat-trie/src/ahtable.c:296-330 | the walk finds the key exactly if it is stored, and where |
| AhTable.Table.TryGet | lib/hat-trie/src/ahtable.c:364-367 | the value bytes of the key, or none |
| AhTable.Table.Insert | lib/hat-trie/src/ahtable.c:333-348 | the bytes appended to the slot add the key with zeros, and nothing else changes |
| AhTable.Table.Set | lib/hat-trie/src/ahtable.c:353-361 | get and write update the map at the key; longer keys are refused |
| AhTable.Table.Del | lib/hat-trie/src/ahtable.c:370-408 | moving the rest of the slot over the entry removes the key from the map; the size follows |
| AhTable.WalkComesOnce | lib/hat-trie/src/ahtable.c:521-570 | a walk over all slots comes to each key once, with what the map says |
| AhTable.SizesFit | lib/hat-trie/src/ahtable.c:224-241 | the bytes measured in the first walk are exactly those that the second walk writes to each slot |
| AhTable.SpreadStores | lib/hat-trie/src/ahtable.c:218-293 | spreading all entries over another number of slots keeps the map, and there are as many entries as keys |
| AhTable.ExpandSlots | lib/hat-trie/src/ahtable.c:218-293 | twice the slots with the same map; its assertions about the count hold |
| AhTable.Table.Get | lib/hat-trie/src/ahtable.c:296-361 | the place of the value of the key, made with zeros if it is missing, in a table whose slots have doubled exactly if the load was reached; longer keys are refused |
| FreeList.NodesAreConserved | lib/atomic_hash/src/atomic_hash.c:149-187 | in every state of every run, the links from the head list distinct nodes, and free, owned and handled nodes are disjoint and are exactly those of the installed blocks |
| FreeList.NewNodeIsNobodys | lib/atomic_hash/src/atomic_hash.c:397-413 | the node a pop returns was owned by nobody and in nobody's hands, although the link that the pop read may have been stale |
| FreeList.PopWins | lib/atomic_hash/src/atomic_hash.c:403-410 | if the tag has not changed, the head has the link that was read |
| FreeList.PushWins | lib/atomic_hash/src/atomic_hash.c:415-429 | a push that finds the head unchanged puts one node or a whole block in front |
| FreeList.NewNodeEnds | lib/atomic_hash/src/atomic_hash.c:397-413 | in every run new_node goes on until it takes the first node of the list, which then is owned by its caller, or returns NNULL; then all blocks of the pool are installed, nothing has changed, and the list was empty at some moment of the call |
| FreeList.BlocksOnlyWhenEmpty | lib/atomic_hash/src/atomic_hash.c:401 | a thread is in new_mem_block only if the list was empty at some moment of its call |
| FreeList.FreeNodeEnds | lib/atomic_hash/src/atomic_hash.c:415-429 | in every run free_node goes on until the node it was given is the first of the list |
| FreeList.HeldUpOnlyBySuccess | lib/atomic_hash/src/atomic_hash.c:149-187 | every step brings its thread nearer to the end of its call, unless the head has changed since the thread read it |
| FreeList.TagCounts | lib/atomic_hash/src/atomic_hash.c:403-408 | in every run the tag counts the changes of the list, so that it tells any two of its states apart |
| FreeList.NullMeansEmpty | lib/atomic_hash/src/atomic_hash.c:400-406 | the head reads NNULL exactly if the list is empty, if no node has that number |
| FreeList.CreateMemPool | lib/atomic_hash/src/atomic_hash.c:82-127 | enough nodes for the request; no node has the number NNULL if and only if at least two were requested |
| AtomicHash.HashTable.Hold | lib/atomic_hash/src/atomic_hash.c:61-71 | held exactly if both halves are equal and the upper one is not zero; a failed attempt changes the node exactly if the lower halves are equal and the upper one is zero |
| AtomicHash.HeldExactlyIfSame | lib/atomic_hash/src/atomic_hash.c:438-453 | a node added for w, after any number of attempts on it, can be held for v exactly if v is w and its upper half is not zero |
| AtomicHash.CountFull | lib/atomic_hash/src/atomic_hash.c:677-681 | the count of a table reaches its size exactly if every seat is taken |
| AtomicHash.SeatAt | lib/atomic_hash/src/atomic_hash.c:598-610 | the 32 seats of a hash in their order: each word, and then for j = 1, 2, 3 the 32-bit sum of the word before it and j times it, modulo the size of the first table, and the same for the second |
| AtomicHash.SeatsAre | lib/atomic_hash/src/atomic_hash.c:598-610 | a seat belongs to a hash exactly if its position is one of these in its table |
| AtomicHash.NoOwnSeatIs | lib/atomic_hash/src/atomic_hash.c:636-689 | no seat is left for a hash exactly if all its positions in both tables are taken |
| AtomicHash.PutStores | lib/atomic_hash/src/atomic_hash.c:504-529 | a free node put into a free seat of a new hash adds that hash and no other to the map, if its upper half is not zero; each node stays in one seat, and each hash of the map too |
| AtomicHash.ClearStores | lib/atomic_hash/src/atomic_hash.c:534-553 | clearing the seat of a hash removes that hash only, which was in no other seat |
| AtomicHash.HashTable.Find | lib/atomic_hash/src/atomic_hash.c:707-720 | a hash is found in its 32 seats, which may coincide, or in the counted part of the overflow array, exactly if it is stored |
| AtomicHash.HashTable.Add | lib/atomic_hash/src/atomic_hash.c:636-689 | for every hash: 1 exactly if it is in the map, and so never if its upper half is zero; -1 exactly if no seat is left, -2 exactly if no node is left; else 0, and one free seat and one node are taken for it |
| AtomicHash.HashTable.Get | lib/atomic_hash/src/atomic_hash.c:691-722 | the data of the hash, exactly if it is stored |
| AtomicHash.HashTable.Del | lib/atomic_hash/src/atomic_hash.c:724-759 | the hash is gone afterwards, with one seat and one node; 0 if it was there, else -1 and nothing is given back |
| AtomicHash.FoundIffUpperHalf | lib/atomic_hash/src/atomic_hash.c:636-759 | what add stored is found by a further add, by get and by del, with its data, if and only if the upper half of the hash is not zero |
| AtomicHash.AddedTwice | lib/atomic_hash/src/atomic_hash.c:636-689 | any hash whose upper half is zero, added twice, takes two seats; in a table without entries both adds succeed |
| Lfq.QueueIsFifo | lfq.c:54-80 | in every interleaving the values that lfq_out returned are a prefix of the arguments of lfq_in, in order, all but the last of which is published; NULL is returned exactly if all values published when last was read had been returned, and no possible step touches freed memory |
| Lfq.NobodyWaits | lfq.c:54-80 | lfq_out returns after four steps of its own, lfq_in publishes after two and then frees a node every three, whatever the other side does |
| Lfq.NothingLeaks | lfq.c:60-66 | when lfq_in returns, only the divider and the values published and not yet returned are allocated |
| Lfq.Delete | lfq.c:41-51 | every node is freed, none twice |
| Dispatch.TestNeverSaysEmpty | main.h:208-211 | the emptiness test of the worker always goes on to dequeue |
| Dispatch.NoWorkerFindsAnEmptyQueue | main.c:460-470 | in every interleaving of the dispatcher and any number of workers the branch for an empty queue is not reached, and no possible step touches a freed node or hook |
| Dispatch.EventsInOrder | main.c:370-384 | in every interleaving each worker has begun to process the first of the events of descriptors with fd % nworkers equal to its number, in the order of their arrival and none twice; its semaphore is posted once for each of them when the dispatcher polls again, and all are processed when it then waits at zero |
| Dispatch.SentAreArrived | main.c:374-379 | every event of an open hook is queued for the worker of its descriptor, in order; only the one in the dispatcher's hands is not yet |
| Dispatch.UsedNodesAreFreed | main.h:205-206 | when the dispatcher has trimmed a queue, only the divider and the nodes of events not yet fetched are allocated |
| Dispatch.OpenUntilClosed | main.c:370-384 | a hook is open, allocated and has its descriptor from its acceptance until the dispatcher takes in the event that closes it |
| Dispatch.EveryoneGoesOn | main.c:345-384 | a worker with an event waits again after nine steps, and every step of the dispatcher brings it nearer to its next poll or frees a node |
| Dispatch.QueuedHooksAreAlive | main.c:372-384 | a hook that is queued or being processed has not been freed |
| Dispatch.FreedOnce | main.h:268-283 | whoever frees a hook, it is closed, unqueued and unprocessed, and nobody else is about to free it |
| Dispatch.ClosedHooksGo | ioqueue_socket.c:110-150 | a closed hook to which nothing refers any more is about to be freed by one thread |
| Aco.StackSize | lib/libaco/aco.c:208-249 | whole pages with a guard page, at least the size wanted and less than a page more |
| Aco.Layout | lib/libaco/aco.c:271-287 | the part that coroutines use is aligned and lies inside the mapping |
| Aco.Grow | lib/libaco/aco.c:396-408 | the doubled size fits, is less than twice what is needed, and never wraps to zero |
| Aco.EnabledIsSafe | lib/libaco/aco.c:364-477 | where the invariant holds, no assertion fails and nothing outside stacks and buffers is touched, whatever is called |
| Aco.ActionKeeps | lib/libaco/aco.c:306-492 | every call and every write keeps the invariant |
| Aco.RunIsSound | lib/libaco/aco.c:306-492 | so in every state of every run, and no assertion ever fails |
| Aco.RunIsRoster | lib/libaco/aco.c:306-492 | in every run, who runs is who was resumed last, unless it has yielded or ended, and every coroutine created and not destroyed is on its stack with its stack pointer where it left it |
| Aco.CopiesAreCounted | lib/libaco/aco.c:364-477 | in every run ct_save and ct_restore count the copies out of and back to the stack, each made exactly when another coroutine owns the stack |
| Aco.FoundAsLeft | lib/libaco/aco.c:364-477 | in every run, a coroutine that is resumed finds above its stack pointer, at the same addresses, the very bytes that were there when it yielded, whatever ran on the stack in between |
| Aco.ReadsAsAlone | lib/libaco/aco.c:364-477 | in every run, what running code reads from the shared stack, where it wrote and has not given up since, is what it would read if each coroutine had a memory of its own and nothing were copied |
| Aco.AloneIsNeverCopied | lib/libaco/aco.c:368-476 | in every run, a coroutine that is the only one created on its stack is never copied out or in |
| Aco.SaveKeeps | lib/libaco/aco.c:369-436 | copying the owner's bytes to its save buffer keeps every coroutine's private stack |
| Aco.RestoredWindow | lib/libaco/aco.c:437-470 | the bytes copied back are the private stack of the coroutine, at the place where it left them |
| Aco.RestoreKeeps | lib/libaco/aco.c:437-476 | copying them back and giving the stack to the coroutine changes nobody else's private stack |
| Aco.WriteKeeps | lib/libaco/aco.c:473-475 | what running code writes to the shared stack reaches its own memory only |
| Aco.Runtime.ShareStackNew | lib/libaco/aco.c:208-287 | the new stack has the layout that the other operations rely on, inside its memory, which has at least the size requested |
| Aco.Runtime.Create | lib/libaco/aco.c:306-361 | is the action of the runs: a new coroutine starts at the top of its stack with nothing of its own |
| Aco.Runtime.Run | lib/libaco/aco.c:473-475 | only the bytes of the running coroutine's stack change, as the action says |
| Aco.Runtime.Read | lib/libaco/aco.c:473-475 | what the running coroutine wrote and has not given up since, it reads back |
| Aco.Runtime.SaveOwner | lib/libaco/aco.c:369-436 | the copying code saves as the runs' function says; its assertions hold |
| Aco.Runtime.Restore | lib/libaco/aco.c:437-470 | the copying code restores as the runs' function says; its assertion holds |
| Aco.Runtime.Resume | lib/libaco/aco.c:364-477 | is the action of the runs; the coroutine finds above its stack pointer exactly the bytes it left there, and no other has moved |
| Aco.Runtime.Yield | lib/libaco/aco.h:190-194 | is the action of the runs: what the coroutine leaves is its private stack, and what is below is given up |
| Aco.Runtime.Exit | lib/libaco/aco.h:210-217 | is the action of the runs: the stack has no owner afterwards; the assertion about it holds |
| Aco.Runtime.Destroy | lib/libaco/aco.c:479-492 | is the action of the runs: the coroutine is gone and owns no stack |
| Aco.WriteThenYield | lib/libaco/aco.h:190-194 | after a write the running coroutine may yield anywhere in the used part of its stack |
| CsvSpec.FeedInPieces | lib/libcsv/libcsv.c:318-467 | parsing in any pieces is parsing the whole |
| CsvSpec.FeedRow | lib/libcsv/libcsv.c:318-467 | a printed row of any bytes is read back field by field |
| CsvSpec.RoundTripIffCompatible | lib/libcsv/libcsv.c:318-467 | all lists of non-empty rows of any bytes, printed with quotes, are read back unchanged, strict or not, if and only if quote, delimiter, row end and blanks do not clash in five named ways |
| CsvSpec.LastRowAtFini | lib/libcsv/libcsv.c:163-203 | a last row without row end is given away by csv_fini, with -1 for its end |
| CsvText.TrimIs | lib/libcsv/libcsv.c:360-386 | an unquoted field loses the blanks at both ends, all of them, and nothing else |
| CsvText.FeedTextRow | lib/libcsv/libcsv.c:357-463 | a row of any fields, in quotes with blanks around them or unquoted, is given away field by field, unquoted ones trimmed, and then its end; a blank line is no row, or an empty one with CSV_REPALL_NL; in strict mode it is refused if and only if a quote is inside an unquoted field, and otherwise such a quote belongs to the field |
| CsvText.FeedFile | lib/libcsv/libcsv.c:318-467 | so for all files of such rows |
| CsvText.BehindClosingQuote | lib/libcsv/libcsv.c:423-460 | text behind a closing quote: refused in strict mode unless it is the delimiter, a row end or a blank, or a second quote at once; otherwise the quote belongs to the field, which goes on |
| CsvText.TextRowAtFini | lib/libcsv/libcsv.c:163-203 | such a row without row end is given away by csv_fini; a blank line is no row |
| CsvText.UnclosedAtFini | lib/libcsv/libcsv.c:174-196 | a quoted field that is not closed is given away by csv_fini, or refused if and only if both strict options are set |
| CsvSpec.QuotedLength | lib/libcsv/libcsv.c:481-516 | a printed field is two and the number of its quotes longer than the field |
| Csv.Parser.IncreaseBuffer | lib/libcsv/libcsv.c:281-316 | a larger buffer with the same contents, by the block size or what SIZE_MAX leaves of it, halved as often as realloc refused; or a status that says why not, with nothing changed |
| Csv.Attempts | lib/libcsv/libcsv.c:301-307 | the sizes asked for are halved each time, and the loop gives up only when realloc has refused even one byte more |
| Csv.Parser.Char | lib/libcsv/libcsv.c:353-463 | the switch on the buffer does what the character function says, and its error leaves the state alone |
| Csv.Parser.Parse | lib/libcsv/libcsv.c:318-467 | the state is the old one fed with the characters taken; it stops short only at a parse error of the next character, or if the buffer has SIZE_MAX bytes, or if realloc refused one byte more |
| Csv.Parser.Finish | lib/libcsv/libcsv.c:163-203 | csv_fini on the buffer, with its error for an unterminated quoted field |
| Csv.Write2 | lib/libcsv/libcsv.c:481-516 | returns n + 2 + number of quotes, saturating, and writes exactly as much of the printed field as fits |
| HashSort.MergeOrders | uthash.h:727-756 | merging two ordered runs gives an ordered run in which equal items keep their order |
| HashSort.PassDoublesRuns | uthash.h:710-767 | a pass turns ordered runs of s items into ordered runs of 2s items |
| HashSort.SortIsStable | uthash.h:700-777 | all passes together give a stable sorted permutation |
| UtHash.UtTable.MergeRuns | uthash.h:727-765 | the merge loop on the links builds the merge of the two runs, though the runs and the new list share their items |
| UtHash.UtTable.Sort | uthash.h:700-777 | terminates with the table's items in the stable order, linked both ways with head and tail right; buckets and chains are untouched, and all that HASH_FSCK checks holds |
| UtHash.UnlinkLinks | uthash.h:212-230 | unlinking any item leaves its neighbours linked both ways, with head and tail right |
| UtHash.PushChained | uthash.h:592-603 | an item put in front of its chain keeps every chain linked, counted and of the right hashes |
| UtHash.DropChained | uthash.h:606-617 | an item taken out of its chain keeps every chain linked, counted and of the right hashes |
| UtHash.CountsAddUp | uthash.h:261-311 | the counts of the buckets add up to the number of items |
| UtHash.IdealIsCeiling | uthash.h:658-660 | the shift and the mask give the number of items per bucket, rounded up |
| UtHash.AllMoved | uthash.h:662-683 | when all chains are walked, the new chains hold exactly the old items |
| UtHash.UtTable.Expand | uthash.h:647-693 | twice the buckets with the same items; the ideal length is the ceiling of items per bucket, nonideal_items the number of items past it |
| UtHash.UtTable.Add | uthash.h:162-185 | the item is the last in application order, and all that HASH_FSCK checks holds; the buckets double exactly if the chain of the item reaches ten times its factor and expansion is not inhibited |
| UtHash.UtTable.Delete | uthash.h:204-237 | exactly that item is gone, and all that HASH_FSCK checks holds |
| UtHash.UtTable.Find | uthash.h:94-105 | finds an item with the key exactly if there is one in the table |
| Lru.Cache.FindInCache | modules/http/old_parser/lru.c:23-35 | gives the value of an entry of the key, exactly if there is one, which becomes the last in recency order; the others keep theirs |
| Lru.Cache.AddToCache | modules/http/old_parser/lru.c:37-56 | for every key, the new entry is the last, the oldest goes if the cache is full, and the cache never holds MAX_CACHE_SIZE entries between calls |
| Lru.KeysOnceAfterAdd | modules/http/old_parser/lru.c:37-56 | each key is still in one entry if and only if the key was not cached, or was in the oldest entry of a full cache |
| Lru.AddedTwice | modules/http/old_parser/lru.c:37-44 | a key added twice to a cache for more than one entry is in two entries |

## Left out

- Permute.Mylog2: for values up to 2^31; above, the source shifts by 32, which C leaves undefined.
- Permute.ScrambleInit: for smax up to 2^31, for the same reason.
- PerfectHash.TryHash: takes its scramble table with scramble[0] = 0 and keys with a below highhash, as the caller provides them. That some perfect hash exists if and only if it succeeds is proved for distinct b with transitive search, where the search is an ordinary matching; for groups of several keys it is false (`GroupsMayBeMissed`), and what failure means is stated instead.
- PerfectHash.Inittab: checkdup, which compares the key strings and ends the program, is not part of the model.
- PerfectHash: the shortcut for fewer than two keys, hash_ab, which retries with other salts, reading keys and writing phash.c and phash.h.
- HexGuns.Inithex: hexone, hextwo, hexeight and hexn; the emitted C text is an expression datatype with an evaluator.
- HatTrie.Hattrie.Get: keys are non-empty with NUL as last byte and nowhere else, as assoc_array.h passes them. For other keys hattrie_get and hattrie_find stop at different places; values on trie nodes, which only such keys reach, are not modelled.
- HatTrie.Hattrie.Set: for those keys.
- HatTrie.Hattrie.TryGet: for those keys.
- HatTrie.Hattrie.Del: for those keys.
- HatTrie.Hattrie: nodes are numbered in a map instead of allocated, the tables of split buckets are not freed.
- HatTrie: hattrie_clear, ahtable_clear (they do not reset the size), saving and loading, iteration by prefix.
- TrieIter.HattrieIter: the trie is not changed during the iteration, as the source demands. It keeps the nodes and packed slots as they are when it begins; an iterator over one bucket is the list of the entries it will give.
- AhIter.QSort: qsort is not part of this repository; a stand-in has the contract that is used of it, that it sorts and permutes.
- AhTable.Table: values are eight bytes; the hash is an unknown function of the key; lengths are little-endian.
- FreeList.CreateMemPool: for up to 2^31 nodes; above, the source shifts by 32.
- FreeList: owners write anything to their own nodes and nobody else writes to free ones, tags do not wrap; clearing the second word of a freed node is not modelled.
- AtomicHash.HashTable: one thread, no expiry, the default hooks, four hash words; sizes of the tables come from floating point in the source and are parameters here; the link of a free node, which lies in the bytes of its hash, is the subject of FreeList; statistics.
- Lfq: malloc does not fail.
- Dispatch: polling, accepting and reading are left out, an event is any input; a closed descriptor yields no more events; the process function runs as touches of the hook that neither free nor unreference it, and once set it stays set.
- Aco.Runtime.ShareStackNew: for requests up to 2^62 bytes and pages up to 2^60; the source guards larger ones with assertions against overflow.
- Aco.Runtime: registers other than the stack pointer, the switch itself, the FPU words, valgrind, and the memory calls (aco_share_stack_destroy just takes the stack away); resume is called by the main coroutine only; code that runs stays in the used part of its stack; the memory below the stack pointer of a resumed coroutine is whatever others left there.
- Csv.Parser: both callbacks are given; their calls are recorded. csv_fwrite2 prints the same characters one by one.
- UtHash.UtTable.Sort: the run size is unbounded; it is at most twice the number of items.
- UtHash.UtTable: bloom filters, HASH_SELECT, the table pointer in each item; the hash function is an unknown function of the key.
- Lru.Cache.FindInCache: of several entries of one key, which one is found depends on the bucket's chain and is left open.
- Sockets, modules, scripting, image code and generated parsers: input, output and foreign calls, or tables.
