# A verified model of plcstub

plcstub is a stand-in for a PLC library: tags are kept in a tree by number, read and
written through typed accessors, and listed by a special tag named "@tags". This
project models its core in Dafny and proves what it is meant to do.

| module | what it models |
|---|---|
| `RankTrees`, `Rebalance`, `SortedTrees`, `Bounds` | rank-balanced (weak AVL) trees as values, with the two rebalancing loops as functions, their correctness, cost and height |
| `Links`, `RbTrees` | the same tree as linked nodes with parent links, changed in place by every `RB_*` function; each method is proved to do to the links what the function does to the value |
| `Runs`, `LinkedRuns` | whole runs of insertions and removals against a plain map, on values and on links |
| `RedBits` | the two bits packed into the parent word |
| `SplaySpec`, `SplayCost`, `SplayLinks`, `SplayTrees` | the top-down splay tree, as values, what it costs, and as links |
| `Types`, `Bytes`, `Metatag` | tag types and sizes, little-endian fields, the byte layout of the "@tags" listing |
| `Registry` | ids, cached listing and counter as a state machine over every run |
| `TagIds` | which runs keep ids within an int, and what follows when one does not fit |
| `TagPayload`, `TagTrees` | `tagtree.c` on the linked tree; each method refines the registry operation |
| `InitProtocol` | its locking: any number of threads, lazy double-checked initialisation, reader/writer lock, the tags' own mutexes |
| `TagLocks` | when those mutexes block the tree's lock for good, and how callers avoid it |
| `SoloCalls` | what a call comes to when no other thread moves |
| `Access` | typed accessors on a tag's buffer, transfers and callbacks |
| `Calls` | a whole accessor call, lookup and access, on the tag tree |
| `Events` | accesses, byte by byte, and callback events under the per-tag mutex in every interleaving |

How the parts fit: `RbTrees.RbTree` holds a ghost tree that its links spell. `Rebalance`
and `SortedTrees` say what each operation makes of that tree and prove the rank rule,
order and contents; `Bounds` and `Runs` sum up cost over runs. `TagTrees.TagTree` is
built on that class and tied to `Registry`, whose invariants hold over all runs;
`InitProtocol` shows that every interleaving of threads is such a run. `Calls` puts the
accessors of `Access` on that tree; `Events` shows that what they do to a buffer is the same
in every interleaving as one after the other.

Where the code and its words differ, the model follows the code:

- `include/sys/tree.h` gives null the rank -1 and a leaf the rank 1, which leaves a leaf
  with differences of 2 and so with red bits. The code clears a leaf's bits, so null has
  rank 0 here.
- `libplctag.h` says that registering a second callback returns DUPLICATE, that
  unregistering none returns NOT_FOUND, and that callbacks run outside the tag's mutex.
  The code replaces the callback, returns OK, and holds the mutex during callbacks.
- A removed tag stays in a cached "@tags" listing; only a create or an insertion of
  "@tags" replaces the listing.
- An array access past the end returns after the STARTED event with no closing event.
  `Events.LossesCounted` states exactly when logs are whole, `Events.WithinWhole` what callers
  do for it, `Events.LostBracket` gives a run.
- A tag's mutex is taken with the tree's write lock in hand when the tag is removed, and the
  metatag's when a cached listing is dropped, while `plc_tag_unlock` must get at the tree
  before it can give a mutex back. So removing a tag that another thread has locked, or
  creating any tag while "@tags" is locked, stops every thread for good:
  `TagLocks.RemoveDeadlock` and `TagLocks.CreateDeadlock` give the runs,
  `TagLocks.LockComesFree` says exactly when it happens, `TagLocks.GuardedFree` what callers
  check to avoid it.

- A new tag's id is one more than the greatest, in an `int`, and ids are not used again when
  tags go. So a program that creates and removes a tag over and over runs out of ids however
  few tags it keeps (`TagIds.ChurnRun`). Runs of up to 2^31 - 12 operations never do, longer
  ones can (`TagIds.RunBound`). Past that the addition overflows, which C leaves undefined;
  if it wraps, the second tag created has an id that is taken and never gets into the tree
  (`TagIds.WrappedClash`).

Assumptions the properties rest on: allocation succeeds; node addresses are multiples of
four; ids and element offsets fit an int (`TagIds.RunBound` and `Access.OffsetExact` say
exactly when they do); offsets are not negative; no tag is removed between a thread's lookup of it
and its use of it (the code then uses freed memory); only the holder of a tag's mutex
unlocks it; callbacks call no tag function; a tag's type is not `TAG_ERROR` (the code exits
on it).

## Model

| member | source | states |
|---|---|---|
| `RankTrees.PlugBalanced` | include/sys/tree.h:53-63 | A tree with a subtree put into a hole satisfies the rank rule (differences 1 or 2, equal sums on all paths, no red leaf) if and only if the subtree does and the path to the hole agrees with its rank. |
| `RankTrees.PlugInOrder` | include/sys/tree.h:53-63 | What a path of parent links leaves before and after the hole, with the subtree between, is the in-order sequence of the whole tree. |
| `RankTrees.RankPositive` | include/sys/tree.h:53-63 | Null has rank 0 and no other tree has. |
| `Rebalance.RotationNeedsOneRed` | include/sys/tree.h:479-487 | When the insert loop stops at a rotation the node has exactly one red bit and its other child is not (2,2): a fresh leaf never rotates first, and the `else if` at 484 and 504 loses no case. |
| `Rebalance.InsertColorBalanced` | include/sys/tree.h:463-513 | The whole insert loop, every promotion and all four rotations, turns a tree whose rank is one too large at the hole into a tree that satisfies the rank rule. |
| `Rebalance.InsertColorInOrder` | include/sys/tree.h:463-513 | The insert loop keeps the in-order sequence. |
| `Rebalance.PromotionStep` | include/sys/tree.h:474-478 | One promotion hands the parent the loop's own precondition. |
| `Rebalance.RemoveColorBalanced` | include/sys/tree.h:529-593 | The whole remove loop, both demotions and all rotations, turns a tree whose rank is one too small at the hole into a tree that satisfies the rank rule. |
| `Rebalance.RemoveColorInOrder` | include/sys/tree.h:529-593 | The remove loop keeps the in-order sequence. |
| `Rebalance.DemotionStep` | include/sys/tree.h:535-545 | One demotion of either kind hands the parent the loop's own precondition. |
| `Rebalance.CloseCorrect` | include/sys/tree.h:515-593 | The same with the step in front of the loop, by which a parent left without children becomes a leaf. |
| `Rebalance.RemoveAtCorrect` | include/sys/tree.h:595-635 | Taking out the node at any place (no child, one child, a near or a deep successor) leaves a tree that satisfies the rank rule, with the in-order sequence less that node; no key is compared. |
| `SortedTrees.InsertCorrect` | include/sys/tree.h:637-669 | Inserting into a valid tree gives a valid tree whose sequence is the sorted insertion into the old one. |
| `SortedTrees.InsertedSorted` | include/sys/tree.h:637-669 | The tree stays ordered by key as well. |
| `SortedTrees.InsertSortedKeys` | include/sys/tree.h:637-669 | The reference insertion adds the key and no other. |
| `SortedTrees.RemoveCorrect` | include/sys/tree.h:595-635 | Removing a node gives a valid tree with the old sequence less that node, whether or not the keys were in order. |
| `SortedTrees.SearchFinds` | include/sys/tree.h:674-688 | The walk down from the root ends on a node exactly when the key is in the tree. |
| `SortedTrees.SearchBounds` | include/sys/tree.h:674-688 | Everything before the place where the walk stands is below the key, everything after it above. |
| `SortedTrees.SearchCut` | include/sys/tree.h:646-655 | A walk that ends on nothing cuts the sequence at the key. |
| `SortedTrees.LeastAbove` | include/sys/tree.h:693-710 | Where the walk stops decides the least key not below the query. |
| `SortedTrees.BetweenNeighbours` | include/sys/tree.h:779-782 | The comparison with the two neighbours decides whether a node whose key changed is in its place. |
| `SortedTrees.RekeyWithout` | include/sys/tree.h:776-788 | Writing one node's key changes no other part of the sequence. |
| `Bounds.HeightBound` | include/sys/tree.h:70 | 2^h <= (n + 1)^2 for every tree that satisfies the rank rule, the header's 2 lg (n + 1). |
| `Bounds.InsertWithinHeight` | include/sys/tree.h:463-513 | The insert loop goes on at most as often as the tree is high. |
| `Bounds.RemoveWithinHeight` | include/sys/tree.h:515-593 | The remove loop goes on at most as often as the tree is high. |
| `Bounds.InsertColorPhi` | include/sys/tree.h:475-478 | Each promotion pays for itself: the work of the loop and the potential after it exceed the potential before it by at most 2. |
| `Bounds.RemoveColorPhi` | include/sys/tree.h:535-545 | The same for demotions, with at most 3. |
| `Bounds.InsertCost` | include/sys/tree.h:637-669 | Work plus potential of one insertion: at most 3 more than before. |
| `Bounds.RemoveCost` | include/sys/tree.h:595-635 | Work plus potential of one removal: at most 3 more than before. |
| `Bounds.InsertKeepsAvl` | include/sys/tree.h:463-513 | With no (2,2) node before an insertion there is none after. |
| `Bounds.No22IsAvl` | include/sys/tree.h:59-63 | Without (2,2) nodes the rank is the height and sibling heights differ by at most 1. |
| `Runs.RunCorrect` | include/sys/tree.h:595-669 | After any legal run from the empty tree the tree is valid, lists exactly the pairs of a plain map under the same operations, and all promotions and demotions together with the potential are at most three an operation. |
| `Runs.TotalWork` | include/sys/tree.h:463-593 | At most 3 (i + d) promotions and demotions in a run of i insertions and d removals. |
| `Runs.RunHeight` | include/sys/tree.h:69-70 | The height after any run is at most 2 lg (n + 1) for the n nodes the map holds. |
| `Runs.RunFinds` | include/sys/tree.h:674-688 | After any run the search ends on the very node the map holds for the key, and on nothing otherwise. |
| `Runs.RunKeys` | include/sys/tree.h:674-710 | The keys in the tree are those inserted and not removed. |
| `Runs.InsertOnlyAvl` | include/sys/tree.h:463-513 | Runs of insertions alone stay AVL. |
| `LinkedRuns.Replay` | include/sys/tree.h:595-669 | Any legal run on the linked tree ends with links that spell the tree of the pure run, node for node, after exactly its work. |
| `LinkedRuns.ThereAndBack` | include/sys/tree.h:712-756 | Next then previous, and previous then next, come back to the node, away from the ends. |
| `Links.TurnLeftSplit` | include/sys/tree.h:382-392 | The assignments of a left rotation, seen on the store, turn the model's subtree and nothing else; the focus on it stays. |
| `Links.TurnRightSplit` | include/sys/tree.h:394-404 | The same for a right rotation, carried over by exchanging left and right. |
| `Links.CutSplit` | include/sys/tree.h:608-627 | The assignments that take out a node with two children, near or far successor, cut it out of the model. |
| `Links.SpliceSplit` | include/sys/tree.h:604-607 | The assignments that take out a node with at most one child cut it out of the model. |
| `Links.LinkSplit` | include/sys/tree.h:656-662 | Hanging a fresh node on its parent puts a single leaf into the empty place. |
| `Links.WholeEntries` | include/sys/tree.h:326-348 | The nodes of the store and the entries of the sequence are the same, each under its own key. |
| `Links.RekeySub` | include/sys/tree.h:776-788 | Writing a key in memory is changing it in the model. |
| `RbTrees.RbTree.InsertColor` | include/sys/tree.h:463-513 | The loop over moving pointers does to the links what the pure loop does to the tree, and counts its promotions. |
| `RbTrees.RbTree.RemoveLoop` | include/sys/tree.h:529-592 | The same for the remove loop and its demotions. |
| `RbTrees.RbTree.RemoveColor` | include/sys/tree.h:515-593 | The same with the leading unary-to-leaf step. |
| `RbTrees.RbTree.Remove` | include/sys/tree.h:595-635 | From any tree with a valid shape, the node's removal leaves parent and child links that spell a valid tree of the other nodes in the old order, and returns the node. |
| `RbTrees.RbTree.Insert` | include/sys/tree.h:637-669 | A fresh key: a valid tree with the node added, null returned. A present key: the node that has it is returned and no link changes. |
| `RbTrees.RbTree.Find` | include/sys/tree.h:671-688 | The node with the key, or null exactly when there is none, within as many steps as the tree is high. |
| `RbTrees.RbTree.NFind` | include/sys/tree.h:690-710 | The node with the least key not below the query, or null when all keys are below. |
| `RbTrees.RbTree.MinMax` | include/sys/tree.h:758-772 | The least node for a negative argument, the greatest otherwise, null exactly for the empty tree. |
| `RbTrees.RbTree.Next` | include/sys/tree.h:712-733 | The next node in order, by parent and child links alone. |
| `RbTrees.RbTree.Prev` | include/sys/tree.h:735-756 | The previous node in order. |
| `RbTrees.RbTree.Visit` | include/sys/tree.h:803-806 | RB_FOREACH visits exactly the nodes of the tree, each once, in strictly ascending order of keys, and ends. |
| `RbTrees.RbTree.SetKey` | include/sys/tree.h:774-788 | The caller's change of a key, which leaves shape and the other nodes alone. |
| `RbTrees.RbTree.Reinsert` | include/sys/tree.h:774-788 | After an arbitrary change of one key the tree is valid and ordered again, with that node if its key is new, and without it and with the clashing node returned if not. |
| `RbTrees.RbTree.RotateLeft` | include/sys/tree.h:382-392 | Which links a left rotation writes. |
| `RbTrees.RbTree.Attach` | include/sys/tree.h:355-358 | RB_SET: a fresh node has no children, its parent, and clear bits. |
| `RedBits.Unpacked` | include/sys/tree.h:336-348 | Parent address and the two bits are read back from the packed word. |
| `RedBits.Repacked` | include/sys/tree.h:336-348 | Every word is the packing of its parts. |
| `RedBits.ParentSet` | include/sys/tree.h:350-353 | Setting the parent keeps the two bits. |
| `RedBits.Flipped` | include/sys/tree.h:341-342 | Flipping one bit keeps the parent and the other bit. |
| `SplaySpec.SplayListed` | include/sys/tree.h:218-251 | The splaying loop keeps the in-order sequence. |
| `SplaySpec.SplayCorrect` | include/sys/tree.h:218-251 | A non-empty tree splayed for a key has that key at its root if it is present, else a neighbour of its place, and the same sequence. |
| `SplaySpec.SplayInsertCorrect` | include/sys/tree.h:173-195 | SPLAY_INSERT is sorted insertion, and leaves the sequence alone for a present key. |
| `SplaySpec.SplayBeyond` | include/sys/tree.h:209-211 | Splaying the left part for a key above it brings its greatest node up, with no right child to lose. |
| `SplaySpec.SplayRemoveCorrect` | include/sys/tree.h:197-216 | SPLAY_REMOVE takes out exactly the entry with the key. |
| `SplayCost.SplayTurns` | include/sys/tree.h:218-251 | Turns of the loop plus twice the potential (the sum of the subtrees' logarithms) rise by at most 6 lg n + 1 in one splay, simplified zig-zag and all. |
| `SplayCost.AccessCost` | include/sys/tree.h:136-216 | The same for any find, insertion or removal, with 12 lg (n + 1) + 2. |
| `SplayCost.RunTurns` | include/sys/tree.h:49-51 | Any m operations with n insertions, from the empty tree, take O(m lg n) turns in all. |
| `SplayCost.LoopParts` | include/sys/tree.h:227-250 | The result of the loop is the two side trees completed with what it would make of the middle tree alone. |
| `SplayTrees.SplayTree.Splay` | include/sys/tree.h:218-251 | The relinking loop, with the two side trees on the stack node, does to the links what the pure loop does to the tree, in as many turns. |
| `SplayTrees.SplayTree.Insert` | include/sys/tree.h:173-195 | The linked insertion is the pure one; a present key returns the node that has it. |
| `SplayTrees.SplayTree.Find` | include/sys/tree.h:136-146 | The node with the key, now the root, or null exactly when there is none; the sequence stays. |
| `SplayTrees.SplayTree.Remove` | include/sys/tree.h:197-216 | The linked removal is the pure one. It returns the argument, which need not be the node taken out. |
| `Types.SizeBound` | src/types.c:138-171 | A size is at most 8 * 65535^depth. |
| `Types.ShallowSizeFits` | src/types.c:138-171 | Up to three levels of nesting no size wraps a 64-bit size_t. |
| `Types.DeepSizeWraps` | src/types.c:138-171 | A four-level array of long integers does wrap. |
| `Types.TypeSizeBytes` | src/types.c:138-171 | The recursive computation in size_t gives the unbounded size modulo 2^64. |
| `Types.TestedSizes` | test/06-types.c:48-62 | The sizes that the test expects of the six simple types, two arrays and a struct. |
| `Types.SizeOfAtoms` | src/types.c:138-171 | A type takes the bytes of its elementary values, counted one by one in the order of its layout, and no others. |
| `Bytes.FromLeLe` | include/plcstub.h:15-22 | A number that fits its little-endian field is read back. |
| `Bytes.LeFromLe` | include/plcstub.h:15-22 | Every field is the encoding of the number read from it. |
| `Bytes.LeDigit` | include/plcstub.h:15-22 | Byte i of a field is the number's digit i to the base 256: the lowest first. |
| `Bytes.StoredByte` | src/plcstub.c:54-68 | A write puts those digits at its place and leaves every other byte. |
| `Bytes.LoadStored` | src/plcstub.c:34-68 | What was just written is read back, modulo the accessor's width. |
| `Bytes.LoadElsewhere` | src/plcstub.c:34-68 | A write leaves every disjoint place alone. |
| `Metatag.WrittenFits` | src/tagtree.c:209-268 | The bytes written never exceed the bytes summed up, for names of any length, and are as many if and only if every name is under 65536 bytes. |
| `Metatag.ParseRecord` | src/tagtree.c:247-267 | One written record reads back as its row, and leaves the rest. |
| `Metatag.ParseSerialize` | src/tagtree.c:245-268 | Reading the buffer record by record gives a row for every tag, in order: its id, its element size modulo 2^16, its length as the first dimension if it is an array and 0 if not, two more dimensions of 0, and its name, cut modulo 2^16. |
| `Metatag.NameKept` | src/tagtree.c:264-265 | The listed name is the whole name if and only if its length fits 16 bits. |
| `TagIds.RunGood` | src/tagtree.c:104-381 | In every reachable state ids ascend from 2, the cached listing is coherent, and nodes are tree_size plus builds modulo 2^64; after up to 2^31 - 12 operations all live and listed ids fit an int, so that the ids are the source's own. |
| `Registry.FreshIds` | src/tagtree.c:121-127 | A new tag's id exceeds every live id, is not 1, is at most one more than the number of creates and twelve more than the operations before, and drops the cache, so that no id in a listing is ever used again while it is cached; an int holds it if and only if it is below 2^31. |
| `TagIds.RunBound` | src/tagtree.c:121-127 | All ids of all runs of up to m operations fit an int if and only if m is at most 2^31 - 12. |
| `TagIds.ChurnRun` | src/tagtree.c:121-127 | Every id from 12 on is the next one of a run in which no more than eleven tags are ever live. |
| `TagIds.FreshExact` | src/tagtree.c:126 | While the live ids fit, the id narrowed to an int comes after all of them if and only if it does not overflow. |
| `TagIds.WrappedClash` | src/tagtree.c:121-156 | With the id 2^31 - 1 in the tree, an addition that wraps puts the next tag in front, leaves the greatest id as it is, and gives the tag after that the same id, which RB_INSERT turns away. |
| `Registry.CacheCoherence` | src/tagtree.c:159-166 | Listed ids outside those removed since the build are exactly the live tags, record for record, and the extra ones are exactly the removed. |
| `Registry.CachedBytes` | src/tagtree.c:241-268 | The cached bytes fit their buffer; they parse to the listing in every run of at most 2^31 - 12 operations whose inserted types are well formed. |
| `Registry.PlayTyped` | src/tagtree.c:121-172 | In every run every live or listed id is at most one more than the creates, of which there are at most ten more than operations; if the inserted types are well formed, so are all. |
| `Registry.BuildRoom` | src/tagtree.c:209-221 | The unwritten rest of a new listing is 27 bytes if an old metatag was there when sizes were summed, none otherwise, if and only if all names are under 65536 bytes. |
| `Registry.StepGood` | src/tagtree.c:280-381 | Every operation keeps the invariant. |
| `Registry.InsertEffect` | src/tagtree.c:282-307 | An insertion appends one record with the name, the type and the id it returns, and drops the listing; "@tags" returns 1, leaves the tags alone and makes a new listing of all of them, even if one was cached. |
| `Registry.RemoveEffect` | src/tagtree.c:309-347 | A removal takes out the record with the id and no other, keeps a cached listing, and returns OK if and only if there was one or the id is 1, for which it does nothing. |
| `Registry.LookupEffect` | src/tagtree.c:354-382 | A lookup changes no tag, and the listing only for id 1 when none is cached, when it makes one of all tags. |
| `Registry.InitEffect` | tags.inc:11-20 | The first call makes ten tags DUMMY_AQUA_DATA_0 to DUMMY_AQUA_DATA_9 of type INT with the ids 2 to 11; later ones make none. |
| `Registry.OutsideOne` | src/tagtree.c:331-337 | Leaving out one live id removes exactly one record. |
| `TagTrees.SumSizes` | src/tagtree.c:209-212 | The summing loop over RB_FOREACH asks for 22 bytes and the name of every node, an old metatag included. |
| `TagTrees.PutRecord` | src/tagtree.c:247-267 | One round's assignments append exactly one record's bytes to the buffer. |
| `TagTrees.Fill` | src/tagtree.c:245-268 | The filling loop writes exactly the serialisation of the ordinary tags, within the buffer. |
| `TagTrees.FreeId` | src/tagtree.c:121-127 | RB_MAX plus one, or 2, is the registry's next id in empty, metatag-only and general trees. |
| `TagTrees.TagTree.NodeCreate` | src/tagtree.c:106-172 | The tree, the counter, the buffers and the dropped metatag are the registry's; the node is new, with its id, its name, its type and a buffer of its own, at least a word long and filled with 0x42. |
| `TagTrees.UntouchedBytes` | src/tagtree.c:114-153 | That buffer is 8 bytes or the type's size, whichever is more, and every byte of it is 0x42. |
| `TagTrees.TagTree.DefineScalar` | src/tagtree.c:88-94 | The macro creates the tag and puts the value into its first byte. |
| `TagTrees.TagTree.MetanodeCreate` | src/tagtree.c:203-275 | The same for the metatag, whose buffer starts with the serialisation of all ordinary tags. |
| `TagTrees.TagTree.DropMetatag` | src/tagtree.c:159-166 | Exactly the node with id 1 goes, if there is one, and the counter with it. |
| `TagTrees.TagTree.Init` | src/tagtree.c:61-100 | Ten built-in tags on the first call, with their numbers in their first bytes, nothing on any other. |
| `TagTrees.TagTree.Insert` | src/tagtree.c:282-307 | Tree and answer are those of the registry operation. |
| `TagTrees.TagTree.Remove` | src/tagtree.c:309-347 | Tree and status are those of the registry operation; OK if and only if the id was live or is 1, which is accepted and kept. |
| `TagTrees.TagTree.Lookup` | src/tagtree.c:354-382 | The node with the id, null exactly when it is not live; the tag tree is the registry's after a lookup, buffers included, so for id 1 the node's buffer starts with the listing cached there, a new one if none was. |
| `TagTrees.Replay` | src/tagtree.c:282-382 | Any run of the three operations on an empty linked tree ends as the registry's run does: nodes, counter, flag, and a buffer for every node that no other has, as large as its type asks for or starting with the cached bytes. |
| `TagTrees.LiveNodes` | src/tagtree.c:324-331 | The ids that nodes carry are the registry's live ids and, if cached, the metatag's. |
| `TagTrees.TagTree.NodesCounted` | src/tagtree.c:156-166 | While ids fit an int, the number of nodes in the tree is tree_size plus the metatags built, modulo 2^64. |
| `InitProtocol.RunInv` | src/tagtree.c:61-100 | Every interleaving of any number of threads keeps the protocol's invariant. |
| `InitProtocol.Exclusion` | src/tagtree.c:67-76 | A thread with the write lock excludes every other lock. |
| `InitProtocol.OnlyTheWriter` | src/tagtree.c:362-379 | The tree is changed only by the thread with the write lock, the refresh inside lookup included. |
| `InitProtocol.InitOnce` | src/tagtree.c:61-100 | At most ten built-in tags are ever inserted, and no thread is out of tag_tree_init before all ten are. |
| `InitProtocol.Linearizable` | src/tagtree.c:282-382 | Whenever no writer is half way, the registry is the one the logged operations give when run one after the other, and every operation answered what it answers then; so the registry's invariant holds in every interleaving. |
| `InitProtocol.ProgramOrder` | src/tagtree.c:282-382 | The log has each call of a thread once, in the thread's own order, all but a call that has not taken effect: so each is logged between its start and its return. |
| `TagLocks.RunMutexes` | src/plcstub.c:402-432 | In every interleaving a held mutex belongs to a node that is in the tree, and whoever is about to unlock one holds it. |
| `TagLocks.LockComesFree` | src/tagtree.c:322-339 | The tree's lock can come free again if and only if no thread, with the write lock in hand, is removing a tag or dropping a cached metatag on which a plc_tag_lock is outstanding. |
| `TagLocks.BlockedRun` | src/tagtree.c:322-339 | Once it cannot, no call that is at the tree ever gets past it, and no operation takes effect any more. |
| `TagLocks.SomeoneGoes` | src/tagtree.c:61-100 | Otherwise, while some thread is in a call that does not wait for a held tag mutex, some thread can go on. |
| `TagLocks.GuardedFree` | src/plcstub.c:402-432 | Callers that do not remove a tag that is locked or being locked, nor insert while "@tags" is, nor lock either while such a call is under way, never block the tree's lock. |
| `TagLocks.RemoveDeadlock` | src/tagtree.c:322-336 | A run in which one thread has locked a built-in tag, another removes it, and neither ever goes on. |
| `TagLocks.CreateDeadlock` | src/tagtree.c:159-183 | A run in which one thread has locked "@tags", another creates a tag, and neither ever goes on. |
| `SoloCalls.OperationAlone` | src/tagtree.c:282-382 | An insertion, removal or lookup that no other thread disturbs, and that meets no held mutex that it must take, returns with all locks free and the registry, the log and the answer of the sequential operation. |
| `SoloCalls.LockAlone` | src/plcstub.c:402-416 | plc_tag_lock on a live tag whose mutex is free ends with the caller holding it. |
| `SoloCalls.UnlockAlone` | src/plcstub.c:418-432 | plc_tag_unlock by the holder ends with the mutex free. |
| `SoloCalls.TouchAlone` | src/plcstub.c:84-140 | An accessor takes the tag's mutex after the lookup and gives it back. |
| `SoloCalls.MissingAlone` | src/plcstub.c:402-432 | On a tag that does not exist each of them returns after the lookup and touches no mutex. |
| `InitProtocol.AloneOn` | src/tagtree.c:282-382 | The half-done states of a writer add up to the sequential operation. |
| `Access.GetImpl` | src/plcstub.c:84-140 | Status, value and events of a read: OK with the bytes at the element's offset if the offset is an index of the array, or 0 on anything else; BAD_PARAM at any other offset, NOT_FOUND without a tag. |
| `Access.SetImpl` | src/plcstub.c:142-198 | The same for a write, which changes only the element's bytes, and none on an error. |
| `Access.Getter` | src/plcstub.c:34-53 | A generated getter returns the value, or the status cast to its own type: modulo the width for integers, the number's pattern for float and double. |
| `Access.FailedIsStatus` | src/plcstub.c:48-50 | Those patterns do denote -7 and -19, as a signed integer of any width, as a float of 4 bytes and as a double of 8. |
| `Access.ReportsByPlace` | src/plcstub.c:99-138 | An access reports STARTED and then COMPLETED of its kind where it succeeds, ABORTED with BAD_PARAM past a scalar's place, and nothing more past an array's end. |
| `Access.Transfer` | src/plcstub.c:438-466 | plc_tag_read and plc_tag_write: BAD_PARAM for a negative timeout whatever the tag, NOT_FOUND without a tag, else OK with STARTED and COMPLETED to the callback if there is one. |
| `Access.Register` | src/plcstub.c:469-485 | Registering puts the callback in whatever was there before. |
| `Access.ErrorLooksStored` | src/plcstub.c:28-53 | At every accessor some stored value reads exactly like an error: a getter's result cannot tell them apart. |
| `Access.ListingReadable` | src/tagtree.c:238-240 | Every byte of the listing can be read through tag 1 if and only if there are fewer than 65536 of them. |
| `Calls.WideListing` | src/tagtree.c:209-240 | Inserting one tag with a name of 65536 bytes makes a listing with too many. |
| `Access.OffsetExact` | src/plcstub.c:127 | The byte offset is the true one if and only if it is below 2^31, and in any case the int that differs from it by a multiple of 2^32. |
| `Access.ArrayWithin` | src/plcstub.c:119-130 | Below 2^31 bytes, an accessor no wider than the member stays in the buffer at every index. |
| `Access.WideWithin` | src/plcstub.c:119-130 | A wider accessor does so at every index if and only if it does at the last. |
| `Access.ScalarWithin` | src/tagtree.c:114-119 | The reserved word has room for every accessor of up to eight bytes at a scalar's only offset. |
| `Access.CellRoundTrip` | src/plcstub.c:34-68 | get(i) after set(i, v) is v modulo the width, get(j) for another j is what it was: for arrays at every index and up to the member's width, for anything else at 0 and up to eight bytes. |
| `Access.SetThenGet` | src/plcstub.c:142-198 | The same on a tag's own buffer, through the accessors. |
| `Access.SetThenGetScalar` | src/plcstub.c:107-117 | On anything but an array a set at offset 0 succeeds and is read back, and a set at any other offset is turned away and changes nothing. |
| `Calls.Get` | src/plcstub.c:41-53 | A whole getter call, by id, in any state of the tag tree: the lookup's node, its value or status, and a tag tree that is the registry's after the lookup. |
| `Calls.SetFrom` | src/plcstub.c:142-198 | A set changes the element in its own tag's buffer and no other tag's, and the tag tree goes on modelling the same registry state, its cached listing included. |
| `Calls.RoundTrip` | src/plcstub.c:34-68 | get, set and get by id on any live tag: what was set is read back at its place, any other index of an array reads as before. |
| `Calls.ReadListing` | src/tagtree.c:362-379 | Reading "@tags" byte by byte through its tag gives the cached bytes below the array's 16-bit length, and the error past it. |
| `Calls.ListTags` | src/tagtree.c:203-275 | From end to end: after any run of fewer than 2^31 - 12 operations with well-formed types, the bytes read, if there are fewer than 65536, parse to one row for each listed tag in order, which shows its id, size, dimension and name, and the live tags are the listed ones but for those removed since. |
| `Calls.GetField` | test/04-metatag_lookup.c:29-48 | A wider accessor on "@tags" reads the field of the listing that starts at its index. |
| `Calls.TestedListing` | test/04-metatag_lookup.c:12-70 | The test's own calls on a fresh library: transfer OK, first id 2, element size 2, dimension 0, name length 17, BAD_PARAM at 1000, and 12 for the tag created then. |
| `Calls.BuiltinValue` | tags.inc:11-20 | After the first call a one-byte get of built-in tag i gives i. |
| `Calls.TransferTo` | src/plcstub.c:438-466 | plc_tag_read and plc_tag_write by id: no lookup with a negative timeout, else OK exactly for live ids and 1. |
| `Events.RunInv` | src/plcstub.c:84-198 | Every interleaving keeps the logs, the buffers and the mutexes in order. |
| `Events.Serial` | src/plcstub.c:97-138 | In every interleaving each access that ended moved the bytes it would have moved had the accesses run one after the other in the order they ended, and between accesses the buffer is what that order makes of it. |
| `Events.GetsLatest` | src/plcstub.c:34-68 | In every interleaving a get of an array's element, or of a scalar, returns the value that the last set of it to end had stored, if in the same width, or the initial one if there was none: no torn value and no stale one. |
| `Events.DoneGrows` | src/plcstub.c:97-138 | An access that ended by some time comes in that order before every one that ends later. |
| `Events.Undisturbed` | src/plcstub.c:84-198 | The steps of a call that no other thread disturbs do to buffer and log what `Access.SetImpl` and `Access.GetImpl` say, with the same reports. |
| `Events.TransferAlone` | src/plcstub.c:438-466 | plc_tag_read or plc_tag_write that no other thread disturbs adds STARTED and COMPLETED of its kind to the log, to the registered callback, and changes nothing else; without a callback, or with a negative timeout, it changes nothing at all. |
| `Events.Registered` | src/plcstub.c:469-485 | Registering, undisturbed, changes the callback and nothing else. |
| `Events.LockUnlock` | src/plcstub.c:402-432 | plc_tag_lock of a free mutex leaves it with the caller, plc_tag_unlock by the holder frees it, and neither changes anything else. |
| `Events.Waits` | src/plcstub.c:97 | A thread that wants a held mutex waits, and changes nothing. |
| `Events.WithinWhole` | src/plcstub.c:99-138 | If no call of a run reaches past the end of a tag's array, then, in every interleaving and whenever no thread is inside a bracket on the tag, its log is a sequence of whole brackets: STARTED and one matching COMPLETED or ABORTED to the same callback. |
| `Events.LossesCounted` | src/plcstub.c:119-126 | Outside a bracket the log is whole if and only if no call past the end came to its end while a callback was registered. |
| `Events.Brackets` | src/plcstub.c:99-138 | In every interleaving each closing event closes the event before it, and, while no thread is inside a bracket on the tag, the STARTED events left open are as many as the model's count of accesses past the end; so the log is whole if and only if there were none. |
| `Events.LostBracket` | src/plcstub.c:121-126 | One read past the end of an array leaves a STARTED that nothing closes. |
| `Events.ReportsWhole` | src/plcstub.c:99-138 | A single call reports a whole bracket if and only if it does not reach past the end of an array. |
| `Events.WholeScan` | src/plcstub.c:99-138 | Whole brackets, and reading a log from the left with nothing amiss and nothing open, are the same. |
| `Events.OnlyTheOwner` | src/plcstub.c:480-482 | A tag's buffer, callback and log change only in a step of the thread with its mutex. |

## Left out

- Debug logging, `plc_tag_decode_error`, the version check, `plc_tag_status` and `type_str`: tables and constants.
- `plc_tag_create`: attribute parsing; the model starts at `tag_tree_insert`.
- `plc_tag_get_size`: it returns a pointer cast to int.
- `malloc`, `free`, mutex creation and destruction, `tag_tree_node_destroy`, and the allocation sizes inside `type_dup`: memory is allocated and never freed here, and a type is a value that copying leaves the same.
- `SPLAY_NEXT`, `SPLAY_MIN_MAX` and the `FOREACH_SAFE`, `FOREACH_FROM` and reverse loops: easy beside what is proved.
- `RB_AUGMENT`: it does nothing here.
- The packing of the two bits into the parent pointer: `RbTrees` uses two booleans, `RedBits` shows the packed word behaves as them.
- Floating-point values that are stored: four- and eight-byte patterns.
- Negative offsets and accesses wider than the buffer: the code checks neither, so they are preconditions of the accessors.
- The other bytes of a built-in tag's buffer keep their 0x42, so a read wider than one byte does not return its number; `Calls.BuiltinValue` reads one byte.
- A set on the "@tags" tag: it overwrites the cached bytes in place, after which `Registry.CachedBytes` and `TagTrees.Replay` speak of what was written at the build, not of the buffer.
- Calls.RoundTrip: not on the very first call of all, which creates the built-in tags; `Calls.Get` covers that one.
- Sums of name lengths beyond 2^64: not reachable in memory, not modelled.
- Registry.FreshIds: ids are counted without a bound; past 2^31 - 1 the C code's addition is undefined, and what is proved of ids there is `TagIds.FreshExact` and `TagIds.WrappedClash`.
- InitProtocol.Linearizable: the body of an operation under the write lock is at most two steps, not one step an assignment; no other thread can look in between.
- The mutex of a node that is not, or no longer, in the tree (a new tag's at its creation, a removed tag's at its destruction): no other thread can reach it, given that no tag is removed between lookup and use.
- Events.Brackets: the mutex of a thread that calls `plc_tag_lock` twice, or an accessor on a tag it has locked, never comes free; such a thread waits for ever in the model as in the code.
