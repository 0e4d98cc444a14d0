# A verified model of the LMDB 0.9.14 storage engine

`LegacyDatabase/mdb.c` and `LegacyDatabase/midl.c` hold a copy of LMDB 0.9.14: a B+tree of
slotted pages that is never overwritten in place while somebody may read it, a free list that is
kept in the database itself, one writer and any number of readers. This project models that engine
in Dafny and proves what it promises.

| files | what they model |
|---|---|
| `IdList`, `IdSort`, `IdBlock`, `PageRuns` | the page-number lists of `midl.c`, in arrays: binary search, in-place merge, quicksort with an explicit stack, growing blocks, runs of consecutive pages |
| `PageAlloc`, `RecordKeys` | `mdb_page_alloc` and `mdb_find_oldest`: loose pages, reclaimed pages, records older than every reader, new pages |
| `FreelistSave`, `FreelistRecords` | `mdb_freelist_save`, whose own puts change the lists it saves |
| `Mvcc`, `MvccProof`, `MvccCommit` | one writer, any number of readers, two meta pages and a crash at any point, as a state machine; what a commit publishes |
| `Keys`, `BTree`, `BTreeSearch` | key order, pages and node sizes, order and contents of a tree, lookup |
| `SplitPoint`, `BTreePut`, `BTreePutProof`, `BTreeFull` | `mdb_cursor_put` and `mdb_page_split`, and exactly when a page runs out of room |
| `BTreeDel`, `BTreeDelProof` | `mdb_cursor_del`, `mdb_rebalance`, `mdb_node_move`, `mdb_page_merge`, `mdb_update_key` |
| `PagePool`, `BTreePages`, `BTreeDelPages`, `BTreeCow` | where the pages of a tree come from and go to: conservation, counters, copy-on-write |
| `BTreeTable`, `BTreeRun`, `FullPageRun` | a table with its root: `mdb_get`, `mdb_put`, `mdb_del`; whole transactions |
| `Cursor`, `Drop` | the cursor stack, movements, `mdb_cursor_set`; `mdb_drop0` |
| `SlottedPage`, `PageNodes` | the bytes of a page: `mdb_node_add`, `mdb_node_del`, `mdb_update_key` |
| `DirtyList`, `NestedTxn`, `NestedBuffers`, `NestedFree` | dirty lists, nested transactions, the buffers of their pages and the pages they free |
| `Compact`, `CompactProof` | the compacting copy |

How the parts fit together:

- The tree operations of `BTreePut` and `BTreeDel` follow the cursor's path by recursion; `Flat`
  is the sequence of bindings a tree stands for, and the main theorems say what an operation does
  to it. `PageNodes` proves the page operations they consist of on bytes and slots, and that the
  sizes the tree model counts are the bytes those operations write.
- A `Pool` stands for the pages of a write transaction. Its `ready` pages are an arbitrary
  sequence, so the tree results hold whatever `mdb_page_alloc` offers; `PageAlloc` proves what
  that offers.
- In `FreelistSave` every cursor operation on the free database may change the lists being saved.
  What it does to them is an arbitrary script, one entry for each operation, after whose end
  nothing changes any more; the loop is proved to end, and the outcome to be right, for every script.
- Keys are compared only through the comparator, so a tree key is its rank among the finitely
  many keys of 1 to 511 bytes; `Keys.RankIsOrder` is the reason that loses nothing. `Env.ksize`
  gives the length of the key of a rank.

Where the code and its own description differ the model follows the code:

- `mt_dirty_room` is described as the list size less the dirty pages visible to the transaction
  (mdb.c:1025-1030), but `mdb_ovpage_free` takes a page out of the dirty list without giving the
  room back (mdb.c:5218-5235). `NestedTxn.RoomIsLost` is a run in which the next nested commit
  then computes a wrong length; `NestedTxn.RoomIsExactly` and `NestedTxn.MergeWorksExactly` say
  exactly when the room and the merge are right.
- `mdb_node_add` is documented never to run out of room because callers check (mdb.c:6703-6705),
  but a split at the middle can leave a half that does not fit: `FullPageRun.TransactionMayFail`
  is a transaction that ends there. The exact conditions are in `SplitPoint.SplitFitsExactly` for
  a page and in `BTreeFull.PutIsFullExactly` and `BTreeFull.DelIsFullExactly` for whole operations.
- The shortcut of `mdb_cursor_set` keeps an old `C_EOF` when it finds nothing, so a later
  `MDB_NEXT` may find nothing where it would after a search from the root
  (`Cursor.EofHidesNext`); `Cursor.Cursor.Set` states exactly when the two agree.
- The root of a compacting copy is written before the walk that places it. The number written is
  the walk's exactly when the main table is not empty (`CompactProof.RootIsLastPage`); an empty
  one gets the number of a meta page.

Assumptions: `MDB_DEVEL` is 0, so keys have at most 511 bytes; page sizes are even, from 4096 to
32768 bytes; tables are not `MDB_DUPSORT`; `MDB_WRITEMAP` is off; allocation and I/O succeed,
apart from the crash that `Mvcc` models; a reader's start (mdb.c:2547-2581) and the write of a
meta page are single steps.

## Model

| member | source | states |
|---|---|---|
| `IdList.Search` | LegacyDatabase/midl.c:30-66 | Returns the first position whose id is not above the one sought, and says whether it is there, for any strictly descending list |
| `IdList.MergeIsUnion` | LegacyDatabase/midl.c:202-214 | Merging two lists keeps every id of both, with multiplicity |
| `IdList.MergeIsDescending` | LegacyDatabase/midl.c:202-214 | Merging two descending lists gives a descending one |
| `IdList.XMerge` | LegacyDatabase/midl.c:202-214 | The backwards in-place merge computes that merge without overwriting unread ids, also when the second list sits in the tail of the first one's own block; slots past the result are untouched |
| `IdSort.Sort` | LegacyDatabase/midl.c:221-280 | The list becomes descending and a permutation of itself, the rest of the array is unchanged; index bounds and the capacity of the segment stack are proved on the way |
| `IdSort.StackHasRoom` | LegacyDatabase/midl.c:224-277 | Because the larger part is the one pushed, the 64-entry stack never overflows for lists up to INT_MAX ids |
| `IdSort.Partition` | LegacyDatabase/midl.c:246-267 | The unguarded scans stay inside their segment and the segment ends divided around the pivot |
| `IdSort.InsertionPass` | LegacyDatabase/midl.c:233-241 | Insertion sort of a short segment sorts it and never moves an id outside it, although its inner loop may look down to index 1 |
| `IdBlock.Idl.Need` | LegacyDatabase/midl.c:144-156 | Afterwards the block has room for the ids asked for and holds the same list |
| `IdBlock.Idl.Append` | LegacyDatabase/midl.c:158-170 | The list grows by the id; a new block, MDB_IDL_UM_MAX longer, is taken exactly if the old one is full |
| `IdBlock.Idl.AppendList` | LegacyDatabase/midl.c:172-184 | The list grows by the other list, in a new block exactly if they would fill the old one |
| `IdBlock.Idl.AppendRange` | LegacyDatabase/midl.c:186-200 | The list grows by the n ids of the range, highest first, in a longer block exactly if they do not fit |
| `IdBlock.Idl.MergeLoose` | LegacyDatabase/mdb.c:3003-3023 | The reclaimed list becomes the descending union of itself and the loose pages, sorted in a scratch list in its own tail |
| `IdBlock.SortInTail` | LegacyDatabase/mdb.c:3006-3019 | Writing and sorting the scratch list in the tail of the block leaves the list at its front alone |
| `PageRuns.RunIffAllFree` | LegacyDatabase/mdb.c:2006-2015 | Comparing the two ends of a stretch of the list finds a run exactly when num consecutive pages are free |
| `PageRuns.FindRun` | LegacyDatabase/mdb.c:2009-2015 | The search returns a run, and returns none only if there is none |
| `PageRuns.TakeRun` | LegacyDatabase/mdb.c:2110-2114 | Removes exactly that run and keeps the order of the stragglers |
| `PageRuns.PutRun` | LegacyDatabase/mdb.c:5237-5244 | Puts a run back at its place in the list |
| `PageRuns.RunRestored` | LegacyDatabase/mdb.c:5218-5244 | Returning a run that was taken restores the list exactly |
| `PageRuns.WithIsUnion` | LegacyDatabase/mdb.c:5237-5244 | Returning pages that are not listed keeps the list strictly descending and holds the old pages and those |
| `PageAlloc.FindOldestReader` | LegacyDatabase/mdb.c:1906-1921 | Gives the least transaction id in use by a reader, or the last committed one: a lower bound that is attained |
| `PageAlloc.Allocator.Fetch` | LegacyDatabase/mdb.c:2063-2089 | Merging a record into the reclaimed list moves its pages from the unread records to the list, which stays descending |
| `PageAlloc.Allocator.TooRecent` | LegacyDatabase/mdb.c:2036-2062 | The cached oldest id is refreshed at most once, stays a lower bound on all readers, and decides whether a record may be used |
| `PageAlloc.Allocator.ReadNext` | LegacyDatabase/mdb.c:2036-2090 | Reads the record with the next key if it is older than every reader, else none, and then no usable one is left |
| `PageAlloc.Allocator.Seek` | LegacyDatabase/mdb.c:2001-2090 | Finds a run or none; every record consumed is older than every active reader; without a run either no record older than all readers is left, or the search gave up, which takes num pages at hand and num * 60 records read; it never reads more than that once it has num pages |
| `PageAlloc.Allocator.Alloc` | LegacyDatabase/mdb.c:1958-2127 | Which pages are handed out (loose, reclaimed, new), exactly when it fails with MDB_TXN_FULL, that free pages are conserved, and that it reports MDB_MAP_FULL or grows the file only if neither the reclaimed pages nor those of all records older than every reader hold a run, or after reading num * 60 such records |
| `PageAlloc.WithoutTakes` | LegacyDatabase/mdb.c:2110-2114 | Taking a run out of a strictly descending list takes exactly its pages |
| `FreelistSave.Saver.DeleteUsed` | LegacyDatabase/mdb.c:2912-2925 | All records up to me_pglast are deleted, and reservations with them; later records and the transaction's own are kept, whatever the deletions do to the free lists |
| `FreelistSave.Saver.SaveFreed` | LegacyDatabase/mdb.c:2927-2960 | The transaction's record holds mt_free_pgs, sorted, in the room of the last put, which is repeated while it frees more pages; the last page of the free database is touched first exactly the first time |
| `FreelistSave.Saver.Reserve` | LegacyDatabase/mdb.c:2962-3000 | One round of the reservation: reserved records stay consecutive keys with the room accounted for, while the lists stay as they are each round comes closer to the end, and it ends exactly if the room is what is needed, or more for the second time |
| `FreelistSave.Saver.Settle` | LegacyDatabase/mdb.c:2906-3001 | The loop ends, for every finite disturbance of the lists by its own puts, with room for all reclaimed and loose pages; every operation had its effect on the lists, and the room of each record is what the puts and deletions made it |
| `FreelistSave.HeadRoom` | LegacyDatabase/mdb.c:2978-2987 | The room given to a record either completes the reservation or is at least a page full; with key 1 it always completes it |
| `FreelistSave.LagShrinks` | LegacyDatabase/mdb.c:2969-3000 | Why the reservation ends: the key decreases, or it stays and the distance to the end shrinks |
| `FreelistSave.WriteChunk` | LegacyDatabase/mdb.c:3043-3047 | A chunk is written with its length in a slot borrowed from the list, which is put back |
| `FreelistSave.Fill` | LegacyDatabase/mdb.c:3025-3051 | The chunks in the reserved records, highest key first, are the whole list; no other record changes and the list is restored |
| `FreelistSave.ReturnLoose` | LegacyDatabase/mdb.c:3003-3023 | The list written is the union of the reclaimed and the loose pages |
| `FreelistSave.Saver.Save` | LegacyDatabase/mdb.c:2867-3053 | After it the records up to me_pglast hold exactly the reclaimed and loose pages, the transaction's own record exactly what it freed and later records are untouched; what it freed is the list the caller passed, the loose pages if there is no reclaimed list, and what the save's own operations freed, so without those no page of the caller's lists is lost or doubled |
| `FreelistSave.Saver.constructor` | LegacyDatabase/mdb.c:2889-2900 | Loose pages go to mt_free_pgs at the start exactly when there is no reclaimed list; otherwise the lists are as the caller passed them |
| `FreelistRecords.SavedIsSaved` | LegacyDatabase/mdb.c:2867-3053 | That outcome is the condition under which the version model lets the commit go on: each free page is in exactly one record |
| `MvccProof.StepInv` | LegacyDatabase/mdb.c:2486-2600 | Every step of readers, writer and crash keeps the invariant of the whole system |
| `MvccProof.RunInv` | LegacyDatabase/mdb.c:2486-2600 | The invariant holds in every state of every run |
| `MvccProof.ReaderSeesItsVersion` | LegacyDatabase/mdb.c:2547-2581 | Whatever page an active reader reaches from its roots is, in the file, the page its version committed |
| `MvccProof.SnapshotIsStable` | LegacyDatabase/mdb.c:2547-2581 | As long as a reader stays in its transaction its roots and all its pages stay the same |
| `MvccProof.LivePagesUntouched` | LegacyDatabase/mdb.c:2036-2062 | No page of a version that a reader or the last commit needs is handed out for writing, or changes in the file, in any step |
| `MvccProof.PagesAreConserved` | LegacyDatabase/mdb.c:1511-1559 | In every state pages 2 up to the next page are split without overlap into tree pages, reclaimed, freed and loose pages, and unconsumed records |
| `MvccProof.CrashIsAtomic` | LegacyDatabase/mdb.c:3397-3400 | After a crash at any point the newer meta page names a committed version, whole in the file: the previous one, or the new one if its meta page was written |
| `MvccProof.NewVersion` | LegacyDatabase/mdb.c:3558-3672 | The version a commit writes is closed under page links and its pages and records split the file between them |
| `MvccProof.NewRecordUnreachable` | LegacyDatabase/mdb.c:1904-1921 | The record a commit adds holds only pages no live version at or after it needs |
| `MvccCommit.BeginsAtLast` | LegacyDatabase/mdb.c:2552-2581 | A write transaction starts with the roots, the pages and the next page of the last committed version, and the next transaction id |
| `MvccCommit.CommitIs` | LegacyDatabase/mdb.c:3385-3400 | In every run the version whose meta page a transaction writes is the last committed one with that transaction's own writes applied to it in order: pages, roots and next page, in the version and in the meta page |
| `MvccCommit.CommittedRoots` | LegacyDatabase/mdb.c:3611-3616 | A commit keeps the roots of the version before it, unless the transaction set new ones, and then commits the last it set |
| `MvccCommit.CommitIsPublished` | LegacyDatabase/mdb.c:3661-3672 | After the last step of a commit that version is the last committed one, whatever readers and flushes came between |
| `MvccCommit.UntouchedPage` | LegacyDatabase/mdb.c:2230-2285 | A page the transaction did not write, take or give up is in the new version exactly if it was in the old one, with the same contents |
| `MvccCommit.LastTouchStays` | LegacyDatabase/mdb.c:2230-2285 | A page it did touch holds what was last written to it, or is out of the trees if it was given up last |
| `MvccCommit.ReaderStartsAtLast` | LegacyDatabase/mdb.c:2547-2581 | A reader starts with the roots of the last committed version |
| `MvccCommit.CommitCompletes` | LegacyDatabase/mdb.c:3385-3430 | From every state in which the free list is saved there are steps that flush, sync, write the meta page and publish the new version |
| `Keys.CompareMemn` | LegacyDatabase/mdb.c:4752-4767 | The loop gives the sign of the lexicographic comparison with length as tie-break |
| `Keys.Transitive` | LegacyDatabase/mdb.c:4752-4767 | The order of keys is transitive |
| `Keys.Antisymmetric` | LegacyDatabase/mdb.c:4752-4767 | Only equal keys compare equal, and exchanging the keys changes the sign |
| `Keys.RankIsOrder` | LegacyDatabase/mdb.c:4752-4767 | Among any keys that occur, comparing ranks is comparing keys |
| `Keys.FirstDifference` | LegacyDatabase/mdb.c:4752-4767 | The first byte that differs decides |
| `Keys.PrefixIsSmaller` | LegacyDatabase/mdb.c:4752-4767 | A proper prefix of a key is smaller than the key |
| `BTreeSearch.SearchKeys` | LegacyDatabase/mdb.c:4851-4880 | The binary search finds the first key not below the one sought |
| `BTreeSearch.NodeSearch` | LegacyDatabase/mdb.c:4803-4891 | On a leaf the position and whether it is exact, on a branch the index after or at the child the key belongs under |
| `BTreeSearch.ChildDivides` | LegacyDatabase/mdb.c:5017-5047 | Everything left of the child chosen is below the key and everything right of it above |
| `BTreeSearch.LookupChild` | LegacyDatabase/mdb.c:5017-5047 | Looking a key up in a branch is looking it up in the child chosen |
| `BTreeSearch.Get` | LegacyDatabase/mdb.c:5287-5305 | The descent from the root finds exactly the value the map of the tree has for the key |
| `BTree.FlatAscending` | LegacyDatabase/mdb.c:5007-5070 | In a tree whose separators divide its children all keys are in ascending order |
| `SplitPoint.FindSplit` | LegacyDatabase/mdb.c:8036-8066 | The loop computes the split index |
| `SplitPoint.ScanFits` | LegacyDatabase/mdb.c:8036-8066 | Whenever the node sizes are looked at, both halves of a split are non-empty and fit on a page |
| `SplitPoint.SplitFitsExactly` | LegacyDatabase/mdb.c:8036-8066 | A split succeeds exactly when there are at most twenty nodes with the new one, the new one takes more than a sixteenth of a page, it goes last, or the two halves around the middle fit |
| `SplitPoint.MidpointMayOverflow` | LegacyDatabase/mdb.c:8017-8066 | Sizes of twenty nodes and a new one whose split at the middle does not fit |
| `FullPageRun.PutMayFail` | LegacyDatabase/mdb.c:8036-8066 | A put on a page with those nodes reports MDB_PAGE_FULL |
| `FullPageRun.TablePutMayFail` | LegacyDatabase/mdb.c:8271-8285 | So does mdb_put on a table that consists of such a page |
| `FullPageRun.TransactionMayFail` | LegacyDatabase/mdb.c:8036-8066 | A transaction of twenty-one puts on an empty table whose last put reports MDB_PAGE_FULL |
| `BTreePutProof.UpsertLookup` | LegacyDatabase/mdb.c:6009-6513 | Meaning of an update: the key has the new value, every other key its old one |
| `BTreePut.OverflowPagesHold` | LegacyDatabase/mdb.c:771 | The overflow pages allocated for a value hold a page header and the value, and one page less would not |
| `BTreePut.LongEnough` | LegacyDatabase/mdb.c:6329 | An overflow run is long enough for a value exactly if a page header and the value fit on its pages |
| `BTreePutProof.SplitsOnlyWhenFull` | LegacyDatabase/mdb.c:6397-6407 | A leaf takes a node, at its index and on the page itself, exactly if the node's bytes and its slot fit on the page; only otherwise is the page split |
| `BTree.TwoNodesFit` | LegacyDatabase/mdb.c:3915-3916 | me_nodemax is the largest even size of which two nodes with their slots fit on a page |
| `BTreePutProof.AddItemStores` | LegacyDatabase/mdb.c:6396-6411 | Adding a node to a leaf, splitting it if need be, gives the old bindings with the new one between, in good order, separator included |
| `BTreePutProof.PutLeafStores` | LegacyDatabase/mdb.c:6318-6408 | Storing in a leaf (overwrite in place, reuse of an overflow run, replacement, insertion) is an update of its bindings |
| `BTreePutProof.SplitBranchStores` | LegacyDatabase/mdb.c:7879-8211 | Splitting a branch keeps its bindings, the order of separators, the empty first key and at least two children on either side |
| `BTreePutProof.AddKidStores` | LegacyDatabase/mdb.c:8080-8122 | Linking a new sibling into the page above keeps it in order, with or without a split |
| `BTreePutProof.PutCorrect` | LegacyDatabase/mdb.c:6009-6513 | Insertion refines map update: unless a page fills up, the tree or its two halves hold the old bindings with one added or replaced; order, separators, depth and page bounds are kept, and every overflow run is long enough for its value, one overwritten in place included |
| `BTreePutProof.LeafIsFullExactly` | LegacyDatabase/mdb.c:8036-8066 | A leaf insertion fails exactly if there is no room, the sizes are not looked at and a half around the middle is too large |
| `BTreePutProof.BranchIsFullExactly` | LegacyDatabase/mdb.c:8036-8066 | A branch split fails exactly if the sizes are not looked at and a half around the middle is too large |
| `BTreePutProof.RoomForKid` | LegacyDatabase/mdb.c:6679-6691 | The unrounded size mdb_page_split tests gives the same answer as the space the node takes |
| `BTreePutProof.BranchSplitPoint` | LegacyDatabase/mdb.c:8036-8066 | A full branch page has at least eight nodes and its split leaves at least two on either side |
| `BTreeFull.PutAgrees` | LegacyDatabase/mdb.c:7944-8066 | Sizes and keys of the nodes on the way to a key decide what a put does to each page: it has room, it is split and passes that key up, or it cannot be split |
| `BTreeFull.PutIsFullExactly` | LegacyDatabase/mdb.c:7944-8066 | mdb_put reports MDB_PAGE_FULL if and only if that verdict, read off the pages before the call, says so |
| `BTreeFull.DelFollows` | LegacyDatabase/mdb.c:7576-7743 | Sizes and keys of the nodes on the way to a key and beside it decide what a deletion does to each page: it keeps its nodes, loses one, is split and passes that key up, or cannot be split |
| `BTreeFull.DelIsFullExactly` | LegacyDatabase/mdb.c:7576-7743 | mdb_del reports MDB_PAGE_FULL if and only if those pages, read before the call, say so |
| `BTreeFull.FewNodesTakePut` | LegacyDatabase/mdb.c:8036-8066 | With fewer than twenty nodes on every page a put never runs out of room |
| `BTreeFull.FewNodesTakeDel` | LegacyDatabase/mdb.c:8036-8066 | With fewer than twenty nodes on every page a deletion never runs out of room |
| `BTreePages.PutConserves` | LegacyDatabase/mdb.c:6009-6513 | Storing loses no page, doubles none, and changes the branch, leaf and overflow counters with the tree |
| `BTreeDelProof.RemoveLookup` | LegacyDatabase/mdb.c:6516-6606 | Meaning of a removal: the key is missing, every other key has its old value |
| `BTreeDelProof.SettleIs` | LegacyDatabase/mdb.c:7590-7743 | After a deletion below it a child that lost a node and uses less than a quarter of its page, or has too few nodes, gets one node of its neighbour, the left one unless it is the first child; if the neighbour is no more than that itself, the two become one page; otherwise nothing moves |
| `BTreeDelProof.DelEvensLeaves` | LegacyDatabase/mdb.c:7590-7743 | A deletion from a leaf, in the bytes left on it: a quarter of a page and a node are enough; else a node is moved or two leaves are merged |
| `BTreeDelProof.MergeFits` | LegacyDatabase/mdb.c:7724-7738 | Merge bound: when mdb_rebalance chooses to merge, all nodes fit on one page, with the branch key that must be filled in, and the merged page is in good order |
| `BTreeDelProof.MoveFits` | LegacyDatabase/mdb.c:7237-7410 | Moving a node: both pages stay within bounds and in good order and hold the same bindings, and the new separator divides them |
| `BTreeDelProof.MovedKids` | LegacyDatabase/mdb.c:7191-7226 | Replacing the separator in the page above keeps it in order; if the longer key finds no room the page is one that must be split |
| `BTreeDelProof.RebalanceMoves` | LegacyDatabase/mdb.c:7576-7743 | mdb_rebalance with a neighbour that can spare a node: the page above holds the same bindings, in good order, or is split |
| `BTreeDelProof.RebalanceMerges` | LegacyDatabase/mdb.c:7576-7743 | mdb_rebalance with a neighbour that cannot: the page above holds the same bindings with one child less |
| `BTreeDelProof.DelCorrect` | LegacyDatabase/mdb.c:7576-7757 | Deletion refines map removal: exactly one binding goes, keys and separators stay in order, depth is uniform, every page but the topmost has enough nodes; a separator that finds no room splits the page above |
| `BTreeDelPages.MergeConserves` | LegacyDatabase/mdb.c:7421-7545 | A merge conserves pages and counters |
| `BTreeDelPages.MoveConserves` | LegacyDatabase/mdb.c:7237-7260 | Moving a node conserves pages: each page touched is exchanged for one other |
| `BTreeDelPages.DelConserves` | LegacyDatabase/mdb.c:7576-7757 | Deleting loses no page, doubles none, and changes the counters with the tree |
| `BTreeTable.TouchPathKeeps` | LegacyDatabase/mdb.c:5980-6003 | Making the path to a key writable changes neither contents nor order |
| `BTreeTable.TouchPathConserves` | LegacyDatabase/mdb.c:2220-2319 | Copying pages conserves them: each goes to the freed pages, another takes its place |
| `BTreeTable.DirtyPathStays` | LegacyDatabase/mdb.c:2230-2236 | A path whose pages are all dirty is not copied again |
| `BTreeTable.NewRootGood` | LegacyDatabase/mdb.c:7909-7935 | The new root above a split root is a tree one deeper with the same bindings |
| `BTreeTable.TrimRootGood` | LegacyDatabase/mdb.c:7597-7648 | An empty root leaf leaves the empty table, a root with one child gives way to it; the bindings stay |
| `BTreeTable.TrimRootConserves` | LegacyDatabase/mdb.c:7597-7648 | Trimming the root conserves pages; setting the leaf count to 0 is right for a lone leaf |
| `BTreeTable.RootPutCorrect` | LegacyDatabase/mdb.c:8271-8285 | Storing at the root: contents, depth, order and pages |
| `BTreeTable.RootDelCorrect` | LegacyDatabase/mdb.c:7826-7866 | Deleting at the root: contents, depth, order and pages; it fails only if a page fills up |
| `BTreeTable.Table.Get` | LegacyDatabase/mdb.c:5287-5305 | Finds what the table holds for the key |
| `BTreeTable.Table.Put` | LegacyDatabase/mdb.c:8271-8285 | On success the table holds its old contents with one binding added or replaced, every value on overflow pages fits on its run, md_entries, depth and page counters agree with the tree, pages are conserved; it reports MDB_PAGE_FULL exactly if a page refuses the node, never with fewer than twenty nodes a page |
| `BTreeTable.Table.Delete` | LegacyDatabase/mdb.c:7808-7866 | On success the table holds its old contents without the key and md_entries is one less; MDB_NOTFOUND exactly if the key is missing, MDB_PAGE_FULL exactly if a page refuses a node |
| `BTreeRun.TransactionRefinesMap` | LegacyDatabase/mdb.c:6009-6606 | Any sequence of puts and deletes does to the table what it means for the map, and conserves pages; it fails if and only if it comes to an operation that a page refuses |
| `BTreeRun.TransactionAudited` | LegacyDatabase/mdb.c:1511-1559 | If every page of the file is in exactly one place, the tree, the free pages of the transaction or elsewhere, it still is after any sequence of puts and deletes |
| `BTreeRun.CommittedPagesSurvive` | LegacyDatabase/mdb.c:2220-2319 | Over any sequence of puts and deletes every page of the tree that somebody may still need is a page of the tree at the start, unchanged with all below it |
| `BTreeCow.TouchPathCow` | LegacyDatabase/mdb.c:5980-6003 | Touching the path makes it free to change without changing any needed page |
| `BTreeCow.PutKeepsCommitted` | LegacyDatabase/mdb.c:6009-6513 | mdb_put changes no page outside the transaction's own |
| `BTreeCow.DelKeepsCommitted` | LegacyDatabase/mdb.c:6516-6606 | mdb_del changes no page outside the transaction's own |
| `PagePool.FreeRunConserves` | LegacyDatabase/mdb.c:5180-5252 | Giving up an overflow run moves exactly its pages to the reclaimed or freed ones and out of the counter |
| `PagePool.LooseIsNext` | LegacyDatabase/mdb.c:1661-1704 | A page given up by the transaction that dirtied it is the next one it gets, and the pool is as before; any other page is out of reach until the commit |
| `PagePool.RunIsNext` | LegacyDatabase/mdb.c:5205-5244 | A dirty run given up while there is a reclaimed list is the next run of that length, and the pool is as before |
| `PagePool.GrowsLast` | LegacyDatabase/mdb.c:1975-2096 | The file grows by a page only when there is neither a loose nor a reclaimed one |
| `Cursor.Cursor.Sibling` | LegacyDatabase/mdb.c:5316-5362 | The stack moves to the neighbouring page at its depth; if there is none it is as before, at every recursion depth |
| `Cursor.Cursor.SearchEdge` | LegacyDatabase/mdb.c:5013-5070 | Leads to the first or the last leaf |
| `Cursor.Cursor.PageSearch` | LegacyDatabase/mdb.c:5007-5177 | Leads to the leaf a key belongs in, wherever the cursor was |
| `Cursor.Cursor.Go` | LegacyDatabase/mdb.c:5909-5959 | MDB_FIRST and MDB_LAST yield the first and the last binding; MDB_NEXT and MDB_PREV yield the binding one further on, or none exactly at the end or with C_EOF, and at the beginning; position and C_EOF are as the position model says |
| `Cursor.Traverse` | LegacyDatabase/mdb.c:5366-5521 | A fresh cursor and any number of MDB_NEXT, or of MDB_PREV, yields every binding of the table once, in ascending or descending order, and then not-found for good |
| `Cursor.Cursor.Set` | LegacyDatabase/mdb.c:5525-5710 | MDB_SET and MDB_SET_RANGE from any valid cursor leave it before the first key not below the one sought, and succeed exactly if there is such a key, or if it is the key itself; return code, leaf and index are those of a search from the root, the C_EOF flag too if and only if a binding was found, the flag was clear, or the shortcut did not answer |
| `Cursor.EofHidesNext` | LegacyDatabase/mdb.c:5539-5651 | After MDB_LAST, MDB_SET of a missing key on that page keeps C_EOF, and MDB_NEXT finds nothing where a fresh cursor finds the next binding |
| `Cursor.Cursor.TryHere` | LegacyDatabase/mdb.c:5539-5628 | Exactly when the shortcut answers; then it reaches the outcome of a search from the root, but for a C_EOF that stays as it was if nothing is found |
| `Cursor.SearchDivides` | LegacyDatabase/mdb.c:5637-5651 | The position a search gives has the smaller keys before it and the others after it |
| `Cursor.RightPage` | LegacyDatabase/mdb.c:5553-5617 | Between two keys of a leaf, or beyond the first key of the last leaf, a search from the root leads to that leaf |
| `PageNodes.Page.Add` | LegacyDatabase/mdb.c:6742-6825 | The node is inserted at the index, the heap stays packed, disjoint and aligned, all other nodes keep their bytes; it fails exactly if there is no room |
| `PageNodes.Page.Del` | LegacyDatabase/mdb.c:6861-6885 | The node at the index goes, the heap stays packed, all other nodes keep their bytes |
| `PageNodes.Page.UpdateKey` | LegacyDatabase/mdb.c:7191-7228 | The node at the index has the new key and the same page number, all other nodes keep their bytes; it fails exactly if the longer key finds no room |
| `PageNodes.LeafNodeReads` | LegacyDatabase/mdb.c:6742-6825 | What is read back from a leaf node: key, data size, and the data or, if the node would take too much, the flag and the number of the overflow page |
| `PageNodes.BranchNodeReads` | LegacyDatabase/mdb.c:6786-6799 | What is read back from a branch node: key and page number, 48 bits of it |
| `SlottedPage.Deleted` | LegacyDatabase/mdb.c:6871-6885 | Closing the gap of a node: layout and remaining nodes |
| `SlottedPage.Added` | LegacyDatabase/mdb.c:6775-6818 | Writing a node below the heap: layout and nodes |
| `SlottedPage.Rekeyed` | LegacyDatabase/mdb.c:7207-7226 | Moving the nodes below a node by the change of its key: layout and nodes |
| `DirtyList.Search` | LegacyDatabase/midl.c:282-315 | The first position whose page number is not below the one sought |
| `DirtyList.Insert` | LegacyDatabase/midl.c:317-346 | 0 and the entry in its place, -1 exactly for a duplicate, -2 exactly for a full list |
| `DirtyList.Remove` | LegacyDatabase/mdb.c:5218-5235 | Takes the entry of the page out of the list; if there is none it reports corruption and the list has its entries still, the first one moved to the end |
| `DirtyList.OverlayFind` | LegacyDatabase/mdb.c:3291-3319 | The union has the child's page wherever the child has one, and else the parent's |
| `DirtyList.OverlayAscends` | LegacyDatabase/mdb.c:3291-3319 | The union is sorted without duplicates |
| `DirtyList.UnionLength` | LegacyDatabase/mdb.c:3291-3305 | The length computed for a parent that is itself nested is that of the union |
| `DirtyList.MergeInto` | LegacyDatabase/mdb.c:3309-3319 | The merge in place from the end: the indices meet exactly if the length was right, and then the block holds the union; it frees the buffers the union replaces |
| `DirtyList.CommitDirty` | LegacyDatabase/mdb.c:3291-3321 | The indices meet if and only if the parent is nested or mt_dirty_room is as documented; then the parent has the union |
| `NestedTxn.PageGet` | LegacyDatabase/mdb.c:4951-5001 | Returns where the innermost version of a page is, a buffer or the map, and its level |
| `NestedTxn.AccessIs` | LegacyDatabase/mdb.c:2253-2285 | mdb_page_touch, which searches its own list, and the overwriting of an overflow run, which goes by the level, come to the same: the own buffer of the innermost transaction, or a copy in a new one; never MDB_CORRUPTED |
| `NestedTxn.RunKeeps` | LegacyDatabase/mdb.c:1025-1030 | Every run keeps the lists sorted, without duplicates and within bounds, and the free pages out of them |
| `NestedTxn.RoomIsExactly` | LegacyDatabase/mdb.c:1025-1030 | mt_dirty_room is as documented, in every transaction of the chain, if and only if no overflow run was given back since the run began |
| `NestedTxn.MeetsExactly` | LegacyDatabase/mdb.c:3306-3319 | With a single ancestor the merge of the dirty lists works exactly when the room is what a list may hold less the visible dirty pages |
| `NestedTxn.MergeWorksExactly` | LegacyDatabase/mdb.c:3291-3319 | The merge into an outermost transaction works if and only if that transaction gave no overflow run back; deeper in the chain it always works |
| `NestedTxn.RoomIsLost` | LegacyDatabase/mdb.c:5218-5235 | A run in which mdb_ovpage_free leaves mt_dirty_room one short, so that the next nested commit miscounts |
| `NestedBuffers.RunIsSound` | LegacyDatabase/mdb.c:2253-2285 | In every run each buffer is in exactly one entry of one dirty list: none is shared, none is left over |
| `NestedBuffers.ReachesOnlyItsOwn` | LegacyDatabase/mdb.c:2253-2285 | A step changes or frees only buffers of the innermost transaction; a commit frees also the buffers of the parent that it replaces |
| `NestedBuffers.ParentUntouched` | LegacyDatabase/mdb.c:2253-2285 | A step more than n deep leaves the lists of the first n transactions and the contents of all their buffers as they are |
| `NestedBuffers.AbortRestores` | LegacyDatabase/mdb.c:2780-2830 | Whatever a nested transaction wrote, allocated and freed, with any transactions nested in it, aborting it restores the lists of its parents, the contents of every buffer and the free-page state exactly, and leaks no buffer |
| `NestedBuffers.WriteIsSeen` | LegacyDatabase/mdb.c:6341-6376 | A write shows in the page written, as the transaction sees it, and in no other page |
| `NestedBuffers.BeginKeepsView` | LegacyDatabase/mdb.c:2683-2717 | A nested transaction starts out seeing what its parent sees |
| `NestedBuffers.CommitKeepsView` | LegacyDatabase/mdb.c:3238-3341 | After a nested commit the parent sees the contents of every page as the child did, although its own copies are freed |
| `NestedFree.StepConserves` | LegacyDatabase/mdb.c:3243 | No page freed or loosened in a chain of transactions is lost or doubled: the lists together change only by the page of a step that frees, loosens or takes one, and by what an aborted transaction had |
| `NestedFree.CommitJoins` | LegacyDatabase/mdb.c:3238-3341 | A commit gives the parent the pages its child freed and loosened beside its own, and the child's next page, room and table of databases; the reclaimed pages and the transactions further out stay |
| `NestedFree.BeginIsFresh` | LegacyDatabase/mdb.c:2683-2717 | A nested transaction begins with nothing dirty, freed or loose, with its parent's databases, next page and room |
| `NestedFree.FreedIsExactly` | LegacyDatabase/mdb.c:3243 | In every run the pages on a transaction's list are exactly those freed in it and in the transactions nested in it, at any depth, that committed all the way up to it |
| `NestedFree.CommittedFreesArrive` | LegacyDatabase/mdb.c:3243 | A page freed at any depth is on the outermost transaction's list once all that was nested in it has committed |
| `NestedFree.CommittedLooseArrive` | LegacyDatabase/mdb.c:3334-3339 | So is a loose page that was not taken |
| `NestedFree.HeadChanges` | LegacyDatabase/mdb.c:5205-5244 | The reclaimed pages lose a page exactly when it becomes dirty, and gain those of a record or all pages of an overflow run given back |
| `Compact.CWalk` | LegacyDatabase/mdb.c:8395-8549 | The loop with its stack of copied pages writes exactly the pages of the recursive post-order walk, with the same numbers |
| `Compact.WalkLeaf` | LegacyDatabase/mdb.c:8440-8500 | The loop over the nodes of a leaf writes overflow runs and sub-databases and rewrites the pointers to them |
| `CompactProof.WalkNumbers` | LegacyDatabase/mdb.c:8395-8549 | Pages are numbered consecutively, as many as the tree has, the tree's own page last |
| `CompactProof.WalkIsConsecutive` | LegacyDatabase/mdb.c:8531-8533 | Every page written has the number after the pages of the one written before it, all n of them for an overflow run |
| `CompactProof.WalkCopies` | LegacyDatabase/mdb.c:8395-8549 | The file read back from the root's number holds the same tree: same keys, same data, every pointer leading to a copy |
| `CompactProof.OnePage` | LegacyDatabase/mdb.c:8531-8533 | No number is used twice |
| `CompactProof.RootIsLastPage` | LegacyDatabase/mdb.c:8616-8632 | The root number written in advance is the one the walk assigns, if pages are conserved, exactly when the main tree is not empty |
| `Drop.Drop0` | LegacyDatabase/mdb.c:9153-9232 | The walk level by level puts every page of the tree on the free list exactly once |
| `Drop.FreePage` | LegacyDatabase/mdb.c:9170-9204 | A leaf gives up its overflow runs, a branch the pages of its children |
| `Drop.StackInLevel` | LegacyDatabase/mdb.c:9205-9221 | Where the walk stands in its level, given by the bindings before it |

## Left out

- BTreePutProof.PutCorrect: trees are values and their pages nested in them; that page contents are rewritten in place in memory buffers is modelled page by page in `PageNodes`, not for whole trees.
- BTreeTable.Table.Put: `MDB_NOOVERWRITE`, `MDB_APPEND`, `MDB_RESERVE` and `MDB_CURRENT` are not modelled, and a full map or a full dirty list cannot occur in the tree operations (`PageAlloc.Allocator.Alloc` has both errors).
- BTreeTable.Table.Delete: says nothing about the table after `MDB_PAGE_FULL`, when the transaction can only be aborted; nor does `BTreeTable.Table.Put`.
- BTreeDelProof.DelCorrect: the repair of other cursors after a move, merge or split is not modelled, nor is the cursor's own position after the deletion.
- PagePool.FreeRunConserves: a run is dirty or not by its first page, as in the code, which looks at the flags of that page; whether `me_pghead` exists is fixed for the transaction.
- BTreePutProof.AddItemStores: the overflow pages of a new node are allocated before the right sibling, not after it; which numbers they get differs, and the results hold for any.
- BTreeRun.CommittedPagesSurvive: contents of overflow pages are part of their item, so a value overwritten in a dirty overflow run counts as a change of the leaf that holds the item, which the transaction has copied.
- PageAlloc.Allocator.Alloc: the reader table does not change during one call, nor the free database between calls, and the list limits of `midl.c` are a precondition on the total number of free pages.
- FreelistSave.Saver.Save: the puts of the last loop (mdb.c:3039-3051), which fill records already reserved and are no larger, do not change the free lists; `clean_limit`, which only decides how much of a new record is zeroed beyond its length, is left out.
- MvccProof.CrashIsAtomic: pages written since the last sync may hold anything after a crash; a torn meta page is excluded by the single-step assumption.
- Cursor.Cursor.Set: the tree is not empty (an empty table has no root and every operation reports not-found) and at most 32 deep, the size of the stack; `C_DEL`, set by a deletion through the cursor, is left out.
- Cursor.Cursor.Go: as for `Cursor.Cursor.Set`.
- Drop.Drop0: as for `Cursor.Cursor.Set`; named sub-databases stored in leaves, which `mdb_drop0` descends into when asked to, are left out here (`Compact` has them).
- NestedTxn.RunKeeps: no transaction of the chain has spilled pages, so the spill lists and the part of the commit that edits them are left out; the entries of the table of databases are numbers, with their flags left out; the cursors a child hands over at commit are left out, and so is the link that then joins the parent's loose pages to the child's.
- DirtyList.CommitDirty: both lists fit their blocks, as the room accounting guarantees.
- Compact.CWalk: the two write buffers, the writer thread and the direct write of the rest of an overflow run are left out; the output is the sequence of pages.
- CompactProof.RootIsLastPage: takes the conservation of pages, which `MvccProof.PagesAreConserved` proves for the version model and `BTreeRun.TransactionAudited` for puts and deletes, as its premise on the page counts.
- MvccProof.RunInv: what a writer links, unlinks and keeps are guards of its steps; `BTreeCow` and `BTreeRun` prove the like of puts and deletes, but no lemma maps a run of them, or a drop, to writer steps.
- IdSort.Sort: lists of at most INT_MAX / 2 ids, since `l + ir` is computed as an int.
- `MDB_DUPSORT` sub-pages and sub-cursors, LEAF2 pages and `MDB_MULTIPLE` are not modelled: they multiply the cases without new kinds of property.
- Page spilling during a transaction appears in `Mvcc` only, as a flush and a later unspill of single pages; `mdb_page_spill`'s choice of pages is left out.
- Files, memory maps, locks, process liveness, environment set-up, statistics and debug output are left out.
- The other sources of the repository (headers without bodies, `Telegraph/AttitudeESKF.cpp`, `TGBridgePeerIdAdapter.h`) are not part of this model.
