# A verified model of BusTub

A Dafny model of the parts of BusTub, a teaching database system, that carry state or rewrite queries. Classes follow
the C++ objects and their loops; recursive rewrites are functions. Exceptions are results (`Options.Result`), and what
a class does in place is proved against a value that says what it means.

**Storage.**  `ExtendibleHashTable.dfy` is the hash table with directory doubling and bucket splits: it refines a
finite map, and its split loop ends exactly when fewer than `bucket_size` stored keys have the hash of the new one.
`LruKReplacer.dfy` is the LRU-K replacer, proved against the log of all accesses and marks.  `BufferPool.dfy` and
`BufferPoolManager.dfy` are the pool over both and over a disk: free list, page table and replacer fit together in
every reachable state, so that the unchecked evictions succeed.  `PageStore.dfy` states what clients see: every run of
the pool is a run of a plain store of pages with pins, and a page that stays pinned stays in its frame.
`PageUsage.dfy` and `PageCache.dfy` tie the replacer to the clients: over every run the page that is dropped is the
LRU-K victim of their own calls.

**Index.**  `BPlusTree.dfy` is the B+ tree as a value, and `BPlusTreeProofs.dfy` shows that inserting and removing
keep it ordered, balanced and filled, and do to its entries what they do to a map (`SortedEntries.dfy`).
`BPlusTreeIndex.dfy` is the tree on pages: nodes with parent ids, leaves with the id of the next one, splits that go
up and repairs that borrow or merge.  `BPlusTreePages.dfy`, `BPlusTreeLinks.dfy`, `BPlusTreeLeaves.dfy`,
`BPlusTreeMoves.dfy`, `BPlusTreeShifts.dfy`, `BPlusTreeSteps.dfy`, `BPlusTreeRepairs.dfy` and `BPlusTreePaths.dfy`
relate the pages to the value step by step; `BPlusTreeLatches.dfy` says which latches an operation keeps,
`BPlusTreeIterator.dfy` has the iterator, and `BPlusTreeLimits.dfy` says with which page sizes the tree works at all.

**Queries.**  `Plans.dfy` and `Expressions.dfy` give plans a meaning, the sequence of their rows; `ExpressionLaws.dfy`
says what expressions compute.  `Optimizer.dfy` has the rewrite rules and `OptimizerSoundness.dfy` proves that the
pipeline keeps the rows of every plan that satisfies `Good`, over a database with faithful indexes;
`MergeFilterExact.dfy` says exactly when the filter rule keeps them without that condition, and `IndexBuilding.dfy`
when plans over an index built from a table do; `OptimizerForms.dfy` says which nodes are gone afterwards.
`BoundTree.dfy` is what the binder hands over.  `AggregationPlanning.dfy` and `SelectPlanning.dfy` are planning, with
its two-phase aggregation, as functions of what was bound; `InPlacePlanning.dfy` is planning as it happens, with calls
replaced in the statements, and says that its plans are those of `SelectPlanning` or none; `Planner.dfy` is the class.
`AggregateValues.dfy` and `AggregateGroups.dfy` say what calls and groups are, and `SelectMeaning.dfy` and
`TableMeaning.dfy` what planned statements return, in terms of what was bound.  `StarExpansion.dfy` relates planning
to the binder and `CteScopes.dfy` to the scopes of common table expressions, with statements in `CteStatements.dfy`.
`QuerySoundness.dfy` puts planner and optimizer together; `QueryConstants.dfy` has statements with constants as join
conditions.  `Executors.dfy` has the pull-based executors.

**Transactions.**  `TablePages.dfy`, `TransactionUndo.dfy`, `AbortExact.dfy`, `IndexUndo.dfy` and `Transactions.dfy`
model slotted pages, write sets, commit and abort; `RowHistory.dfy` says of every run which operation a row owes its
state to.

## Where the code differs from its documentation

The model follows the code.

- The replacer's class comment ranks frames with k accesses by their k-th last access and the others by the
  last one; the code ranks the former by the last access and the latter by the first, as the comment on `Evict`
  has it (`LruK.PolicyKeptIff`, `LruK.PolicyNotAlwaysKept`, `LruK.ClassicalLruNotKept`).  With k = 1 it erases
  an entry that is not there, so k = 1 is excluded.
- Flushing a page does not clear its dirty flag.  That is harmless.
- A flush takes no latch and may write the bytes of another page (`PageStore.SpoiledFromStart`); it is harmless
  while the page is pinned (`PageStore.FlushAcross`, `BufferPool.LateFlushIff`).
- `Begin(key)` of the index gives an iterator that never ends when the key is greater than all entries of its
  leaf and the leaf is not the last (`BPlusTreeIterator.BeginAt`, `BPlusTreeIterator.AstrayForever`,
  `BPlusTreeIterator.KeyBetweenLeaves`).  `GetValue` asserts that the tree is not empty.
- Insertion and removal keep every sound tree sound exactly with leaves for two entries or more and nodes for three
  children or more (`BPlusTreeLimits.LimitsIff`); runs from the empty tree that break it are
  `BPlusTreeLimits.OneEntryLeaves` and `BPlusTreeLimits.TwoChildNodes`.
- `Remove` compares the size of a leaf before with the size after in one expression, `GetSize() ==
  RemoveAndDeleteRecord(..)` (`b_plus_tree.cpp:232`).  C++ leaves open which side is evaluated first; the model reads
  the size first.  With the other order the comparison always holds and no leaf is ever repaired.
- Merging a filter into a join ignores the join type and takes a null boolean for true
  (`MergeFilterExact.MergeFilterNLJIff`).  A join condition that is an integer makes it throw, if a filter is
  above the join (`QuerySoundness.QueryThrowsIff`, `QueryConstants.IntegerConditionThrows`); the string 'true'
  in a LEFT join makes it change the rows (`QueryConstants.TextConditionChanged`).
- The binder binds the definitions of a WITH list in the scope around it, and the planner looks their names up
  in the list itself (`InPlacePlanning.TablePlannedIff`, `InPlacePlanning.PlannedAsBound`): a name may not be found,
  or be found elsewhere, or lead back for ever (`CteStatements.OuterNameIsLost`,
  `CteStatements.OtherEntryIsPlanned`, `CteStatements.NamesakeNeverEnds`).
- The planner replaces aggregate calls in the statement itself, so that a common table expression with a call in it
  or below it can be used once only (`InPlacePlanning.QueryPlannedIff`, `CteStatements.SecondUseThrows`).
- An index refuses a key that it has, so that an index on a column with repeated values lacks rows; plans that use it
  lose them (`IndexBuilding.IndexJoinIff`, `IndexBuilding.IndexScanIff`, `IndexBuilding.RepeatedValueLost`).
- A refused mark is recorded like one that was made, a slot is never given back, and an update after the
  transaction was aborted is not recorded; so abort and commit do what they should only under the conditions
  of `AbortExact.AbortRestoresIff` and `TransactionUndo.CommitIff`.  Undoing an index write looks at the key only
  (`IndexUndo.IndexesRestoredIff`).

## Model

| member | source | states |
|---|---|---|
| `ExtendibleHash.Bucket.Find` | project2代码/src/container/hash/extendible_hash_table.cpp:152-160 | the value of the only entry with the key, none exactly when no entry has it |
| `ExtendibleHash.Bucket.Remove` | project2代码/src/container/hash/extendible_hash_table.cpp:163-171 | the map of the bucket loses the key and nothing else; answers whether it had it |
| `ExtendibleHash.Bucket.Insert` | project2代码/src/container/hash/extendible_hash_table.cpp:174-180 | refuses exactly when full, and otherwise adds the entry |
| `ExtendibleHash.ExtendibleHashTable.constructor` | project2代码/src/container/hash/extendible_hash_table.cpp:25-28 | one empty bucket of depth 0 behind a directory of one slot; the invariant holds |
| `ExtendibleHash.ExtendibleHashTable.Find` | project2代码/src/container/hash/extendible_hash_table.cpp:70-77 | answers from the map the whole table stands for, not from one bucket |
| `ExtendibleHash.ExtendibleHashTable.Remove` | project2代码/src/container/hash/extendible_hash_table.cpp:80-87 | the map loses exactly the key, with the right answer; the directory is untouched |
| `ExtendibleHash.ExtendibleHashTable.Insert` | project2代码/src/container/hash/extendible_hash_table.cpp:90-143 | with fewer than bucketSize stored keys of the same hash the split loop ends and the map becomes m[key := value]; no inner bucket insert fails |
| `ExtendibleHash.ExtendibleHashTable.SplitForever` | project2代码/src/container/hash/extendible_hash_table.cpp:93-130 | otherwise the loop never ends: after any number of turns the target bucket is full again and the map is unchanged |
| `ExtendibleHash.ExtendibleHashTable.Double` | project2代码/src/container/hash/extendible_hash_table.cpp:97-104 | the directory repeats itself; every slot keeps its bucket |
| `ExtendibleHash.ExtendibleHashTable.Redistribute` | project2代码/src/container/hash/extendible_hash_table.cpp:106-117 | the entries are dealt over two buckets by one hash bit: none lost, none twice |
| `ExtendibleHash.ExtendibleHashTable.Redirect` | project2代码/src/container/hash/extendible_hash_table.cpp:119-129 | exactly the slots of the old bucket are redirected, by the bit above its depth |
| `ExtendibleHash.ExtendibleHashTable.SplitBucket` | project2代码/src/container/hash/extendible_hash_table.cpp:106-130 | a split keeps the map, the invariant and the count of buckets plus one |
| `ExtendibleHash.DoublingKeepsSharing` | project2代码/src/container/hash/extendible_hash_table.cpp:97-104 | after doubling two slots still share a bucket exactly when they agree modulo two to its depth |
| `ExtendibleHash.SplitKeepsSharing` | project2代码/src/container/hash/extendible_hash_table.cpp:119-129 | the same after a split, with the new depths |
| `ExtendibleHash.BothHalvesReached` | project2代码/src/container/hash/extendible_hash_table.cpp:119-129 | both halves of a split bucket are behind some slot |
| `ExtendibleHash.SplitAddsOneBucket` | project2代码/src/container/hash/extendible_hash_table.cpp:106-129 | the number of distinct buckets, which num_buckets_ counts, grows by exactly one |
| `ExtendibleHash.KeyInSlot` | project2代码/src/container/hash/extendible_hash_table.cpp:31-34 | every stored key is in the bucket its hash leads to, and only there |
| `ExtendibleHash.DoublingKeepsPlaced` | project2代码/src/container/hash/extendible_hash_table.cpp:97-104 | no entry is lost or misplaced by doubling |
| `ExtendibleHash.SplitKeepsPlaced` | project2代码/src/container/hash/extendible_hash_table.cpp:106-129 | nor by a split |
| `ExtendibleHash.Pigeonhole` | project2代码/src/container/hash/extendible_hash_table.cpp:93-130 | keys that share d of w hash bits injectively are at most 2^(w-d) |
| `ExtendibleHash.ExtendibleHashTable.FullBucketIsShallow` | project2代码/src/container/hash/extendible_hash_table.cpp:93-95 | with w hash bits and fewer than bucketSize keys that collide with the new one, a full target bucket has a depth below w, so that it can be split |
| `ExtendibleHash.ExtendibleHashTable.DepthBound` | project2代码/src/container/hash/extendible_hash_table.cpp:97-104 | the global depth never exceeds the width of an injective hash, by its share of the bucket size |
| `ExtendibleHash.ExtendibleHashTable.MaskFitsInt` | project2代码/src/container/hash/extendible_hash_table.cpp:31-34 | with distinct 31-bit hashes and buckets of three or more the mask shift stays inside an int |
| `LruK.LRUKReplacer.constructor` | project2代码/src/buffer/lru_k_replacer.cpp:17-17 | an empty replacer; k may be anything but 1, for which the code erases an absent entry |
| `LruK.LRUKReplacer.RecordAccess` | project2代码/src/buffer/lru_k_replacer.cpp:55-84 | the history of accesses grows by one; history list, cache list, iterator maps, counts and flags stay in step with it |
| `LruK.LRUKReplacer.SetEvictable` | project2代码/src/buffer/lru_k_replacer.cpp:86-103 | the history records the mark, the size counts exactly the evictable frames |
| `LruK.LRUKReplacer.Remove` | project2代码/src/buffer/lru_k_replacer.cpp:105-130 | forgets an evictable frame, throws on a tracked frame that is not evictable, ignores an untracked one |
| `LruK.LRUKReplacer.Evict` | project2代码/src/buffer/lru_k_replacer.cpp:19-53 | succeeds exactly when some frame is evictable and returns the victim the access history determines |
| `LruK.LRUKReplacer.Size` | project2代码/src/buffer/lru_k_replacer.cpp:132-135 | the number of evictable frames of the history |
| `LruK.LRUKReplacer.LastEvictable` | project2代码/src/buffer/lru_k_replacer.cpp:24-49 | the position of the last evictable frame of a list, which is the oldest one |
| `LruK.OneVictim` | project2代码/src/buffer/lru_k_replacer.cpp:19-53 | any set of tracked frames has exactly one victim: the policy is a choice, and Evict can find one whenever some frame is evictable |
| `LruK.SizeStep` | project2代码/src/buffer/lru_k_replacer.cpp:86-130 | curr_size_ moves by exactly what the set of evictable frames does |
| `LruK.PolicyKeptIff` | project2代码/src/include/buffer/lru_k_replacer.h:29-35 | the code evicts the frame the class comment promises, for every set of candidates, exactly when first and last accesses rank frames below k accesses alike, and last and k-th last accesses the others |
| `LruK.PolicyNotAlwaysKept` | project2代码/src/include/buffer/lru_k_replacer.h:29-35 | a history of frames with k accesses in which the promised victim is not the one the code picks |
| `LruK.ClassicalLruNotKept` | project2代码/src/include/buffer/lru_k_replacer.h:33-35 | another one of frames with fewer than k accesses |
| `BufferPool.DiskManager.WritePage` | project2代码/src/storage/disk/disk_manager.cpp:80-94 | the page on disk is the data, all other pages read as before |
| `BufferPool.DiskManager.ReadPage` | project2代码/src/storage/disk/disk_manager.cpp:99-123 | the bytes on disk, zeros for a page just past the end, and the buffer unchanged beyond |
| `BufferPoolManager.BufferPoolManagerInstance.constructor` | project2代码/src/buffer/buffer_pool_manager_instance.cpp:20-32 | all frames free and blank; the joint invariant holds |
| `BufferPoolManager.BufferPoolManagerInstance.AcquireFrame` | project2代码/src/buffer/buffer_pool_manager_instance.cpp:55-75 | takes a free frame if the pool has fewer pages than frames, and otherwise drops the page that is the LRU-K victim of the uses of the unpinned pages, which never fails when some frame is unpinned; no page changes for any client |
| `BufferPoolManager.BufferPoolManagerInstance.NewPg` | project2代码/src/buffer/buffer_pool_manager_instance.cpp:40-86 | null exactly when every frame is pinned, and then nothing changes; otherwise a page id never handed out before, pinned once, all zeros, and used once; all other pages but the one dropped are there, with their uses |
| `BufferPoolManager.BufferPoolManagerInstance.FetchPg` | project2代码/src/buffer/buffer_pool_manager_instance.cpp:88-139 | null exactly when the page is not resident and every frame is pinned; otherwise the bytes last written to the page, which is used once more, or for the first time; all other pages but the one dropped are there, with their uses |
| `BufferPoolManager.BufferPoolManagerInstance.UnpinPg` | project2代码/src/buffer/buffer_pool_manager_instance.cpp:141-164 | one pin less, false for a page without pins; the last pin makes the frame evictable; no use of any page is added or forgotten |
| `BufferPoolManager.BufferPoolManagerInstance.FlushPg` | project2代码/src/buffer/buffer_pool_manager_instance.cpp:166-179 | the page on disk is the page in memory; no page changes for any client |
| `BufferPoolManager.BufferPoolManagerInstance.LandFlush` | project2代码/src/buffer/buffer_pool_manager_instance.cpp:166-179 | the write of a flush that comes late, in a state in which it may land, changes no page for any client |
| `BufferPoolManager.BufferPoolManagerInstance.FlushAllPgs` | project2代码/src/buffer/buffer_pool_manager_instance.cpp:181-186 | afterwards the disk alone shows every page |
| `BufferPoolManager.BufferPoolManagerInstance.DeletePg` | project2代码/src/buffer/buffer_pool_manager_instance.cpp:188-212 | refuses exactly pinned pages; frees the frame of a resident one, with its uses, and leaves all other pages and theirs |
| `BufferPoolManager.BufferPoolManagerInstance.NoCollisions` | project2代码/src/include/buffer/buffer_pool_manager_instance.h:148-148 | page ids collide nowhere, so that the page table always ends its split loop |
| `BufferPoolManager.BufferPoolManagerInstance.PageTableDepth` | project2代码/src/include/buffer/buffer_pool_manager_instance.h:148-148 | the global depth of the page table stays at most 30 |
| `BufferPool.EvictDetaches` | project2代码/src/buffer/buffer_pool_manager_instance.cpp:60-75 | eviction takes a frame out of page table and replacer and keeps the fit of everything else |
| `BufferPool.EvictEffect` | project2代码/src/buffer/buffer_pool_manager_instance.cpp:63-75 | no page changes for any client by an eviction, under the reporting discipline |
| `BufferPool.InstallFits` | project2代码/src/buffer/buffer_pool_manager_instance.cpp:76-85 | a page installed in a waiting frame restores the joint invariant |
| `BufferPool.UnpinEffect` | project2代码/src/buffer/buffer_pool_manager_instance.cpp:141-164 | the discipline survives an unpin exactly when the call reports, is not the last, or has nothing to report |
| `BufferPool.RoomIff` | project2代码/src/buffer/buffer_pool_manager_instance.cpp:43-53 | some frame is unpinned exactly when fewer pages are pinned than there are frames |
| `BufferPool.UnpinnedIsEvictable` | project2代码/src/buffer/buffer_pool_manager_instance.cpp:55-64 | with an empty free list every unpinned frame can be evicted, so the unchecked calls succeed |
| `BufferPool.LateFlushIff` | project2代码/src/buffer/buffer_pool_manager_instance.cpp:166-179 | a flush that writes late, because it takes no latch, is harmless whatever clients have put into the frame, if it is pinned, exactly when the frame still holds the page, or the page is resident elsewhere and dirty or unreported, or the frame is not pinned and has the bytes of the page on disk |
| `PageStore.Perform` | project2代码/src/buffer/buffer_pool_manager_instance.cpp:40-212 | one operation of the pool is one step of a store of pages that knows no frames, replacer, dirty flags or disk, with the same answer, and moves pages in and out by their uses |
| `PageStore.PerformAll` | project2代码/src/buffer/buffer_pool_manager_instance.cpp:40-212 | every run of the pool is a run of that store, and every page that is pinned throughout stays in its frame |
| `PageStore.PerformFromStart` | project2代码/src/buffer/buffer_pool_manager_instance.cpp:20-212 | the same from a new pool on |
| `PageStore.PointerStaysGood` | project2代码/src/buffer/buffer_pool_manager_instance.cpp:40-212 | over a run the frame of a page that is pinned throughout keeps its page id, holds the bytes of the store, and the same bytes if nobody writes to it |
| `PageStore.FlushAcross` | project2代码/src/buffer/buffer_pool_manager_instance.cpp:166-179 | a flush with any run between its lookup and its write is seen by no client if the page is pinned throughout, and leaves the page on disk as it is |
| `PageStore.SpoiledFromStart` | project2代码/src/buffer/buffer_pool_manager_instance.cpp:166-179 | from a new pool of one frame: a flush of an unpinned page, interrupted, leaves the bytes of another page in its place |
| `PageStore.ReadYourWrites` | project2代码/src/buffer/buffer_pool_manager_instance.cpp:88-139 | through any run that neither writes nor deletes it a page keeps its bytes, and every fetch of it returns them |
| `PageStore.NewPagesAreFresh` | project2代码/src/buffer/buffer_pool_manager_instance.cpp:40-86 | over a run no page id is handed out twice and every new page is zeros |
| `PageUsage.FreeIff` | project2代码/src/buffer/buffer_pool_manager_instance.cpp:55-75 | the pool has a free frame exactly if it has fewer pages than frames |
| `PageUsage.VictimPage` | project2代码/src/buffer/buffer_pool_manager_instance.cpp:60-75 | the victim among the frames of the replacer is the victim among the unpinned pages, by number, first and last of their uses since they came |
| `PageCache.OneNext` | project2代码/src/buffer/lru_k_replacer.cpp:19-53 | among the unpinned pages there is one to be dropped next |
| `PageCache.PerformCached` | project2代码/src/buffer/buffer_pool_manager_instance.cpp:40-212 | over every run the pool has the pages of a cache that knows only the calls of the clients and their answers: every new page and every fetch counts as one use, and when a page must go it is the one with the earliest first use among those used less than k times, or else the one with the earliest last use |
| `PageCache.PerformCachedFromStart` | project2代码/src/buffer/buffer_pool_manager_instance.cpp:20-212 | the same from a new pool, with no pages and no uses, on |
| `SortedEntries.InsertMap` | project2代码/src/storage/page/b_plus_tree_leaf_page.cpp:70-88 | inserting into sorted entries adds the key to their map unless it is there |
| `SortedEntries.DeleteMap` | project2代码/src/storage/page/b_plus_tree_leaf_page.cpp:114-122 | deleting takes the key out of the map |
| `BPlusTreeProofs.TreeIsMap` | project2代码/src/storage/index/b_plus_tree.cpp:34-51 | the entries of a sound tree are in order, and searching the tree is searching them |
| `BPlusTreeProofs.InsertRootSound` | project2代码/src/storage/index/b_plus_tree.cpp:64-207 | inserting keeps the tree ordered, balanced and filled, and its entries are the old ones with the new one inserted |
| `BPlusTreeProofs.RemoveRootSound` | project2代码/src/storage/index/b_plus_tree.cpp:220-403 | removing keeps it so, and its entries are the old ones without the key |
| `BPlusTreePaths.InsertByPath` | project2代码/src/storage/index/b_plus_tree.cpp:162-207 | splitting upwards along the path of the search is inserting recursively |
| `BPlusTreePaths.RemoveByPath` | project2代码/src/storage/index/b_plus_tree.cpp:255-350 | repairing upwards is removing recursively |
| `BPlusTreeIndex.ValueIndex` | project2代码/src/storage/page/b_plus_tree_internal_page.cpp:57-60 | the only position of a page among the children of its parent |
| `BPlusTreeIndex.Index.constructor` | project2代码/src/storage/index/b_plus_tree.cpp:11-18 | an empty index |
| `BPlusTreeIndex.Index.FindLeaf` | project2代码/src/storage/index/b_plus_tree.cpp:456-525 | the leaf in which the key belongs, with the latches kept: those from the last safe page on, and that of the root id if no page was safe; no child is page 0 |
| `BPlusTreeIndex.Index.GetValue` | project2代码/src/storage/index/b_plus_tree.cpp:34-51 | the value of the key in the map the index stands for |
| `BPlusTreeIndex.Index.Insert` | project2代码/src/storage/index/b_plus_tree.cpp:64-129 | the map becomes m[key := value] if the key is new and stays otherwise; the pages hold a sound tree with right parents and links; only latched pages get other contents, and the root changes only under its latch |
| `BPlusTreeIndex.Index.StartNewTree` | project2代码/src/storage/index/b_plus_tree.cpp:76-91 | one leaf with the entry |
| `BPlusTreeIndex.Index.InsertIntoLeaf` | project2代码/src/storage/index/b_plus_tree.cpp:94-129 | inserts into the leaf or splits it; refuses exactly a key that is there |
| `BPlusTreeIndex.Index.SplitLeafPage` | project2代码/src/storage/index/b_plus_tree.cpp:117-128 | both halves are linked and the new one goes into the parent |
| `BPlusTreeIndex.Index.InsertIntoParent` | project2代码/src/storage/index/b_plus_tree.cpp:162-207 | carries a split up to the first node with room, or to a new root |
| `BPlusTreeIndex.Index.Split` | project2代码/src/storage/index/b_plus_tree.cpp:133-159 | the upper half of a node moves to a new page with its children's parent ids |
| `BPlusTreeIndex.Index.Remove` | project2代码/src/storage/index/b_plus_tree.cpp:220-251 | the map becomes m - {key}; the pages hold a sound tree and none that is no longer used; only latched pages and neighbours get other contents |
| `BPlusTreeIndex.Index.CoalesceOrRedistribute` | project2代码/src/storage/index/b_plus_tree.cpp:255-328 | repairs a node that has become too small and says whether its page is no longer used |
| `BPlusTreeIndex.Index.Coalesce` | project2代码/src/storage/index/b_plus_tree.cpp:332-350 | merges two neighbours and repairs their parent |
| `BPlusTreeIndex.Index.AdjustRoot` | project2代码/src/storage/index/b_plus_tree.cpp:383-403 | an empty root leaf goes and a root with one child gives way to it |
| `BPlusTreeIndex.Index.MoveLastToFrontOf` | project2代码/src/storage/page/b_plus_tree_internal_page.cpp:165-184 | the last item of a page goes to the front of the next |
| `BPlusTreeIndex.Index.MoveFirstToEndOf` | project2代码/src/storage/page/b_plus_tree_internal_page.cpp:143-162 | the first item of a page goes to the end of the one before |
| `BPlusTreeIndex.Index.MoveAllTo` | project2代码/src/storage/page/b_plus_tree_internal_page.cpp:135-140 | all items of a page go to the one before |
| `BPlusTreeLatches.InsertLatched` | project2代码/src/storage/index/b_plus_tree.cpp:499-509 | a split stops below or at the topmost latched page |
| `BPlusTreeLatches.RemoveLatched` | project2代码/src/storage/index/b_plus_tree.cpp:510-518 | so does a repair |
| `BPlusTreeIterator.Begin` | project2代码/src/storage/index/b_plus_tree.cpp:413-420 | an iterator over all entries |
| `BPlusTreeIterator.End` | project2代码/src/storage/index/b_plus_tree.cpp:445-453 | an iterator with none to come |
| `BPlusTreeIterator.BeginAt` | project2代码/src/storage/index/b_plus_tree.cpp:428-437 | an iterator over the entries from the key on exactly if the key is not beyond its leaf or the leaf is the last, and so for every key in the index; otherwise one that is astray |
| `BPlusTreeIterator.AstrayForever` | project2代码/src/storage/index/index_iterator.cpp:34-58 | an iterator that is astray comes to no entry and to no end, however often it is advanced |
| `BPlusTreeIterator.KeyBetweenLeaves` | project2代码/src/storage/index/b_plus_tree.cpp:428-437 | a sound index and a key for which that happens |
| `BPlusTreeIterator.IndexIterator.IsEnd` | project2代码/src/storage/index/index_iterator.cpp:34-36 | whether no entries are to come |
| `BPlusTreeIterator.IndexIterator.Item` | project2代码/src/storage/index/index_iterator.cpp:39-39 | the next entry |
| `BPlusTreeIterator.IndexIterator.Next` | project2代码/src/storage/index/index_iterator.cpp:42-58 | one entry less to come, across the leaves |
| `BPlusTreeIterator.Scan` | project2代码/src/storage/index/index_iterator.cpp:34-58 | a loop to the end reads all entries in order |
| `BPlusTreeLimits.LimitsIff` | project2代码/src/storage/index/b_plus_tree.cpp:11-18 | for all positive sizes: insertion and removal keep every sound tree sound exactly when a leaf has two entries or more and a node three children or more |
| `BPlusTreeLimits.OneEntryLeaves` | project2代码/src/storage/page/b_plus_tree_leaf_page.cpp:91-95 | with leaves for one entry the second insertion loses its entry |
| `BPlusTreeLimits.TwoChildNodes` | project2代码/src/storage/page/b_plus_tree_internal_page.cpp:99-119 | with leaves for two entries and nodes for two children three insertions and a removal leave an empty leaf |
| `ExpressionLaws.ArithmeticLaw` | project2代码/src/include/execution/expressions/arithmetic_expression.h:47-90 | plus and minus are sum and difference of the integers modulo 2^32, and null exactly if an operand is; on one row and on two |
| `ExpressionLaws.SumLaws` | project2代码/src/include/execution/expressions/arithmetic_expression.h:78-90 | zero is neutral, the order does not matter, and the difference takes the sum back, wrap-around included |
| `ExpressionLaws.ComparisonLaw` | project2代码/src/include/execution/expressions/comparison_expression.h:39-80 | a comparison is true or false as the values are ordered, and null exactly if they have no order |
| `ExpressionLaws.Trichotomy` | project2代码/src/include/execution/expressions/comparison_expression.h:62-80 | of two comparable values exactly one comes first or they are equal |
| `ExpressionLaws.LogicLaw` | project2代码/src/include/execution/expressions/logic_expression.h:47-103 | AND is true exactly if both operands are, and false exactly if one is; OR the other way round; null otherwise |
| `ExpressionLaws.StringLessIs` | project2代码/src/type/varlen_type.cpp:73-83 | strings are ordered by their first difference, and a string comes after its beginnings |
| `ExpressionLaws.ColumnLaw` | project2代码/src/include/execution/expressions/column_value_expression.h:38-46 | a column is that of the row, or of the left or the right row by its tuple index |
| `OptimizerSoundness.RewriteKeepsValue` | project2代码/src/optimizer/merge_filter_nlj.cpp:18-37 | a rewritten expression has on the two rows of a join the value the old one has on their concatenation, and is never out of range |
| `OptimizerSoundness.FilterJoin` | project2代码/src/optimizer/merge_filter_nlj.cpp:46-75 | filtering an INNER join on true is joining on the rewritten filter, row for row |
| `OptimizerSoundness.MergeFilterNLJSound` | project2代码/src/optimizer/merge_filter_nlj.cpp:46-75 | the rule keeps rows and types, and a filter above it can still be merged |
| `OptimizerSoundness.MergeProjectionSound` | project2代码/src/optimizer/merge_projection.cpp:12-55 | an identity projection over a child of the same types can be dropped |
| `OptimizerSoundness.SameMatches` | project2代码/src/optimizer/nlj_as_index_join.cpp:24-33 | a key finds the same row in the table and in an index with distinct keys |
| `OptimizerSoundness.NLJAsIndexJoinSound` | project2代码/src/optimizer/nlj_as_index_join.cpp:35-91 | the index join has the rows of the loop join, INNER and LEFT, in both orders of the operands |
| `OptimizerSoundness.NLJAsHashJoinSound` | project2代码/src/optimizer/nlj_as_hash_join.cpp:20-63 | so has the hash join |
| `OptimizerSoundness.OnlyOrder` | project2代码/src/optimizer/order_by_index_scan.cpp:63-70 | a strictly ascending arrangement of some rows is the only sorted one |
| `OptimizerSoundness.KeyNameIsColumn` | project2代码/src/optimizer/order_by_index_scan.cpp:63-70 | the index found by column name is an index on that column |
| `OptimizerSoundness.OrderByAsIndexScanSound` | project2代码/src/optimizer/order_by_index_scan.cpp:24-75 | the index scan has the rows of the sort in the same order |
| `IndexBuilding.Populate` | project2代码/src/include/catalog/catalog.h:231-236 | the entries of an index built row by row, where a key that is there is refused |
| `IndexBuilding.PopulatedFinds` | project2代码/src/include/catalog/catalog.h:231-236 | the index leads to the first row of each key |
| `IndexBuilding.PopulatedIff` | project2代码/src/include/catalog/catalog.h:231-236 | it has all rows of the table exactly when their keys are distinct |
| `IndexBuilding.IndexJoinIff` | project2代码/src/optimizer/nlj_as_index_join.cpp:35-91 | the join over such an index has the rows of the loop join exactly when every key that is looked up is in the table at most once |
| `IndexBuilding.IndexScanIff` | project2代码/src/optimizer/order_by_index_scan.cpp:24-75 | a scan of it is the sorted table exactly when the keys are distinct |
| `IndexBuilding.RepeatedValueLost` | project2代码/src/optimizer/nlj_as_index_join.cpp:35-91 | a join with a table that has a value twice, which loses a row |
| `OptimizerSoundness.EverywhereSound` | project2代码/src/optimizer/merge_filter_nlj.cpp:46-51 | a rule that is sound at one node is sound when applied bottom up to a whole plan |
| `OptimizerSoundness.Width` | project2代码/src/execution/plan_node.cpp:16-60 | the rows of a good plan are as wide as its schema |
| `OptimizerSoundness.OptimizeCustomSound` | project2代码/src/optimizer/optimizer_custom_rules.cpp:10-19 | the pipeline throws nowhere and keeps rows, order and types of every good plan whose filters are merged into INNER joins on true or not at all, and no rule makes a filtered scan |
| `OptimizerSoundness.OptimizeThrowsIff` | project2代码/src/optimizer/optimizer_custom_rules.cpp:10-19 | on every plan with columns in range the pipeline throws exactly when a filter ends up above a join on a constant that does not cast to a boolean |
| `OptimizerForms.OptimizedForm` | project2代码/src/optimizer/optimizer_custom_rules.cpp:10-19 | in what the pipeline makes of any plan no renaming projection, no filter over a join on true, no join of a column with an indexed one and no sort by an indexed column is left that a rule would rewrite |
| `MergeFilterExact.MergeFilterNLJIff` | project2代码/src/optimizer/merge_filter_nlj.cpp:46-75 | for every join type and every constant read as true: the rule keeps the rows exactly when it is safe for each left row |
| `MergeFilterExact.LeftJoinChanged` | project2代码/src/optimizer/merge_filter_nlj.cpp:63-70 | a plan, a LEFT join on the boolean true, whose rows the rule changes |
| `MergeFilterExact.NullPredicateChanged` | project2代码/src/optimizer/merge_filter_nlj.cpp:39-44 | a plan, an INNER join on a null boolean, which reads as true, whose rows the rule changes |
| `AggregationPlanning.PlanExprIff` | project2代码/src/planner/plan_expression.cpp:136-166 | planning an expression takes exactly its calls, and fails for want of calls only when too few are left |
| `AggregationPlanning.PlanExprMeaning` | project2代码/src/planner/plan_expression.cpp:136-166 | the planned expression has the value of the bound one when the columns it takes have the values of its calls |
| `AggregationPlanning.AggregateCallIff` | project2代码/src/planner/expression_factory.cpp:13-36 | there are calls of exactly five names, with their numbers of arguments, and each is of the kind of its name |
| `AggregationPlanning.PlannedCall` | project2代码/src/planner/plan_aggregation.cpp:27-45 | the aggregate a call is planned as has in every group the value that the name of the call says, over the values of its argument as written |
| `AggregateValues.KindMeansName` | project2代码/src/include/execution/executors/aggregation_executor.h:45-86 | combining the values of a group one by one gives the count, the sum, the least or the greatest of all of them |
| `AggregateValues.OneCallValue` | project2代码/src/include/execution/executors/aggregation_executor.h:45-86 | which is one value |
| `AggregateGroups.HashTableGroups` | project2代码/src/include/execution/executors/aggregation_executor.h:91-96 | a table of groups by key has every row in exactly one group, groups of equal keys and of no others, and one result for each |
| `AggregateGroups.AggregatorExists` | project2代码/src/include/execution/executors/aggregation_executor.h:91-96 | so there is an aggregation as the statements on rows take it for granted |
| `AggregationPlanning.PlanAggregationIff` | project2代码/src/planner/plan_aggregation.cpp:84-139 | the aggregation is planned exactly when GROUP BY has no calls and each call can be planned by itself; column i behind the group-bys is call i |
| `AggregationPlanning.PlanGroupingIff` | project2代码/src/planner/plan_aggregation.cpp:141-163 | the second phase fails only for columns and operators, never for want of calls |
| `AggregationPlanning.AggregationAligned` | project2代码/src/planner/plan_aggregation.cpp:50-164 | over the row of every group HAVING and each item have the values they have as written, each call standing for what its name says of the values of its argument in the group |
| `AggregationPlanning.GroupByMeaning` | project2代码/src/planner/plan_aggregation.cpp:84-92 | a group-by means on rows of the child what it means as written, and its column carries its name |
| `AggregationPlanning.GroupByCallThrows` | project2代码/src/planner/plan_aggregation.cpp:88-92 | a call in GROUP BY is an error |
| `AggregationPlanning.NestedCallThrows` | project2代码/src/planner/plan_aggregation.cpp:35-42 | a call inside an argument of another is an error |
| `AggregationPlanning.ReplanIff` | project2代码/src/planner/plan_expression.cpp:102-112 | a planned grouping can be planned again exactly when it has no calls, since they were replaced in place; then the plan is the same |
| `Planner.LookUp` | project2代码/src/planner/plan_expression.cpp:44-54 | the first column of a name and whether it is there twice |
| `Planner.PlanColumnRef` | project2代码/src/planner/plan_expression.cpp:31-95 | the column of the only child, or of one of two; throws on a duplicate, an ambiguous and a missing name |
| `Planner.Planner.PlanExpression` | project2代码/src/planner/plan_expression.cpp:136-166 | is the function PlanExpr, with the counter of taken calls as its only effect |
| `Planner.Planner.AddAggCallToContext` | project2代码/src/planner/plan_expression.cpp:102-134 | appends the calls from left to right and leaves numbered pseudo calls in their places; throws exactly on unsupported expressions |
| `Planner.Planner.PlanAggCall` | project2代码/src/planner/plan_aggregation.cpp:27-45 | plans a call without calls to take and restores the context |
| `Planner.Planner.PlanSelectAgg` | project2代码/src/planner/plan_aggregation.cpp:50-164 | is the function PlanGrouping, restores the context, and leaves the statement rewritten |
| `Planner.Planner.PlanInPlace` | project2代码/src/planner/plan_aggregation.cpp:94-102 | the grouping is planned as it stands, and what is recorded for its place is what the source leaves there |
| `Planner.Planner.PlanClauses` | project2代码/src/planner/plan_select.cpp:54-153 | is the function PlanStatement: WHERE, items, DISTINCT, ORDER BY, LIMIT of the statement as it is by now, which loses its calls |
| `Planner.Planner.PlanSelect` | project2代码/src/planner/plan_select.cpp:35-156 | is the function PlanSelectInPlace and restores the context, for every statement on which planning ends, be it by throwing; the statements without calls are those the source leaves so |
| `Planner.Planner.PlanQuery` | project2代码/src/planner/planner.cpp:26-31 | is the function PlanQuery on a select statement, of which nothing was planned before |
| `Planner.Planner.PlanSubquery` | project2代码/src/planner/plan_table_ref.cpp:66-86 | is planning the select where it stands and renaming its columns by position |
| `Planner.Planner.PlanTableRef` | project2代码/src/planner/plan_table_ref.cpp:34-139 | is the function PlanTableInPlace, under the same condition: a use of a definition plans the one statement all uses share |
| `Planner.Planner.PlanExpressionListRef` | project2代码/src/planner/plan_table_ref.cpp:141-168 | all rows planned without columns, the schema from the first row |
| `SelectMeaning.WhereMeans` | project2代码/src/planner/plan_select.cpp:54-58 | WHERE keeps the rows on which it is true as written |
| `SelectMeaning.PlainItemsMean` | project2代码/src/planner/plan_select.cpp:71-87 | each row becomes the values of the items as written |
| `SelectMeaning.PlainItemsNamed` | project2代码/src/planner/plan_select.cpp:76-83 | columns have the names of the items, and those without one are numbered in turn |
| `SelectMeaning.GroupsMean` | project2代码/src/planner/plan_aggregation.cpp:84-92 | the groups are those of the rows that agree on the group-bys as written |
| `SelectMeaning.GroupItemsMean` | project2代码/src/planner/plan_aggregation.cpp:50-164 | the groups on which HAVING is true as written become the values of the items as written, calls being those of the group |
| `SelectMeaning.DistinctMeans` | project2代码/src/planner/plan_select.cpp:89-102 | DISTINCT leaves each row once |
| `SelectMeaning.OrderByMeans` | project2代码/src/planner/plan_select.cpp:104-113 | ORDER BY gives the same rows, none before an earlier one by the first order-by, as written and in its direction, on which the two differ |
| `SelectMeaning.LimitMeans` | project2代码/src/planner/plan_select.cpp:115-153 | LIMIT gives the first rows, as many as it says; a negative one says 2^64 more |
| `SelectMeaning.ClausesReturn` | project2代码/src/planner/plan_select.cpp:54-153 | the rows of a planned statement, by the statement alone: items on the rows or groups that pass, each once if distinct, in order, up to the limit |
| `TableMeaning.ConditionMeans` | project2代码/src/planner/plan_expression.cpp:57-95 | a join condition has on two rows the value it has as written, each column of the table that has its name |
| `TableMeaning.JoinReturns` | project2代码/src/planner/plan_table_ref.cpp:112-139 | a join returns each left row with the right rows on which the condition is true, or with nulls if there are none and it is a left join; a cross product all pairs |
| `TableMeaning.SubqueryReturns` | project2代码/src/planner/plan_table_ref.cpp:66-86 | a subquery returns the rows of its statement, with the types of its columns and names by position |
| `TableMeaning.ListReturns` | project2代码/src/planner/plan_table_ref.cpp:141-168 | a list returns the values of its expressions as written |
| `TableMeaning.SelectReturns` | project2代码/src/planner/plan_select.cpp:35-156 | a planned select statement returns what it says over the rows of its FROM clause |
| `TableMeaning.QueryReturns` | project2代码/src/planner/planner.cpp:26-31 | so does a whole query, planned in place |
| `StarExpansion.StarAgrees` | project2代码/src/binder/bind_select.cpp:345-399 | the columns expanded by the binder's list are named as the schema planned by the planner's list is, in order, for every tree of tables, joins, cross products, subqueries and common table expressions whose entries have the same columns in both lists |
| `StarExpansion.SelectWidth` | project2代码/src/planner/plan_select.cpp:35-156 | a planned select has one column per item of its list |
| `StarExpansion.SelectStar` | project2代码/src/planner/plan_select.cpp:72-87 | select * can be planned exactly when the columns of its tables have distinct names; merging projections then leaves the plan of the tables |
| `InPlacePlanning.LeftBehind` | project2代码/src/planner/plan_expression.cpp:102-112 | the set of places whose statements have lost their calls says what planning leaves of each statement |
| `InPlacePlanning.TableInPlaceIs` | project2代码/src/planner/plan_table_ref.cpp:34-139 | planning a table where it stands, from any state, makes the plan it has as bound if there is one and planning comes to no statement with calls again, and throws otherwise; the statements with calls it came to have lost them |
| `InPlacePlanning.SelectInPlaceIs` | project2代码/src/planner/plan_select.cpp:35-156 | the same of a select statement |
| `InPlacePlanning.EndsToo` | project2代码/src/planner/plan_table_ref.cpp:34-139 | it ends wherever planning as bound does |
| `InPlacePlanning.SamePlan` | project2代码/src/planner/plan_table_ref.cpp:122-129 | the plan does not depend on the bound on definitions in a row |
| `InPlacePlanning.TablePlannedIff` | project2代码/src/planner/plan_table_ref.cpp:122-129 | on every table on which planning ends, the plan is that of the table with each name replaced by a copy of its definition in the list in force; it throws exactly when a name is missing, the definitions do not end, a statement with calls is come to again, or that table throws |
| `InPlacePlanning.QueryPlannedIff` | project2代码/src/planner/planner.cpp:26-31 | the same of a whole statement: the places of the statements with calls, as often as they are come to, must not repeat |
| `InPlacePlanning.QueryIs` | project2代码/src/planner/planner.cpp:26-31 | every plan that is made of a statement is the one it has as bound, so that what is proved of those holds of it |
| `InPlacePlanning.DirectQuery` | project2代码/src/planner/planner.cpp:26-31 | without common table expressions planning comes to no statement again |
| `InPlacePlanning.ReachedSelectStand` | project2代码/src/planner/plan_expression.cpp:102-112 | each of those places is that of a statement with calls |
| `InPlacePlanning.PlannedAsBound` | project2代码/src/planner/plan_table_ref.cpp:122-129 | where every name found in the planner's list is that of the bound entry, planning ends, and the plan is that of the table as bound; or it throws, if it comes to a name not in the list or to a statement with calls again |
| `InPlacePlanning.PlannedSelectAsBound` | project2代码/src/binder/bind_select.cpp:144-153 | the same of a statement with its own list |
| `CteScopes.SameExpansions` | project2代码/src/binder/bind_select.cpp:144-153 | where every name found in the planner's list is that of the bound entry, the table with the definitions put in is the same by the planner's lists and by the binder's scopes |
| `CteStatements.OuterNameIsLost` | project2代码/src/planner/plan_select.cpp:36-39 | a statement that returns 1 as it is bound and cannot be planned: an inner definition uses an outer one |
| `CteStatements.OtherEntryIsPlanned` | project2代码/src/planner/plan_table_ref.cpp:122-129 | a statement that returns 1 as it is bound and 2 as it is planned |
| `CteStatements.NamesakeNeverEnds` | project2代码/src/planner/plan_table_ref.cpp:122-129 | a statement that returns 1 as it is bound and on which the planner never ends |
| `CteStatements.ThrowsFirst` | project2代码/src/planner/plan_table_ref.cpp:113-120 | planning ends, by throwing, if the left side of a cross product throws before the right side would go on for ever |
| `CteStatements.SecondUseThrows` | project2代码/src/planner/plan_expression.cpp:102-112 | a statement that uses a definition with a count twice: planned with two copies of it, it is planned; as it stands, planning throws |
| `QuerySoundness.PlannedInRange` | project2代码/src/planner/plan_expression.cpp:31-57 | a planned expression reads only columns of its child |
| `QuerySoundness.TableRefGood` | project2代码/src/planner/plan_table_ref.cpp:34-168 | planned tables are good: columns in range, unfiltered scans, joins of the right types |
| `QuerySoundness.SelectGood` | project2代码/src/planner/plan_select.cpp:35-156 | so is every planned select, with any conditions |
| `QuerySoundness.QueryThrowsIff` | project2代码/src/optimizer/optimizer_custom_rules.cpp:10-19 | the optimizer throws on the plan of a query exactly when a filter ends up above a join on a constant without a truth value |
| `QuerySoundness.QueryKeepsMeaning` | project2代码/src/optimizer/optimizer_custom_rules.cpp:10-19 | the optimizer keeps rows and types of every planned query whose filters are merged into INNER joins on true or not at all |
| `QueryConstants.IntegerConditionThrows` | project2代码/src/optimizer/merge_filter_nlj.cpp:39-70 | join .. on 1 with a WHERE: planned, and then the optimizer throws |
| `QueryConstants.IntegerConditionAlone` | project2代码/src/optimizer/merge_filter_nlj.cpp:46-75 | join .. on 1 without one: the rows stay |
| `QueryConstants.TextConditionChanged` | project2代码/src/optimizer/merge_filter_nlj.cpp:63-70 | left join .. on 'true' with a WHERE: a row appears |
| `Executors.Executor.Init` | project2代码/src/execution/values_executor.cpp:8-8 | whatever was polled before, all rows of the plan are to come |
| `Executors.Executor.Next` | project2代码/src/execution/filter_executor.cpp:16-32 | yields the first row still to come and leaves the others, or says that there is none |
| `Executors.Evaluate` | project2代码/src/execution/projection_executor.cpp:25-32 | the values of the expressions in order |
| `Executors.PollExecutor` | project2代码/src/include/execution/execution_engine.h:86-95 | ends, with all rows that were to come, in order |
| `Executors.Execute` | project2代码/src/include/execution/execution_engine.h:53-77 | the rows a plan of filters and projections over values stands for |
| `Transactions.InsertIntoPage` | project2代码/src/storage/page/table_page.cpp:38-90 | the first empty slot is used again; refuses exactly without room for tuple and slot; the slot, which was empty or new, holds the tuple alive and no other slot changes |
| `Transactions.TableHeaps.InsertTuple` | project2代码/src/storage/table/table_heap.cpp:39-92 | the first page of the chain with room, a new page otherwise, one record; the row was vacant and now holds the tuple, no other row changes; a tuple too large aborts instead |
| `Transactions.TableHeaps.MarkDelete` | project2代码/src/storage/table/table_heap.cpp:94-111 | a live row keeps its tuple and is marked, no other row changes; recorded also when the page refuses |
| `Transactions.TableHeaps.UpdateTuple` | project2代码/src/storage/table/table_heap.cpp:113-132 | a live row holds the new tuple if the page can hold it, no other row changes; recorded unless the transaction is aborted |
| `Transactions.TableHeaps.ApplyDelete` | project2代码/src/storage/table/table_heap.cpp:134-146 | empties the slot and no other |
| `Transactions.TableHeaps.RollbackDelete` | project2代码/src/storage/table/table_heap.cpp:148-157 | takes the mark away, and the row has its tuple; no other row changes |
| `Transactions.TransactionManager.Abort` | project2代码/src/concurrency/transaction_manager.cpp:68-116 | the table records are undone from the back, then the index records |
| `Transactions.TransactionManager.Commit` | project2代码/src/concurrency/transaction_manager.cpp:46-66 | the delete records are carried out from the back |
| `Transactions.WriteIndex` | project2代码/src/concurrency/transaction_manager.cpp:86-106 | a write to an index that leaves the record which abort expects |
| `Transactions.Perform` | project2代码/src/storage/table/table_heap.cpp:39-132 | operations on tables and writes to indexes, in any order, are a run of the tables and a run of the indexes, with both write sets |
| `RowHistory.StepWrites` | project2代码/src/storage/table/table_heap.cpp:39-132 | an operation writes the row it has an effect on, which for an insert was vacant, and no other |
| `RowHistory.LastDecides` | project2代码/src/storage/table/table_heap.cpp:39-132 | after every run a row is what the last operation with an effect on it made of it |
| `RowHistory.NoneDecides` | project2代码/src/storage/table/table_heap.cpp:39-132 | and what it was before, if there is no such operation |
| `Transactions.PerformAndAbort` | project2代码/src/concurrency/transaction_manager.cpp:68-116 | after a transaction that runs and aborts the rows are as at its beginning exactly if AbortRestoresIff says so, and the indexes exactly if IndexesRestoredIff does |
| `TransactionUndo.UndoStep` | project2代码/src/concurrency/transaction_manager.cpp:72-84 | the undo of a record takes back its operation exactly when the operation fits |
| `TransactionUndo.UndoRun` | project2代码/src/concurrency/transaction_manager.cpp:72-84 | all undo calls succeed exactly when all operations fit the pages at the end |
| `TransactionUndo.AbortRestores` | project2代码/src/concurrency/transaction_manager.cpp:68-110 | for runs without unrecorded updates: all undo calls succeed exactly when all operations fit the pages at the end, and then abort restores all rows exactly when the transaction tried to mark no row already marked at its beginning |
| `AbortExact.AbortRestoresIff` | project2代码/src/concurrency/transaction_manager.cpp:68-110 | for every run: abort restores all rows exactly when no row marked at the beginning was marked again, each row with a recorded update finds room for its first tuple when that is undone, and each other row ends with its tuple |
| `AbortExact.RowAfterAbort` | project2代码/src/concurrency/transaction_manager.cpp:72-84 | the same for one row and from any point of the abort on |
| `AbortExact.RunIsAbortable` | project2代码/src/storage/page/table_page.cpp:262-282 | no assertion stops the abort exactly when every slot that was to be marked exists at the end |
| `TransactionUndo.ForeignMarkIsLost` | project2代码/src/storage/table/table_heap.cpp:94-111 | a run whose abort takes another transaction's mark away |
| `TransactionUndo.UpdateIsNotUndone` | project2代码/src/storage/page/table_page.cpp:158-161 | a run on a full page whose update is not undone |
| `TransactionUndo.LateUpdateIsLost` | project2代码/src/storage/table/table_heap.cpp:127-130 | an update after the transaction was aborted is not undone |
| `TransactionUndo.CommitIff` | project2代码/src/concurrency/transaction_manager.cpp:46-66 | commit goes through exactly when every deleted row is there and none is recorded twice, and then empties exactly their slots |
| `IndexUndo.RevertIff` | project2代码/src/concurrency/transaction_manager.cpp:96-106 | an index write is undone exactly when it was effective |
| `IndexUndo.KeyAfterAbort` | project2代码/src/concurrency/transaction_manager.cpp:86-108 | what an abort leaves of a key depends only on the records about it: nothing if the first brings it in, and so on |
| `IndexUndo.IndexesRestoredIff` | project2代码/src/concurrency/transaction_manager.cpp:86-108 | abort restores all indexes exactly when every key that was written had at the beginning what the records leave |
| `IndexUndo.DuplicateKeyLoses` | project2代码/src/concurrency/transaction_manager.cpp:98-99 | undoing an insert of a taken key removes the other row's entry |

## Left out

- Threads: each latched method of the pool is one step, and only the flush, which takes no latch, is also taken apart. Operations of the index run one at a time; which latches they keep and that they change nothing else is proved, interleavings are not.
- The index on the pool: its pages are values in a map. Pages that cannot be had, the record of the root in the header page, and the comparison of keys are not modelled; keys are their places in the comparator's order.
- Executors that are placeholders: scans, joins, sorts, limits, aggregation and modification have a meaning in `Plans.Rows` but no executor. Combining the values of a group is left open in the source; what it is here follows from the initial values and the names of the aggregates.
- The parser and the binder, except for the columns of `*`; bound statements are the input.
- Numeric types other than 32-bit integers, and comparison of values of different types, which gives null here.
- Conditions that are not booleans: the filter executor reads one byte of the value as a bool, and here they let no row pass.
- File offsets: `DiskManager::ReadPage` computes its offset in an int, which overflows beyond two gigabytes.
- I/O errors, and a buffer pool without free frames below the table heap.
- The bytes of a table page: slots are values, and moving tuples inside the page is not modelled.
- Optimizer rules that are not called, except for the hash join.
- Logging, recovery, locks, and the other replacers.
- TransactionUndo.AbortRestores: only for runs without unrecorded updates, because its condition on space compares with the pages of the run; `AbortExact.AbortRestoresIff` has no such condition.
- QuerySoundness.QueryKeepsMeaning: sufficient, because whether the rows stay otherwise depends on the rows; `MergeFilterExact.MergeFilterNLJIff` is exact for one filter over a join.
- TransactionUndo.UndoStep: not for the update of an aborted transaction, which leaves no record to undo; `AbortExact.RowAfterAbort` covers it.
- TransactionUndo.UndoRun: only for runs without unrecorded updates, like `AbortRestores`; `AbortExact.AbortRestoresIff` is for every run.
- Planner.Planner.PlanSelect: excludes statements on which the planner never ends, and says nothing of what a throw leaves of the statements, because planning is over then.
- InPlacePlanning.PlannedAsBound: only where the two lists agree; what is planned elsewhere is said by `InPlacePlanning.TablePlannedIff`.
