# SkibidiQL native engine: a verified model

A model of the native engine of SkibidiQL in Dafny. The engine stores tables in heap files of
slotted pages behind a buffer pool, indexes primary keys with B+ trees, undoes statements with
a write-ahead log, locks by ordered acquisition, and answers queries by several paths that are
meant to agree: generic evaluation, reordered and hashed joins, rowid-seek joins, direct and
dense aggregation, column vectors, and an optimizer in front of them. It also keeps a JSON
catalog and a context store of conversation atoms.

Each layer refines the one above it:

- bytes of a page, frames of the pool, pages of a file: `PageFormat`, `SlottedPage`,
  `BufferPool`, `HeapPages`, `HeapFile`, `TableFiles`, with the tuple codec in `TupleCodec` and
  `TupleDecoders`; `StoredTables` shows that a statement on the files has the effect that the
  engine's model of it states, wherever the files put the rows;
- the log as bytes, as records and as a protocol: `Wal`, `WalBytes`, `WalProtocol`; and why a
  statement writes only what is logged: `LoggedChanges`;
- the index as nodes, as a leaf chain, as an object and as the engine's map from keys to rows:
  `BPlusTree`, `BPlusTreeChain`, `BPlusTreeIndex`, `BPlusTreeProbe`, `PrimaryTree`, `PrimaryIndex`;
- statements, their checks and caches: `Tables`, `Changes`, `ColumnStatistics`, `Engine`,
  `Transactions`;
- the meaning of a query, and the paths that have to keep it: `Expressions`, `Query`;
  `ConstantFolding`, `Optimizer`, `KeyRewrites`; `SourceJoins`, `KeyIndex`, `JoinPlanner`,
  `JoinExecution`, `JoinEquivalence`, `JoinTheorem`, `SeekJoins`; `ColumnPredicates`,
  `AggregateStates`, `GroupedQueries`, `DirectAggregates`, `DenseGroups`, `AggregateQuery`;
  `TypedVectors`, `VectorEvaluation`, `VectorGroups`, `Streaming`, `VectorSelect`;
- locks: `Locks`, `LockSystem`; the context store: `ContextTabs`, `ContextStore`, `ContextView`;
  the catalog file: `JsonText`, `JsonShapes`, `JsonReader`, `CatalogJson`, `Catalogs`,
  `CatalogFiles`.

Objects whose methods change fields are classes; loops are methods proved against the functions
that say what they compute. Sizes from the configuration (page size, batch size, Bloom bits,
dense span) and what the engine takes from its surroundings (hash functions, the printing of
numbers, the bits of a double) are constants without a value, so every theorem holds for all of
them. Batches are arbitrary nonempty lists of rows.

`dafny verify dfyconfig.toml` checks the whole project.

## Findings

Where the code does not keep what one would expect of it, the model keeps the code as it is, a
lemma gives an input, and the exact condition is proved.

- A primary-key lookup coerces its literal first. `PrimaryIndex.FractionFindsInteger`: `key = 1.5`
  on an INTEGER key finds the row 1, a filtered scan finds nothing. It answers like the scan on
  every table if and only if the literal is NULL or coercion gives an equal value
  (`PrimaryIndex.CoercedLookup`).
- SUM and AVG with DISTINCT add equal values once on the vectorised path and each time on the
  generic one. `AggregateStates.SumDistinctDiffers`: 1 and 1 give 1 and 2. The paths agree on all
  columns of one type if and only if the aggregate is not SUM or AVG with DISTINCT
  (`AggregateStates.DistinctPaths`).
- Removing a HAVING that is a true literal changes an aggregate without GROUP BY over no rows,
  where a literal is NULL. `Optimizer.TrueHavingOverNoRows`: COUNT(*) gives no row before and 0
  after. `Optimizer.DeadCodeIff` gives the exact form of the statements concerned.
- Constant folding has the same exception: AND, OR and NOT of literals are not NULL over no rows,
  the literal they fold to is. It keeps all expressions on a group if and only if the group has
  rows (`ConstantFolding.FoldKeepsGroups`); of the expressions that fold to a literal, over no
  rows exactly those keep their value that are no AND, OR or NOT
  (`ConstantFolding.FoldedLiteralIff`). For the optimizer as a whole the empty table decides
  (`KeyRewrites.EmptyTableDecides`).
- A plain column that is no GROUP BY expression shows its group's first value that is not NULL
  on the vectorised and the streaming path and the first row's value otherwise. So the vectors and
  the generic path differ on statements that do not stream, which of those the vectors accept are
  the ones with a DISTINCT aggregate or one of several arguments (`Streaming.NotStreamed`):
  `VectorSelect.PlainProjectionDiffers` is SELECT c0, COUNT(DISTINCT c0) over NULL and 1. When the
  vectors succeed (and no SUM or AVG is DISTINCT) the two agree if and only if the statement
  streams or each plain column is, in each group, not NULL on the first row or NULL on all
  (`VectorSelect.BothPaths`, `VectorGroups.RepresentativeIff`).
- Removing a HAVING that is a true literal also moves a statement to the streaming path:
  `Streaming.HavingRemovalDiffers` is SELECT c0, COUNT(*) HAVING TRUE over NULL and 1. Over groups
  with rows the answer is kept if and only if the same condition holds of the plain columns
  (`Streaming.HavingRemovalIff`). The theorems of `Optimizer` and `KeyRewrites` are about `Run`,
  the evaluation group by group; for statements whose plain columns are GROUP BY expressions every
  generic path gives it (`Streaming.GenericSelect`).
- A wildcard among the columns of a grouped statement is accepted by the vectorised path, which
  makes no vector for it and dereferences the missing one on the first row that a group takes:
  SELECT * FROM t GROUP BY c0 on any table with a row (`VectorSelect.WildcardHasNoVector`). With
  no other failure it happens if and only if a row is kept (`VectorSelect.WildcardIff`); it is the
  error MissingVector here.
- The cost-based join lets 63 joins through, and then shifts a 64-bit one by 64 relations, which
  C++ leaves undefined: exactly on 64 relations (`JoinExecution.CostBasedJoins`).
- The vectorised path evaluates output expressions also on rows that WHERE drops, and fails where
  the generic path does not (`VectorSelect.DroppedRowFails`); when exactly it fails is part of
  `VectorSelect.VectorizedSelect`.
- A vector takes values of mixed types and distorts some: `TypedVectors.MixesDistort` appends 5
  after a text or a boolean. `TypedVectors.ComesBackIff` says when nothing is distorted.
- Resolving a tab stops after 32 hops: with 33 aliases in a line one hop short of the end
  (`ContextTabs.LimitReached`). It finds the end exactly if the chain ends within 32 hops
  (`ContextTabs.Resolve`).
- `HeapFile::update` erases a row before it finds that the new tuple fits no page. The row is then
  gone exactly if it was live, has at most 65535 fields and needs more than a page
  (`HeapFile.HeapFile.Update`); the engine restores the file afterwards.
- A failed insertion compacts a page without marking it dirty, so a clean frame and the disk may
  differ in their bytes. They agree in every slot, which is what mapped scans rely on
  (`TableFiles.MappedPage`).
- Saving drops tab aliases with an empty name or target, and loading fills in defaults for empty
  fields: a catalog comes back as it was if and only if `CatalogJson.Lasting` holds of it
  (`CatalogJson.KeptIff`).
- Comparison across types is not transitive: a text is below true, true is below 5, and the text
  is above 5 (`Values.NotTransitive`). On one column type it is a total order
  (`Values.ColumnOrder`), so results that rest on order are about columns, and
  `Boolean` is never stored.

## Model

| member | source | states |
|---|---|---|
| WalBytes.CrashAtomicity | src/native_wal.cpp:77-206 | Stop any run of begin, log, write, commit, checkpoint, crash and partial recovery anywhere, cutting the record being appended after any byte: recovery gives exactly the directory of the last boundary, which moved forward if and only if a commit record was complete |
| WalBytes.CommitPoint | src/native_wal.cpp:97-137 | Cut the commit record after any number of bytes: recovery gives the files as flushed if all bytes arrived and the files at begin otherwise |
| WalBytes.CommitComplete | src/native_wal.cpp:97-99 | A complete commit record makes the current files the boundary that recovery returns to |
| WalBytes.RecoveryIsRestartable | src/native_wal.cpp:139-206 | Recovery interrupted any number of times after any partial restores, then run to its end, gives the directory of one uninterrupted run |
| WalBytes.InvOnRuns | src/native_engine.cpp:413-426 | The protocol invariant (undoing the log leads back to the boundary) holds on every run of the byte-level protocol |
| WalBytes.Refines | src/native_wal.cpp:108-137 | Every byte-level step, torn appends included, is a step of the record-level protocol |
| WalProtocol.InvNext | src/native_engine.cpp:573-619 | Every protocol step keeps the invariant, crashes and repeated recoveries included |
| WalProtocol.UndoneIsBoundary | src/native_wal.cpp:139-206 | Recovery from any state the invariant allows ends at the transaction boundary |
| Wal.ParseOneTorn | src/native_wal.cpp:139-190 | A proper prefix of a record parses as a torn tail at every cut point |
| Wal.ParseAllTorn | src/native_wal.cpp:139-190 | Complete records survive any torn record after them |
| Wal.ParseAllComplete | src/native_wal.cpp:139-190 | A log of complete records is read back record for record |
| Wal.NativeWal.LogBefore | src/native_wal.cpp:88-95 | Appends one before-image record and changes nothing else |
| Wal.NativeWal.Recover | src/native_wal.cpp:139-206 | Restores the images of every transaction without a commit record and removes the log |
| LoggedChanges.LoggedChange | src/native_engine.cpp:573-597 | A statement on a table writes to disk only its logged file, which the protocol allows as one write step; when it fails the files are as before |
| LoggedChanges.ChangeIsAllowed | src/native_engine.cpp:580-590 | A disk change that leaves all other files alone is a protocol step once the file is logged |
| LoggedChanges.LogsTheFile | src/native_engine.cpp:580-590 | The before-image is the file as it is on disk |
| LockSystem.DeadlockFree | src/native_lock.cpp:79-106 | Unless every thread has finished, some thread has a step that neither another thread nor a queued writer can hold back |
| LockSystem.RunsAreSafeAndFinite | src/native_engine.cpp:488-556 | On every run conflicting claims are never held together and the number of steps is bounded from the start |
| LockSystem.StuckMeansFinished | src/native_lock.cpp:79-106 | A run that cannot be extended has finished every thread |
| LockSystem.StatementThread | src/native_engine.cpp:488-556 | Whatever a statement asks for, the locks its thread sets out to take are in the global order |
| Locks.AcquisitionOrder | src/native_lock.cpp:79-97 | The list is strictly ascending and holds exactly the named resources, each at the strongest mode asked for |
| Locks.OrderIsUnique | src/native_lock.cpp:79-97 | The list depends on the requests alone, not on how sorting broke ties |
| BPlusTreeIndex.Index.Insert | src/native_index.cpp:11-21 | Refused exactly if the key is there, with the tree unchanged; otherwise the map gains the key; balance, separators, node sizes and leaf chain are kept |
| BPlusTreeIndex.Index.Find | src/native_index.cpp:23-32 | Exactly the row stored under the key |
| BPlusTreeIndex.Index.Range | src/native_index.cpp:34-55 | Exactly the rows with keys between the bounds, ascending, each once, off the leaf chain |
| BPlusTreeIndex.Index.Height | src/native_index.cpp:63-71 | The depth of all leaves; for height h >= 2 the size is at least 2*((m+1)/2)*(m/2+1)^(h-2) |
| BPlusTree.InsertRootValid | src/native_index.cpp:73-126 | One insertion into the root keeps order, separators, equal leaf depth and node sizes |
| BPlusTree.InsertCorrect | src/native_index.cpp:73-126 | Insertion adds the entry in its place and nothing else, with splits at every level |
| BPlusTree.FindCorrect | src/native_index.cpp:128-134 | Descending by upper bounds finds the key if it is anywhere in the tree |
| BPlusTree.RootSize | src/native_index.cpp:63-71 | A tree of height d has at least the stated number of entries |
| BPlusTreeChain.InsertRootKeepsChain | src/native_index.cpp:86-101 | The chain of next pointers visits the leaves left to right after every insertion, all addresses distinct |
| PrimaryTree.PrimaryIndexTree | src/native_engine.cpp:1685-1706 | The B+ tree built from a scan, ordered by Value::compare, is the index the engine keeps: every row under its key and nothing else |
| PrimaryTree.FindInTree | src/native_engine.cpp:1664-1683 | Finding a key of the column type in the tree is finding it in that map |
| BPlusTreeProbe.FindEqual | src/native_index.cpp:23-32 | Searching with a value that is only compared with keys: the row whose key compares equal, if any, for every comparison monotone in the keys |
| PrimaryTree.FindAny | src/native_joins.cpp:692-713 | Finding a value of any type in the tree of one column type: the row under the key that equals it, or none |
| PrimaryTree.InsertInTree | src/native_engine.cpp:789-797 | Inserting is refused exactly on a duplicate, else extends the map |
| PrimaryTree.IntegerOrdered | src/native_storage.cpp:165-196 | Value::compare is a total order on integers, as the tree needs; likewise for the other column types |
| SlottedPage.Page.Insert | src/native_storage.cpp:251-289 | No slot exactly if 16 + 6 per slot + live bytes + row (+6 without a dead slot) exceeds the page; otherwise the first dead or a new slot holds the row and all others are as before |
| SlottedPage.Page.Erase | src/native_storage.cpp:291-298 | The slot dies, all others keep their bytes; false exactly if it was not live |
| SlottedPage.Page.Update | src/native_storage.cpp:328-340 | In place exactly if the slot is live and the row not longer; other slots unchanged |
| SlottedPage.Page.Compact | src/native_storage.cpp:366-385 | Every slot keeps its contents and the free bytes become contiguous |
| PageFormat.RowFits | src/native_storage.cpp:251-289 | A stored row leaves room for the header and a slot entry |
| BufferPool.BufferPool.Fetch | src/native_storage.cpp:445-469 | The page is resident, pinned once more and most recently used, no page reads differently, no pinned frame is gone; it fails for lack of room only if all frames are pinned |
| BufferPool.BufferPool.EvictOne | src/native_storage.cpp:536-548 | The least recently used unpinned frame is written back if dirty and dropped; an error exactly if all are pinned |
| BufferPool.BufferPool.FlushAll | src/native_storage.cpp:471-473 | Every reader sees what it saw, nothing is dirty, and the disk holds it but for frames changed without being marked |
| BufferPool.BufferPool.InvalidateFile | src/native_storage.cpp:493-506 | Exactly the frames of one file go; it fails exactly on a pinned one |
| BufferPool.EvictsKeeps | src/native_storage.cpp:536-554 | Evicting changes no page a reader sees, writes only dirty frames and drops no pinned one |
| HeapPages.FetchSound | src/native_storage.cpp:445-469 | A fetch keeps the slots of every page and the size of every file |
| HeapPages.FetchReadsOnly | src/native_storage.cpp:445-469 | In a pool without dirty frames a fetch writes nothing to disk and dirties nothing |
| HeapPages.FetchLeaves | src/native_storage.cpp:536-554 | While only one file has dirty frames, a fetch changes no other file on disk |
| HeapFile.HeapFile.Insert | src/native_storage.cpp:825-862 | Succeeds exactly if the tuple has at most 65535 fields and fits a page; it goes to a row id that was free and no other row changes |
| HeapFile.HeapFile.Erase | src/native_storage.cpp:963-970 | Removes exactly this row; false exactly if it was not live |
| HeapFile.HeapFile.Update | src/native_storage.cpp:972-984 | Keeps or moves exactly this row; each error with its exact condition, and the tuple that fits no page is refused after the old row is gone |
| HeapFile.HeapFile.ScanBatches | src/native_storage.cpp:875-900 | Every row once, in heap order, in full batches but for the last; nothing is dirtied |
| HeapFile.HeapFile.Read | src/native_storage.cpp:955-961 | The row if it is live |
| TupleCodec.RoundTrip | src/native_storage.cpp:994-1044 | Decoding an encoded tuple gives it back |
| TupleCodec.ColumnsProject | src/native_raw.cpp:87-247 | Decoding some columns of any well-formed tuple projects its full decoding |
| TupleDecoders.DecodeTupleProjected | src/native_storage.cpp:1046-1133 | Equal to the reference reading of these columns, errors included |
| TupleDecoders.DecodeRawProjected | src/native_raw.cpp:87-174 | Equal to the same reference reading |
| TupleDecoders.DecodeRawColumn | src/native_raw.cpp:176-247 | Equal to the reference reading of one column |
| HeapScan.ProjectedRow | src/native_storage.cpp:902-936 | A scan of some columns sees them as they are in the stored row |
| TableFiles.TableFiles.Change | src/native_engine.cpp:738-913 | A statement drops its table's mapping, applies its operations one by one, writes no other file, and ends with a pool without dirty frames; failing, it leaves tables and file as they were |
| TableFiles.TableFiles.ScanMapped | src/native_storage.h:226-241 | Off the mapped file: exactly the rows, in heap order |
| TableFiles.TableFiles.ScanPooled | src/native_storage.h:299-314 | The same through the buffer pool |
| TableFiles.ListingUnique | src/native_storage.h:226-313 | A table has one listing, so mapped and pooled scans agree row for row |
| TableFiles.TableFiles.ReadMapped | src/native_storage.h:243-253 | A row off the mapped file is the row of the table |
| TableFiles.TableFiles.ReadMappedColumns | src/native_joins.cpp:657-690 | The wanted columns of a row off the mapped file are those of the table's row |
| TableFiles.TableFiles.EnsureMapped | src/native_engine.cpp:1708-1714 | The mapping in use shows the file as it is on disk |
| TableFiles.TableFiles.Drop | src/native_engine.cpp:697-736 | The table's frames, file and mapping are gone and all other tables stay |
| TableFiles.TableFiles.Create | src/native_engine.cpp:677-686 | The table is there without rows and without a mapping, all others stay |
| TableFiles.Restored | src/native_engine.cpp:2472-2489 | Writing a file's old bytes back and forgetting its frames gives back every page of the pool |
| StoredTables.InsertStored | src/native_engine.cpp:738-814 | An INSERT that passes its checks, on the files: exactly the converted rows are added at free places of the files' choice, and the database is consistent |
| StoredTables.DeleteStored | src/native_engine.cpp:873-913 | A DELETE on the files: exactly the matching rows go, and the database is consistent |
| StoredTables.UpdateStored | src/native_engine.cpp:816-871 | An UPDATE on the files: each matching row is replaced at its place or another, every other row stays, and the database is consistent |
| StoredTables.AbandonStored | src/native_engine.cpp:805-810 | After a failed check the tables are as they were, whatever operations came before |
| Tables.PutConsistent | src/native_engine.cpp:2273-2387 | Replacing or adding one checked row keeps unique keys, NOT NULL and every foreign key |
| Tables.RemoveConsistent | src/native_engine.cpp:2351-2387 | Removing one unreferenced row does, too |
| Tables.CreateConsistent | src/native_engine.cpp:621-695 | A new table with a proper schema keeps the database consistent |
| Tables.DropConsistent | src/native_engine.cpp:697-736 | So does dropping a table no other refers to |
| Tables.Validate | src/native_engine.cpp:2273-2349 | Accepts exactly the rows that coerce, have a fresh key and find what they refer to |
| Tables.CoerceTyped | src/native_engine.cpp:2389-2416 | What is stored has the declared type; a value of that type is stored as it is |
| Changes.InsertableStep | src/native_engine.cpp:756-800 | The check of a row in the middle of an INSERT decides as the condition on the rows at its start |
| Changes.UpdatableStep | src/native_engine.cpp:829-857 | The check of a row in the middle of an UPDATE decides as the condition on the scan's rows |
| Changes.FreshAmongUpdated | src/native_engine.cpp:2290-2308 | A key is new among the partly updated rows exactly if it differs from each other row as it is by then |
| Changes.UnreferencedElsewhere | src/native_engine.cpp:2351-2387 | A statement's own changes cannot create or remove a reference to its table |
| Engine.Engine.CreateTable | src/native_engine.cpp:621-695 | Succeeds exactly for a new name and a proper schema; the engine invariant holds either way |
| Engine.Engine.DropTable | src/native_engine.cpp:697-736 | Succeeds exactly if the table exists and no other refers to it |
| Engine.Engine.Insert | src/native_engine.cpp:738-814 | Succeeds exactly if every row coerces, fits, finds its references and has a key new among the table and the earlier rows; then exactly these rows are added, else nothing changes; constraints and caches stay right |
| Engine.Engine.Delete | src/native_engine.cpp:873-913 | Succeeds exactly if the condition evaluates on every row and no matching row is referenced; then exactly the matching rows go, else nothing changes |
| Engine.Engine.Update | src/native_engine.cpp:816-871 | Succeeds exactly if each matching row in scan order has a proper replacement with a key new among the others; then exactly those rows are replaced, else nothing changes |
| Engine.Engine.LookupPrimaryKey | src/native_engine.cpp:1664-1683 | The row that a filtered scan would find, or none |
| Engine.Engine.EnsureColumnRange | src/native_engine.cpp:1720-1819 | The cached statistics are what a fresh scan would find |
| Engine.Engine.RollBack | src/native_engine.cpp:805-810 | The failed statement's table is as before and the engine invariant holds |
| Transactions.Session.Rollback | src/native_engine.cpp:291-322 | Files and catalog file have the bytes they had at BEGIN; the engine, started over from them, has the tables and schemas of then; mappings and caches are empty |
| Transactions.Session.Begin | src/native_engine.cpp:243-276 | Flushes, which writes nothing, and keeps the bytes of every file, which hold every table; refused exactly inside a transaction |
| TableFiles.TableFiles.Snapshot | src/native_engine.cpp:254-266 | Between statements the bytes on disk alone hold every table |
| TableFiles.TableFiles.RestoreAll | src/native_engine.cpp:296-313 | Forgetting all pages and mappings and writing such bytes back gives exactly those tables |
| CatalogFiles.SavedSchemas | src/native_engine.cpp:2491-2494 | The catalog file of any catalog gives back its schemas with defaults filled in |
| CatalogFiles.SaveSchemas | src/metadata.cpp:696-892 | What is saved reads as the schemas of the tables, if each is filed under its name and every column has a type |
| PrimaryIndex.IndexAfterInsert | src/native_engine.cpp:789-797 | After an insertion the index is what a fresh scan would build |
| PrimaryIndex.IndexFindsDuplicate | src/native_engine.cpp:2290-2308 | The key check against the index is the check against all rows |
| PrimaryIndex.LookupIsScan | src/native_fast_paths.cpp:104-140 | An indexed lookup finds the row a filtered scan would find, and nothing if it finds none |
| PrimaryIndex.CoercedLookup | src/native_engine.cpp:1821-1858 | A lookup of a coerced literal answers like the scan on every heap if and only if the literal is NULL or coercion gives an equal value |
| PrimaryIndex.FractionFindsInteger | src/native_engine.cpp:2389-2416 | 1.5 looked up in an INTEGER key is coerced to 1, which is not equal to it |
| ColumnStatistics.Build | src/native_engine.cpp:1720-1819 | Extrema, non-NULL count and exact value counts of the column |
| Values.ColumnOrder | src/native_storage.cpp:165-196 | On the values of one column type comparison is a total order that agrees with equality |
| Values.NotTransitive | src/native_storage.cpp:165-196 | Across text, boolean and integer it is not transitive |
| Values.EqualHash | src/native_storage.cpp:155-222 | Equal values of whatever types hash alike |
| JoinTheorem.ReorderedJoins | src/native_joins.cpp:835-1195 | Whenever the cost-based plan is used, which is exactly for 3 to 63 connected relations, its rows are those of the nested loops in source order, each as often, up to the order of columns |
| JoinTheorem.SourceOrderResult | src/native_joins.cpp:88-214 | The nested loops in source order produce exactly the join of all relations, each row once |
| JoinTheorem.SameRows | src/native_joins.cpp:1058-1195 | Two enumerations of the join hold the same rows, each as often |
| JoinExecution.CostBasedJoins | src/native_joins.cpp:835-1195 | Declines exactly with too few or too many relations or predicates that do not connect them, is undefined exactly on 64 relations; otherwise exactly the join, each row once |
| JoinExecution.ExecuteOrder | src/native_joins.cpp:1058-1195 | Following any connected order gives the join of all relations |
| JoinPlanner.PlanJoins | src/native_joins.cpp:960-1056 | A plan of all relations exists if and only if the predicates connect them; its order is a permutation with every step connected to the prefix |
| JoinPlanner.OnePredicatePerStep | src/native_joins.cpp:1062-1110 | With one predicate per join each step of a full order applies exactly one |
| JoinPlanner.OrderDistinct | src/native_joins.cpp:960-1056 | A full order names every relation once |
| JoinEquivalence.SourceOrderJoins | src/native_joins.cpp:88-214 | Whichever path each join takes, the rows are those of nested loops, each as often |
| SourceJoins.JoinOne | src/native_joins.cpp:88-214 | The Bloom and hash path gives the nested loop's rows, LEFT padding included |
| SourceJoins.NestedMember | src/native_joins.cpp:181-214 | The nested loop yields exactly the pairs of the join |
| KeyIndex.BloomFilter.MayContain | src/native_joins.cpp:36-84 | No false negatives, also for a value of another type that equals one added |
| KeyIndex.Index.Probe | src/native_joins.cpp:120-164 | Exactly the positions with an equal key, each once |
| SeekJoins.SeekAggregate | src/native_joins.cpp:620-831 | Over mapped files and key lookups: the aggregate query over the rows that nested loops join; it fails exactly where the query does, if a sum meets a value that is no number |
| SeekJoins.SeekIsMatched | src/native_joins.cpp:692-713 | A key lookup yields the partners that scanning the table would |
| SeekJoins.InnerJoinIsNestedLoop | src/native_joins.cpp:181-214 | The reference join is the nested loop of the source-order path, row for row |
| SeekJoins.DisjointSound | src/native_joins.cpp:620-636 | Extrema that do not overlap prove that no two keys are equal, whatever the column types |
| AggregateQuery.Execute | src/native_aggregates.cpp:35-700 | Whichever of its ways the direct path takes: the rows of the query; it fails exactly if the query does, which is if a sum over the rows that pass meets a value that is no number |
| AggregateQuery.FromStatistics | src/native_aggregates.cpp:283-428 | An answer without a scan, empty or counted, is the answer to the query |
| ColumnPredicates.ProvesEmptySound | src/native_aggregates.cpp:283-313 | Extrema that rule out the comparison, for each operator on either side, leave no matching row |
| ColumnPredicates.ValueCountExact | src/native_aggregates.cpp:350-392 | A cached value count is the number of rows a scan would count |
| ColumnPredicates.MatchesIsKeeps | src/native_raw.cpp:249-280 | The raw comparison decides as the evaluator does |
| DirectAggregates.ScanAndAggregate | src/native_aggregates.cpp:601-700 | One pass with a state per group gives the rows of filter, group and fold, and fails exactly where they do |
| DirectAggregates.QueryErrIff | src/native_engine.cpp:1921-1975 | The query of such a plan fails if and only if a passing row holds a value that a sum cannot take |
| GroupedQueries.OutputsErrIff | src/native_engine.cpp:1517-1547 | Grouped evaluation fails if and only if some row has a failing key or an aggregate that cannot take it, when plain columns are GROUP BY expressions |
| GroupedQueries.AggregateErrIff | src/native_engine.cpp:1921-1960 | An aggregate over a group fails if and only if it cannot take some row of it |
| DirectAggregates.HashAggregate | src/native_aggregates.cpp:601-688 | The states stand for the groups of the rows that pass |
| DenseGroups.DenseAggregate | src/native_aggregates.cpp:430-599 | Grouping in an array by an integer key gives the rows of the query, and fails exactly where it does |
| AggregateStates.AccumulateIsAggregate | src/native_aggregates.cpp:641-687 | Row by row or all at once: the same value or the same failure |
| AggregateStates.DistinctPaths | src/native_vectorized.cpp:736-756 | States that honour DISTINCT agree with the generic aggregate on all columns of one type if and only if it is not SUM or AVG with DISTINCT |
| AggregateStates.SumDistinctDiffers | src/native_engine.cpp:1921-1975 | SUM(DISTINCT) of 1 and 1 is 1 by the states and 2 by the generic path |
| TypedVectors.TypedVector.Append | src/native_vectorized.cpp:92-159 | Fails exactly on a value its type cannot take; otherwise one more value, earlier ones kept or widened, NULLs in the bitmap |
| TypedVectors.UniformComesBack | src/native_vectorized.cpp:92-188 | Values of one type and NULLs are read back exactly, declared or late typed |
| TypedVectors.ComesBackIff | src/native_vectorized.cpp:92-188 | Every value reads back as one equal to it if and only if each was of a kind that the vector's type at that point keeps |
| TypedVectors.MixesDistort | src/native_vectorized.cpp:92-159 | 5 after a text or a boolean does not come back |
| VectorEvaluation.EvalVector | src/native_vectorized.cpp:277-429 | Element by element what evaluating the expression on each row gives; it fails only if some row does |
| VectorSelect.VectorizedSelect | src/native_vectorized.cpp:446-807 | For every way to cut the rows into batches: its failure condition exactly, groups that depend on the rows alone, and the query's answer when plain columns are GROUP BY expressions |
| VectorSelect.BothPaths | src/native_engine.cpp:1236-1250 | When the vectors succeed, the generic path gives the same rows if and only if it streams or every group's plain columns show its first row's values |
| VectorGroups.StatesAnswerIff | src/native_vectorized.cpp:770-803 | The states project to the query's answer if and only if each plain column of each group is not NULL on the first row or NULL on all |
| VectorGroups.StatesAnswer | src/native_vectorized.cpp:770-803 | They always do if the plain columns are GROUP BY expressions |
| VectorGroups.BatchesDoNotMatter | src/native_vectorized.cpp:570-768 | The group states are determined by the rows kept |
| VectorGroups.RepresentativeIff | src/native_vectorized.cpp:686-695 | The value shown is the first row's if and only if that is not NULL or all are |
| VectorSelect.PlainProjectionDiffers | src/native_vectorized.cpp:686-695 | SELECT c0, COUNT(DISTINCT c0), NULL on the first row and 1 on the second: the generic path, which does not stream it, shows NULL, the vectors 1 |
| VectorSelect.WildcardIff | src/native_vectorized.cpp:634-693 | With a grouped wildcard and no other failure the vectors fail if and only if a row is kept, the generic path if and only if there is a group |
| VectorSelect.WildcardHasNoVector | src/native_vectorized.cpp:634-693 | SELECT * GROUP BY c0 is accepted and reads a vector that was never made on any first row |
| VectorSelect.DroppedRowFails | src/native_vectorized.cpp:610-648 | An output expression that fails on a row WHERE drops fails the vectors and not the generic path |
| Streaming.StreamAggregate | src/native_engine.cpp:1317-1514 | One pass that evaluates plain columns only until they show a value: the states of the groups, and exactly when it fails |
| Streaming.GenericSelect | src/native_engine.cpp:1313-1548 | Streamed or not: the query's answer and failures when plain columns are GROUP BY expressions |
| Streaming.StreamIsRunIff | src/native_engine.cpp:1411-1422 | Streaming gives the query's answer if and only if every group's plain columns show its first row's values |
| Streaming.NotStreamed | src/native_engine.cpp:1319-1388 | Of the statements the vectors accept exactly those with a DISTINCT aggregate or one of several arguments are not streamed |
| Streaming.HavingRemovalIff | src/optimizer.cpp:455-466 | Without its true HAVING a statement streams; over groups with rows it answers as before if and only if their plain columns show their first rows' values |
| Streaming.HavingRemovalDiffers | src/optimizer.cpp:455-466 | SELECT c0, COUNT(*) HAVING TRUE, NULL on the first row and 1 on the second: another answer after the rewrite |
| KeyRewrites.OptimizeKeepsRun | src/optimizer.cpp:24-42 | On every table that satisfies its constraints a safe statement gives the same rows after all passes; safe is told from the statement and the schema |
| KeyRewrites.EmptyTableDecides | src/optimizer.cpp:24-42 | For every statement: optimization keeps its answer on all tables if and only if it does on the empty one or the statement is no aggregate without GROUP BY |
| KeyRewrites.PointLookupKeepsRun | src/optimizer.cpp:372-387 | Under a pinned key the rows are the same without ORDER BY and with LIMIT 1 |
| KeyRewrites.DistinctKeepsRun | src/optimizer.cpp:366-370 | Projecting the primary key makes DISTINCT redundant |
| KeyRewrites.AtMostOne | src/optimizer.cpp:268-298 | At most one row satisfies a condition that pins the key |
| Optimizer.DeadCodeIff | src/optimizer.cpp:439-467 | Removing true conditions keeps the answer on every table if and only if the statement is not an aggregate without GROUP BY, with a true HAVING, whose row OFFSET and LIMIT let through or that cannot be computed |
| Optimizer.TrueHavingOverNoRows | src/optimizer.cpp:455-466 | COUNT(*) HAVING TRUE over no rows: no row before, 0 after |
| Optimizer.FoldKeepsRun | src/optimizer.cpp:150-215 | Folding keeps the answer unless an aggregate without GROUP BY loses a logical operator over no rows |
| Optimizer.RewriteKeepsRun | src/optimizer.cpp:317-350 | COUNT of a column that cannot be NULL is COUNT of the rows |
| ConstantFolding.FoldKeepsEval | src/optimizer.cpp:77-215 | Folding keeps the value of every expression on every row |
| ConstantFolding.FoldKeepsGroups | src/optimizer.cpp:77-215 | On a group it keeps the value of every expression if and only if the group has rows |
| ConstantFolding.FoldedLiteralIff | src/optimizer.cpp:150-215 | An expression folded to a literal keeps its value over no rows if and only if it is no AND, OR or NOT |
| ContextStore.Context.Append | src/native_prompt.cpp:778-889 | The message goes where its tab resolves to; incremental invalidation gives every atom the status and invalidator that batch recomputation assigns |
| ContextStore.Context.Tag | src/native_prompt.cpp:891-947 | Exactly the first message with the id and its atoms go where the tab resolves to; every status is again what batch recomputation assigns |
| ContextStore.Context.Merge | src/native_prompt.cpp:1186-1251 | From what the first name resolves to, to what the second does: exactly the messages and atoms whose tab resolves there move; with at most 32 aliases what led to the one leads to the other, all else where it did, and no cycle is made |
| ContextStore.Context.AliasTab | src/native_prompt.cpp:1162-1184 | The alias leads to what the target resolves to, looked up twice; with at most 32 aliases that is the end of the target's chain and no cycle is made |
| ContextStore.MergedLeads | src/native_prompt.cpp:1229-1234 | After redirecting and aliasing, every chain that ended at the merged tab ends at the other and every other where it did |
| ContextStore.Recompute | src/native_prompt.cpp:729-753 | Every atom is active if and only if no later atom of its key and tab has another value; the invalidator is the first such |
| ContextStore.OneActiveValue | src/native_prompt.cpp:729-753 | Active atoms that share key and tab share one value |
| ContextTabs.Resolve | src/native_prompt.cpp:667-684 | The tab at the first repetition or the 32nd hop, which is the end of the chain exactly if it ends within 32 hops |
| ContextTabs.ResolvedEnd | src/native_prompt.cpp:667-684 | That tab is terminal if and only if the chain ends within 32 hops, and is then its end |
| ContextTabs.FewAliases | src/native_prompt.cpp:667-684 | With at most 32 aliases and no cycle resolving finds the end |
| ContextTabs.LimitReached | src/native_prompt.cpp:667-684 | With 33 aliases in a line it stops one hop short |
| ContextTabs.SetAliasCycle | src/native_prompt.cpp:698-721 | Aliasing a tab to one whose chain leads back to it makes a cycle |
| ContextTabs.ResolveAndPut | src/native_prompt.cpp:1162-1184 | The alias is set to what the target resolves to, resolved once more; with at most 32 aliases that is the end of its chain and makes no cycle but a self-loop |
| ContextView.PlanThenSpill | src/native_prompt.cpp:1253-1580 | The spill renders the ranked candidates that fit, each once; the plan agrees on their number, cost and redactions; the budget is kept and no skipped atom would still fit |
| ContextView.PlanPredictsSpill | src/native_prompt.cpp:1296-1385 | The same for any two rankings of the candidates |
| ContextView.CandidatesUnique | src/native_prompt.cpp:1497-1558 | Two scans find the same candidates, the best per diversity key, in whatever order |
| ContextView.ScanWithCost | src/native_prompt.cpp:1296-1340 | The full cost kept during the scan is the sum over the candidates |
| ContextView.SkippedTooLarge | src/native_prompt.cpp:1560-1580 | No skipped atom would still fit the budget |
| JsonText.ReadsEscape | src/metadata.cpp:11-35 | Reading an escaped string gives it back, for every string and whatever follows |
| JsonText.ReadsNumber | src/metadata.cpp:182-195 | Reading the decimal digits of a 64-bit number gives it back |
| JsonText.EscapeJson | src/metadata.cpp:11-35 | Every character replaced by what the reader turns back into it |
| JsonShapes.RoundTrip | src/metadata.cpp:196-545 | Reading any laid-out value of a shape gives the value back and leaves what follows |
| JsonShapes.DocumentRoundTrip | src/metadata.cpp:57-80 | A written document is read back |
| JsonReader.JsonReader.ParseString | src/metadata.cpp:114-167 | The cursor takes the string token off the front or fails with it |
| JsonReader.JsonReader.ParseShape | src/metadata.cpp:196-545 | The cursor takes a value of the shape off the front or fails, unknown fields skipped |
| JsonReader.JsonReader.SkipValue | src/metadata.cpp:549-593 | The cursor passes any value or fails |
| CatalogJson.LoadSaved | src/metadata.cpp:673-892 | The file of any catalog is read without error and gives the catalog with defaults filled in |
| CatalogJson.KeptIff | src/metadata.cpp:196-545 | That is the catalog itself if and only if entries carry their names, no field with a default is empty and no alias lacks a name or target |
| Catalogs.SaveAndLoad | src/metadata.cpp:673-892 | A catalog saved and loaded into a fresh one is the same if and only if it is lasting |
| Catalogs.Catalog.Load | src/metadata.cpp:673-695 | A missing or malformed file changes nothing; otherwise loaded entries override |
| Catalogs.Catalog.RemoveTable | src/metadata.cpp:900-912 | The table and exactly the snapshots taken of it go |

## Left out

- Operating-system parts: files are maps from names to bytes or whole pages, a mapping is the file's pages at the time it was made, path names are canonical, and removing the log file succeeds. Partial pages, I/O errors and fsync ordering are not modelled.
- Crashes inside rollbackTransaction, which deletes the directory with its log, and flush() outside a transaction.
- The operation mutex and lock guards held across calls by explicit transactions: `Transactions` models what rollback restores, not its locks.
- Pages are changed by copying a frame's bytes out and in between pin and unpin; a guard's reference into the frame is not modelled, nor are visitors that change the file during a scan.
- Integers are unbounded and doubles are exact real numbers in `Values`; overflow, rounding, not-a-number and infinities are not modelled. The codec works on 64-bit patterns, and `StoredTables` is about rows whose values are exact in them.
- Groups and scans follow the order of first appearance where the engine's hash maps have no order; only ORDER BY promises one.
- ORDER BY on an output alias, folding of LIMIT and OFFSET, joins inside the optimizer's rewrites, window functions, median, percentile and LONE-WOLF.
- Engine.Engine.LookupPrimaryKey: the engine's cached index is a map here; that the B+ tree is such a map, also for a key of another type, is the subject of `PrimaryTree`.
- Transactions.Session.Begin: how names and declared types are told apart in a catalog file is `CatalogFiles`, which the session takes as a function from the file to the schemas; the log of the transaction is `WalBytes`.
- SeekJoins.SeekAggregate: the retry after a stale index is not modelled, since the engine invariant rules a stale index out.
- ContextView.PlanThenSpill: utility, token cost, diversity key and redaction of an atom are parameters, as are the extractor's findings in ContextStore.Context.Append; tab names are taken as already normalised, and the further tags of messages and atoms are left out.
- CatalogJson.LoadSaved: the writer's streaming loops are the function JsonShapes.Write, names are written in any order where the source sorts them, and a character stands for a byte. The fingerprint and revision counters are left out.
- The SQL lexer and parser, dataset snapshots and tensor export, the compilation and result caches, statistics counters and cost estimates, the SQLite executor and the command line.
