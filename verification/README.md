# MoyoDB storage engine: verified model

A Dafny model of MoyoDB's storage engine and proofs about it, in the order of the engine's layers:

- the copy-on-write B+tree with its allocator, overflow chains, lookups, cursors and range scans
  (`Keys`, `Pages`, `MergeSpec`, `Split`, `Allocator`, `Parts`, `WriterState`, `Packing`, `Merging`,
  `Fitting`, `NodeReading`, `Normalizing`, `Filling`, `Rewriting`, `RootFinishing`, `PathCopying`, `TreeWriter`,
  `TreeApply`, `TreeRetire`,
  `TreeLookup`, `PointReads`, `Cursor`, `TreeScan`);
- page images and the write-ahead log as bytes (`Numbers`, `PageHeaders`, `Slotted`, `PageCodec`,
  `WalRecords`, `WalScan`, `WalReplay`);
- commit, checkpoint, crash and recovery as a step system (`History`, `Crash`, `CrashProof`, `CrashRuns`,
  `CrashReopen`, `CrashReach`, `CrashWitness`, `Recovery`), and the creation of a database (`Creation`);
- reuse of tree pages and payload extents under snapshots (`FreePages`, `Reclaim`, `Publication`,
  `PoolBooks`, `ReuseQueue`, `PayloadRegistry`, `PayloadRuns`), and the planning of a whole commit that ties trees, pool, extents
  and history together (`CommitTrees`, `CommitPlan`, `CommitLink`), up to runs of a whole database from
  its creation on (`Database`, `DatabaseSpace`);
- the CRC-32 shortcuts (`Crc`, `CrcTables`, `CrcShortcuts`), against section 8 of RFC 1952;
- the page cache (`Pager`) and the views over the store: staged scans, paging, the change feed, value
  revisions and the control file (`Overlay`, `StagedScan`, `Paging`, `ChangeLog`, `ChangeFeed`,
  `Revisions`, `ControlFile`).

`dafny verify dfyconfig.toml` checks everything.

How the parts are modelled:

- A tree is described by a ghost `Tree`; `Spelled` says that pages spell it out. The writer's methods are
  specified on snapshots of their state (`WriterState.State`) so that the page books
  (`Parts.Balanced`: pages held plus pages freed equals pages before plus pages emitted) can be carried
  through recursion by small lemmas.
- In the crash model a file has visible and durable contents. A crash gives every page with an
  unflushed write arbitrary contents, lets every unflushed slot be old, new or unreadable, and leaves
  the log anywhere between its durable and its visible length; new records over an emptied log that is
  still durable can keep what the old log holds behind them. Torn records are recognised because
  `WalScan.ScanUndoesAppend` proves it of the bytes. A commit's reachable pages, its images and the
  payload bodies written beforehand are parameters constrained by `History.Extends`, which
  `CommitLink.PlannedExtends` derives for planned commits and `DatabaseRuns.DatabaseStaysSound` for every
  run of a created database. Its trees are two groups there, because the registry and the catalog hold no
  external references; which trees a commit changes is arbitrary.
- A commit counts as acknowledged once it returned, or once an engine serves it after recovery.
- Clocks, random names, decoded lengths of compressed values and the receiver of scanned rows are
  parameters. Integers are unbounded except where bytes are encoded.

Findings about the code, each stated and proved exactly:

- `ControlFile.CrashSafety`: the first publication of a control file is crash safe if and only if legacy
  data files exist; `ControlFile.TornFirstPublication` gives the failing crash.
- `CrashReopen.ReopenIsSafeExactly`: opening, unlike recovering, does not flush. Closing a failed engine
  and opening its files without a crash in between is safe if and only if the superblock that opening
  selects is durable and the log was not emptied over two or more transactions that still are.
  `CrashWitness` gives runs from a fresh database into both cases; acknowledged commits can be lost, or
  damaged, or the log refused. The comment on `close` promises that durable commits stay recoverable from
  the files; the model follows the code.
- `Creation.CrashSafety`: a crash while a database is created leaves files that open if and only if no
  page was written yet or the manifest is flushed. A main file without a manifest is refused, too.
- `DatabaseSpace.RecoveryLosesThePool`: recovery starts from an empty pool, so the ids that waited in it
  lie unused in the file from then on; no other step but a failure in the log loses one (`NothingLeaks`).
- `StagedScan.ExhaustionIsHonest`: a scan with limit zero reports exhaustion although the range holds
  something, and no other scan does; `Paging.ZeroLimitScan` is one.

## Model

| member | source | states |
|---|---|---|
| `TreeApply.ApplyValueMutations` | crates/engine/src/btree.rs:1101-1132 | On success the new root denotes the old map overridden by the mutations, the new tree is well formed (one leaf depth, separators are the smallest keys below them, pages within capacity, no one-child root), old pages split exactly into freed and shared ones, new pages are shared ones plus images, images sit on ids that were free, and external references are conserved; the only errors are an unsorted batch; a page overflow, which is reported only if the cell of some mutation is larger than a page, while a batch with such a mutation never succeeds; and the height limit, which is reported only if the resulting map holds a key beyond the key limit or more than 2^(48 - height of the old tree) rows; a page of the old tree is freed only if it lies on the way to a mutated key, is a chain page of a mutated cell, is an unmutated child directly beside mutated ones of which less than a minimal page is left, or is an internal page with one child above all of the result; an id that was free is taken only for an image |
| `TreeApply.WriteTree` | crates/engine/src/btree.rs:1115-1131 | Rewriting the root and finishing it, or starting from no tree: contents, page books and the bound on what is freed |
| `TreeApply.UntouchedIsShared` | crates/engine/src/btree.rs:1396-1423 | Every page of a subtree that no mutation goes to is a page of the new tree and not written again, except its root page beside mutated siblings of which less than a minimal page is left, or above all that is left |
| `PathCopying.AsideIsShared` | crates/engine/src/btree.rs:1396-1423 | Of a subtree that no mutation goes to, a batch can free no page but its root, and that only beside mutated siblings of which less than a minimal page is left |
| `PathCopying.RootIsOnlyBranch` | crates/engine/src/btree.rs:1670-1678 | A committed page freed by collapsing the root has one child, below which all of the new contents are |
| `TreeApply.BuildTree` | crates/engine/src/btree.rs:894-921 | Building from increasing rows gives a well-formed tree that denotes exactly them, even of no rows, on fresh ids only, each of which holds one of its pages; errors as for applying mutations; every id taken holds a page of it |
| `TreeApply.CheckSorted` | crates/engine/src/btree.rs:1101-1132 | Accepts exactly the strictly increasing mutation batches |
| `TreeApply.RewriteRoot` | crates/engine/src/btree.rs:1101-1132 | Merging a whole tree, or starting from none, yields contents equal to the sorted merge with the page books balanced |
| `TreeApply.RefsBalance` | crates/engine/src/btree.rs:1453-1477 | References after a merge plus those it drops equal references before plus those it adds |
| `MergeSpec.MergeIsOverride` | crates/engine/src/btree.rs:1425-1451 | The sorted merge of entries and mutations denotes the map override |
| `MergeSpec.MergeAtKey` | crates/engine/src/btree.rs:1425-1451 | Key by key: after a merge a mutated key is bound exactly to what its mutation puts, and every other key as before |
| `MergeSpec.MergeSplits` | crates/engine/src/btree.rs:1396-1423 | Merging is the concatenation of merging on both sides of a separator, which is what routing mutations to children relies on |
| `MergeSpec.MergeConservesChains` | crates/engine/src/btree.rs:1425-1451 | Overflow pages of the merge and of what it replaces are those of the entries and of the puts |
| `TreeWriting.TreeWriter.Rewrite` | crates/engine/src/btree.rs:1396-1423 | Rewriting a subtree yields the merge of its entries at the same height, with every page of the subtree either freed once, kept, or dissolved into the result; only pages that the mutations reach, and children beside almost empty ones, are freed, and the pages written are as full as packing promises |
| `TreeWriting.TreeWriter.MergeLeaf` | crates/engine/src/btree.rs:1425-1451 | The two-pointer merge equals the specified merge, releases exactly the replaced cells and writes exactly the new chains |
| `TreeWriting.TreeWriter.ReleaseCell` | crates/engine/src/btree.rs:1453-1477 | Releasing a cell frees exactly its overflow chain or drops exactly its external reference |
| `TreeWriting.TreeWriter.PlanCell` | crates/engine/src/btree.rs:1479-1518 | The planned cell denotes the given value: inline up to the limit, an overflow chain above it, or an external reference |
| `TreeWriting.TreeWriter.NormalizeChildren` | crates/engine/src/btree.rs:1520-1567 | Dropping empty children, merging underfull siblings and packing the rest keeps contents and page books, with termination on the number of items, then items behind the index; only children next to an underfull changed one are dissolved, what remains of two or more items is not underfull, and what fits a page becomes one page |
| `TreeWriting.TreeWriter.MergeUnderfull` | crates/engine/src/btree.rs:1520-1567 | Merging neighbours keeps the concatenated contents and the books for any list of items; only neighbours of which one is underfull are merged, and it ends with a single item or with none underfull |
| `NodeFilling.NewPagesAreFilled` | crates/engine/src/btree.rs:1520-1567 | After normalizing more than one item, each changed item that fits a page is exactly one page, filled at least to the minimum |
| `TreeWriting.TreeWriter.ChildIntoRun` | crates/engine/src/btree.rs:1569-1586 | Loading an untouched child frees its page and leaves its cells as a run with the same contents |
| `TreeWriting.TreeWriter.Pack` | crates/engine/src/btree.rs:1589-1640 | Packed pages hold the run's contents in order, each within capacity, with first keys as separators; a page overflow means a leaf cell over capacity, and the only other error is the height limit |
| `TreeWriting.TreeWriter.PackLeaf` | crates/engine/src/btree.rs:1589-1640 | Leaf packing: contents, order, capacity, separators and page books; cells that fit one page make one page |
| `TreeWriting.TreeWriter.PackInternal` | crates/engine/src/btree.rs:1589-1640 | Internal packing: contents, order, capacity, level, separators and page books; with separators within the key limit there are at most half as many new cells, and the height limit is reported only at the last level; cells that fit one page make one page |
| `Fitting.SeparatorsFit` | crates/engine/src/btree.rs:1602-1632 | Internal cells always fit a page, because a separator is the key of a leaf cell below it |
| `Fitting.MergeFitsIf` | crates/engine/src/btree.rs:1287-1296 | Applying mutations to a tree leaves cells that fit pages exactly if the cells of the mutations do |
| `TreeWriting.TreeWriter.FinishRoot` | crates/engine/src/btree.rs:1642-1680 | Growing and collapsing end in a root that is an empty leaf or a shaped tree without a one-child root, with contents and books kept; the height limit is reported only if the contents have a key beyond the key limit or more rows than halving at every level leaves room for |
| `TreeWriting.TreeWriter.CollapseRoot` | crates/engine/src/btree.rs:1642-1680 | Each collapse drops a fresh page unpublished or frees a committed one, and keeps contents |
| `TreeWriting.TreeWriter.SingleChild` | crates/engine/src/btree.rs:1682-1695 | Reports the only child exactly for internal pages with one cell, fresh or committed |
| `RootFinishing.CollapseFresh` | crates/engine/src/btree.rs:1670-1678 | A one-child root written by this commit leaves the images without being freed |
| `RootFinishing.CollapseCommitted` | crates/engine/src/btree.rs:1670-1678 | A one-child root of the old tree is freed |
| `Split.SplitGroups` | crates/engine/src/btree.rs:1722-1745 | The groups cut the cells completely, none is empty, each fits a page whenever every single cell does, and small cells make at most half as many groups, which bounds the height of trees |
| `Split.RouteMutations` | crates/engine/src/btree.rs:1699-1719 | Each child receives exactly the mutations from its separator up to the next one, the first child also everything below |
| `NodeReading.ReadNode` | crates/engine/src/btree.rs:1747-1819 | Succeeds exactly on a tree page of the expected level with strictly increasing keys, and returns its cells |
| `NodeReading.SeparatorsIncrease` | crates/engine/src/btree.rs:1747-1819 | In a well-formed tree the separators of every internal page strictly increase |
| `Allocator.PageAllocator.Allocate` | crates/engine/src/btree.rs:150-157 | Hands out an available id, a reusable one as long as there is one and else the end of the file, and makes exactly that id unavailable; among the reusable ones of a new allocator the lowest |
| `Allocator.PageAllocator.WithReusable` | crates/engine/src/btree.rs:138-148 | Offers exactly the given ids and the end of the file |
| `Allocator.PageAllocator.ReserveFreshPages` | crates/engine/src/btree.rs:160-176 | Hands out a contiguous range at the end of the file and nothing else |
| `Allocator.PageAllocator.ReleaseUnpublished` | crates/engine/src/btree.rs:184-186 | Makes exactly the released id available again |
| `Allocator.WriteOverflowValue` | crates/engine/src/overflow.rs:27-53 | The new pages form a chain that spells the value, on fresh distinct ids |
| `Allocator.WalkChain` | crates/engine/src/overflow.rs:66-120 | Succeeds exactly when a chain of the declared length starts at the head, and returns its pages and bytes |
| `TreeRetire.RetireTree` | crates/engine/src/btree.rs:1156-1250 | On any pages: succeeds exactly if the pages from the root down make a tree, each of the level its parent expects and with increasing keys (and with readable overflow chains if pages are retired), in which no page is reached twice; then frees exactly its pages, chains included, and drops every external reference as often as it is held |
| `TreeRetire.WellFormedRetires` | crates/engine/src/btree.rs:1156-1250 | Every well-formed tree is such a tree, and what is retired is its own pages and references |
| `TreeRetire.LeafLinks` | crates/engine/src/btree.rs:1179-1206 | Succeeds exactly if every overflow chain that is wanted can be read; the links collected are exactly the chain pages and the external references of the leaf |
| `TreeLookup.LookupCell` | crates/engine/src/btree.rs:336-374 | On any pages, damaged trees included: without the cache the plain lookup, with it the cached one, and the same result whenever the cache agrees with the live pages and the lookup visits only those |
| `TreeLookup.LookupFinds` | crates/engine/src/btree.rs:336-374 | In a well-formed tree a lookup visits only pages of the tree and returns the cell the tree binds to the key |
| `TreeLookup.CachedWalkAgrees` | crates/engine/src/btree.rs:275-318 | From any depth of any cached path, the cached lookup equals the plain one and leaves a cache that agrees again |
| `TreeLookup.FindDenotes` | crates/engine/src/btree.rs:336-374 | A cell is found exactly for the keys of the denoted map, and its entry carries the bound value |
| `TreeLookup.LookupLeaf` | crates/engine/src/btree.rs:2332-2353 | Binary search on any cells; in a sorted leaf it finds the cell of the key, or that there is none |
| `TreeLookup.ChooseChild` | crates/engine/src/btree.rs:2355-2398 | Binary search on any separators; if they are sorted it chooses the rightmost child whose separator is at most the key, or the first child |
| `TreeLookup.ChosenHoldsKey` | crates/engine/src/btree.rs:2355-2398 | Only the chosen child can hold the key |
| `TreeLookup.PointReadBatch.WithNode` | crates/engine/src/btree.rs:275-318 | Updates the cached path as specified; a cache in agreement returns what the page itself says and stays in agreement |
| `PointReads.CachedEqualsPlain` | crates/engine/src/btree.rs:257-374 | At every moment of any interleaving of lookups with commits, snapshots, failures and recoveries, a lookup with the shared cache, from any root of any version that can be read, returns what it returns without, and what that version's own pages say |
| `PointReads.CachedFinds` | crates/engine/src/btree.rs:257-374 | From a well-formed tree of the version that is the cell the tree binds to the key |
| `PointReads.CacheAlwaysAgrees` | crates/engine/src/engine.rs:2552-2554 | After any such interleaving the cache agrees with every page that a readable version reaches |
| `PointReads.StepAgrees` | crates/engine/src/engine.rs:551-554 | Each engine step keeps or resets the cache so that it stays in agreement |
| `Cursor.LeafCursor.Open` | crates/engine/src/btree.rs:1904-1915 | The cursor arrives at the first, the last, or the leaf around a key |
| `Cursor.LeafCursor.Descend` | crates/engine/src/btree.rs:1974-2015 | The recorded path leads to the leaf the descent asks for |
| `Cursor.LeafCursor.Advance` | crates/engine/src/btree.rs:1917-1936 | Moves to the next leaf in key order, or reports exactly the last one |
| `Cursor.LeafCursor.Retreat` | crates/engine/src/btree.rs:1938-1957 | Moves to the previous leaf in key order, or reports exactly the first one |
| `TreeScan.TreeIter.constructor` | crates/engine/src/btree.rs:2087-2122 | A new scan has exactly the cells of the range to return, in scan order |
| `TreeScan.TreeIter.Next` | crates/engine/src/btree.rs:2144-2238 | Returns the next of the remaining cells, or none exactly when nothing remains |
| `TreeScan.CollectLeafWindow` | crates/engine/src/btree.rs:2251-2309 | Copies as many cells as the limit allows; they and the window left behind are the leaf's part of the range in scan order; a bound is reported hit exactly when a cell lies beyond it |
| `TreeScan.LeafPartition` | crates/engine/src/btree.rs:2312-2330 | Binary search splits a leaf at a bound |
| `TreeScan.NothingAfter` | crates/engine/src/btree.rs:2251-2309 | When the upper bound is hit, no later leaf holds a cell of the range |
| `TreeScan.NothingBefore` | crates/engine/src/btree.rs:2251-2309 | When the lower bound is hit in reverse, no earlier leaf holds a cell of the range |
| `CrashRuns.CrashAtomicity` | crates/engine/src/engine.rs:2511-2573 | From any state of any run to any later state in which the engine is up, with no commit begun in between, it serves exactly the state after the commits so far, plus at most the pending one |
| `CrashRuns.AcknowledgedIsDurable` | crates/engine/src/engine.rs:703-744 | Every commit acknowledged, by itself or by a recovery that found it, is part of every state served later, whatever fails, crashes or is closed and opened again in between |
| `CrashRuns.CrashInRecoveryIsHarmless` | crates/engine/src/recovery.rs:90-142 | After recovery has read a flushed log, crashes and repeated recoveries do not change the outcome; after opening found a commit in unflushed records, that commit is all they can still decide |
| `CrashRuns.OpenSucceeds` | crates/engine/src/recovery.rs:23-40 | However a crash leaves the files, opening finds a superblock and recovery reports no corruption |
| `CrashRuns.HistoryExtends` | crates/engine/src/engine.rs:587-626 | Later histories extend earlier ones: no commit is lost or reordered |
| `CrashRuns.AtMostPending` | crates/engine/src/engine.rs:587-626 | Between appends the history gains at most the commit of unknown outcome |
| `CrashReach.EveryHistoryIsReached` | crates/engine/src/engine.rs:2447-2573 | Every valid history of a new database is that of a run in which each of its commits, payload bodies included, goes through and is acknowledged |
| `CrashRuns.RunInvariant` | crates/engine/src/engine.rs:703-744 | Every state of every run satisfies the crash invariant |
| `CrashRuns.SurvivingLogScans` | crates/engine/src/wal.rs:216-375 | The bytes of any surviving log scan back as its complete transactions, whatever follows them without completing another: any part of one more transaction, and then, over an old log, old bytes that read as no record |
| `CrashProof.LoadFinds` | crates/engine/src/recovery.rs:90-142 | On closed files recovery selects the active superblock and finds the last commit, the pending one included exactly if its records survived |
| `CrashProof.RecoverAll` | crates/engine/src/recovery.rs:105-126 | Visiting a log that holds every commit since its start leads to the last of them with all later images |
| `CrashProof.CrashKeeps` | crates/engine/src/engine.rs:2511-2573 | Losing, keeping or tearing every unflushed write keeps the invariant |
| `CrashProof.LoggedPageRewritten` | crates/engine/src/pager.rs:406-446 | Overwriting a logged page in the main file never endangers the latest commit |
| `CrashProof.SettleFiles` | crates/engine/src/recovery.rs:146-152 | Once the newer slot is durable the log is no longer needed |
| `CrashProof.FlushAppendKeeps` | crates/engine/src/engine.rs:2533-2545 | A flushed log append makes the pending commit part of the history |
| `CrashProof.StageKeeps` | crates/engine/src/engine.rs:2552-2571 | Staging the images of a logged commit lets the engine serve exactly that commit |
| `CrashReopen.ReopenIsSafeExactly` | crates/engine/src/engine.rs:631-663 | After closing a failed engine and opening its files as they are, every run keeps the files loadable, serves every acknowledged commit and never serves an older state than before, if and only if the superblock that opening selects is durable and the log is not an emptied one of which two or more transactions are still durable; the ids of one more commit as large as the oldest logged one must fit 64 bits |
| `CrashReopen.SlotLost` | crates/engine/src/recovery.rs:136-139 | In every failed state whose selected superblock is not durable, opening serves the newer commit, truncates the log, and after a crash serves the older one |
| `CrashReopen.AcknowledgedLost` | crates/engine/src/recovery.rs:136-139 | In every such state with an acknowledged commit beyond the durable superblock, that commit is gone |
| `CrashReopen.LogRefused` | crates/engine/src/recovery.rs:136-139 | In every failed state with an emptied log of which two transactions are still durable, and with 64-bit ids not exhausted, the next commit and a crash can leave a log that opening refuses |
| `CrashWitness.UnflushedSlotIsReached` | crates/engine/src/engine.rs:703-744 | A run from a fresh database through one commit and a checkpoint whose slot flush fails ends in such a state, and its acknowledged commit can be lost |
| `CrashWitness.StaleLogIsReached` | crates/engine/src/engine.rs:703-744 | A run from a fresh database through two commits and a checkpoint whose log flush fails ends where the log can come to be refused |
| `CrashWitness.AcknowledgedOverwritten` | crates/engine/src/engine.rs:587-626 | A run in which the failed checkpoint belongs to a recovery: no acknowledged commit lies beyond the durable superblock, and yet the acknowledged one can be damaged, because its payload extent, retired by the commit that was believed, is offered to the next body |
| `CrashWitness.FirstPageIsReused` | crates/engine/src/engine.rs:361-377 | From a new database, a commit that replaces the catalog page and a second one that logs the page it freed are steps of the crash model |
| `RecoveryProcedure.RecoverIfNeeded` | crates/engine/src/recovery.rs:90-142 | Recovery over the log's bytes returns the superblock and leaves the main file that the transactions of the log call for, or refuses them; `PublishesAside` and `LoadIsSpecified` tie what they call for to the superblock slots and to the step system |
| `RecoveryProcedure.PublishesAside` | crates/engine/src/recovery.rs:127-134 | What recovery publishes goes into the slot it has not read: while that write is torn the old superblock is still selected, and once it is done the new one is |
| `RecoveryProcedure.LoadIsSpecified` | crates/engine/src/recovery.rs:90-142 | The step that loads files publishes exactly the superblock that recovery returns, and replays exactly what recovery leaves in the main file |
| `RecoveryProcedure.VisitsGrow` | crates/engine/src/recovery.rs:104-126 | The recovered superblock is the old one or has a later transaction |
| `Creation.CrashSafety` | crates/engine/src/recovery.rs:57-88 | Every crash during the creation of a database leaves files that open if and only if no page was written yet or the manifest is flushed |
| `Creation.Refused` | crates/engine/src/recovery.rs:253-283 | In between there is a crash that leaves a page without a manifest, or a manifest without a readable slot, and opening refuses both |
| `Creation.OpensAsCreated` | crates/engine/src/recovery.rs:253-283 | Whatever a crash leaves is created anew from empty files, refused, or opened as exactly the new database that runs start from, its catalog pages being the images of its founding transaction |
| `History.LoggedContent` | crates/engine/src/recovery.rs:112-122 | A page logged since a superblock holds its latest logged image in the committed state |
| `WalScan.ScanUndoesAppend` | crates/engine/src/wal.rs:216-375 | Scanning any valid log followed by any proper prefix of another transaction visits exactly the complete ones, in order, with every image's location |
| `WalScan.ScanIgnoresTail` | crates/engine/src/wal.rs:216-375 | So does a log followed by the first records of one more transaction and bytes that read as no record |
| `WalScan.CutInsideRecord` | crates/engine/src/wal.rs:158-171 | One new transaction over the head of a longer one never ends where a record of the old one does |
| `WalScan.AppendTransaction` | crates/engine/src/wal.rs:106-156 | Appends exactly the encoded records in order whatever the batching, and refuses exactly mismatched ids, counts and image sizes before writing |
| `WalScan.VisitTransactions` | crates/engine/src/wal.rs:216-375 | The scan loop computes the specified outcome, corruption cases included |
| `WalScan.VisitedIsSound` | crates/engine/src/wal.rs:216-375 | On any bytes whatever: visited transactions have increasing ids, a catalog root and pages inside their file, and exactly the images they announce, each of which verifies where it is located |
| `WalScan.ScanTx` | crates/engine/src/wal.rs:320-370 | A complete transaction that follows the previous one is visited |
| `WalScan.ScanPartial` | crates/engine/src/wal.rs:216-375 | A transaction cut before its commit record is not visited |
| `WalScan.BackwardsIsRefused` | crates/engine/src/wal.rs:342-344 | A log in which old transactions follow a newer one is refused as a whole |
| `WalScan.SplicedBytes` | crates/engine/src/wal.rs:158-171 | Records written over the head of a log, ending between two transactions, read as the new ones followed by the rest of the old |
| `WalScan.LocationsHoldImages` | crates/engine/src/wal.rs:312-319 | Every location reported holds the appended image |
| `WalRecords.RecordReadsBack` | crates/engine/src/wal.rs:532-586 | A complete record reads back as itself, whatever follows it |
| `WalRecords.TornRecordEnds` | crates/engine/src/wal.rs:234-285 | Any proper prefix of a record reads as the end of the log |
| `WalRecords.MixedRecordEnds` | crates/engine/src/wal.rs:281-285 | A record torn behind its header over older bytes reads as the end of the log exactly unless the mixture has the new record's checksum |
| `WalRecords.GeneratedEqualsDirect` | crates/engine/src/wal.rs:557-573 | Sealing an image record from the page's own checksum gives the same bytes as hashing it |
| `WalReplay.ReplayLatestPages` | crates/engine/src/wal.rs:420-444 | Batched replay writes exactly the latest images, and fails exactly if one does not verify |
| `WalReplay.ReplayPageBatch` | crates/engine/src/wal.rs:446-490 | A batch read by spans of adjacent records equals its images one by one |
| `WalReplay.LatestEqualsSequential` | crates/engine/src/wal.rs:404-418 | Writing only the latest image of each page leaves the same file as writing all in order |
| `WalReplay.ReplayIsSequential` | crates/engine/src/wal.rs:518-530 | Replaying the latest images of a scanned log equals replaying every transaction in sequence |
| `FreePages.FreePagePool.Promote` | crates/engine/src/engine.rs:361-377 | Moves exactly the leading batches that no snapshot can reach to the ready pages, and names their staged images |
| `Publication.CommitStaged` | crates/engine/src/engine.rs:2367-2486 | Committing over the pool, with planning or publishing failing or not, is exactly one step of the reclamation scheme and keeps its invariant: what is handed out, returned and retired leaves no readable page in the ready pool; after a published commit every page it freed or left unused, and every page that waited before and is not written by it, is in the pool and waits for no reader beyond the commit |
| `Reclaim.NoEarlyReuse` | crates/engine/src/engine.rs:2349-2365 | In every state of every run, with failed plans, failed publications and recoveries, ready pages are unreachable from the current root and every snapshot, and a batch retired by T only from snapshots older than T |
| `Reclaim.ReaderSeesOneMap` | crates/engine/src/engine.rs:2447-2486 | A reader's pages never change from opening to closing |
| `Reclaim.RipeIsUnreachable` | crates/engine/src/engine.rs:361-377 | A batch becomes reusable only when nothing readable reaches it |
| `Reclaim.InstallKeeps` | crates/engine/src/engine.rs:2447-2486 | Publishing a plan keeps readers' versions and makes the freed pages wait for them |
| `PoolBooks.StepKeepsWaiting` | crates/engine/src/engine.rs:2367-2486 | Every step but a failure in the log and a recovery keeps every page in the pool, waiting no longer than before, unless it is an image of the commit |
| `PoolBooks.PagesStay` | crates/engine/src/engine.rs:2367-2486 | So does every stretch of a run without those two |
| `PoolBooks.CommitPools` | crates/engine/src/engine.rs:2447-2486 | After a commit every page it freed or left unused waits in the pool at most for readers older than the commit |
| `PoolBooks.Ripens` | crates/engine/src/engine.rs:361-377 | A page that waits for readers older than the oldest one is ready after promotion |
| `PoolBooks.FreedComesBack` | crates/engine/src/engine.rs:361-395 | In every run, a page freed by a commit is ready after the first promotion at which no older reader is open, unless a commit has used it in between |
| `DatabaseSpace.StepPlaces` | crates/engine/src/engine.rs:2447-2486 | Every step of a database but a failure in the log and a recovery keeps each page id below the end of the file in a tree, in an extent or in the pool |
| `DatabaseSpace.NothingLeaks` | crates/engine/src/engine.rs:2367-2486 | So the file loses no page in any stretch of a run without those two |
| `DatabaseSpace.OnePlace` | crates/engine/src/engine.rs:2657-2860 | No id is in two of these places at once |
| `DatabaseSpace.RecoveryLosesThePool` | crates/engine/src/engine.rs:587-626 | A recovery that adopts nothing loses exactly the ids that were in the pool, and nothing if and only if that was empty |
| `DatabaseSpace.CreatedIsAccounted` | crates/engine/src/recovery.rs:57-88 | A created database starts that way if and only if every id below its end is a catalog page |
| `PayloadRuns.PayloadsAreSafe` | crates/engine/src/payload_registry.rs:76-257 | In every state of every run counts equal the cells naming an extent, extents are disjoint from each other and from tree pages, and every body that the current state, a snapshot or an adoptable commit names is intact |
| `PayloadRuns.WritesAreUnreferenced` | crates/engine/src/engine.rs:153-182 | No current cell and no open reader names an extent that planning may overwrite |
| `PayloadRuns.PlanKeepsReaders` | crates/engine/src/engine.rs:2814-2832 | A commit keeps every extent an open reader needs |
| `PayloadRegistration.PayloadRegistry.Reserve` | crates/engine/src/payload_registry.rs:76-148 | Takes the first candidate that is large enough, retired at or before the oldest snapshot and still described by its row, and fresh pages exactly if there is none; only stale rows are removed, they never authorise an overwrite, and the error means a candidate with a malformed key, no record, or an extent beyond the file |
| `PayloadRegistration.ReuseIsFound` | crates/engine/src/payload_registry.rs:76-148 | With no more large extents in the queue than one scan reads, a retired extent that would do is never passed over for fresh pages |
| `ReuseQueue.ScanQueue` | crates/engine/src/payload_registry.rs:308-382 | The candidates are the next 64 large keys from the durable cursor on, going around at the end of the queue, and the cursor moves to the last of them |
| `ReuseQueue.PassFacts` | crates/engine/src/payload_registry.rs:308-382 | They are distinct rows of the queue, large enough, and as many as there are up to 64 |
| `ReuseQueue.EveryExtentIsReached` | crates/engine/src/payload_registry.rs:353-357 | Scans that leave the queue as it is reach every large extent once there are enough of them to cover all, from any cursor |
| `ReuseQueue.RowKeyOrder` | crates/engine/src/payload_registry.rs:426-433 | The encoded queue keys sort by capacity, then by retirement, then by page |
| `PayloadRegistration.PayloadRegistry.RegisterBody` | crates/engine/src/payload_registry.rs:150-187 | Accepts exactly a body that matches its reservation, and records it without references |
| `PayloadRegistration.PayloadRegistry.ApplyReferenceChanges` | crates/engine/src/payload_registry.rs:190-257 | Accepts exactly references that name one known body per extent, whose counts stay non-negative and which revive only extents registered now; then every count changes by added minus dropped and retirement is stamped exactly when a count reaches zero; what an extent holds, its capacity and its generation never change |
| `CommitTrees.RunJobs` | crates/engine/src/btree.rs:1101-1132 | Any sequence of tree changes, new trees and drops over one allocator conserves pages and references exactly, keeps finished trees well formed while later ones take ids, and does to each tree what its job says |
| `CommitPlanning.PlanCommit` | crates/engine/src/engine.rs:2657-2860 | A commit of several trees and bodies over one allocator is a plan that both reclamation schemes accept: images on allocatable ids, each page freed once, counts equal to the cells held, extents apart from tree pages; on the published pages every new tree and every untouched one is well formed, and the pages of the new trees, with multiplicity, are those of the old ones less the freed pages plus the images |
| `CommitLink.PlannedExtends` | crates/engine/src/engine.rs:2447-2486 | Such a plan may follow the history as the crash model demands: no reached page is logged again, bodies never meet logged pages, and no body lies where the last commit reaches |
| `CommitLink.PlannedStaysLinked` | crates/engine/src/engine.rs:2447-2486 | And the history, the page pool and the extents still describe the same files afterwards |
| `CommitLink.WritesNotReached` | crates/engine/src/payload_registry.rs:76-148 | Where planning may write bodies, the crash model lets it: neither the last commit nor any log holds these pages |
| `DatabaseRuns.CreatedIsOk` | crates/engine/src/recovery.rs:57-88 | A created database is a start of the crash model, and its history, pool, extents and catalog fit together |
| `DatabaseRuns.BuildCatalog` | crates/engine/src/recovery.rs:57-70 | The catalog built over pages from 1 on is what such a creation writes, and building it cannot fail on increasing rows that fit pages and are few enough |
| `DatabaseRuns.DatabaseStaysSound` | crates/engine/src/engine.rs:2367-2486 | In every state of every run of a created database, through commits, failures before and in the log, snapshots and recoveries, the history is valid for the crash model, every tree is well formed on the current pages, every current page belongs to exactly one tree and occurs in it once, ready pages are out of every reader's reach, and counts are the cells naming an extent |
| `DatabaseRuns.HistoryIsReached` | crates/engine/src/engine.rs:2447-2573 | And its history is that of a run of the crash model from the files that creation leaves, so that the crash results hold of the commits of every such run |
| `DatabaseRuns.StepKeeps` | crates/engine/src/engine.rs:2447-2573 | Every step of such a run keeps all of that, and only adds to the history |
| `DatabaseRuns.PlannerIsReady` | crates/engine/src/engine.rs:2657-2860 | After any such run everything that planning demands holds again, for any choice of trees to change |
| `DatabaseRuns.BodyMayBeWritten` | crates/engine/src/engine.rs:153-182 | After any such run the crash model lets planning write its bodies where it does |
| `DatabaseRuns.CommitMayBegin` | crates/engine/src/engine.rs:2511-2533 | And it lets the planned commit begin its log append once its bodies are flushed |
| `PayloadRegistration.CountDeltas` | crates/engine/src/payload_registry.rs:203-222 | Net counts per extent; accepts exactly references that name one incarnation of each extent |
| `CrcTables.CrcTransform` | crates/engine/src/checksum.rs:54-91 | The built table computes the advance through the given number of zero bytes for every 32-bit value, plus the value itself if asked |
| `CrcTables.NextBasis` | crates/engine/src/checksum.rs:62-70 | Inverting one register step leads from one basis bit to the next |
| `CrcTables.WordIsItsBytes` | crates/engine/src/checksum.rs:86-91 | Four byte lookups cover the whole word |
| `CrcShortcuts.GeneratedPageIsExact` | crates/engine/src/checksum.rs:104-107 | The shortcut equals hashing prefix and page, for every prefix and every page that carries its checksum |
| `CrcShortcuts.GeneratedOverflowIsExact` | crates/engine/src/checksum.rs:127-134 | The shortcut equals hashing header, chunk and padding, for every header and chunk length |
| `CrcShortcuts.AdvanceCrc` | crates/engine/src/checksum.rs:112-122 | Equals the advance through any number of zero bytes |
| `CrcShortcuts.PairedPayloadChecksums` | crates/engine/src/checksum.rs:139-194 | Returns the checksum of every chunk of both prefixed values |
| `CrcShortcuts.ValueChunkIsSlice` | crates/engine/src/prepared_value.rs:147-155 | The chunks are the consecutive slices of the prefixed value |
| `CrcShortcuts.ChecksumWithZeroedRegion` | crates/engine/src/checksum.rs:21-41 | Equals hashing the buffer with the clamped region zeroed |
| `Crc.CombineIsConcatenation` | crates/engine/src/checksum.rs:112-122 | Combining two checksums gives the checksum of the concatenation |
| `Crc.CrcOfSealed` | crates/engine/src/checksum.rs:93-107 | Bytes that embed their own checksum hash to the checksum plus its advanced contribution |
| `Crc.KnownValue` | crates/engine/src/checksum.rs:7-13 | The polynomial, the order of the bits and the complements are those of the standard: the checksum of the letter a is 0xe8b7be43 |
| `PageCache.Pager.WithPage` | crates/engine/src/pager.rs:208-251 | Returns the latest staged or written image, fails exactly on unknown or unverifiable pages, and changes neither the page map nor the dirty pages |
| `PageCache.Pager.WritePageImage` | crates/engine/src/pager.rs:253-261 | Changes exactly that page, in the file too |
| `PageCache.Pager.StagePageImage` | crates/engine/src/pager.rs:355-362 | Changes exactly that page in the view, and pins it dirty |
| `PageCache.Pager.DiscardDirtyPageIfGeneration` | crates/engine/src/pager.rs:380-392 | Drops exactly a staged image of that generation, and reveals the file's page |
| `PageCache.Pager.WriteBackDirty` | crates/engine/src/pager.rs:394-446 | The file changes at exactly the dirty pages, to their images, and the view not at all |
| `PageCache.WriteSorted` | crates/engine/src/pager.rs:406-446 | Writing runs of consecutive pages equals writing page by page |
| `PageCache.Pager.MarkDirtyClean` | crates/engine/src/pager.rs:448-464 | No page stays dirty, the view is unchanged, and the clean budget holds again |
| `PageCache.Pager.EvictIfNeeded` | crates/engine/src/pager.rs:544-563 | Leaves at most the budget of clean pages and evicts no more than that takes, pages used longest ago first; never evicts dirty or protected ones, and does not change the view |
| `PageCache.Pager.StoreCachedPage` | crates/engine/src/pager.rs:489-507 | The view changes at exactly that page, and the dirty count stays exact |
| `PageCache.Pager.NoteCachedUse` | crates/engine/src/pager.rs:114-127 | A used clean page has its current use at the back of the queue |
| `PageCache.Pager.CompactLruIfNeeded` | crates/engine/src/pager.rs:565-580 | Compaction keeps every current use |
| `PageCache.Pager.DiscardCache` | crates/engine/src/pager.rs:467-471 | The view becomes the file |
| `ChangeFeeding.ChangeFeed.ChangesSince` | crates/engine/src/engine.rs:1933-2050 | For every accepted cursor, replaying the returned changes onto the data at the cursor gives the latest data; cursors are rejected exactly beyond the last commit or below the floor |
| `ChangeFeeding.ChangeFeed.Commit` | crates/engine/src/engine.rs:2727-2812 | Keeps the feed complete through pruning and policy changes; the floor never decreases and never passes the last commit; with a policy that retains n transactions an accepted cursor at most n below the commit stays accepted, and without one every accepted cursor does; if fewer than a batch of records are due, no older cursor stays accepted |
| `ChangeFeeding.ChangeFeed.Prune` | crates/engine/src/engine.rs:2746-2766 | Everything pruned is at or below the new floor, which stays below the new commit; nothing is pruned unless the policy asks; if fewer than a batch of records are due, exactly those are pruned and the floor is exactly the retained transaction, otherwise exactly a batch and the floor reaches its last record |
| `ChangeFeeding.ChangeFeed.Reopen` | crates/engine/src/engine.rs:525-549 | Reloading keeps the feed complete and the floor from decreasing; it is what was saved, or the last commit where no log ever existed |
| `ChangeFeeding.CollectBelow` | crates/engine/src/btree.rs:1253-1282 | Collects the first records up to the target, at most a batch |
| `ChangeFeeding.ChangeFeed.CommitLogged` | crates/engine/src/engine.rs:2727-2812 | A logged commit leaves the old log without what the policy prunes, followed by exactly its own records |
| `ChangeFeeding.DueFirst` | crates/engine/src/btree.rs:1253-1282 | If the first n records are at or below a target and no other follows them that is, exactly n are due |
| `ChangeFeeding.CommitCatchesUp` | crates/engine/src/engine.rs:2727-2812 | A cursor that caught up before a commit still does, if nothing after it was pruned |
| `ChangeLog.CommitReplays` | crates/engine/src/engine.rs:3191-3258 | Replaying a commit's change records gives the committed data |
| `ChangeLog.StageReplays` | crates/engine/src/engine.rs:3191-3258 | Drop, clear, put and live-key delete records reproduce one staged store |
| `ChangeLog.LogKeyOrder` | crates/engine/src/change_feed.rs:162-167 | Log keys sort by transaction, then by position |
| `ChangeLog.AfterTxidKey` | crates/engine/src/change_feed.rs:169-171 | A scan after the cursor key sees exactly later transactions |
| `StagedScan.StagedStore.Visit` | crates/engine/src/engine.rs:3956-4099 | Rows are, in scan order, exactly those keys of the range that hold a value, staged or else committed, without expiry or before it, as many as limit and receiver allow; exhaustion is reported exactly for a zero limit or when all rows were taken short of the limit; cleaning up expired rows changes what no scan at that or any later time sees |
| `StagedScan.StagedStore.Put` | crates/engine/src/engine.rs:3764-3820 | Afterwards the key holds the value, to expire at now plus the time to live, and no other key changes; reports whether the key had a live value; fails exactly on an expiry beyond 64 bits and on a dropped store |
| `StagedScan.StagedStore.Get` | crates/engine/src/engine.rs:3601-3636 | Reads what the key holds, staged or else committed, if it has no expiry or is before it, and deletes a value that is not; no read at this or any later time sees a difference |
| `StagedScan.StagedStore.Remove` | crates/engine/src/engine.rs:3822-3846 | Afterwards the key holds nothing and every other key what it held; reports whether it had a live value |
| `StagedScan.StagedStore.Clear` | crates/engine/src/engine.rs:908-924 | Afterwards no key holds anything or is seen at any time, committed rows included |
| `StagedScan.PutThenScan` | crates/engine/src/engine.rs:1388-1420 | A value put at one time is returned by a scan over its key at every time before that time plus its time to live and at none from then on, and at every time if it has none |
| `StagedScan.HiddenStaysHidden` | crates/engine/src/value.rs:124-126 | What a scan does not see, by expiry or deletion, no later scan sees |
| `StagedScan.ExhaustionIsHonest` | crates/engine/src/engine.rs:3956-3990 | Reported exhaustion means that the whole range was returned, unless the limit is zero and the range holds something |
| `Paging.ZeroLimitScan` | crates/engine/src/engine.rs:3956-3990 | A scan with limit zero over a live row returns nothing and reports that nothing is left |
| `StagedScan.StagedStore.CleanUp` | crates/engine/src/engine.rs:4088-4098 | Deleting expired rows leaves the view at that time and at every later one unchanged |
| `StagedScan.StagedStore.NormalizeExpired` | crates/engine/src/engine.rs:3332-3351 | Turning expired puts into deletes leaves the view at that time and at every later one unchanged |
| `StagedScan.StagedStore.MarkKeyExpired` | crates/engine/src/engine.rs:3326-3330 | Adds a delete exactly where nothing is staged |
| `Overlay.VisitMerged` | crates/engine/src/engine.rs:4018-4086 | The merge loop hands over exactly the accepted prefix of the merged rows |
| `Overlay.OverlaidIsView` | crates/engine/src/engine.rs:4018-4086 | Key by key the merged rows are what the transaction sees |
| `Overlay.OverlaidInOrder` | crates/engine/src/engine.rs:4018-4086 | The merged rows are in scan order |
| `Paging.PagingEqualsScan` | crates/engine/src/engine.rs:1793-1897 | Over a fixed view the pages of any budgets concatenate to the limited scan, in either direction, within one page more than there are rows |
| `Paging.ScanPackedPage` | crates/engine/src/engine.rs:1793-1897 | Fetching a page through staged writes gives a page in the sense that paging builds on, encoded within its byte budget, and fails for unusable budgets and dropped stores exactly, and otherwise only for an oversized first row; with `Paging.FullScanRows` its rows are those that the fields of the range admit |
| `Paging.FullScanRows` | crates/engine/src/btree.rs:81-95 | A full scan holds exactly the rows after `gt`, at or after `gte`, before `lt` and at or before `lte`, as far as these are set |
| `Paging.PageThenRest` | crates/engine/src/bindings.rs:544-572 | One page and the advanced bookmark's rest are what was left; the range stays valid until exhausted, and a page that is not the last has rows |
| `Paging.ScanBookmark.Advance` | crates/engine/src/bindings.rs:544-572 | Computes the specified advanced bookmark |
| `Paging.ResumeIsSuffix` | crates/engine/src/bindings.rs:544-572 | Starting exclusively after the last key continues exactly where the page ended |
| `Paging.ScanPacket.Append` | crates/engine/src/output.rs:158-199 | Takes a row exactly if it fits the byte budget, rejects a first row that does not |
| `Paging.ScanPacket.Finish` | crates/engine/src/output.rs:201-211 | The packet is the row count and the encoded rows, within its byte budget |
| `Revisions.RevisionEngine.Commit` | crates/engine/src/engine.rs:780-808 | A stale snapshot is rejected; a commit adds its writes, all committed revisions stay pairwise distinct and no epoch exceeds its commit |
| `Revisions.RevisionEngine.Write` | crates/engine/src/engine.rs:3783-3795 | The first write fixes the transaction's epoch at the next commit id; each write gets that epoch and the next ordinal, and nothing else changes |
| `Revisions.RevisionEngine.Import` | crates/engine/src/engine.rs:3002-3016 | Imported rows get the commit's id as epoch and consecutive ordinals, distinct from every committed revision; a failed plan commits nothing, and a failed publication leaves the rows to recovery |
| `Revisions.RevisionEngine.Reload` | crates/engine/src/engine.rs:525-549 | Counters restart after the last commit, the pending commit adopted or not, without a clash |
| `Revisions.JoinKeepsUnique` | crates/engine/src/engine.rs:2492-2509 | Writes with an epoch newer than every commit join without a clash |
| `ControlFile.CrashSafety` | crates/engine/js/opfs_shim.js:247-282 | Every crash during publication leaves the old or the new generation if and only if a valid slot or a legacy file existed before |
| `ControlFile.TornFirstPublication` | crates/engine/js/opfs_shim.js:231-246 | A torn first publication without legacy files reads as corruption instead of the old state |
| `ControlFile.PublishedIsSelected` | crates/engine/js/opfs_shim.js:189-209 | The published slot is selected and its counter exceeds both slots' |
| `ControlFile.Directory.WriteControlState` | crates/engine/js/opfs_shim.js:247-282 | Publishes in the slot not selected, or changes nothing that is read; counters strictly increase |
| `ControlFile.Directory.ResolveActiveDataDir` | crates/engine/js/opfs_shim.js:322-342 | A published generation is opened only once no legacy file remains, and removal never changes the resolution |
| `PageCodec.LeafRoundTrip` | crates/engine/src/page.rs:438-492 | An encoded leaf page passes every header, slot, order and overlap check and holds the same cells |
| `PageCodec.InternalRoundTrip` | crates/engine/src/page.rs:494-535 | An encoded internal page passes every check and holds the same cells |
| `PageCodec.DecodeLeafPage` | crates/engine/src/page.rs:719-764 | Returns the cells exactly of the leaf pages that satisfy every structural check |
| `PageCodec.DecodeInternalPage` | crates/engine/src/page.rs:768-807 | Returns the cells exactly of the internal pages that satisfy every structural check |
| `PageCodec.LeafCellReadsBack` | crates/engine/src/page.rs:236-278 | A stored cell of any kind reads back whatever follows it |
| `PageCodec.LeafCostFits` | crates/engine/src/page.rs:538-563 | The tree writer's cost bound is exactly the page's capacity |
| `Slotted.Encode` | crates/engine/src/page.rs:538-563 | Encodes exactly the cells that fit, slots pointing at cells packed from the end |
| `Slotted.SlotPointsAtCell` | crates/engine/src/page.rs:179-189 | Every slot lies in the data region and points at its cell |
| `Slotted.RejectOverlapping` | crates/engine/src/page.rs:809-831 | Accepts exactly pairwise disjoint spans |
| `Slotted.ImageHeader` | crates/engine/src/page.rs:121-163 | A sealed image passes every header check and reads back its header |

## Left out

- Streamed bulk building (`SortedTreeBuilder`, used by full rewrites of legacy stores and by compaction): it fills leaves greedily where packing balances them, and grows the root in the same way. Building from rows at hand is `TreeApply.BuildTree`.
- `right_sibling_page_id` of tree pages: packing sets it to the next page id of the same batch and nothing reads it, so `Pages.Page` has no such field; the page codec keeps it.
- Reading value bodies by prefix, windowed reads that bypass the cache, and compression: reads of bytes the model already names.
- CatalogDelta and the catalog's own encoding: taken as a map override.
- Superblock and control slots as bytes: a slot is its fields or unreadable; the log offset in the superblock has no effect on recovery and is dropped.
- In the crash model: damage outside the writes in flight, and checksum collisions. Lookups, node reading and retiring trees are proved on any pages.
- Opening a failed engine's files as they are is a step of the crash runs (`Abandon`) where it is safe; `CrashReopen` says what happens where it is not. Its second unsafe case demands that the ids of one more commit, as large as the oldest in the log, fit 64 bits (`CrashReopen.RoomToGrow`).
- Storage backends, leases, OPFS and native I/O, the SDK, SQL and transport.
- Snapshot export, import and reset as data transfers; import appears only in the revision model.
- Change-feed filters and limits, and time-to-live in the feed: the completeness property is about the unfiltered feed of stores without expiry.
- Row values of a staged scan come from a sequence of committed rows; `TreeScan.TreeIter` proves separately that the tree delivers that sequence.
- Overflow of 64-bit counters: counters are unbounded naturals, except the control file's.
