# A verified model of the PulseVM storage engine

PulseVM keeps all consensus state in an in-memory storage engine, the arena. This
project models the arena, the contract database and resource accounting built on
it, the state-history deltas taken from it, and the civil-date arithmetic of the
text formats. It proves what these promise over every run, not over examples.

## The parts

**The table** (`ArenaTypes`, `TableSpec`, `TableOps`). A table holds fixed-size
rows by id, unique secondary indices, an arena of variable-length blobs with a
free list, a stack of undo sessions, and what changed since the last flush. Every
operation is a function from a table's value to the next.

**Undo and blobs** (`RowHistory`, `BlobSafety`, `Refinement`, `Runs`,
`SessionLevels`, `SessionLaws`, `SessionLogs`, `SpanLedger`, `SpanHistory`,
`SquashTransparency`). A session saves
first-touched rows, not the table. Freed spans may be reused only when no session can
bring back a row that names them. The table is proved to refine a store that
copies everything when a session starts. What counts as the same state is next id,
rows and the bytes of blobs rows name; a reused span keeps its new bytes after undo.
What that store does not see is stated beside it: which sessions a commit ends, that
no span is lost, and in which order lists are kept.

**The table as a program** (`PagedPrimary`, `DirtyPages`, `KeyIndex`, `FreeList`,
`Table`). The class works in place on pages, bit words, index maps and stacks, as
the source does. Each method is proved against the functions above, with every
index exact and the row count right.

**Files** (`TouchOrder`, `Delta`, `DeltaRuns`, `Wire`, `Layouts`, `Recovery`,
`FileRules`, `CrashRecovery`, `TablePersistence`, `DbPersistence`). Snapshots, delta records, checkpoints and
the framed log, as bytes; loading and replaying them; recovery of a database that
ran and flushed from any prefix of its log, and its restart.

**The database** (`DbLifecycle`, `DbRefinement`, `Db`). Many tables, one revision
and one undo depth, and together one stack of copies.

**Resources** (`ResourceUsage`, `ElasticLimits`, `AccountLimits`). The moving
average with its rounding, limits that stretch with block use, and staged account
limits with their totals.

**Contract rows** (`ContractTables`, `RamInventory`, `Permissions`). Tables that
come and go with their rows, two ways of counting what an account pays for, and
the walk up permission parents.

**The contract database** (`IteratorCache`, `ContractRam`, `ContractSessions`,
`ContractWrites`, `ContractRuns`, `TableOrder`, `ContractDb`, `ContractTraversal`).
Iterator handles, ordered traversal by primary key and by 64-bit secondary key, and
RAM billing under sessions. The class keeps the contents as a value and a copy of
them for each session. That the arena, whose tables really hold the rows, does the
same to contents read off its tables is what `ContractRuns.MakesAfter` states of
every operation.

**History and dates** (`HistoryDelta`, `HistoryOrder`, `HistoryRules`,
`HistoryTables`, `CivilDates`). What a block's delta tells a consumer, for any serializer of rows
and blobs and for each table's own rule; calendar arithmetic.

## Where the code differs from what is said of it

- A delta record is described as applying in any order. Its rows are replayed in
  touch order, and a row that takes a key still held by a later row is refused.
  `DeltaRuns.RunReplays` gives the exact condition and
  `DeltaRuns.TradedKeysAreRefused` an example.
- The rule for account metadata also emits changes of the machine numbers of
  accounts without code, which are not serialized (`HistoryRules.MetaExact`,
  `HistoryRules.IdleVmIsEmitted`). The update from source history,
  crates/pulsevm_chaindb/src/lib.rs:1779-1798, can make such a change.
- No modification of a code row is emitted. The update of imported code,
  crates/pulsevm_chaindb/src/lib.rs:3845-3861, changes the code a row serializes,
  and a block that makes it leaves consumers with the old code;
  `HistoryTables.CodeBlock` gives the exact condition and
  `HistoryTables.ReplacedCodeIsMissed` a block.
- The rules for limits rows and contract tables do not compare the owner and the
  name, which are serialized. No caller changes them; `HistoryTables.LimitsArrive`
  and `HistoryTables.TablesArrive` show that the deltas depend on that.
- Removing a contract table row outright orphans its rows
  (`ContractTables.Store.RemoveTable`, `ContractTables.DroppedTableOrphans`).
- A permission's parent is not looked up when it is created, so one can be made
  its own parent, and the walk up its parents does not end
  (`Permissions.PermissionTable.Create`, `Permissions.MadeItsOwnParent`).
- A record or snapshot may file a row under an id it does not carry; loading it
  succeeds and leaves indices that lead elsewhere (`TablePersistence.ApplyDelta`,
  `TablePersistence.LoadFrom`, `TablePersistence.ForeignRowLoads`,
  `TablePersistence.ForeignRowReplays`).

## What callers owe

The blob properties are about callers that store a span in at most one row field
and release it at most once, after that field dropped it; releasing a field's
span, allocating its new value and modifying the row is one step. The arena stays
below 4 GiB, the width of a span's offset. Flushes are taken with no session open.
`Refinement.Enabled` states this. A row constructor or mutator keeps the row's
size.

## Model

| member | source | states |
|---|---|---|
| `Refinement.StepRefines` | crates/pulsevm_arena/src/table.rs:333-801 | one step of any operation, on a table with any sessions open, does what a store does that copies its whole visible state when a session starts and puts the copy back on undo; the row and blob invariant holds again afterwards |
| `Runs.RunRefines` | crates/pulsevm_arena/src/table.rs:333-801 | the same over every run of operations |
| `Runs.UndoRestores` | crates/pulsevm_arena/src/table.rs:645-719 | whatever ran in a session (changes, span reuse, nested sessions, commits of older sessions), undo puts back the next id, the rows, the bytes of every blob a row names, and the revision, as they were when the session started |
| `SpanHistory.ReachableSpans` | crates/pulsevm_arena/src/table.rs:333-380 | in every reachable state free spans are pairwise disjoint, none overlaps a blob of a row that is live or that undoing any number of open sessions brings back, and of all spans at any undo level, of rows, free, freed, reused or patched, no two have the same offset below the flushed length and different lengths; no patch cuts through another patch |
| `SpanHistory.ReachableFromRest` | crates/pulsevm_arena/src/table.rs:333-380 | so it is after every run from any sound table without open sessions, a new one and one brought back by loading and replaying alike |
| `SpanHistory.LengthsStayFixed` | crates/pulsevm_arena/src/table.rs:333-380 | along every run a span at a flushed offset keeps the length it had: whatever span of any level later starts there has that length |
| `SpanHistory.RunFollows` | crates/pulsevm_arena/src/table.rs:333-380 | over every run each span below the flushed length, at any level, was there before with the same length |
| `Runs.FreeNeverReachable` | crates/pulsevm_arena/src/table.rs:659-669 | a free span overlaps no blob of any row at any undo level |
| `SquashTransparency.SquashTransparent` | crates/pulsevm_arena/src/table.rs:728-769 | opening a session, running operations in it (nested sessions and commits of older sessions that leave the outer one open included) and squashing gives the same table, first-touch orders, saved values, freed and reused lists included, as running them in the outer session |
| `SquashTransparency.MergeAssociative` | crates/pulsevm_arena/src/table.rs:728-769 | folding three nested sessions gives the same session in either grouping |
| `RowHistory.RestoreAfterMerge` | crates/pulsevm_arena/src/table.rs:728-769 | undoing a squashed session restores what undoing the inner and then the outer one restores |
| `RowHistory.RestoreAfterModify` | crates/pulsevm_arena/src/table.rs:792-801 | recording a modification leaves what undo restores unchanged: the first saved value wins |
| `RowHistory.RestoreAfterRemove` | crates/pulsevm_arena/src/table.rs:469-493 | recording a removal leaves what undo restores unchanged |
| `RowHistory.EmplaceKeepsRows` | crates/pulsevm_arena/src/table.rs:412-425 | creating a row keeps every session's start state well formed and every unique key unique |
| `RowHistory.ModifyKeepsRows` | crates/pulsevm_arena/src/table.rs:429-466 | so does modifying a row |
| `RowHistory.RemoveKeepsRows` | crates/pulsevm_arena/src/table.rs:469-493 | so does removing a row |
| `Refinement.ReuseRefines` | crates/pulsevm_arena/src/table.rs:333-358 | writing a new blob over a reused free span changes no blob a row names, now or at any undo level |
| `Refinement.AppendRefines` | crates/pulsevm_arena/src/table.rs:333-358 | appending a new blob does the same |
| `Refinement.FreeRefines` | crates/pulsevm_arena/src/table.rs:365-374 | releasing a span keeps every byte an open session may still need |
| `Refinement.UndoRefines` | crates/pulsevm_arena/src/table.rs:645-719 | undo returns to the innermost copy and gives reused spans below the session's start back to the free list |
| `Refinement.SquashInner` | crates/pulsevm_arena/src/table.rs:733-746 | squash hands freed and reused spans to the outer session without losing or doubling one |
| `Refinement.CommitRefines` | crates/pulsevm_arena/src/table.rs:772-790 | commit of any older sessions keeps every remaining copy and the visible state |
| `Refinement.RewriteInPlace` | crates/pulsevm_arena/src/table.rs:377-380 | reallocating a blob in place, release then allocate then modify, acts as one step |
| `TableClass.Table.constructor` | crates/pulsevm_arena/src/table.rs:302-328 | a new table is empty at revision 0 |
| `TableClass.Table.Emplace` | crates/pulsevm_arena/src/table.rs:412-425 | stores the row under the next id, or reports the first index whose key is taken and changes nothing; every index stays exact |
| `TableClass.Table.Modify` | crates/pulsevm_arena/src/table.rs:429-466 | replaces the row, or reports not found, changed id or the first conflicting index and changes nothing; every index stays exact |
| `TableClass.Table.Remove` | crates/pulsevm_arena/src/table.rs:469-493 | removes the row from store and indices, or reports not found |
| `TableClass.Table.TryInsertAll` | crates/pulsevm_arena/src/table.rs:1013-1028 | inserts the row's key into every index, or into none and names the first conflicting one |
| `TableClass.Table.MoveAll` | crates/pulsevm_arena/src/table.rs:429-466 | moves a row's key in every index, or rolls every move back and names the first conflict |
| `TableClass.Table.AllocBlob` | crates/pulsevm_arena/src/table.rs:333-358 | reuses the latest released span of exactly that length, patched when it is flushed, or appends |
| `TableClass.Table.FreeBlob` | crates/pulsevm_arena/src/table.rs:365-374 | holds the span back in the innermost session, or releases it when none is open |
| `TableClass.Table.StartUndoSession` | crates/pulsevm_arena/src/table.rs:578-591 | opens a session that records next id and arena length |
| `TableClass.Table.SetRevision` | crates/pulsevm_arena/src/table.rs:597-608 | raises the revision, or refuses while a session is open or when it would drop |
| `TableClass.Table.Undo` | crates/pulsevm_arena/src/table.rs:645-719 | brings rows, next id, row count, indices, arena, free list, dirty list and revision to the undone state |
| `TableClass.Table.Squash` | crates/pulsevm_arena/src/table.rs:728-769 | folds the innermost session into the one around it, or releases its spans when it is the only one |
| `TableClass.Table.Commit` | crates/pulsevm_arena/src/table.rs:772-790 | the session that took the table to a revision is open afterwards exactly when that revision is above the committed one; the revision stays; released spans join the free list |
| `TableClass.Table.MarkFlushed` | crates/pulsevm_arena/src/table.rs:977-984 | empties dirty list, dirty bits and patches and records the flushed length |
| `TableClass.Table.MarkDirty` | crates/pulsevm_arena/src/table.rs:402-407 | adds an id at the end of the dirty list unless it is there |
| `TableClass.Table.RestoreFrom` | crates/pulsevm_arena/src/table.rs:671-719 | re-inserts saved rows, in any hashing order, so that store and indices are exactly the restored rows |
| `TableClass.Table.DropCreated` | crates/pulsevm_arena/src/table.rs:671-719 | takes the rows created in the session out of store, indices and count |
| `SessionLaws.CommitEndsOlder` | crates/pulsevm_arena/src/table.rs:772-790 | a commit up to a revision leaves min(depth, max(0, revision - up to)) sessions open: for every k, the session that took the table to revision k stays as it was if k is above the committed revision, and is gone otherwise; nothing else changes but the free list |
| `SessionLaws.CommitEnds` | crates/pulsevm_arena/src/table.rs:772-790 | the same of any stack with a revision, so of the copies of the whole database and of the contract database |
| `SessionLaws.OldestFirst` | crates/pulsevm_arena/src/table.rs:782-789 | the spans a commit releases stand oldest session first, each session's in the order it gave them up |
| `SessionLaws.SquashThenCommit` | crates/pulsevm_arena/src/table.rs:728-790 | squashing the only session leaves the free list that committing it leaves, in the same order; squashing an inner one and then committing leaves the free list that committing alone leaves |
| `SessionLaws.AllocTakes` | crates/pulsevm_arena/src/table.rs:333-358 | an allocation gets the latest released span of exactly its length, taken off the free list, and the arena does not grow; only when there is none it grows, by exactly the bytes; a reused flushed span is patched; no other byte changes |
| `SessionLaws.ReleasedIsNext` | crates/pulsevm_arena/src/table.rs:333-374 | without a session a released span goes to the next allocation of its length |
| `SessionLaws.HeldBackThenNext` | crates/pulsevm_arena/src/table.rs:333-374 | with one session open a released span is not reused until it ends, by squash or commit, and then goes to the next allocation of its length |
| `SpanLedger.StepEnters` | crates/pulsevm_arena/src/table.rs:333-801 | no span is lost or made up: at every undo level the spans of rows, of callers, free and waiting are the same multiset after every operation, but for an allocation that finds no free span of its length, which adds one; undo, squash and commit drop levels only |
| `SpanLedger.UndoLosesNoSpan` | crates/pulsevm_arena/src/table.rs:645-669 | whatever ran in a session, undo leaves the spans there were at its start, but for those callers held, and with no session around it the same spans are free as then |
| `SpanLedger.UndoFreesInOrder` | crates/pulsevm_arena/src/table.rs:659-666 | undo appends the spans its session reused to the free list in the order they were reused |
| `SpanLedger.UndoShrinksArena` | crates/pulsevm_arena/src/table.rs:655-658 | whatever a session appended, undo leaves the arena as long as it was at the session's start |
| `SessionLogs.StepRecords` | crates/pulsevm_arena/src/table.rs:728-801 | every operation keeps each open session's lists equal to a log of what happened in it: modified and removed rows in the order of their first touch, squashed sessions' after the outer one's, released and reused spans in order, and each removed row as it was when removed |
| `HistoryOrder.RunRecords` | crates/pulsevm_arena/src/table.rs:333-801 | the same over every run |
| `TouchOrder.StepTouches` | crates/pulsevm_arena/src/table.rs:402-407 | the dirty list is the touched ids in the order of their first touch, and so it is after every operation but a flush; undo touches the ids it drops, ascending, and then the restored ones |
| `TouchOrder.DirtyGrows` | crates/pulsevm_arena/src/table.rs:402-407 | every operation but a flush leaves the dirty list a prefix of the new one |
| `TouchOrder.FirstsUnique` | crates/pulsevm_arena/src/table.rs:402-407 | there is only one list of a log's ids in the order of first touch |
| `TouchOrder.PatchesStay` | crates/pulsevm_arena/src/table.rs:333-380 | only allocations make patches, and only a flush forgets them |
| `PagedPrimary.Primary.Insert` | crates/pulsevm_arena/src/table.rs:209-223 | stores a row in its page and says whether the slot was free; live counts stay exact (the pages refine a partial map with a length bound) |
| `PagedPrimary.Primary.Take` | crates/pulsevm_arena/src/table.rs:232-244 | takes a row out and drops a page that becomes empty (the pages refine a partial map with a length bound) |
| `PagedPrimary.Primary.Push` | crates/pulsevm_arena/src/table.rs:225-230 | stores the row under the next id (the pages refine a partial map with a length bound) |
| `PagedPrimary.Primary.SetLen` | crates/pulsevm_arena/src/table.rs:166-187 | shrinks or grows the id range, keeps no row beyond it and no empty page (the pages refine a partial map with a length bound) |
| `PagedPrimary.Primary.Get` | crates/pulsevm_arena/src/table.rs:189-197 | finds exactly the stored row (the pages refine a partial map with a length bound) |
| `PagedPrimary.Primary.List` | crates/pulsevm_arena/src/table.rs:246-256 | lists the stored rows in id order, each once (the pages refine a partial map with a length bound) |
| `DirtyPages.DirtySet.Insert` | crates/pulsevm_arena/src/table.rs:99-111 | adds an id to the set the pages stand for and says whether it was new |
| `DirtyPages.DirtySet.Remove` | crates/pulsevm_arena/src/table.rs:113-124 | removes an id from the set and frees a page without bits |
| `KeyIndex.Index.TryInsert` | crates/pulsevm_arena/src/object.rs:189-197 | adds the key, or refuses exactly when it is there |
| `KeyIndex.Index.Replace` | crates/pulsevm_arena/src/object.rs:199-219 | moves the key, or refuses and changes nothing exactly when another row has the new key |
| `KeyIndex.Index.Erase` | crates/pulsevm_arena/src/object.rs:221-229 | removes the row's key and no other |
| `KeyIndex.Index.BulkBuild` | crates/pulsevm_arena/src/object.rs:231-245 | builds the key-to-id map of the listed rows; fails exactly when two of them share a key |
| `KeyIndex.ExactUnique` | crates/pulsevm_arena/src/object.rs:189-245 | two maps that are exact for the same rows are equal, so a bulk-built index is the incrementally built one |
| `FreeList.TopIsLatest` | crates/pulsevm_arena/src/table.rs:333-358 | the top of the stack kept for a length is the latest released span of that length |
| `FreeList.TiesPop` | crates/pulsevm_arena/src/table.rs:333-358 | popping that stack keeps the stacks equal to the release list |
| `Delta.DeltaReplays` | crates/pulsevm_arena/src/table.rs:872-975 | replaying a flush record on the last flushed state gives exactly the current next id, rows and arena, unless a dirty row takes a key a row later in the dirty list still holds, and exactly then it is refused |
| `Delta.StepTracks` | crates/pulsevm_arena/src/table.rs:402-407 | every operation keeps the dirty list and patch list covering all that differs from the last flush |
| `Delta.PatchesReplay` | crates/pulsevm_arena/src/table.rs:885-905 | the de-duplicated patches put back every flushed byte that changed |
| `DeltaRuns.RunTouches` | crates/pulsevm_arena/src/table.rs:402-407 | over every run between flushes the dirty list is what the run touched, in the order of first touch |
| `DeltaRuns.RunReplays` | crates/pulsevm_arena/src/table.rs:872-975 | the record of any run between two flushes taken with no session open replays to the state of the run, and is refused exactly when some row took a key that a row first touched after it held at the flush |
| `DeltaRuns.NothingLeftToFlush` | crates/pulsevm_arena/src/table.rs:977-984 | a record made right after a flush carries no row, no patch and no bytes |
| `DeltaRuns.TradedKeysAreRefused` | crates/pulsevm_arena/src/table.rs:922-943 | two rows that trade keys between flushes: every operation is accepted and the replay of the record is refused |
| `TablePersistence.PackDelta` | crates/pulsevm_arena/src/table.rs:872-905 | writes exactly the bytes of the record of changes since the last flush |
| `TablePersistence.ApplyDelta` | crates/pulsevm_arena/src/table.rs:908-975 | reads a record and replays it row by row: it succeeds exactly when the bytes parse and every entry applies, and then the table holds the replayed rows, arena and flushed length; it is sound exactly when every row is filed under the id it carries, which the record may break |
| `TablePersistence.PackInto` | crates/pulsevm_arena/src/table.rs:809-818 | writes exactly the bytes of the table's snapshot, rows in id order |
| `TablePersistence.LoadFrom` | crates/pulsevm_arena/src/table.rs:822-867 | loads a snapshot into an empty table: it succeeds exactly when the bytes parse to the end, ids are in range and not repeated and keys unique, and then the table is the snapshot; it is sound exactly when every row is filed under the id it carries, which the snapshot may break |
| `TablePersistence.ForeignRowLoads` | crates/pulsevm_arena/src/table.rs:822-867 | every row filed under an id it does not carry, alone in a snapshot, loads and leaves a table that is not sound |
| `TablePersistence.ForeignRowReplays` | crates/pulsevm_arena/src/table.rs:908-975 | so does every such row, alone in a record, replay |
| `TablePersistence.BuildIndices` | crates/pulsevm_arena/src/table.rs:850-854 | rebuilds every index; fails exactly when two rows share a key in one |
| `TablePersistence.LatestOf` | crates/pulsevm_arena/src/table.rs:885-894 | keeps the last patch of each flushed offset, latest first |
| `Wire.RecordRoundTrip` | crates/pulsevm_arena/src/table.rs:872-975 | a record reads back from its bytes as itself |
| `Wire.SnapshotRoundTrip` | crates/pulsevm_arena/src/table.rs:809-867 | a snapshot reads back from its bytes as itself |
| `Wire.SectionsRoundTrip` | crates/pulsevm_arena/src/db.rs:394-454 | a checkpoint's or frame's sections read back as themselves |
| `Wire.TornLog` | crates/pulsevm_arena/src/db.rs:483-513 | any byte prefix of a log shows exactly the frames that are complete in it |
| `FileRules.SnapshotAccepted` | crates/pulsevm_arena/src/table.rs:822-867 | for any snapshot: it loads exactly when its rows are filed under different ids below its next id and no two share a key, and then the table holds exactly the listed rows |
| `FileRules.RecordAccepted` | crates/pulsevm_arena/src/table.rs:908-975 | for any record on any state: it applies exactly when every row it brings has an id in range and shares no key with another row as the entries before it leave them, and every patch lies in the arena; then the last entry on an id decides its row and the last patch on a byte decides the byte |
| `FileRules.SnapshotParsesExactly` | crates/pulsevm_arena/src/table.rs:822-867 | bytes read as a snapshot exactly when they are its bytes, with nothing after them |
| `FileRules.RecordParsesWhole` | crates/pulsevm_arena/src/table.rs:908-975 | bytes read as a record leave nothing over |
| `FileRules.CheckpointAccepted` | crates/pulsevm_arena/src/db.rs:429-454 | for any bytes: a checkpoint is accepted exactly when its sections parse, each has a registered table and loads into it, and the revision is not negative |
| `FileRules.FrameNeedsTables` | crates/pulsevm_arena/src/db.rs:515-538 | a frame is refused if any section has no registered table or is no record |
| `FileRules.LastRevision` | crates/pulsevm_arena/src/db.rs:483-513 | after a replay the last frame's revision stands |
| `FileRules.FramesExactly` | crates/pulsevm_arena/src/db.rs:483-513 | for any bytes: the frames replayed are what the log starts with, and what follows them is torn |
| `FileRules.LatestFirst` | crates/pulsevm_arena/src/table.rs:885-894 | a record carries the last patch at each flushed offset and no other, the later made standing earlier |
| `Layouts.SnapshotHeader` | crates/pulsevm_arena/src/table.rs:809-818 | next id, row count, rows and arena stand at their offsets, low byte first |
| `Layouts.ItemAt` | crates/pulsevm_arena/src/table.rs:809-818 | row i of a snapshot stands i row widths into them: the id it is filed under, the id it carries, its bytes |
| `Layouts.RecordHeader` | crates/pulsevm_arena/src/table.rs:872-905 | next id, entry count, entries, patch count, patches, tail length and tail stand at their offsets |
| `Layouts.EntryLayout` | crates/pulsevm_arena/src/table.rs:875-884 | an entry is its id, then 1 and the row or 0 |
| `Layouts.PatchLayout` | crates/pulsevm_arena/src/table.rs:895-902 | a patch is its offset, its length and its bytes |
| `Layouts.SectionsHeader` | crates/pulsevm_arena/src/db.rs:394-416 | a checkpoint or frame is the revision in two's complement, the number of sections, the sections |
| `Layouts.SectionLayout` | crates/pulsevm_arena/src/db.rs:394-416 | a section is a type id of two bytes, a length of eight, the bytes |
| `Layouts.FrameLayout` | crates/pulsevm_arena/src/db.rs:460-478 | a log is each frame after its length of eight bytes |
| `Recovery.SnapshotLoads` | crates/pulsevm_arena/src/table.rs:809-867 | a table's snapshot loads back as the table |
| `Recovery.CheckpointLoads` | crates/pulsevm_arena/src/db.rs:394-454 | a checkpoint loads back as the database it was taken of, in whatever order its sections stand |
| `CrashRecovery.TableStretch` | crates/pulsevm_arena/src/db.rs:460-478 | a database run between two flushes gives each table a record that takes its last flushed state to its current one, or is refused exactly when the run gave a row a key that a row it first touched later held before, and its revision does not drop |
| `CrashRecovery.FrameApplies` | crates/pulsevm_arena/src/db.rs:460-538 | the frame a flush writes after any run takes the last flushed contents of all tables to the current ones, or is refused exactly when some table's record is |
| `CrashRecovery.RecoversPrefix` | crates/pulsevm_arena/src/db.rs:394-513 | a checkpointed database runs and flushes any number of times; from the checkpoint and any byte prefix of the log, load and replay give the contents and revision after exactly the flushes whose frames are complete in the prefix, if and only if none of those runs gave a row a key that a row it first touched later held before, and otherwise refuse the log |
| `CrashRecovery.RestartsTable` | crates/pulsevm_arena/src/table.rs:822-975 | what loading and replaying give of a sound table without sessions is sound, spans included, with no sessions, free spans or unflushed changes, and shows the same rows, blob bytes and revision |
| `CrashRecovery.RestartsSound` | crates/pulsevm_arena/src/db.rs:429-513 | a recovered database is sound, spans of every table included, and at rest, so every run theorem, the span theorems and recovery itself carry over a restart |
| `CrashRecovery.DbSpansSafe` | crates/pulsevm_arena/src/db.rs:189-384 | over every run of the database, after a restart or not, the spans of every table are as `SpanHistory.ReachableSpans` says |
| `CrashRecovery.JoinsCoherent` | crates/pulsevm_arena/src/db.rs:205-233 | a table that joins later starts with sound spans |
| `DbLifecycle.DbRunKeeps` | crates/pulsevm_arena/src/db.rs:343-384 | over every run of row operations on any tables and session operations on all of them, every table stays sound and all are at one revision and undo depth |
| `DbLifecycle.PartRuns` | crates/pulsevm_arena/src/db.rs:189-384 | each table does what its own part of the run does to it alone |
| `DbLifecycle.OpenEverywhere` | crates/pulsevm_arena/src/db.rs:355-384 | a session open in the database is open in every table, innermost in all of them at once |
| `DbLifecycle.DbUndoRestores` | crates/pulsevm_arena/src/db.rs:355-366 | undoing a database session puts every table back to the next id, rows, blob bytes and revision it had when the session opened |
| `DbLifecycle.LockedTogether` | crates/pulsevm_arena/src/db.rs:343-378 | session operations keep equal revisions and depths equal |
| `DbRefinement.DbStepRefines` | crates/pulsevm_arena/src/db.rs:189-384 | one operation of the database does what a stack of copies of all its tables' visible states does |
| `DbRefinement.DbRunRefines` | crates/pulsevm_arena/src/db.rs:189-384 | the same over every run: one current state of all tables and one copy of all of it for each open session |
| `DbLifecycle.TableJoins` | crates/pulsevm_arena/src/db.rs:205-233 | a table brought up to the others is sound, empty, and at their revision and depth |
| `DbClass.Db.AddTable` | crates/pulsevm_arena/src/db.rs:205-233 | registers a table at the shared revision and depth; refused exactly when the type id is in use |
| `DbClass.Db.Position` | crates/pulsevm_arena/src/db.rs:235-244 | finds the table of a type id exactly when it is registered |
| `DbClass.Db.Create` | crates/pulsevm_arena/src/db.rs:266-268 | creates a row in the table of a type and in no other, keeping the lockstep |
| `DbClass.Db.Modify` | crates/pulsevm_arena/src/db.rs:270-276 | modifies a row in the table of a type and in no other, keeping the lockstep |
| `DbClass.Db.Remove` | crates/pulsevm_arena/src/db.rs:278-280 | removes a row from the table of a type and from no other, keeping the lockstep |
| `DbClass.Db.SetRevision` | crates/pulsevm_arena/src/db.rs:347-352 | every table takes the revision or none does |
| `DbClass.Db.StartUndoSession` | crates/pulsevm_arena/src/db.rs:355-360 | opens a session on every table, keeping the lockstep |
| `DbClass.Db.Undo` | crates/pulsevm_arena/src/db.rs:362-366 | undoes the innermost session of every table, keeping the lockstep |
| `DbClass.Db.Squash` | crates/pulsevm_arena/src/db.rs:368-372 | squashes the innermost session of every table, keeping the lockstep |
| `DbClass.Db.Commit` | crates/pulsevm_arena/src/db.rs:374-378 | in every table the session that led to a revision stays open exactly when that revision is above the committed one, keeping the lockstep |
| `DbPersistence.Checkpoint` | crates/pulsevm_arena/src/db.rs:394-416 | writes the revision and every table's snapshot, sections sorted by type id, and marks all tables flushed |
| `DbPersistence.SortedByTypeId` | crates/pulsevm_arena/src/db.rs:394-397 | lists every table position once, in type-id order |
| `DbPersistence.FlushDelta` | crates/pulsevm_arena/src/db.rs:460-478 | writes one frame with the revision and every table's record, and marks all tables flushed |
| `DbPersistence.LoadCheckpoint` | crates/pulsevm_arena/src/db.rs:429-454 | succeeds exactly when the file parses, every section has a registered table and loads, and the revision is allowed; then the database is the checkpoint's, and valid exactly when every row is filed under its own id |
| `DbPersistence.ApplyOneFrame` | crates/pulsevm_arena/src/db.rs:515-538 | applies every section of a frame to its table, exactly when all parse and apply |
| `DbPersistence.ReplayLog` | crates/pulsevm_arena/src/db.rs:483-513 | replays every complete frame and stops cleanly at a torn one; succeeds exactly when the frames apply and, if there is one, no session is open and the revision does not drop; then the database is valid exactly when every row is filed under its own id |
| `ResourceUsage.Accumulator.Add` | crates/pulsevm_chaindb/src/lib.rs:134-163 | the accumulator after a charge: reset on a step back, decay by the ordinals passed, then the rounded-up contribution, in 64 bits |
| `ResourceUsage.AddExact` | crates/pulsevm_chaindb/src/lib.rs:134-163 | by arithmetic alone: what is left of the average after the ordinals passed, rounded down, plus the charge over the window, rounded up; the consumed counter after a step back, at the same ordinal and at a later one |
| `ResourceUsage.UsedExact` | crates/pulsevm_chaindb/src/lib.rs:360-363 | the reported use is the average over the window, rounded up to whole units by less than one |
| `ResourceUsage.ChargeKeeps` | crates/pulsevm_chaindb/src/lib.rs:134-163 | one charge within what is available keeps the reported use within the slack of the limit and inside 64 bits |
| `ResourceUsage.UseStaysWithinLimit` | crates/pulsevm_chaindb/src/lib.rs:316-390 | over any run of charges at any ordinals, each within what was available just before it, the reported use never exceeds the limit by more than the slack: the most that rounding one charge can add, in whole units |
| `ResourceUsage.ReportedUseStaysWithinLimit` | crates/pulsevm_chaindb/src/lib.rs:316-390 | so it is for charges within what is reported available as a signed 64-bit number |
| `ResourceUsage.SlackIsReached` | crates/pulsevm_chaindb/src/lib.rs:316-390 | for every window the slack is reached: some limit, used up by one charge from nothing, reports all of it in excess |
| `ResourceUsage.SlackBound` | crates/pulsevm_chaindb/src/lib.rs:134-163 | the slack is at most the window's length less one in millionths, rounded up: one unit for windows up to a million |
| `ResourceUsage.TracksExactAverage` | crates/pulsevm_chaindb/src/lib.rs:117-163 | after any run the stored average is within one millionth a charge of the exact decaying sum |
| `ResourceUsage.ConsumedAddsUp` | crates/pulsevm_chaindb/src/lib.rs:134-163 | charges at one ordinal add up in the consumed counter |
| `ResourceUsage.ConsumedByOrdinal` | crates/pulsevm_chaindb/src/lib.rs:134-163 | after any run the consumed counter is the charges of the last ordinal added up, on top of what is left by then of the average before it |
| `ElasticLimits.LimitInfo` | crates/pulsevm_chaindb/src/lib.rs:316-390 | the reported limit, use, rest and projected use, with the greylist cap and the unlimited case, in the widths of the source |
| `ElasticLimits.ShareIsExact` | crates/pulsevm_chaindb/src/lib.rs:359-359 | a share is the weight's part of the capacity, rounded down by less than one unit |
| `ElasticLimits.GreylistCaps` | crates/pulsevm_chaindb/src/lib.rs:344-357 | a greylisted account's capacity is the window at the greylist's multiple of the base limit when that is less, and the elastic limit's otherwise |
| `ElasticLimits.ProjectionShrinks` | crates/pulsevm_chaindb/src/lib.rs:369-379 | projecting use to a later slot never raises it |
| `ElasticLimits.SharesFitCapacity` | crates/pulsevm_chaindb/src/lib.rs:359-359 | shares of accounts whose weights fit the total never add up to more than the capacity |
| `ElasticLimits.ResourceState.ProcessBlockUsage` | crates/pulsevm_chaindb/src/lib.rs:3488-3522 | folds the block's use into both averages, moves both limits, clears the pending use |
| `ElasticLimits.ElasticExact` | crates/pulsevm_chaindb/src/lib.rs:287-295 | by arithmetic alone: with use above target the contract ratio of the old limit and otherwise the expand ratio, rounded down, then no less than the floor and no more than the cap |
| `ElasticLimits.QuietNeverFalls` | crates/pulsevm_chaindb/src/lib.rs:287-295 | with use at or below target and an expand ratio of at least 1 a limit in range does not fall |
| `ElasticLimits.QuietRises` | crates/pulsevm_chaindb/src/lib.rs:287-295 | and with a ratio that moves every limit it rises until the cap |
| `ElasticLimits.AverageTracksUse` | crates/pulsevm_chaindb/src/lib.rs:3488-3522 | over every run of blocks the average the limit follows is within a millionth a block of the exact decaying sum of what the blocks used |
| `ElasticLimits.ElasticInRange` | crates/pulsevm_chaindb/src/lib.rs:287-295 | whatever the average and the old limit, the new limit is between max and max times the multiplier |
| `ElasticLimits.BusyNeverRises` | crates/pulsevm_chaindb/src/lib.rs:287-295 | with use above target and a contract ratio of at most 1 a limit in range does not rise |
| `ElasticLimits.GreylistNeverRaises` | crates/pulsevm_chaindb/src/lib.rs:344-357 | a greylist never leaves an account more capacity than the elastic limit gives it |
| `ElasticLimits.LimitStaysInRange` | crates/pulsevm_chaindb/src/lib.rs:3488-3522 | so it is after every block of every run |
| `ElasticLimits.EmptyBlocksReachCap` | crates/pulsevm_chaindb/src/lib.rs:3488-3522 | a long enough run of consecutive empty blocks, from any state, drives the average to zero and the limit to its cap, where they stay |
| `AccountLimits.LimitTables.InitializeAccount` | crates/pulsevm_chaindb/src/lib.rs:3134-3148 | adds a usage row and an unlimited committed row; refused with nothing changed when there is a usage row, and with the usage row left behind when there are limits; totals agree afterwards exactly if they did before |
| `AccountLimits.LimitTables.InitializeState` | crates/pulsevm_chaindb/src/lib.rs:3405-3415 | creates the state row if there is none; its totals then agree exactly when what is committed adds up to nothing |
| `AccountLimits.LimitTables.SetAccountLimits` | crates/pulsevm_chaindb/src/lib.rs:3154-3190 | changes what the account's limits read as, if it has any, and no other reading |
| `AccountLimits.LimitTables.ProcessUpdates` | crates/pulsevm_chaindb/src/lib.rs:3195-3242 | commits every staged row; no account's limits read differently; the totals, if there is a state row, stay exactly as far from the sums as they were, and no step of the run leaves 64 bits if they agree and the larger of committed and staged limits add up to something that fits |
| `AccountLimits.TotalsFollow` | crates/pulsevm_chaindb/src/lib.rs:3213-3220 | the total update keeps the distance between totals and sums, modulo 64 bits |
| `AccountLimits.InsideNow` | crates/pulsevm_chaindb/src/lib.rs:3213-3220 | at any point of such a run, taking out and adding the next account's limits stays inside 64 bits |
| `AccountLimits.NetSharesFit` | crates/pulsevm_chaindb/src/lib.rs:3261-3320 | with totals that agree, net shares of any accounts taken with the stored total never add up to more than the capacity |
| `ContractTables.Store.Create` | crates/pulsevm_chaindb/src/lib.rs:4741-4761 | adds a row under its name and its table if need be; refused exactly when the name is taken, and then nothing changes |
| `ContractTables.Store.Update` | crates/pulsevm_chaindb/src/lib.rs:5901-5927 | changes the row if it is there and nothing else |
| `ContractTables.Store.Remove` | crates/pulsevm_chaindb/src/lib.rs:5853-5876 | removes the row if it is there and nothing else |
| `ContractTables.Store.FindOrCreate` | crates/pulsevm_chaindb/src/lib.rs:1566-1590 | finds the table by name or makes it without children |
| `ContractTables.RemoveCounted` | crates/pulsevm_chaindb/src/lib.rs:1600-1606 | dropping a child keeps every count equal to the children of its table and every child in a live table; the table goes with its last child |
| `ContractTables.AddCounted` | crates/pulsevm_chaindb/src/lib.rs:1594-1596 | adding a child keeps counts equal to children |
| `ContractTables.Store.TablesAreThoseInUse` | crates/pulsevm_chaindb/src/lib.rs:1566-1606 | a table row exists exactly while some row of any of the six kinds names it |
| `ContractTables.Store.CreateTable` | crates/pulsevm_chaindb/src/lib.rs:4717-4728 | makes the table row, without children, if there is none; every other table row stays, and no row is found differently |
| `ContractTables.Store.RemoveTable` | crates/pulsevm_chaindb/src/lib.rs:4730-4743 | removes the table row of that name and no other table row and no child; the store stays sound exactly when it had no children |
| `ContractTables.DroppedTableOrphans` | crates/pulsevm_chaindb/src/lib.rs:4730-4761 | any row stored in an empty store is orphaned when its table is removed |
| `RamInventory.DirectInventory` | crates/pulsevm_chaindb/src/lib.rs:1014-1055 | counts exactly the tables, rows and value bytes the account pays for, by kind; fails exactly when a counter does not fit |
| `RamInventory.RowsCounted` | crates/pulsevm_chaindb/src/lib.rs:1014-1055 | for each of the six kinds the inventory counts the live rows of that kind that are paid for, by one account or by anyone |
| `RamInventory.TablesCounted` | crates/pulsevm_chaindb/src/lib.rs:1014-1025 | and the live tables |
| `RamInventory.BytesCounted` | crates/pulsevm_chaindb/src/lib.rs:1014-1055 | and the value bytes of the key-value rows that are paid for |
| `RamInventory.GroupedInventory` | crates/pulsevm_chaindb/src/lib.rs:1078-1127 | for one payer or all: fails exactly when a row looked at has no table or a counter does not fit; otherwise each group is what its payer pays for in its table and the groups add up to the whole |
| `RamInventory.Inventories` | crates/pulsevm_chaindb/src/lib.rs:2002-2022 | in every sound store an account's two inventories agree whenever its whole inventory fits the counters |
| `Permissions.PermissionTable.Satisfies` | crates/pulsevm_chaindb/src/lib.rs:2534-2580 | terminates, and says yes exactly when the owners match and the first permission is the second or an ancestor of it over live rows; nothing when either is missing |
| `Permissions.PermissionTable.Create` | crates/pulsevm_chaindb/src/lib.rs:2338-2376 | files a permission under the next id, refused exactly when its name is taken; parents stay older than their children exactly when the given parent is none or was drawn before |
| `Permissions.PermissionTable.Remove` | crates/pulsevm_chaindb/src/lib.rs:2974-2985 | removes a permission; the order of parents and the name index are kept |
| `Permissions.OrderedWalkEnds` | crates/pulsevm_chaindb/src/lib.rs:2560-2577 | while parents are older than their children the walk up from a permission ends within as many steps as its id, and says whether the other one is an ancestor |
| `Permissions.MadeItsOwnParent` | crates/pulsevm_chaindb/src/lib.rs:2338-2361 | in every sound table that drew an id, under every free name, a permission can be created that is its own parent; then no number of steps ends the walk from it to any other id |
| `Permissions.AboveIs` | crates/pulsevm_chaindb/src/lib.rs:2534-2580 | following parents finds exactly the ancestors some chain of live links leads to |
| `IteratorHandles.IteratorCache.CacheTable` | crates/pulsevm_contractdb/src/lib.rs:586-594 | gives tables the end handles -2, -3 and on as they are first named, and keeps all handles given out |
| `IteratorHandles.IteratorCache.Add` | crates/pulsevm_contractdb/src/lib.rs:604-612 | gives rows the handles 0, 1 and on as they are first named, and keeps all handles given out |
| `IteratorHandles.IteratorCache.HandlesDiffer` | crates/pulsevm_contractdb/src/lib.rs:576-617 | no two rows and no two tables share a handle, and no row handle is an end |
| `ContractRam.StoredKeeps` | crates/pulsevm_contractdb/src/lib.rs:838-866 | storing a row keeps every account's bill equal to the cost of its live rows and tables, and table counts equal to rows |
| `ContractRam.UpdatedKeeps` | crates/pulsevm_contractdb/src/lib.rs:868-887 | so does an update, whoever pays before and after |
| `ContractRam.RemovedKeeps` | crates/pulsevm_contractdb/src/lib.rs:889-899 | so does a removal, and the row count of the table never underflows |
| `ContractRam.WithTableKeeps` | crates/pulsevm_contractdb/src/lib.rs:762-780 | so does making a table |
| `ContractRam.IdxStoredKeeps` | crates/pulsevm_contractdb/src/lib.rs:1053-1077 | so does storing an index entry, one for a row of a table |
| `ContractRam.IdxRemovedKeeps` | crates/pulsevm_contractdb/src/lib.rs:1086-1091 | so does removing an index entry |
| `ContractDatabase.ContractDb.StoreI64` | crates/pulsevm_contractdb/src/lib.rs:838-866 | stores the row, bills row and, if new, table to the payer, keeps every bill equal to cost |
| `ContractDatabase.ContractDb.UpdateI64` | crates/pulsevm_contractdb/src/lib.rs:868-887 | replaces value and payer, moves the bytes between payers, keeps every bill equal to cost |
| `ContractDatabase.ContractDb.RemoveI64` | crates/pulsevm_contractdb/src/lib.rs:889-899 | removes the row and refunds it; the table and its bill stay |
| `ContractDatabase.ContractDb.GetI64` | crates/pulsevm_contractdb/src/lib.rs:901-904 | the value of the row a handle names |
| `ContractDatabase.ContractDb.Idx64Store` | crates/pulsevm_contractdb/src/lib.rs:1053-1077 | stores an index entry and bills it, keeping every bill equal to cost |
| `ContractDatabase.ContractDb.Idx64Update` | crates/pulsevm_contractdb/src/lib.rs:1079-1084 | changes the secondary key and nothing else |
| `ContractDatabase.ContractDb.Idx64Remove` | crates/pulsevm_contractdb/src/lib.rs:1086-1091 | removes an index entry and refunds it |
| `ContractDatabase.ContractDb.StartUndoSession` | crates/pulsevm_contractdb/src/lib.rs:675-677 | keeps a copy of rows and bills |
| `ContractDatabase.ContractDb.Undo` | crates/pulsevm_contractdb/src/lib.rs:680-683 | puts back rows and bills together, so every bill equals cost again; handles start over |
| `ContractDatabase.ContractDb.Squash` | crates/pulsevm_contractdb/src/lib.rs:685-687 | keeps rows and bills and every copy an open session holds |
| `ContractDatabase.ContractDb.Commit` | crates/pulsevm_contractdb/src/lib.rs:688-690 | the copy kept at a revision stays exactly when that revision is above the committed one; contents and revision stay |
| `ContractSessions.DbStepFollows` | crates/pulsevm_contractdb/src/lib.rs:675-690 | with rows and bills read off the arena tables, value bytes included, the arena's session operations do to them what the four methods above do, and row operations touch no kept copy |
| `ContractWrites.PerformReads` | crates/pulsevm_contractdb/src/lib.rs:733-899 | the arena row operations of one write, a value's allocation included, change the contents read off the tables by exactly that write and nothing else |
| `ContractRuns.WritesDo` | crates/pulsevm_contractdb/src/lib.rs:762-1091 | the writes of making a table, of a store, update and removal and of their index forms, in the source's order, are each accepted and add up to that operation on contents |
| `ContractRuns.MakesAfter` | crates/pulsevm_contractdb/src/lib.rs:675-1091 | what the arena does for one operation, of rows, entries or sessions, takes contents and every kept copy where that operation takes them |
| `ContractRuns.RunConserves` | crates/pulsevm_contractdb/src/lib.rs:675-1091 | over every run of these operations and session starts, undos, squashes and commits, the arena tables hold what the operations make of the contents, every bill equals cost, and so it is in every copy that an undo at any depth brings back |
| `ContractRuns.EmptyGood` | crates/pulsevm_contractdb/src/lib.rs:638-658 | tables without rows are a start for such a run: every bill equals cost |
| `ContractRuns.StartsInAgreement` | crates/pulsevm_contractdb/src/lib.rs:675-1091 | in every such run each session starts with every bill equal to cost |
| `ContractSessions.RollbackConserves` | crates/pulsevm_contractdb/src/lib.rs:675-690 | over every run of the arena database, whatever its row operations, that opens sessions only when every bill equals cost (as `ContractRuns.StartsInAgreement` derives), every state that any open session brings back has every bill equal to cost |
| `ContractDatabase.ContractDb.FindI64` | crates/pulsevm_contractdb/src/lib.rs:906-920 | the row under a key, the table's end without one, -1 without a table |
| `ContractDatabase.ContractDb.LowerboundI64` | crates/pulsevm_contractdb/src/lib.rs:922-931 | the row with the least key from the given one on, or the table's end, or -1 |
| `ContractDatabase.ContractDb.UpperboundI64` | crates/pulsevm_contractdb/src/lib.rs:933-942 | the row with the least key above the given one, or the table's end, or -1 |
| `ContractDatabase.ContractDb.EndI64` | crates/pulsevm_contractdb/src/lib.rs:944-949 | the table's end, or -1 |
| `ContractDatabase.ContractDb.NextI64` | crates/pulsevm_contractdb/src/lib.rs:951-963 | the next row of the table or its end; an end stays |
| `ContractDatabase.ContractDb.PreviousI64` | crates/pulsevm_contractdb/src/lib.rs:965-985 | the previous row, or the last row from an end; -1 when there is none |
| `ContractDatabase.ContractDb.Idx64Lowerbound` | crates/pulsevm_contractdb/src/lib.rs:1142-1162 | the entry least by secondary and then primary key among those with the secondary key or a greater one, with its keys, or the table's end, or -1 |
| `ContractDatabase.ContractDb.Idx64Upperbound` | crates/pulsevm_contractdb/src/lib.rs:1164-1184 | the same among those with a greater secondary key |
| `ContractDatabase.ContractDb.Idx64FindSecondary` | crates/pulsevm_contractdb/src/lib.rs:1094-1113 | the entry of the secondary key with the least primary key; the table's end exactly when there is none, -1 without a table |
| `ContractDatabase.ContractDb.Idx64FindPrimary` | crates/pulsevm_contractdb/src/lib.rs:1116-1140 | the entry of the primary key and its secondary key; the table's end exactly when there is none, -1 without a table |
| `ContractDatabase.ContractDb.Idx64End` | crates/pulsevm_contractdb/src/lib.rs:1186-1191 | the table's end, or -1 |
| `ContractDatabase.ContractDb.Idx64Next` | crates/pulsevm_contractdb/src/lib.rs:1193-1205 | the next entry by secondary and then primary key, or the table's end; an end stays |
| `ContractDatabase.ContractDb.Idx64Previous` | crates/pulsevm_contractdb/src/lib.rs:1207-1226 | the previous entry, or the last one from an end; -1 when there is none |
| `ContractTraversal.Scan` | crates/pulsevm_contractdb/src/lib.rs:922-963 | lower bound and next visit exactly the rows from the key on, ascending, each once, and stop at the table's own end handle; handles given out are kept |
| `ContractTraversal.ScanBack` | crates/pulsevm_contractdb/src/lib.rs:965-985 | previous from the end visits exactly the table's rows, descending, each once, and stops with -1; handles given out are kept |
| `TableOrder.BackRetraces` | crates/pulsevm_contractdb/src/lib.rs:922-985 | going back retraces going forward row by row |
| `ContractTraversal.ThereAndBack` | crates/pulsevm_contractdb/src/lib.rs:922-985 | the way back begins with the handles of the way there, in reverse |
| `ContractTraversal.ScanIdx64` | crates/pulsevm_contractdb/src/lib.rs:1142-1205 | lower bound and next on the 64-bit index visit exactly the entries from the secondary key on, ascending by secondary and then primary key, each once, and stop at the table's own end handle; handles given out are kept |
| `ContractTraversal.ScanIdx64Back` | crates/pulsevm_contractdb/src/lib.rs:1207-1226 | previous from the end visits exactly the table's entries, descending, each once, and stops with -1 |
| `ContractTraversal.Idx64ThereAndBack` | crates/pulsevm_contractdb/src/lib.rs:1142-1226 | the way back begins with the handles of the way there, in reverse |
| `HistoryDelta.CollectDelta` | crates/pulsevm_chaindb/src/history.rs:643-692 | emits each row at most once: modified rows that pass the rule, the one first touched last standing first; removed rows, likewise; then new rows by id; exactly those, each with the bytes of its blobs; applied to the view from before the session it gives the view now exactly when every row it says nothing of serializes as before |
| `HistoryOrder.BlockInOrder` | crates/pulsevm_chaindb/src/history.rs:643-692 | over every block, by what the block did: the order of the emitted rows is that of their first modification or removal in the block, latest first, and exactly the rows it changed are emitted, a removed one as it was when removed |
| `HistoryDelta.CollectSnapshot` | crates/pulsevm_chaindb/src/history.rs:643-660 | emits every live row in id order with the bytes of its blobs, which builds the whole view from nothing |
| `HistoryDelta.DeltaTurnsOldIntoNew` | crates/pulsevm_chaindb/src/history.rs:643-692 | for every table state with a session open and every serializer of a row and its blobs, the delta takes the view at the session's start to the current one exactly when every row it says nothing of serializes as before |
| `HistoryDelta.BlockDelta` | crates/pulsevm_chaindb/src/history.rs:643-692 | the same over every run of a block, from what was visible before it to what is visible after it |
| `HistoryDelta.BlockKeepsBytes` | crates/pulsevm_chaindb/src/history.rs:15-16 | when a block ends the arena still holds the blob bytes of every row there was before it, and undo still leads to those rows |
| `HistoryDelta.HeldBytes` | crates/pulsevm_chaindb/src/history.rs:15-16 | until its session ends the arena holds the blob bytes of every row there was when it started, even of a removed one |
| `HistoryDelta.RemovedAsAtStart` | crates/pulsevm_chaindb/src/history.rs:676-678 | the removal of a row not modified before carries the row as it was serialized when the session started, blobs included |
| `Layouts.TableLayout` | crates/pulsevm_chaindb/src/history.rs:198-204 | a contract table's numbers stand in the order code, scope, table, payer |
| `Layouts.LimitsLayout` | crates/pulsevm_chaindb/src/history.rs:419-425 | a limits row's numbers stand in the order owner, net, cpu, ram |
| `Layouts.StateLayout` | crates/pulsevm_chaindb/src/history.rs:435-444 | the resource state's numbers stand in order: net average, cpu average, net, cpu and ram totals, net and cpu limits |
| `Layouts.ConfigLayout` | crates/pulsevm_chaindb/src/history.rs:452-472 | the resource configuration's numbers stand in order, cpu before net |
| `Layouts.MetaLayout` | crates/pulsevm_chaindb/src/history.rs:175-187 | account metadata's fields stand in order, machine and hash only with code |
| `Layouts.CodeLayout` | crates/pulsevm_chaindb/src/history.rs:189-196 | a code row is its machine, its hash, and its code after its length |
| `Layouts.UvarMeans` | crates/pulsevm_chaindb/src/history.rs:105-117 | a variable-length number is its groups of seven bits, least first, all but the last marked |
| `HistoryRules.TableExact` | crates/pulsevm_chaindb/src/history.rs:537-541 | a contract table row serializes the same exactly when the rule drops the change and its name is unchanged |
| `HistoryRules.LimitsExact` | crates/pulsevm_chaindb/src/history.rs:592-596 | a limits row serializes the same exactly when the rule drops the change and its owner is unchanged |
| `HistoryRules.StateExact` | crates/pulsevm_chaindb/src/history.rs:602-612 | the resource state serializes the same exactly when the rule drops the change |
| `HistoryRules.ConfigExact` | crates/pulsevm_chaindb/src/history.rs:613-637 | the resource configuration serializes the same exactly when the rule drops the change |
| `HistoryRules.MetaExact` | crates/pulsevm_chaindb/src/history.rs:521-530 | account metadata serializes the same exactly when the rule drops the change, or when only the machine numbers of an account without code changed |
| `HistoryRules.CodeRowExact` | crates/pulsevm_chaindb/src/history.rs:189-197 | a code row serializes the same exactly when its machine, its hash and its code bytes are the same |
| `HistoryRules.IdleVmIsEmitted` | crates/pulsevm_chaindb/src/history.rs:521-530 | any change of only the machine numbers of an account without code is emitted although the serialized row is the same |
| `HistoryTables.EveryChangeArrives` | crates/pulsevm_chaindb/src/history.rs:516-520 | tables that emit every modification: the delta is always right, blobs included |
| `HistoryTables.TablesArrive` | crates/pulsevm_chaindb/src/history.rs:537-541 | contract tables: right exactly when no table keeps its payer and changes its name |
| `HistoryTables.LimitsArrive` | crates/pulsevm_chaindb/src/history.rs:592-596 | account limits: right exactly when no row keeps its limits and changes its owner |
| `HistoryTables.StateArrives` | crates/pulsevm_chaindb/src/history.rs:602-612 | the resource state: always right, though pending use is not compared |
| `HistoryTables.ConfigArrives` | crates/pulsevm_chaindb/src/history.rs:613-637 | the resource configuration: always right |
| `HistoryTables.MetaArrives` | crates/pulsevm_chaindb/src/history.rs:521-530 | account metadata: always right, though sequence numbers are not compared |
| `HistoryTables.CodeArrives` | crates/pulsevm_chaindb/src/history.rs:531-536 | code, of which no modification is emitted: right exactly when every changed row keeps its machine, hash and code bytes, as a change of its reference count does |
| `HistoryTables.CodeBlock` | crates/pulsevm_chaindb/src/history.rs:531-536 | over every block: right exactly when every code row there before and after has the same machine, hash and code bytes |
| `HistoryTables.ReplacedCodeIsMissed` | crates/pulsevm_chaindb/src/lib.rs:3843-3862 | a code row stored before a block and given other code in it: the block's delta leaves the consumer with the old code |
| `HistoryTables.NamesKept` | crates/pulsevm_chaindb/src/history.rs:471-484 | live tables and those the session removed still give every table there was its name exactly when none changed it |
| `HistoryTables.NamedArrive` | crates/pulsevm_chaindb/src/history.rs:208-245 | contract rows and index rows, serialized with their table's name and their value: right if and only if the table of every row the block left alone, live or removed, is resolved to the name it had before the block (or to none both times), where the bytes tell names apart |
| `HistoryTables.NamedStayRight` | crates/pulsevm_chaindb/src/history.rs:208-245 | in particular whenever every such row's table was there before the block and no table changes its name, whichever rows and tables the block removed |
| `HistoryTables.PermissionsArrive` | crates/pulsevm_chaindb/src/history.rs:395-409 | permissions, serialized with their authority and their parent's name found by the parent's key: right if and only if the parent of every permission the block left alone, live or removed, has the name it had, where keys are unique in the session and the bytes tell names apart |
| `HistoryTables.RemovedWithName` | crates/pulsevm_chaindb/src/history.rs:208-228 | the removal of such a row, not modified first and of a table that was there before, carries it as it was serialized before the block, with value and table name, though both may be gone, when no table changes its name |
| `CivilDates.DayRoundTrip` | crates/pulsevm_abi/src/lib.rs:570-581 | every day number converts to a valid date and back to itself |
| `CivilDates.DateRoundTrip` | crates/pulsevm_chain_types/src/genesis.rs:276-283 | every valid proleptic Gregorian date converts to a day number and back to itself |
| `CivilDates.FollowsCalendar` | crates/pulsevm_abi/src/lib.rs:570-581 | day 0 is 1970-01-01 and each day number is the calendar's next day after the one before |

## Left out

- File creation, synchronisation and renaming; checkpoints and logs are byte sequences here.
- The state root: a hash that also covers arena bytes no row names.
- Locks, run-time type checks, row layouts and the derive macro; keys are sequences of integers and rows are an id and bytes.
- The order in which hashed maps are walked during undo: it is a parameter, and the results hold for every order.
- 64-bit masks of the dirty pages: a word is the set of its bit positions, so shifting and masking are not modelled.
- The hashed variant of the secondary index, which differs only in the map it uses.
- Repeated undo of all sessions and the blob calls of the database, which only forward.
- DbPersistence.LoadCheckpoint: a file with two sections for one table is excluded, as the source's debug assertion does. The state after a refusal is not described.
- DbPersistence.ReplayLog: the state after a refusal is not described; a frame length near 2^64, where the end of the frame overflows, is read as a torn frame.
- TablePersistence.ApplyDelta: the table after a refused record is not described, the source leaves it half applied.
- TablePersistence.LoadFrom: the table after a refused snapshot is not described.
- Memory limits: row counts, handles and table counts are unbounded where the source has 32 or 64 bits.
- ContractDatabase.ContractDb.StoreI64: values of 4 GiB and more are not told apart from their stored length, which the source cuts to 32 bits.
- The index families of 128 and 256 bits and floating point: the same shape as the 64-bit index.
- AccountLimits.LimitTables.ProcessUpdates: totals wrap at 64 bits, as in a build without overflow checks; `inside` tells when none does.
- ElasticLimits.LimitInfo: a product of capacity and weight beyond 128 bits wraps.
- RamInventory.GroupedInventory: the kinds of its errors are not told apart, and the final sorting of the groups is left out.
- Bulk loaders and repair entry points, which can install states outside these invariants.
- HistoryDelta.CollectDelta: the framing of the emitted rows is not modelled. Names of other rows come in through the two serializers of a rule; `HistoryTables.TableRules` and `HistoryTables.KeyedRules` build them.
- HistoryDelta.RemovedAsAtStart: a row that was modified and then removed in one session is emitted as it was last, not as it was at the start.
- ContractRuns.RunConserves: operations the source panics on, which end the process, end the run.
- ContractDatabase.ContractDb.Idx64Store: a second entry for a row of a table, on which the source panics, is excluded; so is a second row under a key in StoreI64.
- Transactions, blocks, networking, the virtual machine and rendering of values as text.
