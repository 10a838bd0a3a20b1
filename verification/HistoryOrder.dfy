/**
  The order of a block's delta, by what the block did: the later a row was first
  modified or removed in the block, the earlier it is emitted among its like.
 */
module HistoryOrder {
  import opened ArenaTypes
  import opened TableSpec
  import opened RowHistory
  import opened BlobSafety
  import opened TableOps
  import opened Refinement
  import opened Runs
  import opened TouchOrder
  import opened SessionLogs
  import opened HistoryDelta

  /** The sessions' logs after a run. */
  ghost function RunLogs(sc: Schema, c: Config, logs: Stack<Log>, ops: seq<Op>): Stack<Log>
    requires Inv(sc, c) && Legal(sc, c, ops)
    decreases |ops|
  {
    if ops == [] then logs
    else
      StepRefines(sc, c, ops[0]);
      RunLogs(sc, Step(sc, c, ops[0]), LogsAfter(sc, c.t, logs, ops[0]), ops[1..])
  }

  /** Over every run each open session keeps what its log says, in the log's order. */
  lemma {:induction false} RunRecords(sc: Schema, c: Config, logs: Stack<Log>, ops: seq<Op>)
    requires Inv(sc, c) && Legal(sc, c, ops) && Recorded(c.t.undo, logs)
    ensures Recorded(Run(sc, c, ops).t.undo, RunLogs(sc, c, logs, ops))
    decreases |ops|
  {
    hide Inv, Recorded, LogsAfter, Enabled, TabStep, AbsOf, AbsStep;
    if ops != [] {
      StepRefines(sc, c, ops[0]);
      CanStepInside(sc, c, ops[0]);
      RowsFit(sc, c);
      StepRecords(sc, c.t, logs, ops[0]);
      RunRecords(sc, Step(sc, c, ops[0]), LogsAfter(sc, c.t, logs, ops[0]), ops[1..]);
    }
  }

  lemma RowsFit(sc: Schema, c: Config)
    requires Inv(sc, c)
    ensures RowInv(sc, c.t)
  {
  }

  /** What happened in a block, but for what was undone in it. */
  ghost function BlockLog(sc: Schema, c: Config, ops: seq<Op>): Log
    requires Inv(sc, c) && Block(sc, c, ops)
  {
    StepRefines(sc, c, StartOp);
    var logs := RunLogs(sc, Step(sc, c, StartOp), Push(NO_LOG, LogsOf(c.t.undo)), ops);
    if logs.Push? then logs.top else NO_LOG
  }

  lemma BlockRecords(sc: Schema, c: Config, ops: seq<Op>)
    requires Inv(sc, c) && Block(sc, c, ops)
    ensures var after := AfterBlock(sc, c, ops).t;
            after.undo.Push? && after.undo.top.oldNextId == c.t.nextId && Records(after.undo.top, BlockLog(sc, c, ops))
  {
    hide Inv, Records, RunLogs, Run, Legal, StaysOpen, AbsOf, AbsStep;
    StepRefines(sc, c, StartOp);
    var c1 := Step(sc, c, StartOp);
    RowsFit(sc, c);
    OwnLogs(sc, c.t.nextId, c.t.rows, c.t.undo);
    FreshRecords(c.t);
    RunRecords(sc, c1, Push(NO_LOG, LogsOf(c.t.undo)), ops);
    BlockStart(sc, c, ops);
  }

  lemma BlockStart(sc: Schema, c: Config, ops: seq<Op>)
    requires Inv(sc, c) && Block(sc, c, ops)
    ensures var after := AfterBlock(sc, c, ops).t; after.undo.Push? && after.undo.top.oldNextId == c.t.nextId
  {
    hide Inv, Saved, Observe, Copy, Step, AbsStep, Run, Legal, StaysOpen;
    StepRefines(sc, c, StartOp);
    var c1, after := Step(sc, c, StartOp), AfterBlock(sc, c, ops);
    StartSaves(sc, AbsOf(sc, c));
    SavedDepth(sc, CoreOf(c1.t), c1.t.undo);
    RunKeepsSaved(sc, c1, ops, 1);
    SavedNext(sc, after);
    CopyNext(sc, c);
  }

  lemma SavedNext(sc: Schema, c: Config)
    requires c.t.undo.Push?
    ensures AbsOf(sc, c).saved.Push? && AbsOf(sc, c).saved.top.nextId == c.t.undo.top.oldNextId
  {
    hide Restore;
  }

  lemma CopyNext(sc: Schema, c: Config)
    ensures Copy(sc, AbsOf(sc, c).cur).nextId == c.t.nextId
  {
  }

  lemma SameArrangement(emits: seq<Emit>, s: Session, log: Log)
    requires Arranged(emits, s.oldNextId, s.modifiedOrder, s.removedOrder) && Records(s, log)
    requires forall i :: 0 <= i < |emits| ==>
               && (Rank(emits[i], s.oldNextId) == 0 ==> emits[i].id in s.modifiedOrder)
               && (Rank(emits[i], s.oldNextId) == 1 ==> emits[i].id in s.removedOrder)
    ensures Arranged(emits, s.oldNextId, log.modified, log.removed)
  {
    hide IsFirsts;
    forall i, j | 0 <= i < j < |emits| ensures Precedes(emits[i], emits[j], s.oldNextId, log.modified, log.removed) {
      var a, b := emits[i], emits[j];
      assert Precedes(a, b, s.oldNextId, s.modifiedOrder, s.removedOrder);
      if Rank(a, s.oldNextId) == Rank(b, s.oldNextId) == 0 {
        SameFirsts(s.modifiedOrder, log.modified, Older(s.oldNextId), b.id, a.id);
      } else if Rank(a, s.oldNextId) == Rank(b, s.oldNextId) == 1 {
        SameFirsts(s.removedOrder, log.removed, Older(s.oldNextId), b.id, a.id);
      }
    }
  }

  lemma SameFirsts(list: seq<int>, log: seq<int>, keep: int -> bool, a: int, b: int)
    requires IsFirsts(list, log, keep) && a in list && b in list && First(list, a) < First(list, b)
    ensures First(log, a) < First(log, b)
  {
  }

  lemma TopOrdered(sc: Schema, t: Tab)
    requires RowInv(sc, t) && t.undo.Push?
    ensures Ordered(t.undo.top) && SessionOK(t.undo.top, t.nextId, t.rows)
  {
    hide Restore, RowsOK;
    SessionOrdered(t.undo.top, t.nextId, t.rows);
  }

  lemma OldRows(sc: Schema, c: Config)
    requires Inv(sc, c)
    ensures forall id :: id in c.t.rows ==> 0 <= id < c.t.nextId
  {
    hide BlobStack, PatchesOK, KeysUnique;
  }

  lemma EmittedAt(emits: seq<Emit>, i: nat)
    requires i < |emits|
    ensures Emitted(emits, emits[i].id, emits[i].present)
  {
  }

  lemma LoggedArrangement(emits: seq<Emit>, t: Tab, log: Log, e: Emitter)
    requires t.undo.Push? && InItsOrder(emits, t, e) && SessionOK(t.undo.top, t.nextId, t.rows)
    requires Records(t.undo.top, log)
    ensures Arranged(emits, t.undo.top.oldNextId, log.modified, log.removed)
  {
    hide IsFirsts, Restore, Emitted, Precedes;
    var s := t.undo.top;
    forall i | 0 <= i < |emits|
      ensures Rank(emits[i], s.oldNextId) == 0 ==> emits[i].id in s.modifiedOrder
      ensures Rank(emits[i], s.oldNextId) == 1 ==> emits[i].id in s.removedOrder
    {
      EmittedAt(emits, i);
      RestoredAt(s, t.rows, emits[i].id);
    }
    hide Arranged, SaysExactly;
    SameArrangement(emits, s, log);
  }

  lemma LoggedExactly(emits: seq<Emit>, t: Tab, before: Rows, log: Log, e: Emitter)
    requires t.undo.Push? && InItsOrder(emits, t, e) && SessionOK(t.undo.top, t.nextId, t.rows)
    requires before == Restore(t.undo.top, t.rows) && (forall id :: id in before ==> id < t.undo.top.oldNextId)
    requires Records(t.undo.top, log)
    ensures SaysExactly(emits, before, t.rows, log.modified, log.gone, e)
  {
    hide Restore, Arranged, Emitted;
    var s := t.undo.top;
    forall i | 0 <= i < |emits| && !emits[i].present
      ensures emits[i].id in log.gone && log.gone[emits[i].id] == s.removed[emits[i].id]
    {
      assert Get(s.removed, emits[i].id) == Get(log.gone, emits[i].id);
    }
  }

  /**
    Over every block: the delta at its end emits the rows the block changed, each
    once. Rows it modified come first, the one it first modified last of all first;
    then the rows it removed, likewise; then its new rows by id. A removed row is
    emitted as it was when it was removed.
   */
  lemma BlockInOrder(sc: Schema, c: Config, ops: seq<Op>, rules: Rules)
    requires Inv(sc, c) && Block(sc, c, ops)
    ensures var after, log := AfterBlock(sc, c, ops).t, BlockLog(sc, c, ops);
            && after.undo.Push? && Ordered(after.undo.top)
            && var emits := DeltaOf(sc, after, rules);
               && Arranged(emits, c.t.nextId, log.modified, log.removed)
               && SaysExactly(emits, c.t.rows, after.rows, log.modified, log.gone, EmitterOf(sc, after.blobs, rules))
  {
    hide Inv, Block, AfterBlock, BlockLog, Changes, Restore, IsFirsts, Contents;
    BlockKeepsBytes(sc, c, ops);
    BlockRecords(sc, c, ops);
    var after, log := AfterBlock(sc, c, ops), BlockLog(sc, c, ops);
    RowsFit(sc, after);
    hide RowInv;
    TopOrdered(sc, after.t);
    DeltaInOrder(sc, after.t, rules, after.held);
    var emits, e := DeltaOf(sc, after.t, rules), EmitterOf(sc, after.t.blobs, rules);
    OldRows(sc, c);
    LoggedArrangement(emits, after.t, log, e);
    LoggedExactly(emits, after.t, c.t.rows, log, e);
  }
}
