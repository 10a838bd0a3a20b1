/**
  What a session keeps, against the log of what happened in it: a list of every
  modification, removal, release and reuse while the session was innermost, and of
  the inner sessions folded into it. Undone sessions leave nothing in the log.
 */
module SessionLogs {
  import opened ArenaTypes
  import opened TableSpec
  import opened RowHistory
  import opened TableOps
  import opened SessionLaws
  import opened TouchOrder

  /** `gone` holds each removed row as it was when it was removed. */
  datatype Log = Log(modified: seq<int>, removed: seq<int>, gone: Rows, freed: seq<BlobRef>, reused: seq<BlobRef>)

  const NO_LOG := Log([], [], map[], [], [])

  ghost function WithModified(sc: Schema, t: Tab, log: Log, id: int, updated: Row): Log
  {
    if ModifyError(sc, t, id, updated).None? then log.(modified := log.modified + [id]) else log
  }

  function WithFreed(log: Log, r: BlobRef): Log
  {
    if r.len == 0 then log else log.(freed := log.freed + [r])
  }

  ghost function WithReused(t: Tab, log: Log, bytes: seq<Byte>): Log
  {
    if bytes != [] && HasFree(t, |bytes|) then log.(reused := log.reused + [AllocRef(t, bytes)]) else log
  }

  /** What an operation adds to the innermost session's log. */
  ghost function Noted(sc: Schema, t: Tab, log: Log, op: Op): Log
  {
    match op
    case ModifyOp(id, updated) => WithModified(sc, t, log, id, updated)
    case RemoveOp(id) =>
      if id in t.rows then log.(removed := log.removed + [id], gone := log.gone[id := t.rows[id]]) else log
    case FreeOp(r) => WithFreed(log, r)
    case AllocOp(bytes) => WithReused(t, log, bytes)
    case RewriteOp(id, was, bytes, updated) =>
      WithModified(sc, t, WithReused(t, WithFreed(log, was), bytes), id, updated)
    case _ => log
  }

  /** A session's log, then the log of the session folded into it. */
  function Joined(outer: Log, inner: Log): Log
  {
    Log(outer.modified + inner.modified, outer.removed + inner.removed, outer.gone + inner.gone,
        outer.freed + inner.freed, outer.reused + inner.reused)
  }

  ghost function LogsAfter(sc: Schema, t: Tab, logs: Stack<Log>, op: Op): Stack<Log>
  {
    match op
    case StartOp => Push(NO_LOG, logs)
    case UndoOp(_) => if logs.Push? then logs.below else logs
    case SquashOp =>
      (match logs
       case Bottom => Bottom
       case Push(_, Bottom) => Bottom
       case Push(inner, Push(outer, base)) => Push(Joined(outer, inner), base))
    case CommitOp(upTo) => Innermost(logs, KeptBy(Depth(t.undo), t.revision, upTo))
    case _ => if logs.Push? then Push(Noted(sc, t, logs.top, op), logs.below) else logs
  }

  /** The session keeps its rows in the order of their first touch, and its spans in the order of its log. */
  ghost predicate Records(s: Session, log: Log)
  {
    && s.freed == log.freed && s.reused == log.reused
    && IsFirsts(s.modifiedOrder, log.modified, Older(s.oldNextId))
    && IsFirsts(s.removedOrder, log.removed, Older(s.oldNextId))
    && forall id: int :: id < s.oldNextId ==> Get(s.removed, id) == Get(log.gone, id)
  }

  ghost predicate Recorded(st: Stack<Session>, logs: Stack<Log>)
  {
    match st
    case Bottom => logs.Bottom?
    case Push(s, below) => logs.Push? && Records(s, logs.top) && Recorded(below, logs.below)
  }

  // ----- one operation ------------------------------------------------------

  lemma ModifiedNoted(s: Session, log: Log, id: int, was: Row)
    requires Records(s, log) && Lists(s.modifiedOrder, s.modified)
    ensures Records(NoteModified(s, id, was), log.(modified := log.modified + [id]))
  {
    hide IsFirsts;
    FirstsNext(s.modifiedOrder, log.modified, Older(s.oldNextId), id);
  }

  lemma RemovedNoted(s: Session, log: Log, id: int, row: Row)
    requires Records(s, log) && Lists(s.removedOrder, s.removed)
    ensures Records(NoteRemoved(s, id, row), log.(removed := log.removed + [id], gone := log.gone[id := row]))
  {
    hide IsFirsts;
    FirstsNext(s.removedOrder, log.removed, Older(s.oldNextId), id);
    var s', gone := NoteRemoved(s, id, row), log.gone[id := row];
    forall x: int | x < s.oldNextId ensures Get(s'.removed, x) == Get(gone, x) {
      assert Get(s.removed, x) == Get(log.gone, x);
    }
  }

  /** Ids that are new to the outer session stand in the order of the inner one. */
  lemma {:induction false} NewIdsOrder(order: seq<int>, log: seq<int>, bound: nat, known: Rows)
    requires forall i, j :: 0 <= i < j < |order| ==> First(log, order[i]) < First(log, order[j])
    ensures var ids := NewIds(order, bound, known);
            forall i, j :: 0 <= i < j < |ids| ==> First(log, ids[i]) < First(log, ids[j])
    decreases |order|
  {
    if order != [] {
      var init, last := order[..|order| - 1], order[|order| - 1];
      NewIdsOrder(init, log, bound, known);
      var rest, ids := NewIds(init, bound, known), NewIds(order, bound, known);
      forall i | 0 <= i < |rest| ensures First(log, rest[i]) < First(log, last) {
        NewIdsMember(init, bound, known, rest[i]);
        assert rest[i] in rest;
        var k :| 0 <= k < |init| && init[k] == rest[i];
        assert order[k] == rest[i];
      }
    }
  }

  /** Where the ids of an outer and an inner log first stand in the two together. */
  lemma NewToOuter(outer: seq<int>, outerLog: seq<int>, inner: seq<int>, innerLog: seq<int>, bound: nat, high: nat,
                   known: Rows, x: int)
    requires IsFirsts(outer, outerLog, Older(bound)) && IsFirsts(inner, innerLog, Older(high)) && bound <= high
    requires forall id :: id in known <==> id in outer
    ensures x in outer ==> First(outerLog + innerLog, x) == First(outerLog, x) < |outerLog|
    ensures x in NewIds(inner, bound, known) ==> First(outerLog + innerLog, x) == |outerLog| + First(innerLog, x)
    ensures x in outer || x in NewIds(inner, bound, known) <==> x in outerLog + innerLog && x < bound
  {
    NewIdsMember(inner, bound, known, x);
    FirstIn(outerLog, innerLog, x);
  }

  lemma FirstsJoin(outer: seq<int>, outerLog: seq<int>, inner: seq<int>, innerLog: seq<int>, bound: nat, high: nat,
                   known: Rows)
    requires IsFirsts(outer, outerLog, Older(bound)) && IsFirsts(inner, innerLog, Older(high)) && bound <= high
    requires forall id :: id in known <==> id in outer
    ensures IsFirsts(outer + NewIds(inner, bound, known), outerLog + innerLog, Older(bound))
  {
    var news, all, log := NewIds(inner, bound, known), outer + NewIds(inner, bound, known), outerLog + innerLog;
    NewIdsOrder(inner, innerLog, bound, known);
    forall i, j | 0 <= i < j < |all| ensures First(log, all[i]) < First(log, all[j]) {
      NewToOuter(outer, outerLog, inner, innerLog, bound, high, known, all[i]);
      NewToOuter(outer, outerLog, inner, innerLog, bound, high, known, all[j]);
      hide NewIds;
      assert i < |outer| ==> all[i] == outer[i] && outer[i] in outer;
      assert i >= |outer| ==> all[i] == news[i - |outer|] && news[i - |outer|] in news;
      assert j < |outer| ==> all[j] == outer[j] && outer[j] in outer;
      assert j >= |outer| ==> all[j] == news[j - |outer|] && news[j - |outer|] in news;
    }
    forall x: int ensures x in all <==> x in log && x < bound {
      NewToOuter(outer, outerLog, inner, innerLog, bound, high, known, x);
    }
  }

  lemma JoinedRecords(prev: Session, s: Session, outer: Log, inner: Log)
    requires Records(prev, outer) && Records(s, inner) && prev.oldNextId <= s.oldNextId
    requires Lists(prev.modifiedOrder, prev.modified) && Lists(prev.removedOrder, prev.removed)
    ensures Records(Merge(prev, s), Joined(outer, inner))
  {
    hide IsFirsts, NewIds;
    FirstsJoin(prev.modifiedOrder, outer.modified, s.modifiedOrder, inner.modified, prev.oldNextId, s.oldNextId,
               prev.modified);
    FirstsJoin(prev.removedOrder, outer.removed, s.removedOrder, inner.removed, prev.oldNextId, s.oldNextId,
               prev.removed);
    var removed, gone := Merge(prev, s).removed, Joined(outer, inner).gone;
    forall x: int | x < prev.oldNextId ensures Get(removed, x) == Get(gone, x) {
      assert Get(prev.removed, x) == Get(outer.gone, x) && Get(s.removed, x) == Get(inner.gone, x);
    }
  }

  lemma ModifyRecords(sc: Schema, t: Tab, logs: Stack<Log>, id: int, updated: Row)
    requires RowInv(sc, t) && Recorded(t.undo, logs) && t.undo.Push?
    ensures Recorded(Modify(sc, t, id, updated).undo, Push(WithModified(sc, t, logs.top, id, updated), logs.below))
  {
    hide Records, NoteModified, Conflict, RowsOK, RowStack, Lists;
    TopSession(sc, t);
    if ModifyError(sc, t, id, updated).None? {
      ModifiedNoted(t.undo.top, logs.top, id, t.rows[id]);
    }
  }

  lemma TopSession(sc: Schema, t: Tab)
    requires RowInv(sc, t) && t.undo.Push?
    ensures var s := t.undo.top;
            Lists(s.modifiedOrder, s.modified) && Lists(s.removedOrder, s.removed)
    ensures t.undo.below.Push? ==>
              var prev := t.undo.below.top;
              && Lists(prev.modifiedOrder, prev.modified) && Lists(prev.removedOrder, prev.removed)
              && prev.oldNextId <= t.undo.top.oldNextId
  {
    hide Lists, RowsOK, Restore;
    assert RowStack(sc, t.undo.top.oldNextId, Restore(t.undo.top, t.rows), t.undo.below);
  }

  lemma OneLogEach(st: Stack<Session>, logs: Stack<Log>)
    requires Recorded(st, logs) && st.Push?
    ensures logs.Push?
  {
  }

  lemma RemoveRecords(sc: Schema, t: Tab, logs: Stack<Log>, id: int)
    requires RowInv(sc, t) && Recorded(t.undo, logs) && t.undo.Push?
    ensures Recorded(Remove(t, id).undo, Push(Noted(sc, t, logs.top, RemoveOp(id)), logs.below))
  {
    hide Records, NoteRemoved, RowsOK, RowStack, Lists;
    TopSession(sc, t);
    if id in t.rows {
      RemovedNoted(t.undo.top, logs.top, id, t.rows[id]);
    }
  }

  lemma FreeRecords(t: Tab, logs: Stack<Log>, r: BlobRef)
    requires Recorded(t.undo, logs) && t.undo.Push?
    ensures Recorded(FreeBlob(t, r).undo, Push(WithFreed(logs.top, r), logs.below))
  {
    hide IsFirsts;
  }

  lemma AllocRecords(t: Tab, logs: Stack<Log>, bytes: seq<Byte>)
    requires Recorded(t.undo, logs) && t.undo.Push? && FreeInside(t) && |bytes| < U32
    ensures Recorded(Alloc(t, bytes).undo, Push(WithReused(t, logs.top, bytes), logs.below))
  {
    hide IsFirsts, Write;
    if bytes != [] {
      match FindFree(t.free, |bytes|)
      case Some(i) => assert HasFree(t, |bytes|);
      case None => assert !HasFree(t, |bytes|);
    }
  }

  lemma AllocKeepsRows(sc: Schema, t: Tab, was: BlobRef, bytes: seq<Byte>, id: int, updated: Row)
    requires t.undo.Push? && FreeInside(FreeBlob(t, was)) && |bytes| < U32
    ensures FreeBlob(t, was).free == t.free && FreeBlob(t, was).blobs == t.blobs
    ensures var t' := Alloc(FreeBlob(t, was), bytes);
            && t'.rows == t.rows && t'.nextId == t.nextId && t'.undo.Push?
            && ModifyError(sc, t', id, updated) == ModifyError(sc, t, id, updated)
  {
    hide FindFree, Write, Conflict;
  }

  lemma RewriteRecords(sc: Schema, t: Tab, logs: Stack<Log>, op: Op)
    requires RowInv(sc, t) && Recorded(t.undo, logs) && t.undo.Push? && op.RewriteOp? && CanStep(t, op)
    ensures Recorded(TabStep(sc, t, op).undo, Push(Noted(sc, t, logs.top, op), logs.below))
  {
    hide Recorded, FreeBlob, Alloc, Modify, RowInv, ModifyError, FreeInside, HasFree, AllocRef;
    OneLogEach(t.undo, logs);
    var t1 := FreeBlob(t, op.was);
    var t2 := Alloc(t1, op.bytes);
    AllocKeepsRows(sc, t, op.was, op.bytes, op.id, op.updated);
    FreeRecords(t, logs, op.was);
    SameFree(t, t1, op.bytes);
    StillOpen(t, op.was);
    var log1 := WithFreed(logs.top, op.was);
    AllocRecords(t1, Push(log1, logs.below), op.bytes);
    BlobsKeepRows(sc, t, op.was, op.bytes);
    ModifyRecords(sc, t2, Push(WithReused(t, log1, op.bytes), logs.below), op.id, op.updated);
    AllocKeepsRows(sc, t, op.was, op.bytes, op.id, op.updated);
  }

  lemma SameFree(t: Tab, t': Tab, bytes: seq<Byte>)
    requires t'.free == t.free && t'.blobs == t.blobs
    ensures HasFree(t', |bytes|) == HasFree(t, |bytes|) && AllocRef(t', bytes) == AllocRef(t, bytes)
  {
  }

  lemma StillOpen(t: Tab, r: BlobRef)
    requires t.undo.Push?
    ensures FreeBlob(t, r).undo.Push?
  {
  }

  lemma BlobsKeepRows(sc: Schema, t: Tab, was: BlobRef, bytes: seq<Byte>)
    requires RowInv(sc, t) && t.undo.Push? && FreeInside(FreeBlob(t, was)) && |bytes| < U32
    ensures RowInv(sc, Alloc(FreeBlob(t, was), bytes))
  {
    hide RowsOK, Lists, Write, FindFree;
    var s, t' := t.undo.top, Alloc(FreeBlob(t, was), bytes);
    assert Restore(t'.undo.top, t.rows) == Restore(s, t.rows);
  }

  lemma SquashRecords(sc: Schema, t: Tab, logs: Stack<Log>)
    requires RowInv(sc, t) && Recorded(t.undo, logs)
    ensures Recorded(Squash(t).undo, LogsAfter(sc, t, logs, SquashOp))
  {
    hide Records, RowInv, Merge, Joined, Lists;
    if t.undo.Push? && t.undo.below.Push? {
      assert Recorded(t.undo.below, logs.below);
      TopSession(sc, t);
      JoinedRecords(t.undo.below.top, t.undo.top, logs.below.top, logs.top);
    }
  }

  lemma {:induction false} InnermostRecords(st: Stack<Session>, logs: Stack<Log>, keep: nat)
    requires Recorded(st, logs)
    ensures Recorded(Innermost(st, keep), Innermost(logs, keep))
    decreases st
  {
    hide Records;
    if st.Push? && keep > 0 {
      InnermostRecords(st.below, logs.below, keep - 1);
    }
  }

  lemma FreshRecords(t: Tab)
    ensures Records(FreshSession(t), NO_LOG)
  {
  }

  /** Every operation keeps sessions and logs in step. */
  lemma StepRecords(sc: Schema, t: Tab, logs: Stack<Log>, op: Op)
    requires RowInv(sc, t) && Recorded(t.undo, logs) && CanStep(t, op)
    ensures Recorded(TabStep(sc, t, op).undo, LogsAfter(sc, t, logs, op))
  {
    hide RowInv, Records, Squash, Modify, Remove, Alloc, FreeBlob, FreshSession, FreeInside, Innermost;
    match op
    case StartOp => FreshRecords(t);
    case SquashOp => SquashRecords(sc, t, logs);
    case CommitOp(upTo) => InnermostRecords(t.undo, logs, KeptBy(Depth(t.undo), t.revision, upTo));
    case UndoOp(_) =>
    case SetRevisionOp(_) => NothingNoted(sc, t, logs, op);
    case FlushOp => NothingNoted(sc, t, logs, op);
    case EmplaceOp(_) => NothingNoted(sc, t, logs, op);
    case _ =>
      if t.undo.Push? {
        RowsRecord(sc, t, logs, op);
      } else {
        StaysShut(sc, t, op);
      }
  }

  lemma NothingNoted(sc: Schema, t: Tab, logs: Stack<Log>, op: Op)
    requires op.SetRevisionOp? || op.FlushOp? || op.EmplaceOp?
    ensures LogsAfter(sc, t, logs, op) == logs && TabStep(sc, t, op).undo == t.undo
  {
  }

  lemma StaysShut(sc: Schema, t: Tab, op: Op)
    requires t.undo.Bottom? && CanStep(t, op)
    requires op.ModifyOp? || op.RemoveOp? || op.FreeOp? || op.AllocOp? || op.RewriteOp?
    ensures TabStep(sc, t, op).undo == Bottom
  {
    hide Write, FindFree, Conflict;
  }

  lemma RowsRecord(sc: Schema, t: Tab, logs: Stack<Log>, op: Op)
    requires RowInv(sc, t) && Recorded(t.undo, logs) && CanStep(t, op) && t.undo.Push?
    requires op.ModifyOp? || op.RemoveOp? || op.FreeOp? || op.AllocOp? || op.RewriteOp?
    ensures Recorded(TabStep(sc, t, op).undo, Push(Noted(sc, t, logs.top, op), logs.below))
  {
    hide RowInv, Recorded, Modify, Remove, Alloc, FreeBlob, FreeInside, WithModified, WithReused;
    match op
    case ModifyOp(id, updated) => ModifyRecords(sc, t, logs, id, updated);
    case RemoveOp(id) => RemoveRecords(sc, t, logs, id);
    case FreeOp(r) => FreeRecords(t, logs, r);
    case AllocOp(bytes) => AllocRecords(t, logs, bytes);
    case RewriteOp(_, _, _, _) => RewriteRecords(sc, t, logs, op);
  }

  // ----- logs for the sessions there are ------------------------------------

  /** A log that would have led to the session. */
  function LogOf(s: Session): Log
  {
    Log(s.modifiedOrder, s.removedOrder, s.removed, s.freed, s.reused)
  }

  function LogsOf(st: Stack<Session>): Stack<Log>
  {
    match st
    case Bottom => Bottom
    case Push(s, below) => Push(LogOf(s), LogsOf(below))
  }

  lemma OwnFirsts(order: seq<int>, m: Rows, bound: nat)
    requires Lists(order, m) && forall id :: id in m ==> id < bound
    ensures IsFirsts(order, order, Older(bound))
  {
    forall i | 0 <= i < |order| ensures First(order, order[i]) == i {
      FirstIs(order, order[i], i);
    }
  }

  lemma {:induction false} OwnLogs(sc: Schema, nextId: nat, rows: Rows, st: Stack<Session>)
    requires RowStack(sc, nextId, rows, st)
    ensures Recorded(st, LogsOf(st))
    decreases st
  {
    hide RowsOK, Restore, IsFirsts, Lists;
    if st.Push? {
      var s := st.top;
      OwnFirsts(s.modifiedOrder, s.modified, s.oldNextId);
      OwnFirsts(s.removedOrder, s.removed, s.oldNextId);
      OwnLogs(sc, s.oldNextId, Restore(s, rows), st.below);
    }
  }
}
