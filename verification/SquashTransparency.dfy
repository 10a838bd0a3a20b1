/**
  Opening a session, running operations in it and squashing it leaves exactly the
  table that running the same operations in the outer session would have left.
 */
module SquashTransparency {
  import opened ArenaTypes
  import opened TableSpec
  import opened RowHistory
  import opened TableOps
  import opened SessionLevels

  // ----- merging sessions ---------------------------------------------------

  lemma NewIdsSplit(a: seq<int>, b: seq<int>, bound: nat, known: Rows)
    ensures NewIds(a + b, bound, known) == NewIds(a, bound, known) + NewIds(b, bound, known)
  {
    if b == [] {
      assert a + b == a;
    } else {
      var init := b[..|b| - 1];
      NewIdsSplit(a, init, bound, known);
      assert (a + b)[..|a + b| - 1] == a + init;
      assert NewIds(a + b, bound, known) == NewIds(a, bound, known) + NewIds(init, bound, known)
             + NewIds([b[|b| - 1]], bound, known);
    }
  }

  lemma NewIdsLast(order: seq<int>, id: int, bound: nat, known: Rows)
    ensures NewIds(order + [id], bound, known) ==
            if id < bound && id !in known then NewIds(order, bound, known) + [id] else NewIds(order, bound, known)
  {
    assert (order + [id])[..|order|] == order;
  }

  lemma NewIdsTwice(ids: seq<int>, bound: nat, known: Rows, inner: nat, innerKnown: Rows, all: Rows)
    requires bound <= inner
    requires forall id :: id < bound ==> (id in all <==> id in known || id in innerKnown)
    ensures NewIds(NewIds(ids, inner, innerKnown), bound, known) == NewIds(ids, bound, all)
  {
    if ids != [] {
      var init, id := ids[..|ids| - 1], ids[|ids| - 1];
      NewIdsTwice(init, bound, known, inner, innerKnown, all);
      NewIdsSplit(NewIds(init, inner, innerKnown), [id], bound, known);
    }
  }

  lemma BelowUpdate(m: Rows, bound: nat, id: int, row: Row)
    ensures Below(m[id := row], bound) == if id < bound then Below(m, bound)[id := row] else Below(m, bound)
  {
  }

  lemma BelowJoin(a: Rows, b: Rows, inner: nat, bound: nat)
    requires bound <= inner
    ensures Below(Below(a, inner) + b, bound) == Below(a, bound) + Below(b, bound)
    ensures Below(b + Below(a, inner), bound) == Below(b, bound) + Below(a, bound)
  {
  }

  lemma JoinUpdate(a: Rows, b: Rows, id: int, row: Row)
    ensures a + b[id := row] == (a + b)[id := row]
    ensures a[id := row] + b == if id in b then a + b else (a + b)[id := row]
  {
  }

  lemma JoinAssociative(a: Rows, b: Rows, c: Rows)
    ensures (a + b) + c == a + (b + c)
  {
  }

  lemma MergeFresh(prev: Session, nextId: nat, blobLen: nat)
    ensures Merge(prev, Session(map[], map[], [], [], nextId, blobLen, [], [])) == prev
  {
    assert Below(map[], prev.oldNextId) + prev.modified == prev.modified;
    assert prev.removed + Below(map[], prev.oldNextId) == prev.removed;
  }

  lemma MergeModified(prev: Session, s: Session, id: int, was: Row)
    requires prev.oldNextId <= s.oldNextId
    ensures Merge(prev, NoteModified(s, id, was)) == NoteModified(Merge(prev, s), id, was)
  {
    hide NewIds, Below;
    NewIdsLast(s.modifiedOrder, id, prev.oldNextId, prev.modified);
    BelowUpdate(s.modified, prev.oldNextId, id, was);
    JoinUpdate(Below(s.modified, prev.oldNextId), prev.modified, id, was);
    MergedIds(s.modified, prev.modified, prev.oldNextId);
  }

  lemma MergeRemoved(prev: Session, s: Session, id: int, row: Row)
    requires prev.oldNextId <= s.oldNextId
    ensures Merge(prev, NoteRemoved(s, id, row)) == NoteRemoved(Merge(prev, s), id, row)
  {
    hide NewIds, Below;
    NewIdsLast(s.removedOrder, id, prev.oldNextId, prev.removed);
    BelowUpdate(s.removed, prev.oldNextId, id, row);
    JoinUpdate(prev.removed, Below(s.removed, prev.oldNextId), id, row);
    MergedIds(s.removed, prev.removed, prev.oldNextId);
  }

  lemma MergeOrders(outerIds: seq<int>, outer: Rows, ids: seq<int>, m: Rows, innerIds: seq<int>, bound: nat, next: nat,
                    all: Rows)
    requires bound <= next
    requires forall id :: id < bound ==> (id in all <==> id in outer || id in m)
    ensures outerIds + NewIds(ids + NewIds(innerIds, next, m), bound, outer) ==
            outerIds + NewIds(ids, bound, outer) + NewIds(innerIds, bound, all)
  {
    NewIdsSplit(ids, NewIds(innerIds, next, m), bound, outer);
    NewIdsTwice(innerIds, bound, outer, next, m, all);
  }

  lemma MergedIds(m: Rows, outer: Rows, bound: nat)
    ensures forall id :: id < bound ==> (id in Below(m, bound) + outer <==> id in outer || id in m)
    ensures forall id :: id < bound ==> (id in outer + Below(m, bound) <==> id in outer || id in m)
  {
  }

  lemma MergeAssociative(outer: Session, s: Session, inner: Session)
    requires outer.oldNextId <= s.oldNextId
    ensures Merge(outer, Merge(s, inner)) == Merge(Merge(outer, s), inner)
  {
    hide NewIds, Below;
    var both := Merge(outer, s);
    MergedIds(s.modified, outer.modified, outer.oldNextId);
    MergedIds(s.removed, outer.removed, outer.oldNextId);
    MergeOrders(outer.modifiedOrder, outer.modified, s.modifiedOrder, s.modified, inner.modifiedOrder, outer.oldNextId,
                s.oldNextId, both.modified);
    MergeOrders(outer.removedOrder, outer.removed, s.removedOrder, s.removed, inner.removedOrder, outer.oldNextId,
                s.oldNextId, both.removed);
    BelowJoin(inner.modified, s.modified, s.oldNextId, outer.oldNextId);
    BelowJoin(inner.removed, s.removed, s.oldNextId, outer.oldNextId);
    JoinAssociative(Below(inner.modified, outer.oldNextId), Below(s.modified, outer.oldNextId), outer.modified);
    JoinAssociative(outer.removed, Below(s.removed, outer.oldNextId), Below(inner.removed, outer.oldNextId));
  }

  lemma MergeSpans(prev: Session, s: Session, r: BlobRef)
    ensures Merge(prev, s.(reused := s.reused + [r])) == Merge(prev, s).(reused := Merge(prev, s).reused + [r])
    ensures Merge(prev, s.(freed := s.freed + [r])) == Merge(prev, s).(freed := Merge(prev, s).freed + [r])
  {
    assert prev.reused + (s.reused + [r]) == (prev.reused + s.reused) + [r];
    assert prev.freed + (s.freed + [r]) == (prev.freed + s.freed) + [r];
  }

  // ----- running with and without the inner session -------------------------

  /** `b` is `a` with the session `d` levels in squashed into the one around it. */
  ghost predicate Nested(a: Stack<Session>, b: Stack<Session>, d: nat)
    decreases d
  {
    if d == 0 then
      && a.Push? && a.below.Push?
      && a.below.top.oldNextId <= a.top.oldNextId
      && b == Push(Merge(a.below.top, a.top), a.below.below)
    else a.Push? && b.Push? && a.top == b.top && Nested(a.below, b.below, d - 1)
  }

  ghost predicate Alike(a: Tab, b: Tab, d: nat)
  {
    && b == a.(undo := b.undo, revision := a.revision - 1)
    && Nested(a.undo, b.undo, d)
  }

  lemma AllocAlike(a: Tab, b: Tab, d: nat, bytes: seq<Byte>)
    requires Alike(a, b, d) && FreeInside(a) && |bytes| < U32
    ensures Alike(Alloc(a, bytes), Alloc(b, bytes), d) && AllocRef(a, bytes) == AllocRef(b, bytes)
  {
    if d == 0 {
      MergeSpans(a.undo.below.top, a.undo.top, AllocRef(a, bytes));
    }
    hide FindFree, Write, Merge;
  }

  lemma FreeAlike(a: Tab, b: Tab, d: nat, r: BlobRef)
    requires Alike(a, b, d)
    ensures Alike(FreeBlob(a, r), FreeBlob(b, r), d)
  {
    if d == 0 {
      MergeSpans(a.undo.below.top, a.undo.top, r);
    }
    hide Merge;
  }

  lemma ModifyAlike(sc: Schema, a: Tab, b: Tab, d: nat, id: int, updated: Row)
    requires Alike(a, b, d)
    ensures Alike(Modify(sc, a, id, updated), Modify(sc, b, id, updated), d)
  {
    if d == 0 && id in a.rows {
      MergeModified(a.undo.below.top, a.undo.top, id, a.rows[id]);
    }
    hide Merge, Conflict;
  }

  lemma RemoveAlike(a: Tab, b: Tab, d: nat, id: int)
    requires Alike(a, b, d)
    ensures Alike(Remove(a, id), Remove(b, id), d)
  {
    if d == 0 && id in a.rows {
      MergeRemoved(a.undo.below.top, a.undo.top, id, a.rows[id]);
    }
    hide Merge;
  }

  lemma SquashAlike(a: Tab, b: Tab, d: nat)
    requires Alike(a, b, d) && 0 < d
    ensures Alike(Squash(a), Squash(b), d - 1)
  {
    if d == 1 {
      assert Nested(a.undo.below, b.undo.below, 0);
      MergeAssociative(a.undo.below.below.top, a.undo.below.top, a.undo.top);
    } else {
      assert Nested(a.undo.below, b.undo.below, d - 1);
    }
    hide NewIds;
  }

  // ----- whole runs ---------------------------------------------------------

  /**
    Operations, on a table at this depth and revision, that close every session
    opened inside and keep open the session `d` sessions further out. Older
    sessions may be committed.
   */
  predicate Inside(depth: nat, revision: int, ops: seq<Op>, d: nat)
    decreases |ops|
  {
    if ops == [] then d == 0
    else
      var (depth', revision') := Moved(depth, revision, ops[0]);
      match ops[0]
      case StartOp => Inside(depth', revision', ops[1..], d + 1)
      case UndoOp(_) => 0 < d && Inside(depth', revision', ops[1..], d - 1)
      case SquashOp => 0 < d && Inside(depth', revision', ops[1..], d - 1)
      case CommitOp(_) => d < depth' && Inside(depth', revision', ops[1..], d)
      case _ => Inside(depth', revision', ops[1..], d)
  }

  ghost predicate CanRun(sc: Schema, t: Tab, ops: seq<Op>)
    decreases |ops|
  {
    ops == [] || (CanStep(t, ops[0]) && CanRun(sc, TabStep(sc, t, ops[0]), ops[1..]))
  }

  ghost function TabRun(sc: Schema, t: Tab, ops: seq<Op>): Tab
    requires CanRun(sc, t, ops)
    decreases |ops|
  {
    if ops == [] then t else TabRun(sc, TabStep(sc, t, ops[0]), ops[1..])
  }

  function Deeper(op: Op, d: nat): nat
  {
    match op
    case StartOp => d + 1
    case UndoOp(_) => if d == 0 then 0 else d - 1
    case SquashOp => if d == 0 then 0 else d - 1
    case _ => d
  }

  lemma {:induction false} NestedDepth(a: Stack<Session>, b: Stack<Session>, d: nat)
    requires Nested(a, b, d)
    ensures Depth(a) == Depth(b) + 1 && d < Depth(b)
    decreases d
  {
    hide Merge;
    if d > 0 {
      NestedDepth(a.below, b.below, d - 1);
    }
  }

  /** Dropping sessions outside both drops the same ones. */
  lemma {:induction false} NestedInnermost(a: Stack<Session>, b: Stack<Session>, d: nat, keep: nat)
    requires Nested(a, b, d) && d < keep
    ensures Nested(Innermost(a, keep + 1), Innermost(b, keep), d)
    ensures FreedOutside(a, keep + 1) == FreedOutside(b, keep)
    decreases d
  {
    hide Merge;
    if d > 0 {
      NestedInnermost(a.below, b.below, d - 1, keep - 1);
    } else {
      assert Innermost(a, keep + 1) == Push(a.top, Push(a.below.top, Innermost(a.below.below, keep - 1)));
    }
  }

  lemma CommitAlike(a: Tab, b: Tab, d: nat, r: int)
    requires Alike(a, b, d) && d < KeptBy(Depth(b.undo), b.revision, r)
    ensures Alike(Commit(a, r), Commit(b, r), d)
  {
    hide Nested, Innermost, FreedOutside;
    NestedDepth(a.undo, b.undo, d);
    NestedInnermost(a.undo, b.undo, d, KeptBy(Depth(b.undo), b.revision, r));
  }

  /** An operation that may run between the start of the inner session and its squash. */
  predicate StaysInside(depth: nat, revision: int, op: Op, d: nat)
  {
    && (op.UndoOp? || op.SquashOp? ==> 0 < d)
    && (op.CommitOp? ==> d < KeptBy(depth, revision, op.revision))
  }

  lemma StepAlike(sc: Schema, a: Tab, b: Tab, d: nat, op: Op)
    requires Alike(a, b, d) && CanStep(a, op) && StaysInside(Depth(b.undo), b.revision, op, d)
    ensures CanStep(b, op) && Alike(TabStep(sc, a, op), TabStep(sc, b, op), Deeper(op, d))
  {
    hide Alloc, Modify, Remove, Squash, Merge, Conflict, Commit;
    match op
    case AllocOp(bytes) => AllocAlike(a, b, d, bytes);
    case FreeOp(r) => FreeAlike(a, b, d, r);
    case ModifyOp(id, updated) => ModifyAlike(sc, a, b, d, id, updated);
    case RemoveOp(id) => RemoveAlike(a, b, d, id);
    case RewriteOp(id, was, bytes, updated) =>
      FreeAlike(a, b, d, was);
      AllocAlike(FreeBlob(a, was), FreeBlob(b, was), d, bytes);
      ModifyAlike(sc, Alloc(FreeBlob(a, was), bytes), Alloc(FreeBlob(b, was), bytes), d, id, updated);
    case SquashOp => SquashAlike(a, b, d);
    case CommitOp(r) => CommitAlike(a, b, d, r);
    case _ =>
  }

  lemma {:induction false} RunAlike(sc: Schema, a: Tab, b: Tab, d: nat, ops: seq<Op>)
    requires Alike(a, b, d) && Inside(Depth(b.undo), b.revision, ops, d) && CanRun(sc, a, ops)
    ensures CanRun(sc, b, ops) && Alike(TabRun(sc, a, ops), TabRun(sc, b, ops), 0)
    decreases |ops|
  {
    hide TabStep, Alike, CanStep;
    if ops != [] {
      StepAlike(sc, a, b, d, ops[0]);
      StepMoves(sc, b, ops[0]);
      RunAlike(sc, TabStep(sc, a, ops[0]), TabStep(sc, b, ops[0]), Deeper(ops[0], d), ops[1..]);
    }
  }

  /**
    Squash is transparent: saved values, first-touch order, freed and reused spans,
    free list and dirty list included, also when older sessions are committed on the way.
   */
  lemma SquashTransparent(sc: Schema, t: Tab, ops: seq<Op>)
    requires t.undo.Push? && t.undo.top.oldNextId <= t.nextId
    requires Inside(Depth(t.undo), t.revision, ops, 0) && CanRun(sc, StartSession(t), ops)
    ensures CanRun(sc, t, ops)
    ensures Squash(TabRun(sc, StartSession(t), ops)) == TabRun(sc, t, ops)
  {
    MergeFresh(t.undo.top, t.nextId, |t.blobs|);
    assert Alike(StartSession(t), t, 0);
    RunAlike(sc, StartSession(t), t, 0, ops);
    hide Merge, TabRun;
  }
}
