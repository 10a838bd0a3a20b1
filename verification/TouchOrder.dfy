/**
  The order of things. A run's log lists every row it touched, every span it gave
  up and every span it took back into use, as they happened. The lists a table
  keeps are the logs' first occurrences, in order.
 */
module TouchOrder {
  import opened ArenaTypes
  import opened TableSpec
  import opened RowHistory
  import opened TableOps

  // ----- first occurrences --------------------------------------------------

  /** Where `x` first stands in a log; the log's length when it does not. */
  function First(log: seq<int>, x: int): (i: nat)
    ensures i <= |log| && (i < |log| ==> log[i] == x) && (forall j :: 0 <= j < i ==> log[j] != x)
    ensures i < |log| <==> x in log
  {
    if log == [] then 0 else if log[0] == x then 0 else
      assert log == [log[0]] + log[1..];
      1 + First(log[1..], x)
  }

  lemma FirstIs(log: seq<int>, x: int, i: nat)
    requires i < |log| && log[i] == x && x !in log[..i]
    ensures First(log, x) == i
  {
    forall j | 0 <= j < i ensures log[j] != x {
      assert log[..i][j] == log[j];
    }
  }

  lemma FirstIn(a: seq<int>, b: seq<int>, x: int)
    ensures First(a + b, x) == if x in a then First(a, x) else |a| + First(b, x)
  {
    if x in a {
      var i := First(a, x);
      assert (a + b)[..i] == a[..i];
      FirstIs(a + b, x, i);
    } else if x in b {
      var i := |a| + First(b, x);
      forall j | 0 <= j < i ensures (a + b)[j] != x {
      }
      FirstIs(a + b, x, i);
    }
  }

  /** `list` holds each kept id of the log once, in the order of their first occurrences. */
  ghost predicate IsFirsts(list: seq<int>, log: seq<int>, keep: int -> bool)
  {
    && (forall x :: x in list <==> x in log && keep(x))
    && (forall i, j :: 0 <= i < j < |list| ==> First(log, list[i]) < First(log, list[j]))
  }

  const ANY := (x: int) => true

  function Older(bound: nat): int -> bool
  {
    x => x < bound
  }

  lemma FirstsInOrder(list: seq<int>, log: seq<int>, keep: int -> bool, i: nat, j: nat)
    requires IsFirsts(list, log, keep) && i < |list| && j < |list|
    ensures i <= j <==> First(log, list[i]) <= First(log, list[j])
  {
  }

  /** One more entry in the log: listed at the end, unless it is there or not kept. */
  lemma FirstsNext(list: seq<int>, log: seq<int>, keep: int -> bool, x: int)
    requires IsFirsts(list, log, keep)
    ensures IsFirsts(if keep(x) && x !in list then list + [x] else list, log + [x], keep)
  {
    hide First;
    var now := if keep(x) && x !in list then list + [x] else list;
    forall i, j | 0 <= i < j < |now| ensures First(log + [x], now[i]) < First(log + [x], now[j]) {
      assert now[i] == list[i] && list[i] in list;
      FirstIn(log, [x], now[i]);
      FirstIn(log, [x], now[j]);
      if j < |list| {
        assert now[j] == list[j] && list[j] in list;
      }
    }
    SameMembers(list, log, keep, x);
  }

  lemma SameMembers(list: seq<int>, log: seq<int>, keep: int -> bool, x: int)
    requires forall y :: y in list <==> y in log && keep(y)
    ensures var now := if keep(x) && x !in list then list + [x] else list;
            forall y :: y in now <==> y in log + [x] && keep(y)
  {
  }

  ghost predicate Ascends(list: seq<int>, log: seq<int>)
  {
    && (forall x :: x in list ==> x in log)
    && (forall i, j :: 0 <= i < j < |list| ==> First(log, list[i]) < First(log, list[j]))
  }

  lemma LastIsGreatest(list: seq<int>, log: seq<int>, x: int)
    requires Ascends(list, log) && x in list
    ensures list != [] && First(log, x) <= First(log, list[|list| - 1])
    ensures x != list[|list| - 1] ==> x in list[..|list| - 1]
    ensures list[|list| - 1] !in list[..|list| - 1]
  {
  }

  function Init(list: seq<int>): seq<int>
    requires list != []
  {
    list[..|list| - 1]
  }

  lemma InitAscends(list: seq<int>, log: seq<int>)
    requires Ascends(list, log) && list != []
    ensures Ascends(Init(list), log) && list[|list| - 1] in log && list[|list| - 1] in list
    ensures list == Init(list) + [list[|list| - 1]]
  {
    var init, last := Init(list), list[|list| - 1];
    assert last in list;
    forall x | x in init ensures x in log {
      assert x in list;
    }
  }

  lemma {:induction false} SameAscent(a: seq<int>, b: seq<int>, log: seq<int>)
    requires Ascends(a, log) && Ascends(b, log) && forall x :: x in a <==> x in b
    ensures a == b
    decreases |a|
  {
    hide Ascends;
    if a != [] && b != [] {
      var x, y := a[|a| - 1], b[|b| - 1];
      InitAscends(a, log);
      InitAscends(b, log);
      LastIsGreatest(a, log, y);
      LastIsGreatest(b, log, x);
      assert x == log[First(log, x)] == y;
      SameInits(a, b, log);
      SameAscent(Init(a), Init(b), log);
    } else {
      SomeMember(a);
      SomeMember(b);
    }
  }

  lemma SameInits(a: seq<int>, b: seq<int>, log: seq<int>)
    requires Ascends(a, log) && Ascends(b, log) && (forall x :: x in a <==> x in b)
    requires a != [] && b != [] && a[|a| - 1] == b[|b| - 1]
    ensures forall x :: x in Init(a) <==> x in Init(b)
  {
    hide Ascends;
    forall x ensures x in Init(a) <==> x in Init(b) {
      if x in a {
        LastIsGreatest(a, log, x);
        LastIsGreatest(b, log, x);
      }
    }
  }

  lemma SomeMember(list: seq<int>)
    ensures list != [] ==> exists x :: x in list
  {
    if list != [] {
      var x := list[0];
      assert x in list;
    }
  }

  /** There is only one such list. */
  lemma FirstsUnique(a: seq<int>, b: seq<int>, log: seq<int>, keep: int -> bool)
    requires IsFirsts(a, log, keep) && IsFirsts(b, log, keep)
    ensures a == b
  {
    SameAscent(a, b, log);
  }

  // ----- the dirty list -----------------------------------------------------

  /** The ids an operation touches, in the order it touches them. */
  ghost function Touched(sc: Schema, t: Tab, op: Op): seq<int>
  {
    match op
    case EmplaceOp(obj) => if EmplaceError(sc, t, obj).None? then [t.nextId] else []
    case ModifyOp(id, updated) => if ModifyError(sc, t, id, updated).None? then [id] else []
    case RemoveOp(id) => if id in t.rows then [id] else []
    case RewriteOp(id, _, _, updated) => if ModifyError(sc, t, id, updated).None? then [id] else []
    case UndoOp(order) => if t.undo.Bottom? then [] else Dropped(t.undo.top.oldNextId, t.nextId) + order
    case _ => []
  }

  /** The ids from one next id up to another, ascending. */
  function Dropped(from: nat, next: nat): (ids: seq<int>)
    ensures |ids| == (if from < next then next - from else 0) && forall i :: 0 <= i < |ids| ==> ids[i] == from + i
  {
    seq(if from < next then next - from else 0, i => from + i)
  }

  lemma Marked(dirty: seq<int>, log: seq<int>, id: int)
    requires IsFirsts(dirty, log, ANY)
    ensures IsFirsts(MarkDirty(dirty, id), log + [id], ANY)
  {
    FirstsNext(dirty, log, ANY, id);
  }

  lemma {:induction false} MarkedInOrder(dirty: seq<int>, log: seq<int>, ids: seq<int>)
    requires IsFirsts(dirty, log, ANY)
    ensures IsFirsts(MarkAll(dirty, ids), log + ids, ANY)
    decreases |ids|
  {
    hide IsFirsts, MarkDirty;
    if ids == [] {
      assert log + ids == log;
    } else {
      var init, last := ids[..|ids| - 1], ids[|ids| - 1];
      MarkedInOrder(dirty, log, init);
      Marked(MarkAll(dirty, init), log + init, last);
      assert log + ids == (log + init) + [last];
    }
  }

  lemma UndoTouches(t: Tab, order: seq<int>, log: seq<int>)
    requires IsFirsts(t.dirty, log, ANY) && t.undo.Push?
    ensures IsFirsts(UndoSession(t, order).dirty, log + (Dropped(t.undo.top.oldNextId, t.nextId) + order), ANY)
  {
    hide IsFirsts, MarkAll, Restore, BelowOffset;
    var s := t.undo.top;
    var created := Dropped(s.oldNextId, t.nextId);
    MarkedInOrder(t.dirty, log, created);
    MarkedInOrder(MarkAll(t.dirty, created), log + created, order);
    assert created == Range(s.oldNextId, t.nextId);
    assert log + created + order == log + (created + order);
  }

  lemma NothingTouched(dirty: seq<int>, log: seq<int>)
    requires IsFirsts(dirty, log, ANY)
    ensures IsFirsts(dirty, log + [], ANY)
  {
    assert log + [] == log;
  }

  /**
    The dirty list is the touched ids in the order they were first touched, and so it
    is after every operation but a flush.
   */
  lemma StepTouches(sc: Schema, t: Tab, op: Op, log: seq<int>)
    requires CanStep(t, op) && !op.FlushOp? && IsFirsts(t.dirty, log, ANY)
    ensures IsFirsts(TabStep(sc, t, op).dirty, log + Touched(sc, t, op), ANY)
  {
    hide IsFirsts, MarkDirty, MarkAll, Restore, Conflict, FindFree, FreeInside, Write, Merge, FreedOutside, BelowOffset;
    NothingTouched(t.dirty, log);
    match op
    case EmplaceOp(_) => Marked(t.dirty, log, t.nextId);
    case ModifyOp(id, _) => Marked(t.dirty, log, id);
    case RemoveOp(id) => Marked(t.dirty, log, id);
    case RewriteOp(id, was, bytes, updated) =>
      Marked(t.dirty, log, id);
      RewriteSees(sc, t, op);
    case UndoOp(order) =>
      if t.undo.Push? {
        UndoTouches(t, order, log);
      }
    case _ =>
  }

  lemma RewriteSees(sc: Schema, t: Tab, op: Op)
    requires CanStep(t, op) && op.RewriteOp?
    ensures var t' := Alloc(FreeBlob(t, op.was), op.bytes);
            && t'.rows == t.rows && t'.dirty == t.dirty
            && ModifyError(sc, t', op.id, op.updated) == ModifyError(sc, t, op.id, op.updated)
  {
    hide FindFree, Write, Conflict;
  }

  /** An operation but a flush only adds at the end. */
  lemma DirtyGrows(sc: Schema, t: Tab, op: Op)
    requires CanStep(t, op) && !op.FlushOp?
    ensures t.dirty <= TabStep(sc, t, op).dirty
  {
    hide MarkAll, Restore, Conflict, FindFree, FreeInside, Write, Merge, FreedOutside, BelowOffset;
    if op.UndoOp? && t.undo.Push? {
      var created := Range(t.undo.top.oldNextId, t.nextId);
      MarkedAtEnd(t.dirty, created);
      MarkedAtEnd(MarkAll(t.dirty, created), op.order);
    }
    if op.RewriteOp? {
      RewriteSees(sc, t, op);
    }
  }

  lemma {:induction false} MarkedAtEnd(dirty: seq<int>, ids: seq<int>)
    ensures dirty <= MarkAll(dirty, ids)
    decreases |ids|
  {
    if ids != [] {
      MarkedAtEnd(dirty, ids[..|ids| - 1]);
    }
  }

  // ----- patches ------------------------------------------------------------

  /** Only an allocation makes patches, and only a flush forgets them or moves the flushed length. */
  lemma PatchesStay(sc: Schema, t: Tab, op: Op)
    requires CanStep(t, op) && !op.FlushOp? && !op.AllocOp? && !op.RewriteOp?
    ensures var t' := TabStep(sc, t, op); t'.patches == t.patches && t'.flushed == t.flushed
  {
    hide MarkAll, Restore, Conflict, Merge, FreedOutside, BelowOffset;
  }
}
