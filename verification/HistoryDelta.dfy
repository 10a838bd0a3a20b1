/**
  State-history deltas: what a table's innermost session changed, as rows for a
  consumer that keeps the serialized rows by id, blobs included. Applying a block's delta to the
  view from before the session gives the view after it.
 */
module HistoryDelta {
  import opened ArenaTypes
  import opened TableSpec
  import opened RowHistory
  import opened BlobSafety
  import opened TableOps
  import opened Refinement
  import opened Runs
  import opened TouchOrder
  import opened Wire
  import opened Recovery
  import opened TableClass
  import opened PagedPrimary
  import opened TablePersistence
  import FreeList

  /** One emitted row: `present` is false for a removal. Consumers see `present` and `payload`. */
  datatype Emit = Emit(id: int, present: bool, payload: Bytes)

  /** Whether a modification is worth emitting, and how rows are serialized at this moment. */
  datatype Emitter = Emitter(material: (Row, Row) -> bool, ser: Row -> Bytes)

  // ----- what is emitted ----------------------------------------------------

  /** The modified rows that are still there and pass the rule, latest first-touch first. */
  function ModifiedPart(s: Session, rows: Rows, e: Emitter, order: seq<int>): seq<Emit>
    requires forall i :: 0 <= i < |order| ==> order[i] in s.modified
  {
    if order == [] then []
    else
      var n := |order| - 1;
      var id := order[n];
      (if id in rows && e.material(s.modified[id], rows[id]) then [Emit(id, true, e.ser(rows[id]))] else [])
      + ModifiedPart(s, rows, e, order[..n])
  }

  /** The removed rows, latest first-touch first. */
  function RemovedPart(s: Session, e: Emitter, order: seq<int>): seq<Emit>
    requires forall i :: 0 <= i < |order| ==> order[i] in s.removed
  {
    if order == [] then []
    else
      var n := |order| - 1;
      [Emit(order[n], false, e.ser(s.removed[order[n]]))] + RemovedPart(s, e, order[..n])
  }

  /** The live rows with ids from `from` up to `n`, in id order. */
  function CreatedPart(rows: Rows, e: Emitter, from: nat, n: nat): seq<Emit>
  {
    if n <= from then []
    else CreatedPart(rows, e, from, n - 1) + (if n - 1 in rows then [Emit(n - 1, true, e.ser(rows[n - 1]))] else [])
  }

  ghost predicate Ordered(s: Session)
  {
    && (forall i :: 0 <= i < |s.modifiedOrder| ==> s.modifiedOrder[i] in s.modified)
    && (forall i :: 0 <= i < |s.removedOrder| ==> s.removedOrder[i] in s.removed)
  }

  function Changes(s: Session, rows: Rows, next: nat, e: Emitter): seq<Emit>
    requires Ordered(s)
  {
    ModifiedPart(s, rows, e, s.modifiedOrder) + RemovedPart(s, e, s.removedOrder)
        + CreatedPart(rows, e, s.oldNextId, next)
  }

  // ----- in which order -----------------------------------------------------

  /** Modified rows come first, then removals, then new rows. */
  function Rank(e: Emit, oldNextId: nat): nat
  {
    if !e.present then 1 else if e.id < oldNextId then 0 else 2
  }

  /** `a` stands before `b`: the later first touch first among modified rows and among removals, new rows by id. */
  ghost predicate Precedes(a: Emit, b: Emit, oldNextId: nat, touched: seq<int>, removed: seq<int>)
  {
    && a.id != b.id
    && Rank(a, oldNextId) <= Rank(b, oldNextId)
    && (Rank(a, oldNextId) == Rank(b, oldNextId) ==>
        match Rank(a, oldNextId)
        case 0 => First(touched, b.id) < First(touched, a.id)
        case 1 => First(removed, b.id) < First(removed, a.id)
        case _ => a.id < b.id)
  }

  ghost predicate Arranged(emits: seq<Emit>, oldNextId: nat, touched: seq<int>, removed: seq<int>)
  {
    forall i, j :: 0 <= i < j < |emits| ==> Precedes(emits[i], emits[j], oldNextId, touched, removed)
  }

  ghost predicate Emitted(emits: seq<Emit>, id: int, present: bool)
  {
    exists i :: 0 <= i < |emits| && emits[i].id == id && emits[i].present == present
  }

  /**
    The rows emitted, with their serialized rows: as removed those that are gone, as
    present the new ones and those touched that pass the rule, and no others.
   */
  ghost predicate SaysExactly(emits: seq<Emit>, before: Rows, now: Rows, touched: seq<int>, gone: Rows, e: Emitter)
  {
    && (forall id :: Emitted(emits, id, false) <==> id in before && id !in now)
    && (forall id :: Emitted(emits, id, true) <==>
          id in now && (id !in before || (id in touched && e.material(before[id], now[id]))))
    && (forall i :: 0 <= i < |emits| ==>
          var rows := if emits[i].present then now else gone;
          emits[i].id in rows && emits[i].payload == e.ser(rows[emits[i].id]))
  }

  /** The delta says exactly what the innermost session changed, in the order its rows were first touched. */
  ghost predicate InItsOrder(emits: seq<Emit>, t: Tab, e: Emitter)
    requires t.undo.Push?
  {
    var s := t.undo.top;
    && Arranged(emits, s.oldNextId, s.modifiedOrder, s.removedOrder)
    && SaysExactly(emits, Restore(s, t.rows), t.rows, s.modifiedOrder, s.removed, e)
  }

  lemma ArrangedJoin(a: seq<Emit>, b: seq<Emit>, oldNextId: nat, touched: seq<int>, removed: seq<int>)
    requires Arranged(a, oldNextId, touched, removed) && Arranged(b, oldNextId, touched, removed)
    requires forall x, y :: x in a && y in b ==> Precedes(x, y, oldNextId, touched, removed)
    ensures Arranged(a + b, oldNextId, touched, removed)
  {
    hide Precedes;
    forall i, j | 0 <= i < j < |a + b| ensures Precedes((a + b)[i], (a + b)[j], oldNextId, touched, removed) {
      assert i < |a| <= j ==> (a + b)[i] in a && (a + b)[j] in b;
    }
  }

  /** The emitted ids stand in `order`, the last of it first. */
  ghost predicate Backwards(part: seq<Emit>, order: seq<int>)
  {
    && (forall i :: 0 <= i < |part| ==> part[i].id in order)
    && (forall i, j :: 0 <= i < j < |part| ==> First(order, part[j].id) < First(order, part[i].id))
  }

  lemma BackwardsMore(part: seq<Emit>, order: seq<int>, id: int)
    requires Backwards(part, order)
    ensures Backwards(part, order + [id])
    ensures forall i :: 0 <= i < |part| ==> First(order + [id], part[i].id) < |order|
  {
    hide First;
    forall i | 0 <= i < |part| ensures First(order + [id], part[i].id) == First(order, part[i].id) < |order| {
      FirstIn(order, [id], part[i].id);
    }
  }

  lemma BackwardsNext(part: seq<Emit>, order: seq<int>, id: int, head: Emit)
    requires Backwards(part, order) && id !in order && head.id == id
    ensures Backwards(part, order + [id]) && Backwards([head] + part, order + [id])
  {
    hide First;
    BackwardsMore(part, order, id);
    FirstIn(order, [id], id);
    var all := [head] + part;
    forall i, j | 0 <= i < j < |all| ensures First(order + [id], all[j].id) < First(order + [id], all[i].id) {
      assert all[j] == part[j - 1];
      assert i > 0 ==> all[i] == part[i - 1];
    }
  }

  lemma {:induction false} ModifiedBackwards(s: Session, rows: Rows, e: Emitter, order: seq<int>)
    requires forall i :: 0 <= i < |order| ==> order[i] in s.modified
    requires forall i, j :: 0 <= i < j < |order| ==> order[i] != order[j]
    ensures Backwards(ModifiedPart(s, rows, e, order), order)
    decreases |order|
  {
    hide Backwards;
    if order == [] {
      NoneBackwards(order);
    } else {
      var init, id := order[..|order| - 1], order[|order| - 1];
      assert order == init + [id] && id !in init;
      ModifiedBackwards(s, rows, e, init);
      var rest, part := ModifiedPart(s, rows, e, init), ModifiedPart(s, rows, e, order);
      var head := if id in rows then Emit(id, true, e.ser(rows[id])) else Emit(id, true, []);
      BackwardsNext(rest, init, id, head);
      assert part == rest || part == [head] + rest;
    }
  }

  lemma NoneBackwards(order: seq<int>)
    ensures Backwards([], order)
  {
  }

  lemma {:induction false} RemovedBackwards(s: Session, e: Emitter, order: seq<int>)
    requires forall i :: 0 <= i < |order| ==> order[i] in s.removed
    requires forall i, j :: 0 <= i < j < |order| ==> order[i] != order[j]
    ensures Backwards(RemovedPart(s, e, order), order)
    decreases |order|
  {
    hide Backwards;
    if order == [] {
      NoneBackwards(order);
    } else {
      var init, id := order[..|order| - 1], order[|order| - 1];
      assert order == init + [id] && id !in init;
      RemovedBackwards(s, e, init);
      BackwardsNext(RemovedPart(s, e, init), init, id, Emit(id, false, e.ser(s.removed[id])));
    }
  }

  lemma {:induction false} ModifiedMembers(s: Session, rows: Rows, e: Emitter, order: seq<int>, x: Emit)
    requires forall i :: 0 <= i < |order| ==> order[i] in s.modified
    ensures x in ModifiedPart(s, rows, e, order) <==>
            x.id in order && x.id in rows && e.material(s.modified[x.id], rows[x.id])
            && x == Emit(x.id, true, e.ser(rows[x.id]))
    decreases |order|
  {
    if order != [] {
      assert order == order[..|order| - 1] + [order[|order| - 1]];
      ModifiedMembers(s, rows, e, order[..|order| - 1], x);
    }
  }

  lemma {:induction false} RemovedMembers(s: Session, e: Emitter, order: seq<int>, x: Emit)
    requires forall i :: 0 <= i < |order| ==> order[i] in s.removed
    ensures x in RemovedPart(s, e, order) <==> x.id in order && x == Emit(x.id, false, e.ser(s.removed[x.id]))
    decreases |order|
  {
    if order != [] {
      assert order == order[..|order| - 1] + [order[|order| - 1]];
      RemovedMembers(s, e, order[..|order| - 1], x);
    }
  }

  lemma {:induction false} CreatedOrdered(rows: Rows, e: Emitter, from: nat, n: nat)
    ensures var part := CreatedPart(rows, e, from, n);
            && (forall i, j :: 0 <= i < j < |part| ==> part[i].id < part[j].id)
            && (forall x :: x in part <==> from <= x.id < n && x.id in rows && x == Emit(x.id, true, e.ser(rows[x.id])))
    decreases n
  {
    if n > from {
      CreatedOrdered(rows, e, from, n - 1);
      var rest := CreatedPart(rows, e, from, n - 1);
      forall i | 0 <= i < |rest| ensures rest[i].id < n - 1 {
        assert rest[i] in rest;
      }
    }
  }

  // ----- what a consumer does with it ---------------------------------------

  type View = map<int, Bytes>

  function Apply(view: View, emits: seq<Emit>): View
  {
    if emits == [] then view
    else
      var n := |emits| - 1;
      var before := Apply(view, emits[..n]);
      if emits[n].present then before[emits[n].id := emits[n].payload] else before - {emits[n].id}
  }

  function Serialized(rows: Rows, ser: Row -> Bytes): View
  {
    map id | id in rows :: ser(rows[id])
  }

  function At(view: View, id: int): Option<Bytes>
  {
    if id in view then Some(view[id]) else None
  }

  /** The last word on an id, if the delta has any. */
  function LastOn(emits: seq<Emit>, id: int): Option<Emit>
  {
    if emits == [] then None
    else if emits[|emits| - 1].id == id then Some(emits[|emits| - 1])
    else LastOn(emits[..|emits| - 1], id)
  }

  lemma {:induction false} ApplyAt(view: View, emits: seq<Emit>, id: int)
    ensures At(Apply(view, emits), id) ==
            match LastOn(emits, id)
            case None => At(view, id)
            case Some(last) => if last.present then Some(last.payload) else None
  {
    if emits != [] {
      ApplyAt(view, emits[..|emits| - 1], id);
    }
  }

  lemma {:induction false} LastOnJoin(a: seq<Emit>, b: seq<Emit>, id: int)
    ensures LastOn(a + b, id) == if LastOn(b, id).Some? then LastOn(b, id) else LastOn(a, id)
    decreases |b|
  {
    if b == [] {
      assert a + b == a;
    } else {
      assert (a + b)[..|a + b| - 1] == a + b[..|b| - 1];
      LastOnJoin(a, b[..|b| - 1], id);
    }
  }

  lemma {:induction false} ModifiedLast(s: Session, rows: Rows, e: Emitter, order: seq<int>, id: int)
    requires forall i :: 0 <= i < |order| ==> order[i] in s.modified
    ensures LastOn(ModifiedPart(s, rows, e, order), id) ==
            if id in order && id in rows && e.material(s.modified[id], rows[id])
            then Some(Emit(id, true, e.ser(rows[id]))) else None
    decreases |order|
  {
    if order != [] {
      var n := |order| - 1;
      var last := order[n];
      var head := if last in rows && e.material(s.modified[last], rows[last]) then [Emit(last, true, e.ser(rows[last]))]
          else [];
      ModifiedLast(s, rows, e, order[..n], id);
      LastOnJoin(head, ModifiedPart(s, rows, e, order[..n]), id);
      assert head != [] ==> head[..|head| - 1] == [];
      assert order == order[..n] + [last];
    }
  }

  lemma {:induction false} RemovedLast(s: Session, e: Emitter, order: seq<int>, id: int)
    requires forall i :: 0 <= i < |order| ==> order[i] in s.removed
    ensures LastOn(RemovedPart(s, e, order), id) ==
            if id in order then Some(Emit(id, false, e.ser(s.removed[id]))) else None
    decreases |order|
  {
    if order != [] {
      var n := |order| - 1;
      var last := order[n];
      var head := [Emit(last, false, e.ser(s.removed[last]))];
      RemovedLast(s, e, order[..n], id);
      LastOnJoin(head, RemovedPart(s, e, order[..n]), id);
      assert head[..|head| - 1] == [];
      assert order == order[..n] + [last];
    }
  }

  lemma {:induction false} CreatedLast(rows: Rows, e: Emitter, from: nat, n: nat, id: int)
    ensures LastOn(CreatedPart(rows, e, from, n), id) ==
            if from <= id < n && id in rows then Some(Emit(id, true, e.ser(rows[id]))) else None
    decreases n
  {
    if from < n {
      var tail := if n - 1 in rows then [Emit(n - 1, true, e.ser(rows[n - 1]))] else [];
      CreatedLast(rows, e, from, n - 1, id);
      LastOnJoin(CreatedPart(rows, e, from, n - 1), tail, id);
      assert tail != [] ==> tail[..|tail| - 1] == [];
    }
  }

  // ----- the law ------------------------------------------------------------

  /** A row that was there before the session, is there now, and of which the delta says nothing. */
  ghost predicate Unsaid(s: Session, rows: Rows, material: (Row, Row) -> bool, id: int)
  {
    id in rows && id < s.oldNextId && (id in s.modified ==> !material(s.modified[id], rows[id]))
  }

  lemma SerializedAt(rows: Rows, ser: Row -> Bytes, id: int)
    ensures At(Serialized(rows, ser), id) == if id in rows then Some(ser(rows[id])) else None
  {
  }

  lemma ListedIn(order: seq<int>, m: Rows, i: nat)
    requires Lists(order, m) && i < |order|
    ensures order[i] in m
  {
    assert order[i] in order;
  }

  lemma SessionOrdered(s: Session, nextId: nat, rows: Rows)
    requires SessionOK(s, nextId, rows)
    ensures Ordered(s)
  {
    forall i | 0 <= i < |s.modifiedOrder| ensures s.modifiedOrder[i] in s.modified {
      ListedIn(s.modifiedOrder, s.modified, i);
    }
    forall i | 0 <= i < |s.removedOrder| ensures s.removedOrder[i] in s.removed {
      ListedIn(s.removedOrder, s.removed, i);
    }
  }

  /** At a row the delta says nothing of, a consumer keeps what it had; elsewhere it is right. */
  lemma DeltaAt(s: Session, rows: Rows, next: nat, e: Emitter, before: View, id: int)
    requires SessionOK(s, next, rows) && (forall x :: x in rows ==> 0 <= x < next) && Ordered(s)
    requires before.Keys == Restore(s, rows).Keys
    ensures At(Apply(before, Changes(s, rows, next, e)), id) ==
            if Unsaid(s, rows, e.material, id) then At(before, id) else At(Serialized(rows, e.ser), id)
  {
    hide Apply, Serialized, LastOn, ModifiedPart, RemovedPart, CreatedPart, Restore;
    var modified, removed := ModifiedPart(s, rows, e, s.modifiedOrder), RemovedPart(s, e, s.removedOrder);
    var created := CreatedPart(rows, e, s.oldNextId, next);
    ApplyAt(before, Changes(s, rows, next, e), id);
    LastOnJoin(modified + removed, created, id);
    LastOnJoin(modified, removed, id);
    ModifiedLast(s, rows, e, s.modifiedOrder, id);
    RemovedLast(s, e, s.removedOrder, id);
    CreatedLast(rows, e, s.oldNextId, next, id);
    SerializedAt(rows, e.ser, id);
    RestoredAt(s, rows, id);
  }

  lemma RestoredAt(s: Session, rows: Rows, id: int)
    ensures id in Restore(s, rows) <==> id in s.modified || id in s.removed || (id in rows && id < s.oldNextId)
    ensures id in s.modified ==> Restore(s, rows)[id] == s.modified[id]
    ensures id !in s.modified && id in s.removed ==> Restore(s, rows)[id] == s.removed[id]
    ensures id !in s.modified && id !in s.removed && id in rows && id < s.oldNextId ==> Restore(s, rows)[id] == rows[id]
  {
  }

  lemma ViewsEqual(a: View, b: View)
    requires forall id: int :: At(a, id) == At(b, id)
    ensures a == b
  {
    forall id: int ensures id in a <==> id in b {
      assert At(a, id) == At(b, id);
    }
    forall id | id in a ensures a[id] == b[id] {
      assert At(a, id) == At(b, id);
    }
  }

  /** A delta arrives at the rows as they are exactly when the consumer's rows it says nothing of are right. */
  lemma DeltaExact(s: Session, rows: Rows, next: nat, e: Emitter, before: View)
    requires SessionOK(s, next, rows) && (forall x :: x in rows ==> 0 <= x < next)
    requires before.Keys == Restore(s, rows).Keys
    ensures Ordered(s)
    ensures Apply(before, Changes(s, rows, next, e)) == Serialized(rows, e.ser) <==>
            forall id :: Unsaid(s, rows, e.material, id) ==> At(before, id) == At(Serialized(rows, e.ser), id)
  {
    hide Apply, Serialized, Changes, Restore, Unsaid, At;
    SessionOrdered(s, next, rows);
    var after, want := Apply(before, Changes(s, rows, next, e)), Serialized(rows, e.ser);
    forall id: int ensures At(after, id) == if Unsaid(s, rows, e.material, id) then At(before, id) else At(want, id) {
      DeltaAt(s, rows, next, e, before, id);
    }
    if forall id :: Unsaid(s, rows, e.material, id) ==> At(before, id) == At(want, id) {
      forall id: int ensures At(after, id) == At(want, id) {
      }
      ViewsEqual(after, want);
    }
  }

  // ----- the whole delta in its order ---------------------------------------

  lemma PartsRanked(s: Session, rows: Rows, next: nat, e: Emitter)
    requires SessionOK(s, next, rows) && Ordered(s)
    ensures forall x :: x in ModifiedPart(s, rows, e, s.modifiedOrder) ==> Rank(x, s.oldNextId) == 0 && x.id in rows
    ensures forall x :: x in RemovedPart(s, e, s.removedOrder) ==>
              Rank(x, s.oldNextId) == 1 && x.id !in rows && x.id < s.oldNextId
    ensures forall x :: x in CreatedPart(rows, e, s.oldNextId, next) ==> Rank(x, s.oldNextId) == 2
  {
    forall x | x in ModifiedPart(s, rows, e, s.modifiedOrder) ensures Rank(x, s.oldNextId) == 0 && x.id in rows {
      ModifiedMembers(s, rows, e, s.modifiedOrder, x);
    }
    forall x | x in RemovedPart(s, e, s.removedOrder)
      ensures Rank(x, s.oldNextId) == 1 && x.id !in rows && x.id < s.oldNextId
    {
      RemovedMembers(s, e, s.removedOrder, x);
    }
    CreatedOrdered(rows, e, s.oldNextId, next);
  }

  lemma ChangesArranged(s: Session, rows: Rows, next: nat, e: Emitter)
    requires SessionOK(s, next, rows) && Ordered(s)
    ensures Arranged(Changes(s, rows, next, e), s.oldNextId, s.modifiedOrder, s.removedOrder)
  {
    hide ModifiedPart, RemovedPart, CreatedPart;
    var modified, removed := ModifiedPart(s, rows, e, s.modifiedOrder), RemovedPart(s, e, s.removedOrder);
    var created, touched, gone := CreatedPart(rows, e, s.oldNextId, next), s.modifiedOrder, s.removedOrder;
    PartsRanked(s, rows, next, e);
    ModifiedBackwards(s, rows, e, touched);
    RemovedBackwards(s, e, gone);
    CreatedOrdered(rows, e, s.oldNextId, next);
    BackwardsArranged(modified, s.oldNextId, touched, gone);
    BackwardsArranged(removed, s.oldNextId, touched, gone);
    AscendingArranged(created, s.oldNextId, touched, gone);
    hide SessionOK, Backwards, Arranged, First;
    ArrangedJoin(modified, removed, s.oldNextId, touched, gone);
    ArrangedJoin(modified + removed, created, s.oldNextId, touched, gone);
  }

  lemma BackwardsArranged(part: seq<Emit>, oldNextId: nat, touched: seq<int>, removed: seq<int>)
    requires (Backwards(part, touched) && forall x :: x in part ==> Rank(x, oldNextId) == 0)
             || (Backwards(part, removed) && forall x :: x in part ==> Rank(x, oldNextId) == 1)
    ensures Arranged(part, oldNextId, touched, removed)
  {
    forall i, j | 0 <= i < j < |part| ensures Precedes(part[i], part[j], oldNextId, touched, removed) {
      assert part[i] in part && part[j] in part;
    }
  }

  lemma AscendingArranged(part: seq<Emit>, oldNextId: nat, touched: seq<int>, removed: seq<int>)
    requires forall i, j :: 0 <= i < j < |part| ==> part[i].id < part[j].id
    requires forall x :: x in part ==> Rank(x, oldNextId) == 2
    ensures Arranged(part, oldNextId, touched, removed)
  {
    forall i, j | 0 <= i < j < |part| ensures Precedes(part[i], part[j], oldNextId, touched, removed) {
      assert part[i] in part && part[j] in part;
    }
  }

  lemma EmittedIs(emits: seq<Emit>, id: int, present: bool)
    ensures Emitted(emits, id, present) <==> exists x :: x in emits && x.id == id && x.present == present
  {
    if Emitted(emits, id, present) {
      var i :| 0 <= i < |emits| && emits[i].id == id && emits[i].present == present;
      assert emits[i] in emits;
    }
  }

  /** What is in the delta, row by row. */
  lemma ChangesMembers(s: Session, rows: Rows, next: nat, e: Emitter, x: Emit)
    requires SessionOK(s, next, rows) && Ordered(s) && forall id :: id in rows ==> 0 <= id < next
    ensures x in Changes(s, rows, next, e) <==>
            if x.present
            then && x.id in rows && x.payload == e.ser(rows[x.id])
                 && (x.id >= s.oldNextId || (x.id in s.modified && e.material(s.modified[x.id], rows[x.id])))
            else x.id in s.removed && x.payload == e.ser(s.removed[x.id])
  {
    hide ModifiedPart, RemovedPart, CreatedPart;
    ModifiedMembers(s, rows, e, s.modifiedOrder, x);
    RemovedMembers(s, e, s.removedOrder, x);
    CreatedOrdered(rows, e, s.oldNextId, next);
  }

  lemma ChangesExact(s: Session, rows: Rows, next: nat, e: Emitter)
    requires SessionOK(s, next, rows) && Ordered(s) && forall id :: id in rows ==> 0 <= id < next
    ensures SaysExactly(Changes(s, rows, next, e), Restore(s, rows), rows, s.modifiedOrder, s.removed, e)
  {
    hide Changes;
    var emits, before := Changes(s, rows, next, e), Restore(s, rows);
    forall x: Emit
      ensures x in emits <==>
              if x.present
              then && x.id in rows && x.payload == e.ser(rows[x.id])
                   && (x.id >= s.oldNextId || (x.id in s.modified && e.material(s.modified[x.id], rows[x.id])))
              else x.id in s.removed && x.payload == e.ser(s.removed[x.id])
    {
      ChangesMembers(s, rows, next, e, x);
    }
    forall id: int ensures Emitted(emits, id, false) <==> id in before && id !in rows {
      EmittedIs(emits, id, false);
      if id in s.removed {
        assert Emit(id, false, e.ser(s.removed[id])) in emits;
      }
    }
    forall id: int
      ensures Emitted(emits, id, true) <==>
              id in rows && (id !in before || (id in s.modifiedOrder && e.material(before[id], rows[id])))
    {
      EmittedIs(emits, id, true);
      if id in rows {
        assert Emit(id, true, e.ser(rows[id])) in emits <==>
               id >= s.oldNextId || (id in s.modified && e.material(s.modified[id], rows[id]));
      }
    }
    forall i | 0 <= i < |emits|
      ensures var all := if emits[i].present then rows else s.removed;
              emits[i].id in all && emits[i].payload == e.ser(all[emits[i].id])
    {
      assert emits[i] in emits;
    }
  }

  // ----- rows and their blobs -----------------------------------------------

  /**
    Which modifications are emitted, and how a row with the bytes of its blobs is
    serialized: `was` before the session and `now` in the delta. The two differ
    in the names of other tables' rows that a serialized row shows.
   */
  datatype Rules = Rules(material: (Row, Row) -> bool, was: (Row, Blobs) -> Bytes, now: (Row, Blobs) -> Bytes)

  function Named(store: Blobs, refs: multiset<BlobRef>): Blobs
  {
    map r | r in store && r in refs :: store[r]
  }

  /** The serialized rows of a table as its observer sees them. */
  ghost function ViewOf(sc: Schema, o: Obs, ser: (Row, Blobs) -> Bytes): View
  {
    map id | id in o.rows :: ser(o.rows[id], Named(o.store, sc.refs(o.rows[id])))
  }

  /** Rows are serialized with the bytes that the arena holds at their spans. */
  function EmitterOf(sc: Schema, blobs: seq<Byte>, rules: Rules): Emitter
  {
    Emitter(rules.material, row => rules.now(row, Contents(blobs, sc.refs(row))))
  }

  lemma LiveBytes(sc: Schema, core: Core, held: multiset<BlobRef>, id: int)
    requires id in core.rows
    ensures Named(Observe(sc, core, held).store, sc.refs(core.rows[id])) == Contents(core.blobs, sc.refs(core.rows[id]))
  {
    RefsOfContains(sc, core.rows, id);
  }

  /**
    Until its session ends, the arena holds the bytes of every row there was when the
    session started, even of a removed one.
   */
  lemma HeldBytes(sc: Schema, c: Config, id: int)
    requires Inv(sc, c) && c.t.undo.Push? && id in Restore(c.t.undo.top, c.t.rows)
    ensures AbsOf(sc, c).saved.Push? && id in AbsOf(sc, c).saved.top.rows
    ensures var o := AbsOf(sc, c).saved.top;
            o.rows == Restore(c.t.undo.top, c.t.rows)
                && Named(o.store, sc.refs(o.rows[id])) == Contents(c.t.blobs, sc.refs(o.rows[id]))
  {
    hide Inv, Restore, Observe, Contents, Named;
    var core := Back(CoreOf(c.t), c.t.undo.top);
    StartRows(sc, c);
    LiveBytes(sc, core, multiset{}, id);
    SpansBelow(sc, c, id);
    ReadFromStart(c.t.blobs, c.t.undo.top.oldBlobLen, sc.refs(core.rows[id]));
  }

  lemma ReadFromStart(blobs: seq<Byte>, len: nat, refs: multiset<BlobRef>)
    requires forall r :: r in refs ==> r.off + r.len <= |Truncate(blobs, len)|
    ensures Contents(Truncate(blobs, len), refs) == Contents(blobs, refs)
  {
    forall r | r in refs ensures Read(Truncate(blobs, len), r) == Read(blobs, r) {
    }
  }

  lemma SpansBelow(sc: Schema, c: Config, id: int)
    requires Inv(sc, c) && c.t.undo.Push? && id in Restore(c.t.undo.top, c.t.rows)
    ensures var core := Back(CoreOf(c.t), c.t.undo.top);
            forall r :: r in sc.refs(core.rows[id]) ==> r.off + r.len <= |core.blobs|
  {
    hide Restore, RowInv;
    var core := Back(CoreOf(c.t), c.t.undo.top);
    assert BlobStack(sc, core, multiset{}, c.t.undo.below, c.t.patches, c.t.flushed);
    RefsOfContains(sc, core.rows, id);
    forall r | r in sc.refs(core.rows[id]) ensures r.off + r.len <= |core.blobs| {
      assert r in Spans(sc, core, multiset{}, c.t.undo.below);
    }
  }

  /** Every row the delta says nothing of serializes now as it did before the session. */
  ghost predicate SaysAllChanges(sc: Schema, t: Tab, rules: Rules)
    requires t.undo.Push?
  {
    forall id :: Unsaid(t.undo.top, t.rows, rules.material, id) && id in Restore(t.undo.top, t.rows) ==>
                 var before := Restore(t.undo.top, t.rows)[id];
                 rules.was(before, Contents(t.blobs, sc.refs(before)))
                     == rules.now(t.rows[id], Contents(t.blobs, sc.refs(t.rows[id])))
  }

  /** What the innermost session changed, as a delta. */
  ghost function DeltaOf(sc: Schema, t: Tab, rules: Rules): seq<Emit>
    requires t.undo.Push? && Ordered(t.undo.top)
  {
    Changes(t.undo.top, t.rows, t.nextId, EmitterOf(sc, t.blobs, rules))
  }

  /**
    The block's delta turns the view from before the session into the view after
    it exactly when every row it says nothing of serializes as before; for every
    table state a session can be open in, and for serializers that read blobs.
   */
  lemma DeltaTurnsOldIntoNew(sc: Schema, c: Config, rules: Rules)
    requires Inv(sc, c) && c.t.undo.Push?
    ensures Ordered(c.t.undo.top) && AbsOf(sc, c).saved.Push?
    ensures Apply(ViewOf(sc, AbsOf(sc, c).saved.top, rules.was), DeltaOf(sc, c.t, rules))
            == ViewOf(sc, AbsOf(sc, c).cur, rules.now)
            <==> SaysAllChanges(sc, c.t, rules)
  {
    hide Apply, Changes, Restore, BlobStack, PatchesOK, KeysUnique, Observe, Saved, Named, Contents;
    StartRows(sc, c);
    var s, rows, e, before := c.t.undo.top, c.t.rows, EmitterOf(sc, c.t.blobs, rules),
        ViewOf(sc, AbsOf(sc, c).saved.top, rules.was);
    assert before.Keys == Restore(s, rows).Keys;
    DeltaExact(s, rows, c.t.nextId, e, before);
    NewView(sc, c, rules);
    forall id | Unsaid(s, rows, rules.material, id)
      ensures id in Restore(s, rows)
      ensures At(before, id)
              == Some(rules.was(Restore(s, rows)[id], Contents(c.t.blobs, sc.refs(Restore(s, rows)[id]))))
      ensures At(Serialized(rows, e.ser), id) == Some(rules.now(rows[id], Contents(c.t.blobs, sc.refs(rows[id]))))
    {
      RestoredAt(s, rows, id);
      HeldBytes(sc, c, id);
    }
  }

  lemma StartRows(sc: Schema, c: Config)
    requires c.t.undo.Push?
    ensures AbsOf(sc, c).saved.Push? && AbsOf(sc, c).saved.top.rows == Restore(c.t.undo.top, c.t.rows)
  {
    hide Restore;
  }

  lemma NewView(sc: Schema, c: Config, rules: Rules)
    ensures ViewOf(sc, AbsOf(sc, c).cur, rules.now) == Serialized(c.t.rows, EmitterOf(sc, c.t.blobs, rules).ser)
  {
    hide Observe, Saved, Named, Contents;
    ShownRows(sc, c);
    forall id | id in c.t.rows
      ensures Named(AbsOf(sc, c).cur.store, sc.refs(c.t.rows[id])) == Contents(c.t.blobs, sc.refs(c.t.rows[id]))
    {
      LiveBytes(sc, CoreOf(c.t), c.held, id);
    }
  }

  lemma ShownRows(sc: Schema, c: Config)
    ensures AbsOf(sc, c).cur.rows == c.t.rows
  {
  }

  /**
    The removal of a row that the session did not modify first carries the row as it
    was serialized when the session started.
   */
  lemma RemovedAsAtStart(sc: Schema, c: Config, rules: Rules, id: int)
    requires Inv(sc, c) && c.t.undo.Push? && id in c.t.undo.top.removed && id !in c.t.undo.top.modified
    ensures Ordered(c.t.undo.top)
    ensures AbsOf(sc, c).saved.Push? && id in ViewOf(sc, AbsOf(sc, c).saved.top, rules.now)
    ensures LastOn(DeltaOf(sc, c.t, rules), id)
            == Some(Emit(id, false, ViewOf(sc, AbsOf(sc, c).saved.top, rules.now)[id]))
  {
    hide LastOn, ModifiedPart, RemovedPart, CreatedPart, Restore, BlobStack, PatchesOK, KeysUnique, Observe, Saved,
         Named, Contents;
    var s, rows, e := c.t.undo.top, c.t.rows, EmitterOf(sc, c.t.blobs, rules);
    SessionOrdered(s, c.t.nextId, rows);
    RestoredAt(s, rows, id);
    StartRows(sc, c);
    HeldBytes(sc, c, id);
    var modified, removed := ModifiedPart(s, rows, e, s.modifiedOrder), RemovedPart(s, e, s.removedOrder);
    LastOnJoin(modified + removed, CreatedPart(rows, e, s.oldNextId, c.t.nextId), id);
    LastOnJoin(modified, removed, id);
    RemovedLast(s, e, s.removedOrder, id);
    CreatedLast(rows, e, s.oldNextId, c.t.nextId, id);
  }

  /** Rules of a serializer that shows nothing of other tables. */
  function OwnRules(material: (Row, Row) -> bool, ser: (Row, Blobs) -> Bytes): Rules
  {
    Rules(material, ser, ser)
  }

  /** The rule drops only modifications that leave the serialized row as it was. */
  ghost predicate DropsOnlySame(sc: Schema, t: Tab, rules: Rules)
    requires t.undo.Push?
  {
    var s := t.undo.top;
    forall id :: id in s.modified && id in t.rows && !rules.material(s.modified[id], t.rows[id]) ==>
                 rules.was(s.modified[id], Contents(t.blobs, sc.refs(s.modified[id])))
                     == rules.now(t.rows[id], Contents(t.blobs, sc.refs(t.rows[id])))
  }

  /** Rows the session did not touch serialize the same. */
  ghost predicate KeepsUntouched(sc: Schema, t: Tab, rules: Rules)
    requires t.undo.Push?
  {
    forall id :: id in t.rows && id < t.undo.top.oldNextId && id !in t.undo.top.modified ==>
                 rules.was(t.rows[id], Contents(t.blobs, sc.refs(t.rows[id])))
                     == rules.now(t.rows[id], Contents(t.blobs, sc.refs(t.rows[id])))
  }

  lemma SaysAllIf(sc: Schema, t: Tab, rules: Rules)
    requires RowInv(sc, t) && t.undo.Push?
    ensures SaysAllChanges(sc, t, rules) <==> DropsOnlySame(sc, t, rules) && KeepsUntouched(sc, t, rules)
  {
    hide Restore, KeysUnique, Contents;
    var s, rows := t.undo.top, t.rows;
    forall id: int
      ensures id in rows && id < s.oldNextId ==>
              id in Restore(s, rows) && Restore(s, rows)[id] == if id in s.modified then s.modified[id] else rows[id]
    {
      RestoredAt(s, rows, id);
    }
    if SaysAllChanges(sc, t, rules) {
      forall id | id in s.modified && id in rows && !rules.material(s.modified[id], rows[id])
        ensures rules.was(s.modified[id], Contents(t.blobs, sc.refs(s.modified[id])))
                == rules.now(rows[id], Contents(t.blobs, sc.refs(rows[id])))
      {
        assert Unsaid(s, rows, rules.material, id);
      }
      forall id | id in rows && id < s.oldNextId && id !in s.modified
        ensures rules.was(rows[id], Contents(t.blobs, sc.refs(rows[id])))
                == rules.now(rows[id], Contents(t.blobs, sc.refs(rows[id])))
      {
        assert Unsaid(s, rows, rules.material, id);
      }
    }
  }

  // ----- a block ------------------------------------------------------------

  /** A session is opened and `ops` run with it open. */
  ghost predicate Block(sc: Schema, c: Config, ops: seq<Op>)
    requires Inv(sc, c)
  {
    StepRefines(sc, c, StartOp);
    var c1 := Step(sc, c, StartOp);
    Legal(sc, c1, ops) && StaysOpen(sc, c1, ops, 1)
  }

  ghost function AfterBlock(sc: Schema, c: Config, ops: seq<Op>): Config
    requires Inv(sc, c) && Block(sc, c, ops)
  {
    StepRefines(sc, c, StartOp);
    Run(sc, Step(sc, c, StartOp), ops)
  }

  lemma CopyViews(sc: Schema, o: Obs, ser: (Row, Blobs) -> Bytes)
    ensures ViewOf(sc, Copy(sc, o), ser) == ViewOf(sc, o, ser)
  {
    forall id | id in o.rows
      ensures Named(Copy(sc, o).store, sc.refs(o.rows[id])) == Named(o.store, sc.refs(o.rows[id]))
    {
      CopyNames(sc, o, id);
    }
  }

  /**
    When a block ends, the arena still holds the bytes of every row there was before
    it, and undo still leads back to those rows.
   */
  lemma BlockKeepsBytes(sc: Schema, c: Config, ops: seq<Op>)
    requires Inv(sc, c) && Block(sc, c, ops)
    ensures var after := AfterBlock(sc, c, ops);
            && Inv(sc, after) && after.t.undo.Push? && Restore(after.t.undo.top, after.t.rows) == c.t.rows
            && forall id :: id in c.t.rows ==>
               Contents(after.t.blobs, sc.refs(c.t.rows[id])) == Contents(c.t.blobs, sc.refs(c.t.rows[id]))
  {
    hide Inv, Saved, Observe, Copy, Step, AbsStep, Run, Legal, StaysOpen, Restore, Contents, Named;
    StepRefines(sc, c, StartOp);
    var c1, after := Step(sc, c, StartOp), AfterBlock(sc, c, ops);
    StartSaves(sc, AbsOf(sc, c));
    SavedDepth(sc, CoreOf(c1.t), c1.t.undo);
    RunKeepsSaved(sc, c1, ops, 1);
    StartRows(sc, after);
    ShownRows(sc, c);
    CopyRows(sc, AbsOf(sc, c).cur);
    forall id | id in c.t.rows
      ensures Contents(after.t.blobs, sc.refs(c.t.rows[id])) == Contents(c.t.blobs, sc.refs(c.t.rows[id]))
    {
      HeldBytes(sc, after, id);
      LiveBytes(sc, CoreOf(c.t), c.held, id);
      CopyNames(sc, AbsOf(sc, c).cur, id);
    }
  }

  lemma CopyRows(sc: Schema, o: Obs)
    ensures Copy(sc, o).rows == o.rows
  {
  }

  lemma CopyNames(sc: Schema, o: Obs, id: int)
    requires id in o.rows
    ensures Named(Copy(sc, o).store, sc.refs(o.rows[id])) == Named(o.store, sc.refs(o.rows[id]))
  {
    RefsOfContains(sc, o.rows, id);
  }

  /**
    Over every run of a block: the delta at its end takes a consumer from what
    was visible before the block to what is visible after it, exactly when every
    row it says nothing of serializes as before.
   */
  lemma BlockDelta(sc: Schema, c: Config, ops: seq<Op>, rules: Rules)
    requires Inv(sc, c) && Block(sc, c, ops)
    ensures var after := AfterBlock(sc, c, ops);
            && after.t.undo.Push? && Ordered(after.t.undo.top)
            && (Apply(ViewOf(sc, AbsOf(sc, c).cur, rules.was), DeltaOf(sc, after.t, rules))
                == ViewOf(sc, AbsOf(sc, after).cur, rules.now)
                <==> SaysAllChanges(sc, after.t, rules))
  {
    hide Inv, Saved, Observe, Copy, Step, AbsStep, Run, Legal, StaysOpen, ViewOf, Apply, DeltaOf, SaysAllChanges;
    StepRefines(sc, c, StartOp);
    var c1, after := Step(sc, c, StartOp), AfterBlock(sc, c, ops);
    StartSaves(sc, AbsOf(sc, c));
    SavedDepth(sc, CoreOf(c1.t), c1.t.undo);
    RunKeepsSaved(sc, c1, ops, 1);
    DeltaTurnsOldIntoNew(sc, after, rules);
    CopyViews(sc, AbsOf(sc, c).cur, rules.was);
  }

  // ----- collecting ---------------------------------------------------------

  /** The emitted rows of a list of items, those from `from` on. */
  function EmitsFrom(items: seq<(int, Row)>, e: Emitter, from: nat): seq<Emit>
  {
    if items == [] then []
    else
      var n := |items| - 1;
      EmitsFrom(items[..n], e, from) + (if from <= items[n].0 then [Emit(items[n].0, true, e.ser(items[n].1))] else [])
  }

  lemma {:induction false} ListedFrom(rows: Rows, e: Emitter, from: nat, n: nat)
    ensures EmitsFrom(Listing(rows, n), e, from) == CreatedPart(rows, e, from, n)
  {
    if n > 0 {
      ListedFrom(rows, e, from, n - 1);
      var list := Listing(rows, n);
      if n - 1 in rows {
        assert list[..|list| - 1] == Listing(rows, n - 1);
      } else {
        assert list == Listing(rows, n - 1);
      }
    }
  }

  lemma ModifiedStep(s: Session, rows: Rows, e: Emitter, order: seq<int>, i: nat)
    requires i < |order| && forall j :: 0 <= j < |order| ==> order[j] in s.modified
    ensures var id := order[i];
            ModifiedPart(s, rows, e, order[..i + 1]) ==
            (if id in rows && e.material(s.modified[id], rows[id]) then [Emit(id, true, e.ser(rows[id]))] else [])
            + ModifiedPart(s, rows, e, order[..i])
  {
    assert order[..i + 1][..i] == order[..i];
  }

  lemma Regroup(a: seq<Emit>, b: seq<Emit>, c: seq<Emit>)
    ensures (a + b) + c == a + (b + c)
  {
  }

  method CollectModified(t: Table, s: Session, e: Emitter) returns (emits: seq<Emit>)
    requires t.Valid() && Ordered(s)
    ensures emits == ModifiedPart(s, t.View().rows, e, s.modifiedOrder)
  {
    hide Table.Indexed, Table.DirtyOK, FreeList.Ties, ToStack, ModifiedPart, IdsOK, MapOf, AllPagesOK, NothingFrom,
         Table.Shape;
    emits := [];
    ghost var rows, order := t.primary.rows, s.modifiedOrder;
    var i := |s.modifiedOrder|;
    assert order[..i] == order;
    while i > 0
      invariant 0 <= i <= |order|
      invariant emits + ModifiedPart(s, rows, e, order[..i]) == ModifiedPart(s, rows, e, order)
    {
      i := i - 1;
      var id := s.modifiedOrder[i];
      var row := t.primary.Get(id);
      ModifiedStep(s, rows, e, order, i);
      if row.Some? && e.material(s.modified[id], row.value) {
        Regroup(emits, [Emit(id, true, e.ser(row.value))], ModifiedPart(s, rows, e, order[..i]));
        emits := emits + [Emit(id, true, e.ser(row.value))];
      } else {
        Regroup(emits, [], ModifiedPart(s, rows, e, order[..i]));
        assert emits + [] == emits;
      }
    }
    NoneModified(s, rows, e, order[..0]);
  }

  lemma NoneModified(s: Session, rows: Rows, e: Emitter, order: seq<int>)
    requires order == []
    ensures ModifiedPart(s, rows, e, order) == []
  {
  }

  method CollectRemoved(s: Session, e: Emitter) returns (emits: seq<Emit>)
    requires Ordered(s)
    ensures emits == RemovedPart(s, e, s.removedOrder)
  {
    emits := [];
    var i := |s.removedOrder|;
    assert s.removedOrder[..i] == s.removedOrder;
    while i > 0
      invariant 0 <= i <= |s.removedOrder|
      invariant emits + RemovedPart(s, e, s.removedOrder[..i]) == RemovedPart(s, e, s.removedOrder)
    {
      i := i - 1;
      assert s.removedOrder[..i + 1][..i] == s.removedOrder[..i];
      var id := s.removedOrder[i];
      emits := emits + [Emit(id, false, e.ser(s.removed[id]))];
    }
  }

  method CollectCreated(t: Table, from: nat, e: Emitter) returns (emits: seq<Emit>)
    requires t.Valid()
    ensures emits == CreatedPart(t.View().rows, e, from, t.View().nextId)
  {
    hide Table.Indexed, Table.DirtyOK, FreeList.Ties, ToStack, CreatedPart, Listing, Enumerates, EmitsFrom, IdsOK,
         MapOf, AllPagesOK, NothingFrom, Table.Shape;
    var items := t.primary.List();
    RowsBelow(t.primary);
    EnumerationIsListing(items, t.primary.rows, t.primary.len);
    ListedFrom(t.primary.rows, e, from, t.primary.len);
    emits := [];
    NoneListed(items[..0], e, from);
    var i := 0;
    while i < |items|
      invariant 0 <= i <= |items| && emits == EmitsFrom(items[..i], e, from)
    {
      EmitsStep(items, e, from, i);
      if from <= items[i].0 {
        emits := emits + [Emit(items[i].0, true, e.ser(items[i].1))];
      }
      i := i + 1;
    }
    assert items[..i] == items;
  }

  lemma NoneListed(items: seq<(int, Row)>, e: Emitter, from: nat)
    requires items == []
    ensures EmitsFrom(items, e, from) == []
  {
  }

  lemma EmitsStep(items: seq<(int, Row)>, e: Emitter, from: nat, i: nat)
    requires i < |items|
    ensures EmitsFrom(items[..i + 1], e, from) ==
            if from <= items[i].0 then EmitsFrom(items[..i], e, from) + [Emit(items[i].0, true, e.ser(items[i].1))]
            else EmitsFrom(items[..i], e, from)
  {
    assert items[..i + 1][..i] == items[..i];
  }

  /** A full snapshot: every live row in id order, which builds the whole view from nothing. */
  method CollectSnapshot(t: Table, rules: Rules, ghost held: multiset<BlobRef>) returns (emits: seq<Emit>)
    requires t.Valid()
    ensures emits == CreatedPart(t.View().rows, EmitterOf(t.sc, t.blobs, rules), 0, t.View().nextId)
    ensures forall i, j :: 0 <= i < j < |emits| ==> emits[i].id < emits[j].id
    ensures forall x :: x in emits <==>
              && x.id in t.View().rows && x.present
              && x.payload == EmitterOf(t.sc, t.blobs, rules).ser(t.View().rows[x.id])
    ensures Apply(map[], emits) == ViewOf(t.sc, AbsOf(t.sc, Config(t.View(), held)).cur, rules.now)
  {
    hide Table.Indexed, Table.DirtyOK, FreeList.Ties, ToStack, CreatedPart, Apply, Serialized, IdsOK, MapOf, AllPagesOK,
         NothingFrom, Table.Shape, AbsOf, ViewOf;
    var e := EmitterOf(t.sc, t.blobs, rules);
    emits := CollectCreated(t, 0, e);
    StoredInside(t.primary);
    CreatedOrdered(t.primary.rows, e, 0, t.primary.len);
    SnapshotBuilds(t.primary.rows, t.primary.len, e);
    NewView(t.sc, Config(t.View(), held), rules);
  }

  lemma StoredInside(p: Primary)
    requires p.Valid()
    ensures forall id :: id in p.rows ==> 0 <= id < p.len
  {
    forall id | id in p.rows ensures 0 <= id < p.len {
      StoredBelow(p, id);
    }
  }

  lemma SnapshotBuilds(rows: Rows, n: nat, e: Emitter)
    requires forall id :: id in rows ==> 0 <= id < n
    ensures Apply(map[], CreatedPart(rows, e, 0, n)) == Serialized(rows, e.ser)
  {
    hide Apply, Serialized, CreatedPart, LastOn;
    forall id: int ensures At(Apply(map[], CreatedPart(rows, e, 0, n)), id) == At(Serialized(rows, e.ser), id) {
      ApplyAt(map[], CreatedPart(rows, e, 0, n), id);
      CreatedLast(rows, e, 0, n, id);
      SerializedAt(rows, e.ser, id);
    }
    ViewsEqual(Apply(map[], CreatedPart(rows, e, 0, n)), Serialized(rows, e.ser));
  }

  lemma DeltaInOrder(sc: Schema, t: Tab, rules: Rules, held: multiset<BlobRef>)
    requires Inv(sc, Config(t, held)) && t.undo.Push? && Ordered(t.undo.top)
    ensures InItsOrder(DeltaOf(sc, t, rules), t, EmitterOf(sc, t.blobs, rules))
  {
    hide BlobStack, PatchesOK, Arranged, SaysExactly, Restore, Changes, KeysUnique;
    ChangesArranged(t.undo.top, t.rows, t.nextId, EmitterOf(sc, t.blobs, rules));
    ChangesExact(t.undo.top, t.rows, t.nextId, EmitterOf(sc, t.blobs, rules));
  }

  /**
    A block's delta: modified rows, then removed rows, then new rows. It takes a
    consumer from the rows before the session to the rows now, exactly when
    every row it says nothing of serializes as before.
   */
  method CollectDelta(t: Table, rules: Rules, ghost held: multiset<BlobRef>) returns (emits: seq<Emit>)
    requires t.Valid() && Inv(t.sc, Config(t.View(), held))
    ensures t.sessions == [] ==> emits == [] && t.View().undo.Bottom?
    ensures t.sessions != [] ==>
              var c := Config(t.View(), held);
              && c.t.undo.Push? && Ordered(c.t.undo.top) && emits == DeltaOf(t.sc, c.t, rules)
              && InItsOrder(emits, c.t, EmitterOf(t.sc, t.blobs, rules))
              && AbsOf(t.sc, c).saved.Push?
              && (Apply(ViewOf(t.sc, AbsOf(t.sc, c).saved.top, rules.was), emits)
                  == ViewOf(t.sc, AbsOf(t.sc, c).cur, rules.now)
                  <==> SaysAllChanges(t.sc, c.t, rules))
  {
    hide Table.Indexed, Table.DirtyOK, FreeList.Ties, ToStack, Table.PrimaryOK, Inv, AbsOf, SaysAllChanges, ViewOf,
         Apply, ModifiedPart, RemovedPart, CreatedPart, InItsOrder;
    StackEmpty(t.sessions);
    if t.sessions == [] {
      return [];
    }
    var s := t.sessions[|t.sessions| - 1];
    TopOf(t.sessions);
    DeltaTurnsOldIntoNew(t.sc, Config(t.View(), held), rules);
    DeltaInOrder(t.sc, t.View(), rules, held);
    var e := EmitterOf(t.sc, t.blobs, rules);
    var modified := CollectModified(t, s, e);
    var removed := CollectRemoved(s, e);
    var created := CollectCreated(t, s.oldNextId, e);
    emits := modified + removed + created;
  }
}
