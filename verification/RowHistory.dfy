/** The rows each open session would bring back, and why no row operation changes them. */
module RowHistory {
  import opened ArenaTypes
  import opened TableSpec

  ghost predicate RowsOK(sc: Schema, nextId: nat, rows: Rows)
  {
    && (forall id :: id in rows ==> 0 <= id < nextId && rows[id].id == id && |rows[id].data| == sc.size)
    && KeysUnique(sc, rows)
  }

  ghost predicate Lists(order: seq<int>, m: Rows)
  {
    && (forall id :: id in order <==> id in m)
    && (forall i, j :: 0 <= i < j < |order| ==> order[i] != order[j])
  }

  /** Session `s` describes how `rows` came from the rows it started with. */
  ghost predicate SessionOK(s: Session, nextId: nat, rows: Rows)
  {
    && s.oldNextId <= nextId
    && (forall id :: id in s.modified ==> 0 <= id < s.oldNextId)
    && (forall id :: id in s.removed ==> 0 <= id < s.oldNextId && id !in rows)
    && (forall id :: id in s.modified ==> id in rows || id in s.removed)
    && Lists(s.modifiedOrder, s.modified)
    && Lists(s.removedOrder, s.removed)
  }

  /** Every session's start state is well formed, down the whole stack. */
  ghost predicate RowStack(sc: Schema, nextId: nat, rows: Rows, st: Stack<Session>)
    decreases st
  {
    && RowsOK(sc, nextId, rows)
    && match st
       case Bottom => true
       case Push(s, below) => SessionOK(s, nextId, rows) && RowStack(sc, s.oldNextId, Restore(s, rows), below)
  }

  ghost predicate RowInv(sc: Schema, t: Tab)
  {
    RowStack(sc, t.nextId, t.rows, t.undo)
  }

  lemma RestoreAfterEmplace(s: Session, nextId: nat, rows: Rows, row: Row)
    requires SessionOK(s, nextId, rows)
    ensures Restore(s, rows[nextId := row]) == Restore(s, rows)
  {
  }

  lemma RestoreAfterModify(s: Session, nextId: nat, rows: Rows, id: int, updated: Row)
    requires SessionOK(s, nextId, rows) && id in rows && 0 <= id
    ensures Restore(NoteModified(s, id, rows[id]), rows[id := updated]) == Restore(s, rows)
    ensures SessionOK(NoteModified(s, id, rows[id]), nextId, rows[id := updated])
  {
    hide SessionOK, Restore;
    NoteModifiedOK(s, nextId, rows, id, updated);
    var s', rows' := NoteModified(s, id, rows[id]), rows[id := updated];
    forall x ensures Get(Restore(s', rows'), x) == Get(Restore(s, rows), x) {
      RestoreGet(s', rows', x);
      RestoreGet(s, rows, x);
    }
    SameByGet(Restore(s', rows'), Restore(s, rows));
  }

  lemma NoteModifiedOK(s: Session, nextId: nat, rows: Rows, id: int, updated: Row)
    requires SessionOK(s, nextId, rows) && id in rows && 0 <= id
    ensures SessionOK(NoteModified(s, id, rows[id]), nextId, rows[id := updated]) && id !in s.removed
  {
  }

  lemma RestoreAfterRemove(s: Session, nextId: nat, rows: Rows, id: int)
    requires SessionOK(s, nextId, rows) && id in rows && 0 <= id
    ensures Restore(NoteRemoved(s, id, rows[id]), rows - {id}) == Restore(s, rows)
    ensures SessionOK(NoteRemoved(s, id, rows[id]), nextId, rows - {id})
  {
    hide SessionOK, Restore;
    NoteRemovedOK(s, nextId, rows, id);
    var s', rows' := NoteRemoved(s, id, rows[id]), rows - {id};
    forall x ensures Get(Restore(s', rows'), x) == Get(Restore(s, rows), x) {
      RestoreGet(s', rows', x);
      RestoreGet(s, rows, x);
    }
    SameByGet(Restore(s', rows'), Restore(s, rows));
  }

  lemma NoteRemovedOK(s: Session, nextId: nat, rows: Rows, id: int)
    requires SessionOK(s, nextId, rows) && id in rows && 0 <= id
    ensures SessionOK(NoteRemoved(s, id, rows[id]), nextId, rows - {id}) && id !in s.removed && s.oldNextId <= nextId
  {
  }

  lemma RestoreFresh(sc: Schema, t: Tab)
    requires RowsOK(sc, t.nextId, t.rows)
    ensures Restore(FreshSession(t), t.rows) == t.rows
    ensures SessionOK(FreshSession(t), t.nextId, t.rows)
  {
  }

  lemma NewIdsMember(order: seq<int>, bound: nat, known: Rows, id: int)
    ensures id in NewIds(order, bound, known) <==> id in order && id < bound && id !in known
  {
    if order != [] {
      NewIdsMember(order[..|order| - 1], bound, known, id);
      assert order == order[..|order| - 1] + [order[|order| - 1]];
    }
  }

  lemma NewIdsDistinct(order: seq<int>, bound: nat, known: Rows)
    requires forall i, j :: 0 <= i < j < |order| ==> order[i] != order[j]
    ensures forall i, j :: 0 <= i < j < |NewIds(order, bound, known)| ==>
            NewIds(order, bound, known)[i] != NewIds(order, bound, known)[j]
  {
    if order != [] {
      var init := order[..|order| - 1];
      NewIdsDistinct(init, bound, known);
      NewIdsMember(init, bound, known, order[|order| - 1]);
    }
  }

  lemma MergeLists(prevOrder: seq<int>, prev: Rows, order: seq<int>, m: Rows, bound: nat, all: Rows)
    requires Lists(prevOrder, prev) && Lists(order, m)
    requires forall id :: id in all <==> id in prev || (id in m && id < bound)
    ensures Lists(prevOrder + NewIds(order, bound, prev), all)
  {
    forall id ensures id in NewIds(order, bound, prev) <==> id in m && id < bound && id !in prev {
      NewIdsMember(order, bound, prev, id);
    }
    NewIdsDistinct(order, bound, prev);
    var news := NewIds(order, bound, prev);
    forall i, j | 0 <= i < |prevOrder| && 0 <= j < |news| ensures prevOrder[i] != news[j] {
      assert prevOrder[i] in prevOrder && news[j] in news;
    }
  }

  lemma MergeSessionOK(prev: Session, s: Session, nextId: nat, rows: Rows)
    requires SessionOK(s, nextId, rows) && SessionOK(prev, s.oldNextId, Restore(s, rows))
    ensures SessionOK(Merge(prev, s), nextId, rows)
  {
    var m := Merge(prev, s);
    assert Lists(m.modifiedOrder, m.modified) by {
      MergeLists(prev.modifiedOrder, prev.modified, s.modifiedOrder, s.modified, prev.oldNextId, m.modified);
    }
    assert Lists(m.removedOrder, m.removed) by {
      MergeLists(prev.removedOrder, prev.removed, s.removedOrder, s.removed, prev.oldNextId, m.removed);
    }
    forall id | id in m.removed ensures 0 <= id < m.oldNextId && id !in rows {
      assert id in prev.removed || id in s.removed;
    }
    forall id | id in m.modified ensures 0 <= id < m.oldNextId && (id in rows || id in m.removed) {
      assert id in prev.modified || id in s.modified;
    }
  }

  function Get(rows: Rows, id: int): Option<Row>
  {
    if id in rows then Some(rows[id]) else None
  }

  lemma RestoreGet(s: Session, rows: Rows, id: int)
    ensures Get(Restore(s, rows), id) ==
            if id in s.modified then Some(s.modified[id])
            else if id in s.removed then Some(s.removed[id])
            else if id < s.oldNextId then Get(rows, id)
            else None
  {
  }

  lemma MergeGet(prev: Session, s: Session, nextId: nat, rows: Rows, id: int)
    requires SessionOK(s, nextId, rows) && SessionOK(prev, s.oldNextId, Restore(s, rows))
    ensures Get(Restore(Merge(prev, s), rows), id) == Get(Restore(prev, Restore(s, rows)), id)
  {
    RestoreGet(Merge(prev, s), rows, id);
    RestoreGet(prev, Restore(s, rows), id);
    RestoreGet(s, rows, id);
  }

  /** Squashing two sessions undoes to the same rows as undoing one after the other. */
  lemma RestoreAfterMerge(prev: Session, s: Session, nextId: nat, rows: Rows)
    requires SessionOK(s, nextId, rows) && SessionOK(prev, s.oldNextId, Restore(s, rows))
    ensures Restore(Merge(prev, s), rows) == Restore(prev, Restore(s, rows))
  {
    var a, b := Restore(Merge(prev, s), rows), Restore(prev, Restore(s, rows));
    forall id ensures Get(a, id) == Get(b, id) {
      MergeGet(prev, s, nextId, rows, id);
    }
    SameByGet(a, b);
  }

  lemma SameByGet(a: Rows, b: Rows)
    requires forall id :: Get(a, id) == Get(b, id)
    ensures a == b
  {
    forall id ensures id in a <==> id in b {
      assert Get(a, id) == Get(b, id);
    }
    forall id | id in a ensures a[id] == b[id] {
      assert Get(a, id) == Get(b, id);
    }
  }

  // ----- every operation keeps the row invariant ----------------------------

  lemma EmplaceKeepsRows(sc: Schema, t: Tab, obj: Row)
    requires RowInv(sc, t) && |obj.data| == sc.size
    ensures RowInv(sc, Emplace(sc, t, obj))
  {
    if EmplaceError(sc, t, obj).None? {
      var row := WithId(t, obj);
      assert RowsOK(sc, t.nextId + 1, t.rows[t.nextId := row]) by {
        forall i: nat, a | i < |sc.keys| && a in t.rows ensures sc.keys[i](t.rows[a]) != sc.keys[i](row) {
          assert !Taken(sc, t.rows, row, i);
        }
      }
      if t.undo.Push? {
        RestoreAfterEmplace(t.undo.top, t.nextId, t.rows, row);
      }
    }
  }

  lemma ModifyKeepsRows(sc: Schema, t: Tab, id: int, updated: Row)
    requires RowInv(sc, t) && |updated.data| == sc.size
    ensures RowInv(sc, Modify(sc, t, id, updated))
  {
    if ModifyError(sc, t, id, updated).None? {
      assert RowsOK(sc, t.nextId, t.rows[id := updated]) by {
        forall i: nat, a | i < |sc.keys| && a in t.rows && a != id
          ensures sc.keys[i](t.rows[a]) != sc.keys[i](updated)
        {
          assert !Taken(sc, t.rows, updated, i);
        }
      }
      if t.undo.Push? {
        RestoreAfterModify(t.undo.top, t.nextId, t.rows, id, updated);
      }
    }
  }

  lemma RemoveKeepsRows(sc: Schema, t: Tab, id: int)
    requires RowInv(sc, t)
    ensures RowInv(sc, Remove(t, id))
  {
    if id in t.rows && t.undo.Push? {
      RestoreAfterRemove(t.undo.top, t.nextId, t.rows, id);
    }
  }

  lemma StartKeepsRows(sc: Schema, t: Tab)
    requires RowInv(sc, t)
    ensures RowInv(sc, StartSession(t))
  {
    RestoreFresh(sc, t);
  }

  lemma SquashKeepsRows(sc: Schema, t: Tab)
    requires RowInv(sc, t)
    ensures RowInv(sc, Squash(t))
  {
    if t.undo.Push? && t.undo.below.Push? {
      assert RowStack(sc, t.undo.top.oldNextId, Restore(t.undo.top, t.rows), t.undo.below);
      RestoreAfterMerge(t.undo.below.top, t.undo.top, t.nextId, t.rows);
      MergeSessionOK(t.undo.below.top, t.undo.top, t.nextId, t.rows);
    }
  }

  lemma InnermostKeepsRows(sc: Schema, nextId: nat, rows: Rows, st: Stack<Session>, keep: nat)
    requires RowStack(sc, nextId, rows, st)
    ensures RowStack(sc, nextId, rows, Innermost(st, keep))
    decreases st
  {
    if st.Push? && keep > 0 {
      InnermostKeepsRows(sc, st.top.oldNextId, Restore(st.top, rows), st.below, keep - 1);
    }
  }
}
