/** The table as it is stored: pages, indices, free stacks, dirty bits and undo sessions, updated in place. */
module TableClass {
  import opened ArenaTypes
  import opened TableSpec
  import Spec = TableSpec
  import SessionLaws
  import opened RowHistory
  import opened PagedPrimary
  import opened DirtyPages
  import opened KeyIndex
  import opened FreeList

  /** The open sessions, oldest first, as a stack. */
  ghost function ToStack(sessions: seq<Session>): Stack<Session>
  {
    if sessions == [] then Bottom else Push(sessions[|sessions| - 1], ToStack(sessions[..|sessions| - 1]))
  }

  lemma StackEmpty(sessions: seq<Session>)
    ensures ToStack(sessions).Bottom? <==> sessions == []
  {
  }

  lemma TopOf(sessions: seq<Session>)
    requires sessions != []
    ensures ToStack(sessions).Push? && ToStack(sessions).top == sessions[|sessions| - 1]
  {
  }

  lemma PushStack(sessions: seq<Session>, s: Session)
    ensures ToStack(sessions + [s]) == Push(s, ToStack(sessions))
  {
    assert (sessions + [s])[..|sessions|] == sessions;
  }

  lemma DepthOfStack(sessions: seq<Session>)
    ensures Depth(ToStack(sessions)) == |sessions|
  {
  }

  /** The spans the oldest `d` sessions freed. */
  function FreedFirst(sessions: seq<Session>, d: nat): seq<BlobRef>
    requires d <= |sessions|
  {
    if d == 0 then [] else FreedFirst(sessions, d - 1) + sessions[d - 1].freed
  }

  lemma {:induction false} FreedFirstPrefix(a: seq<Session>, b: seq<Session>, d: nat)
    requires d <= |a| && d <= |b| && forall i :: 0 <= i < d ==> a[i] == b[i]
    ensures FreedFirst(a, d) == FreedFirst(b, d)
  {
    if d > 0 {
      FreedFirstPrefix(a, b, d - 1);
    }
  }

  /** Dropping the oldest `d` sessions, seen from the stack. */
  lemma {:induction false} KeptOutside(sessions: seq<Session>, d: nat)
    requires d <= |sessions|
    ensures FreedOutside(ToStack(sessions), |sessions| - d) == FreedFirst(sessions, d)
    ensures Innermost(ToStack(sessions), |sessions| - d) == ToStack(sessions[d..])
    decreases |sessions|
  {
    if sessions != [] {
      var init := sessions[..|sessions| - 1];
      KeptOutside(init, if d < |sessions| then d else d - 1);
      FreedFirstPrefix(init, sessions, if d < |sessions| then d else d - 1);
      if d < |sessions| {
        assert sessions[d..][..|sessions| - d - 1] == init[d..];
      }
    }
  }

  /** The entries of `m` with listed ids below `bound`. */
  ghost function Kept(m: Rows, ids: seq<int>, bound: nat): Rows
  {
    map id | id in m && id in ids && id < bound :: m[id]
  }

  /** `left` still has every entry of `m` whose id is not listed. */
  ghost predicate Untouched(left: Rows, m: Rows, ids: seq<int>)
  {
    forall id :: id in m && id !in ids ==> id in left && left[id] == m[id]
  }

  lemma TouchNext(left: Rows, m: Rows, ids: seq<int>, i: nat)
    requires Lists(ids, m) && i < |ids| && Untouched(left, m, ids[..i])
    ensures ids[i] in m && ids[i] in left && left[ids[i]] == m[ids[i]]
    ensures Untouched(left, m, ids[..i + 1]) && Untouched(left - {ids[i]}, m, ids[..i + 1])
  {
    var id := ids[i];
    assert id in ids;
    assert id in m;
    assert id !in ids[..i];
    assert ids[..i + 1] == ids[..i] + [id];
  }

  lemma KeptNone(m: Rows, ids: seq<int>, bound: nat, outer: Rows)
    ensures Kept(m, ids[..0], bound) + outer == outer && outer + Kept(m, ids[..0], bound) == outer
    ensures NewIds(ids[..0], bound, outer) == []
    ensures Untouched(m, m, ids[..0])
  {
    assert Kept(m, ids[..0], bound) == map[];
  }

  lemma KeptNext(m: Rows, ids: seq<int>, i: nat, bound: nat, outer: Rows)
    requires Lists(ids, m) && i < |ids|
    ensures var id, was, now := ids[i], Kept(m, ids[..i], bound), Kept(m, ids[..i + 1], bound);
            && id in m && id !in was
            && (id < bound ==> outer + now == (outer + was)[id := m[id]])
            && (id < bound && id !in outer ==> now + outer == (was + outer)[id := m[id]])
            && (id in outer ==> now + outer == was + outer)
            && (bound <= id ==> now == was)
  {
    assert ids[i] in ids && ids[i] !in ids[..i];
    assert ids[..i + 1] == ids[..i] + [ids[i]];
    var id, was := ids[i], Kept(m, ids[..i], bound);
    assert Kept(m, ids[..i + 1], bound) == if id < bound then was[id := m[id]] else was;
    JoinNext(was, outer, id, m[id]);
  }

  lemma JoinNext(was: Rows, outer: Rows, id: int, row: Row)
    ensures outer + was[id := row] == (outer + was)[id := row]
    ensures was[id := row] + outer == if id in outer then was + outer else (was + outer)[id := row]
  {
  }

  lemma NewIdsNext(ids: seq<int>, i: nat, bound: nat, outer: Rows)
    requires i < |ids|
    ensures NewIds(ids[..i + 1], bound, outer) ==
            if ids[i] < bound && ids[i] !in outer then NewIds(ids[..i], bound, outer) + [ids[i]]
            else NewIds(ids[..i], bound, outer)
  {
    assert ids[..i + 1][..i] == ids[..i];
  }

  lemma KeptAll(m: Rows, ids: seq<int>, bound: nat)
    requires Lists(ids, m)
    ensures ids[..|ids|] == ids && Kept(m, ids, bound) == Below(m, bound)
  {
  }

  lemma OnlyNats(d: DirtySet)
    requires d.Valid()
    ensures forall id :: id in d.ids ==> 0 <= id
  {
  }

  lemma TakenInIndex(sc: Schema, i: nat, entries: map<Key, int>, rows: Rows, row: Row)
    requires i < |sc.keys| && Exact(entries, sc.keys[i], rows)
    ensures Taken(sc, rows, row, i) <==> sc.keys[i](row) in entries && entries[sc.keys[i](row)] != row.id
  {
    if sc.keys[i](row) in entries {
      var id := entries[sc.keys[i](row)];
      assert id in rows && sc.keys[i](rows[id]) == sc.keys[i](row);
    }
  }

  lemma NewKeyTaken(sc: Schema, i: nat, entries: map<Key, int>, rows: Rows, row: Row)
    requires i < |sc.keys| && Exact(entries, sc.keys[i], rows) && row.id !in rows
    ensures Taken(sc, rows, row, i) <==> sc.keys[i](row) in entries
  {
    TakenInIndex(sc, i, entries, rows, row);
  }

  /** The list and the set have the same members. */
  ghost predicate Members(ids: seq<int>, members: set<int>)
  {
    forall id :: id in ids <==> id in members
  }

  /** Rows are stored under their own ids. */
  ghost predicate IdsOK(rows: Rows)
  {
    forall id :: id in rows ==> 0 <= id && rows[id].id == id
  }

  lemma OwnId(rows: Rows, id: int)
    requires IdsOK(rows)
    ensures id in rows ==> 0 <= id && rows[id].id == id
  {
  }

  lemma NextIdFree(p: Primary)
    requires p.Valid()
    ensures p.len !in p.rows
  {
  }

  lemma StoredBelow(p: Primary, id: int)
    requires p.Valid() && id in p.rows
    ensures 0 <= id < p.len
  {
  }

  lemma IdsUpdate(rows: Rows, row: Row)
    requires IdsOK(rows) && 0 <= row.id
    ensures IdsOK(rows[row.id := row])
  {
  }

  lemma IdsRemove(rows: Rows, id: int)
    requires IdsOK(rows)
    ensures IdsOK(rows - {id})
  {
  }

  lemma CountUpdate(rows: Rows, id: int, row: Row)
    ensures |rows[id := row]| == if id in rows then |rows| else |rows| + 1
    ensures |rows - {id}| == if id in rows then |rows| - 1 else |rows|
  {
    assert rows[id := row].Keys == rows.Keys + {id};
    assert (rows - {id}).Keys == rows.Keys - {id};
  }

  lemma ConflictAt(sc: Schema, rows: Rows, row: Row, i: nat)
    requires i < |sc.keys| && Taken(sc, rows, row, i) && forall j: nat :: j < i ==> !Taken(sc, rows, row, j)
    ensures Conflict(sc, rows, row, 0) == Some(i)
  {
  }

  /** `now` is `was` with the entry of `current` moved to the key of `updated`. */
  ghost predicate MovedKey(key: Row -> Key, was: map<Key, int>, now: map<Key, int>, current: Row, updated: Row)
  {
    && key(current) in was && was[key(current)] == current.id
    && if key(current) == key(updated) then now == was
       else key(updated) !in was && now == was[key(updated) := current.id] - {key(current)}
  }

  lemma MoveBack(key: Row -> Key, was: map<Key, int>, now: map<Key, int>, current: Row, updated: Row)
    requires MovedKey(key, was, now, current, updated) && current.id == updated.id
    ensures key(current) != key(updated) ==>
            key(current) !in now && now[key(current) := updated.id] - {key(updated)} == was
    ensures key(current) == key(updated) ==> now == was
  {
  }

  lemma ExactHasOwn(entries: map<Key, int>, key: Row -> Key, rows: Rows, row: Row)
    requires Exact(entries, key, rows) && row.id in rows && rows[row.id] == row
    ensures key(row) in entries && entries[key(row)] == row.id
  {
  }

  lemma ExactMove(was: map<Key, int>, now: map<Key, int>, key: Row -> Key, rows: Rows, current: Row, updated: Row)
    requires Exact(was, key, rows) && current.id in rows && rows[current.id] == current && updated.id == current.id
    requires MovedKey(key, was, now, current, updated)
    ensures Exact(now, key, rows[updated.id := updated])
  {
    ExactErase(was, key, rows, current.id);
    ExactInsert(was - {key(current)}, key, rows - {current.id}, updated);
    assert (rows - {current.id})[updated.id := updated] == rows[updated.id := updated];
    assert now == (was - {key(current)})[key(updated) := updated.id];
  }

  lemma MovedKeyTaken(sc: Schema, i: nat, entries: map<Key, int>, rows: Rows, current: Row, updated: Row)
    requires i < |sc.keys| && Exact(entries, sc.keys[i], rows)
    requires current.id in rows && rows[current.id] == current && updated.id == current.id
    ensures Taken(sc, rows, updated, i) <==>
            sc.keys[i](current) != sc.keys[i](updated) && sc.keys[i](updated) in entries
  {
    TakenInIndex(sc, i, entries, rows, updated);
    ExactHasOwn(entries, sc.keys[i], rows, current);
  }

  // ----- undo ---------------------------------------------------------------

  ghost function OutsideRange(rows: Rows, lo: nat, hi: nat): Rows
  {
    map id | id in rows && !(lo <= id < hi) :: rows[id]
  }

  lemma RangeStart(rows: Rows, next: nat, dirty: seq<int>)
    ensures OutsideRange(rows, next, next) == rows
    ensures MarkAll(dirty, Range(next, next)) == dirty
  {
  }

  lemma RangeNext(rows: Rows, next: nat, id: nat, dirty: seq<int>)
    requires next <= id
    ensures id in rows ==>
              && id in OutsideRange(rows, next, id) && OutsideRange(rows, next, id)[id] == rows[id]
              && OutsideRange(rows, next, id + 1) == OutsideRange(rows, next, id) - {id}
              && |OutsideRange(rows, next, id + 1)| == |OutsideRange(rows, next, id)| - 1
    ensures id !in rows ==> OutsideRange(rows, next, id + 1) == OutsideRange(rows, next, id)
    ensures MarkAll(dirty, Range(next, id + 1)) == Spec.MarkDirty(MarkAll(dirty, Range(next, id)), id)
  {
    hide MarkAll;
    var was, now := OutsideRange(rows, next, id), OutsideRange(rows, next, id + 1);
    assert now == was - {id};
    CountUpdate(was, id, Row(0, []));
    assert id !in rows ==> was - {id} == was;
    MarkRange(next, id, dirty);
  }

  lemma MarkRange(next: nat, id: nat, dirty: seq<int>)
    requires next <= id
    ensures MarkAll(dirty, Range(next, id + 1)) == Spec.MarkDirty(MarkAll(dirty, Range(next, id)), id)
  {
    var ids := Range(next, id + 1);
    assert ids[..|ids| - 1] == Range(next, id);
  }

  lemma RangeEnd(p: Primary, rows: Rows, next: nat)
    requires p.Valid() && rows == p.rows && IdsOK(rows)
    ensures OutsideRange(rows, next, p.len) == Below(rows, next)
    ensures IdsOK(Below(rows, next))
    ensures (map id | id in rows && id < next :: rows[id]) == Below(rows, next)
  {
    forall id | id in rows ensures 0 <= id < p.len {
      StoredBelow(p, id);
    }
  }

  function IdsOf(list: seq<Row>): seq<int>
  {
    seq(|list|, i requires 0 <= i < |list| => list[i].id)
  }

  /** `list` has, once each, the rows of `target` with the given ids. */
  ghost predicate Picks(list: seq<Row>, target: Rows, ids: set<int>)
  {
    && (forall i :: 0 <= i < |list| ==> list[i].id in ids && list[i].id in target && target[list[i].id] == list[i])
    && (forall id :: id in ids ==> exists i :: 0 <= i < |list| && list[i].id == id)
    && (forall i, j :: 0 <= i < j < |list| ==> list[i].id != list[j].id)
  }

  lemma PicksNone(target: Rows)
    ensures Picks([], target, {})
  {
  }

  lemma PicksAdd(list: seq<Row>, target: Rows, ids: set<int>, row: Row)
    requires Picks(list, target, ids) && row.id !in ids && row.id in target && target[row.id] == row
    ensures Picks(list + [row], target, ids + {row.id})
  {
    var list' := list + [row];
    forall id | id in ids + {row.id} ensures exists i :: 0 <= i < |list'| && list'[i].id == id {
      if id == row.id {
        assert list'[|list|].id == id;
      } else {
        var i :| 0 <= i < |list| && list[i].id == id;
        assert list'[i].id == id;
      }
    }
  }

  lemma PicksJoin(a: seq<Row>, b: seq<Row>, target: Rows, idsA: set<int>, idsB: set<int>)
    requires Picks(a, target, idsA) && Picks(b, target, idsB) && idsA !! idsB
    ensures Picks(a + b, target, idsB + idsA)
  {
    forall id | id in idsB + idsA ensures exists i :: 0 <= i < |a + b| && (a + b)[i].id == id {
      if id in idsA {
        var i :| 0 <= i < |a| && a[i].id == id;
        assert (a + b)[i].id == id;
      } else {
        var i :| 0 <= i < |b| && b[i].id == id;
        assert (a + b)[|a| + i].id == id;
      }
    }
  }

  /** Every saved row of `s` comes back in `target` at its oldest saved value. */
  ghost predicate Targets(s: Session, target: Rows)
  {
    && (forall id :: id in s.modified ==> id in target && target[id] == s.modified[id] && target[id].id == id)
    && (forall id :: id in s.removed ==>
        id in target && target[id].id == id && (id !in s.modified ==> target[id] == s.removed[id]))
  }

  /** Outside the rows `s` saved, `target` is `rows`. */
  ghost predicate Follows(s: Session, rows: Rows, target: Rows)
  {
    && (forall id :: id in s.removed ==> id !in rows)
    && (forall id :: id in s.modified && id !in s.removed ==> id in rows)
    && (forall id :: id !in s.modified && id !in s.removed ==> Get(rows, id) == Get(target, id))
  }

  ghost predicate Within(part: Rows, whole: Rows)
  {
    forall id :: id in part ==> id in whole && whole[id] == part[id]
  }

  ghost function PutAll(rows: Rows, list: seq<Row>): Rows
  {
    if list == [] then rows else PutAll(rows, list[..|list| - 1])[list[|list| - 1].id := list[|list| - 1]]
  }

  lemma PutNone(rows: Rows, list: seq<Row>, dirty: seq<int>)
    ensures PutAll(rows, list[..0]) == rows && MarkAll(dirty, IdsOf(list[..0])) == dirty
  {
  }

  lemma PutNext(rows: Rows, list: seq<Row>, i: nat)
    requires i < |list|
    ensures PutAll(rows, list[..i + 1]) == PutAll(rows, list[..i])[list[i].id := list[i]]
  {
    assert list[..i + 1][..i] == list[..i];
  }

  lemma MarkNext(dirty: seq<int>, list: seq<Row>, i: nat)
    requires i < |list|
    ensures MarkAll(dirty, IdsOf(list[..i + 1])) == Spec.MarkDirty(MarkAll(dirty, IdsOf(list[..i])), list[i].id)
  {
    assert IdsOf(list[..i + 1])[..i] == IdsOf(list[..i]);
  }

  lemma {:induction false} PutAllGet(rows: Rows, list: seq<Row>, target: Rows, id: int)
    requires forall i :: 0 <= i < |list| ==> list[i].id in target && target[list[i].id] == list[i]
    ensures id in IdsOf(list) ==> Get(PutAll(rows, list), id) == Get(target, id)
    ensures id !in IdsOf(list) ==> Get(PutAll(rows, list), id) == Get(rows, id)
  {
    if list != [] {
      var init, last := list[..|list| - 1], list[|list| - 1];
      PutAllGet(rows, init, target, id);
      assert IdsOf(list) == IdsOf(init) + [last.id];
    }
  }

  lemma PutFits(sc: Schema, next: nat, indexed: Rows, list: seq<Row>, i: nat, target: Rows, ids: set<int>)
    requires RowsOK(sc, next, target) && Within(indexed, target) && Picks(list, target, ids) && ids !! indexed.Keys
    requires i < |list|
    ensures 0 <= list[i].id < next && list[i].id !in PutAll(indexed, list[..i])
    ensures Conflict(sc, PutAll(indexed, list[..i]), list[i], 0).None?
  {
    var now, row := PutAll(indexed, list[..i]), list[i];
    forall id ensures id in now ==> id in target && target[id] == now[id] {
      PutAllGet(indexed, list[..i], target, id);
      assert Get(now, id) == Get(target, id) || Get(now, id) == Get(indexed, id);
    }
    PutAllGet(indexed, list[..i], target, row.id);
    assert row.id !in IdsOf(list[..i]);
    forall x: nat | x < |sc.keys| ensures !Taken(sc, now, row, x) {
      assert row == target[row.id];
    }
  }

  lemma LeftIsStored(s: Session, rows: Rows, target: Rows, left: Rows)
    requires Targets(s, target) && Follows(s, rows, target) && left == s.modified - s.removed.Keys
    ensures left.Keys <= rows.Keys && left.Keys !! s.removed.Keys
    ensures forall id :: id in left ==> id in target && target[id] == left[id] && left[id].id == id
  {
    forall id | id in left ensures id in rows {
      assert id in s.modified && id !in s.removed;
    }
  }

  lemma RestFits(s: Session, rows: Rows, target: Rows, left: Rows)
    requires Targets(s, target) && Follows(s, rows, target) && left == s.modified - s.removed.Keys
    ensures Within(rows - left.Keys, target) && (s.removed.Keys + left.Keys) !! (rows - left.Keys).Keys
  {
    forall id | id in rows - left.Keys ensures id in target && target[id] == rows[id] {
      assert id !in s.removed;
      assert id !in s.modified;
      assert Get(rows, id) == Get(target, id);
    }
    forall id | id in rows - left.Keys ensures id !in s.removed.Keys + left.Keys {
      assert id in rows;
    }
  }

  lemma RestComplete(s: Session, rows: Rows, target: Rows, left: Rows, list: seq<Row>)
    requires Targets(s, target) && Follows(s, rows, target) && left == s.modified - s.removed.Keys
    requires Picks(list, target, s.removed.Keys + left.Keys)
    ensures PutAll(rows - left.Keys, list) == target && PutAll(rows, list) == target
  {
    forall id
      ensures Get(PutAll(rows - left.Keys, list), id) == Get(target, id)
              && Get(PutAll(rows, list), id) == Get(target, id)
    {
      PutAllGet(rows - left.Keys, list, target, id);
      PutAllGet(rows, list, target, id);
      if id in s.modified || id in s.removed {
        assert id in s.removed.Keys + left.Keys;
        var i :| 0 <= i < |list| && list[i].id == id;
        assert IdsOf(list)[i] == id;
      } else {
        assert id !in IdsOf(list);
        assert Get(rows, id) == Get(target, id);
      }
    }
    SameByGet(PutAll(rows - left.Keys, list), target);
    SameByGet(PutAll(rows, list), target);
  }

  lemma PickedIds(list: seq<Row>, target: Rows, ids: set<int>)
    requires Picks(list, target, ids)
    ensures forall id :: id in IdsOf(list) <==> id in ids
    ensures forall i, j :: 0 <= i < j < |list| ==> IdsOf(list)[i] != IdsOf(list)[j]
  {
    forall id | id in ids ensures id in IdsOf(list) {
      var i :| 0 <= i < |list| && list[i].id == id;
      assert IdsOf(list)[i] == id;
    }
  }

  lemma OrderOf(s: Session, a: seq<int>, b: seq<int>)
    requires forall id :: id in a <==> id in s.modified && id !in s.removed
    requires forall id :: id in b <==> id in s.removed
    requires forall i, j :: 0 <= i < j < |a| ==> a[i] != a[j]
    requires forall i, j :: 0 <= i < j < |b| ==> b[i] != b[j]
    ensures RestoreOrder(s, a + b)
  {
    var order := a + b;
    forall id ensures id in order <==> id in s.modified.Keys + s.removed.Keys {
      assert id in order <==> id in a || id in b;
    }
    assert (set id | id in order) == s.modified.Keys + s.removed.Keys;
    forall i, j | 0 <= i < j < |order|
      ensures order[i] != order[j] && (order[i] in s.removed ==> order[j] in s.removed)
    {
      if i < |a| {
        assert order[i] in a;
      }
      if j >= |a| {
        assert order[j] in b;
      }
    }
  }

  lemma RestoredOrder(s: Session, modifiedList: seq<Row>, removedList: seq<Row>, target: Rows, left: Rows)
    requires left == s.modified - s.removed.Keys
    requires Picks(modifiedList, target, left.Keys) && Picks(removedList, target, s.removed.Keys)
    ensures RestoreOrder(s, IdsOf(modifiedList + removedList))
  {
    hide Picks, RestoreOrder;
    PickedIds(modifiedList, target, left.Keys);
    PickedIds(removedList, target, s.removed.Keys);
    OrderOf(s, IdsOf(modifiedList), IdsOf(removedList));
    assert IdsOf(modifiedList + removedList) == IdsOf(modifiedList) + IdsOf(removedList);
  }

  lemma PopStack(sessions: seq<Session>)
    requires sessions != []
    ensures ToStack(sessions) == Push(sessions[|sessions| - 1], ToStack(sessions[..|sessions| - 1]))
  {
  }

  /** Undoing the innermost session aims at the rows there were when it started. */
  lemma UndoTarget(sc: Schema, t: Tab)
    requires RowInv(sc, t) && t.undo.Push?
    ensures var s := t.undo.top; var target := Restore(s, t.rows);
            && s.oldNextId <= t.nextId
            && Targets(s, target) && RowsOK(sc, s.oldNextId, target) && Follows(s, Below(t.rows, s.oldNextId), target)
  {
    var s := t.undo.top;
    var target := Restore(s, t.rows);
    assert RowStack(sc, s.oldNextId, target, t.undo.below);
    forall id ensures id !in s.modified && id !in s.removed ==> Get(Below(t.rows, s.oldNextId), id) == Get(target, id) {
      RestoreGet(s, t.rows, id);
    }
  }

  class Table {
    const sc: Schema
    const primary: Primary
    const inDirty: DirtySet
    const indices: seq<Index>
    var blobs: seq<Byte>
    var sessions: seq<Session>
    var rowCount: nat
    var revision: int
    var dirty: seq<int>
    var free: Stacks
    ghost var freed: seq<BlobRef>
    var patches: seq<BlobRef>
    var flushed: nat

    /** The value of the table. */
    ghost function View(): Tab
      reads this, primary
    {
      Tab(primary.len, primary.rows, blobs, ToStack(sessions), revision, dirty, freed, patches, flushed)
    }

    ghost predicate Shape()
    {
      && |indices| == |sc.keys|
      && (forall i :: 0 <= i < |indices| ==> indices[i].key == sc.keys[i])
      && (forall i, j :: 0 <= i < j < |indices| ==> indices[i] != indices[j])
    }

    /** Every secondary index is the key-to-id map of `rows`. */
    ghost predicate Indexed(rows: Rows)
      reads indices
    {
      |indices| == |sc.keys| && forall i :: 0 <= i < |indices| ==> Exact(indices[i].entries, sc.keys[i], rows)
    }

    ghost predicate PrimaryOK()
      reads this`rowCount, primary
    {
      && Shape()
      && primary.Valid()
      && rowCount == |primary.rows|
      && IdsOK(primary.rows)
    }

    ghost predicate StoreOK()
      reads this`rowCount, primary, indices
    {
      PrimaryOK() && Indexed(primary.rows)
    }

    ghost predicate DirtyOK()
      reads this`dirty, inDirty
    {
      && inDirty.Valid()
      && Members(dirty, inDirty.ids)
    }

    ghost predicate Valid()
      reads this, primary, inDirty, indices
    {
      && StoreOK()
      && DirtyOK()
      && Ties(free, freed)
    }

    /** Every secondary index has the keys of `rows`, which may be filed under ids they do not carry. */
    ghost predicate LooselyIndexed(rows: Rows)
      reads indices
    {
      |indices| == |sc.keys| && forall i :: 0 <= i < |indices| ==> Filed(indices[i].entries, sc.keys[i], rows)
    }

    ghost predicate LoosePrimary()
      reads this`rowCount, primary
    {
      Shape() && primary.Valid() && rowCount == |primary.rows|
    }

    ghost predicate LooseStore()
      reads this`rowCount, primary, indices
    {
      LoosePrimary() && LooselyIndexed(primary.rows)
    }

    /** Sound, but for rows that may be filed under ids they do not carry. */
    ghost predicate Loose()
      reads this, primary, inDirty, indices
    {
      && LooseStore()
      && DirtyOK()
      && Ties(free, freed)
    }

    lemma ValidIsLoose()
      ensures Valid() <==> Loose() && IdsOK(primary.rows)
    {
      hide DirtyOK, Ties, Exact, Filed;
      if IdsOK(primary.rows) && Shape() {
        forall i | 0 <= i < |indices|
          ensures Exact(indices[i].entries, sc.keys[i], primary.rows) <==>
                  Filed(indices[i].entries, sc.keys[i], primary.rows)
        {
          FiledIsExact(indices[i].entries, sc.keys[i], primary.rows);
        }
      }
    }

    constructor (sc: Schema)
      ensures this.sc == sc && Valid()
      ensures View() == Tab(0, map[], [], Bottom, 0, [], [], [], 0)
      ensures fresh(primary) && fresh(inDirty) && fresh(indices)
    {
      var made := NewIndices(sc);
      this.sc, indices := sc, made;
      primary := new Primary();
      inDirty := new DirtySet();
      blobs, sessions, rowCount, revision, dirty := [], [], 0, 0, [];
      free, freed, patches, flushed := map[], [], [], 0;
    }

    static method NewIndices(sc: Schema) returns (made: seq<Index>)
      ensures fresh(made) && |made| == |sc.keys|
      ensures forall i :: 0 <= i < |made| ==> made[i].key == sc.keys[i] && made[i].entries == map[]
      ensures forall i, j :: 0 <= i < j < |made| ==> made[i] != made[j]
    {
      made := [];
      while |made| < |sc.keys|
        invariant fresh(made) && |made| <= |sc.keys|
        invariant forall i :: 0 <= i < |made| ==> made[i].key == sc.keys[i] && made[i].entries == map[]
        invariant forall i, j :: 0 <= i < j < |made| ==> made[i] != made[j]
      {
        var index := new Index(sc.keys[|made|]);
        made := made + [index];
      }
    }

    // ----- indices ----------------------------------------------------------

    /** Takes a row back out of the first `n` indices. */
    method RollBackInserts(obj: Row, n: nat, ghost was: seq<map<Key, int>>)
      requires Shape() && |was| == |indices| && n <= |indices|
      requires forall j :: 0 <= j < n ==>
               sc.keys[j](obj) !in was[j] && indices[j].entries == was[j][sc.keys[j](obj) := obj.id]
      requires forall j :: n <= j < |indices| ==> indices[j].entries == was[j]
      modifies indices
      ensures forall j :: 0 <= j < |indices| ==> indices[j].entries == was[j]
    {
      var k := 0;
      while k < n
        invariant 0 <= k <= n
        invariant forall j :: 0 <= j < k || n <= j < |indices| ==> indices[j].entries == was[j]
        invariant forall j :: k <= j < n ==> indices[j].entries == was[j][sc.keys[j](obj) := obj.id]
      {
        indices[k].Erase(obj);
        assert was[k][sc.keys[k](obj) := obj.id] - {sc.keys[k](obj)} == was[k];
        k := k + 1;
      }
    }

    /** Inserts a row into every index, or, on a conflict, into none. */
    method TryInsertAll(obj: Row, ghost rows: Rows) returns (conflict: Option<nat>)
      requires Shape() && Indexed(rows) && obj.id !in rows
      modifies indices
      ensures conflict == Conflict(sc, rows, obj, 0)
      ensures Indexed(if conflict.None? then rows[obj.id := obj] else rows)
    {
      hide Exact, Taken;
      ghost var was := seq(|indices|, j requires 0 <= j < |indices| reads indices => indices[j].entries);
      forall j: nat | j < |indices| ensures Taken(sc, rows, obj, j) <==> sc.keys[j](obj) in was[j] {
        NewKeyTaken(sc, j, was[j], rows, obj);
      }
      var i := 0;
      while i < |indices|
        invariant 0 <= i <= |indices|
        invariant forall j: nat :: j < i ==> !Taken(sc, rows, obj, j)
        invariant forall j :: 0 <= j < i ==>
                  sc.keys[j](obj) !in was[j] && indices[j].entries == was[j][sc.keys[j](obj) := obj.id]
        invariant forall j :: i <= j < |indices| ==> indices[j].entries == was[j]
      {
        var ok := indices[i].TryInsert(obj);
        if !ok {
          RollBackInserts(obj, i, was);
          ConflictAt(sc, rows, obj, i);
          return Some(i);
        }
        i := i + 1;
      }
      forall j: nat | j < |indices| ensures Exact(indices[j].entries, sc.keys[j], rows[obj.id := obj]) {
        ExactInsert(was[j], sc.keys[j], rows, obj);
      }
      return None;
    }

    /** Erases a stored row from every index. */
    method EraseAll(obj: Row, ghost rows: Rows)
      requires Shape() && Indexed(rows) && obj.id in rows && rows[obj.id] == obj
      modifies indices
      ensures Indexed(rows - {obj.id})
    {
      var i := 0;
      while i < |indices|
        invariant 0 <= i <= |indices|
        invariant forall j :: 0 <= j < i ==> Exact(indices[j].entries, sc.keys[j], rows - {obj.id})
        invariant forall j :: i <= j < |indices| ==> indices[j].entries == old(indices[j].entries)
      {
        ExactErase(indices[i].entries, sc.keys[i], rows, obj.id);
        indices[i].Erase(obj);
        i := i + 1;
      }
    }

    /** Moves a row's entry in the first `n` indices back to its old key. */
    method RollBackMoves(current: Row, updated: Row, n: nat, ghost was: seq<map<Key, int>>)
      requires Shape() && |was| == |indices| && n <= |indices| && current.id == updated.id
      requires forall j :: 0 <= j < n ==> MovedKey(sc.keys[j], was[j], indices[j].entries, current, updated)
      requires forall j :: n <= j < |indices| ==> indices[j].entries == was[j]
      modifies indices
      ensures forall j :: 0 <= j < |indices| ==> indices[j].entries == was[j]
    {
      var k := 0;
      while k < n
        invariant 0 <= k <= n
        invariant forall j :: 0 <= j < k || n <= j < |indices| ==> indices[j].entries == was[j]
        invariant forall j :: k <= j < n ==> MovedKey(sc.keys[j], was[j], indices[j].entries, current, updated)
      {
        MoveBack(sc.keys[k], was[k], indices[k].entries, current, updated);
        hide MovedKey;
        var restored := indices[k].Replace(updated, current);
        k := k + 1;
      }
    }

    /** Moves a row to its new keys in every index, or, on a conflict, in none. */
    method MoveAll(current: Row, updated: Row, ghost rows: Rows) returns (conflict: Option<nat>)
      requires Shape() && Indexed(rows) && current.id in rows && rows[current.id] == current && updated.id == current.id
      modifies indices
      ensures conflict == Conflict(sc, rows, updated, 0)
      ensures Indexed(if conflict.None? then rows[updated.id := updated] else rows)
    {
      hide Exact, Taken;
      ghost var was := seq(|indices|, j requires 0 <= j < |indices| reads indices => indices[j].entries);
      forall j: nat | j < |indices|
        ensures Taken(sc, rows, updated, j) <==>
                sc.keys[j](current) != sc.keys[j](updated) && sc.keys[j](updated) in was[j]
      {
        MovedKeyTaken(sc, j, was[j], rows, current, updated);
      }
      var i := 0;
      while i < |indices|
        invariant 0 <= i <= |indices|
        invariant forall j: nat :: j < i ==> !Taken(sc, rows, updated, j)
        invariant forall j :: 0 <= j < i ==> MovedKey(sc.keys[j], was[j], indices[j].entries, current, updated)
        invariant forall j :: i <= j < |indices| ==> indices[j].entries == was[j]
      {
        ExactHasOwn(was[i], sc.keys[i], rows, current);
        var ok := indices[i].Replace(current, updated);
        if !ok {
          RollBackMoves(current, updated, i, was);
          ConflictAt(sc, rows, updated, i);
          return Some(i);
        }
        i := i + 1;
      }
      forall j: nat | j < |indices| ensures Exact(indices[j].entries, sc.keys[j], rows[updated.id := updated]) {
        ExactMove(was[j], indices[j].entries, sc.keys[j], rows, current, updated);
      }
      return None;
    }

    // ----- rows -------------------------------------------------------------

    /** Records `id` for the next flush, at most once. */
    method MarkDirty(id: nat)
      requires DirtyOK()
      modifies this`dirty, inDirty
      ensures DirtyOK() && dirty == Spec.MarkDirty(old(dirty), id)
    {
      var fresh_ := inDirty.Insert(id);
      if fresh_ {
        dirty := dirty + [id];
      }
    }

    /** Stores a row the indices already know under the next id. */
    method Append(row: Row)
      requires PrimaryOK() && row.id == primary.len
      requires Indexed(primary.rows[row.id := row]) && DirtyOK()
      modifies this`rowCount, this`dirty, primary, inDirty
      ensures StoreOK() && DirtyOK()
      ensures primary.rows == old(primary.rows)[row.id := row] && primary.len == old(primary.len) + 1
      ensures dirty == Spec.MarkDirty(old(dirty), row.id)
    {
      hide IdsOK, MapOf, AllPagesOK, NothingFrom, Indexed, Shape, DirtyOK;
      NextIdFree(primary);
      IdsUpdate(primary.rows, row);
      CountUpdate(primary.rows, row.id, row);
      primary.Push(row);
      rowCount := rowCount + 1;
      MarkDirty(row.id);
    }

    method Emplace(obj: Row) returns (r: Result<int, TableError>)
      requires Valid() && |obj.data| == sc.size
      modifies this, primary, inDirty, indices
      ensures Valid() && View() == Spec.Emplace(sc, old(View()), obj)
      ensures r == match EmplaceError(sc, old(View()), obj) case Some(e) => Err(e) case None => Ok(old(primary.len))
    {
      hide Conflict, Ties, ToStack, DirtyOK, IdsOK, MapOf, AllPagesOK, NothingFrom, Indexed, Shape;
      ghost var t := View();
      var row := obj.(id := primary.len);
      NextIdFree(primary);
      var conflict := TryInsertAll(row, t.rows);
      if conflict.Some? {
        return Err(UniquenessViolation(conflict.value));
      }
      Append(row);
      assert View() == Spec.Emplace(sc, t, obj);
      return Ok(row.id);
    }

    /** Replaces the innermost session. */
    method SetTop(s: Session)
      requires sessions != []
      modifies this`sessions
      ensures sessions != [] && |sessions| == |old(sessions)|
      ensures ToStack(sessions) == OnTop(ToStack(old(sessions)), s)
    {
      var init := sessions[..|sessions| - 1];
      sessions := init + [s];
      assert sessions[..|sessions| - 1] == init;
    }

    method OnModify(id: int, was: Row)
      modifies this`sessions
      ensures ToStack(sessions) ==
              var st := ToStack(old(sessions)); if st.Bottom? then Bottom else OnTop(st, NoteModified(st.top, id, was))
    {
      if sessions != [] {
        var s := sessions[|sessions| - 1];
        if id < s.oldNextId && id !in s.modified {
          s := s.(modifiedOrder := s.modifiedOrder + [id], modified := s.modified[id := was]);
        }
        SetTop(s);
      }
    }

    method OnRemove(id: int, row: Row)
      modifies this`sessions
      ensures ToStack(sessions) ==
              var st := ToStack(old(sessions)); if st.Bottom? then Bottom else OnTop(st, NoteRemoved(st.top, id, row))
    {
      if sessions != [] {
        var s := sessions[|sessions| - 1];
        if id < s.oldNextId {
          if id !in s.removed {
            s := s.(removedOrder := s.removedOrder + [id]);
          }
          s := s.(removed := s.removed[id := row]);
        }
        SetTop(s);
      }
    }

    /** Overwrites a stored row the indices already know under its new keys; the open session keeps the old one. */
    method Overwrite(current: Row, updated: Row)
      requires PrimaryOK() && updated.id in primary.rows
      requires Indexed(primary.rows[updated.id := updated]) && DirtyOK()
      modifies this`dirty, this`sessions, primary, inDirty
      ensures StoreOK() && DirtyOK()
      ensures primary.rows == old(primary.rows)[updated.id := updated] && primary.len == old(primary.len)
      ensures dirty == Spec.MarkDirty(old(dirty), updated.id)
      ensures ToStack(sessions) ==
              var st := ToStack(old(sessions));
                  if st.Bottom? then Bottom else OnTop(st, NoteModified(st.top, updated.id, current))
    {
      hide IdsOK, MapOf, AllPagesOK, NothingFrom, Indexed, Shape, DirtyOK;
      StoredBelow(primary, updated.id);
      IdsUpdate(primary.rows, updated);
      CountUpdate(primary.rows, updated.id, updated);
      var wasAbsent := primary.Insert(updated.id, updated);
      OnModify(updated.id, current);
      MarkDirty(updated.id);
    }

    method Modify(id: int, updated: Row) returns (error: Option<TableError>)
      requires Valid() && |updated.data| == sc.size
      modifies this, primary, inDirty, indices
      ensures Valid() && View() == Spec.Modify(sc, old(View()), id, updated)
      ensures error == ModifyError(sc, old(View()), id, updated)
    {
      hide Conflict, Ties, ToStack, DirtyOK, IdsOK, MapOf, AllPagesOK, NothingFrom, Indexed, Shape;
      ghost var t := View();
      OwnId(t.rows, id);
      var found := primary.Get(id);
      if found.None? {
        return Some(NotFound(id));
      }
      if updated.id != id {
        return Some(IdChanged);
      }
      var current := found.value;
      var conflict := MoveAll(current, updated, t.rows);
      if conflict.Some? {
        return Some(UniquenessViolation(conflict.value));
      }
      Overwrite(current, updated);
      assert View() == Spec.Modify(sc, t, id, updated);
      return None;
    }

    /** Takes a row out of the store; the indices still know it, and the open session keeps it. */
    method TakeOut(id: int) returns (taken: Option<Row>)
      requires StoreOK() && DirtyOK()
      modifies this`rowCount, this`dirty, this`sessions, primary, inDirty
      ensures PrimaryOK() && DirtyOK()
      ensures taken.None? ==> sessions == old(sessions)
      ensures taken.Some? ==>
                var st := ToStack(old(sessions));
                ToStack(sessions) == if st.Bottom? then Bottom else OnTop(st, NoteRemoved(st.top, id, taken.value))
      ensures primary.rows == old(primary.rows) - {id} && primary.len == old(primary.len)
      ensures taken == Get(old(primary.rows), id)
      ensures taken.None? ==> dirty == old(dirty) && primary.rows == old(primary.rows)
      ensures taken.Some? ==> dirty == Spec.MarkDirty(old(dirty), id)
    {
      hide IdsOK, MapOf, AllPagesOK, NothingFrom, Indexed, Shape, DirtyOK;
      if id in primary.rows {
        StoredBelow(primary, id);
      }
      IdsRemove(primary.rows, id);
      CountUpdate(primary.rows, id, Row(0, []));
      assert id !in primary.rows ==> primary.rows - {id} == primary.rows;
      taken := primary.Take(id);
      if taken.Some? {
        rowCount := rowCount - 1;
        MarkDirty(id);
        OnRemove(id, taken.value);
      }
    }

    method Remove(id: int) returns (error: Option<TableError>)
      requires Valid()
      modifies this, primary, inDirty, indices
      ensures Valid() && View() == Spec.Remove(old(View()), id)
      ensures error == RemoveError(old(View()), id)
    {
      hide Ties, ToStack, DirtyOK, IdsOK, MapOf, AllPagesOK, NothingFrom, Indexed, Shape;
      ghost var t := View();
      OwnId(t.rows, id);
      var taken := TakeOut(id);
      if taken.None? {
        return Some(NotFound(id));
      }
      EraseAll(taken.value, t.rows);
      return None;
    }

    // ----- blobs ------------------------------------------------------------

    method AllocBlob(bytes: seq<Byte>) returns (r: BlobRef)
      requires Valid() && FreeInside(View()) && |bytes| < U32
      modifies this`blobs, this`free, this`freed, this`patches, this`sessions
      ensures Valid() && View() == Spec.Alloc(old(View()), bytes)
      ensures r == AllocRef(old(View()), bytes)
    {
      hide Ties, ToStack, DirtyOK, StoreOK, FindFree, Write;
      if bytes == [] {
        return BlobRef(0, 0);
      }
      var len := |bytes| % U32;
      var stack := StackOf(free, len);
      TiesPop(free, freed, len);
      if stack != [] {
        var off := stack[|stack| - 1];
        r := BlobRef(off, len);
        ghost var i := FindFree(freed, len).value;
        assert freed[i] in freed;
        free := free[len := stack[..|stack| - 1]];
        freed := RemoveAt(freed, i);
        blobs := Write(blobs, off, bytes);
        if off < flushed {
          patches := patches + [r];
        }
        if sessions != [] {
          var s := sessions[|sessions| - 1];
          TopOf(sessions);
          SetTop(s.(reused := s.reused + [r]));
        }
        StackEmpty(old(sessions));
        return r;
      }
      r := BlobRef(|blobs| % U32, len);
      blobs := blobs + bytes;
    }

    method FreeBlob(r: BlobRef)
      requires Valid()
      modifies this`free, this`freed, this`sessions
      ensures Valid() && View() == Spec.FreeBlob(old(View()), r)
    {
      hide Ties, ToStack, DirtyOK, StoreOK;
      StackEmpty(sessions);
      if r.len != 0 {
        if sessions != [] {
          var s := sessions[|sessions| - 1];
          TopOf(sessions);
          SetTop(s.(freed := s.freed + [r]));
        } else {
          PushFree(r);
        }
      }
    }

    method PushFree(r: BlobRef)
      requires Ties(free, freed)
      modifies this`free, this`freed
      ensures Ties(free, freed) && freed == old(freed) + [r]
    {
      TiesPush(free, freed, r);
      free := free[r.len := StackOf(free, r.len) + [r.off]];
      freed := freed + [r];
    }

    /** Releases a list of spans, in order. */
    method PushAllFree(refs: seq<BlobRef>)
      requires Ties(free, freed)
      modifies this`free, this`freed
      ensures Ties(free, freed) && freed == old(freed) + refs
    {
      hide Ties;
      var i := 0;
      while i < |refs|
        invariant 0 <= i <= |refs|
        invariant Ties(free, freed) && freed == old(freed) + refs[..i]
      {
        PushFree(refs[i]);
        assert refs[..i + 1] == refs[..i] + [refs[i]];
        i := i + 1;
      }
      assert refs[..i] == refs;
    }

    // ----- sessions ---------------------------------------------------------

    method StartUndoSession() returns (r: int)
      requires Valid()
      modifies this`sessions, this`revision
      ensures Valid() && View() == StartSession(old(View())) && r == revision
    {
      hide Ties, DirtyOK, StoreOK;
      var s := Session(map[], map[], [], [], primary.len, |blobs|, [], []);
      PushStack(sessions, s);
      sessions := sessions + [s];
      revision := revision + 1;
      return revision;
    }

    method SetRevision(newRevision: int) returns (ok: bool)
      requires Loose()
      modifies this`revision
      ensures Loose() && View() == Spec.SetRevision(old(View()), newRevision)
      ensures ok == CanSetRevision(old(View()), newRevision)
    {
      hide Ties, DirtyOK, LooseStore;
      if sessions != [] || newRevision < revision {
        return false;
      }
      revision := newRevision;
      return true;
    }

    method MarkFlushed()
      requires Loose()
      modifies this`dirty, this`patches, this`flushed, inDirty
      ensures Loose() && View() == Spec.MarkFlushed(old(View()))
    {
      hide Ties, LooseStore, Holds;
      OnlyNats(inDirty);
      assert forall j :: 0 <= j < |dirty| ==> dirty[j] in dirty;
      var i := 0;
      while i < |dirty|
        invariant 0 <= i <= |dirty| && inDirty.Valid()
        invariant forall id :: id in inDirty.ids <==> id in dirty && id !in dirty[..i]
        invariant forall j :: 0 <= j < |dirty| ==> 0 <= dirty[j]
        invariant dirty == old(dirty)
      {
        assert dirty[..i + 1] == dirty[..i] + [dirty[i]];
        inDirty.Remove(dirty[i]);
        i := i + 1;
      }
      assert dirty[..i] == dirty;
      dirty := [];
      patches := [];
      flushed := |blobs|;
    }

    /** Drops the undo history at or before `upTo`. */
    method Commit(upTo: int)
      requires Valid()
      modifies this`sessions, this`free, this`freed
      ensures Valid() && View() == Spec.Commit(old(View()), upTo)
      ensures View().revision == old(View()).revision
      ensures forall k: int :: OpenedAt(View().undo, View().revision, k) ==
                               if k > upTo then OpenedAt(old(View()).undo, old(View()).revision, k) else None
    {
      SessionLaws.CommitEndsOlder(View(), upTo);
      hide Ties, DirtyOK, StoreOK, ToStack, FreedOutside, Innermost;
      var r := if upTo < revision then upTo else revision;
      var count := if r == revision then |sessions|
                   else if revision - r < |sessions| then |sessions| - (revision - r)
                   else 0;
      DepthOfStack(sessions);
      KeptOutside(sessions, count);
      var i := 0;
      while i < count
        invariant 0 <= i <= count && sessions == old(sessions)[i..]
        invariant Ties(free, freed) && freed == old(freed) + FreedFirst(old(sessions), i)
      {
        var s := sessions[0];
        sessions := sessions[1..];
        PushAllFree(s.freed);
        i := i + 1;
      }
    }

    /** Folds session `s` into the session around it. */
    static method MergeInto(outer: Session, s: Session) returns (m: Session)
      requires Lists(s.modifiedOrder, s.modified) && Lists(s.removedOrder, s.removed)
      ensures m == Merge(outer, s)
    {
      hide Lists, NewIds, Below;
      var mods, modOrder := MergeModifiedInto(outer, s);
      var rems, remOrder := MergeRemovedInto(outer, s);
      m := outer.(freed := outer.freed + s.freed, reused := outer.reused + s.reused,
                  modified := mods, modifiedOrder := modOrder, removed := rems, removedOrder := remOrder);
    }

    static method MergeModifiedInto(outer: Session, s: Session) returns (mods: Rows, order: seq<int>)
      requires Lists(s.modifiedOrder, s.modified)
      ensures mods == Below(s.modified, outer.oldNextId) + outer.modified
      ensures order == outer.modifiedOrder + NewIds(s.modifiedOrder, outer.oldNextId, outer.modified)
    {
      hide Lists, NewIds, Below, Kept, Untouched;
      mods, order := outer.modified, outer.modifiedOrder;
      var left, ids := s.modified, s.modifiedOrder;
      KeptNone(s.modified, ids, outer.oldNextId, outer.modified);
      var i := 0;
      while i < |ids|
        invariant 0 <= i <= |ids|
        invariant order == outer.modifiedOrder + NewIds(ids[..i], outer.oldNextId, outer.modified)
        invariant mods == Kept(s.modified, ids[..i], outer.oldNextId) + outer.modified
        invariant Untouched(left, s.modified, ids[..i])
      {
        var id := ids[i];
        TouchNext(left, s.modified, ids, i);
        KeptNext(s.modified, ids, i, outer.oldNextId, outer.modified);
        NewIdsNext(ids, i, outer.oldNextId, outer.modified);
        if id < outer.oldNextId && id !in mods && id in left {
          order := order + [id];
          mods := mods[id := left[id]];
          left := left - {id};
        }
        i := i + 1;
      }
      KeptAll(s.modified, ids, outer.oldNextId);
    }

    static method MergeRemovedInto(outer: Session, s: Session) returns (rems: Rows, order: seq<int>)
      requires Lists(s.removedOrder, s.removed)
      ensures rems == outer.removed + Below(s.removed, outer.oldNextId)
      ensures order == outer.removedOrder + NewIds(s.removedOrder, outer.oldNextId, outer.removed)
    {
      hide Lists, NewIds, Below, Kept, Untouched;
      rems, order := outer.removed, outer.removedOrder;
      var left, ids := s.removed, s.removedOrder;
      KeptNone(s.removed, ids, outer.oldNextId, outer.removed);
      var i := 0;
      while i < |ids|
        invariant 0 <= i <= |ids|
        invariant order == outer.removedOrder + NewIds(ids[..i], outer.oldNextId, outer.removed)
        invariant rems == outer.removed + Kept(s.removed, ids[..i], outer.oldNextId)
        invariant Untouched(left, s.removed, ids[..i])
      {
        var id := ids[i];
        TouchNext(left, s.removed, ids, i);
        KeptNext(s.removed, ids, i, outer.oldNextId, outer.removed);
        NewIdsNext(ids, i, outer.oldNextId, outer.removed);
        if id < outer.oldNextId && id in left {
          if id !in rems {
            order := order + [id];
          }
          rems := rems[id := left[id]];
          left := left - {id};
        }
        i := i + 1;
      }
      KeptAll(s.removed, ids, outer.oldNextId);
    }

    /** Combines the two innermost sessions, or makes the only one permanent. */
    method Squash()
      requires Valid()
      requires sessions != [] ==> var s := sessions[|sessions| - 1];
               Lists(s.modifiedOrder, s.modified) && Lists(s.removedOrder, s.removed)
      modifies this`sessions, this`revision, this`free, this`freed
      ensures Valid() && View() == Spec.Squash(old(View()))
    {
      hide Ties, DirtyOK, StoreOK, Lists, Merge;
      if sessions == [] {
        return;
      }
      var s := sessions[|sessions| - 1];
      sessions := sessions[..|sessions| - 1];
      revision := revision - 1;
      if sessions == [] {
        PushAllFree(s.freed);
        return;
      }
      var m := MergeInto(sessions[|sessions| - 1], s);
      SetTop(m);
    }

    // ----- undo -------------------------------------------------------------

    /** Gives back the reused spans that lie in the truncated arena. */
    method ReleaseReused(reused: seq<BlobRef>, bound: nat)
      requires Ties(free, freed)
      modifies this`free, this`freed
      ensures Ties(free, freed) && freed == old(freed) + BelowOffset(reused, bound)
    {
      hide Ties;
      var i := 0;
      while i < |reused|
        invariant 0 <= i <= |reused|
        invariant Ties(free, freed) && freed == old(freed) + BelowOffset(reused[..i], bound)
      {
        assert reused[..i + 1][..i] == reused[..i];
        if reused[i].off < bound {
          PushFree(reused[i]);
        }
        i := i + 1;
      }
      assert reused[..i] == reused;
    }

    /** Erases every row created since `next` from indices and store. */
    method DropCreated(next: nat)
      requires StoreOK() && DirtyOK() && next <= primary.len
      modifies this`rowCount, this`dirty, primary, inDirty, indices
      ensures StoreOK() && DirtyOK() && primary.len == next
      ensures primary.rows == Below(old(primary.rows), next)
      ensures dirty == MarkAll(old(dirty), Range(next, old(primary.len)))
    {
      hide DirtyOK, IdsOK, MapOf, AllPagesOK, NothingFrom, Indexed, Shape, MarkAll, Range, OutsideRange, Below;
      ghost var rows := primary.rows;
      RangeStart(rows, next, dirty);
      var id := next;
      while id < primary.len
        invariant next <= id <= primary.len && primary.rows == rows && primary.len == old(primary.len)
                  && primary.Valid()
        invariant Shape() && Indexed(OutsideRange(rows, next, id)) && rowCount == |OutsideRange(rows, next, id)|
        invariant DirtyOK() && dirty == MarkAll(old(dirty), Range(next, id))
      {
        RangeNext(rows, next, id, old(dirty));
        OwnId(rows, id);
        MarkDirty(id);
        var found := primary.Get(id);
        if found.Some? {
          EraseAll(found.value, OutsideRange(rows, next, id));
          rowCount := rowCount - 1;
        }
        id := id + 1;
      }
      RangeEnd(primary, rows, next);
      primary.SetLen(next);
    }

    /** The rows that come back although they were removed, and the other modified values. */
    static method CollectRemoved(s: Session, ghost target: Rows) returns (list: seq<Row>, left: Rows)
      requires Targets(s, target)
      ensures Picks(list, target, s.removed.Keys) && left == s.modified - s.removed.Keys
    {
      hide Picks;
      list, left := [], s.modified;
      PicksNone(target);
      var rest := s.removed.Keys;
      assert rest - rest == {};
      while exists id :: id in rest
        invariant rest <= s.removed.Keys
        invariant Picks(list, target, s.removed.Keys - rest)
        invariant left == s.modified - (s.removed.Keys - rest)
        decreases rest
      {
        var id :| id in rest;
        var row := if id in left then left[id] else s.removed[id];
        PicksAdd(list, target, s.removed.Keys - rest, row);
        assert s.removed.Keys - (rest - {id}) == (s.removed.Keys - rest) + {id};
        left := left - {id};
        rest := rest - {id};
        list := list + [row];
      }
      assert rest == {};
      assert s.removed.Keys - rest == s.removed.Keys;
    }

    /** Erases the current keys of the rows that are only modified, and lists their saved values. */
    method CollectModified(left: Rows, ghost target: Rows) returns (list: seq<Row>)
      requires Shape() && primary.Valid() && IdsOK(primary.rows) && Indexed(primary.rows)
      requires left.Keys <= primary.rows.Keys
      requires forall id :: id in left ==> id in target && target[id] == left[id] && left[id].id == id
      modifies indices
      ensures Indexed(primary.rows - left.Keys) && Picks(list, target, left.Keys)
    {
      hide Picks, IdsOK, Indexed, Shape, MapOf, AllPagesOK, NothingFrom;
      list := [];
      PicksNone(target);
      var rest := left.Keys;
      assert rest - rest == {};
      assert primary.rows - (left.Keys - rest) == primary.rows;
      while exists id :: id in rest
        invariant rest <= left.Keys
        invariant Picks(list, target, left.Keys - rest)
        invariant Indexed(primary.rows - (left.Keys - rest))
        decreases rest
      {
        var id :| id in rest;
        var found := primary.Get(id);
        OwnId(primary.rows, id);
        EraseAll(found.value, primary.rows - (left.Keys - rest));
        PicksAdd(list, target, left.Keys - rest, left[id]);
        assert left.Keys - (rest - {id}) == (left.Keys - rest) + {id};
        assert primary.rows - (left.Keys - rest) - {id} == primary.rows - ((left.Keys - rest) + {id});
        rest := rest - {id};
        list := list + [left[id]];
      }
      assert rest == {};
      assert left.Keys - rest == left.Keys;
    }

    /** Stores listed rows again and gives them back their keys. */
    method PutBack(list: seq<Row>, ghost indexed: Rows, ghost target: Rows, ghost ids: set<int>)
      requires PrimaryOK() && DirtyOK() && Indexed(indexed)
      requires Picks(list, target, ids) && Within(indexed, target) && ids !! indexed.Keys
      requires RowsOK(sc, primary.len, target)
      modifies this`rowCount, this`dirty, primary, inDirty, indices
      ensures PrimaryOK() && DirtyOK() && Indexed(PutAll(indexed, list)) && primary.len == old(primary.len)
      ensures primary.rows == PutAll(old(primary.rows), list)
      ensures dirty == MarkAll(old(dirty), IdsOf(list))
    {
      hide DirtyOK, IdsOK, MapOf, AllPagesOK, NothingFrom, Indexed, Shape, MarkAll, PutAll, Picks, Within, RowsOK,
           Conflict;
      PutNone(indexed, list, dirty);
      PutNone(primary.rows, list, dirty);
      var i := 0;
      while i < |list|
        invariant 0 <= i <= |list|
        invariant PrimaryOK() && DirtyOK() && Indexed(PutAll(indexed, list[..i])) && primary.len == old(primary.len)
        invariant primary.rows == PutAll(old(primary.rows), list[..i])
        invariant dirty == MarkAll(old(dirty), IdsOf(list[..i]))
      {
        var row := list[i];
        PutNext(indexed, list, i);
        PutNext(old(primary.rows), list, i);
        PutFits(sc, primary.len, indexed, list, i, target, ids);
        MarkNext(old(dirty), list, i);
        var conflict := TryInsertAll(row, PutAll(indexed, list[..i]));
        PutOne(row);
        i := i + 1;
      }
      assert list[..i] == list;
    }

    /** Stores a row again. */
    method PutOne(row: Row)
      requires PrimaryOK() && DirtyOK() && 0 <= row.id < primary.len
      modifies this`rowCount, this`dirty, primary, inDirty
      ensures PrimaryOK() && DirtyOK() && primary.len == old(primary.len)
      ensures primary.rows == old(primary.rows)[row.id := row]
      ensures dirty == Spec.MarkDirty(old(dirty), row.id)
    {
      hide DirtyOK, IdsOK, MapOf, AllPagesOK, NothingFrom, Shape;
      CountUpdate(primary.rows, row.id, row);
      IdsUpdate(primary.rows, row);
      var wasAbsent := primary.Insert(row.id, row);
      if wasAbsent {
        rowCount := rowCount + 1;
      }
      MarkDirty(row.id);
    }

    /** Puts back the rows of a session whose created rows are already gone. */
    method RestoreFrom(s: Session, ghost target: Rows) returns (ghost order: seq<int>)
      requires StoreOK() && DirtyOK()
      requires Targets(s, target) && RowsOK(sc, primary.len, target) && Follows(s, primary.rows, target)
      modifies this`rowCount, this`dirty, primary, inDirty, indices
      ensures StoreOK() && DirtyOK() && primary.len == old(primary.len) && primary.rows == target
      ensures RestoreOrder(s, order) && dirty == MarkAll(old(dirty), order)
    {
      hide DirtyOK, IdsOK, MapOf, AllPagesOK, NothingFrom, Indexed, Shape, MarkAll, PutAll, Picks, Within, RowsOK,
           RestoreOrder, IdsOf;
      var removedList, left := CollectRemoved(s, target);
      LeftIsStored(s, primary.rows, target, left);
      var modifiedList := CollectModified(left, target);
      ghost var ids := s.removed.Keys + left.Keys;
      PicksJoin(modifiedList, removedList, target, left.Keys, s.removed.Keys);
      RestoredOrder(s, modifiedList, removedList, target, left);
      RestFits(s, primary.rows, target, left);
      RestComplete(s, primary.rows, target, left, modifiedList + removedList);
      PutBack(modifiedList + removedList, primary.rows - left.Keys, target, ids);
      order := IdsOf(modifiedList + removedList);
    }

    /** Reverts to the start of the innermost session. */
    method Undo() returns (ghost order: seq<int>)
      requires Valid() && RowInv(sc, View())
      modifies this, primary, inDirty, indices
      ensures Valid() && View() == UndoSession(old(View()), order)
      ensures old(sessions) != [] ==> RestoreOrder(old(sessions[|sessions| - 1]), order)
    {
      hide Ties, DirtyOK, StoreOK, RowInv, RowsOK, ToStack, MarkAll, Range, BelowOffset, Restore, RestoreOrder, Targets,
           Follows;
      if sessions == [] {
        StackEmpty(sessions);
        order := [];
        return;
      }
      var s := sessions[|sessions| - 1];
      PopStack(sessions);
      UndoTarget(sc, View());
      ghost var target := Restore(s, primary.rows);
      sessions := sessions[..|sessions| - 1];
      blobs := Truncate(blobs, s.oldBlobLen);
      ReleaseReused(s.reused, s.oldBlobLen);
      DropCreated(s.oldNextId);
      order := RestoreFrom(s, target);
      revision := revision - 1;
    }
  }
}
