/** The database: its tables, their registration, and the session operations that fan out to them. */
module DbClass {
  import opened ArenaTypes
  import Spec = TableSpec
  import SessionLaws
  import opened RowHistory
  import opened TableClass
  import opened Runs
  import opened TableOps
  import opened SessionLevels
  import opened DbLifecycle
  import FreeList

  /** The objects a table is made of. */
  ghost function Parts(t: Table): (parts: set<object>)
    ensures t in parts && t.primary in parts && t.inDirty in parts
    ensures forall i :: 0 <= i < |t.indices| ==> t.indices[i] in parts
  {
    {t, t.primary, t.inDirty} + set i | 0 <= i < |t.indices| :: t.indices[i]
  }

  ghost function AllParts(tables: seq<Table>): (parts: set<object>)
    ensures forall x, o: object :: 0 <= x < |tables| && o in Parts(tables[x]) ==> o in parts
  {
    set x, o | 0 <= x < |tables| && o in Parts(tables[x]) :: o
  }

  ghost predicate Separate(tables: seq<Table>)
  {
    forall x, y :: 0 <= x < |tables| && 0 <= y < |tables| && x != y ==> Parts(tables[x]) !! Parts(tables[y])
  }

  /** The table is sound and has this value. */
  ghost predicate Holds(t: Table, view: Tab)
    reads Parts(t)
  {
    t.Valid() && t.View() == view
  }

  /** The table has this value, and is sound but for rows filed under ids they do not carry. */
  ghost predicate LooselyHolds(t: Table, view: Tab)
    reads Parts(t)
  {
    t.Loose() && t.View() == view
  }

  lemma HoldsIsLoose(t: Table, view: Tab)
    ensures Holds(t, view) <==> LooselyHolds(t, view) && IdsOK(view.rows)
  {
    hide Table.Valid, Table.Loose, IdsOK;
    t.ValidIsLoose();
  }

  /** `byTypeId` finds each table, and only tables. */
  ghost predicate Registered(byTypeId: seq<Option<nat>>, typeIds: seq<nat>)
  {
    && (forall x :: 0 <= x < |typeIds| ==> typeIds[x] < |byTypeId| && byTypeId[typeIds[x]] == Some(x))
    && (forall k :: 0 <= k < |byTypeId| && byTypeId[k].Some? ==>
        byTypeId[k].value < |typeIds| && typeIds[byTypeId[k].value] == k)
  }

  /** The directory once it reaches up to `typeId`. */
  function Resized(byTypeId: seq<Option<nat>>, typeId: nat): seq<Option<nat>>
  {
    if typeId < |byTypeId| then byTypeId else byTypeId + seq(typeId + 1 - |byTypeId|, i => None)
  }

  lemma RegisterNext(byTypeId: seq<Option<nat>>, typeIds: seq<nat>, typeId: nat)
    requires Registered(byTypeId, typeIds) && (typeId < |byTypeId| ==> byTypeId[typeId].None?)
    ensures Registered(Resized(byTypeId, typeId)[typeId := Some(|typeIds|)], typeIds + [typeId])
  {
  }

  lemma NotRegistered(byTypeId: seq<Option<nat>>, typeIds: seq<nat>, typeId: nat)
    requires Registered(byTypeId, typeIds)
    ensures typeId in typeIds <==> typeId < |byTypeId| && byTypeId[typeId].Some?
  {
  }

  lemma AllCanOrNone(views: seq<Tab>, revision: int)
    requires Lockstep(views)
    ensures forall x, y :: 0 <= x < |views| && 0 <= y < |views| ==>
            Spec.CanSetRevision(views[x], revision) == Spec.CanSetRevision(views[y], revision)
  {
    var depth: nat, shared: int :| At(views, depth, shared);
    forall x | 0 <= x < |views| ensures Spec.CanSetRevision(views[x], revision) <==> depth == 0 && shared <= revision {
    }
  }

  lemma RefusedByAll(views: seq<Tab>, revision: int)
    requires forall x :: 0 <= x < |views| ==> !Spec.CanSetRevision(views[x], revision)
    ensures forall x :: 0 <= x < |views| ==> Spec.SetRevision(views[x], revision) == views[x]
  {
  }

  // ----- one table ----------------------------------------------------------

  method StartOn(t: Table, ghost view: Tab)
    requires Holds(t, view)
    modifies Parts(t)
    ensures Holds(t, Spec.StartSession(view))
  {
    hide Table.StoreOK, Table.DirtyOK, FreeList.Ties;
    var r := t.StartUndoSession();
  }

  method SetRevisionOn(t: Table, revision: int, ghost view: Tab) returns (ok: bool)
    requires LooselyHolds(t, view)
    modifies Parts(t)
    ensures LooselyHolds(t, Spec.SetRevision(view, revision)) && ok == Spec.CanSetRevision(view, revision)
  {
    hide Table.LooseStore, Table.DirtyOK, FreeList.Ties;
    ok := t.SetRevision(revision);
  }

  method CommitOn(t: Table, revision: int, ghost view: Tab)
    requires Holds(t, view)
    modifies Parts(t)
    ensures Holds(t, Spec.Commit(view, revision))
  {
    hide Table.StoreOK, Table.DirtyOK, FreeList.Ties, Spec.Commit;
    t.Commit(revision);
  }

  method SquashOn(t: Table, ghost view: Tab)
    requires Holds(t, view) && RowInv(t.sc, view)
    modifies Parts(t)
    ensures Holds(t, Spec.Squash(view))
  {
    hide Table.StoreOK, Table.DirtyOK, FreeList.Ties, Spec.Squash;
    InnermostLists(t, view);
    t.Squash();
  }

  lemma InnermostLists(t: Table, view: Tab)
    requires t.View() == view && RowInv(t.sc, view)
    ensures t.sessions != [] ==> var s := t.sessions[|t.sessions| - 1];
            Lists(s.modifiedOrder, s.modified) && Lists(s.removedOrder, s.removed)
  {
    StackEmpty(t.sessions);
    if t.sessions != [] {
      TopOf(t.sessions);
    }
  }

  function Created(error: Option<TableError>, id: int): Result<int, TableError>
  {
    match error
    case Some(e) => Err(e)
    case None => Ok(id)
  }

  method CreateOn(t: Table, obj: Row, ghost view: Tab) returns (r: Result<int, TableError>)
    requires Holds(t, view) && |obj.data| == t.sc.size
    modifies Parts(t)
    ensures Holds(t, Spec.Emplace(t.sc, view, obj))
    ensures r == Created(Spec.EmplaceError(t.sc, view, obj), view.nextId)
  {
    hide Table.StoreOK, Table.DirtyOK, FreeList.Ties, Spec.Emplace, Spec.EmplaceError;
    r := t.Emplace(obj);
  }

  method ModifyOn(t: Table, id: int, updated: Row, ghost view: Tab) returns (error: Option<TableError>)
    requires Holds(t, view) && |updated.data| == t.sc.size
    modifies Parts(t)
    ensures Holds(t, Spec.Modify(t.sc, view, id, updated)) && error == Spec.ModifyError(t.sc, view, id, updated)
  {
    hide Table.StoreOK, Table.DirtyOK, FreeList.Ties, Spec.Modify, Spec.ModifyError;
    error := t.Modify(id, updated);
  }

  method RemoveOn(t: Table, id: int, ghost view: Tab) returns (error: Option<TableError>)
    requires Holds(t, view)
    modifies Parts(t)
    ensures Holds(t, Spec.Remove(view, id)) && error == Spec.RemoveError(view, id)
  {
    hide Table.StoreOK, Table.DirtyOK, FreeList.Ties, Spec.Remove, Spec.RemoveError;
    error := t.Remove(id);
  }

  method MarkFlushedOn(t: Table, ghost view: Tab)
    requires LooselyHolds(t, view)
    modifies Parts(t)
    ensures LooselyHolds(t, Spec.MarkFlushed(view))
  {
    hide Table.LooseStore, Table.DirtyOK, FreeList.Ties;
    t.MarkFlushed();
  }

  method UndoOn(t: Table, ghost view: Tab) returns (ghost order: seq<int>)
    requires Holds(t, view) && RowInv(t.sc, view)
    modifies Parts(t)
    ensures Holds(t, Spec.UndoSession(view, order))
    ensures view.undo.Push? ==> Spec.RestoreOrder(view.undo.top, order)
  {
    hide Table.StoreOK, Table.DirtyOK, FreeList.Ties, Spec.UndoSession, Spec.RestoreOrder, RowInv, ToStack;
    StackEmpty(t.sessions);
    if t.sessions != [] {
      TopOf(t.sessions);
    }
    order := t.Undo();
  }

  /** Raises a new table to revision `lo` and opens sessions up to revision `hi`. */
  method BringUp(t: Table, lo: int, hi: int)
    requires Holds(t, EmptyTab()) && 0 <= lo <= hi
    modifies Parts(t)
    ensures Holds(t, Joined(hi - lo, hi))
  {
    hide Holds, LooselyHolds;
    HoldsIsLoose(t, EmptyTab());
    var ok := SetRevisionOn(t, lo, EmptyTab());
    HoldsIsLoose(t, Joined(0, lo));
    var revision := lo;
    while revision < hi
      invariant lo <= revision <= hi && Holds(t, Joined(revision - lo, revision))
    {
      StartOn(t, Joined(revision - lo, revision));
      revision := revision + 1;
    }
  }

  lemma SharedBy(views: seq<Tab>) returns (depth: nat, revision: int)
    requires Lockstep(views)
    ensures At(views, depth, revision) && (views == [] ==> depth == 0 && revision == 0)
  {
    if views == [] {
      depth, revision := 0, 0;
    } else {
      depth, revision :| At(views, depth, revision);
    }
  }

  lemma FirstShared(t: Table, views: seq<Tab>, depth: nat, revision: int)
    requires views != [] && Holds(t, views[0]) && At(views, depth, revision)
    ensures t.revision == revision && |t.sessions| == depth <= revision
  {
    DepthOfStack(t.sessions);
  }

  lemma NextLockstep(views: seq<Tab>, depth: nat, revision: int)
    requires At(views, depth, revision)
    ensures Lockstep(views + [Joined(depth, revision)])
  {
    TableJoins(Schema(0, [], r => multiset{}), depth, revision);
    assert At(views + [Joined(depth, revision)], depth, revision);
  }

  method NewTable(sc: Schema, lo: int, hi: int, ghost others: set<object>) returns (t: Table)
    requires 0 <= lo <= hi
    ensures fresh(Parts(t)) && others !! Parts(t) && t.sc == sc && Holds(t, Joined(hi - lo, hi))
  {
    hide Joined, Table.StoreOK, Table.DirtyOK, FreeList.Ties;
    t := new Table(sc);
    NewIsEmpty(t);
    BringUp(t, lo, hi);
  }

  lemma MoreParts(tables: seq<Table>, t: Table)
    ensures AllParts(tables + [t]) == AllParts(tables) + Parts(t)
  {
    hide Parts;
    var more := tables + [t];
    forall o | o in AllParts(more) ensures o in AllParts(tables) + Parts(t) {
      var x :| 0 <= x < |more| && o in Parts(more[x]);
    }
    forall o | o in Parts(t) ensures o in AllParts(more) {
      assert more[|tables|] == t;
    }
    forall o | o in AllParts(tables) ensures o in AllParts(more) {
      var x :| 0 <= x < |tables| && o in Parts(tables[x]);
      assert more[x] == tables[x];
    }
  }

  lemma MoreSeparate(tables: seq<Table>, t: Table)
    requires Separate(tables) && AllParts(tables) !! Parts(t)
    ensures Separate(tables + [t])
  {
    hide Parts, AllParts;
    forall x, o | 0 <= x < |tables| && o in Parts(tables[x]) ensures o !in Parts(t) {
      assert o in AllParts(tables);
    }
  }

  lemma MoreHold(tables: seq<Table>, views: seq<Tab>, t: Table, view: Tab)
    requires AllHold(tables, views) && Holds(t, view)
    ensures AllHold(tables + [t], views + [view])
  {
    hide Holds, AllParts, Parts;
  }

  lemma NewIsEmpty(t: Table)
    requires t.Valid() && t.View() == EmptyTab()
    ensures Holds(t, EmptyTab()) && Joined(0, 0) == EmptyTab()
  {
  }

  // ----- every table --------------------------------------------------------

  ghost predicate AllHold(tables: seq<Table>, views: seq<Tab>)
    reads AllParts(tables)
  {
    |tables| == |views| && forall x :: 0 <= x < |tables| ==> Holds(tables[x], views[x])
  }

  ghost predicate AllLoose(tables: seq<Table>, views: seq<Tab>)
    reads AllParts(tables)
  {
    |tables| == |views| && forall x :: 0 <= x < |tables| ==> LooselyHolds(tables[x], views[x])
  }

  /** In every table every row is filed under the id it carries. */
  ghost predicate AllOwn(views: seq<Tab>)
  {
    forall x :: 0 <= x < |views| ==> IdsOK(views[x].rows)
  }

  lemma AllHoldIsLoose(tables: seq<Table>, views: seq<Tab>)
    ensures AllHold(tables, views) <==> AllLoose(tables, views) && AllOwn(views)
  {
    hide Holds, LooselyHolds, IdsOK, AllParts, Parts;
    if |tables| == |views| {
      forall x | 0 <= x < |tables|
        ensures Holds(tables[x], views[x]) <==> LooselyHolds(tables[x], views[x]) && IdsOK(views[x].rows)
      {
        HoldsIsLoose(tables[x], views[x]);
      }
    }
  }

  method StartAll(tables: seq<Table>, ghost views: seq<Tab>) returns (ghost now: seq<Tab>)
    requires Separate(tables) && AllHold(tables, views)
    modifies AllParts(tables)
    ensures AllHold(tables, now)
    ensures forall x :: 0 <= x < |views| ==> now[x] == Spec.StartSession(views[x])
  {
    hide Parts, AllParts, Table.Valid, Table.View, Spec.StartSession;
    now := views;
    var i := 0;
    while i < |tables|
      invariant 0 <= i <= |tables| && AllHold(tables, now)
      invariant forall x :: 0 <= x < |now| ==> now[x] == if x < i then Spec.StartSession(views[x]) else views[x]
    {
      StartOn(tables[i], now[i]);
      assert forall y :: 0 <= y < |tables| && y != i ==> Holds(tables[y], now[y]);
      now := now[i := Spec.StartSession(now[i])];
      i := i + 1;
    }
  }

  method SquashAll(tables: seq<Table>, ghost views: seq<Tab>) returns (ghost now: seq<Tab>)
    requires Separate(tables) && AllHold(tables, views)
    requires forall x :: 0 <= x < |tables| ==> RowInv(tables[x].sc, views[x])
    modifies AllParts(tables)
    ensures AllHold(tables, now)
    ensures forall x :: 0 <= x < |views| ==> now[x] == Spec.Squash(views[x])
  {
    hide Parts, AllParts, Table.Valid, Table.View, Spec.Squash, RowInv;
    now := views;
    var i := 0;
    while i < |tables|
      invariant 0 <= i <= |tables| && AllHold(tables, now)
      invariant forall x :: 0 <= x < |now| ==> now[x] == if x < i then Spec.Squash(views[x]) else views[x]
    {
      SquashOn(tables[i], now[i]);
      assert forall y :: 0 <= y < |tables| && y != i ==> Holds(tables[y], now[y]);
      now := now[i := Spec.Squash(now[i])];
      i := i + 1;
    }
  }

  method CommitAll(tables: seq<Table>, revision: int, ghost views: seq<Tab>) returns (ghost now: seq<Tab>)
    requires Separate(tables) && AllHold(tables, views)
    modifies AllParts(tables)
    ensures AllHold(tables, now)
    ensures forall x :: 0 <= x < |views| ==> now[x] == Spec.Commit(views[x], revision)
  {
    hide Parts, AllParts, Table.Valid, Table.View, Spec.Commit;
    now := views;
    var i := 0;
    while i < |tables|
      invariant 0 <= i <= |tables| && AllHold(tables, now)
      invariant forall x :: 0 <= x < |now| ==> now[x] == if x < i then Spec.Commit(views[x], revision) else views[x]
    {
      CommitOn(tables[i], revision, now[i]);
      assert forall y :: 0 <= y < |tables| && y != i ==> Holds(tables[y], now[y]);
      now := now[i := Spec.Commit(now[i], revision)];
      i := i + 1;
    }
  }

  method MarkFlushedAll(tables: seq<Table>, ghost views: seq<Tab>) returns (ghost now: seq<Tab>)
    requires Separate(tables) && AllLoose(tables, views)
    modifies AllParts(tables)
    ensures AllLoose(tables, now)
    ensures forall x :: 0 <= x < |views| ==> now[x] == Spec.MarkFlushed(views[x])
  {
    hide Parts, AllParts, Table.Loose, Table.View, Spec.MarkFlushed;
    now := views;
    var i := 0;
    while i < |tables|
      invariant 0 <= i <= |tables| && AllLoose(tables, now)
      invariant forall x :: 0 <= x < |now| ==> now[x] == if x < i then Spec.MarkFlushed(views[x]) else views[x]
    {
      MarkFlushedOn(tables[i], now[i]);
      assert forall y :: 0 <= y < |tables| && y != i ==> LooselyHolds(tables[y], now[y]);
      now := now[i := Spec.MarkFlushed(now[i])];
      i := i + 1;
    }
  }

  method UndoAll(tables: seq<Table>, ghost views: seq<Tab>) returns (ghost now: seq<Tab>, ghost orders: seq<seq<int>>)
    requires Separate(tables) && AllHold(tables, views)
    requires forall x :: 0 <= x < |tables| ==> RowInv(tables[x].sc, views[x])
    modifies AllParts(tables)
    ensures AllHold(tables, now) && |orders| == |tables|
    ensures forall x :: 0 <= x < |views| ==> now[x] == Spec.UndoSession(views[x], orders[x])
    ensures forall x :: 0 <= x < |views| && views[x].undo.Push? ==> Spec.RestoreOrder(views[x].undo.top, orders[x])
  {
    hide Parts, AllParts, Table.Valid, Table.View, Spec.UndoSession, Spec.RestoreOrder, RowInv;
    now, orders := views, [];
    var i := 0;
    while i < |tables|
      invariant 0 <= i <= |tables| && AllHold(tables, now) && |orders| == i
      invariant forall x :: 0 <= x < |now| ==>
                now[x] == if x < i then Spec.UndoSession(views[x], orders[x]) else views[x]
      invariant forall x :: 0 <= x < i && views[x].undo.Push? ==> Spec.RestoreOrder(views[x].undo.top, orders[x])
    {
      ghost var order := UndoOn(tables[i], now[i]);
      assert forall y :: 0 <= y < |tables| && y != i ==> Holds(tables[y], now[y]);
      now := now[i := Spec.UndoSession(now[i], order)];
      orders := orders + [order];
      i := i + 1;
    }
  }

  /** Stops at the first table that refuses; tables in lockstep refuse together, so then nothing changed. */
  method SetRevisionAll(tables: seq<Table>, revision: int, ghost views: seq<Tab>)
    returns (ok: bool, ghost now: seq<Tab>)
    requires Separate(tables) && AllLoose(tables, views) && Lockstep(views)
    modifies AllParts(tables)
    ensures AllLoose(tables, now)
    ensures forall x :: 0 <= x < |views| ==> ok == Spec.CanSetRevision(views[x], revision)
    ensures views == [] ==> ok
    ensures forall x :: 0 <= x < |views| ==> now[x] == Spec.SetRevision(views[x], revision)
  {
    hide Parts, AllParts, Table.Loose, Table.View, Spec.SetRevision, Spec.CanSetRevision, Lockstep;
    AllCanOrNone(views, revision);
    now := views;
    var i := 0;
    while i < |tables|
      invariant 0 <= i <= |tables| && AllLoose(tables, now)
      invariant forall x :: 0 <= x < i ==> Spec.CanSetRevision(views[x], revision)
      invariant forall x :: 0 <= x < |now| ==>
                now[x] == if x < i then Spec.SetRevision(views[x], revision) else views[x]
    {
      ok := SetRevisionOn(tables[i], revision, now[i]);
      assert forall y :: 0 <= y < |tables| && y != i ==> LooselyHolds(tables[y], now[y]);
      now := now[i := Spec.SetRevision(now[i], revision)];
      if !ok {
        RefusedByAll(views, revision);
        return;
      }
      i := i + 1;
    }
    return true, now;
  }

  /** A row operation on one table keeps the lockstep. */
  lemma StillLevel(sc: Schema, views: seq<Tab>, x: nat, op: Op)
    requires Lockstep(views) && x < |views| && ForOne(op) && CanStep(views[x], op)
    ensures Lockstep(views[x := TabStep(sc, views[x], op)])
  {
    hide TabStep;
    var depth: nat, revision: int :| At(views, depth, revision);
    OneKeeps(sc, views[x], op);
    assert At(views[x := TabStep(sc, views[x], op)], depth, revision);
  }

  const ANY := Schema(0, [], r => multiset{})

  lemma SameRows(was: seq<Tab>, now: seq<Tab>, revision: int)
    requires |now| == |was| && forall x :: 0 <= x < |was| ==> now[x] == Spec.SetRevision(was[x], revision)
    ensures AllOwn(now) <==> AllOwn(was)
  {
    hide IdsOK;
    forall x | 0 <= x < |was| ensures now[x].rows == was[x].rows {
    }
  }

  lemma FlushedSameRows(was: seq<Tab>, now: seq<Tab>)
    requires |now| == |was| && forall x :: 0 <= x < |was| ==> now[x] == Spec.MarkFlushed(was[x])
    ensures AllOwn(now) <==> AllOwn(was)
  {
    hide IdsOK;
    forall x | 0 <= x < |was| ensures now[x].rows == was[x].rows {
    }
  }

  class Db {
    var tables: seq<Table>
    var typeIds: seq<nat>
    var byTypeId: seq<Option<nat>>
    /** The values of the tables. */
    ghost var views: seq<Tab>

    ghost predicate Sound()
      reads this, AllParts(tables)
    {
      && |typeIds| == |tables|
      && this !in AllParts(tables)
      && Separate(tables)
      && AllHold(tables, views)
    }

    ghost predicate Valid()
      reads this, AllParts(tables)
    {
      && Sound()
      && Registered(byTypeId, typeIds)
      && Lockstep(views)
    }

    /** Valid, but for rows that may be filed under ids they do not carry. */
    ghost predicate Loose()
      reads this, AllParts(tables)
    {
      && |typeIds| == |tables|
      && this !in AllParts(tables)
      && Separate(tables)
      && AllLoose(tables, views)
      && Registered(byTypeId, typeIds)
      && Lockstep(views)
    }

    lemma ValidIsLoose()
      ensures Valid() <==> Loose() && AllOwn(views)
    {
      hide AllHold, AllLoose, AllOwn, Separate, Registered, Lockstep, AllParts;
      AllHoldIsLoose(tables, views);
    }

    /** The undo history of every table describes rows the table can go back to. */
    ghost predicate RowsSound()
      reads this`tables, this`views
    {
      |views| == |tables| && forall x :: 0 <= x < |tables| ==> RowInv(tables[x].sc, views[x])
    }

    constructor ()
      ensures Valid() && tables == []
    {
      tables, typeIds, byTypeId, views := [], [], [], [];
      new;
      assert At(views, 0, 0);
    }

    /** Opens a session on every table. */
    method StartUndoSession()
      requires Valid()
      modifies this`views, AllParts(tables)
      ensures Valid() && |views| == |old(views)|
      ensures forall x :: 0 <= x < |views| ==> views[x] == Spec.StartSession(old(views)[x])
    {
      hide AllParts, Separate, Holds, Lockstep, Registered, Spec.StartSession;
      views := StartAll(tables, views);
      LockedTogether(ANY, old(views), views, Every(StartOp));
    }

    /** Undoes the innermost session of every table. */
    method Undo() returns (ghost orders: seq<seq<int>>)
      requires Valid() && RowsSound()
      modifies this`views, AllParts(tables)
      ensures Valid() && |orders| == |views| == |old(views)|
      ensures forall x :: 0 <= x < |views| ==> views[x] == Spec.UndoSession(old(views)[x], orders[x])
      ensures forall x :: 0 <= x < |views| && old(views)[x].undo.Push? ==>
              Spec.RestoreOrder(old(views)[x].undo.top, orders[x])
    {
      hide AllParts, Separate, Holds, Lockstep, Registered, Spec.UndoSession, Spec.RestoreOrder, RowInv;
      ghost var now;
      now, orders := UndoAll(tables, views);
      views := now;
      LockedTogether(ANY, old(views), views, UndoEvery(orders));
    }

    /** Folds the innermost session of every table into the one around it. */
    method Squash()
      requires Valid() && RowsSound()
      modifies this`views, AllParts(tables)
      ensures Valid() && |views| == |old(views)|
      ensures forall x :: 0 <= x < |views| ==> views[x] == Spec.Squash(old(views)[x])
    {
      hide AllParts, Separate, Holds, Lockstep, Registered, Spec.Squash, RowInv;
      views := SquashAll(tables, views);
      LockedTogether(ANY, old(views), views, Every(SquashOp));
    }

    /** Makes the sessions at or before `revision` permanent in every table. */
    method Commit(revision: int)
      requires Valid()
      modifies this`views, AllParts(tables)
      ensures Valid() && |views| == |old(views)|
      ensures forall x :: 0 <= x < |views| ==> views[x] == Spec.Commit(old(views)[x], revision)
      ensures forall x, k: int :: 0 <= x < |views| ==>
                OpenedAt(views[x].undo, views[x].revision, k) ==
                if k > revision then OpenedAt(old(views)[x].undo, old(views)[x].revision, k) else None
    {
      hide AllParts, Separate, Holds, Lockstep, Registered, Spec.Commit;
      views := CommitAll(tables, revision, views);
      LockedTogether(ANY, old(views), views, Every(CommitOp(revision)));
      forall x | 0 <= x < |views| {
        SessionLaws.CommitEndsOlder(old(views)[x], revision);
      }
    }

    /** Raises the revision of every table; since they agree, either all of them take it or none does. */
    method SetRevision(revision: int) returns (ok: bool)
      requires Loose()
      modifies this`views, AllParts(tables)
      ensures Loose() && (Valid() <==> old(Valid())) && |views| == |old(views)|
      ensures forall x :: 0 <= x < |views| ==> ok == Spec.CanSetRevision(old(views)[x], revision)
      ensures views == [] ==> ok
      ensures forall x :: 0 <= x < |views| ==> views[x] == Spec.SetRevision(old(views)[x], revision)
    {
      hide AllParts, Separate, LooselyHolds, Holds, AllHold, Valid, Lockstep, Registered, Spec.SetRevision,
           Spec.CanSetRevision, IdsOK;
      ValidIsLoose();
      ghost var now;
      ok, now := SetRevisionAll(tables, revision, views);
      views := now;
      LockedTogether(ANY, old(views), views, Every(SetRevisionOp(revision)));
      SameRows(old(views), views, revision);
      ValidIsLoose();
    }

    // ----- rows -------------------------------------------------------------

    /** Where the table of a type is. */
    method Position(typeId: nat) returns (x: Option<nat>)
      requires Registered(byTypeId, typeIds)
      ensures x.Some? ==> x.value < |typeIds| && typeIds[x.value] == typeId
      ensures x.None? ==> typeId !in typeIds
    {
      NotRegistered(byTypeId, typeIds, typeId);
      return if typeId < |byTypeId| then byTypeId[typeId] else None;
    }

    /** Adds a row to the table of a type; None when the type is not registered. */
    method Create(typeId: nat, obj: Row) returns (r: Option<Result<int, TableError>>)
      requires Valid()
      requires forall x :: 0 <= x < |tables| && typeIds[x] == typeId ==> |obj.data| == tables[x].sc.size
      modifies this`views, AllParts(tables)
      ensures Valid() && (r.None? <==> typeId !in typeIds) && (r.None? ==> views == old(views))
      ensures r.Some? ==> exists x :: 0 <= x < |tables| == |old(views)| && typeIds[x] == typeId
                                      && views == old(views)[x := Spec.Emplace(tables[x].sc, old(views)[x], obj)]
                                      && r.value
                                         == Created(Spec.EmplaceError(tables[x].sc, old(views)[x], obj),
                                                    old(views)[x].nextId)
    {
      hide Parts, AllParts, Table.Valid, Table.View, Lockstep, Registered, Spec.Emplace, Spec.EmplaceError;
      r := None;
      var found := Position(typeId);
      if found.Some? {
        var x := found.value;
        ghost var view := Spec.Emplace(tables[x].sc, views[x], obj);
        var result := CreateOn(tables[x], obj, views[x]);
        assert forall y :: 0 <= y < |tables| && y != x ==> Holds(tables[y], views[y]);
        StillLevel(tables[x].sc, views, x, EmplaceOp(obj));
        views := views[x := view];
        r := Some(result);
      }
    }

    method Modify(typeId: nat, id: int, updated: Row) returns (r: Option<Option<TableError>>)
      requires Valid() && forall x :: 0 <= x < |tables| && typeIds[x] == typeId ==> |updated.data| == tables[x].sc.size
      modifies this`views, AllParts(tables)
      ensures Valid() && (r.None? <==> typeId !in typeIds) && (r.None? ==> views == old(views))
      ensures r.Some? ==> exists x :: 0 <= x < |tables| == |old(views)| && typeIds[x] == typeId
                                      && views == old(views)[x := Spec.Modify(tables[x].sc, old(views)[x], id, updated)]
                                      && r.value == Spec.ModifyError(tables[x].sc, old(views)[x], id, updated)
    {
      hide Parts, AllParts, Table.Valid, Table.View, Lockstep, Registered, Spec.Modify, Spec.ModifyError;
      var found := Position(typeId);
      if found.None? {
        return None;
      }
      var x := found.value;
      ghost var view := Spec.Modify(tables[x].sc, views[x], id, updated);
      var error := ModifyOn(tables[x], id, updated, views[x]);
      assert forall y :: 0 <= y < |tables| && y != x ==> Holds(tables[y], views[y]);
      StillLevel(tables[x].sc, views, x, ModifyOp(id, updated));
      views := views[x := view];
      return Some(error);
    }

    method Remove(typeId: nat, id: int) returns (r: Option<Option<TableError>>)
      requires Valid()
      modifies this`views, AllParts(tables)
      ensures Valid() && (r.None? <==> typeId !in typeIds) && (r.None? ==> views == old(views))
      ensures r.Some? ==> exists x :: 0 <= x < |tables| == |old(views)| && typeIds[x] == typeId
                                      && views == old(views)[x := Spec.Remove(old(views)[x], id)]
                                      && r.value == Spec.RemoveError(old(views)[x], id)
    {
      hide Parts, AllParts, Table.Valid, Table.View, Lockstep, Registered, Spec.Remove, Spec.RemoveError;
      var found := Position(typeId);
      if found.None? {
        return None;
      }
      var x := found.value;
      ghost var view := Spec.Remove(views[x], id);
      var error := RemoveOn(tables[x], id, views[x]);
      assert forall y :: 0 <= y < |tables| && y != x ==> Holds(tables[y], views[y]);
      StillLevel(tables[x].sc, views, x, RemoveOp(id));
      views := views[x := view];
      return Some(error);
    }

    // ----- sessions and registration ----------------------------------------

    /** Counts everything as flushed, in every table. */
    method MarkFlushed()
      requires Loose()
      modifies this`views, AllParts(tables)
      ensures Loose() && (Valid() <==> old(Valid())) && |views| == |old(views)|
      ensures forall x :: 0 <= x < |views| ==> views[x] == Spec.MarkFlushed(old(views)[x])
    {
      hide AllParts, Separate, LooselyHolds, Holds, AllHold, Valid, Lockstep, Registered, Spec.MarkFlushed, IdsOK;
      ValidIsLoose();
      views := MarkFlushedAll(tables, views);
      LockedTogether(ANY, old(views), views, Every(FlushOp));
      FlushedSameRows(old(views), views);
      ValidIsLoose();
    }

    /** Registers a table, brought up to the sessions and revision the others have. */
    method AddTable(typeId: nat, sc: Schema) returns (ok: bool)
      requires Valid()
      modifies this
      ensures Valid()
      ensures ok <==> typeId !in old(typeIds)
      ensures !ok ==> unchanged(this)
      ensures ok ==>
              |tables| == |old(tables)| + 1 && tables[..|old(tables)|] == old(tables) && tables[|old(tables)|].sc == sc
      ensures ok ==> typeIds == old(typeIds) + [typeId]
      ensures ok ==> exists depth: nat, revision: int ::
              At(old(views), depth, revision) && views == old(views) + [Joined(depth, revision)]
    {
      hide Parts, AllParts, Separate, Table.Valid, Table.View, Lockstep, At, Joined, Registered;
      NotRegistered(byTypeId, typeIds, typeId);
      if typeId < |byTypeId| && byTypeId[typeId].Some? {
        return false;
      }
      ghost var depth, revision := SharedBy(views);
      var table;
      if tables == [] {
        table := NewTable(sc, 0, 0, AllParts(tables));
      } else {
        FirstShared(tables[0], views, depth, revision);
        table := NewTable(sc, tables[0].revision - |tables[0].sessions|, tables[0].revision, AllParts(tables));
      }
      ghost var view := Joined(depth, revision);
      MoreParts(tables, table);
      MoreSeparate(tables, table);
      MoreHold(tables, views, table, view);
      NextLockstep(views, depth, revision);
      tables := tables + [table];
      views := views + [view];
      RegisterNext(byTypeId, typeIds, typeId);
      if |byTypeId| <= typeId {
        byTypeId := byTypeId + seq(typeId + 1 - |byTypeId|, i => None);
      }
      byTypeId := byTypeId[typeId := Some(|typeIds|)];
      typeIds := typeIds + [typeId];
      return true;
    }
  }
}
