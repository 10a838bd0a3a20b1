/**
  The contract database: contract tables behind iterator handles, RAM billing,
  and undo sessions, each of which keeps a copy of the contents, as the sessions
  of the arena tables do.
 */
module ContractDatabase {
  import opened ArenaTypes
  import TableSpec
  import SessionLaws
  import opened ContractRam
  import opened ContractSessions
  import opened IteratorHandles
  import opened TableOrder

  // ----- positions ----------------------------------------------------------

  /** Rows of a table go by primary key. */
  function KvPlace(row: KeyValue): Place
  {
    Place(row.tableId, Pos(0, row.primary))
  }

  /** Entries of a table go by secondary key, and by primary key where that is the same. */
  function IdxPlace(row: Index64): Place
  {
    Place(row.tableId, Pos(row.secondary, row.primary))
  }

  method FindEntry(idx64: map<int, Index64>, table: int, primary: nat) returns (row: Option<int>)
    ensures match row
            case None => forall id :: InTable(idx64, IdxPlace, table, id) ==> idx64[id].primary != primary
            case Some(r) => InTable(idx64, IdxPlace, table, r) && idx64[r].primary == primary
  {
    var rest := idx64.Keys;
    while exists id :: id in rest
      invariant rest <= idx64.Keys
      invariant forall id :: InTable(idx64, IdxPlace, table, id) && id !in rest ==> idx64[id].primary != primary
      decreases rest
    {
      var id :| id in rest;
      if idx64[id].tableId == table && idx64[id].primary == primary {
        return Some(id);
      }
      rest := rest - {id};
    }
    return None;
  }

  lemma GoodApart(c: Contents)
    requires Good(c)
    ensures Distinct(c.kvs, KvPlace) && Distinct(c.idx64, IdxPlace)
  {
    hide Conserved, RowsIn;
  }

  lemma EmptyGood()
    ensures Good(EMPTY)
  {
    EmptyConserved();
  }

  lemma StoredGood(c: Contents, row: KeyValue)
    requires Good(c) && row.tableId in c.tables && Vacant(c, row.tableId, row.primary)
    ensures Good(Stored(c, row))
  {
    hide Sound, Conserved, Vacant;
    StoredKeeps(c, row);
  }

  lemma StoredRows(c: Contents, row: KeyValue)
    requires row.tableId in c.tables
    ensures var c' := Stored(c, row);
            && c'.tables.Keys == c.tables.Keys && c'.nextKv == c.nextKv + 1 && c'.kvs == c.kvs[c.nextKv := row]
               && c'.idx64 == c.idx64 && c'.nextIdx == c.nextIdx
            && (forall t :: t in c.tables ==> c'.tables[t].name == c.tables[t].name)
            && forall a: nat ::
               RamUsage(c', a) == RamUsage(c, a) + if a == row.payer then |row.value| + KV_OVERHEAD else 0
  {
  }

  ghost predicate Known(c: Contents, name: Triple)
  {
    exists t :: t in c.tables && c.tables[t].name == name
  }

  /** The contents once the table is there. */
  ghost function WithKnown(c: Contents, name: Triple, payer: nat): Contents
  {
    if Known(c, name) then c else WithTable(c, name, payer)
  }

  ghost predicate NotYet(c: Contents, name: Triple, primary: nat)
  {
    forall id :: id in c.kvs && c.kvs[id].tableId in c.tables && c.tables[c.kvs[id].tableId].name == name ==>
        c.kvs[id].primary != primary
  }

  lemma VacantIn(c: Contents, c1: Contents, name: Triple, payer: nat, table: int, primary: nat)
    requires Good(c) && c1 == WithKnown(c, name, payer) && NotYet(c, name, primary)
    requires table in c1.tables && c1.tables[table].name == name && (!Known(c, name) ==> table == c.nextTable)
    ensures Vacant(c1, table, primary)
  {
    hide Conserved, RowsIn;
  }

  ghost predicate NoEntryYet(c: Contents, name: Triple, primary: nat)
  {
    forall id :: id in c.idx64 && c.idx64[id].tableId in c.tables && c.tables[c.idx64[id].tableId].name == name ==>
        c.idx64[id].primary != primary
  }

  lemma NoEntryIn(c: Contents, c1: Contents, name: Triple, payer: nat, table: int, primary: nat)
    requires Good(c) && c1 == WithKnown(c, name, payer) && NoEntryYet(c, name, primary)
    requires table in c1.tables && c1.tables[table].name == name && (!Known(c, name) ==> table == c.nextTable)
    ensures VacantIdx(c1, table, primary)
  {
    hide Conserved, RowsIn;
  }

  lemma EntryEffect(c: Contents, name: Triple, payer: nat, row: Index64)
    requires var c1 := WithKnown(c, name, payer);
             row.tableId in c1.tables && c1.tables[row.tableId].name == name && row.payer == payer
    ensures var c' := IdxStored(WithKnown(c, name, payer), row);
            && c'.idx64 == c.idx64[c.nextIdx := row] && c'.kvs == c.kvs
               && WithKnown(c, name, payer).nextIdx == c.nextIdx
            && row.tableId in c'.tables && c'.tables[row.tableId].name == name
            && forall a: nat :: RamUsage(c', a) == RamUsage(c, a) +
                                if a != payer then 0 else IDX64_OVERHEAD + if Known(c, name) then 0 else TABLE_OVERHEAD
  {
    hide Known;
  }

  /** What storing a row changes, whether or not the table had to be made. */
  lemma StoreEffect(c: Contents, name: Triple, payer: nat, primary: nat, value: seq<Byte>, table: int)
    requires var c1 := WithKnown(c, name, payer); table in c1.tables && c1.tables[table].name == name
    ensures var c' := Stored(WithKnown(c, name, payer), KeyValue(table, primary, payer, value));
            && c'.kvs == c.kvs[c.nextKv := KeyValue(table, primary, payer, value)] && c'.idx64 == c.idx64
            && table in c'.tables && c'.tables[table].name == name && WithKnown(c, name, payer).nextKv == c.nextKv
            && forall a: nat :: RamUsage(c', a) == RamUsage(c, a) + if a != payer then 0
                                else |value| + KV_OVERHEAD + if Known(c, name) then 0 else TABLE_OVERHEAD
  {
    hide Stored, Known;
    StoredRows(WithKnown(c, name, payer), KeyValue(table, primary, payer, value));
  }

  // ----- handles ------------------------------------------------------------

  /** Cached tables are live, and a live row with a handle has its table cached. */
  ghost predicate HandlesFit<R(!new)>(tables: map<int, TableId>, rows: map<int, R>, place: R -> Place, next: nat,
                                      handles: map<int, int>, ends: map<int, int>)
  {
    && (forall t :: t in ends ==> t in tables)
    && (forall r :: r in handles && r in rows ==> place(rows[r]).tableId in ends)
    && (forall r :: r in handles ==> r < next)
  }

  lemma EndFits<R(!new)>(tables: map<int, TableId>, rows: map<int, R>, place: R -> Place, next: nat,
                         handles: map<int, int>, ends: map<int, int>, table: int, end: int)
    requires HandlesFit(tables, rows, place, next, handles, ends) && table in tables
    ensures HandlesFit(tables, rows, place, next, handles, ends[table := end])
  {
  }

  lemma RowFits<R(!new)>(tables: map<int, TableId>, rows: map<int, R>, place: R -> Place, next: nat,
                         handles: map<int, int>, ends: map<int, int>, row: int, handle: int)
    requires HandlesFit(tables, rows, place, next, handles, ends) && row < next
    requires row in rows ==> place(rows[row]).tableId in ends
    ensures HandlesFit(tables, rows, place, next, handles[row := handle], ends)
  {
  }

  /** Tables that only come, and rows that come, go or stay in their tables, keep handles fitting. */
  lemma StillFits<R(!new)>(tables: map<int, TableId>, rows: map<int, R>, place: R -> Place, next: nat,
                           tables': map<int, TableId>, rows': map<int, R>, next': nat, handles: map<int, int>,
                               ends: map<int, int>)
    requires HandlesFit(tables, rows, place, next, handles, ends) && tables.Keys <= tables'.Keys && next <= next'
    requires forall id :: id in rows' && id < next ==> id in rows && place(rows'[id]).tableId == place(rows[id]).tableId
    ensures HandlesFit(tables', rows', place, next', handles, ends)
  {
  }

  ghost predicate RowHandlesFit(c: Contents, handles: map<int, int>, ends: map<int, int>)
  {
    HandlesFit(c.tables, c.kvs, KvPlace, c.nextKv, handles, ends)
  }

  ghost predicate EntryHandlesFit(c: Contents, handles: map<int, int>, ends: map<int, int>)
  {
    HandlesFit(c.tables, c.idx64, IdxPlace, c.nextIdx, handles, ends)
  }

  /** A change of the contents that keeps the handles of both kinds. */
  ghost predicate Moves(c: Contents, c': Contents)
  {
    && c.tables.Keys <= c'.tables.Keys && c.nextKv <= c'.nextKv && c.nextIdx <= c'.nextIdx
    && (forall id :: id in c'.kvs && id < c.nextKv ==> id in c.kvs && c'.kvs[id].tableId == c.kvs[id].tableId)
    && (forall id :: id in c'.idx64 && id < c.nextIdx ==> id in c.idx64 && c'.idx64[id].tableId == c.idx64[id].tableId)
  }

  lemma MovesFit(c: Contents, c': Contents, handles: map<int, int>, ends: map<int, int>)
    requires Moves(c, c')
    ensures RowHandlesFit(c, handles, ends) ==> RowHandlesFit(c', handles, ends)
    ensures EntryHandlesFit(c, handles, ends) ==> EntryHandlesFit(c', handles, ends)
  {
    hide HandlesFit;
    if RowHandlesFit(c, handles, ends) {
      StillFits(c.tables, c.kvs, KvPlace, c.nextKv, c'.tables, c'.kvs, c'.nextKv, handles, ends);
    }
    if EntryHandlesFit(c, handles, ends) {
      StillFits(c.tables, c.idx64, IdxPlace, c.nextIdx, c'.tables, c'.idx64, c'.nextIdx, handles, ends);
    }
  }

  lemma TableMoves(c: Contents, name: Triple, payer: nat)
    ensures Moves(c, WithTable(c, name, payer))
  {
  }

  lemma UpdatedMoves(c: Contents, id: int, payer: nat, value: seq<Byte>)
    requires id in c.kvs
    ensures Moves(c, Updated(c, id, payer, value))
  {
  }

  lemma RemovedMoves(c: Contents, id: int)
    requires Good(c) && id in c.kvs
    ensures Moves(c, Removed(c, id))
  {
    hide Conserved, RowsIn;
  }

  lemma IdxUpdatedMoves(c: Contents, id: int, secondary: nat)
    requires id in c.idx64
    ensures Moves(c, IdxUpdated(c, id, secondary))
  {
  }

  lemma IdxRemovedMoves(c: Contents, id: int)
    requires id in c.idx64
    ensures Moves(c, IdxRemoved(c, id))
  {
  }

  lemma StoredMoves(c: Contents, row: KeyValue)
    requires row.tableId in c.tables
    ensures Moves(c, Stored(c, row))
  {
    hide Stored;
    StoredRows(c, row);
  }

  lemma EntryGood(c: Contents, row: Index64)
    requires Good(c) && row.tableId in c.tables && VacantIdx(c, row.tableId, row.primary)
    ensures Good(IdxStored(c, row)) && Moves(c, IdxStored(c, row))
  {
    hide Sound, Conserved, VacantIdx;
    IdxStoredKeeps(c, row);
  }

  lemma EntryStored(c: Contents, row: Index64)
    ensures var c' := IdxStored(c, row); c'.tables == c.tables && c'.idx64 == c.idx64[c.nextIdx := row]
  {
  }

  lemma BelowNext(c: Contents, id: int)
    requires Good(c)
    ensures id in c.kvs ==> id < c.nextKv && c.kvs[id].tableId in c.tables
    ensures id in c.idx64 ==> id < c.nextIdx && c.idx64[id].tableId in c.tables
  {
    hide Conserved, RowsIn;
  }

  class ContractDb {
    var db: Contents
    var saved: Stack<Contents>
    var revision: int
    const cache: IteratorCache
    const idx64Cache: IteratorCache

    ghost predicate HandlesOK()
      reads this, cache, idx64Cache
    {
      && RowHandlesFit(db, cache.rowToIter, cache.tableToEnd)
      && EntryHandlesFit(db, idx64Cache.rowToIter, idx64Cache.tableToEnd)
    }

    ghost predicate Valid()
      reads this, cache, idx64Cache
    {
      && Good(db) && AllGood(saved)
      && cache != idx64Cache && cache.Valid() && idx64Cache.Valid()
      && HandlesOK()
    }

    /** `handle` names a row that is still there. */
    ghost predicate Names(handle: int, row: int)
      reads this, cache
    {
      row in cache.rowToIter && cache.rowToIter[row] == handle && row in db.kvs
    }

    /** What a position is given out as: the row's handle, or the table's end. */
    ghost predicate IsAt(handle: int, table: int, row: Option<int>)
      reads this, cache
    {
      && table in cache.tableToEnd
      && match row
         case None => handle == cache.tableToEnd[table]
         case Some(r) => r in cache.rowToIter && handle == cache.rowToIter[r]
    }

    constructor ()
      ensures Valid() && fresh(cache) && fresh(idx64Cache) && db == EMPTY && saved == Bottom
    {
      db, saved, revision := EMPTY, Bottom, 0;
      cache := new IteratorCache();
      idx64Cache := new IteratorCache();
      new;
      EmptyGood();
    }

    // ----- sessions ---------------------------------------------------------

    ghost function State(): Sessions
      reads this
    {
      Sessions(db, saved, revision)
    }

    method StartUndoSession()
      requires Valid()
      modifies this`saved, this`revision
      ensures Valid() && State() == Started(old(State()))
    {
      hide Good;
      saved := Push(db, saved);
      revision := revision + 1;
    }

    /** Puts back rows and RAM as they were; handles start over. */
    method Undo()
      requires Valid()
      modifies this, cache, idx64Cache
      ensures Valid() && State() == Undone(old(State()))
      ensures cache.rowToIter == map[] && cache.tableToEnd == map[]
    {
      hide Good;
      if saved.Push? {
        db := saved.top;
        saved := saved.below;
        revision := revision - 1;
      }
      cache.Reset();
      idx64Cache.Reset();
    }

    method Squash()
      requires Valid()
      modifies this`saved, this`revision
      ensures Valid() && State() == Squashed(old(State()))
    {
      hide Good;
      if saved.Push? {
        saved := saved.below;
        revision := revision - 1;
      }
    }

    method Commit(upTo: int)
      requires Valid()
      modifies this`saved
      ensures Valid() && State() == Committed(old(State()), upTo)
      ensures db == old(db) && revision == old(revision)
      ensures forall k: int :: OpenedAt(saved, revision, k) ==
                               if k > upTo then OpenedAt(old(saved), revision, k) else None
    {
      hide Good;
      SessionLaws.CommitEnds(saved, revision, upTo);
      var keep := TableSpec.KeptBy(Depth(saved), revision, upTo);
      InnermostGood(saved, keep);
      saved := Innermost(saved, keep);
    }

    lemma HandlesStay(next: Contents)
      requires HandlesOK() && Moves(db, next)
      ensures RowHandlesFit(next, cache.rowToIter, cache.tableToEnd)
      ensures EntryHandlesFit(next, idx64Cache.rowToIter, idx64Cache.tableToEnd)
    {
      hide RowHandlesFit, EntryHandlesFit, Moves;
      MovesFit(db, next, cache.rowToIter, cache.tableToEnd);
      MovesFit(db, next, idx64Cache.rowToIter, idx64Cache.tableToEnd);
    }

    // ----- tables -----------------------------------------------------------

    method FindTable(name: Triple) returns (id: Option<int>)
      ensures id.Some? ==> id.value in db.tables && db.tables[id.value].name == name
      ensures id.None? ==> forall t :: t in db.tables ==> db.tables[t].name != name
    {
      var rest := db.tables.Keys;
      while exists t :: t in rest
        invariant rest <= db.tables.Keys
        invariant forall t :: t in db.tables && t !in rest ==> db.tables[t].name != name
        decreases rest
      {
        var t :| t in rest;
        if db.tables[t].name == name {
          return Some(t);
        }
        rest := rest - {t};
      }
      return None;
    }

    /** The table's id; a new table is billed to the payer. */
    method FindOrCreateTable(name: Triple, payer: nat) returns (id: int)
      requires Valid()
      modifies this`db
      ensures Valid() && id in db.tables && db.tables[id].name == name
      ensures db == WithKnown(old(db), name, payer) && (!Known(old(db), name) ==> id == old(db.nextTable))
    {
      hide Sound, Conserved, AllGood, RowHandlesFit, EntryHandlesFit, Moves;
      var found := FindTable(name);
      if found.Some? {
        return found.value;
      }
      id := db.nextTable;
      WithTableKeeps(db, name, payer);
      TableMoves(db, name, payer);
      HandlesStay(WithTable(db, name, payer));
      db := WithTable(db, name, payer);
    }

    // ----- rows -------------------------------------------------------------

    /**
      Stores a row under a key its table does not have. The payer is billed for
      the row, and for the table if it is the table's first mention.
     */
    method StoreI64(name: Triple, payer: nat, primary: nat, value: seq<Byte>) returns (handle: int)
      requires Valid()
      requires NotYet(db, name, primary)
      modifies this`db, cache
      ensures Valid() && Names(handle, old(db.nextKv))
      ensures var row := db.kvs[old(db.nextKv)];
              && row.primary == primary && row.payer == payer && row.value == value
              && row.tableId in db.tables && db.tables[row.tableId].name == name
      ensures db.kvs == old(db.kvs)[old(db.nextKv) := db.kvs[old(db.nextKv)]] && db.idx64 == old(db.idx64)
      ensures forall a: nat :: RamUsage(db, a) == old(RamUsage(db, a)) + if a != payer then 0
                               else |value| + KV_OVERHEAD + if Known(old(db), name) then 0 else TABLE_OVERHEAD
      ensures forall r :: r in old(cache.rowToIter) ==>
              r in cache.rowToIter && cache.rowToIter[r] == old(cache.rowToIter)[r]
    {
      hide Good, Stored, WithTable;
      ghost var before := db;
      var table := FindOrCreateTable(name, payer);
      VacantIn(before, db, name, payer, table, primary);
      handle := StoreRow(KeyValue(table, primary, payer, value));
      StoreEffect(before, name, payer, primary, value, table);
    }

    /** Stores a row of a known table and gives it a handle. */
    method StoreRow(row: KeyValue) returns (handle: int)
      requires Valid() && row.tableId in db.tables && Vacant(db, row.tableId, row.primary)
      modifies this`db, cache
      ensures Valid() && db == Stored(old(db), row) && Names(handle, old(db.nextKv))
      ensures forall r :: r in old(cache.rowToIter) ==>
              r in cache.rowToIter && cache.rowToIter[r] == old(cache.rowToIter)[r]
    {
      hide Good, AllGood, Vacant, Stored, RowHandlesFit, EntryHandlesFit, Moves;
      StoredGood(db, row);
      StoredRows(db, row);
      StoredMoves(db, row);
      HandlesStay(Stored(db, row));
      var id := db.nextKv;
      db := Stored(db, row);
      var end := EndOf(row.tableId);
      handle := HandleOf(id);
    }

    method RowOf(handle: int) returns (id: int)
      requires Valid() && exists r :: Names(handle, r)
      ensures Names(handle, id)
    {
      hide Good;
      cache.HandlesDiffer();
      id := cache.RowOf(handle);
    }

    /** Changes a row's value and payer; the bytes move from the old payer to the new one. */
    method UpdateI64(handle: int, payer: nat, value: seq<Byte>, ghost id: int)
      requires Valid() && Names(handle, id)
      modifies this`db
      ensures Valid() && db == Updated(old(db), id, payer, value)
      ensures var was := old(db.kvs)[id];
              forall a: nat ::
                RamUsage(db, a) == old(RamUsage(db, a))
                                   - (if a == was.payer then |was.value| + KV_OVERHEAD else 0)
                                   + (if a == payer then |value| + KV_OVERHEAD else 0)
    {
      hide Good, AllGood, RowHandlesFit, EntryHandlesFit, Moves, Updated;
      var row := RowOf(handle);
      cache.HandlesDiffer();
      UpdatedGood(db, row, payer, value);
      UpdatedRows(db, row, payer, value);
      UpdatedMoves(db, row, payer, value);
      HandlesStay(Updated(db, row, payer, value));
      db := Updated(db, row, payer, value);
    }

    /** Removes a row and gives its bytes back to its payer; the table stays. */
    method RemoveI64(handle: int, ghost id: int)
      requires Valid() && Names(handle, id)
      modifies this`db
      ensures Valid() && db.kvs == old(db.kvs) - {id} && db.tables.Keys == old(db.tables.Keys)
      ensures db.idx64 == old(db.idx64)
      ensures var was := old(db.kvs)[id];
              forall a: nat :: RamUsage(db, a) == old(RamUsage(db, a)) -
                  if a == was.payer then |was.value| + KV_OVERHEAD else 0
    {
      hide Conserved, RowsIn, AllGood, RowHandlesFit, EntryHandlesFit, Moves;
      var row := RowOf(handle);
      cache.HandlesDiffer();
      RemovedKeeps(db, row);
      RemovedMoves(db, row);
      HandlesStay(Removed(db, row));
      db := Removed(db, row);
    }

    method GetI64(handle: int, ghost id: int) returns (value: seq<Byte>)
      requires Valid() && Names(handle, id)
      ensures value == db.kvs[id].value
    {
      hide Good;
      var row := RowOf(handle);
      cache.HandlesDiffer();
      return db.kvs[row].value;
    }

    // ----- positions --------------------------------------------------------

    /** Handles given out before are kept. */
    twostate predicate Keeps()
      reads cache
    {
      && (forall r :: r in old(cache.rowToIter) ==>
          r in cache.rowToIter && cache.rowToIter[r] == old(cache.rowToIter[r]))
      && (forall t :: t in old(cache.tableToEnd) ==>
          t in cache.tableToEnd && cache.tableToEnd[t] == old(cache.tableToEnd[t]))
    }

    /** The end handle of a table. */
    method EndOf(table: int) returns (handle: int)
      requires Valid() && table in db.tables
      modifies cache
      ensures Valid() && cache.rowToIter == old(cache.rowToIter)
      ensures cache.tableToEnd == old(cache.tableToEnd)[table := handle]
      ensures table in old(cache.tableToEnd) ==> handle == old(cache.tableToEnd)[table]
    {
      hide Good, AllGood, HandlesFit, EntryHandlesFit;
      ghost var rows, ends := cache.rowToIter, cache.tableToEnd;
      handle := cache.CacheTable(table);
      EndFits(db.tables, db.kvs, KvPlace, db.nextKv, rows, ends, table, handle);
    }

    /** The handle of a row whose table has an end handle. */
    method HandleOf(row: int) returns (handle: int)
      requires Valid() && row in db.kvs && db.kvs[row].tableId in cache.tableToEnd
      modifies cache
      ensures Valid() && cache.tableToEnd == old(cache.tableToEnd)
      ensures cache.rowToIter == old(cache.rowToIter)[row := handle]
      ensures row in old(cache.rowToIter) ==> handle == old(cache.rowToIter)[row]
    {
      hide Good, AllGood, HandlesFit, EntryHandlesFit;
      ghost var rows, ends := cache.rowToIter, cache.tableToEnd;
      BelowNext(db, row);
      handle := cache.Add(row);
      RowFits(db.tables, db.kvs, KvPlace, db.nextKv, rows, ends, row, handle);
    }

    /** Gives out a handle for a position in a table. */
    method Position(table: int, row: Option<int>) returns (handle: int)
      requires Valid() && table in db.tables && (row.Some? ==> InTable(db.kvs, KvPlace, table, row.value))
      modifies cache
      ensures Valid() && Keeps() && IsAt(handle, table, row)
    {
      hide Valid, IteratorCache.Valid;
      handle := EndOf(table);
      if row.Some? {
        handle := HandleOf(row.value);
      }
    }

    /** The row under a primary key, or the table's end; -1 when there is no such table. */
    method FindI64(name: Triple, primary: nat) returns (handle: int, ghost table: Option<int>, ghost row: Option<int>)
      requires Valid()
      modifies cache
      ensures Valid() && Keeps() && IsTable(name, table)
      ensures table.None? ==> handle == -1
      ensures table.Some? ==> IsAt(handle, table.value, row)
      ensures table.Some? ==> match row
                              case Some(r) => InTable(db.kvs, KvPlace, table.value, r) && db.kvs[r].primary == primary
                              case None => forall id :: InTable(db.kvs, KvPlace, table.value, id) ==>
                                  db.kvs[id].primary != primary
    {
      hide Good;
      var found := FindTable(name);
      table, row := found, None;
      if found.None? {
        return -1, table, row;
      }
      var first := First(db.kvs, KvPlace, found.value, Pos(0, primary));
      if first.Some? && db.kvs[first.value].primary == primary {
        row := first;
        handle := Position(found.value, first);
      } else {
        handle := Position(found.value, None);
      }
    }

    ghost predicate IsTable(name: Triple, table: Option<int>)
      reads this
    {
      match table
      case None => !Known(db, name)
      case Some(t) => t in db.tables && db.tables[t].name == name
    }

    /** The first row from a primary key on, or the table's end; -1 when there is no such table. */
    method LowerboundI64(name: Triple, primary: nat)
      returns (handle: int, ghost table: Option<int>, ghost row: Option<int>)
      requires Valid()
      modifies cache
      ensures Valid() && Keeps() && IsTable(name, table)
      ensures table.None? ==> handle == -1
      ensures table.Some? ==>
              IsAt(handle, table.value, row) && IsFirst(db.kvs, KvPlace, table.value, Pos(0, primary), row)
    {
      hide Good;
      var found := FindTable(name);
      table, row := found, None;
      if found.None? {
        return -1, table, row;
      }
      var first := First(db.kvs, KvPlace, found.value, Pos(0, primary));
      row := first;
      handle := Position(found.value, first);
    }

    /** The first row after a primary key, or the table's end; -1 when there is no such table. */
    method UpperboundI64(name: Triple, primary: nat)
      returns (handle: int, ghost table: Option<int>, ghost row: Option<int>)
      requires Valid()
      modifies cache
      ensures Valid() && Keeps() && IsTable(name, table)
      ensures table.None? ==> handle == -1
      ensures table.Some? ==>
              IsAt(handle, table.value, row) && IsFirst(db.kvs, KvPlace, table.value, Pos(0, primary + 1), row)
    {
      handle, table, row := LowerboundI64(name, primary + 1);
    }

    method EndI64(name: Triple) returns (handle: int, ghost table: Option<int>)
      requires Valid()
      modifies cache
      ensures Valid() && Keeps() && IsTable(name, table)
      ensures table.None? ==> handle == -1
      ensures table.Some? ==> IsAt(handle, table.value, None)
    {
      hide Good;
      var found := FindTable(name);
      table := found;
      if found.None? {
        return -1, table;
      }
      handle := Position(found.value, None);
    }

    /** The row after a row, or its table's end. An end stays where it is. */
    method NextI64(itr: int, current: nat, ghost id: int) returns (handle: int, primary: nat, ghost row: Option<int>)
      requires Valid() && (itr >= -1 ==> Names(itr, id))
      modifies cache
      ensures Valid() && Keeps()
      ensures itr < -1 ==> handle == itr && row == None
      ensures primary == if row.Some? && row.value in db.kvs then db.kvs[row.value].primary else current
      ensures itr >= -1 ==>
              && IsAt(handle, db.kvs[id].tableId, row)
              && IsFirst(db.kvs, KvPlace, db.kvs[id].tableId, Pos(0, db.kvs[id].primary + 1), row)
    {
      hide Good;
      row, primary := None, current;
      if itr < -1 {
        return itr, primary, row;
      }
      var at := RowOf(itr);
      cache.HandlesDiffer();
      var next := First(db.kvs, KvPlace, db.kvs[at].tableId, Pos(0, db.kvs[at].primary + 1));
      row := next;
      if next.Some? {
        primary := db.kvs[next.value].primary;
      }
      handle := Position(db.kvs[at].tableId, next);
    }

    /** The row before a row, or the last row before an end; -1 when there is none. */
    method PreviousI64(itr: int, current: nat, ghost table: int, ghost id: Option<int>)
      returns (handle: int, primary: nat, ghost row: Option<int>)
      requires Valid() && IsAt(itr, table, id) && (id.Some? ==> InTable(db.kvs, KvPlace, table, id.value))
      modifies cache
      ensures Valid() && Keeps()
      ensures IsLast(db.kvs, KvPlace, table, if id.Some? then Some(Pos(0, db.kvs[id.value].primary)) else None, row)
      ensures if row.Some? then IsAt(handle, table, row) && primary == db.kvs[row.value].primary
              else handle == -1 && primary == current
    {
      hide Good;
      cache.HandlesDiffer();
      var t, high := 0, None;
      if itr < -1 {
        t := cache.TableOfEnd(itr);
      } else {
        assert id.Some? && Names(itr, id.value);
        var at := RowOf(itr);
        t, high := db.kvs[at].tableId, Some(Pos(0, db.kvs[at].primary));
      }
      var last := Last(db.kvs, KvPlace, t, high);
      row, primary := last, current;
      if last.Some? {
        primary := db.kvs[last.value].primary;
        handle := Position(t, last);
      } else {
        handle := -1;
      }
    }

    // ----- the 64-bit secondary index ---------------------------------------

    /** Files an entry under a secondary key; callers file one entry for a row of a table. */
    method Idx64Store(name: Triple, payer: nat, primary: nat, secondary: nat) returns (handle: int)
      requires Valid() && NoEntryYet(db, name, primary)
      modifies this`db, idx64Cache
      ensures Valid() && old(db.nextIdx) in idx64Cache.rowToIter && idx64Cache.rowToIter[old(db.nextIdx)] == handle
      ensures old(db.nextIdx) in db.idx64
      ensures var row := db.idx64[old(db.nextIdx)];
              row.primary == primary && row.secondary == secondary && row.payer == payer && row.tableId in db.tables
                  && db.tables[row.tableId].name == name
      ensures db.idx64 == old(db.idx64)[old(db.nextIdx) := db.idx64[old(db.nextIdx)]] && db.kvs == old(db.kvs)
      ensures forall a: nat :: RamUsage(db, a) == old(RamUsage(db, a)) + if a != payer then 0
                               else IDX64_OVERHEAD + if Known(old(db), name) then 0 else TABLE_OVERHEAD
    {
      hide Good, WithTable, IdxStored, IteratorCache.Valid;
      ghost var before := db;
      var table := FindOrCreateTable(name, payer);
      NoEntryIn(before, db, name, payer, table, primary);
      handle := StoreEntry(Index64(table, primary, secondary, payer));
      EntryEffect(before, name, payer, Index64(table, primary, secondary, payer));
    }

    /** Files an entry of a known table and gives it a handle. */
    method StoreEntry(row: Index64) returns (handle: int)
      requires Valid() && row.tableId in db.tables && VacantIdx(db, row.tableId, row.primary)
      modifies this`db, idx64Cache
      ensures Valid() && db == IdxStored(old(db), row)
      ensures old(db.nextIdx) in idx64Cache.rowToIter && idx64Cache.rowToIter[old(db.nextIdx)] == handle
    {
      hide Good, AllGood, VacantIdx, IdxStored, RowHandlesFit, EntryHandlesFit, Moves;
      EntryGood(db, row);
      EntryStored(db, row);
      HandlesStay(IdxStored(db, row));
      var id := db.nextIdx;
      db := IdxStored(db, row);
      var end := IdxEndOf(row.tableId);
      handle := IdxHandleOf(id);
    }

    /** `handle` names an index entry that is still there. */
    ghost predicate NamesIdx(handle: int, id: int)
      reads this, idx64Cache
    {
      id in idx64Cache.rowToIter && idx64Cache.rowToIter[id] == handle && id in db.idx64
    }

    method Idx64Update(handle: int, secondary: nat, ghost id: int)
      requires Valid() && NamesIdx(handle, id)
      modifies this`db
      ensures Valid() && db == old(db).(idx64 := old(db.idx64)[id := old(db.idx64)[id].(secondary := secondary)])
    {
      hide Sound, Conserved, AllGood, RowHandlesFit, EntryHandlesFit, Moves;
      idx64Cache.HandlesDiffer();
      var row := idx64Cache.RowOf(handle);
      IdxUpdatedKeeps(db, row, secondary);
      IdxUpdatedMoves(db, row, secondary);
      HandlesStay(IdxUpdated(db, row, secondary));
      db := IdxUpdated(db, row, secondary);
    }

    method Idx64Remove(handle: int, ghost id: int)
      requires Valid() && NamesIdx(handle, id)
      modifies this`db
      ensures Valid() && db.idx64 == old(db.idx64) - {id} && db.kvs == old(db.kvs) && db.tables == old(db.tables)
      ensures forall a: nat ::
              RamUsage(db, a) == old(RamUsage(db, a)) - if a == old(db.idx64)[id].payer then IDX64_OVERHEAD else 0
    {
      hide Sound, Conserved, AllGood, RowHandlesFit, EntryHandlesFit, Moves;
      idx64Cache.HandlesDiffer();
      var row := idx64Cache.RowOf(handle);
      IdxRemovedKeeps(db, row);
      IdxRemovedMoves(db, row);
      HandlesStay(IdxRemoved(db, row));
      db := IdxRemoved(db, row);
    }

    // ----- walking the index ------------------------------------------------

    /** Handles of entries given out before are kept. */
    twostate predicate KeepsIdx()
      reads idx64Cache
    {
      && (forall r :: r in old(idx64Cache.rowToIter) ==>
          r in idx64Cache.rowToIter && idx64Cache.rowToIter[r] == old(idx64Cache.rowToIter[r]))
      && (forall t :: t in old(idx64Cache.tableToEnd) ==>
          t in idx64Cache.tableToEnd && idx64Cache.tableToEnd[t] == old(idx64Cache.tableToEnd[t]))
    }

    /** What a position in the index is given out as: the entry's handle, or the table's end. */
    ghost predicate IsAtIdx(handle: int, table: int, row: Option<int>)
      reads this, idx64Cache
    {
      && table in idx64Cache.tableToEnd
      && match row
         case None => handle == idx64Cache.tableToEnd[table]
         case Some(r) => r in idx64Cache.rowToIter && handle == idx64Cache.rowToIter[r]
    }

    /** The end handle of a table's index. */
    method IdxEndOf(table: int) returns (handle: int)
      requires Valid() && table in db.tables
      modifies idx64Cache
      ensures Valid() && idx64Cache.rowToIter == old(idx64Cache.rowToIter)
      ensures idx64Cache.tableToEnd == old(idx64Cache.tableToEnd)[table := handle]
      ensures table in old(idx64Cache.tableToEnd) ==> handle == old(idx64Cache.tableToEnd)[table]
    {
      hide Good, AllGood, HandlesFit, RowHandlesFit;
      ghost var rows, ends := idx64Cache.rowToIter, idx64Cache.tableToEnd;
      handle := idx64Cache.CacheTable(table);
      EndFits(db.tables, db.idx64, IdxPlace, db.nextIdx, rows, ends, table, handle);
    }

    /** The handle of an entry whose table has an end handle. */
    method IdxHandleOf(row: int) returns (handle: int)
      requires Valid() && row in db.idx64 && db.idx64[row].tableId in idx64Cache.tableToEnd
      modifies idx64Cache
      ensures Valid() && idx64Cache.tableToEnd == old(idx64Cache.tableToEnd)
      ensures idx64Cache.rowToIter == old(idx64Cache.rowToIter)[row := handle]
      ensures row in old(idx64Cache.rowToIter) ==> handle == old(idx64Cache.rowToIter)[row]
    {
      hide Good, AllGood, HandlesFit, RowHandlesFit;
      ghost var rows, ends := idx64Cache.rowToIter, idx64Cache.tableToEnd;
      BelowNext(db, row);
      handle := idx64Cache.Add(row);
      RowFits(db.tables, db.idx64, IdxPlace, db.nextIdx, rows, ends, row, handle);
    }

    /** Gives out a handle for a position in a table's index. */
    method IdxPosition(table: int, row: Option<int>) returns (handle: int)
      requires Valid() && table in db.tables && (row.Some? ==> InTable(db.idx64, IdxPlace, table, row.value))
      modifies idx64Cache
      ensures Valid() && KeepsIdx() && IsAtIdx(handle, table, row)
    {
      hide Valid, IteratorCache.Valid;
      handle := IdxEndOf(table);
      if row.Some? {
        handle := IdxHandleOf(row.value);
      }
    }

    /** What callers learn of a position: its keys, or what they passed where there is none. */
    ghost predicate Reads(row: Option<int>, secondary0: nat, primary0: nat, secondary: nat, primary: nat)
      reads this
    {
      if row.Some? && row.value in db.idx64
      then secondary == db.idx64[row.value].secondary && primary == db.idx64[row.value].primary
      else secondary == secondary0 && primary == primary0
    }

    /** The first entry from a position on, or the table's end; -1 when there is no such table. */
    method Idx64From(name: Triple, low: Pos, secondary0: nat, primary0: nat)
      returns (handle: int, secondary: nat, primary: nat, ghost table: Option<int>, ghost row: Option<int>)
      requires Valid()
      modifies idx64Cache
      ensures Valid() && KeepsIdx() && IsTable(name, table) && Reads(row, secondary0, primary0, secondary, primary)
      ensures table.None? ==> handle == -1 && row == None
      ensures table.Some? ==> IsAtIdx(handle, table.value, row) && IsFirst(db.idx64, IdxPlace, table.value, low, row)
    {
      hide Good, IsFirst;
      var found := FindTable(name);
      table, row, secondary, primary := found, None, secondary0, primary0;
      if found.None? {
        return -1, secondary, primary, table, row;
      }
      var first := First(db.idx64, IdxPlace, found.value, low);
      row := first;
      FirstIn(db.idx64, IdxPlace, found.value, low, first);
      if first.Some? {
        secondary, primary := db.idx64[first.value].secondary, db.idx64[first.value].primary;
      }
      handle := IdxPosition(found.value, first);
    }

    /** The first entry with this secondary key or a greater one. */
    method Idx64Lowerbound(name: Triple, secondary0: nat, primary0: nat)
      returns (handle: int, secondary: nat, primary: nat, ghost table: Option<int>, ghost row: Option<int>)
      requires Valid()
      modifies idx64Cache
      ensures Valid() && KeepsIdx() && IsTable(name, table) && Reads(row, secondary0, primary0, secondary, primary)
      ensures table.None? ==> handle == -1 && row == None
      ensures table.Some? ==>
              IsAtIdx(handle, table.value, row) && IsFirst(db.idx64, IdxPlace, table.value, Pos(secondary0, 0), row)
    {
      handle, secondary, primary, table, row := Idx64From(name, Pos(secondary0, 0), secondary0, primary0);
    }

    /** The first entry with a greater secondary key, whatever its primary key. */
    method Idx64Upperbound(name: Triple, secondary0: nat, primary0: nat)
      returns (handle: int, secondary: nat, primary: nat, ghost table: Option<int>, ghost row: Option<int>)
      requires Valid()
      modifies idx64Cache
      ensures Valid() && KeepsIdx() && IsTable(name, table) && Reads(row, secondary0, primary0, secondary, primary)
      ensures table.None? ==> handle == -1 && row == None
      ensures table.Some? ==>
              IsAtIdx(handle, table.value, row) && IsFirst(db.idx64, IdxPlace, table.value, Pos(secondary0 + 1, 0), row)
    {
      handle, secondary, primary, table, row := Idx64From(name, Pos(secondary0 + 1, 0), secondary0, primary0);
    }

    ghost predicate NoEntry(table: int, secondary: nat)
      reads this
    {
      forall id :: InTable(db.idx64, IdxPlace, table, id) ==> db.idx64[id].secondary != secondary
    }

    /** `r` has the least primary key of the table's entries with this secondary key. */
    ghost predicate IsLeast(table: int, secondary: nat, r: int)
      reads this
    {
      && InTable(db.idx64, IdxPlace, table, r) && db.idx64[r].secondary == secondary
      && forall id ::
           InTable(db.idx64, IdxPlace, table, id) && db.idx64[id].secondary == secondary ==>
           db.idx64[r].primary <= db.idx64[id].primary
    }

    /** The entry with this secondary key and the least primary key, or the table's end. */
    method Idx64FindSecondary(name: Triple, secondary: nat, primary0: nat)
      returns (handle: int, primary: nat, ghost table: Option<int>, ghost row: Option<int>)
      requires Valid()
      modifies idx64Cache
      ensures Valid() && KeepsIdx() && IsTable(name, table)
      ensures table.None? ==> handle == -1
      ensures table.Some? ==> IsAtIdx(handle, table.value, row)
      ensures table.Some? ==> match row
                              case None => primary == primary0 && NoEntry(table.value, secondary)
                              case Some(r) => IsLeast(table.value, secondary, r) && primary == db.idx64[r].primary
    {
      hide Good;
      var found := FindTable(name);
      table, row, primary := found, None, primary0;
      if found.None? {
        return -1, primary, table, row;
      }
      var first := First(db.idx64, IdxPlace, found.value, Pos(secondary, 0));
      if first.Some? && db.idx64[first.value].secondary == secondary {
        row, primary := first, db.idx64[first.value].primary;
        handle := IdxPosition(found.value, first);
      } else {
        handle := IdxPosition(found.value, None);
      }
    }

    /** The entry of a primary key, or the table's end. */
    method Idx64FindPrimary(name: Triple, secondary0: nat, primary: nat)
      returns (handle: int, secondary: nat, ghost table: Option<int>, ghost row: Option<int>)
      requires Valid()
      modifies idx64Cache
      ensures Valid() && KeepsIdx() && IsTable(name, table)
      ensures table.None? ==> handle == -1
      ensures table.Some? ==> IsAtIdx(handle, table.value, row)
      ensures table.Some? ==> match row
                              case None =>
                                && secondary == secondary0
                                && forall id ::
                                     InTable(db.idx64, IdxPlace, table.value, id) ==> db.idx64[id].primary != primary
                              case Some(r) =>
                                && InTable(db.idx64, IdxPlace, table.value, r)
                                && db.idx64[r].primary == primary && secondary == db.idx64[r].secondary
    {
      hide Good;
      var found := FindTable(name);
      table, row, secondary := found, None, secondary0;
      if found.None? {
        return -1, secondary, table, row;
      }
      var at := FindEntry(db.idx64, found.value, primary);
      row := at;
      if at.Some? {
        secondary := db.idx64[at.value].secondary;
      }
      handle := IdxPosition(found.value, at);
    }

    method Idx64End(name: Triple) returns (handle: int, ghost table: Option<int>)
      requires Valid()
      modifies idx64Cache
      ensures Valid() && KeepsIdx() && IsTable(name, table)
      ensures table.None? ==> handle == -1
      ensures table.Some? ==> IsAtIdx(handle, table.value, None)
    {
      hide Good;
      var found := FindTable(name);
      table := found;
      if found.None? {
        return -1, table;
      }
      handle := IdxPosition(found.value, None);
    }

    method EntryOf(handle: int) returns (id: int)
      requires Valid() && exists r :: NamesIdx(handle, r)
      ensures NamesIdx(handle, id)
    {
      hide Good;
      idx64Cache.HandlesDiffer();
      id := idx64Cache.RowOf(handle);
    }

    /** The entry after an entry, by secondary and then primary key, or its table's end. An end stays where it is. */
    method Idx64Next(itr: int, current: nat, ghost id: int) returns (handle: int, primary: nat, ghost row: Option<int>)
      requires Valid() && (itr >= -1 ==> NamesIdx(itr, id))
      modifies idx64Cache
      ensures Valid() && KeepsIdx()
      ensures itr < -1 ==> handle == itr && row == None
      ensures primary == if row.Some? && row.value in db.idx64 then db.idx64[row.value].primary else current
      ensures itr >= -1 ==> var e := db.idx64[id];
                            IsAtIdx(handle, e.tableId, row)
                                && IsFirst(db.idx64, IdxPlace, e.tableId, After(Pos(e.secondary, e.primary)), row)
    {
      hide Good, IsFirst;
      row, primary := None, current;
      if itr < -1 {
        return itr, primary, row;
      }
      var at := EntryOf(itr);
      idx64Cache.HandlesDiffer();
      BelowNext(db, at);
      var e := db.idx64[at];
      var next := First(db.idx64, IdxPlace, e.tableId, After(Pos(e.secondary, e.primary)));
      FirstIn(db.idx64, IdxPlace, e.tableId, After(Pos(e.secondary, e.primary)), next);
      row := next;
      if next.Some? {
        primary := db.idx64[next.value].primary;
      }
      handle := IdxPosition(e.tableId, next);
    }

    /** The entry before an entry, or the last before an end; -1 when there is none. */
    method Idx64Previous(itr: int, current: nat, ghost table: int, ghost id: Option<int>)
      returns (handle: int, primary: nat, ghost row: Option<int>)
      requires Valid() && IsAtIdx(itr, table, id) && (id.Some? ==> InTable(db.idx64, IdxPlace, table, id.value))
      modifies idx64Cache
      ensures Valid() && KeepsIdx()
      ensures IsLast(db.idx64, IdxPlace, table, if id.Some? then Some(IdxPlace(db.idx64[id.value]).pos) else None, row)
      ensures if row.Some? then IsAtIdx(handle, table, row) && row.value in db.idx64
              && primary == db.idx64[row.value].primary
              else handle == -1 && primary == current
    {
      hide Good, IsLast;
      idx64Cache.HandlesDiffer();
      var t, high := 0, None;
      if itr < -1 {
        t := idx64Cache.TableOfEnd(itr);
      } else {
        assert id.Some? && NamesIdx(itr, id.value);
        var at := EntryOf(itr);
        t, high := db.idx64[at].tableId, Some(Pos(db.idx64[at].secondary, db.idx64[at].primary));
      }
      var last := Last(db.idx64, IdxPlace, t, high);
      LastIn(db.idx64, IdxPlace, t, high, last);
      row, primary := last, current;
      if last.Some? {
        primary := db.idx64[last.value].primary;
        handle := IdxPosition(t, last);
      } else {
        handle := -1;
      }
    }
  }

  lemma UpdatedGood(c: Contents, id: int, payer: nat, value: seq<Byte>)
    requires Good(c) && id in c.kvs
    ensures Good(Updated(c, id, payer, value))
  {
    hide Sound, Conserved;
    UpdatedKeeps(c, id, payer, value);
  }

  lemma UpdatedRows(c: Contents, id: int, payer: nat, value: seq<Byte>)
    requires id in c.kvs
    ensures var c' := Updated(c, id, payer, value);
            && c'.tables == c.tables && c'.nextKv == c.nextKv
               && c'.kvs == c.kvs[id := c.kvs[id].(payer := payer, value := value)]
            && forall a: nat ::
                 RamUsage(c', a) == RamUsage(c, a)
                                    - (if a == c.kvs[id].payer then |c.kvs[id].value| + KV_OVERHEAD else 0)
                                    + (if a == payer then |value| + KV_OVERHEAD else 0)
  {
  }
}
