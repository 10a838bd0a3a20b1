/**
  Walking a contract table with its iterators, by primary key or by the 64-bit
  secondary index: forward from a lower bound to the table's end, and back from
  the end.
 */
module ContractTraversal {
  import opened ArenaTypes
  import opened ContractRam
  import opened IteratorHandles
  import opened TableOrder
  import opened ContractSessions
  import opened ContractDatabase

  // ----- by primary key -----------------------------------------------------

  /**
    Lower bound, then next until the end: the handles of all rows of the table
    with primary keys from `low` on, in ascending order, each once, and then the
    table's own end handle.
   */
  method Scan(c: ContractDb, name: Triple, low: nat)
    returns (handles: seq<int>, end: int, ghost table: Option<int>, ghost rows: seq<int>)
    requires c.Valid()
    modifies c.cache
    ensures c.Valid() && c.Keeps() && c.IsTable(name, table)
    ensures table.None? ==> end == -1 && handles == []
    ensures table.Some? ==>
            c.IsAt(end, table.value, None) && Ascending(c.db.kvs, KvPlace, table.value, Pos(0, low), rows)
    ensures |handles| == |rows| && forall i :: 0 <= i < |rows| ==> c.Names(handles[i], rows[i])
  {
    hide Good, Scanned, IsFirst, Ascending, Ahead, Distinct, IteratorCache.Valid, ContractDb.HandlesOK;
    GoodApart(c.db);
    handles, rows := [], [];
    ghost var at;
    end, table, at := c.LowerboundI64(name, low);
    if table.Some? {
      PositionSign(c, end, table.value, at);
    }
    if end == -1 {
      return;
    }
    ScanStart(c.db.kvs, KvPlace, table.value, Pos(0, low), at);
    var primary := 0;
    while end >= 0
      invariant c.Valid() && c.Keeps() && c.IsTable(name, table) && c.IsAt(end, table.value, at)
      invariant Scanned(c.db.kvs, KvPlace, table.value, Pos(0, low), rows, at)
      invariant |handles| == |rows| && forall i :: 0 <= i < |rows| ==> c.Names(handles[i], rows[i])
      invariant end >= 0 <==> at.Some?
      decreases at.Some?, if at.Some? && at.value in c.db.kvs
          then Ahead(c.db.kvs, KvPlace, PosOf(c.db.kvs, KvPlace, at.value)) else {}
    {
      ScannedNext(c.db.kvs, KvPlace, table.value, Pos(0, low), rows, at);
      ghost var next;
      handles := handles + [end];
      end, primary, next := c.NextI64(end, primary, at.value);
      ScanNext(c.db.kvs, KvPlace, table.value, Pos(0, low), rows, at.value, next);
      AheadShrinks(c.db.kvs, KvPlace, table.value, at.value, next);
      rows := rows + [at.value];
      at := next;
      PositionSign(c, end, table.value, at);
    }
    ScanEnd(c.db.kvs, KvPlace, table.value, Pos(0, low), rows);
  }

  /** Row handles are not negative, ends are, and neither is -1. */
  lemma PositionSign(c: ContractDb, handle: int, table: int, at: Option<int>)
    requires c.Valid() && c.IsAt(handle, table, at)
    ensures handle != -1 && (handle >= 0 <==> at.Some?)
  {
    hide Good;
    c.cache.HandlesDiffer();
  }

  /**
    From a table's end, previous until -1: all the table's rows in descending order,
    each once. `rows` lists them ascending.
   */
  method ScanBack(c: ContractDb, end: int, ghost table: int) returns (handles: seq<int>, ghost rows: seq<int>)
    requires c.Valid() && c.IsAt(end, table, None)
    modifies c.cache
    ensures c.Valid() && c.Keeps() && Ascending(c.db.kvs, KvPlace, table, Pos(0, 0), rows)
    ensures |handles| == |rows| && forall i :: 0 <= i < |rows| ==> c.Names(handles[|rows| - 1 - i], rows[i])
  {
    hide Good, BackScanned, IsLast, Ascending, Behind, Distinct, IteratorCache.Valid, ContractDb.HandlesOK;
    GoodApart(c.db);
    handles, rows := [], [];
    var itr, primary := end, 0;
    ghost var at;
    itr, primary, at := c.PreviousI64(itr, primary, table, None);
    BackStart(c.db.kvs, KvPlace, table, at);
    if at.Some? {
      PositionSign(c, itr, table, at);
    }
    while itr >= 0
      invariant c.Valid() && c.Keeps() && BackScanned(c.db.kvs, KvPlace, table, rows, at)
      invariant if at.Some? then itr >= 0 && c.IsAt(itr, table, at) else itr == -1
      invariant |handles| == |rows| && forall i :: 0 <= i < |rows| ==> c.Names(handles[|rows| - 1 - i], rows[i])
      decreases at.Some?, if at.Some? && at.value in c.db.kvs
          then Behind(c.db.kvs, KvPlace, PosOf(c.db.kvs, KvPlace, at.value)) else {}
    {
      BackAt(c.db.kvs, KvPlace, table, rows, at);
      ghost var prev;
      handles := handles + [itr];
      itr, primary, prev := c.PreviousI64(itr, primary, table, at);
      BackNext(c.db.kvs, KvPlace, table, rows, at.value, prev);
      BehindShrinks(c.db.kvs, KvPlace, table, at.value, prev);
      rows := [at.value] + rows;
      at := prev;
      if at.Some? {
        PositionSign(c, itr, table, at);
      }
    }
    BackEnd(c.db.kvs, KvPlace, table, rows);
  }

  /**
    There and back again: from `low` to the table's end and then backwards to its
    first row. The way back begins with the handles of the way there, in reverse,
    and every handle given out before still names its row.
   */
  method ThereAndBack(c: ContractDb, name: Triple, low: nat) returns (forward: seq<int>, back: seq<int>)
    requires c.Valid()
    modifies c.cache
    ensures c.Valid() && c.Keeps()
    ensures |forward| <= |back| && back[..|forward|] == Reversed(forward)
  {
    hide Good, Ascending, IteratorCache.Valid, ContractDb.HandlesOK, Reversed;
    var end;
    ghost var table, rows, all;
    forward, end, table, rows := Scan(c, name, low);
    if end == -1 {
      if table.Some? {
        PositionSign(c, end, table.value, None);
      }
      return forward, [];
    }
    ghost var named := c.cache.rowToIter;
    back, all := ScanBack(c, end, table.value);
    BackRetraces(c.db.kvs, KvPlace, table.value, Pos(0, low), rows, all);
    assert Handles(rows, c.cache.rowToIter, forward) by {
      assert Handles(rows, named, forward);
    }
    assert Handles(all, c.cache.rowToIter, Reversed(back));
    HandlesRetrace(rows, all, c.cache.rowToIter, forward, back);
  }

  // ----- by secondary key ---------------------------------------------------

  lemma IdxPositionSign(c: ContractDb, handle: int, table: int, at: Option<int>)
    requires c.Valid() && c.IsAtIdx(handle, table, at)
    ensures handle != -1 && (handle >= 0 <==> at.Some?)
  {
    hide Good;
    c.idx64Cache.HandlesDiffer();
  }

  /**
    Lower bound, then next until the end, on the index: the handles of all
    entries with secondary keys from `low` on, by secondary key and by primary
    key among equal ones, each once, and then the table's own end handle.
   */
  method ScanIdx64(c: ContractDb, name: Triple, low: nat)
    returns (handles: seq<int>, end: int, ghost table: Option<int>, ghost rows: seq<int>)
    requires c.Valid()
    modifies c.idx64Cache
    ensures c.Valid() && c.KeepsIdx() && c.IsTable(name, table)
    ensures table.None? ==> end == -1 && handles == []
    ensures table.Some? ==>
            c.IsAtIdx(end, table.value, None) && Ascending(c.db.idx64, IdxPlace, table.value, Pos(low, 0), rows)
    ensures |handles| == |rows| && forall i :: 0 <= i < |rows| ==> c.NamesIdx(handles[i], rows[i])
  {
    hide Good, Scanned, IsFirst, Ascending, Ahead, Distinct, IteratorCache.Valid, ContractDb.HandlesOK;
    GoodApart(c.db);
    handles, rows := [], [];
    var secondary, primary;
    ghost var at;
    end, secondary, primary, table, at := c.Idx64Lowerbound(name, low, 0);
    if table.Some? {
      IdxPositionSign(c, end, table.value, at);
    }
    if end == -1 {
      return;
    }
    ScanStart(c.db.idx64, IdxPlace, table.value, Pos(low, 0), at);
    while end >= 0
      invariant c.Valid() && c.KeepsIdx() && c.IsTable(name, table) && c.IsAtIdx(end, table.value, at)
      invariant Scanned(c.db.idx64, IdxPlace, table.value, Pos(low, 0), rows, at)
      invariant |handles| == |rows| && forall i :: 0 <= i < |rows| ==> c.NamesIdx(handles[i], rows[i])
      invariant end >= 0 <==> at.Some?
      decreases at.Some?, if at.Some? && at.value in c.db.idx64
          then Ahead(c.db.idx64, IdxPlace, PosOf(c.db.idx64, IdxPlace, at.value)) else {}
    {
      ScannedNext(c.db.idx64, IdxPlace, table.value, Pos(low, 0), rows, at);
      ghost var next;
      handles := handles + [end];
      end, primary, next := c.Idx64Next(end, primary, at.value);
      ScanNext(c.db.idx64, IdxPlace, table.value, Pos(low, 0), rows, at.value, next);
      AheadShrinks(c.db.idx64, IdxPlace, table.value, at.value, next);
      rows := rows + [at.value];
      at := next;
      IdxPositionSign(c, end, table.value, at);
    }
    ScanEnd(c.db.idx64, IdxPlace, table.value, Pos(low, 0), rows);
  }

  /**
    From the end of a table's index, previous until -1: all its entries in descending
    order, each once. `rows` lists them ascending.
   */
  method ScanIdx64Back(c: ContractDb, end: int, ghost table: int) returns (handles: seq<int>, ghost rows: seq<int>)
    requires c.Valid() && c.IsAtIdx(end, table, None)
    modifies c.idx64Cache
    ensures c.Valid() && c.KeepsIdx() && Ascending(c.db.idx64, IdxPlace, table, Pos(0, 0), rows)
    ensures |handles| == |rows| && forall i :: 0 <= i < |rows| ==> c.NamesIdx(handles[|rows| - 1 - i], rows[i])
  {
    hide Good, BackScanned, IsLast, Ascending, Behind, Distinct, IteratorCache.Valid, ContractDb.HandlesOK;
    GoodApart(c.db);
    handles, rows := [], [];
    var itr, primary := end, 0;
    ghost var at;
    itr, primary, at := c.Idx64Previous(itr, primary, table, None);
    BackStart(c.db.idx64, IdxPlace, table, at);
    if at.Some? {
      IdxPositionSign(c, itr, table, at);
    }
    while itr >= 0
      invariant c.Valid() && c.KeepsIdx() && BackScanned(c.db.idx64, IdxPlace, table, rows, at)
      invariant if at.Some? then itr >= 0 && c.IsAtIdx(itr, table, at) else itr == -1
      invariant |handles| == |rows| && forall i :: 0 <= i < |rows| ==> c.NamesIdx(handles[|rows| - 1 - i], rows[i])
      decreases at.Some?, if at.Some? && at.value in c.db.idx64
          then Behind(c.db.idx64, IdxPlace, PosOf(c.db.idx64, IdxPlace, at.value)) else {}
    {
      BackAt(c.db.idx64, IdxPlace, table, rows, at);
      ghost var prev;
      handles := handles + [itr];
      itr, primary, prev := c.Idx64Previous(itr, primary, table, at);
      BackNext(c.db.idx64, IdxPlace, table, rows, at.value, prev);
      BehindShrinks(c.db.idx64, IdxPlace, table, at.value, prev);
      rows := [at.value] + rows;
      at := prev;
      if at.Some? {
        IdxPositionSign(c, itr, table, at);
      }
    }
    BackEnd(c.db.idx64, IdxPlace, table, rows);
  }

  /** There and back again on the index, by handles. */
  method Idx64ThereAndBack(c: ContractDb, name: Triple, low: nat) returns (forward: seq<int>, back: seq<int>)
    requires c.Valid()
    modifies c.idx64Cache
    ensures c.Valid() && c.KeepsIdx()
    ensures |forward| <= |back| && back[..|forward|] == Reversed(forward)
  {
    hide Good, Ascending, IteratorCache.Valid, ContractDb.HandlesOK, Reversed;
    var end;
    ghost var table, rows, all;
    forward, end, table, rows := ScanIdx64(c, name, low);
    if end == -1 {
      if table.Some? {
        IdxPositionSign(c, end, table.value, None);
      }
      return forward, [];
    }
    ghost var named := c.idx64Cache.rowToIter;
    back, all := ScanIdx64Back(c, end, table.value);
    BackRetraces(c.db.idx64, IdxPlace, table.value, Pos(low, 0), rows, all);
    assert Handles(rows, c.idx64Cache.rowToIter, forward) by {
      assert Handles(rows, named, forward);
    }
    assert Handles(all, c.idx64Cache.rowToIter, Reversed(back));
    HandlesRetrace(rows, all, c.idx64Cache.rowToIter, forward, back);
  }
}
