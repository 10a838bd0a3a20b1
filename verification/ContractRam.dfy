/**
  The rows of the contract database and the RAM they are billed for. The gap
  between what an account is billed and what its live rows cost is zero in every
  state the database can be left in.
 */
module ContractRam {
  import opened ArenaTypes

  const TABLE_OVERHEAD: nat := 112
  const KV_OVERHEAD: nat := 112
  const IDX64_OVERHEAD: nat := 128

  datatype Triple = Triple(code: nat, scope: nat, table: nat)

  datatype TableId = TableId(name: Triple, payer: nat, count: nat)

  datatype KeyValue = KeyValue(tableId: int, primary: nat, payer: nat, value: seq<Byte>)

  datatype Index64 = Index64(tableId: int, primary: nat, secondary: nat, payer: nat)

  /** Everything an undo session covers. */
  datatype Contents = Contents(
    tables: map<int, TableId>,
    kvs: map<int, KeyValue>,
    idx64: map<int, Index64>,
    ram: map<nat, int>,
    nextTable: nat,
    nextKv: nat,
    nextIdx: nat)

  const EMPTY := Contents(map[], map[], map[], map[], 0, 0, 0)

  // ----- what rows cost -----------------------------------------------------

  /** Who pays for a row, and how many bytes. */
  type Bill = (nat, nat)

  /** What an account owes for the rows of one kind. */
  ghost function Owed<R(!new)>(rows: map<int, R>, bill: R -> Bill, account: nat): nat
    decreases |rows|
  {
    if id: int :| id in rows then Part(bill(rows[id]), account) + Owed(rows - {id}, bill, account) else 0
  }

  function Part(bill: Bill, account: nat): nat
  {
    if bill.0 == account then bill.1 else 0
  }

  lemma {:induction false} OwedWithout<R(!new)>(rows: map<int, R>, bill: R -> Bill, id: int, account: nat)
    requires id in rows
    ensures Owed(rows, bill, account) == Part(bill(rows[id]), account) + Owed(rows - {id}, bill, account)
    decreases |rows|
  {
    hide Part;
    var first: int :| first in rows && Owed(rows, bill, account) == Part(bill(rows[first]), account)
        + Owed(rows - {first}, bill, account);
    if first != id {
      OwedWithout(rows - {first}, bill, id, account);
      OwedWithout(rows - {id}, bill, first, account);
      assert (rows - {first}) - {id} == (rows - {id}) - {first};
    }
  }

  /** Putting a row in moves what is owed by the difference of the bills. */
  lemma OwedPut<R(!new)>(rows: map<int, R>, bill: R -> Bill, id: int, row: R, account: nat)
    ensures Owed(rows[id := row], bill, account) ==
            Owed(rows, bill, account) + Part(bill(row), account) -
                if id in rows then Part(bill(rows[id]), account) else 0
  {
    hide Part, Owed;
    OwedWithout(rows[id := row], bill, id, account);
    assert rows[id := row] - {id} == rows - {id};
    if id in rows {
      OwedWithout(rows, bill, id, account);
    } else {
      assert rows - {id} == rows;
    }
  }

  function TableBill(row: TableId): Bill
  {
    (row.payer, TABLE_OVERHEAD)
  }

  function KvBill(row: KeyValue): Bill
  {
    (row.payer, |row.value| + KV_OVERHEAD)
  }

  function IdxBill(row: Index64): Bill
  {
    (row.payer, IDX64_OVERHEAD)
  }

  /** What the live rows and tables of an account cost. */
  ghost function Cost(c: Contents, account: nat): nat
  {
    Owed(c.tables, TableBill, account) + Owed(c.kvs, KvBill, account) + Owed(c.idx64, IdxBill, account)
  }

  /** What an account is billed. */
  function RamUsage(c: Contents, account: nat): int
  {
    if account in c.ram then c.ram[account] else 0
  }

  ghost function Gap(c: Contents, account: nat): int
  {
    RamUsage(c, account) - Cost(c, account)
  }

  /** Every account is billed exactly what its live rows and tables cost. */
  ghost predicate Conserved(c: Contents)
  {
    forall account: nat :: Gap(c, account) == 0
  }

  // ----- how each change moves the gap --------------------------------------

  function Billed(c: Contents, account: nat, delta: int): Contents
  {
    c.(ram := c.ram[account := RamUsage(c, account) + delta])
  }

  lemma BilledGap(c: Contents, account: nat, delta: int, a: nat)
    ensures Gap(Billed(c, account, delta), a) == Gap(c, a) + if a == account then delta else 0
  {
  }

  lemma TablePutGap(c: Contents, id: int, row: TableId, a: nat)
    ensures Gap(c.(tables := c.tables[id := row]), a) == Gap(c, a) - Part(TableBill(row), a) +
            if id in c.tables then Part(TableBill(c.tables[id]), a) else 0
  {
    hide Owed, Part;
    OwedPut(c.tables, TableBill, id, row, a);
  }

  lemma KvPutGap(c: Contents, id: int, row: KeyValue, a: nat)
    ensures Gap(c.(kvs := c.kvs[id := row]), a) == Gap(c, a) - Part(KvBill(row), a) +
            if id in c.kvs then Part(KvBill(c.kvs[id]), a) else 0
  {
    hide Owed, Part;
    OwedPut(c.kvs, KvBill, id, row, a);
  }

  lemma KvTakeGap(c: Contents, id: int, a: nat)
    requires id in c.kvs
    ensures Gap(c.(kvs := c.kvs - {id}), a) == Gap(c, a) + Part(KvBill(c.kvs[id]), a)
  {
    hide Owed, Part;
    OwedWithout(c.kvs, KvBill, id, a);
  }

  lemma IdxPutGap(c: Contents, id: int, row: Index64, a: nat)
    ensures Gap(c.(idx64 := c.idx64[id := row]), a) == Gap(c, a) - Part(IdxBill(row), a) +
            if id in c.idx64 then Part(IdxBill(c.idx64[id]), a) else 0
  {
    hide Owed, Part;
    OwedPut(c.idx64, IdxBill, id, row, a);
  }

  lemma IdxTakeGap(c: Contents, id: int, a: nat)
    requires id in c.idx64
    ensures Gap(c.(idx64 := c.idx64 - {id}), a) == Gap(c, a) + Part(IdxBill(c.idx64[id]), a)
  {
    hide Owed, Part;
    OwedWithout(c.idx64, IdxBill, id, a);
  }

  lemma EmptyConserved()
    ensures Conserved(EMPTY)
  {
  }

  /** Nothing but the next ids differs. */
  lemma NextIdsGap(c: Contents, nextTable: nat, nextKv: nat, nextIdx: nat, a: nat)
    ensures Gap(c.(nextTable := nextTable, nextKv := nextKv, nextIdx := nextIdx), a) == Gap(c, a)
  {
  }

  // ----- structure ----------------------------------------------------------

  ghost function RowsIn(kvs: map<int, KeyValue>, table: int): set<int>
  {
    set id | id in kvs && kvs[id].tableId == table
  }

  predicate SameKey(a: KeyValue, b: KeyValue)
  {
    a.tableId == b.tableId && a.primary == b.primary
  }

  predicate SameEntry(a: Index64, b: Index64)
  {
    a.tableId == b.tableId && a.primary == b.primary
  }

  /** Names, rows of a table and entries of a table are unique. */
  ghost predicate Unique(c: Contents)
  {
    && (forall s, t :: s in c.tables && t in c.tables && c.tables[s].name == c.tables[t].name ==> s == t)
    && (forall i, j :: i in c.kvs && j in c.kvs && SameKey(c.kvs[i], c.kvs[j]) ==> i == j)
    && (forall i, j :: i in c.idx64 && j in c.idx64 && SameEntry(c.idx64[i], c.idx64[j]) ==> i == j)
  }

  /**
    Names are unique, ids are below the next ones, rows belong to live tables, and
    tables count their key-value rows.
   */
  ghost predicate Sound(c: Contents)
  {
    && (forall id :: id in c.tables ==> 0 <= id < c.nextTable)
    && (forall id :: id in c.kvs ==> 0 <= id < c.nextKv && c.kvs[id].tableId in c.tables)
    && (forall id :: id in c.idx64 ==> 0 <= id < c.nextIdx && c.idx64[id].tableId in c.tables)
    && Unique(c)
    && (forall id :: id in c.tables ==> c.tables[id].count == |RowsIn(c.kvs, id)|)
  }

  lemma RowsWith(kvs: map<int, KeyValue>, id: int, row: KeyValue, t: int)
    requires id !in kvs
    ensures |RowsIn(kvs[id := row], t)| == |RowsIn(kvs, t)| + if row.tableId == t then 1 else 0
  {
    if row.tableId == t {
      assert RowsIn(kvs[id := row], t) == RowsIn(kvs, t) + {id};
    } else {
      assert RowsIn(kvs[id := row], t) == RowsIn(kvs, t);
    }
  }

  lemma RowsChanged(kvs: map<int, KeyValue>, id: int, row: KeyValue, t: int)
    requires id in kvs && row.tableId == kvs[id].tableId
    ensures RowsIn(kvs[id := row], t) == RowsIn(kvs, t)
  {
  }

  lemma RowsWithout(kvs: map<int, KeyValue>, id: int, t: int)
    requires id in kvs
    ensures |RowsIn(kvs, t)| == |RowsIn(kvs - {id}, t)| + if kvs[id].tableId == t then 1 else 0
  {
    if kvs[id].tableId == t {
      assert RowsIn(kvs, t) == RowsIn(kvs - {id}, t) + {id};
    } else {
      assert RowsIn(kvs, t) == RowsIn(kvs - {id}, t);
    }
  }

  lemma NoRowsYet(kvs: map<int, KeyValue>, t: int)
    requires forall id :: id in kvs ==> kvs[id].tableId != t
    ensures |RowsIn(kvs, t)| == 0
  {
    var rows := RowsIn(kvs, t);
    forall id: int ensures id !in rows {
    }
    assert rows == {};
  }

  // ----- the changes the API makes ------------------------------------------

  function WithTable(c: Contents, name: Triple, payer: nat): Contents
  {
    Billed(c.(tables := c.tables[c.nextTable := TableId(name, payer, 0)], nextTable := c.nextTable + 1), payer,
           TABLE_OVERHEAD)
  }

  lemma WithTableKeeps(c: Contents, name: Triple, payer: nat)
    requires Sound(c) && Conserved(c) && forall id :: id in c.tables ==> c.tables[id].name != name
    ensures Sound(WithTable(c, name, payer)) && Conserved(WithTable(c, name, payer))
  {
    hide Gap, RowsIn;
    NoRowsYet(c.kvs, c.nextTable);
    forall a: nat ensures Gap(WithTable(c, name, payer), a) == 0 {
      var row := TableId(name, payer, 0);
      var c1 := c.(tables := c.tables[c.nextTable := row]);
      TablePutGap(c, c.nextTable, row, a);
      NextIdsGap(c1, c1.nextTable + 1, c1.nextKv, c1.nextIdx, a);
      BilledGap(c1.(nextTable := c1.nextTable + 1), payer, TABLE_OVERHEAD, a);
    }
  }

  function Recounted(c: Contents, table: int, count: nat): Contents
    requires table in c.tables
  {
    c.(tables := c.tables[table := c.tables[table].(count := count)])
  }

  lemma RecountedGap(c: Contents, table: int, count: nat, a: nat)
    requires table in c.tables
    ensures Gap(Recounted(c, table, count), a) == Gap(c, a)
  {
    hide Gap, Part;
    TablePutGap(c, table, c.tables[table].(count := count), a);
  }

  function Stored(c: Contents, row: KeyValue): Contents
    requires row.tableId in c.tables
  {
    Billed(Recounted(c.(kvs := c.kvs[c.nextKv := row], nextKv := c.nextKv + 1), row.tableId,
                     c.tables[row.tableId].count + 1),
           row.payer, |row.value| + KV_OVERHEAD)
  }

  /** A table has no key-value row under a primary key yet. */
  ghost predicate Vacant(c: Contents, table: int, primary: nat)
  {
    forall id :: id in c.kvs && c.kvs[id].tableId == table ==> c.kvs[id].primary != primary
  }

  lemma StoredSound(c: Contents, row: KeyValue)
    requires Sound(c) && row.tableId in c.tables && Vacant(c, row.tableId, row.primary)
    ensures Sound(Stored(c, row))
  {
    hide RowsIn;
    forall t | t in c.tables
      ensures |RowsIn(c.kvs[c.nextKv := row], t)| == |RowsIn(c.kvs, t)| + if row.tableId == t then 1 else 0
    {
      RowsWith(c.kvs, c.nextKv, row, t);
    }
  }

  lemma StoredKeeps(c: Contents, row: KeyValue)
    requires Sound(c) && Conserved(c) && row.tableId in c.tables && Vacant(c, row.tableId, row.primary)
    ensures Sound(Stored(c, row)) && Conserved(Stored(c, row))
  {
    hide Gap, RowsIn, Vacant;
    StoredSound(c, row);
    NextIsNew(c);
    hide Sound;
    var c1 := c.(kvs := c.kvs[c.nextKv := row]);
    var c2 := c1.(nextKv := c1.nextKv + 1);
    var c3 := Recounted(c2, row.tableId, c.tables[row.tableId].count + 1);
    forall a: nat ensures Gap(Stored(c, row), a) == 0 {
      KvPutGap(c, c.nextKv, row, a);
      NextIdsGap(c1, c1.nextTable, c1.nextKv + 1, c1.nextIdx, a);
      RecountedGap(c2, row.tableId, c.tables[row.tableId].count + 1, a);
      BilledGap(c3, row.payer, |row.value| + KV_OVERHEAD, a);
    }
  }

  lemma NextIsNew(c: Contents)
    requires Sound(c)
    ensures c.nextKv !in c.kvs
  {
    hide RowsIn;
  }

  /** Moves the billed bytes to the new payer, or adjusts them when the payer stays. */
  function Rebilled(c: Contents, was: Bill, now: Bill): Contents
  {
    if was.0 == now.0 then Billed(c, now.0, now.1 - was.1)
    else Billed(Billed(c, was.0, 0 - was.1), now.0, now.1)
  }

  lemma RebilledGap(c: Contents, was: Bill, now: Bill, a: nat)
    ensures Gap(Rebilled(c, was, now), a) == Gap(c, a) - Part(was, a) + Part(now, a)
  {
    hide Gap;
    if was.0 == now.0 {
      BilledGap(c, now.0, now.1 - was.1, a);
    } else {
      BilledGap(c, was.0, 0 - was.1, a);
      BilledGap(Billed(c, was.0, 0 - was.1), now.0, now.1, a);
    }
  }

  function Updated(c: Contents, id: int, payer: nat, value: seq<Byte>): Contents
    requires id in c.kvs
  {
    var was := c.kvs[id];
    var c1 := Rebilled(c, KvBill(was), KvBill(was.(payer := payer, value := value)));
    c1.(kvs := c1.kvs[id := was.(payer := payer, value := value)])
  }

  lemma UpdatedKeeps(c: Contents, id: int, payer: nat, value: seq<Byte>)
    requires Sound(c) && Conserved(c) && id in c.kvs
    ensures Sound(Updated(c, id, payer, value)) && Conserved(Updated(c, id, payer, value))
  {
    hide Gap, RowsIn, Part;
    var was := c.kvs[id];
    var row := was.(payer := payer, value := value);
    var c1 := Rebilled(c, KvBill(was), KvBill(was.(payer := payer, value := value)));
    forall t | t in c.tables ensures RowsIn(c.kvs[id := row], t) == RowsIn(c.kvs, t) {
      RowsChanged(c.kvs, id, row, t);
    }
    forall a: nat ensures Gap(Updated(c, id, payer, value), a) == 0 {
      RebilledGap(c, KvBill(was), KvBill(row), a);
      KvPutGap(c1, id, row, a);
    }
  }

  function Removed(c: Contents, id: int): Contents
    requires Sound(c) && id in c.kvs
  {
    var row := c.kvs[id];
    var c1 := Billed(c, row.payer, -(|row.value| + KV_OVERHEAD));
    RowsWithout(c.kvs, id, row.tableId);
    Recounted(c1.(kvs := c1.kvs - {id}), row.tableId, c.tables[row.tableId].count - 1)
  }

  lemma RemovedKeeps(c: Contents, id: int)
    requires Sound(c) && Conserved(c) && id in c.kvs
    ensures Sound(Removed(c, id)) && Conserved(Removed(c, id))
  {
    hide Gap, RowsIn;
    var row := c.kvs[id];
    var c1 := Billed(c, row.payer, -(|row.value| + KV_OVERHEAD));
    var c2 := c1.(kvs := c1.kvs - {id});
    forall t | t in c.tables ensures |RowsIn(c.kvs, t)| == |RowsIn(c2.kvs, t)| + if row.tableId == t then 1 else 0 {
      RowsWithout(c.kvs, id, t);
    }
    forall a: nat ensures Gap(Removed(c, id), a) == 0 {
      BilledGap(c, row.payer, -(|row.value| + KV_OVERHEAD), a);
      KvTakeGap(c1, id, a);
      RecountedGap(c2, row.tableId, c.tables[row.tableId].count - 1, a);
    }
  }

  function IdxStored(c: Contents, row: Index64): Contents
  {
    Billed(c.(idx64 := c.idx64[c.nextIdx := row], nextIdx := c.nextIdx + 1), row.payer, IDX64_OVERHEAD)
  }

  ghost predicate VacantIdx(c: Contents, table: int, primary: nat)
  {
    forall id :: id in c.idx64 && c.idx64[id].tableId == table ==> c.idx64[id].primary != primary
  }

  lemma IdxStoredKeeps(c: Contents, row: Index64)
    requires Sound(c) && Conserved(c) && row.tableId in c.tables && VacantIdx(c, row.tableId, row.primary)
    ensures Sound(IdxStored(c, row)) && Conserved(IdxStored(c, row))
  {
    hide Gap, RowsIn;
    var c1 := c.(idx64 := c.idx64[c.nextIdx := row]);
    forall a: nat ensures Gap(IdxStored(c, row), a) == 0 {
      IdxPutGap(c, c.nextIdx, row, a);
      NextIdsGap(c1, c1.nextTable, c1.nextKv, c1.nextIdx + 1, a);
      BilledGap(c1.(nextIdx := c1.nextIdx + 1), row.payer, IDX64_OVERHEAD, a);
    }
  }

  function IdxUpdated(c: Contents, id: int, secondary: nat): Contents
    requires id in c.idx64
  {
    c.(idx64 := c.idx64[id := c.idx64[id].(secondary := secondary)])
  }

  lemma IdxUpdatedKeeps(c: Contents, id: int, secondary: nat)
    requires Sound(c) && Conserved(c) && id in c.idx64
    ensures Sound(IdxUpdated(c, id, secondary)) && Conserved(IdxUpdated(c, id, secondary))
  {
    hide Gap, RowsIn;
    forall a: nat ensures Gap(IdxUpdated(c, id, secondary), a) == 0 {
      IdxPutGap(c, id, c.idx64[id].(secondary := secondary), a);
    }
  }

  function IdxRemoved(c: Contents, id: int): Contents
    requires id in c.idx64
  {
    var c1 := Billed(c, c.idx64[id].payer, 0 - IDX64_OVERHEAD);
    c1.(idx64 := c1.idx64 - {id})
  }

  lemma IdxRemovedKeeps(c: Contents, id: int)
    requires Sound(c) && Conserved(c) && id in c.idx64
    ensures Sound(IdxRemoved(c, id)) && Conserved(IdxRemoved(c, id))
  {
    hide Gap, RowsIn;
    var c1 := Billed(c, c.idx64[id].payer, 0 - IDX64_OVERHEAD);
    forall a: nat ensures Gap(IdxRemoved(c, id), a) == 0 {
      BilledGap(c, c.idx64[id].payer, 0 - IDX64_OVERHEAD, a);
      IdxTakeGap(c1, id, a);
    }
  }
}
