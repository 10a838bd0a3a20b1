/**
  The contract database's operations as the arena makes them: each is a few
  writes, and each write is one or two row operations of an arena table. What
  the tables hold afterwards, read as contents, is what the operation does to
  contents.
 */
module ContractWrites {
  import opened ArenaTypes
  import opened TableSpec
  import opened RowHistory
  import BlobSafety
  import opened TableOps
  import opened SessionLevels
  import Refinement
  import opened DbLifecycle
  import opened DbRefinement
  import opened ContractRam
  import opened ContractSessions

  type Config = BlobSafety.Config
  type Obs = BlobSafety.Obs

  // ----- writes -------------------------------------------------------------

  datatype Write =
    | NewTable(table: TableId)
    | SetTable(id: int, table: TableId)
    | NewKv(kv: KeyValue)
    | SetKv(id: int, kv: KeyValue)
    | DropKv(id: int)
    | NewIdx(idx64: Index64)
    | SetIdx(id: int, idx64: Index64)
    | DropIdx(id: int)
    | BillTo(account: nat, delta: int)

  function Applied(c: Contents, w: Write): Contents
  {
    match w
    case NewTable(t) => c.(tables := c.tables[c.nextTable := t], nextTable := c.nextTable + 1)
    case SetTable(id, t) => c.(tables := c.tables[id := t])
    case NewKv(row) => c.(kvs := c.kvs[c.nextKv := row], nextKv := c.nextKv + 1)
    case SetKv(id, row) => c.(kvs := c.kvs[id := row])
    case DropKv(id) => c.(kvs := c.kvs - {id})
    case NewIdx(row) => c.(idx64 := c.idx64[c.nextIdx := row], nextIdx := c.nextIdx + 1)
    case SetIdx(id, row) => c.(idx64 := c.idx64[id := row])
    case DropIdx(id) => c.(idx64 := c.idx64 - {id})
    case BillTo(account, delta) => Billed(c, account, delta)
  }

  function AppliedAll(c: Contents, ws: seq<Write>): Contents
    decreases |ws|
  {
    if ws == [] then c else AppliedAll(Applied(c, ws[0]), ws[1..])
  }

  /** The write keeps them unique: what is new is under a new name or key, what is set keeps its own. */
  ghost predicate CanWrite(c: Contents, w: Write)
  {
    match w
    case NewTable(t) => forall id :: id in c.tables ==> c.tables[id].name != t.name
    case SetTable(id, t) => id in c.tables && c.tables[id].name == t.name
    case NewKv(row) => Vacant(c, row.tableId, row.primary)
    case SetKv(id, row) => id in c.kvs && c.kvs[id].tableId == row.tableId && c.kvs[id].primary == row.primary
    case DropKv(id) => id in c.kvs
    case NewIdx(row) => VacantIdx(c, row.tableId, row.primary)
    case SetIdx(id, row) => id in c.idx64 && c.idx64[id].tableId == row.tableId && c.idx64[id].primary == row.primary
    case DropIdx(id) => id in c.idx64
    case BillTo(_, _) => true
  }

  ghost predicate CanWriteAll(c: Contents, ws: seq<Write>)
    decreases |ws|
  {
    ws == [] || (CanWrite(c, ws[0]) && CanWriteAll(Applied(c, ws[0]), ws[1..]))
  }

  lemma WriteKeepsUnique(c: Contents, w: Write)
    requires Unique(c) && CanWrite(c, w)
    ensures Unique(Applied(c, w))
  {
  }

  // ----- the arena operations of a write ------------------------------------

  /**
    The four tables are different ones, and their unique keys tell rows apart by
    what identifies them: a table by its name, a row and an entry by table and
    primary key, a usage row by its account.
   */
  ghost predicate Keyed(rd: Reading, scs: seq<Schema>)
  {
    && CanRead(rd, scs)
    && rd.tablesAt != rd.kvsAt && rd.tablesAt != rd.idx64At && rd.tablesAt != rd.usageAt
    && rd.kvsAt != rd.idx64At && rd.kvsAt != rd.usageAt && rd.idx64At != rd.usageAt
    && (forall i: nat, a, b ::
        i < |scs[rd.tablesAt].keys| && scs[rd.tablesAt].keys[i](a) == scs[rd.tablesAt].keys[i](b) ==>
                               rd.table(a).name == rd.table(b).name)
    && (forall i: nat, a, b :: i < |scs[rd.kvsAt].keys| && scs[rd.kvsAt].keys[i](a) == scs[rd.kvsAt].keys[i](b) ==>
                               rd.kv(a).tableId == rd.kv(b).tableId && rd.kv(a).primary == rd.kv(b).primary)
    && (forall i: nat, a, b ::
        i < |scs[rd.idx64At].keys| && scs[rd.idx64At].keys[i](a) == scs[rd.idx64At].keys[i](b) ==>
                               rd.idx64(a).tableId == rd.idx64(b).tableId && rd.idx64(a).primary == rd.idx64(b).primary)
    && |scs[rd.usageAt].keys| > 0
    && (forall i: nat, a, b :: i < |scs[rd.usageAt].keys| ==>
                               (scs[rd.usageAt].keys[i](a) == scs[rd.usageAt].keys[i](b) <==>
                                rd.account(a) == rd.account(b)))
  }

  /** A row whose value is the blob `r` with these bytes, or no blob where there are none. */
  ghost predicate HoldsKv(rd: Reading, row: Row, kv: KeyValue, r: BlobRef)
  {
    && rd.kv(row).(value := kv.value) == kv
    && if kv.value == [] then rd.valueRef(row).len == 0 else rd.valueRef(row) == r
  }

  /** How many row operations a write takes: a new value is a blob first. */
  function Length(w: Write): nat
  {
    if w.NewKv? || w.SetKv? then 2 else 1
  }

  /** `row` is usage row `id` of the account with `delta` more bytes. */
  ghost predicate Raises(rd: Reading, usage: Tab, account: nat, delta: int, id: int, row: Row)
  {
    && id in usage.rows && rd.account(usage.rows[id]) == account
    && row.id == id && rd.account(row) == account && rd.bytes(row) == rd.bytes(usage.rows[id]) + delta
  }

  /** `dops` are the row operations that make the write in the database `cs`. */
  ghost predicate Performs(rd: Reading, cs: seq<Config>, w: Write, dops: seq<DbOp>)
    requires rd.tablesAt < |cs| && rd.kvsAt < |cs| && rd.idx64At < |cs| && rd.usageAt < |cs|
  {
    var tables, kvs, idx64, usage := cs[rd.tablesAt].t, cs[rd.kvsAt].t, cs[rd.idx64At].t, cs[rd.usageAt].t;
    && |dops| == Length(w)
    && match w
       case NewTable(t) => exists obj ::
           dops[0] == On(rd.tablesAt, EmplaceOp(obj)) && rd.table(WithId(tables, obj)) == t
       case SetTable(id, t) => exists row ::
           dops[0] == On(rd.tablesAt, ModifyOp(id, row)) && row.id == id && rd.table(row) == t
       case NewKv(kv) =>
         && dops[0] == On(rd.kvsAt, AllocOp(kv.value))
         && exists obj ::
            dops[1] == On(rd.kvsAt, EmplaceOp(obj)) && HoldsKv(rd, WithId(kvs, obj), kv, AllocRef(kvs, kv.value))
       case SetKv(id, kv) =>
         && dops[0] == On(rd.kvsAt, AllocOp(kv.value))
         && exists row ::
            dops[1] == On(rd.kvsAt, ModifyOp(id, row)) && row.id == id && HoldsKv(rd, row, kv, AllocRef(kvs, kv.value))
       case DropKv(id) => dops[0] == On(rd.kvsAt, RemoveOp(id))
       case NewIdx(e) => exists obj :: dops[0] == On(rd.idx64At, EmplaceOp(obj)) && rd.idx64(WithId(idx64, obj)) == e
       case SetIdx(id, e) => exists row ::
           dops[0] == On(rd.idx64At, ModifyOp(id, row)) && row.id == id && rd.idx64(row) == e
       case DropIdx(id) => dops[0] == On(rd.idx64At, RemoveOp(id))
       case BillTo(account, delta) =>
         if account in AccountsIn(rd, usage.rows)
         then exists id, row ::
             Raises(rd, usage, account, delta, id, row) && dops[0] == On(rd.usageAt, ModifyOp(id, row))
         else exists obj ::
             && dops[0] == On(rd.usageAt, EmplaceOp(obj)) && rd.account(WithId(usage, obj)) == account
             && rd.bytes(WithId(usage, obj)) == delta
  }

  // ----- one row operation --------------------------------------------------

  ghost function ContentsOf(rd: Reading, scs: seq<Schema>, cs: seq<Config>): Contents
    requires DbInv(scs, cs) && CanRead(rd, scs)
  {
    SessionsOf(rd, scs, cs).db
  }

  ghost function ObsOf(scs: seq<Schema>, cs: seq<Config>): (cur: seq<Obs>)
    requires |scs| == |cs|
    ensures |cur| == |cs| && forall x :: 0 <= x < |cs| ==> cur[x] == Refinement.AbsOf(scs[x], cs[x]).cur
  {
    seq(|cs|, x requires 0 <= x < |cs| => Refinement.AbsOf(scs[x], cs[x]).cur)
  }

  lemma ContentsRead(rd: Reading, scs: seq<Schema>, cs: seq<Config>)
    requires DbInv(scs, cs) && CanRead(rd, scs)
    ensures |scs| == |cs| && ContentsOf(rd, scs, cs) == ReadOff(rd, ObsOf(scs, cs))
  {
    hide BlobSafety.Inv, Refinement.AbsOf, ReadOff, Zip, Lockstep;
    assert SharedAbs(scs, cs).cur == ObsOf(scs, cs);
  }

  /** A row operation changes what is seen of its table as the copying store does, and of no other table. */
  lemma OnTable(scs: seq<Schema>, cs: seq<Config>, x: nat, op: Op)
    requires DbInv(scs, cs) && DbEnabled(scs, cs, On(x, op)) && x < |cs|
    ensures var cs' := DbStep(scs, cs, On(x, op));
            && DbInv(scs, cs') && ForOne(op) && Refinement.Enabled(scs[x], cs[x], op)
            && ObsOf(scs, cs') == ObsOf(scs, cs)[x :=
                                                 Refinement.AbsStep(scs[x], Refinement.AbsOf(scs[x], cs[x]), op,
                                                                    Refinement.Allocated(cs[x].t, op)).cur]
  {
    hide BlobSafety.Inv, Refinement.AbsOf, Refinement.AbsStep, Refinement.Enabled, Refinement.Step, Lockstep;
    StepInv(scs, cs, On(x, op));
    var cs' := DbStep(scs, cs, On(x, op));
    StepOfOne(scs, cs, On(x, op), x);
    Refinement.StepRefines(scs[x], cs[x], op);
    forall y: nat | y < |cs| && y != x ensures cs'[y] == cs[y] {
      StepOfOne(scs, cs, On(x, op), y);
    }
  }

  // ----- tables and entries -------------------------------------------------

  lemma SeenOf(sc: Schema, c: Config)
    ensures var o := Refinement.AbsOf(sc, c).cur; o.rows == c.t.rows && o.nextId == c.t.nextId
  {
  }

  lemma RowsSound(scs: seq<Schema>, cs: seq<Config>, x: nat)
    requires DbInv(scs, cs) && x < |cs|
    ensures RowsOK(scs[x], cs[x].t.nextId, cs[x].t.rows)
  {
    hide Lockstep, BlobSafety.BlobStack, BlobSafety.PatchesOK, RowsOK;
  }

  /** A new row conflicts with no row that it can be told apart from. */
  lemma NoConflict(sc: Schema, rows: Rows, row: Row)
    requires forall i: nat, id :: i < |sc.keys| && id in rows && id != row.id ==>
             sc.keys[i](rows[id]) != sc.keys[i](row)
    ensures Conflict(sc, rows, row, 0).None?
  {
    forall i: nat | i < |sc.keys| ensures !Taken(sc, rows, row, i) {
    }
  }

  /** Only what is seen of the tables' table changed. */
  lemma ReadTables(rd: Reading, scs: seq<Schema>, cur: seq<Obs>, o: Obs)
    requires Keyed(rd, scs) && |cur| == |scs|
    ensures ReadOff(rd, cur[rd.tablesAt := o])
            == ReadOff(rd, cur).(tables := TablesIn(rd, o.rows), nextTable := o.nextId)
  {
    hide TablesIn, KvsIn, Idx64In, ReadUsage;
  }

  lemma ReadKvs(rd: Reading, scs: seq<Schema>, cur: seq<Obs>, o: Obs)
    requires Keyed(rd, scs) && |cur| == |scs|
    ensures ReadOff(rd, cur[rd.kvsAt := o]) == ReadOff(rd, cur).(kvs := KvsIn(rd, o), nextKv := o.nextId)
  {
    hide TablesIn, KvsIn, Idx64In, ReadUsage;
  }

  lemma ReadIdx64(rd: Reading, scs: seq<Schema>, cur: seq<Obs>, o: Obs)
    requires Keyed(rd, scs) && |cur| == |scs|
    ensures ReadOff(rd, cur[rd.idx64At := o]) == ReadOff(rd, cur).(idx64 := Idx64In(rd, o.rows), nextIdx := o.nextId)
  {
    hide TablesIn, KvsIn, Idx64In, ReadUsage;
  }

  lemma ReadBills(rd: Reading, scs: seq<Schema>, cur: seq<Obs>, o: Obs)
    requires Keyed(rd, scs) && |cur| == |scs|
    ensures ReadOff(rd, cur[rd.usageAt := o]) == ReadOff(rd, cur).(ram := ReadUsage(rd, o.rows))
  {
    hide TablesIn, KvsIn, Idx64In, ReadUsage;
  }

  /** What creating or modifying a row, when it is not refused, changes in what is seen. */
  lemma CreateSeen(sc: Schema, c: Config, obj: Row)
    requires Conflict(sc, c.t.rows, WithId(c.t, obj), 0).None?
    ensures var a := Refinement.AbsOf(sc, c);
            Refinement.AbsStep(sc, a, EmplaceOp(obj), BlobRef(0, 0)).cur
            == a.cur.(rows := c.t.rows[c.t.nextId := WithId(c.t, obj)], nextId := c.t.nextId + 1)
  {
  }

  lemma ModifySeen(sc: Schema, c: Config, id: int, row: Row)
    requires id in c.t.rows && row.id == id && Conflict(sc, c.t.rows, row, 0).None?
    ensures var a := Refinement.AbsOf(sc, c);
            Refinement.AbsStep(sc, a, ModifyOp(id, row), BlobRef(0, 0)).cur == a.cur.(rows := c.t.rows[id := row])
  {
  }

  lemma RemoveSeen(sc: Schema, c: Config, id: int)
    ensures var a := Refinement.AbsOf(sc, c);
            Refinement.AbsStep(sc, a, RemoveOp(id), BlobRef(0, 0)).cur == a.cur.(rows := c.t.rows - {id})
  {
  }

  /** What a single row operation on a table does to the contents. */
  ghost function ReadAfter(rd: Reading, scs: seq<Schema>, cs: seq<Config>, x: nat, o: Obs): Contents
    requires DbInv(scs, cs) && Keyed(rd, scs) && x < |cs|
  {
    ReadOff(rd, ObsOf(scs, cs)[x := o])
  }

  lemma CreateReads(rd: Reading, scs: seq<Schema>, cs: seq<Config>, x: nat, obj: Row)
    requires DbInv(scs, cs) && Keyed(rd, scs) && x < |cs| && DbEnabled(scs, cs, On(x, EmplaceOp(obj)))
    requires Conflict(scs[x], cs[x].t.rows, WithId(cs[x].t, obj), 0).None?
    ensures var cs', t, o := DbStep(scs, cs, On(x, EmplaceOp(obj))), cs[x].t, Refinement.AbsOf(scs[x], cs[x]).cur;
            && DbInv(scs, cs')
            && ContentsOf(rd, scs, cs') == ReadAfter(rd, scs, cs, x,
                                                     o.(rows := t.rows[t.nextId := WithId(t, obj)],
                                                        nextId := t.nextId + 1))
  {
    hide BlobSafety.Inv, Lockstep, DbStep, DbEnabled, ReadOff, Refinement.AbsOf, Refinement.AbsStep, Refinement.Enabled,
         Keyed, Conflict;
    OnTable(scs, cs, x, EmplaceOp(obj));
    CreateSeen(scs[x], cs[x], obj);
    KeyedReads(rd, scs);
    ContentsRead(rd, scs, DbStep(scs, cs, On(x, EmplaceOp(obj))));
  }

  lemma ModifyReads(rd: Reading, scs: seq<Schema>, cs: seq<Config>, x: nat, id: int, row: Row)
    requires DbInv(scs, cs) && Keyed(rd, scs) && x < |cs| && DbEnabled(scs, cs, On(x, ModifyOp(id, row)))
    requires id in cs[x].t.rows && row.id == id && Conflict(scs[x], cs[x].t.rows, row, 0).None?
    ensures var cs', t, o := DbStep(scs, cs, On(x, ModifyOp(id, row))), cs[x].t, Refinement.AbsOf(scs[x], cs[x]).cur;
            DbInv(scs, cs') && ContentsOf(rd, scs, cs') == ReadAfter(rd, scs, cs, x, o.(rows := t.rows[id := row]))
  {
    hide BlobSafety.Inv, Lockstep, DbStep, DbEnabled, ReadOff, Refinement.AbsOf, Refinement.AbsStep, Refinement.Enabled,
         Keyed, Conflict;
    OnTable(scs, cs, x, ModifyOp(id, row));
    ModifySeen(scs[x], cs[x], id, row);
    KeyedReads(rd, scs);
    ContentsRead(rd, scs, DbStep(scs, cs, On(x, ModifyOp(id, row))));
  }

  lemma RemoveReads(rd: Reading, scs: seq<Schema>, cs: seq<Config>, x: nat, id: int)
    requires DbInv(scs, cs) && Keyed(rd, scs) && x < |cs| && DbEnabled(scs, cs, On(x, RemoveOp(id)))
    ensures var cs', o := DbStep(scs, cs, On(x, RemoveOp(id))), Refinement.AbsOf(scs[x], cs[x]).cur;
            DbInv(scs, cs') && ContentsOf(rd, scs, cs') == ReadAfter(rd, scs, cs, x, o.(rows := cs[x].t.rows - {id}))
  {
    hide BlobSafety.Inv, Lockstep, DbStep, DbEnabled, ReadOff, Refinement.AbsOf, Refinement.AbsStep, Refinement.Enabled,
         Keyed;
    OnTable(scs, cs, x, RemoveOp(id));
    RemoveSeen(scs[x], cs[x], id);
    KeyedReads(rd, scs);
    ContentsRead(rd, scs, DbStep(scs, cs, On(x, RemoveOp(id))));
  }

  lemma KeyedReads(rd: Reading, scs: seq<Schema>)
    requires Keyed(rd, scs)
    ensures CanRead(rd, scs) && rd.tablesAt < |scs| && rd.kvsAt < |scs| && rd.idx64At < |scs| && rd.usageAt < |scs|
  {
  }

  /** The contents, table by table. */
  lemma ContentsFields(rd: Reading, scs: seq<Schema>, cs: seq<Config>)
    requires DbInv(scs, cs) && Keyed(rd, scs)
    ensures CanRead(rd, scs) && rd.tablesAt < |cs| && rd.kvsAt < |cs| && rd.idx64At < |cs| && rd.usageAt < |cs|
    ensures |scs| == |cs|
    ensures var c := ContentsOf(rd, scs, cs);
            && c == ReadOff(rd, ObsOf(scs, cs))
            && c.tables == TablesIn(rd, cs[rd.tablesAt].t.rows) && c.nextTable == cs[rd.tablesAt].t.nextId
            && c.kvs == KvsIn(rd, Refinement.AbsOf(scs[rd.kvsAt], cs[rd.kvsAt]).cur)
               && c.nextKv == cs[rd.kvsAt].t.nextId
            && c.idx64 == Idx64In(rd, cs[rd.idx64At].t.rows) && c.nextIdx == cs[rd.idx64At].t.nextId
            && c.ram == ReadUsage(rd, cs[rd.usageAt].t.rows)
  {
    hide BlobSafety.Inv, Lockstep, Refinement.AbsOf, TablesIn, KvsIn, Idx64In, ReadUsage, Keyed;
    KeyedReads(rd, scs);
    ContentsRead(rd, scs, cs);
    SeenOf(scs[rd.tablesAt], cs[rd.tablesAt]);
    SeenOf(scs[rd.kvsAt], cs[rd.kvsAt]);
    SeenOf(scs[rd.idx64At], cs[rd.idx64At]);
    SeenOf(scs[rd.usageAt], cs[rd.usageAt]);
  }

  lemma TableTellsApart(rd: Reading, scs: seq<Schema>, rows: Rows, row: Row)
    requires Keyed(rd, scs) && forall id :: id in rows && id != row.id ==> rd.table(rows[id]).name != rd.table(row).name
    ensures Conflict(scs[rd.tablesAt], rows, row, 0).None?
  {
    hide Conflict;
    NoConflict(scs[rd.tablesAt], rows, row);
  }

  lemma EntryTellsApart(rd: Reading, scs: seq<Schema>, rows: Rows, row: Row)
    requires Keyed(rd, scs)
    requires forall id :: id in rows && id != row.id && rd.idx64(rows[id]).tableId == rd.idx64(row).tableId ==>
                          rd.idx64(rows[id]).primary != rd.idx64(row).primary
    ensures Conflict(scs[rd.idx64At], rows, row, 0).None?
  {
    hide Conflict;
    NoConflict(scs[rd.idx64At], rows, row);
  }

  lemma KvTellsApart(rd: Reading, scs: seq<Schema>, rows: Rows, row: Row)
    requires Keyed(rd, scs)
    requires forall id :: id in rows && id != row.id && rd.kv(rows[id]).tableId == rd.kv(row).tableId ==>
                          rd.kv(rows[id]).primary != rd.kv(row).primary
    ensures Conflict(scs[rd.kvsAt], rows, row, 0).None?
  {
    hide Conflict;
    NoConflict(scs[rd.kvsAt], rows, row);
  }

  lemma UsageTellsApart(rd: Reading, scs: seq<Schema>, rows: Rows, row: Row)
    requires Keyed(rd, scs) && forall id :: id in rows && id != row.id ==> rd.account(rows[id]) != rd.account(row)
    ensures Conflict(scs[rd.usageAt], rows, row, 0).None?
  {
    hide Conflict;
    NoConflict(scs[rd.usageAt], rows, row);
  }

  lemma NewTableReads(rd: Reading, scs: seq<Schema>, cs: seq<Config>, obj: Row)
    requires DbInv(scs, cs) && Keyed(rd, scs) && rd.tablesAt < |cs|
    requires DbEnabled(scs, cs, On(rd.tablesAt, EmplaceOp(obj)))
    requires CanRead(rd, scs) && CanWrite(ContentsOf(rd, scs, cs), NewTable(rd.table(WithId(cs[rd.tablesAt].t, obj))))
    ensures var cs', w := DbStep(scs, cs, On(rd.tablesAt, EmplaceOp(obj))),
            NewTable(rd.table(WithId(cs[rd.tablesAt].t, obj)));
            DbInv(scs, cs') && ContentsOf(rd, scs, cs') == Applied(ContentsOf(rd, scs, cs), w)
  {
    hide DbInv, Keyed, DbStep, DbEnabled, ReadOff, ContentsOf, Refinement.AbsOf, Conflict, KvsIn, Idx64In, ReadUsage;
    var t := cs[rd.tablesAt].t;
    var row := WithId(t, obj);
    ContentsFields(rd, scs, cs);
    var c := ContentsOf(rd, scs, cs);
    forall other | other in t.rows ensures rd.table(t.rows[other]).name != rd.table(row).name {
      assert other in c.tables;
    }
    TableTellsApart(rd, scs, t.rows, row);
    CreateReads(rd, scs, cs, rd.tablesAt, obj);
    var o := Refinement.AbsOf(scs[rd.tablesAt], cs[rd.tablesAt]).cur.(rows := t.rows[t.nextId := row],
                                                                      nextId := t.nextId + 1);
    ReadTables(rd, scs, ObsOf(scs, cs), o);
    assert TablesIn(rd, o.rows) == TablesIn(rd, t.rows)[t.nextId := rd.table(row)];
  }

  lemma SetTableReads(rd: Reading, scs: seq<Schema>, cs: seq<Config>, id: int, row: Row)
    requires DbInv(scs, cs) && Keyed(rd, scs) && rd.tablesAt < |cs|
    requires DbEnabled(scs, cs, On(rd.tablesAt, ModifyOp(id, row))) && row.id == id
    requires CanRead(rd, scs) && Unique(ContentsOf(rd, scs, cs))
    requires CanWrite(ContentsOf(rd, scs, cs), SetTable(id, rd.table(row)))
    ensures var cs' := DbStep(scs, cs, On(rd.tablesAt, ModifyOp(id, row)));
            DbInv(scs, cs') && ContentsOf(rd, scs, cs') == Applied(ContentsOf(rd, scs, cs), SetTable(id, rd.table(row)))
  {
    hide DbInv, Keyed, DbStep, DbEnabled, ReadOff, ContentsOf, Refinement.AbsOf, Conflict, KvsIn, Idx64In, ReadUsage;
    var t := cs[rd.tablesAt].t;
    ContentsFields(rd, scs, cs);
    var c := ContentsOf(rd, scs, cs);
    forall other | other in t.rows && other != id ensures rd.table(t.rows[other]).name != rd.table(row).name {
      assert other in c.tables && id in c.tables;
    }
    TableTellsApart(rd, scs, t.rows, row);
    ModifyReads(rd, scs, cs, rd.tablesAt, id, row);
    var o := Refinement.AbsOf(scs[rd.tablesAt], cs[rd.tablesAt]).cur.(rows := t.rows[id := row]);
    ReadTables(rd, scs, ObsOf(scs, cs), o);
    SeenOf(scs[rd.tablesAt], cs[rd.tablesAt]);
    assert TablesIn(rd, o.rows) == TablesIn(rd, t.rows)[id := rd.table(row)];
  }

  lemma NewIdxReads(rd: Reading, scs: seq<Schema>, cs: seq<Config>, obj: Row)
    requires DbInv(scs, cs) && Keyed(rd, scs) && rd.idx64At < |cs| && DbEnabled(scs, cs, On(rd.idx64At, EmplaceOp(obj)))
    requires CanRead(rd, scs) && CanWrite(ContentsOf(rd, scs, cs), NewIdx(rd.idx64(WithId(cs[rd.idx64At].t, obj))))
    ensures var cs', w := DbStep(scs, cs, On(rd.idx64At, EmplaceOp(obj))),
            NewIdx(rd.idx64(WithId(cs[rd.idx64At].t, obj)));
            DbInv(scs, cs') && ContentsOf(rd, scs, cs') == Applied(ContentsOf(rd, scs, cs), w)
  {
    hide DbInv, Keyed, DbStep, DbEnabled, ReadOff, ContentsOf, Refinement.AbsOf, Conflict, KvsIn, TablesIn, ReadUsage;
    var t := cs[rd.idx64At].t;
    var row := WithId(t, obj);
    ContentsFields(rd, scs, cs);
    var c := ContentsOf(rd, scs, cs);
    forall other | other in t.rows && rd.idx64(t.rows[other]).tableId == rd.idx64(row).tableId
      ensures rd.idx64(t.rows[other]).primary != rd.idx64(row).primary
    {
      assert other in c.idx64;
    }
    EntryTellsApart(rd, scs, t.rows, row);
    CreateReads(rd, scs, cs, rd.idx64At, obj);
    var o := Refinement.AbsOf(scs[rd.idx64At], cs[rd.idx64At]).cur.(rows := t.rows[t.nextId := row],
                                                                    nextId := t.nextId + 1);
    ReadIdx64(rd, scs, ObsOf(scs, cs), o);
    assert Idx64In(rd, o.rows) == Idx64In(rd, t.rows)[t.nextId := rd.idx64(row)];
  }

  lemma SetIdxReads(rd: Reading, scs: seq<Schema>, cs: seq<Config>, id: int, row: Row)
    requires DbInv(scs, cs) && Keyed(rd, scs) && rd.idx64At < |cs|
    requires DbEnabled(scs, cs, On(rd.idx64At, ModifyOp(id, row))) && row.id == id
    requires CanRead(rd, scs) && Unique(ContentsOf(rd, scs, cs))
    requires CanWrite(ContentsOf(rd, scs, cs), SetIdx(id, rd.idx64(row)))
    ensures var cs' := DbStep(scs, cs, On(rd.idx64At, ModifyOp(id, row)));
            DbInv(scs, cs') && ContentsOf(rd, scs, cs') == Applied(ContentsOf(rd, scs, cs), SetIdx(id, rd.idx64(row)))
  {
    hide DbInv, Keyed, DbStep, DbEnabled, ReadOff, ContentsOf, Refinement.AbsOf, Conflict, KvsIn, TablesIn, ReadUsage;
    var t := cs[rd.idx64At].t;
    ContentsFields(rd, scs, cs);
    var c := ContentsOf(rd, scs, cs);
    forall other | other in t.rows && other != id && rd.idx64(t.rows[other]).tableId == rd.idx64(row).tableId
      ensures rd.idx64(t.rows[other]).primary != rd.idx64(row).primary
    {
      assert other in c.idx64 && id in c.idx64;
    }
    EntryTellsApart(rd, scs, t.rows, row);
    ModifyReads(rd, scs, cs, rd.idx64At, id, row);
    var o := Refinement.AbsOf(scs[rd.idx64At], cs[rd.idx64At]).cur.(rows := t.rows[id := row]);
    ReadIdx64(rd, scs, ObsOf(scs, cs), o);
    SeenOf(scs[rd.idx64At], cs[rd.idx64At]);
    assert Idx64In(rd, o.rows) == Idx64In(rd, t.rows)[id := rd.idx64(row)];
  }

  lemma DropIdxReads(rd: Reading, scs: seq<Schema>, cs: seq<Config>, id: int)
    requires DbInv(scs, cs) && Keyed(rd, scs) && CanRead(rd, scs) && rd.idx64At < |cs|
    requires DbEnabled(scs, cs, On(rd.idx64At, RemoveOp(id)))
    ensures var cs' := DbStep(scs, cs, On(rd.idx64At, RemoveOp(id)));
            DbInv(scs, cs') && ContentsOf(rd, scs, cs') == Applied(ContentsOf(rd, scs, cs), DropIdx(id))
  {
    hide DbInv, Keyed, DbStep, DbEnabled, ReadOff, ContentsOf, Refinement.AbsOf, KvsIn, TablesIn, ReadUsage;
    var t := cs[rd.idx64At].t;
    ContentsFields(rd, scs, cs);
    RemoveReads(rd, scs, cs, rd.idx64At, id);
    var o := Refinement.AbsOf(scs[rd.idx64At], cs[rd.idx64At]).cur.(rows := t.rows - {id});
    ReadIdx64(rd, scs, ObsOf(scs, cs), o);
    SeenOf(scs[rd.idx64At], cs[rd.idx64At]);
    assert Idx64In(rd, o.rows) == Idx64In(rd, t.rows) - {id};
  }

  // ----- bills --------------------------------------------------------------

  /** Accounts have one usage row each. */
  lemma OneUsageRow(rd: Reading, scs: seq<Schema>, cs: seq<Config>, a: int, b: int)
    requires DbInv(scs, cs) && Keyed(rd, scs) && rd.usageAt < |cs|
    requires var rows := cs[rd.usageAt].t.rows; a in rows && b in rows && rd.account(rows[a]) == rd.account(rows[b])
    ensures a == b
  {
    hide DbInv;
    RowsSound(scs, cs, rd.usageAt);
    var sc, rows := scs[rd.usageAt], cs[rd.usageAt].t.rows;
    assert sc.keys[0](rows[a]) == sc.keys[0](rows[b]);
  }

  lemma UsageAt(rd: Reading, rows: Rows, id: int)
    requires id in rows
    requires forall other :: other in rows && rd.account(rows[other]) == rd.account(rows[id]) ==> other == id
    ensures rd.account(rows[id]) in ReadUsage(rd, rows)
    ensures ReadUsage(rd, rows)[rd.account(rows[id])] == rd.bytes(rows[id])
  {
    var account := rd.account(rows[id]);
    assert account in AccountsIn(rd, rows);
    var other :| other in rows && rd.account(rows[other]) == account
        && BytesOf(rd, rows, account) == rd.bytes(rows[other]);
  }

  /** Putting a usage row in sets its account's bytes and no other account's. */
  lemma UsagePut(rd: Reading, rows: Rows, id: int, row: Row)
    requires forall a, b :: a in rows && b in rows && rd.account(rows[a]) == rd.account(rows[b]) ==> a == b
    requires forall a :: a in rows && a != id ==> rd.account(rows[a]) != rd.account(row)
    requires id in rows ==> rd.account(rows[id]) == rd.account(row)
    ensures ReadUsage(rd, rows[id := row]) == ReadUsage(rd, rows)[rd.account(row) := rd.bytes(row)]
  {
    hide ReadUsage;
    var now := rows[id := row];
    UsageAt(rd, now, id);
    UsageDomain(rd, rows, id, row);
    forall account | account in AccountsIn(rd, rows) && account != rd.account(row)
      ensures account in AccountsIn(rd, now) && ReadUsage(rd, now)[account] == ReadUsage(rd, rows)[account]
    {
      var a :| a in rows && rd.account(rows[a]) == account;
      assert now[a] == rows[a];
      UsageAt(rd, rows, a);
      UsageAt(rd, now, a);
    }
  }

  lemma UsageDomain(rd: Reading, rows: Rows, id: int, row: Row)
    requires id in rows ==> rd.account(rows[id]) == rd.account(row)
    ensures ReadUsage(rd, rows).Keys == AccountsIn(rd, rows)
    ensures ReadUsage(rd, rows[id := row]).Keys == AccountsIn(rd, rows[id := row])
    ensures AccountsIn(rd, rows[id := row]) == AccountsIn(rd, rows) + {rd.account(row)}
  {
    var now := rows[id := row];
    forall account | account in AccountsIn(rd, rows) + {rd.account(row)} ensures account in AccountsIn(rd, now) {
      if account == rd.account(row) {
        assert rd.account(now[id]) == account;
      } else {
        var a :| a in rows && rd.account(rows[a]) == account;
        assert now[a] == rows[a];
      }
    }
  }

  lemma BillModifyReads(rd: Reading, scs: seq<Schema>, cs: seq<Config>, id: int, row: Row, delta: int)
    requires DbInv(scs, cs) && Keyed(rd, scs) && CanRead(rd, scs) && rd.usageAt < |cs|
    requires DbEnabled(scs, cs, On(rd.usageAt, ModifyOp(id, row)))
    requires var rows := cs[rd.usageAt].t.rows;
             id in rows && row.id == id && rd.account(row) == rd.account(rows[id])
                 && rd.bytes(row) == rd.bytes(rows[id]) + delta
    ensures var cs' := DbStep(scs, cs, On(rd.usageAt, ModifyOp(id, row)));
            DbInv(scs, cs') && ContentsOf(rd, scs, cs')
                == Applied(ContentsOf(rd, scs, cs), BillTo(rd.account(row), delta))
  {
    hide DbInv, Keyed, DbStep, DbEnabled, ReadOff, ContentsOf, Refinement.AbsOf, Conflict, KvsIn, TablesIn, Idx64In,
         ReadUsage;
    var t := cs[rd.usageAt].t;
    ContentsFields(rd, scs, cs);
    forall a, b | a in t.rows && b in t.rows && rd.account(t.rows[a]) == rd.account(t.rows[b]) ensures a == b {
      OneUsageRow(rd, scs, cs, a, b);
    }
    UsageTellsApart(rd, scs, t.rows, row);
    ModifyReads(rd, scs, cs, rd.usageAt, id, row);
    var o := Refinement.AbsOf(scs[rd.usageAt], cs[rd.usageAt]).cur.(rows := t.rows[id := row]);
    ReadBills(rd, scs, ObsOf(scs, cs), o);
    UsagePut(rd, t.rows, id, row);
    UsageAt(rd, t.rows, id);
  }

  lemma BillCreateReads(rd: Reading, scs: seq<Schema>, cs: seq<Config>, obj: Row)
    requires DbInv(scs, cs) && Keyed(rd, scs) && CanRead(rd, scs) && rd.usageAt < |cs|
    requires DbEnabled(scs, cs, On(rd.usageAt, EmplaceOp(obj)))
    requires rd.account(WithId(cs[rd.usageAt].t, obj)) !in AccountsIn(rd, cs[rd.usageAt].t.rows)
    ensures var cs', row := DbStep(scs, cs, On(rd.usageAt, EmplaceOp(obj))), WithId(cs[rd.usageAt].t, obj);
            DbInv(scs, cs') && ContentsOf(rd, scs, cs')
                == Applied(ContentsOf(rd, scs, cs), BillTo(rd.account(row), rd.bytes(row)))
  {
    hide DbInv, Keyed, DbStep, DbEnabled, ReadOff, ContentsOf, Refinement.AbsOf, Conflict, KvsIn, TablesIn, Idx64In,
         ReadUsage;
    var t := cs[rd.usageAt].t;
    var row := WithId(t, obj);
    ContentsFields(rd, scs, cs);
    RowsSound(scs, cs, rd.usageAt);
    forall a, b | a in t.rows && b in t.rows && rd.account(t.rows[a]) == rd.account(t.rows[b]) ensures a == b {
      OneUsageRow(rd, scs, cs, a, b);
    }
    forall a | a in t.rows ensures rd.account(t.rows[a]) != rd.account(row) {
      assert rd.account(t.rows[a]) in AccountsIn(rd, t.rows);
    }
    UsageTellsApart(rd, scs, t.rows, row);
    CreateReads(rd, scs, cs, rd.usageAt, obj);
    var o := Refinement.AbsOf(scs[rd.usageAt], cs[rd.usageAt]).cur.(rows := t.rows[t.nextId := row],
                                                                    nextId := t.nextId + 1);
    ReadBills(rd, scs, ObsOf(scs, cs), o);
    UsagePut(rd, t.rows, t.nextId, row);
    UsageDomain(rd, t.rows, t.nextId, row);
  }

  // ----- key-value rows -----------------------------------------------------

  /** No row names the span that the allocator gives out next. */
  lemma FreshName(sc: Schema, c: Config, bytes: seq<Byte>, id: int)
    requires BlobSafety.Inv(sc, c) && Refinement.Enabled(sc, c, AllocOp(bytes)) && bytes != [] && id in c.t.rows
    ensures AllocRef(c.t, bytes).len == |bytes| && AllocRef(c.t, bytes) !in sc.refs(c.t.rows[id])
  {
    hide BlobSafety.Inv, Refinement.AbsOf, Refinement.AbsStep, Alloc, AllocRef, FreeInside;
    Refinement.StepRefines(sc, c, AllocOp(bytes));
    BlobSafety.FreeIsInside(sc, c);
    Refinement.AllocKeepsRest(sc, c.t, bytes, id, c.t.rows[id]);
    NewLength(sc, c, bytes);
    var c', r := Refinement.Step(sc, c, AllocOp(bytes)), AllocRef(c.t, bytes);
    assert r in Refinement.Single(r);
    OwnedOnce(sc, c', id, r);
  }

  lemma OwnedOnce(sc: Schema, c: Config, id: int, r: BlobRef)
    requires BlobSafety.Inv(sc, c) && id in c.t.rows && r in c.held
    ensures r !in sc.refs(c.t.rows[id])
  {
    hide RowsOK, BlobSafety.PatchesOK, BlobSafety.RefsOf, BlobSafety.Settled;
    BlobSafety.RefsOfContains(sc, c.t.rows, id);
    var spans := BlobSafety.Spans(sc, BlobSafety.CoreOf(c.t), c.held, c.t.undo);
    assert r in spans && spans[r] >= sc.refs(c.t.rows[id])[r] + c.held[r];
  }

  /** Allocating a value changes no row that is read. */
  lemma AllocReads(rd: Reading, scs: seq<Schema>, cs: seq<Config>, bytes: seq<Byte>)
    requires DbInv(scs, cs) && Keyed(rd, scs) && CanRead(rd, scs) && rd.kvsAt < |cs|
    requires DbEnabled(scs, cs, On(rd.kvsAt, AllocOp(bytes)))
    ensures var cs1 := DbStep(scs, cs, On(rd.kvsAt, AllocOp(bytes)));
            && DbInv(scs, cs1) && |cs1| == |cs| && cs1[rd.kvsAt].t.rows == cs[rd.kvsAt].t.rows
               && cs1[rd.kvsAt].t.nextId == cs[rd.kvsAt].t.nextId
            && Refinement.AbsOf(scs[rd.kvsAt], cs1[rd.kvsAt]).cur
               == Refinement.With(Refinement.AbsOf(scs[rd.kvsAt], cs[rd.kvsAt]).cur, AllocRef(cs[rd.kvsAt].t, bytes),
                                  bytes)
            && (bytes != [] ==> AllocRef(cs[rd.kvsAt].t, bytes).len == |bytes|)
            && ContentsOf(rd, scs, cs1) == ContentsOf(rd, scs, cs)
  {
    hide BlobSafety.Inv, Lockstep, DbStep, DbEnabled, ReadOff, Refinement.AbsOf, Refinement.Enabled, Keyed, ContentsOf,
         TablesIn, Idx64In, ReadUsage;
    var x, cs1 := rd.kvsAt, DbStep(scs, cs, On(rd.kvsAt, AllocOp(bytes)));
    OnTable(scs, cs, x, AllocOp(bytes));
    var o, o1, r := Refinement.AbsOf(scs[x], cs[x]).cur, Refinement.AbsOf(scs[x], cs1[x]).cur, AllocRef(cs[x].t, bytes);
    assert o1 == ObsOf(scs, cs1)[x] == Refinement.With(o, r, bytes);
    SeenOf(scs[x], cs[x]);
    SeenOf(scs[x], cs1[x]);
    forall id | id in o.rows ensures ReadKv(rd, o1, o.rows[id]) == ReadKv(rd, o, o.rows[id]) {
      if bytes != [] {
        FreshName(scs[x], cs[x], bytes, id);
      }
    }
    assert KvsIn(rd, o1) == KvsIn(rd, o);
    ContentsFields(rd, scs, cs);
    ContentsFields(rd, scs, cs1);
    ReadKvs(rd, scs, ObsOf(scs, cs), o1);
    NewLength(scs[x], cs[x], bytes);
  }

  lemma NewLength(sc: Schema, c: Config, bytes: seq<Byte>)
    requires Refinement.Enabled(sc, c, AllocOp(bytes))
    ensures bytes != [] ==> AllocRef(c.t, bytes).len == |bytes|
  {
  }

  /** One row more or one row less, and the same blobs. */
  lemma KvsPut(rd: Reading, o: Obs, id: int, row: Row, nextId: nat)
    ensures KvsIn(rd, o.(rows := o.rows[id := row], nextId := nextId)) == KvsIn(rd, o)[id := ReadKv(rd, o, row)]
  {
    var now := o.(rows := o.rows[id := row], nextId := nextId);
    forall other | other in now.rows
      ensures ReadKv(rd, now, now.rows[other]) == KvsIn(rd, o)[id := ReadKv(rd, o, row)][other]
    {
      if other != id {
        assert other in o.rows;
      }
    }
  }

  lemma KvsTake(rd: Reading, o: Obs, id: int)
    ensures KvsIn(rd, o.(rows := o.rows - {id})) == KvsIn(rd, o) - {id}
  {
    var now := o.(rows := o.rows - {id});
    forall other | other in now.rows ensures ReadKv(rd, now, now.rows[other]) == KvsIn(rd, o)[other] {
      assert other in o.rows;
    }
  }

  /** A row that holds a fresh value reads as that value. */
  lemma HeldReads(rd: Reading, o: Obs, row: Row, kv: KeyValue, r: BlobRef)
    requires HoldsKv(rd, row, kv, r) && (kv.value != [] ==> r.len == |kv.value|)
    ensures ReadKv(rd, Refinement.With(o, r, kv.value), row) == kv
  {
  }

  lemma NewKvReads(rd: Reading, scs: seq<Schema>, cs: seq<Config>, obj: Row, kv: KeyValue)
    requires DbInv(scs, cs) && Keyed(rd, scs) && CanRead(rd, scs) && rd.kvsAt < |cs|
    requires DbLegal(scs, cs, [On(rd.kvsAt, AllocOp(kv.value)), On(rd.kvsAt, EmplaceOp(obj))])
    requires HoldsKv(rd, WithId(cs[rd.kvsAt].t, obj), kv, AllocRef(cs[rd.kvsAt].t, kv.value))
    requires CanWrite(ContentsOf(rd, scs, cs), NewKv(kv))
    ensures var cs' := DbRun(scs, cs, [On(rd.kvsAt, AllocOp(kv.value)), On(rd.kvsAt, EmplaceOp(obj))]);
            DbInv(scs, cs') && ContentsOf(rd, scs, cs') == Applied(ContentsOf(rd, scs, cs), NewKv(kv))
  {
    hide DbInv, Keyed, DbStep, DbEnabled, ReadOff, ContentsOf, Refinement.AbsOf, Conflict, TablesIn, Idx64In, ReadUsage,
         CanRead, HoldsKv, DbRun, DbLegal;
    var x, a, b := rd.kvsAt, On(rd.kvsAt, AllocOp(kv.value)), On(rd.kvsAt, EmplaceOp(obj));
    ContentsFields(rd, scs, cs);
    TwoDbSteps(scs, cs, a, b);
    AllocReads(rd, scs, cs, kv.value);
    var cs1, t := DbStep(scs, cs, a), cs[x].t;
    var row, o, r := WithId(t, obj), Refinement.AbsOf(scs[x], cs[x]).cur, AllocRef(t, kv.value);
    assert WithId(cs1[x].t, obj) == row;
    ContentsFields(rd, scs, cs1);
    SeenOf(scs[x], cs[x]);
    KvNames(rd, row, kv, r);
    var c := ContentsOf(rd, scs, cs);
    forall other | other in t.rows && rd.kv(t.rows[other]).tableId == rd.kv(row).tableId
      ensures rd.kv(t.rows[other]).primary != rd.kv(row).primary
    {
      assert other in c.kvs;
    }
    KvTellsApart(rd, scs, t.rows, row);
    CreateReads(rd, scs, cs1, x, obj);
    var o1 := Refinement.With(o, r, kv.value);
    var o2 := o1.(rows := t.rows[t.nextId := row], nextId := t.nextId + 1);
    ReadKvs(rd, scs, ObsOf(scs, cs1), o2);
    HeldReads(rd, o, row, kv, r);
    KvsPut(rd, o1, t.nextId, row, t.nextId + 1);
  }

  lemma SetKvReads(rd: Reading, scs: seq<Schema>, cs: seq<Config>, id: int, row: Row, kv: KeyValue)
    requires DbInv(scs, cs) && Keyed(rd, scs) && CanRead(rd, scs) && rd.kvsAt < |cs|
    requires DbLegal(scs, cs, [On(rd.kvsAt, AllocOp(kv.value)), On(rd.kvsAt, ModifyOp(id, row))])
    requires row.id == id && HoldsKv(rd, row, kv, AllocRef(cs[rd.kvsAt].t, kv.value))
    requires Unique(ContentsOf(rd, scs, cs)) && CanWrite(ContentsOf(rd, scs, cs), SetKv(id, kv))
    ensures var cs' := DbRun(scs, cs, [On(rd.kvsAt, AllocOp(kv.value)), On(rd.kvsAt, ModifyOp(id, row))]);
            DbInv(scs, cs') && ContentsOf(rd, scs, cs') == Applied(ContentsOf(rd, scs, cs), SetKv(id, kv))
  {
    hide DbInv, Keyed, DbStep, DbEnabled, ReadOff, ContentsOf, Refinement.AbsOf, Conflict, TablesIn, Idx64In, ReadUsage,
         CanRead, HoldsKv, DbRun, DbLegal;
    var x, a, b := rd.kvsAt, On(rd.kvsAt, AllocOp(kv.value)), On(rd.kvsAt, ModifyOp(id, row));
    ContentsFields(rd, scs, cs);
    TwoDbSteps(scs, cs, a, b);
    AllocReads(rd, scs, cs, kv.value);
    var cs1, t := DbStep(scs, cs, a), cs[x].t;
    var o, r := Refinement.AbsOf(scs[x], cs[x]).cur, AllocRef(t, kv.value);
    ContentsFields(rd, scs, cs1);
    SeenOf(scs[x], cs[x]);
    KvNames(rd, row, kv, r);
    var c := ContentsOf(rd, scs, cs);
    forall other | other in t.rows && other != id && rd.kv(t.rows[other]).tableId == rd.kv(row).tableId
      ensures rd.kv(t.rows[other]).primary != rd.kv(row).primary
    {
      assert other in c.kvs && id in c.kvs;
    }
    KvTellsApart(rd, scs, t.rows, row);
    ModifyReads(rd, scs, cs1, x, id, row);
    var o1 := Refinement.With(o, r, kv.value);
    var o2 := o1.(rows := t.rows[id := row]);
    ReadKvs(rd, scs, ObsOf(scs, cs1), o2);
    HeldReads(rd, o, row, kv, r);
    KvsPut(rd, o1, id, row, o1.nextId);
  }

  lemma DropKvReads(rd: Reading, scs: seq<Schema>, cs: seq<Config>, id: int)
    requires DbInv(scs, cs) && Keyed(rd, scs) && CanRead(rd, scs) && rd.kvsAt < |cs|
    requires DbEnabled(scs, cs, On(rd.kvsAt, RemoveOp(id)))
    ensures var cs' := DbStep(scs, cs, On(rd.kvsAt, RemoveOp(id)));
            DbInv(scs, cs') && ContentsOf(rd, scs, cs') == Applied(ContentsOf(rd, scs, cs), DropKv(id))
  {
    hide DbInv, Keyed, DbStep, DbEnabled, ReadOff, ContentsOf, Refinement.AbsOf, Idx64In, TablesIn, ReadUsage;
    var t, seen := cs[rd.kvsAt].t, Refinement.AbsOf(scs[rd.kvsAt], cs[rd.kvsAt]).cur;
    ContentsFields(rd, scs, cs);
    RemoveReads(rd, scs, cs, rd.kvsAt, id);
    ReadKvs(rd, scs, ObsOf(scs, cs), seen.(rows := t.rows - {id}));
    SeenOf(scs[rd.kvsAt], cs[rd.kvsAt]);
    KvsTake(rd, seen, id);
  }

  lemma KvNames(rd: Reading, row: Row, kv: KeyValue, r: BlobRef)
    requires HoldsKv(rd, row, kv, r)
    ensures rd.kv(row).tableId == kv.tableId && rd.kv(row).primary == kv.primary
  {
  }

  lemma TwoDbSteps(scs: seq<Schema>, cs: seq<Config>, a: DbOp, b: DbOp)
    requires DbInv(scs, cs) && DbLegal(scs, cs, [a, b])
    ensures DbEnabled(scs, cs, a) && DbInv(scs, DbStep(scs, cs, a)) && DbEnabled(scs, DbStep(scs, cs, a), b)
    ensures DbRun(scs, cs, [a, b]) == DbStep(scs, DbStep(scs, cs, a), b)
  {
    hide DbInv, DbEnabled, DbStep;
    StepInv(scs, cs, a);
    assert [a, b][1..] == [b] && [b][1..] == [];
    StepInv(scs, DbStep(scs, cs, a), b);
    assert DbRun(scs, DbStep(scs, cs, a), [b]) == DbStep(scs, DbStep(scs, cs, a), b);
  }

  // ----- one write ----------------------------------------------------------

  lemma OneDbStep(scs: seq<Schema>, cs: seq<Config>, a: DbOp)
    requires DbInv(scs, cs) && DbLegal(scs, cs, [a])
    ensures DbEnabled(scs, cs, a) && DbInv(scs, DbStep(scs, cs, a)) && DbRun(scs, cs, [a]) == DbStep(scs, cs, a)
  {
    hide DbInv, DbEnabled, DbStep;
    StepInv(scs, cs, a);
    assert [a][1..] == [];
  }

  lemma BillReads(rd: Reading, scs: seq<Schema>, cs: seq<Config>, w: Write, dops: seq<DbOp>)
    requires DbInv(scs, cs) && Keyed(rd, scs) && DbLegal(scs, cs, dops)
    requires w.BillTo? && rd.tablesAt < |cs| && rd.kvsAt < |cs| && rd.idx64At < |cs| && rd.usageAt < |cs|
    requires Performs(rd, cs, w, dops)
    ensures DbInv(scs, DbRun(scs, cs, dops))
    ensures ContentsOf(rd, scs, DbRun(scs, cs, dops)) == Applied(ContentsOf(rd, scs, cs), w)
  {
    hide DbInv, DbLegal, DbRun, DbStep, DbEnabled, ContentsOf, AccountsIn, CanRead;
    var usage := cs[rd.usageAt].t;
    assert dops == [dops[0]];
    OneDbStep(scs, cs, dops[0]);
    if w.account in AccountsIn(rd, usage.rows) {
      var id, row :| Raises(rd, usage, w.account, w.delta, id, row) && dops[0] == On(rd.usageAt, ModifyOp(id, row));
      BillModifyReads(rd, scs, cs, id, row, w.delta);
    } else {
      var obj :| dops[0] == On(rd.usageAt, EmplaceOp(obj)) && rd.account(WithId(usage, obj)) == w.account
          && rd.bytes(WithId(usage, obj)) == w.delta;
      BillCreateReads(rd, scs, cs, obj);
    }
  }

  lemma RowReads(rd: Reading, scs: seq<Schema>, cs: seq<Config>, w: Write, dops: seq<DbOp>)
    requires DbInv(scs, cs) && Keyed(rd, scs) && DbLegal(scs, cs, dops) && Length(w) == 1 && !w.BillTo?
    requires rd.tablesAt < |cs| && rd.kvsAt < |cs| && rd.idx64At < |cs| && rd.usageAt < |cs|
    requires Performs(rd, cs, w, dops)
    requires Unique(ContentsOf(rd, scs, cs)) && CanWrite(ContentsOf(rd, scs, cs), w)
    ensures DbInv(scs, DbRun(scs, cs, dops))
    ensures ContentsOf(rd, scs, DbRun(scs, cs, dops)) == Applied(ContentsOf(rd, scs, cs), w)
  {
    hide DbInv, DbLegal, DbRun, DbStep, DbEnabled, ContentsOf, AccountsIn, CanRead, Unique, CanWrite, Applied;
    assert dops == [dops[0]];
    OneDbStep(scs, cs, dops[0]);
    match w
    case NewTable(t) =>
      var obj :| dops[0] == On(rd.tablesAt, EmplaceOp(obj)) && rd.table(WithId(cs[rd.tablesAt].t, obj)) == t;
      NewTableReads(rd, scs, cs, obj);
    case SetTable(id, t) =>
      var row :| dops[0] == On(rd.tablesAt, ModifyOp(id, row)) && row.id == id && rd.table(row) == t;
      SetTableReads(rd, scs, cs, id, row);
    case DropKv(id) => DropKvReads(rd, scs, cs, id);
    case NewIdx(e) =>
      var obj :| dops[0] == On(rd.idx64At, EmplaceOp(obj)) && rd.idx64(WithId(cs[rd.idx64At].t, obj)) == e;
      NewIdxReads(rd, scs, cs, obj);
    case SetIdx(id, e) =>
      var row :| dops[0] == On(rd.idx64At, ModifyOp(id, row)) && row.id == id && rd.idx64(row) == e;
      SetIdxReads(rd, scs, cs, id, row);
    case DropIdx(id) => DropIdxReads(rd, scs, cs, id);
  }

  lemma ValueReads(rd: Reading, scs: seq<Schema>, cs: seq<Config>, w: Write, dops: seq<DbOp>)
    requires DbInv(scs, cs) && Keyed(rd, scs) && DbLegal(scs, cs, dops) && Length(w) == 2
    requires rd.tablesAt < |cs| && rd.kvsAt < |cs| && rd.idx64At < |cs| && rd.usageAt < |cs|
    requires Performs(rd, cs, w, dops)
    requires Unique(ContentsOf(rd, scs, cs)) && CanWrite(ContentsOf(rd, scs, cs), w)
    ensures DbInv(scs, DbRun(scs, cs, dops))
    ensures ContentsOf(rd, scs, DbRun(scs, cs, dops)) == Applied(ContentsOf(rd, scs, cs), w)
  {
    hide DbInv, DbLegal, DbRun, DbStep, DbEnabled, ContentsOf, CanRead, Unique, CanWrite, Applied, HoldsKv;
    var t := cs[rd.kvsAt].t;
    assert dops == [dops[0], dops[1]];
    match w
    case NewKv(kv) =>
      var obj :| dops[1] == On(rd.kvsAt, EmplaceOp(obj)) && HoldsKv(rd, WithId(t, obj), kv, AllocRef(t, kv.value));
      NewKvReads(rd, scs, cs, obj, kv);
    case SetKv(id, kv) =>
      var row :| dops[1] == On(rd.kvsAt, ModifyOp(id, row)) && row.id == id
          && HoldsKv(rd, row, kv, AllocRef(t, kv.value));
      SetKvReads(rd, scs, cs, id, row, kv);
  }

  /** The row operations of a write do to the contents what the write does. */
  lemma PerformReads(rd: Reading, scs: seq<Schema>, cs: seq<Config>, w: Write, dops: seq<DbOp>)
    requires DbInv(scs, cs) && Keyed(rd, scs) && DbLegal(scs, cs, dops)
    requires rd.tablesAt < |cs| && rd.kvsAt < |cs| && rd.idx64At < |cs| && rd.usageAt < |cs|
    requires Performs(rd, cs, w, dops)
    requires Unique(ContentsOf(rd, scs, cs)) && CanWrite(ContentsOf(rd, scs, cs), w)
    ensures DbInv(scs, DbRun(scs, cs, dops))
    ensures ContentsOf(rd, scs, DbRun(scs, cs, dops)) == Applied(ContentsOf(rd, scs, cs), w)
  {
    hide DbInv, DbLegal, DbRun, ContentsOf, Performs, Keyed, Unique, CanWrite, Applied;
    if w.BillTo? {
      BillReads(rd, scs, cs, w, dops);
    } else if Length(w) == 1 {
      RowReads(rd, scs, cs, w, dops);
    } else {
      ValueReads(rd, scs, cs, w, dops);
    }
  }
}
