/**
  Whole runs of the contract database over the arena: stores, updates and
  removals between session starts, undos, squashes and commits. Billing and
  rows agree after every operation and in everything a session can bring back.
 */
module ContractRuns {
  import opened ArenaTypes
  import TableSpec
  import BlobSafety
  import opened TableOps
  import Refinement
  import opened DbLifecycle
  import opened ContractRam
  import opened ContractSessions
  import opened ContractWrites

  // ----- operations ---------------------------------------------------------

  /** What the interface does, a table made on first use being an operation of its own, and the sessions around it. */
  datatype ContractOp =
    | MakeTable(name: Triple, payer: nat)
    | Store(kv: KeyValue)
    | Update(id: int, payer: nat, value: seq<Byte>)
    | Remove(id: int)
    | IdxStore(idx64: Index64)
    | IdxUpdate(id: int, secondary: nat)
    | IdxRemove(id: int)
    | Session(dop: DbOp)

  /** Session operations act on every table of the database. */
  predicate ForEvery(dop: DbOp)
  {
    match dop
    case On(_, _) => false
    case UndoEvery(_) => true
    case Every(op) => op.StartOp? || op.SquashOp? || op.CommitOp?
  }

  /** What the interface refuses to do: a second table of a name, a second row under a key, a row that is not there. */
  ghost predicate CanDo(c: Contents, op: ContractOp)
  {
    match op
    case MakeTable(name, _) => forall id :: id in c.tables ==> c.tables[id].name != name
    case Store(row) => row.tableId in c.tables && Vacant(c, row.tableId, row.primary)
    case Update(id, _, _) => id in c.kvs
    case Remove(id) => id in c.kvs
    case IdxStore(row) => row.tableId in c.tables && VacantIdx(c, row.tableId, row.primary)
    case IdxUpdate(id, _) => id in c.idx64
    case IdxRemove(id) => id in c.idx64
    case Session(dop) => ForEvery(dop)
  }

  /** What an operation makes of the contents. */
  ghost function Done(c: Contents, op: ContractOp): Contents
    requires Sound(c) && CanDo(c, op)
  {
    match op
    case MakeTable(name, payer) => WithTable(c, name, payer)
    case Store(row) => Stored(c, row)
    case Update(id, payer, value) => Updated(c, id, payer, value)
    case Remove(id) => Removed(c, id)
    case IdxStore(row) => IdxStored(c, row)
    case IdxUpdate(id, secondary) => IdxUpdated(c, id, secondary)
    case IdxRemove(id) => IdxRemoved(c, id)
    case Session(_) => c
  }

  lemma DoneGood(c: Contents, op: ContractOp)
    requires Good(c) && CanDo(c, op)
    ensures Good(Done(c, op))
  {
    hide Sound, Conserved, Vacant, VacantIdx, WithTable, Stored, Updated, Removed, IdxStored, IdxUpdated, IdxRemoved;
    match op
    case MakeTable(name, payer) => WithTableKeeps(c, name, payer);
    case Store(row) => StoredKeeps(c, row);
    case Update(id, payer, value) => UpdatedKeeps(c, id, payer, value);
    case Remove(id) => RemovedKeeps(c, id);
    case IdxStore(row) => IdxStoredKeeps(c, row);
    case IdxUpdate(id, secondary) => IdxUpdatedKeeps(c, id, secondary);
    case IdxRemove(id) => IdxRemovedKeeps(c, id);
    case Session(_) =>
  }

  // ----- the writes of an operation -----------------------------------------

  function Bytes(row: KeyValue): nat
  {
    |row.value| + KV_OVERHEAD
  }

  function Rebills(was: KeyValue, now: KeyValue): seq<Write>
  {
    if was.payer == now.payer then [BillTo(now.payer, Bytes(now) - Bytes(was))]
    else [BillTo(was.payer, 0 - Bytes(was)), BillTo(now.payer, Bytes(now))]
  }

  /** The writes of an operation in the order it makes them. */
  ghost function WritesOf(c: Contents, op: ContractOp): seq<Write>
    requires Sound(c) && CanDo(c, op)
  {
    match op
    case MakeTable(name, payer) => [NewTable(TableId(name, payer, 0)), BillTo(payer, TABLE_OVERHEAD)]
    case Store(row) =>
      var t := c.tables[row.tableId];
      [NewKv(row), SetTable(row.tableId, t.(count := t.count + 1)), BillTo(row.payer, Bytes(row))]
    case Update(id, payer, value) =>
      var now := c.kvs[id].(payer := payer, value := value);
      Rebills(c.kvs[id], now) + [SetKv(id, now)]
    case Remove(id) =>
      var row := c.kvs[id];
      var t := c.tables[row.tableId];
      RowsWithout(c.kvs, id, row.tableId);
      [BillTo(row.payer, 0 - Bytes(row)), DropKv(id), SetTable(row.tableId, t.(count := t.count - 1))]
    case IdxStore(row) => [NewIdx(row), BillTo(row.payer, IDX64_OVERHEAD)]
    case IdxUpdate(id, secondary) => [SetIdx(id, c.idx64[id].(secondary := secondary))]
    case IdxRemove(id) => [BillTo(c.idx64[id].payer, 0 - IDX64_OVERHEAD), DropIdx(id)]
    case Session(_) => []
  }

  lemma OneWrite(c: Contents, w: Write)
    ensures AppliedAll(c, [w]) == Applied(c, w) && (CanWrite(c, w) ==> CanWriteAll(c, [w]))
  {
    assert [w][1..] == [];
  }

  lemma TwoWrites(c: Contents, v: Write, w: Write)
    ensures AppliedAll(c, [v, w]) == Applied(Applied(c, v), w)
    ensures CanWrite(c, v) && CanWrite(Applied(c, v), w) ==> CanWriteAll(c, [v, w])
  {
    hide Applied, CanWrite;
    assert [v, w][1..] == [w];
    OneWrite(Applied(c, v), w);
  }

  lemma ThreeWrites(c: Contents, u: Write, v: Write, w: Write)
    ensures AppliedAll(c, [u, v, w]) == Applied(Applied(Applied(c, u), v), w)
    ensures CanWrite(c, u) && CanWrite(Applied(c, u), v) && CanWrite(Applied(Applied(c, u), v), w) ==>
            CanWriteAll(c, [u, v, w])
  {
    hide Applied, CanWrite;
    assert [u, v, w][1..] == [v, w];
    TwoWrites(Applied(c, u), v, w);
  }

  lemma UpdateDoes(c: Contents, id: int, payer: nat, value: seq<Byte>)
    requires Sound(c) && id in c.kvs
    ensures var ws := WritesOf(c, Update(id, payer, value));
            CanWriteAll(c, ws) && AppliedAll(c, ws) == Updated(c, id, payer, value)
  {
    hide Sound;
    var was := c.kvs[id];
    var now := was.(payer := payer, value := value);
    if was.payer == payer {
      assert Rebills(was, now) + [SetKv(id, now)] == [BillTo(payer, Bytes(now) - Bytes(was)), SetKv(id, now)];
      TwoWrites(c, BillTo(payer, Bytes(now) - Bytes(was)), SetKv(id, now));
    } else {
      assert Rebills(was, now) + [SetKv(id, now)]
          == [BillTo(was.payer, 0 - Bytes(was)), BillTo(payer, Bytes(now)), SetKv(id, now)];
      ThreeWrites(c, BillTo(was.payer, 0 - Bytes(was)), BillTo(payer, Bytes(now)), SetKv(id, now));
    }
  }

  lemma CountedRow(c: Contents, id: int)
    requires Sound(c) && id in c.kvs
    ensures c.kvs[id].tableId in c.tables && c.tables[c.kvs[id].tableId].count > 0
  {
    hide RowsIn;
    RowsWithout(c.kvs, id, c.kvs[id].tableId);
  }

  lemma RemoveDoes(c: Contents, id: int)
    requires Sound(c) && id in c.kvs
    ensures var ws := WritesOf(c, Remove(id)); CanWriteAll(c, ws) && AppliedAll(c, ws) == Removed(c, id)
  {
    hide Sound, RowsIn;
    CountedRow(c, id);
    var row := c.kvs[id];
    var t := c.tables[row.tableId];
    ThreeWrites(c, BillTo(row.payer, 0 - Bytes(row)), DropKv(id), SetTable(row.tableId, t.(count := t.count - 1)));
  }

  lemma StoreDoes(c: Contents, row: KeyValue)
    requires Sound(c) && CanDo(c, Store(row))
    ensures var ws := WritesOf(c, Store(row)); CanWriteAll(c, ws) && AppliedAll(c, ws) == Stored(c, row)
  {
    hide Sound;
    var t := c.tables[row.tableId];
    ThreeWrites(c, NewKv(row), SetTable(row.tableId, t.(count := t.count + 1)), BillTo(row.payer, Bytes(row)));
  }

  /** The writes of an operation are allowed one after another and add up to what the operation does. */
  lemma WritesDo(c: Contents, op: ContractOp)
    requires Sound(c) && CanDo(c, op)
    ensures CanWriteAll(c, WritesOf(c, op)) && AppliedAll(c, WritesOf(c, op)) == Done(c, op)
  {
    hide Sound;
    match op
    case MakeTable(name, payer) => TwoWrites(c, NewTable(TableId(name, payer, 0)), BillTo(payer, TABLE_OVERHEAD));
    case Store(row) => StoreDoes(c, row);
    case Update(id, payer, value) => UpdateDoes(c, id, payer, value);
    case Remove(id) => RemoveDoes(c, id);
    case IdxStore(row) => TwoWrites(c, NewIdx(row), BillTo(row.payer, IDX64_OVERHEAD));
    case IdxUpdate(id, secondary) => OneWrite(c, SetIdx(id, c.idx64[id].(secondary := secondary)));
    case IdxRemove(id) => TwoWrites(c, BillTo(c.idx64[id].payer, 0 - IDX64_OVERHEAD), DropIdx(id));
    case Session(_) =>
  }

  // ----- the row operations of an operation ---------------------------------

  ghost predicate InDb(rd: Reading, cs: seq<Config>)
  {
    rd.tablesAt < |cs| && rd.kvsAt < |cs| && rd.idx64At < |cs| && rd.usageAt < |cs|
  }

  /** `dops` are the row operations that make the writes, one write after another. */
  ghost predicate PerformsAll(rd: Reading, scs: seq<Schema>, cs: seq<Config>, ws: seq<Write>, dops: seq<DbOp>)
    requires DbInv(scs, cs) && InDb(rd, cs)
    decreases |ws|
  {
    if ws == [] then dops == []
    else
      var n := Length(ws[0]);
      && n <= |dops| && Performs(rd, cs, ws[0], dops[..n]) && DbLegal(scs, cs, dops[..n])
      && (DbRunKeeps(scs, cs, dops[..n]); PerformsAll(rd, scs, DbRun(scs, cs, dops[..n]), ws[1..], dops[n..]))
  }

  /** Row operations leave the sessions' copies alone. */
  lemma {:induction false} RowsOnly(rd: Reading, scs: seq<Schema>, cs: seq<Config>, dops: seq<DbOp>)
    requires DbInv(scs, cs) && CanRead(rd, scs) && DbLegal(scs, cs, dops) && forall i :: 0 <= i < |dops| ==> dops[i].On?
    ensures DbInv(scs, DbRun(scs, cs, dops))
    ensures var s := SessionsOf(rd, scs, DbRun(scs, cs, dops)); s == SessionsOf(rd, scs, cs).(db := s.db)
    decreases |dops|
  {
    hide DbInv, CanRead, DbEnabled, DbStep, SessionsOf;
    if dops != [] {
      StepInv(scs, cs, dops[0]);
      DbStepFollows(rd, scs, cs, dops[0]);
      RowsOnly(rd, scs, DbStep(scs, cs, dops[0]), dops[1..]);
    }
  }

  lemma PerformsRows(rd: Reading, cs: seq<Config>, w: Write, dops: seq<DbOp>)
    requires InDb(rd, cs) && Performs(rd, cs, w, dops)
    ensures |dops| == Length(w) && forall i :: 0 <= i < |dops| ==> dops[i].On?
  {
    hide HoldsKv, AccountsIn;
  }

  /** The row operations of a sequence of writes do to the contents what the writes do, and touch no session's copy. */
  lemma {:induction false} PerformAllReads(rd: Reading, scs: seq<Schema>, cs: seq<Config>, ws: seq<Write>,
                                           dops: seq<DbOp>)
    requires DbInv(scs, cs) && Keyed(rd, scs) && InDb(rd, cs) && CanRead(rd, scs) && PerformsAll(rd, scs, cs, ws, dops)
    requires Unique(ContentsOf(rd, scs, cs)) && CanWriteAll(ContentsOf(rd, scs, cs), ws)
    ensures DbLegal(scs, cs, dops) && DbInv(scs, DbRun(scs, cs, dops))
    ensures SessionsOf(rd, scs, DbRun(scs, cs, dops))
            == SessionsOf(rd, scs, cs).(db := AppliedAll(ContentsOf(rd, scs, cs), ws))
    decreases |ws|
  {
    hide DbInv, Keyed, CanRead, Performs, SessionsOf, Unique, CanWrite, Applied;
    if ws != [] {
      var n := Length(ws[0]);
      var first, rest := dops[..n], dops[n..];
      var cs1, c := DbRun(scs, cs, first), ContentsOf(rd, scs, cs);
      PerformReads(rd, scs, cs, ws[0], first);
      PerformsRows(rd, cs, ws[0], first);
      RowsOnly(rd, scs, cs, first);
      WriteKeepsUnique(c, ws[0]);
      PerformAllReads(rd, scs, cs1, ws[1..], rest);
      assert dops == first + rest;
      DbLegalJoin(scs, cs, first, rest);
    }
  }

  lemma {:induction false} DbLegalJoin(scs: seq<Schema>, cs: seq<Config>, a: seq<DbOp>, b: seq<DbOp>)
    requires DbInv(scs, cs) && DbLegal(scs, cs, a) && DbInv(scs, DbRun(scs, cs, a))
    requires DbLegal(scs, DbRun(scs, cs, a), b)
    ensures DbLegal(scs, cs, a + b) && DbRun(scs, cs, a + b) == DbRun(scs, DbRun(scs, cs, a), b)
    decreases |a|
  {
    hide DbInv, DbEnabled, DbStep;
    if a == [] {
      assert a + b == b;
    } else {
      assert (a + b)[1..] == a[1..] + b && (a + b)[0] == a[0];
      StepInv(scs, cs, a[0]);
      DbLegalJoin(scs, DbStep(scs, cs, a[0]), a[1..], b);
    }
  }

  // ----- runs ---------------------------------------------------------------

  /** `dops` are what the arena database does for an operation. */
  ghost predicate Makes(rd: Reading, scs: seq<Schema>, cs: seq<Config>, op: ContractOp, dops: seq<DbOp>)
    requires DbInv(scs, cs) && Keyed(rd, scs) && InDb(rd, cs) && CanRead(rd, scs) && Sound(ContentsOf(rd, scs, cs))
  {
    && CanDo(ContentsOf(rd, scs, cs), op)
    && if op.Session? then dops == [op.dop] && DbEnabled(scs, cs, op.dop)
       else PerformsAll(rd, scs, cs, WritesOf(ContentsOf(rd, scs, cs), op), dops)
  }

  /** What an operation makes of the contents and of the sessions' copies. */
  ghost function After(s: Sessions, op: ContractOp): Sessions
    requires Sound(s.db) && CanDo(s.db, op)
  {
    if !op.Session? then s.(db := Done(s.db, op))
    else match op.dop
      case UndoEvery(_) => Undone(s)
      case Every(StartOp) => Started(s)
      case Every(SquashOp) => Squashed(s)
      case Every(CommitOp(upTo)) => Committed(s, upTo)
  }

  lemma AfterGood(s: Sessions, op: ContractOp)
    requires Good(s.db) && AllGood(s.saved) && CanDo(s.db, op)
    ensures Good(After(s, op).db) && AllGood(After(s, op).saved)
  {
    hide Good, Done;
    GoodSound(s.db);
    if !op.Session? {
      DoneGood(s.db, op);
    } else if op.dop.Every? && op.dop.op.CommitOp? {
      InnermostGood(s.saved, TableSpec.KeptBy(Depth(s.saved), s.revision, op.dop.op.revision));
    }
  }

  lemma GoodSound(c: Contents)
    requires Good(c)
    ensures Sound(c) && Unique(c)
  {
    hide Conserved, RowsIn;
  }

  /**
    The arena's operations for one operation of the contract database do to contents
    and copies exactly that operation.
   */
  lemma MakesAfter(rd: Reading, scs: seq<Schema>, cs: seq<Config>, op: ContractOp, dops: seq<DbOp>)
    requires DbInv(scs, cs) && Keyed(rd, scs) && InDb(rd, cs) && CanRead(rd, scs) && Good(ContentsOf(rd, scs, cs))
    requires Makes(rd, scs, cs, op, dops)
    ensures DbLegal(scs, cs, dops) && DbInv(scs, DbRun(scs, cs, dops))
    ensures SessionsOf(rd, scs, DbRun(scs, cs, dops)) == After(SessionsOf(rd, scs, cs), op)
  {
    hide DbInv, Keyed, CanRead, SessionsOf, Good, Sound, Unique, CanWriteAll, WritesOf, Done, PerformsAll, DbEnabled,
         DbStep, InDb;
    var c := ContentsOf(rd, scs, cs);
    GoodSound(c);
    if op.Session? {
      SessionMakes(scs, cs, op.dop);
      DbStepFollows(rd, scs, cs, op.dop);
    } else {
      WritesDo(c, op);
      PerformAllReads(rd, scs, cs, WritesOf(c, op), dops);
    }
  }

  lemma SessionMakes(scs: seq<Schema>, cs: seq<Config>, dop: DbOp)
    requires DbInv(scs, cs) && DbEnabled(scs, cs, dop)
    ensures DbLegal(scs, cs, [dop]) && DbInv(scs, DbStep(scs, cs, dop)) && DbRun(scs, cs, [dop]) == DbStep(scs, cs, dop)
  {
    hide DbInv, DbEnabled, DbStep;
    StepInv(scs, cs, dop);
    assert [dop][1..] == [];
  }

  /** A run: operations, and for each what the arena database did. */
  type Trace = seq<(ContractOp, seq<DbOp>)>

  ghost predicate Follows(rd: Reading, scs: seq<Schema>, cs: seq<Config>, trace: Trace)
    requires DbInv(scs, cs) && Keyed(rd, scs) && InDb(rd, cs) && CanRead(rd, scs) && Good(ContentsOf(rd, scs, cs))
    requires AllGood(SessionsOf(rd, scs, cs).saved)
    decreases |trace|
  {
    if trace == [] then true
    else
      var (op, dops) := trace[0];
      && Makes(rd, scs, cs, op, dops)
      && (StepGood(rd, scs, cs, op, dops); Follows(rd, scs, DbRun(scs, cs, dops), trace[1..]))
  }

  lemma StepGood(rd: Reading, scs: seq<Schema>, cs: seq<Config>, op: ContractOp, dops: seq<DbOp>)
    requires DbInv(scs, cs) && Keyed(rd, scs) && InDb(rd, cs) && CanRead(rd, scs) && Good(ContentsOf(rd, scs, cs))
    requires AllGood(SessionsOf(rd, scs, cs).saved) && Makes(rd, scs, cs, op, dops)
    ensures DbLegal(scs, cs, dops) && DbInv(scs, DbRun(scs, cs, dops)) && InDb(rd, DbRun(scs, cs, dops))
    ensures Good(ContentsOf(rd, scs, DbRun(scs, cs, dops))) && AllGood(SessionsOf(rd, scs, DbRun(scs, cs, dops)).saved)
    ensures SessionsOf(rd, scs, DbRun(scs, cs, dops)) == After(SessionsOf(rd, scs, cs), op)
  {
    hide DbInv, Keyed, CanRead, SessionsOf, Good, After;
    MakesAfter(rd, scs, cs, op, dops);
    AfterGood(SessionsOf(rd, scs, cs), op);
  }

  /** Everything the arena database did in a run. */
  function Ops(trace: Trace): seq<DbOp>
  {
    if trace == [] then [] else trace[0].1 + Ops(trace[1..])
  }

  /** What the operations of a run make of contents and copies; a refused one ends the run. */
  ghost function AfterAll(s: Sessions, trace: Trace): Sessions
    decreases |trace|
  {
    if trace == [] || !Sound(s.db) || !CanDo(s.db, trace[0].0) then s else AfterAll(After(s, trace[0].0), trace[1..])
  }

  /**
    Over every run of the contract database, whatever sessions it opens, undoes,
    squashes and commits: the arena tables hold what the operations make of the
    contents, every account is billed exactly what its live rows and tables cost,
    and so it is in every copy that an undo at any depth can bring back.
   */
  lemma {:induction false} RunConserves(rd: Reading, scs: seq<Schema>, cs: seq<Config>, trace: Trace)
    requires DbInv(scs, cs) && Keyed(rd, scs) && InDb(rd, cs) && CanRead(rd, scs) && Good(ContentsOf(rd, scs, cs))
    requires AllGood(SessionsOf(rd, scs, cs).saved) && Follows(rd, scs, cs, trace)
    ensures DbLegal(scs, cs, Ops(trace)) && DbInv(scs, DbRun(scs, cs, Ops(trace)))
    ensures var s := SessionsOf(rd, scs, DbRun(scs, cs, Ops(trace)));
            && s == AfterAll(SessionsOf(rd, scs, cs), trace)
            && Good(s.db) && AllGood(s.saved) && Good(Undone(s).db)
    decreases |trace|
  {
    hide DbInv, Keyed, CanRead, SessionsOf, Good, After, Makes, InDb;
    GoodSound(ContentsOf(rd, scs, cs));
    if trace != [] {
      var (op, dops) := trace[0];
      MadeCanDo(rd, scs, cs, op, dops);
      StepGood(rd, scs, cs, op, dops);
      RunConserves(rd, scs, DbRun(scs, cs, dops), trace[1..]);
      DbLegalJoin(scs, cs, dops, Ops(trace[1..]));
    }
  }

  lemma MadeCanDo(rd: Reading, scs: seq<Schema>, cs: seq<Config>, op: ContractOp, dops: seq<DbOp>)
    requires DbInv(scs, cs) && Keyed(rd, scs) && InDb(rd, cs) && CanRead(rd, scs) && Sound(ContentsOf(rd, scs, cs))
    requires Makes(rd, scs, cs, op, dops)
    ensures CanDo(SessionsOf(rd, scs, cs).db, op)
  {
    hide SessionsOf, CanDo;
  }

  /** A database with no rows yet is one to start from. */
  lemma EmptyGood(rd: Reading, scs: seq<Schema>, cs: seq<Config>)
    requires DbInv(scs, cs) && Keyed(rd, scs) && InDb(rd, cs) && CanRead(rd, scs)
    requires forall x :: 0 <= x < |cs| ==> cs[x].t.rows == map[]
    ensures Good(ContentsOf(rd, scs, cs))
  {
    hide DbInv, Keyed, CanRead, ContentsOf, Refinement.AbsOf, Conserved;
    ContentsFields(rd, scs, cs);
    SeenOf(scs[rd.kvsAt], cs[rd.kvsAt]);
    var c := ContentsOf(rd, scs, cs);
    forall id: int ensures id !in c.tables && id !in c.kvs && id !in c.idx64 {
    }
    forall account: nat ensures account !in c.ram {
    }
    NothingOwed(c);
  }

  lemma NothingOwed(c: Contents)
    requires (forall id :: id !in c.tables && id !in c.kvs && id !in c.idx64) && forall account :: account !in c.ram
    ensures Conserved(c)
  {
  }

  // ----- sessions start in agreement ----------------------------------------

  lemma {:induction false} PerformsAllRows(rd: Reading, scs: seq<Schema>, cs: seq<Config>, ws: seq<Write>,
                                           dops: seq<DbOp>)
    requires DbInv(scs, cs) && InDb(rd, cs) && PerformsAll(rd, scs, cs, ws, dops)
    ensures forall i :: 0 <= i < |dops| ==> dops[i].On?
    decreases |ws|
  {
    hide DbInv, Performs;
    if ws != [] {
      var n := Length(ws[0]);
      PerformsRows(rd, cs, ws[0], dops[..n]);
      DbRunKeeps(scs, cs, dops[..n]);
      PerformsAllRows(rd, scs, DbRun(scs, cs, dops[..n]), ws[1..], dops[n..]);
      forall i | 0 <= i < |dops| ensures dops[i].On? {
        assert dops[i] == if i < n then dops[..n][i] else dops[n..][i - n];
      }
    }
  }

  lemma {:induction false} RowsThen(rd: Reading, scs: seq<Schema>, cs: seq<Config>, a: seq<DbOp>, b: seq<DbOp>)
    requires DbInv(scs, cs) && CanRead(rd, scs) && DbLegal(scs, cs, a) && (forall i :: 0 <= i < |a| ==> a[i].On?)
    requires DbInv(scs, DbRun(scs, cs, a)) && DbLegal(scs, DbRun(scs, cs, a), b)
    requires GoodAtStarts(rd, scs, DbRun(scs, cs, a), b)
    ensures DbLegal(scs, cs, a + b) && GoodAtStarts(rd, scs, cs, a + b)
    decreases |a|
  {
    hide DbInv, CanRead, DbEnabled, DbStep, SessionsOf, Good;
    if a == [] {
      assert a + b == b;
    } else {
      assert (a + b)[1..] == a[1..] + b && (a + b)[0] == a[0];
      StepInv(scs, cs, a[0]);
      RowsThen(rd, scs, DbStep(scs, cs, a[0]), a[1..], b);
    }
  }

  /** In a run of the contract database every session starts with billing and rows in agreement. */
  lemma {:induction false} StartsInAgreement(rd: Reading, scs: seq<Schema>, cs: seq<Config>, trace: Trace)
    requires DbInv(scs, cs) && Keyed(rd, scs) && InDb(rd, cs) && CanRead(rd, scs) && Good(ContentsOf(rd, scs, cs))
    requires AllGood(SessionsOf(rd, scs, cs).saved) && Follows(rd, scs, cs, trace)
    ensures DbLegal(scs, cs, Ops(trace)) && GoodAtStarts(rd, scs, cs, Ops(trace))
    decreases |trace|
  {
    hide DbInv, Keyed, CanRead, SessionsOf, Good, After, InDb, PerformsAll, DbEnabled, DbStep, WritesOf, CanDo;
    if trace != [] {
      var (op, dops) := trace[0];
      var rest := Ops(trace[1..]);
      GoodSound(ContentsOf(rd, scs, cs));
      StepGood(rd, scs, cs, op, dops);
      StartsInAgreement(rd, scs, DbRun(scs, cs, dops), trace[1..]);
      if op.Session? {
        SessionMakes(scs, cs, op.dop);
        assert ([op.dop] + rest)[1..] == rest;
        DbLegalJoin(scs, cs, dops, rest);
      } else {
        PerformsAllRows(rd, scs, cs, WritesOf(ContentsOf(rd, scs, cs), op), dops);
        RowsThen(rd, scs, cs, dops, rest);
      }
    }
  }
}
