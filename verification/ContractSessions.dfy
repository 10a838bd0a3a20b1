/**
  The undo sessions of the contract database. Its rows and RAM are rows of the
  arena tables, so what its sessions do is read off what a database run does to
  the observations of those tables.
 */
module ContractSessions {
  import opened ArenaTypes
  import TableSpec
  import BlobSafety
  import opened TableOps
  import Refinement
  import opened DbLifecycle
  import opened DbRefinement
  import opened ContractRam

  // ----- what sessions do to contents ---------------------------------------

  /** The contents, and a copy of them for each open session. */
  datatype Sessions = Sessions(db: Contents, saved: Stack<Contents>, revision: int)

  function Started(s: Sessions): Sessions
  {
    s.(saved := Push(s.db, s.saved), revision := s.revision + 1)
  }

  function Undone(s: Sessions): Sessions
  {
    if s.saved.Bottom? then s else Sessions(s.saved.top, s.saved.below, s.revision - 1)
  }

  function Squashed(s: Sessions): Sessions
  {
    if s.saved.Bottom? then s else s.(saved := s.saved.below, revision := s.revision - 1)
  }

  function Committed(s: Sessions, upTo: int): Sessions
  {
    s.(saved := Innermost(s.saved, TableSpec.KeptBy(Depth(s.saved), s.revision, upTo)))
  }

  /** Names are unique, rows belong to tables, and RAM is what the rows cost. */
  ghost predicate Good(c: Contents)
  {
    Sound(c) && Conserved(c)
  }

  ghost predicate AllGood(saved: Stack<Contents>)
  {
    saved.Push? ==> Good(saved.top) && AllGood(saved.below)
  }

  lemma InnermostGood(saved: Stack<Contents>, keep: nat)
    requires AllGood(saved)
    ensures AllGood(Innermost(saved, keep))
  {
  }

  // ----- contents read off the tables ---------------------------------------

  /** Where the contract rows are in the database and how to read them; a row's value bytes are a blob. */
  datatype Reading = Reading(
    tablesAt: nat, table: Row -> TableId,
    kvsAt: nat, kv: Row -> KeyValue, valueRef: Row -> BlobRef,
    idx64At: nat, idx64: Row -> Index64,
    usageAt: nat, account: Row -> nat, bytes: Row -> int)

  /** The four tables are there, and the value of a row is one of the blobs it names, or empty. */
  ghost predicate CanRead(rd: Reading, scs: seq<Schema>)
  {
    && rd.tablesAt < |scs| && rd.kvsAt < |scs| && rd.idx64At < |scs| && rd.usageAt < |scs|
    && forall row :: rd.valueRef(row).len == 0 || rd.valueRef(row) in scs[rd.kvsAt].refs(row)
  }

  function ValueBytes(store: map<BlobRef, seq<Byte>>, r: BlobRef): seq<Byte>
  {
    if r.len == 0 || r !in store then [] else store[r]
  }

  function ReadKv(rd: Reading, o: BlobSafety.Obs, row: Row): KeyValue
  {
    rd.kv(row).(value := ValueBytes(o.store, rd.valueRef(row)))
  }

  ghost function AccountsIn(rd: Reading, rows: Rows): set<nat>
  {
    set id | id in rows :: rd.account(rows[id])
  }

  ghost function BytesOf(rd: Reading, rows: Rows, account: nat): int
    requires account in AccountsIn(rd, rows)
  {
    var id :| id in rows && rd.account(rows[id]) == account; rd.bytes(rows[id])
  }

  /** The bytes billed to each account that has a usage row. */
  ghost function ReadUsage(rd: Reading, rows: Rows): map<nat, int>
  {
    map account | account in AccountsIn(rd, rows) :: BytesOf(rd, rows, account)
  }

  function TablesIn(rd: Reading, rows: Rows): map<int, TableId>
  {
    map id | id in rows :: rd.table(rows[id])
  }

  function KvsIn(rd: Reading, o: BlobSafety.Obs): map<int, KeyValue>
  {
    map id | id in o.rows :: ReadKv(rd, o, o.rows[id])
  }

  function Idx64In(rd: Reading, rows: Rows): map<int, Index64>
  {
    map id | id in rows :: rd.idx64(rows[id])
  }

  ghost function ReadOff(rd: Reading, cur: seq<BlobSafety.Obs>): Contents
    requires rd.tablesAt < |cur| && rd.kvsAt < |cur| && rd.idx64At < |cur| && rd.usageAt < |cur|
  {
    var tables, kvs, idx64 := cur[rd.tablesAt], cur[rd.kvsAt], cur[rd.idx64At];
    Contents(TablesIn(rd, tables.rows), KvsIn(rd, kvs), Idx64In(rd, idx64.rows), ReadUsage(rd, cur[rd.usageAt].rows),
             tables.nextId, kvs.nextId, idx64.nextId)
  }

  ghost predicate Wide(st: Stack<seq<BlobSafety.Obs>>, n: nat)
  {
    st.Push? ==> |st.top| == n && Wide(st.below, n)
  }

  ghost function ReadStack(rd: Reading, st: Stack<seq<BlobSafety.Obs>>, n: nat): (saved: Stack<Contents>)
    requires rd.tablesAt < n && rd.kvsAt < n && rd.idx64At < n && rd.usageAt < n && Wide(st, n)
    ensures Depth(saved) == Depth(st)
  {
    match st
    case Bottom => Bottom
    case Push(top, below) => Push(ReadOff(rd, top), ReadStack(rd, below, n))
  }

  ghost function ReadSessions(rd: Reading, a: DbAbs): Sessions
    requires var n := |a.cur|; rd.tablesAt < n && rd.kvsAt < n && rd.idx64At < n && rd.usageAt < n && Wide(a.saved, n)
  {
    Sessions(ReadOff(rd, a.cur), ReadStack(rd, a.saved, |a.cur|), a.revision)
  }

  /** What a session start leaves out of its copy is not part of the contents. */
  lemma CopyReads(rd: Reading, scs: seq<Schema>, cur: seq<BlobSafety.Obs>)
    requires CanRead(rd, scs) && |scs| == |cur|
    ensures ReadOff(rd, CopyAll(scs, cur)) == ReadOff(rd, cur)
  {
    var kvs, copy, sc := cur[rd.kvsAt], CopyAll(scs, cur)[rd.kvsAt], scs[rd.kvsAt];
    forall id | id in kvs.rows ensures ReadKv(rd, copy, kvs.rows[id]) == ReadKv(rd, kvs, kvs.rows[id]) {
      BlobSafety.RefsOfContains(sc, kvs.rows, id);
    }
  }

  lemma {:induction false} ReadInnermost(rd: Reading, st: Stack<seq<BlobSafety.Obs>>, n: nat, keep: nat)
    requires rd.tablesAt < n && rd.kvsAt < n && rd.idx64At < n && rd.usageAt < n && Wide(st, n)
    ensures Wide(Innermost(st, keep), n)
    ensures ReadStack(rd, Innermost(st, keep), n) == Innermost(ReadStack(rd, st, n), keep)
    decreases st
  {
    hide ReadOff;
    if st.Push? && keep > 0 {
      ReadInnermost(rd, st.below, n, keep - 1);
    }
  }

  // ----- what a database run does to the sessions ---------------------------

  /** How a database operation moves the contract database's sessions; row operations only touch the contents. */
  ghost predicate SessionStep(s: Sessions, dop: DbOp, s': Sessions)
  {
    match dop
    case On(_, _) => s' == s.(db := s'.db)
    case UndoEvery(_) => s' == Undone(s)
    case Every(op) =>
      match op
      case StartOp => s' == Started(s)
      case SquashOp => s' == Squashed(s)
      case CommitOp(upTo) => s' == Committed(s, upTo)
      case SetRevisionOp(_) => s' == s.(revision := s'.revision)
      case _ => s' == s
  }

  lemma AbsStepReads(rd: Reading, scs: seq<Schema>, a: DbAbs, dop: DbOp, name: BlobRef)
    requires CanRead(rd, scs) && |scs| == |a.cur| && Wide(a.saved, |a.cur|) && Fits(|a.cur|, dop)
    ensures var a' := DbAbsStep(scs, a, dop, name);
            |a'.cur| == |a.cur| && Wide(a'.saved, |a.cur|)
                && SessionStep(ReadSessions(rd, a), dop, ReadSessions(rd, a'))
  {
    hide ReadOff, Refinement.AbsStep;
    if dop == Every(StartOp) {
      CopyReads(rd, scs, a.cur);
    }
    if dop.Every? && dop.op.CommitOp? {
      ReadInnermost(rd, a.saved, |a.cur|, TableSpec.KeptBy(Depth(a.saved), a.revision, dop.op.revision));
    }
  }

  lemma {:induction false} ZipWide(stacks: seq<Stack<BlobSafety.Obs>>, depth: nat)
    requires SameDepth(stacks, depth)
    ensures Wide(Zip(stacks, depth), |stacks|)
    decreases depth
  {
    if depth > 0 {
      ZipWide(Belows(stacks), depth - 1);
    }
  }

  lemma AtFirst(scs: seq<Schema>, cs: seq<BlobSafety.Config>)
    requires DbInv(scs, cs) && cs != []
    ensures At(Tabs(cs), Depth(cs[0].t.undo), cs[0].t.revision)
  {
    hide BlobSafety.Inv;
    var depth: nat, revision: int :| At(Tabs(cs), depth, revision);
    assert Tabs(cs)[0] == cs[0].t;
  }

  /** The copying database, at the depth and revision all tables share. */
  ghost function SharedAbs(scs: seq<Schema>, cs: seq<BlobSafety.Config>): (a: DbAbs)
    requires DbInv(scs, cs) && cs != []
    ensures |a.cur| == |cs| && Wide(a.saved, |cs|)
  {
    AtFirst(scs, cs);
    LevelOf(scs, cs, Depth(cs[0].t.undo), cs[0].t.revision);
    ZipWide(Saveds(AbsAll(scs, cs)), Depth(cs[0].t.undo));
    DbAbsOf(scs, cs, Depth(cs[0].t.undo), cs[0].t.revision)
  }

  /** The contract database that the tables hold. */
  ghost function SessionsOf(rd: Reading, scs: seq<Schema>, cs: seq<BlobSafety.Config>): Sessions
    requires DbInv(scs, cs) && CanRead(rd, scs)
  {
    ReadSessions(rd, SharedAbs(scs, cs))
  }

  /**
    The arena database's session operations are the contract database's, and no row
    operation touches what they kept.
   */
  lemma DbStepFollows(rd: Reading, scs: seq<Schema>, cs: seq<BlobSafety.Config>, dop: DbOp)
    requires DbInv(scs, cs) && CanRead(rd, scs) && DbEnabled(scs, cs, dop)
    ensures var cs' := DbStep(scs, cs, dop);
            DbInv(scs, cs') && SessionStep(SessionsOf(rd, scs, cs), dop, SessionsOf(rd, scs, cs'))
  {
    hide BlobSafety.Inv, At, DbAbsOf, DbAbsStep, DbStep, Wide, ReadSessions, SessionStep, CanRead, SharedAfter;
    SomeTables(rd, scs);
    var cs', depth, revision := DbStep(scs, cs, dop), Depth(cs[0].t.undo), cs[0].t.revision;
    AtFirst(scs, cs);
    DbStepRefines(scs, cs, dop, depth, revision);
    SameShared(scs, cs', SharedAfter(depth, revision, dop).0, SharedAfter(depth, revision, dop).1);
    EnabledFits(scs, cs, dop);
    AbsStepReads(rd, scs, SharedAbs(scs, cs), dop, AllocatedBy(cs, dop));
  }

  lemma SomeTables(rd: Reading, scs: seq<Schema>)
    requires CanRead(rd, scs)
    ensures scs != []
  {
  }

  lemma EnabledFits(scs: seq<Schema>, cs: seq<BlobSafety.Config>, dop: DbOp)
    requires DbInv(scs, cs) && DbEnabled(scs, cs, dop)
    ensures Fits(|cs|, dop)
  {
    hide BlobSafety.Inv, Refinement.Enabled, Lockstep;
  }

  lemma SameShared(scs: seq<Schema>, cs: seq<BlobSafety.Config>, depth: nat, revision: int)
    requires DbInv(scs, cs) && cs != [] && At(Tabs(cs), depth, revision)
    ensures SharedAbs(scs, cs) == DbAbsOf(scs, cs, depth, revision)
  {
    hide BlobSafety.Inv, DbAbsOf;
    assert Tabs(cs)[0] == cs[0].t;
  }

  /** Whenever a session starts, RAM is what the rows cost. */
  ghost predicate GoodAtStarts(rd: Reading, scs: seq<Schema>, cs: seq<BlobSafety.Config>, dops: seq<DbOp>)
    requires DbInv(scs, cs) && CanRead(rd, scs) && DbLegal(scs, cs, dops)
    decreases |dops|
  {
    dops == []
    || (&& (dops[0] == Every(StartOp) ==> Good(SessionsOf(rd, scs, cs).db))
        && (StepInv(scs, cs, dops[0]); GoodAtStarts(rd, scs, DbStep(scs, cs, dops[0]), dops[1..])))
  }

  /**
    Over every run of the arena database that opens sessions only when RAM is
    what the rows cost, so it is in every state a session can bring back: an
    undo, at any depth, leaves billing and rows in agreement.
   */
  lemma {:induction false} RollbackConserves(rd: Reading, scs: seq<Schema>, cs: seq<BlobSafety.Config>, dops: seq<DbOp>)
    requires DbInv(scs, cs) && CanRead(rd, scs) && DbLegal(scs, cs, dops) && GoodAtStarts(rd, scs, cs, dops)
    requires AllGood(SessionsOf(rd, scs, cs).saved)
    ensures DbInv(scs, DbRun(scs, cs, dops))
    ensures var s := SessionsOf(rd, scs, DbRun(scs, cs, dops));
            AllGood(s.saved) && (s.saved.Push? ==> Good(Undone(s).db))
    decreases |dops|
  {
    hide BlobSafety.Inv, Lockstep, DbEnabled, DbStep, CanRead, SessionsOf, Good;
    if dops != [] {
      StepInv(scs, cs, dops[0]);
      DbStepFollows(rd, scs, cs, dops[0]);
      var s, s' := SessionsOf(rd, scs, cs), SessionsOf(rd, scs, DbStep(scs, cs, dops[0]));
      if dops[0].Every? && dops[0].op.CommitOp? {
        InnermostGood(s.saved, TableSpec.KeptBy(Depth(s.saved), s.revision, dops[0].op.revision));
      }
      RollbackConserves(rd, scs, DbStep(scs, cs, dops[0]), dops[1..]);
    }
  }
}
