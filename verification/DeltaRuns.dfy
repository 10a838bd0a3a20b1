/** The delta log over whole runs between two flushes. */
module DeltaRuns {
  import opened ArenaTypes
  import opened TableSpec
  import opened TableOps
  import opened RowHistory
  import opened BlobSafety
  import opened Refinement
  import opened Runs
  import opened Delta
  import opened TouchOrder

  ghost predicate NoFlush(ops: seq<Op>)
  {
    forall op :: op in ops ==> !op.FlushOp?
  }

  lemma {:induction false} RunTracks(sc: Schema, p: Persisted, c: Config, ops: seq<Op>)
    requires Inv(sc, c) && Legal(sc, c, ops) && NoFlush(ops) && Tracks(sc, p, c.t)
    ensures Tracks(sc, p, Run(sc, c, ops).t)
    decreases |ops|
  {
    if ops != [] {
      var c' := Step(sc, c, ops[0]);
      StepRefines(sc, c, ops[0]);
      CanStepInside(sc, c, ops[0]);
      assert c.t.undo.Push? ==> c.t.undo.top.oldBlobLen <= |c.t.blobs|;
      StepTracks(sc, p, c.t, ops[0]);
      hide Inv, Tracks, Enabled, TabStep, HeldAfter, RestoreOrder;
      RunTracks(sc, p, c', ops[1..]);
    }
  }

  // ----- what the run touched -----------------------------------------------

  /** Every id the run touched, in the order it did. */
  ghost function TouchLog(sc: Schema, c: Config, ops: seq<Op>): seq<int>
    requires Inv(sc, c) && Legal(sc, c, ops)
    decreases |ops|
  {
    if ops == [] then []
    else
      StepRefines(sc, c, ops[0]);
      Touched(sc, c.t, ops[0]) + TouchLog(sc, Step(sc, c, ops[0]), ops[1..])
  }

  /** Over every run without a flush the dirty list is the touched ids, in the order they were first touched. */
  lemma {:induction false} RunTouches(sc: Schema, c: Config, ops: seq<Op>, log: seq<int>)
    requires Inv(sc, c) && Legal(sc, c, ops) && NoFlush(ops) && IsFirsts(c.t.dirty, log, ANY)
    ensures IsFirsts(Run(sc, c, ops).t.dirty, log + TouchLog(sc, c, ops), ANY)
    decreases |ops|
  {
    hide Inv, IsFirsts, Enabled, TabStep, HeldAfter, Touched, AbsOf, AbsStep;
    if ops == [] {
      assert log + [] == log;
    } else {
      var op, c' := ops[0], Step(sc, c, ops[0]);
      StepRefines(sc, c, op);
      CanStepInside(sc, c, op);
      StepTouches(sc, c.t, op, log);
      RunTouches(sc, c', ops[1..], log + Touched(sc, c.t, op));
      assert log + TouchLog(sc, c, ops) == (log + Touched(sc, c.t, op)) + TouchLog(sc, c', ops[1..]);
    }
  }

  ghost predicate ShareKey(sc: Schema, a: Row, b: Row)
  {
    exists x: nat :: x < |sc.keys| && sc.keys[x](a) == sc.keys[x](b)
  }

  /** A row has a key now that a row first touched after it had at the flush. */
  ghost predicate TakenEarlier(sc: Schema, was: Rows, now: Rows, log: seq<int>)
  {
    exists a, b :: a in now && b in was && First(log, a) < First(log, b) < |log| && ShareKey(sc, now[a], was[b])
  }

  lemma ClashIsEarlier(sc: Schema, p: Persisted, t: Tab, log: seq<int>)
    requires IsFirsts(t.dirty, log, ANY)
    ensures TakesHeldKey(sc, p, t, 0) <==> TakenEarlier(sc, p.rows, t.rows, log)
  {
    hide IsFirsts, Clash, ShareKey, First;
    if TakesHeldKey(sc, p, t, 0) {
      var i: nat, j: nat :| 0 <= i < j < |t.dirty| && Clash(sc, p, t, i, j);
      ClashTouches(sc, p, t, log, i, j);
    }
    if TakenEarlier(sc, p.rows, t.rows, log) {
      var a, b :| a in t.rows && b in p.rows && First(log, a) < First(log, b) < |log|
          && ShareKey(sc, t.rows[a], p.rows[b]);
      TouchesClash(sc, p, t, log, a, b);
    }
  }

  lemma ClashTouches(sc: Schema, p: Persisted, t: Tab, log: seq<int>, i: nat, j: nat)
    requires IsFirsts(t.dirty, log, ANY) && i < j < |t.dirty| && Clash(sc, p, t, i, j)
    ensures var a, b := t.dirty[i], t.dirty[j];
            a in t.rows && b in p.rows && First(log, a) < First(log, b) < |log| && ShareKey(sc, t.rows[a], p.rows[b])
  {
    assert t.dirty[j] in t.dirty;
  }

  lemma TouchesClash(sc: Schema, p: Persisted, t: Tab, log: seq<int>, a: int, b: int)
    requires IsFirsts(t.dirty, log, ANY) && a in t.rows && b in p.rows && First(log, a) < First(log, b) < |log|
    requires ShareKey(sc, t.rows[a], p.rows[b])
    ensures TakesHeldKey(sc, p, t, 0)
  {
    assert a in t.dirty && b in t.dirty;
    var i: nat :| i < |t.dirty| && t.dirty[i] == a;
    var j: nat :| j < |t.dirty| && t.dirty[j] == b;
    FirstsInOrder(t.dirty, log, ANY, j, i);
    assert Clash(sc, p, t, i, j);
  }

  /**
    After a flush, any run that ends with no session open leaves a delta whose
    replay on the flushed state gives the state of the run, or is refused exactly
    when some row took a key that a row first touched after it held at the flush.
   */
  lemma RunReplays(sc: Schema, c: Config, ops: seq<Op>)
    requires Inv(sc, c) && c.t.undo.Bottom? && c.t == MarkFlushed(c.t)
    requires Legal(sc, c, ops) && NoFlush(ops) && Run(sc, c, ops).t.undo.Bottom?
    ensures var p, t := PersistedOf(c.t), Run(sc, c, ops).t;
            && t.flushed <= |t.blobs|
            && IsFirsts(t.dirty, TouchLog(sc, c, ops), ANY)
            && Apply(sc, p, Pack(t)) == if TakenEarlier(sc, p.rows, t.rows, TouchLog(sc, c, ops)) then Err(Corrupted)
                                        else Ok(PersistedOf(t))
  {
    FlushTracks(sc, c.t);
    RunTracks(sc, PersistedOf(c.t), c, ops);
    RunRefines(sc, c, ops);
    hide AbsOf, AbsRun, Names, Run, Legal, IsFirsts, TakenEarlier;
    DeltaReplays(sc, PersistedOf(c.t), Run(sc, c, ops).t);
    NothingYet(c.t.dirty);
    RunTouches(sc, c, ops, []);
    assert [] + TouchLog(sc, c, ops) == TouchLog(sc, c, ops);
    ClashIsEarlier(sc, PersistedOf(c.t), Run(sc, c, ops).t, TouchLog(sc, c, ops));
  }

  lemma NothingYet(dirty: seq<int>)
    requires dirty == []
    ensures IsFirsts(dirty, [], ANY)
  {
  }

  /** A record made right after a flush carries nothing. */
  lemma NothingLeftToFlush(t: Tab)
    ensures var t' := MarkFlushed(t);
            && t' == t.(dirty := t'.dirty, patches := t'.patches, flushed := t'.flushed) && t'.flushed == |t.blobs|
            && Pack(t') == Record(t.nextId, [], [], [])
  {
  }

  // ----- a delta that cannot be replayed ------------------------------------

  /** One-byte rows, unique by that byte, without blobs. */
  function ByteSchema(): Schema
  {
    Schema(1, [(r: Row) => if |r.data| == 1 then [r.data[0] as int] else []], (r: Row) => multiset{})
  }

  /** Two rows with keys 1 and 2, just flushed. */
  function TwoRows(): Tab
  {
    Tab(2, map[0 := Row(0, [1]), 1 := Row(1, [2])], [], Bottom, 0, [], [], [], 0)
  }

  /** Row 0 steps aside to key 3, row 1 takes key 1, row 0 takes key 2. */
  ghost function TradeKeys(t: Tab): Tab
  {
    var sc := ByteSchema();
    Modify(sc, Modify(sc, Modify(sc, t, 0, Row(0, [3])), 1, Row(1, [1])), 0, Row(0, [2]))
  }

  lemma EmplaceByte(t: Tab, b: Byte)
    requires t.undo.Bottom? && forall x :: x in t.rows ==> |t.rows[x].data| == 1 && t.rows[x].data[0] != b
    ensures Emplace(ByteSchema(), t, Row(0, [b])) ==
            t.(rows := t.rows[t.nextId := Row(t.nextId, [b])], nextId := t.nextId + 1,
               dirty := MarkDirty(t.dirty, t.nextId))
  {
    hide MarkDirty;
    assert !Taken(ByteSchema(), t.rows, Row(t.nextId, [b]), 0);
  }

  lemma ModifyByte(t: Tab, id: int, b: Byte)
    requires t.undo.Bottom? && id in t.rows
    requires forall x :: x in t.rows ==> |t.rows[x].data| == 1 && (x != id ==> t.rows[x].data[0] != b)
    ensures ModifyError(ByteSchema(), t, id, Row(id, [b])).None?
    ensures Modify(ByteSchema(), t, id, Row(id, [b]))
            == t.(rows := t.rows[id := Row(id, [b])], dirty := MarkDirty(t.dirty, id))
  {
    hide MarkDirty;
    assert !Taken(ByteSchema(), t.rows, Row(id, [b]), 0);
  }

  lemma TwoRowsReached()
    ensures TwoRows() == MarkFlushed(Emplace(ByteSchema(), Emplace(ByteSchema(), EmptyTab(), Row(0, [1])), Row(0, [2])))
  {
    hide Emplace;
    EmplaceByte(EmptyTab(), 1);
    EmplaceByte(Emplace(ByteSchema(), EmptyTab(), Row(0, [1])), 2);
  }

  /** Two flushed rows with keys `x` and `y`, of which `dirty` were touched. */
  function Keyed(x: Byte, y: Byte, dirty: seq<int>): Tab
  {
    Tab(2, map[0 := Row(0, [x]), 1 := Row(1, [y])], [], Bottom, 0, dirty, [], [], 0)
  }

  lemma FirstMoves(x: Byte, y: Byte, b: Byte, dirty: seq<int>)
    requires b != y
    ensures Modify(ByteSchema(), Keyed(x, y, dirty), 0, Row(0, [b])) == Keyed(b, y, MarkDirty(dirty, 0))
  {
    hide Modify, ByteSchema, MarkDirty;
    ModifyByte(Keyed(x, y, dirty), 0, b);
  }

  lemma SecondMoves(x: Byte, y: Byte, b: Byte, dirty: seq<int>)
    requires b != x
    ensures Modify(ByteSchema(), Keyed(x, y, dirty), 1, Row(1, [b])) == Keyed(x, b, MarkDirty(dirty, 1))
  {
    hide Modify, ByteSchema, MarkDirty;
    ModifyByte(Keyed(x, y, dirty), 1, b);
  }

  lemma KeysTraded()
    ensures TradeKeys(TwoRows()) == Keyed(2, 1, [0, 1])
  {
    hide Modify, ByteSchema;
    assert TwoRows() == Keyed(1, 2, []);
    assert MarkDirty([], 0) == [0] && MarkDirty([0], 1) == [0, 1];
    assert [0, 1][0] == 0 && MarkDirty([0, 1], 0) == [0, 1];
    FirstMoves(1, 2, 3, []);
    SecondMoves(3, 2, 1, [0]);
    FirstMoves(3, 1, 2, [0, 1]);
  }

  /**
    Two rows that trade keys between flushes: every operation is accepted, and
    the record the flush writes is refused on replay.
   */
  lemma TradedKeysAreRefused()
    ensures var sc, t := ByteSchema(), TradeKeys(TwoRows());
            && TwoRows() == MarkFlushed(Emplace(sc, Emplace(sc, EmptyTab(), Row(0, [1])), Row(0, [2])))
            && t.rows == map[0 := Row(0, [2]), 1 := Row(1, [1])]
            && t.flushed <= |t.blobs|
            && Apply(sc, PersistedOf(TwoRows()), Pack(t)) == Err(Corrupted)
  {
    hide Modify, TradeKeys, Emplace;
    TwoRowsReached();
    KeysTraded();
    var d := Pack(TradeKeys(TwoRows()));
    assert d.entries[0] == Entry(0, Some(Row(0, [2])));
    var rest := TwoRows().rows - {0};
    assert rest[1].data == [2];
    assert ByteSchema().keys[0](rest[1]) == ByteSchema().keys[0](Row(0, [2]));
    assert KeyHeld(ByteSchema(), rest, Row(0, [2]));
  }
}
