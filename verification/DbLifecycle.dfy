/**
  A database of tables that share one revision and undo lifecycle. Row and blob
  operations go to one table; session operations fan out to every table.
 */
module DbLifecycle {
  import opened ArenaTypes
  import opened TableSpec
  import opened BlobSafety
  import opened TableOps
  import opened SessionLevels
  import opened Refinement
  import opened Runs

  datatype DbOp =
    | On(x: nat, op: Op)
    | Every(op: Op)
    | UndoEvery(orders: seq<seq<int>>)

  predicate ForEvery(op: Op)
  {
    op.StartOp? || op.SquashOp? || op.CommitOp? || op.SetRevisionOp? || op.FlushOp?
  }

  /** What one database operation makes table `x` do, if anything. */
  function OpFor(dop: DbOp, x: nat): Option<Op>
  {
    match dop
    case On(y, op) => if x == y then Some(op) else None
    case Every(op) => Some(op)
    case UndoEvery(orders) => if x < |orders| then Some(UndoOp(orders[x])) else None
  }

  /** What a run of the database makes table `x` do. */
  function Part(dops: seq<DbOp>, x: nat): seq<Op>
  {
    if dops == [] then []
    else match OpFor(dops[0], x)
      case None => Part(dops[1..], x)
      case Some(op) => [op] + Part(dops[1..], x)
  }

  // ----- lockstep -----------------------------------------------------------

  /** Every table has this many sessions open, at this revision, none of them below revision 0. */
  ghost predicate At(ts: seq<Tab>, depth: nat, revision: int)
  {
    && depth <= revision
    && forall x :: 0 <= x < |ts| ==> Depth(ts[x].undo) == depth && ts[x].revision == revision
  }

  /** The tables are at one shared revision, with one shared undo depth. */
  ghost predicate Lockstep(ts: seq<Tab>)
  {
    exists depth: nat, revision: int :: At(ts, depth, revision)
  }

  function Tabs(cs: seq<Config>): (ts: seq<Tab>)
    ensures |ts| == |cs| && forall x :: 0 <= x < |cs| ==> ts[x] == cs[x].t
  {
    seq(|cs|, x requires 0 <= x < |cs| => cs[x].t)
  }

  /** The shared depth and revision after an operation. */
  function SharedAfter(depth: nat, revision: int, dop: DbOp): (nat, int)
  {
    match dop
    case On(_, _) => (depth, revision)
    case UndoEvery(_) => Moved(depth, revision, UndoOp([]))
    case Every(op) => Moved(depth, revision, op)
  }

  lemma TabShared(sc: Schema, t: Tab, dop: DbOp, x: nat)
    requires (dop.On? ==> ForOne(dop.op)) && (dop.Every? ==> ForEvery(dop.op)) && Depth(t.undo) <= t.revision
    requires OpFor(dop, x).Some? && CanStep(t, OpFor(dop, x).value)
    ensures var t' := TabStep(sc, t, OpFor(dop, x).value);
            && (Depth(t'.undo), t'.revision) == SharedAfter(Depth(t.undo), t.revision, dop)
            && Depth(t'.undo) <= t'.revision
  {
    hide TabStep, CanStep;
    StepMoves(sc, t, OpFor(dop, x).value);
  }

  /** Session operations do the same to the depth and revision of every table, so they keep the lockstep. */
  lemma LockedTogether(sc: Schema, was: seq<Tab>, now: seq<Tab>, dop: DbOp)
    requires Lockstep(was) && |now| == |was| && !dop.On? && (dop.Every? ==> ForEvery(dop.op))
    requires dop.UndoEvery? ==> |dop.orders| == |was|
    requires forall x: nat :: x < |was| ==> now[x] == TabStep(sc, was[x], OpFor(dop, x).value)
    ensures Lockstep(now)
  {
    hide TabStep, SharedAfter;
    var depth, revision :| At(was, depth, revision);
    SharedBounds(depth, revision, dop);
    forall x: nat | x < |was| ensures (Depth(now[x].undo), now[x].revision) == SharedAfter(depth, revision, dop) {
      TabShared(sc, was[x], dop, x);
    }
    assert At(now, SharedAfter(depth, revision, dop).0, SharedAfter(depth, revision, dop).1);
  }

  // ----- the database -------------------------------------------------------

  ghost predicate DbInv(scs: seq<Schema>, cs: seq<Config>)
  {
    && |scs| == |cs|
    && (forall x :: 0 <= x < |cs| ==> Inv(scs[x], cs[x]))
    && Lockstep(Tabs(cs))
  }

  /** What callers owe the database: to each table what they owe it, and only session operations to all of them. */
  ghost predicate DbEnabled(scs: seq<Schema>, cs: seq<Config>, dop: DbOp)
    requires DbInv(scs, cs)
  {
    && (dop.On? ==> ForOne(dop.op) && dop.x < |cs|)
    && (dop.Every? ==> ForEvery(dop.op))
    && (dop.UndoEvery? ==> |dop.orders| == |cs|)
    && forall x: nat :: x < |cs| && OpFor(dop, x).Some? ==> Enabled(scs[x], cs[x], OpFor(dop, x).value)
  }

  ghost function StepOf(sc: Schema, c: Config, op: Option<Op>): Config
    requires Inv(sc, c) && (op.Some? ==> Enabled(sc, c, op.value))
  {
    if op.None? then c else Step(sc, c, op.value)
  }

  ghost function DbStep(scs: seq<Schema>, cs: seq<Config>, dop: DbOp): (after: seq<Config>)
    requires DbInv(scs, cs) && DbEnabled(scs, cs, dop)
    ensures |after| == |cs|
  {
    seq(|cs|, x requires 0 <= x < |cs| => StepOf(scs[x], cs[x], OpFor(dop, x)))
  }

  lemma StepOfKeeps(sc: Schema, c: Config, dop: DbOp, x: nat)
    requires Inv(sc, c) && (OpFor(dop, x).Some? ==> Enabled(sc, c, OpFor(dop, x).value))
    requires (dop.On? ==> ForOne(dop.op)) && (dop.Every? ==> ForEvery(dop.op)) && Depth(c.t.undo) <= c.t.revision
    requires OpFor(dop, x).None? ==> dop.On?
    ensures var c' := StepOf(sc, c, OpFor(dop, x));
            && Inv(sc, c')
            && (Depth(c'.t.undo), c'.t.revision) == SharedAfter(Depth(c.t.undo), c.t.revision, dop)
            && Depth(c'.t.undo) <= c'.t.revision
  {
    hide Inv, Enabled, TabStep, HeldAfter, AbsOf, AbsStep;
    if OpFor(dop, x).Some? {
      StepRefines(sc, c, OpFor(dop, x).value);
      CanStepInside(sc, c, OpFor(dop, x).value);
      TabShared(sc, c.t, dop, x);
    }
  }

  /** Every database operation keeps every table sound and the tables in lockstep. */
  lemma DbStepKeeps(scs: seq<Schema>, cs: seq<Config>, dop: DbOp, depth: nat, revision: int)
    requires DbInv(scs, cs) && DbEnabled(scs, cs, dop) && At(Tabs(cs), depth, revision)
    ensures var cs', (depth', revision') := DbStep(scs, cs, dop), SharedAfter(depth, revision, dop);
            At(Tabs(cs'), depth', revision') && DbInv(scs, cs')
  {
    hide Inv, Enabled, StepOf, SharedAfter;
    var cs' := DbStep(scs, cs, dop);
    forall x | 0 <= x < |cs|
      ensures Inv(scs[x], cs'[x])
      ensures (Depth(cs'[x].t.undo), cs'[x].t.revision) == SharedAfter(depth, revision, dop)
    {
      assert Depth(Tabs(cs)[x].undo) == depth;
      StepOfKeeps(scs[x], cs[x], dop, x);
    }
    SharedBounds(depth, revision, dop);
    assert At(Tabs(cs'), SharedAfter(depth, revision, dop).0, SharedAfter(depth, revision, dop).1);
  }

  lemma SharedBounds(depth: nat, revision: int, dop: DbOp)
    requires depth <= revision && (dop.Every? ==> ForEvery(dop.op))
    ensures SharedAfter(depth, revision, dop).0 <= SharedAfter(depth, revision, dop).1
  {
  }

  // ----- runs ---------------------------------------------------------------

  ghost predicate DbLegal(scs: seq<Schema>, cs: seq<Config>, dops: seq<DbOp>)
    requires DbInv(scs, cs)
    decreases |dops|
  {
    dops == [] || (DbEnabled(scs, cs, dops[0])
                   && (StepInv(scs, cs, dops[0]); DbLegal(scs, DbStep(scs, cs, dops[0]), dops[1..])))
  }

  ghost function DbRun(scs: seq<Schema>, cs: seq<Config>, dops: seq<DbOp>): (after: seq<Config>)
    requires DbInv(scs, cs) && DbLegal(scs, cs, dops)
    ensures |after| == |cs|
    decreases |dops|
  {
    if dops == [] then cs
    else
      StepInv(scs, cs, dops[0]);
      DbRun(scs, DbStep(scs, cs, dops[0]), dops[1..])
  }

  lemma StepInv(scs: seq<Schema>, cs: seq<Config>, dop: DbOp)
    requires DbInv(scs, cs) && DbEnabled(scs, cs, dop)
    ensures DbInv(scs, DbStep(scs, cs, dop))
  {
    hide Inv, DbEnabled, DbStep;
    var depth, revision :| At(Tabs(cs), depth, revision);
    DbStepKeeps(scs, cs, dop, depth, revision);
  }

  /** Over every run the tables stay sound and at one revision and depth. */
  lemma {:induction false} DbRunKeeps(scs: seq<Schema>, cs: seq<Config>, dops: seq<DbOp>)
    requires DbInv(scs, cs) && DbLegal(scs, cs, dops)
    ensures DbInv(scs, DbRun(scs, cs, dops))
    decreases |dops|
  {
    hide Inv, Lockstep, DbEnabled, DbStep;
    if dops != [] {
      StepInv(scs, cs, dops[0]);
      DbRunKeeps(scs, DbStep(scs, cs, dops[0]), dops[1..]);
    }
  }

  lemma StepOfOne(scs: seq<Schema>, cs: seq<Config>, dop: DbOp, x: nat)
    requires DbInv(scs, cs) && DbEnabled(scs, cs, dop) && x < |cs|
    ensures OpFor(dop, x).Some? ==> Enabled(scs[x], cs[x], OpFor(dop, x).value)
    ensures DbStep(scs, cs, dop)[x] == StepOf(scs[x], cs[x], OpFor(dop, x))
  {
    hide Inv, Lockstep, StepOf;
  }

  /** Over every run each table does what its part of the run does to it alone. */
  lemma {:induction false} PartRuns(scs: seq<Schema>, cs: seq<Config>, dops: seq<DbOp>, x: nat)
    requires DbInv(scs, cs) && DbLegal(scs, cs, dops) && x < |cs|
    ensures Inv(scs[x], cs[x]) && Legal(scs[x], cs[x], Part(dops, x))
    ensures DbRun(scs, cs, dops)[x] == Run(scs[x], cs[x], Part(dops, x))
    decreases |dops|
  {
    hide Inv, Enabled, Lockstep, DbEnabled, DbStep, Step;
    if dops != [] {
      StepInv(scs, cs, dops[0]);
      StepOfOne(scs, cs, dops[0], x);
      PartRuns(scs, DbStep(scs, cs, dops[0]), dops[1..], x);
      if OpFor(dops[0], x).Some? {
        StepRefines(scs[x], cs[x], OpFor(dops[0], x).value);
        assert Part(dops, x)[1..] == Part(dops[1..], x);
      }
    }
  }

  // ----- undo ---------------------------------------------------------------

  /** How deep the session that was `d` levels in lies after `dop`; 0 once `dop` closed it. */
  function DbDepthAfter(depth: nat, revision: int, dop: DbOp, d: nat): nat
  {
    match dop
    case On(_, _) => d
    case Every(op) => DepthAfter(depth, revision, op, d)
    case UndoEvery(_) => if d == 0 then 0 else d - 1
  }

  /** The session `d` levels in stays open along `dops` and is innermost at the end. */
  predicate DbStaysOpen(depth: nat, revision: int, dops: seq<DbOp>, d: nat)
    decreases |dops|
  {
    && 0 < d
    && if dops == [] then d == 1
       else
         var (depth', revision') := SharedAfter(depth, revision, dops[0]);
         DbStaysOpen(depth', revision', dops[1..], DbDepthAfter(depth, revision, dops[0], d))
  }

  lemma AtOne(ts: seq<Tab>, depth: nat, revision: int, x: nat)
    requires At(ts, depth, revision) && x < |ts|
    ensures Depth(ts[x].undo) == depth && ts[x].revision == revision
  {
  }

  lemma DepthAfterIs(depth: nat, revision: int, dop: DbOp, x: nat, d: nat)
    requires OpFor(dop, x).Some? && (dop.On? ==> ForOne(dop.op))
    ensures DepthAfter(depth, revision, OpFor(dop, x).value, d) == DbDepthAfter(depth, revision, dop, d)
  {
  }

  lemma EnabledKinds(scs: seq<Schema>, cs: seq<Config>, dop: DbOp, x: nat)
    requires DbInv(scs, cs) && DbEnabled(scs, cs, dop) && x < |cs|
    ensures dop.On? ==> ForOne(dop.op)
    ensures OpFor(dop, x).None? ==> dop.On?
  {
    hide Inv, Enabled, Lockstep;
  }

  /** A session open in the database is open in every table. */
  lemma {:induction false} OpenEverywhere(scs: seq<Schema>, cs: seq<Config>, dops: seq<DbOp>, depth: nat, revision: int,
                                          d: nat, x: nat)
    requires DbInv(scs, cs) && DbLegal(scs, cs, dops) && At(Tabs(cs), depth, revision) && x < |cs|
    requires DbStaysOpen(depth, revision, dops, d)
    ensures Inv(scs[x], cs[x]) && Legal(scs[x], cs[x], Part(dops, x))
    ensures StaysOpen(scs[x], cs[x], Part(dops, x), d)
    decreases |dops|
  {
    hide Inv, Enabled, Lockstep, At, DbEnabled, DbStep, Step, OpFor, SharedAfter, DbDepthAfter;
    PartRuns(scs, cs, dops, x);
    if dops != [] {
      var dop, cs' := dops[0], DbStep(scs, cs, dops[0]);
      var (depth', revision') := SharedAfter(depth, revision, dop);
      DbStepKeeps(scs, cs, dop, depth, revision);
      StepOfOne(scs, cs, dop, x);
      EnabledKinds(scs, cs, dop, x);
      AtOne(Tabs(cs), depth, revision, x);
      OpenEverywhere(scs, cs', dops[1..], depth', revision', DbDepthAfter(depth, revision, dop, d), x);
      match OpFor(dop, x)
      case Some(op) =>
        DepthAfterIs(depth, revision, dop, x, d);
        StepRefines(scs[x], cs[x], op);
        assert Part(dops, x)[1..] == Part(dops[1..], x);
      case None =>
        OnKeepsDepth(depth, revision, dop, d);
    }
  }

  lemma OnKeepsDepth(depth: nat, revision: int, dop: DbOp, d: nat)
    requires dop.On?
    ensures DbDepthAfter(depth, revision, dop, d) == d
  {
  }

  /** A session is opened on the database, `dops` run with it open, and it is undone. */
  ghost predicate DbSessionRun(scs: seq<Schema>, cs: seq<Config>, dops: seq<DbOp>, orders: seq<seq<int>>)
    requires DbInv(scs, cs)
  {
    && DbLegal(scs, cs, [Every(StartOp)] + dops + [UndoEvery(orders)])
    && exists depth: nat, revision: int ::
       At(Tabs(cs), depth, revision) && DbStaysOpen(depth + 1, revision + 1, dops, 1)
  }

  lemma {:induction false} DbLegalSplit(scs: seq<Schema>, cs: seq<Config>, a: seq<DbOp>, b: seq<DbOp>)
    requires DbInv(scs, cs) && DbLegal(scs, cs, a + b)
    ensures DbLegal(scs, cs, a) && DbInv(scs, DbRun(scs, cs, a)) && DbLegal(scs, DbRun(scs, cs, a), b)
    ensures DbRun(scs, cs, a + b) == DbRun(scs, DbRun(scs, cs, a), b)
    decreases |a|
  {
    hide DbInv, DbEnabled, DbStep;
    if a == [] {
      assert a + b == b;
    } else {
      assert (a + b)[1..] == a[1..] + b && (a + b)[0] == a[0];
      StepInv(scs, cs, a[0]);
      DbLegalSplit(scs, DbStep(scs, cs, a[0]), a[1..], b);
    }
  }

  lemma StartEverywhere(scs: seq<Schema>, cs: seq<Config>, x: nat)
    requires DbInv(scs, cs) && DbEnabled(scs, cs, Every(StartOp)) && x < |cs|
    ensures Inv(scs[x], cs[x]) && DbStep(scs, cs, Every(StartOp))[x] == Step(scs[x], cs[x], StartOp)
  {
    hide Inv, Lockstep, Step;
  }

  lemma UndoEverywhere(scs: seq<Schema>, cs: seq<Config>, orders: seq<seq<int>>, x: nat)
    requires DbInv(scs, cs) && DbEnabled(scs, cs, UndoEvery(orders)) && x < |cs|
    ensures |orders| == |cs| && Inv(scs[x], cs[x]) && Enabled(scs[x], cs[x], UndoOp(orders[x]))
    ensures DbStep(scs, cs, UndoEvery(orders))[x] == Step(scs[x], cs[x], UndoOp(orders[x]))
  {
    hide Inv, Lockstep, Step;
    assert OpFor(UndoEvery(orders), x) == Some(UndoOp(orders[x]));
  }

  /**
    Undoing a database session puts every table back to the next id, rows, blob
    bytes and revision it had when the session was opened, whatever ran on
    whichever tables in between.
   */
  lemma DbUndoRestores(scs: seq<Schema>, cs: seq<Config>, dops: seq<DbOp>, orders: seq<seq<int>>, x: nat)
    requires DbInv(scs, cs) && DbSessionRun(scs, cs, dops, orders) && x < |cs|
    ensures var after := DbRun(scs, cs, [Every(StartOp)] + dops + [UndoEvery(orders)]);
            && AbsOf(scs[x], after[x]).cur == Copy(scs[x], AbsOf(scs[x], cs[x]).cur)
            && after[x].t.revision == cs[x].t.revision
  {
    hide Inv, Lockstep, At, DbEnabled, DbStep, Step, Enabled, AbsOf, Copy, DbStaysOpen, StaysOpen, Legal, Run;
    var start, undo := [Every(StartOp)], [UndoEvery(orders)];
    DbLegalSplit(scs, cs, start + dops, undo);
    DbLegalSplit(scs, cs, start, dops);
    assert start[1..] == [] && undo[1..] == [];
    var c1 := DbStep(scs, cs, start[0]);
    StepInv(scs, cs, start[0]);
    var c2 := DbRun(scs, c1, dops);
    var depth: nat, revision: int :| At(Tabs(cs), depth, revision) && DbStaysOpen(depth + 1, revision + 1, dops, 1);
    DbStepKeeps(scs, cs, start[0], depth, revision);
    StartEverywhere(scs, cs, x);
    PartRuns(scs, c1, dops, x);
    OpenEverywhere(scs, c1, dops, depth + 1, revision + 1, 1, x);
    UndoEverywhere(scs, c2, orders, x);
    StepInv(scs, c2, undo[0]);
    UndoRestores(scs[x], cs[x], Part(dops, x), orders[x]);
  }

  // ----- joining ------------------------------------------------------------

  /** A new table brought up to the sessions and revision of the others. */
  function Joined(depth: nat, revision: int): Tab
  {
    if depth == 0 then SetRevision(EmptyTab(), revision) else StartSession(Joined(depth - 1, revision - 1))
  }

  /** Adding a table keeps the lockstep: the newcomer is sound, empty, and at the shared revision and depth. */
  lemma {:induction false} TableJoins(sc: Schema, depth: nat, revision: int)
    requires depth <= revision
    ensures var t := Joined(depth, revision);
            && Inv(sc, Config(t, multiset{}))
            && Depth(t.undo) == depth && t.revision == revision
            && t.rows == map[] && t.nextId == 0 && t.blobs == []
    decreases depth
  {
    hide Inv, AbsOf, AbsStep;
    if depth == 0 {
      EmptyInv(sc);
      StepRefines(sc, Config(EmptyTab(), multiset{}), SetRevisionOp(revision));
    } else {
      TableJoins(sc, depth - 1, revision - 1);
      StepRefines(sc, Config(Joined(depth - 1, revision - 1), multiset{}), StartOp);
    }
  }
}
