/**
  A database run refines a stack of copies: what is visible in all the tables
  now, and one copy of all of it for each open session.
 */
module DbRefinement {
  import opened ArenaTypes
  import opened TableSpec
  import opened BlobSafety
  import opened TableOps
  import opened SessionLevels
  import opened Refinement
  import opened Runs
  import opened DbLifecycle

  // ----- stacks of the same depth as one stack ------------------------------

  ghost predicate SameDepth<T>(stacks: seq<Stack<T>>, depth: nat)
  {
    forall x :: 0 <= x < |stacks| ==> Depth(stacks[x]) == depth
  }

  function Tops<T>(stacks: seq<Stack<T>>): (tops: seq<T>)
    requires forall x :: 0 <= x < |stacks| ==> stacks[x].Push?
    ensures |tops| == |stacks| && forall x :: 0 <= x < |stacks| ==> tops[x] == stacks[x].top
  {
    seq(|stacks|, x requires 0 <= x < |stacks| => stacks[x].top)
  }

  function Belows<T>(stacks: seq<Stack<T>>): (belows: seq<Stack<T>>)
    requires forall x :: 0 <= x < |stacks| ==> stacks[x].Push?
    ensures |belows| == |stacks| && forall x :: 0 <= x < |stacks| ==> belows[x] == stacks[x].below
  {
    seq(|stacks|, x requires 0 <= x < |stacks| => stacks[x].below)
  }

  /** One stack whose entries are the rows of entries of `stacks`. */
  ghost function Zip<T>(stacks: seq<Stack<T>>, depth: nat): (st: Stack<seq<T>>)
    requires SameDepth(stacks, depth)
    ensures Depth(st) == depth
    decreases depth
  {
    if depth == 0 then Bottom else Push(Tops(stacks), Zip(Belows(stacks), depth - 1))
  }

  lemma {:induction false} ZipInnermost<T>(stacks: seq<Stack<T>>, kept: seq<Stack<T>>, depth: nat, keep: nat)
    requires SameDepth(stacks, depth) && keep <= depth && |kept| == |stacks|
    requires forall x :: 0 <= x < |stacks| ==> kept[x] == Innermost(stacks[x], keep)
    ensures SameDepth(kept, keep) && Zip(kept, keep) == Innermost(Zip(stacks, depth), keep)
    decreases depth
  {
    forall x | 0 <= x < |kept| ensures Depth(kept[x]) == keep {
      InnermostDepth(stacks[x], keep);
    }
    if keep > 0 {
      ZipInnermost(Belows(stacks), Belows(kept), depth - 1, keep - 1);
      assert Tops(kept) == Tops(stacks);
    }
  }

  // ----- the copying database -----------------------------------------------

  /** What is visible in every table, and a copy of that for each open session. */
  datatype DbAbs = DbAbs(cur: seq<Obs>, saved: Stack<seq<Obs>>, revision: int)

  ghost function CopyAll(scs: seq<Schema>, cur: seq<Obs>): (copies: seq<Obs>)
    requires |scs| == |cur|
    ensures |copies| == |cur| && forall x :: 0 <= x < |cur| ==> copies[x] == Copy(scs[x], cur[x])
  {
    seq(|cur|, x requires 0 <= x < |cur| => Copy(scs[x], cur[x]))
  }

  /** One step of the copying database; `name` is the blob name the allocator picked, if it was asked. */
  ghost function DbAbsStep(scs: seq<Schema>, a: DbAbs, dop: DbOp, name: BlobRef): DbAbs
    requires |scs| == |a.cur| && (dop.On? ==> dop.x < |a.cur|)
  {
    match dop
    case On(x, op) => a.(cur := a.cur[x := AbsStep(scs[x], Abs(a.cur[x], Bottom, 0), op, name).cur])
    case UndoEvery(_) => if a.saved.Bottom? then a else DbAbs(a.saved.top, a.saved.below, a.revision - 1)
    case Every(op) =>
      match op
      case StartOp => a.(saved := Push(CopyAll(scs, a.cur), a.saved), revision := a.revision + 1)
      case SquashOp => if a.saved.Bottom? then a else a.(saved := a.saved.below, revision := a.revision - 1)
      case CommitOp(revision) => a.(saved := Innermost(a.saved, KeptBy(Depth(a.saved), a.revision, revision)))
      case SetRevisionOp(revision) => if a.saved.Bottom? && a.revision <= revision then a.(revision := revision) else a
      case _ => a
  }

  // ----- from the tables to the copying database ----------------------------

  ghost function AbsAll(scs: seq<Schema>, cs: seq<Config>): (abss: seq<Abs>)
    requires |scs| == |cs|
    ensures |abss| == |cs| && forall x :: 0 <= x < |cs| ==> abss[x] == AbsOf(scs[x], cs[x])
  {
    seq(|cs|, x requires 0 <= x < |cs| => AbsOf(scs[x], cs[x]))
  }

  ghost predicate Level(abss: seq<Abs>, depth: nat, revision: int)
  {
    forall x :: 0 <= x < |abss| ==> Depth(abss[x].saved) == depth && abss[x].revision == revision
  }

  function Curs(abss: seq<Abs>): (curs: seq<Obs>)
    ensures |curs| == |abss| && forall x :: 0 <= x < |abss| ==> curs[x] == abss[x].cur
  {
    seq(|abss|, x requires 0 <= x < |abss| => abss[x].cur)
  }

  function Saveds(abss: seq<Abs>): (stacks: seq<Stack<Obs>>)
    ensures |stacks| == |abss| && forall x :: 0 <= x < |abss| ==> stacks[x] == abss[x].saved
  {
    seq(|abss|, x requires 0 <= x < |abss| => abss[x].saved)
  }

  ghost function Together(abss: seq<Abs>, depth: nat, revision: int): DbAbs
    requires Level(abss, depth, revision)
  {
    DbAbs(Curs(abss), Zip(Saveds(abss), depth), revision)
  }

  lemma LevelOf(scs: seq<Schema>, cs: seq<Config>, depth: nat, revision: int)
    requires |scs| == |cs| && At(Tabs(cs), depth, revision)
    ensures Level(AbsAll(scs, cs), depth, revision)
  {
    forall x | 0 <= x < |cs|
      ensures Depth(AbsOf(scs[x], cs[x]).saved) == depth && AbsOf(scs[x], cs[x]).revision == revision
    {
      assert Tabs(cs)[x] == cs[x].t;
      SavedDepth(scs[x], CoreOf(cs[x].t), cs[x].t.undo);
    }
  }

  /** The copying database that the tables stand for, at their shared depth and revision. */
  ghost function DbAbsOf(scs: seq<Schema>, cs: seq<Config>, depth: nat, revision: int): (a: DbAbs)
    requires |scs| == |cs| && At(Tabs(cs), depth, revision)
    ensures |a.cur| == |cs| && Depth(a.saved) == depth && a.revision == revision
  {
    LevelOf(scs, cs, depth, revision);
    Together(AbsAll(scs, cs), depth, revision)
  }

  // ----- one step -----------------------------------------------------------

  /** Every table took the step of the copying store that `dop` makes it take. */
  ghost predicate AllStepped(scs: seq<Schema>, was: seq<Abs>, now: seq<Abs>, dop: DbOp, name: BlobRef)
  {
    && |scs| == |was| == |now|
    && forall x: nat :: x < |was| ==>
         now[x] == match OpFor(dop, x) case None => was[x] case Some(op) => AbsStep(scs[x], was[x], op, name)
  }

  lemma OneSteps(scs: seq<Schema>, was: seq<Abs>, now: seq<Abs>, dop: DbOp, name: BlobRef, depth: nat, revision: int)
    requires Level(was, depth, revision) && AllStepped(scs, was, now, dop, name) && dop.On? && ForOne(dop.op)
    requires dop.x < |was|
    ensures Level(now, depth, revision)
    ensures Together(now, depth, revision) == DbAbsStep(scs, Together(was, depth, revision), dop, name)
  {
    hide Zip;
    forall x: nat | x < |was|
        ensures now[x] == was[x].(cur := if x == dop.x
                                  then AbsStep(scs[x], Abs(was[x].cur, Bottom, 0), dop.op, name).cur else was[x].cur) {
    }
    assert Saveds(now) == Saveds(was);
    assert Curs(now) == Curs(was)[dop.x := now[dop.x].cur];
  }

  lemma StartSteps(scs: seq<Schema>, was: seq<Abs>, now: seq<Abs>, name: BlobRef, depth: nat, revision: int)
    requires Level(was, depth, revision) && AllStepped(scs, was, now, Every(StartOp), name)
    ensures Level(now, depth + 1, revision + 1)
    ensures Together(now, depth + 1, revision + 1)
            == DbAbsStep(scs, Together(was, depth, revision), Every(StartOp), name)
  {
    forall x: nat | x < |was|
      ensures now[x] == Abs(was[x].cur, Push(Copy(scs[x], was[x].cur), was[x].saved), revision + 1)
    {
    }
    assert Curs(now) == Curs(was);
    assert Tops(Saveds(now)) == CopyAll(scs, Curs(was));
    assert Belows(Saveds(now)) == Saveds(was);
  }

  lemma UndoSteps(scs: seq<Schema>, was: seq<Abs>, now: seq<Abs>, dop: DbOp, name: BlobRef, depth: nat, revision: int)
    requires Level(was, depth, revision) && AllStepped(scs, was, now, dop, name) && dop.UndoEvery?
    requires |dop.orders| == |was|
    ensures var (depth', revision') := SharedAfter(depth, revision, dop);
            Level(now, depth', revision') && Together(now, depth', revision')
                == DbAbsStep(scs, Together(was, depth, revision), dop, name)
  {
    forall x: nat | x < |was|
      ensures now[x] == if depth == 0 then was[x] else Abs(was[x].saved.top, was[x].saved.below, revision - 1)
    {
    }
    if depth == 0 {
      assert now == was;
    } else {
      assert Curs(now) == Tops(Saveds(was));
      assert Belows(Saveds(was)) == Saveds(now);
    }
  }

  lemma SquashSteps(scs: seq<Schema>, was: seq<Abs>, now: seq<Abs>, name: BlobRef, depth: nat, revision: int)
    requires Level(was, depth, revision) && AllStepped(scs, was, now, Every(SquashOp), name)
    ensures var (depth', revision') := SharedAfter(depth, revision, Every(SquashOp));
            Level(now, depth', revision') && Together(now, depth', revision')
                == DbAbsStep(scs, Together(was, depth, revision), Every(SquashOp), name)
  {
    forall x: nat | x < |was|
      ensures now[x] == if depth == 0 then was[x] else was[x].(saved := was[x].saved.below, revision := revision - 1)
    {
    }
    if depth == 0 {
      assert now == was;
    } else {
      assert Curs(now) == Curs(was);
      assert Belows(Saveds(was)) == Saveds(now);
    }
  }

  lemma CommitSteps(scs: seq<Schema>, was: seq<Abs>, now: seq<Abs>, upTo: int, name: BlobRef, depth: nat, revision: int)
    requires Level(was, depth, revision) && AllStepped(scs, was, now, Every(CommitOp(upTo)), name)
    ensures var (depth', revision') := SharedAfter(depth, revision, Every(CommitOp(upTo)));
            Level(now, depth', revision') && Together(now, depth', revision')
                == DbAbsStep(scs, Together(was, depth, revision), Every(CommitOp(upTo)), name)
  {
    var keep := KeptBy(depth, revision, upTo);
    forall x: nat | x < |was| ensures now[x] == was[x].(saved := Innermost(was[x].saved, keep)) {
    }
    assert Curs(now) == Curs(was);
    ZipInnermost(Saveds(was), Saveds(now), depth, keep);
    forall x | 0 <= x < |now| ensures Depth(now[x].saved) == keep {
      assert Saveds(now)[x] == now[x].saved;
    }
  }

  lemma QuietSteps(scs: seq<Schema>, was: seq<Abs>, now: seq<Abs>, dop: DbOp, name: BlobRef, depth: nat, revision: int)
    requires Level(was, depth, revision) && AllStepped(scs, was, now, dop, name) && dop.Every?
    requires dop.op.SetRevisionOp? || dop.op.FlushOp?
    ensures var (depth', revision') := SharedAfter(depth, revision, dop);
            Level(now, depth', revision') && Together(now, depth', revision')
                == DbAbsStep(scs, Together(was, depth, revision), dop, name)
  {
    forall x: nat | x < |was| ensures now[x] == was[x].(revision := SharedAfter(depth, revision, dop).1) {
    }
    assert Curs(now) == Curs(was) && Saveds(now) == Saveds(was);
  }

  ghost predicate Fits(n: nat, dop: DbOp)
  {
    && (dop.On? ==> ForOne(dop.op) && dop.x < n)
    && (dop.Every? ==> ForEvery(dop.op))
    && (dop.UndoEvery? ==> |dop.orders| == n)
  }

  lemma StepsTogether(scs: seq<Schema>, was: seq<Abs>, now: seq<Abs>, dop: DbOp, name: BlobRef, depth: nat,
                      revision: int)
    requires Level(was, depth, revision) && AllStepped(scs, was, now, dop, name) && Fits(|was|, dop)
    ensures var (depth', revision') := SharedAfter(depth, revision, dop);
            Level(now, depth', revision') && Together(now, depth', revision')
                == DbAbsStep(scs, Together(was, depth, revision), dop, name)
  {
    hide Level, AllStepped, Together, DbAbsStep;
    match dop
    case On(_, _) => OneSteps(scs, was, now, dop, name, depth, revision);
    case UndoEvery(_) => UndoSteps(scs, was, now, dop, name, depth, revision);
    case Every(op) =>
      match op
      case StartOp => StartSteps(scs, was, now, name, depth, revision);
      case SquashOp => SquashSteps(scs, was, now, name, depth, revision);
      case CommitOp(upTo) => CommitSteps(scs, was, now, upTo, name, depth, revision);
      case _ => QuietSteps(scs, was, now, dop, name, depth, revision);
  }

  /** The blob name a database operation's allocation returns. */
  function AllocatedBy(cs: seq<Config>, dop: DbOp): BlobRef
  {
    if dop.On? && dop.x < |cs| then Allocated(cs[dop.x].t, dop.op) else BlobRef(0, 0)
  }

  /** Every database operation does what the copying database does. */
  lemma DbStepRefines(scs: seq<Schema>, cs: seq<Config>, dop: DbOp, depth: nat, revision: int)
    requires DbInv(scs, cs) && DbEnabled(scs, cs, dop) && At(Tabs(cs), depth, revision)
    ensures var cs', (depth', revision') := DbStep(scs, cs, dop), SharedAfter(depth, revision, dop);
            && DbInv(scs, cs') && At(Tabs(cs'), depth', revision')
            && (dop.On? ==> dop.x < |cs|)
            && DbAbsOf(scs, cs', depth', revision')
               == DbAbsStep(scs, DbAbsOf(scs, cs, depth, revision), dop, AllocatedBy(cs, dop))
  {
    hide Inv, Enabled, At, DbStep, AbsStep, AbsOf, Level, Together, DbAbsStep, SharedAfter;
    var cs', name := DbStep(scs, cs, dop), AllocatedBy(cs, dop);
    DbStepKeeps(scs, cs, dop, depth, revision);
    var was, now := AbsAll(scs, cs), AbsAll(scs, cs');
    LevelOf(scs, cs, depth, revision);
    forall x: nat | x < |cs|
      ensures now[x] == match OpFor(dop, x) case None => was[x] case Some(op) => AbsStep(scs[x], was[x], op, name)
    {
      StepOfOne(scs, cs, dop, x);
      TableSteps(scs[x], cs[x], dop, x, cs);
    }
    StepsTogether(scs, was, now, dop, name, depth, revision);
  }

  lemma TableSteps(sc: Schema, c: Config, dop: DbOp, x: nat, cs: seq<Config>)
    requires Inv(sc, c) && (OpFor(dop, x).Some? ==> Enabled(sc, c, OpFor(dop, x).value)) && x < |cs| && cs[x] == c
    requires dop.Every? ==> ForEvery(dop.op)
    ensures AbsOf(sc, StepOf(sc, c, OpFor(dop, x))) ==
            match OpFor(dop, x)
            case None => AbsOf(sc, c)
            case Some(op) => AbsStep(sc, AbsOf(sc, c), op, AllocatedBy(cs, dop))
  {
    hide Inv, Enabled, Step, AbsOf;
    match OpFor(dop, x)
    case None =>
    case Some(op) =>
      StepRefines(sc, c, op);
  }

  // ----- runs ---------------------------------------------------------------

  /** The blob names the allocators picked along the run. */
  ghost function DbNames(scs: seq<Schema>, cs: seq<Config>, dops: seq<DbOp>): (names: seq<BlobRef>)
    requires DbInv(scs, cs) && DbLegal(scs, cs, dops)
    ensures |names| == |dops|
    decreases |dops|
  {
    if dops == [] then []
    else
      StepInv(scs, cs, dops[0]);
      [AllocatedBy(cs, dops[0])] + DbNames(scs, DbStep(scs, cs, dops[0]), dops[1..])
  }

  /** The run as the copying database makes it. */
  ghost predicate AbsRuns(scs: seq<Schema>, a: DbAbs, dops: seq<DbOp>, names: seq<BlobRef>, after: DbAbs)
    requires |names| == |dops|
    decreases |dops|
  {
    if dops == [] then after == a
    else
      && |scs| == |a.cur| && (dops[0].On? ==> dops[0].x < |a.cur|)
      && AbsRuns(scs, DbAbsStep(scs, a, dops[0], names[0]), dops[1..], names[1..], after)
  }

  /** Over every run the database does exactly what a stack of copies of all its tables does. */
  lemma {:induction false} DbRunRefines(scs: seq<Schema>, cs: seq<Config>, dops: seq<DbOp>, depth: nat, revision: int)
    returns (depth': nat, revision': int)
    requires DbInv(scs, cs) && DbLegal(scs, cs, dops) && At(Tabs(cs), depth, revision)
    ensures DbInv(scs, DbRun(scs, cs, dops)) && At(Tabs(DbRun(scs, cs, dops)), depth', revision')
    ensures AbsRuns(scs, DbAbsOf(scs, cs, depth, revision), dops, DbNames(scs, cs, dops),
                    DbAbsOf(scs, DbRun(scs, cs, dops), depth', revision'))
    decreases |dops|
  {
    hide Inv, At, DbEnabled, DbStep, DbAbsOf, DbAbsStep, SharedAfter;
    depth', revision' := depth, revision;
    if dops != [] {
      DbStepRefines(scs, cs, dops[0], depth, revision);
      var cs' := DbStep(scs, cs, dops[0]);
      var shared := SharedAfter(depth, revision, dops[0]);
      depth', revision' := DbRunRefines(scs, cs', dops[1..], shared.0, shared.1);
    }
  }
}
