/** What holds over every run of a table, whatever its callers do. */
module Runs {
  import opened ArenaTypes
  import opened TableSpec
  import opened RowHistory
  import opened BlobSafety
  import opened TableOps
  import opened SessionLevels
  import opened Refinement

  function EmptyTab(): Tab
  {
    Tab(0, map[], [], Bottom, 0, [], [], [], 0)
  }

  lemma EmptyInv(sc: Schema)
    ensures Inv(sc, Config(EmptyTab(), multiset{}))
  {
    assert Spans(sc, CoreOf(EmptyTab()), multiset{}, Bottom) == multiset{};
  }

  /** Every operation of the run meets what callers owe the table. */
  ghost predicate Legal(sc: Schema, c: Config, ops: seq<Op>)
    requires Inv(sc, c)
    decreases |ops|
  {
    ops == [] || (Enabled(sc, c, ops[0]) && (StepRefines(sc, c, ops[0]); Legal(sc, Step(sc, c, ops[0]), ops[1..])))
  }

  ghost function Run(sc: Schema, c: Config, ops: seq<Op>): Config
    requires Inv(sc, c) && Legal(sc, c, ops)
    decreases |ops|
  {
    if ops == [] then c
    else
      StepRefines(sc, c, ops[0]);
      Run(sc, Step(sc, c, ops[0]), ops[1..])
  }

  /** The names the allocator picked along the run. */
  ghost function Names(sc: Schema, c: Config, ops: seq<Op>): (names: seq<BlobRef>)
    requires Inv(sc, c) && Legal(sc, c, ops)
    ensures |names| == |ops|
    decreases |ops|
  {
    if ops == [] then []
    else
      StepRefines(sc, c, ops[0]);
      [Allocated(c.t, ops[0])] + Names(sc, Step(sc, c, ops[0]), ops[1..])
  }

  ghost function AbsRun(sc: Schema, a: Abs, ops: seq<Op>, names: seq<BlobRef>): Abs
    requires |names| == |ops|
    decreases |ops|
  {
    if ops == [] then a else AbsRun(sc, AbsStep(sc, a, ops[0], names[0]), ops[1..], names[1..])
  }

  /** Over every run the table does exactly what the copying store does. */
  lemma {:induction false} RunRefines(sc: Schema, c: Config, ops: seq<Op>)
    requires Inv(sc, c) && Legal(sc, c, ops)
    ensures Inv(sc, Run(sc, c, ops))
    ensures AbsOf(sc, Run(sc, c, ops)) == AbsRun(sc, AbsOf(sc, c), ops, Names(sc, c, ops))
    decreases |ops|
  {
    hide Inv, AbsOf, AbsStep, Step;
    if ops != [] {
      StepRefines(sc, c, ops[0]);
      RunRefines(sc, Step(sc, c, ops[0]), ops[1..]);
    }
  }

  // ----- undo ---------------------------------------------------------------

  lemma NthInnermost<T>(st: Stack<T>, keep: nat, k: nat)
    requires k < keep
    ensures Nth(Innermost(st, keep), k) == Nth(st, k)
  {
  }

  /** How deep the session that was `d` levels in lies after `op`; 0 once `op` closed it. */
  function DepthAfter(depth: nat, revision: int, op: Op, d: nat): nat
  {
    match op
    case StartOp => d + 1
    case UndoOp(_) => if d == 0 then 0 else d - 1
    case SquashOp => if d == 0 then 0 else d - 1
    case CommitOp(r) => if KeptBy(depth, revision, r) < d then 0 else d
    case _ => d
  }

  /** The session `d` levels in stays open along `ops` and is innermost at the end. */
  ghost predicate StaysOpen(sc: Schema, c: Config, ops: seq<Op>, d: nat)
    requires Inv(sc, c) && Legal(sc, c, ops)
    decreases |ops|
  {
    && 0 < d
    && if ops == [] then d == 1
       else
         StepRefines(sc, c, ops[0]);
         StaysOpen(sc, Step(sc, c, ops[0]), ops[1..], DepthAfter(Depth(c.t.undo), c.t.revision, ops[0], d))
  }

  /** No step of the copying store changes a copy that stays open. */
  lemma AbsStepKeepsSaved(sc: Schema, a: Abs, op: Op, r: BlobRef, d: nat)
    requires 0 < d <= Depth(a.saved) && 0 < DepthAfter(Depth(a.saved), a.revision, op, d)
    ensures var a', d' := AbsStep(sc, a, op, r), DepthAfter(Depth(a.saved), a.revision, op, d);
            && d' <= Depth(a'.saved)
            && Nth(a'.saved, d' - 1) == Nth(a.saved, d - 1)
            && a'.revision - d' == a.revision - d
  {
    if op.CommitOp? {
      NthInnermost(a.saved, KeptBy(Depth(a.saved), a.revision, op.revision), d - 1);
      InnermostDepth(a.saved, KeptBy(Depth(a.saved), a.revision, op.revision));
    }
  }

  lemma StepKeepsSaved(sc: Schema, c: Config, op: Op, d: nat)
    requires Inv(sc, c) && Enabled(sc, c, op)
    requires 0 < d <= Depth(c.t.undo) && 0 < DepthAfter(Depth(c.t.undo), c.t.revision, op, d)
    ensures var c', d' := Step(sc, c, op), DepthAfter(Depth(c.t.undo), c.t.revision, op, d);
            && Inv(sc, c') && d' <= Depth(c'.t.undo)
            && Nth(AbsOf(sc, c').saved, d' - 1) == Nth(AbsOf(sc, c).saved, d - 1)
            && c'.t.revision - d' == c.t.revision - d
  {
    hide Inv, Saved, Observe, Step, Enabled, AbsStep;
    StepRefines(sc, c, op);
    SavedDepth(sc, CoreOf(c.t), c.t.undo);
    SavedDepth(sc, CoreOf(Step(sc, c, op).t), Step(sc, c, op).t.undo);
    AbsStepKeepsSaved(sc, AbsOf(sc, c), op, Allocated(c.t, op), d);
  }

  lemma {:induction false} RunKeepsSaved(sc: Schema, c: Config, ops: seq<Op>, d: nat)
    requires Inv(sc, c) && Legal(sc, c, ops) && d <= Depth(c.t.undo) && StaysOpen(sc, c, ops, d)
    ensures var c' := Run(sc, c, ops);
            && Inv(sc, c') && c'.t.undo.Push?
            && Nth(AbsOf(sc, c').saved, 0) == Nth(AbsOf(sc, c).saved, d - 1)
            && c'.t.revision - 1 == c.t.revision - d
    decreases |ops|
  {
    hide Inv, AbsOf, Step, Enabled, DepthAfter;
    if ops != [] {
      var c', d' := Step(sc, c, ops[0]), DepthAfter(Depth(c.t.undo), c.t.revision, ops[0], d);
      StepRefines(sc, c, ops[0]);
      StillOpen(sc, c, ops, d);
      StepKeepsSaved(sc, c, ops[0], d);
      RunKeepsSaved(sc, c', ops[1..], d');
    }
  }

  lemma StillOpen(sc: Schema, c: Config, ops: seq<Op>, d: nat)
    requires Inv(sc, c) && Legal(sc, c, ops) && ops != [] && StaysOpen(sc, c, ops, d)
    ensures var c', d' := Step(sc, c, ops[0]), DepthAfter(Depth(c.t.undo), c.t.revision, ops[0], d);
            && Inv(sc, c') && Legal(sc, c', ops[1..])
            && StaysOpen(sc, c', ops[1..], d') && 0 < d'
  {
    hide Inv, Step, Enabled, DepthAfter;
    StepRefines(sc, c, ops[0]);
  }

  /** A session is opened, `ops` run with it open, and it is undone. */
  ghost predicate SessionRun(sc: Schema, c: Config, ops: seq<Op>, order: seq<int>)
    requires Inv(sc, c)
  {
    StepRefines(sc, c, StartOp);
    var c1 := Step(sc, c, StartOp);
    && Legal(sc, c1, ops)
    && StaysOpen(sc, c1, ops, 1)
    && Enabled(sc, Run(sc, c1, ops), UndoOp(order))
  }

  ghost function Undone(sc: Schema, c: Config, ops: seq<Op>, order: seq<int>): Config
    requires Inv(sc, c) && SessionRun(sc, c, ops, order)
  {
    StepRefines(sc, c, StartOp);
    RunRefines(sc, Step(sc, c, StartOp), ops);
    Step(sc, Run(sc, Step(sc, c, StartOp), ops), UndoOp(order))
  }

  /**
    Undo puts back exactly the next id, rows and blob bytes there were when its
    session started, and the revision, whatever happened in between: changes,
    span reuse, nested sessions, commits of older sessions.
   */
  lemma UndoRestores(sc: Schema, c: Config, ops: seq<Op>, order: seq<int>)
    requires Inv(sc, c) && SessionRun(sc, c, ops, order)
    ensures Inv(sc, Undone(sc, c, ops, order))
    ensures AbsOf(sc, Undone(sc, c, ops, order)).cur == Copy(sc, AbsOf(sc, c).cur)
    ensures Undone(sc, c, ops, order).t.revision == c.t.revision
  {
    hide Inv, Saved, Observe, Copy, Step, AbsStep;
    StepRefines(sc, c, StartOp);
    var c1 := Step(sc, c, StartOp);
    var c2 := Run(sc, c1, ops);
    StartSaves(sc, AbsOf(sc, c));
    SavedDepth(sc, CoreOf(c1.t), c1.t.undo);
    RunKeepsSaved(sc, c1, ops, 1);
    hide Run, Legal, StaysOpen;
    StepRefines(sc, c2, UndoOp(order));
    SavedDepth(sc, CoreOf(c2.t), c2.t.undo);
    UndoReturns(sc, AbsOf(sc, c2), order);
  }

  lemma StartSaves(sc: Schema, a: Abs)
    ensures var a' := AbsStep(sc, a, StartOp, BlobRef(0, 0));
            Depth(a'.saved) >= 1 && Nth(a'.saved, 0) == Some(Copy(sc, a.cur)) && a'.revision == a.revision + 1
  {
  }

  lemma UndoReturns(sc: Schema, a: Abs, order: seq<int>)
    requires Depth(a.saved) >= 1
    ensures var a' := AbsStep(sc, a, UndoOp(order), BlobRef(0, 0));
            Some(a'.cur) == Nth(a.saved, 0) && a'.revision == a.revision - 1
  {
  }

  // ----- spans --------------------------------------------------------------

  /** The state that undoing the `k` innermost sessions leads to. */
  function Level(core: Core, st: Stack<Session>, k: nat): Core
    requires k <= Depth(st)
    decreases k
  {
    if k == 0 then core else Level(Back(core, st.top), st.below, k - 1)
  }

  /** A free span overlaps no blob of a row, live now or brought back by undoing any number of sessions. */
  lemma {:induction false} FreeNeverReachable(sc: Schema, core: Core, held: multiset<BlobRef>, st: Stack<Session>,
                           patches: seq<BlobRef>, flushed: nat, k: nat, id: int, a: BlobRef, r: BlobRef)
    requires BlobStack(sc, core, held, st, patches, flushed)
    requires k <= Depth(st) && id in Level(core, st, k).rows && a in sc.refs(Level(core, st, k).rows[id])
    requires r in core.free
    ensures Apart(r, a)
    decreases k
  {
    if k == 0 {
      RefsOfContains(sc, core.rows, id);
      FreeApart(sc, core, held, st, patches, flushed, r, a);
    } else {
      FreeNeverReachable(sc, Back(core, st.top), multiset{}, st.below, patches, flushed, k - 1, id, a, r);
    }
  }

  lemma FreeDistinct(free: seq<BlobRef>, m: multiset<BlobRef>, i: nat, j: nat)
    requires i < j < |free| && multiset(free) <= m
    requires forall a :: a in m ==> m[a] == 1
    requires forall a, b :: a in m && b in m && a != b ==> Apart(a, b)
    ensures Apart(free[i], free[j])
  {
    assert free == free[..i] + [free[i]] + free[i + 1..j] + [free[j]] + free[j + 1..];
    assert multiset(free)[free[i]] <= m[free[i]];
  }

  lemma FreeApartInList(sc: Schema, c: Config, i: nat, j: nat)
    requires Inv(sc, c) && i < j < |c.t.free|
    ensures Apart(c.t.free[i], c.t.free[j])
  {
    FreeDistinct(c.t.free, Spans(sc, CoreOf(c.t), c.held, c.t.undo), i, j);
  }
}
