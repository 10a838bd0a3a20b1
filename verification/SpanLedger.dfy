/**
  No span is ever lost. The ledger of a table lists, for now and for each state an
  open session would bring back, every span that is named by a row, held by a
  caller, free, or waiting for a session to end. Each operation leaves it as it is,
  except that an allocation which finds no free span of its length adds one.
 */
module SpanLedger {
  import opened ArenaTypes
  import opened TableSpec
  import opened RowHistory
  import opened BlobSafety
  import opened TableOps
  import opened SessionLevels
  import opened SessionLaws
  import opened Refinement
  import opened Runs
  import SessionLogs

  datatype Ledger = Ledger(now: multiset<BlobRef>, saved: Stack<multiset<BlobRef>>)

  /** The spans of the rows, free spans and spans waiting, after undoing each open session. */
  ghost function SavedLedger(sc: Schema, rows: Rows, free: multiset<BlobRef>, st: Stack<Session>)
    : Stack<multiset<BlobRef>>
    decreases st
  {
    match st
    case Bottom => Bottom
    case Push(s, below) =>
      var was, back := Restore(s, rows), free + multiset(s.reused);
      Push(RefsOf(sc, was) + (back + Freed(below)), SavedLedger(sc, was, back, below))
  }

  ghost function LedgerOf(sc: Schema, c: Config): Ledger
  {
    Ledger(Spans(sc, CoreOf(c.t), c.held, c.t.undo), SavedLedger(sc, c.t.rows, multiset(c.t.free), c.t.undo))
  }

  /** The span an operation adds at the end of the arena: none when a free span of the length is there. */
  ghost function Grown(t: Tab, op: Op): multiset<BlobRef>
  {
    match op
    case AllocOp(bytes) => GrownBy(t, bytes)
    case RewriteOp(_, was, bytes, _) => GrownBy(FreeBlob(t, was), bytes)
    case _ => multiset{}
  }

  ghost function GrownBy(t: Tab, bytes: seq<Byte>): multiset<BlobRef>
  {
    if bytes == [] || HasFree(t, |bytes|) then multiset{} else multiset{BlobRef(|t.blobs|, |bytes|)}
  }

  /** What an operation does to the ledger. */
  ghost function Entered(l: Ledger, c: Config, op: Op): Ledger
  {
    match op
    case StartOp => l.(saved := Push(l.now - c.held, l.saved))
    case UndoOp(_) => if l.saved.Bottom? then l else Ledger(l.saved.top, l.saved.below)
    case SquashOp => if l.saved.Bottom? then l else l.(saved := l.saved.below)
    case CommitOp(upTo) => l.(saved := Innermost(l.saved, KeptBy(Depth(c.t.undo), c.t.revision, upTo)))
    case _ => l.(now := l.now + Grown(c.t, op))
  }

  ghost predicate Balances(sc: Schema, c: Config, c': Config, grown: multiset<BlobRef>)
  {
    LedgerOf(sc, c') == LedgerOf(sc, c).(now := LedgerOf(sc, c).now + grown)
  }

  lemma RowsMovedBalance(sc: Schema, c: Config, c': Config)
    requires OnlyRowsMoved(sc, c, c')
    ensures Balances(sc, c, c', multiset{})
  {
    hide RefsOf, Restore;
  }

  lemma FreeBalances(sc: Schema, c: Config, r: BlobRef)
    requires r in c.held && 0 < r.len
    ensures Balances(sc, c, Config(FreeBlob(c.t, r), c.held - multiset{r}), multiset{})
  {
    hide RefsOf, Spans;
    SpansAfterFree(sc, c, r);
    if c.t.undo.Push? {
      var s := c.t.undo.top;
      assert Restore(s.(freed := s.freed + [r]), c.t.rows) == Restore(s, c.t.rows);
    }
  }

  lemma AppendBalances(sc: Schema, c: Config, bytes: seq<Byte>)
    requires |c.t.blobs| + |bytes| < U32
    ensures var r := BlobRef(|c.t.blobs|, |bytes|);
            Balances(sc, c, Config(c.t.(blobs := c.t.blobs + bytes), c.held + multiset{r}), multiset{r})
  {
    hide RefsOf, Freed, SavedLedger;
    var r := BlobRef(|c.t.blobs|, |bytes|);
    MoreOwned(RefsOf(sc, c.t.rows), c.held, Spare(multiset(c.t.free), c.t.undo), r);
  }

  lemma MoreOwned(refs: multiset<BlobRef>, held: multiset<BlobRef>, spare: multiset<BlobRef>, r: BlobRef)
    ensures refs + (held + multiset{r}) + spare == refs + held + spare + multiset{r}
  {
  }

  lemma ReuseBalances(sc: Schema, c: Config, i: nat, bytes: seq<Byte>)
    requires i < |c.t.free| && |bytes| == c.t.free[i].len && c.t.free[i].off + |bytes| <= |c.t.blobs|
    ensures Balances(sc, c, Config(Reuse(c.t, i, bytes), c.held + multiset{c.t.free[i]}), multiset{})
  {
    hide RefsOf, Write;
    var t, r := c.t, c.t.free[i];
    MultisetRemoveAt(t.free, i);
    TakeMoves(RefsOf(sc, t.rows), c.held, multiset(t.free), Freed(t.undo), r);
    if t.undo.Push? {
      var s := t.undo.top;
      TakeBack(multiset(t.free), s.reused, r);
      assert Restore(s.(reused := s.reused + [r]), t.rows) == Restore(s, t.rows);
    }
  }

  lemma AllocBalances(sc: Schema, c: Config, bytes: seq<Byte>)
    requires FreeInside(c.t) && |c.t.blobs| + |bytes| < U32
    ensures Balances(sc, c, Config(Alloc(c.t, bytes), c.held + Single(AllocRef(c.t, bytes))), GrownBy(c.t, bytes))
  {
    hide LedgerOf, Reuse;
    if bytes == [] {
      assert c.held + Single(AllocRef(c.t, bytes)) == c.held;
      NothingGrown(LedgerOf(sc, c));
    } else {
      match FindFree(c.t.free, |bytes|)
      case Some(i) =>
        assert c.t.free[i] in c.t.free && HasFree(c.t, |bytes|);
        ReuseBalances(sc, c, i, bytes);
      case None => AppendBalances(sc, c, bytes);
    }
  }

  lemma NothingGrown(l: Ledger)
    ensures l.(now := l.now + multiset{}) == l
  {
  }

  // ----- release, allocate and modify in one step ---------------------------

  lemma SameGrown(t: Tab, was: BlobRef, bytes: seq<Byte>)
    requires t.undo.Push? || was.len == 0 || bytes == [] || |bytes| != was.len
    ensures GrownBy(FreeBlob(t, was), bytes) == GrownBy(t, bytes)
  {
    var t' := FreeBlob(t, was);
    if HasFree(t, |bytes|) {
      var i :| 0 <= i < |t.free| && t.free[i].len == |bytes|;
      assert t'.free[i] == t.free[i];
    }
    if bytes != [] && HasFree(t', |bytes|) {
      var i :| 0 <= i < |t'.free| && t'.free[i].len == |bytes|;
      assert t'.free[i] == t.free[i];
    }
  }

  lemma RewriteElsewhereBalances(sc: Schema, c: Config, id: int, was: BlobRef, bytes: seq<Byte>, updated: Row)
    requires Inv(sc, c) && Enabled(sc, c, RewriteOp(id, was, bytes, updated))
    requires FreeInside(c.t) && FreeInside(FreeBlob(c.t, was))
    requires c.t.undo.Push? || was.len == 0 || bytes == [] || |bytes| != was.len
    ensures Balances(sc, c, Config(Modify(sc, Alloc(FreeBlob(c.t, was), bytes), id, updated), c.held),
                     GrownBy(c.t, bytes))
  {
    hide Inv, LedgerOf, FreeInside, Alloc, AllocRef, Modify, AbsOf, Conflict, OnlyRowsMoved, GrownBy;
    var t, r := c.t, AllocRef(c.t, bytes);
    AllocCommutes(t, was, bytes);
    AllocRefines(sc, c, bytes);
    AllocBalances(sc, c, bytes);
    AllocKeepsRest(sc, t, bytes, id, updated);
    var c1 := Config(Alloc(t, bytes), c.held + Single(r));
    ModifyCommutes(sc, c1.t, id, was, updated);
    RewriteEnables(sc.refs(t.rows[id]), c.held, Single(was), Single(r));
    ModifyRefines(sc, c1, id, updated);
    var c2 := Config(Modify(sc, c1.t, id, updated), c.held + Single(was));
    RowsMovedBalance(sc, c1, c2);
    if was.len != 0 {
      assert was in Single(was);
      assert c2.held - multiset{was} == c.held;
      FreeBalances(sc, c2, was);
    } else {
      assert c2.held == c.held && FreeBlob(c2.t, was) == c2.t;
    }
  }

  lemma OverwriteBalances(sc: Schema, c: Config, r: BlobRef, bytes: seq<Byte>)
    requires r.off + |bytes| <= |c.t.blobs|
    ensures Balances(sc, c, Config(Overwrite(c.t, r, bytes), c.held), multiset{})
  {
    hide RefsOf, Write;
  }

  lemma RewriteInPlaceBalances(sc: Schema, c: Config, id: int, was: BlobRef, bytes: seq<Byte>, updated: Row)
    requires Inv(sc, c) && Enabled(sc, c, RewriteOp(id, was, bytes, updated))
    requires FreeInside(FreeBlob(c.t, was)) && c.t.undo.Bottom? && bytes != [] && |bytes| == was.len
    ensures Balances(sc, c, Config(Modify(sc, Alloc(FreeBlob(c.t, was), bytes), id, updated), c.held), multiset{})
    ensures GrownBy(FreeBlob(c.t, was), bytes) == multiset{}
  {
    hide Inv, LedgerOf, RefsOf, AbsOf, Conflict, OnlyRowsMoved, FreeInside, Alloc, Write;
    var t, refs := c.t, sc.refs(c.t.rows[id]);
    assert FreeBlob(t, was).free[|t.free|] == was;
    ReallocInPlace(t, was, bytes);
    assert was in Single(was);
    assert refs - Single(was) + Single(was) == refs by { SwapSame(refs, was); }
    RefsOfContains(sc, t.rows, id);
    OverwriteRefines(sc, c, was, bytes);
    OverwriteBalances(sc, c, was, bytes);
    ModifyRefines(sc, Config(Overwrite(t, was, bytes), c.held), id, updated);
    assert c.held + refs - refs == c.held;
    RowsMovedBalance(sc, Config(Overwrite(t, was, bytes), c.held),
                     Config(Modify(sc, Overwrite(t, was, bytes), id, updated), c.held));
  }

  // ----- sessions -----------------------------------------------------------

  lemma StartEnters(sc: Schema, c: Config)
    requires Inv(sc, c)
    ensures LedgerOf(sc, Config(StartSession(c.t), c.held)) == Entered(LedgerOf(sc, c), c, StartOp)
  {
    hide RefsOf, BlobStack, PatchesOK;
    RestoreFresh(sc, c.t);
    var free := multiset(c.t.free);
    assert free + multiset(FreshSession(c.t).reused) == free;
    assert RefsOf(sc, c.t.rows) + (free + Freed(c.t.undo)) == LedgerOf(sc, c).now - c.held;
  }

  lemma UndoEnters(sc: Schema, c: Config, order: seq<int>)
    requires Inv(sc, c) && c.t.undo.Push?
    ensures LedgerOf(sc, Config(UndoSession(c.t, order), multiset{})) == Entered(LedgerOf(sc, c), c, UndoOp(order))
  {
    hide RefsOf, RowInv, PatchesOK, Tiling, Restore, MarkAll;
    var s := c.t.undo.top;
    ReusedAreOld(sc, CoreOf(c.t), s, c.t.undo.below, c.t.patches, c.t.flushed);
    assert multiset(c.t.free + s.reused) == multiset(c.t.free) + multiset(s.reused);
  }

  lemma SquashLastEnters(sc: Schema, c: Config)
    requires c.t.undo.Push? && c.t.undo.below.Bottom?
    ensures LedgerOf(sc, Config(Squash(c.t), c.held)) == Entered(LedgerOf(sc, c), c, SquashOp)
  {
    hide RefsOf, Restore;
    var t, s := c.t, c.t.undo.top;
    assert Spare(multiset(t.free + s.freed), Bottom) == Spare(multiset(t.free), t.undo);
    assert SavedLedger(sc, t.rows, multiset(t.free), t.undo).below == Bottom;
  }

  lemma SquashInnerEnters(sc: Schema, c: Config)
    requires Inv(sc, c) && c.t.undo.Push? && c.t.undo.below.Push?
    ensures LedgerOf(sc, Config(Squash(c.t), c.held)) == Entered(LedgerOf(sc, c), c, SquashOp)
  {
    hide RefsOf, BlobStack, PatchesOK, RowsOK, SessionOK, Restore;
    var t := c.t;
    var s, prev, base := t.undo.top, t.undo.below.top, t.undo.below.below;
    assert RowStack(sc, s.oldNextId, Restore(s, t.rows), t.undo.below);
    RestoreAfterMerge(prev, s, t.nextId, t.rows);
    MergeFreed(prev, s, base);
    assert multiset(prev.reused + s.reused) == multiset(prev.reused) + multiset(s.reused);
    var free := multiset(t.free);
    assert free + multiset(Merge(prev, s).reused) == free + multiset(s.reused) + multiset(prev.reused);
    var was, back := Restore(s, t.rows), free + multiset(s.reused);
    assert SavedLedger(sc, t.rows, free, t.undo).below == SavedLedger(sc, was, back, t.undo.below);
  }

  lemma SavedTop(sc: Schema, rows: Rows, free: multiset<BlobRef>, s: Session, below: Stack<Session>)
    ensures var was, back := Restore(s, rows), free + multiset(s.reused);
            SavedLedger(sc, rows, free, Push(s, below))
            == Push(RefsOf(sc, was) + (back + Freed(below)), SavedLedger(sc, was, back, below))
  {
    hide RefsOf, Restore, Freed;
  }

  lemma {:induction false} CommitSaved(sc: Schema, rows: Rows, free: multiset<BlobRef>, st: Stack<Session>, keep: nat)
    ensures SavedLedger(sc, rows, free + multiset(FreedOutside(st, keep)), Innermost(st, keep))
            == Innermost(SavedLedger(sc, rows, free, st), keep)
    decreases st
  {
    hide FreedOutside, Freed, SavedLedger, RefsOf, Restore;
    if st.Push? && keep > 0 {
      var s, was, out := st.top, Restore(st.top, rows), multiset(FreedOutside(st.below, keep - 1));
      CommitSaved(sc, was, free + multiset(s.reused), st.below, keep - 1);
      FreedSplit(st.below, keep - 1);
      KeptOutsideToo(st, keep);
      Regroup(RefsOf(sc, was), free, multiset(s.reused), Freed(Innermost(st.below, keep - 1)), out);
      SavedTop(sc, rows, free + out, s, Innermost(st.below, keep - 1));
      SavedTop(sc, rows, free, s, st.below);
    } else {
      NoneSaved(sc, rows, free + multiset(FreedOutside(st, keep)));
      NoneSaved(sc, rows, free);
    }
  }

  lemma NoneSaved(sc: Schema, rows: Rows, free: multiset<BlobRef>)
    ensures SavedLedger(sc, rows, free, Bottom) == Bottom
  {
  }

  lemma KeptOutsideToo(st: Stack<Session>, keep: nat)
    requires st.Push? && keep > 0
    ensures FreedOutside(st, keep) == FreedOutside(st.below, keep - 1)
  {
  }

  lemma Regroup(refs: multiset<BlobRef>, free: multiset<BlobRef>, reused: multiset<BlobRef>, freed: multiset<BlobRef>,
                out: multiset<BlobRef>)
    ensures free + out + reused == free + reused + out
    ensures refs + ((free + out + reused) + freed) == refs + ((free + reused) + (freed + out))
  {
  }

  lemma CommitEnters(sc: Schema, c: Config, upTo: int)
    ensures LedgerOf(sc, Config(Commit(c.t, upTo), c.held)) == Entered(LedgerOf(sc, c), c, CommitOp(upTo))
  {
    hide RefsOf, SavedLedger, FreedOutside, Innermost, Freed;
    var t, keep := c.t, KeptBy(Depth(c.t.undo), c.t.revision, upTo);
    var out := FreedOutside(t.undo, keep);
    assert multiset(t.free + out) == multiset(t.free) + multiset(out);
    CommitSaved(sc, t.rows, multiset(t.free), t.undo, keep);
    FreedSplit(t.undo, keep);
    DropMoves(Owned(sc, t.rows, c.held), multiset(t.free), Freed(Innermost(t.undo, keep)), multiset(out));
  }

  // ----- every step, every run ----------------------------------------------

  lemma NoSession(sc: Schema, c: Config)
    ensures LedgerOf(sc, c).saved.Bottom? <==> c.t.undo.Bottom?
  {
  }

  lemma RowStepBalances(sc: Schema, c: Config, op: Op)
    requires Inv(sc, c) && Enabled(sc, c, op) && (op.EmplaceOp? || op.ModifyOp? || op.RemoveOp? || op.FreeOp?)
    ensures Balances(sc, c, Step(sc, c, op), multiset{})
  {
    hide Inv, LedgerOf, OnlyRowsMoved, AbsOf, Conflict, AbsStep;
    NothingGrown(LedgerOf(sc, c));
    match op
    case FreeOp(r) =>
      if r.len == 0 {
        assert c.held - Single(r) == c.held;
      } else {
        assert r in Single(r);
        FreeBalances(sc, c, r);
      }
    case EmplaceOp(obj) =>
      if EmplaceError(sc, c.t, obj).None? {
        EmplaceRefines(sc, c, obj);
        RowsMovedBalance(sc, c, Step(sc, c, op));
      }
    case ModifyOp(id, updated) =>
      if ModifyError(sc, c.t, id, updated).None? {
        ModifyRefines(sc, c, id, updated);
        RowsMovedBalance(sc, c, Step(sc, c, op));
      }
    case RemoveOp(id) =>
      if id in c.t.rows {
        RemoveRefines(sc, c, id);
        RowsMovedBalance(sc, c, Step(sc, c, op));
      }
  }

  lemma BlobStepBalances(sc: Schema, c: Config, op: Op)
    requires Inv(sc, c) && Enabled(sc, c, op) && (op.AllocOp? || op.RewriteOp?)
    ensures Balances(sc, c, Step(sc, c, op), Grown(c.t, op))
  {
    hide Inv, Balances, FreeInside, Alloc, AllocRef, Modify, ModifyError, GrownBy, FreeBlob;
    FreeIsInside(sc, c);
    match op
    case AllocOp(bytes) => AllocBalances(sc, c, bytes);
    case RewriteOp(id, was, bytes, updated) =>
      NoErrorStored(sc, c.t, id, updated);
      ReleasedInside(sc, c, id, was);
      if c.t.undo.Push? || was.len == 0 || bytes == [] || |bytes| != was.len {
        RewriteElsewhereBalances(sc, c, id, was, bytes, updated);
        SameGrown(c.t, was, bytes);
      } else {
        RewriteInPlaceBalances(sc, c, id, was, bytes, updated);
      }
  }

  lemma SessionStepEnters(sc: Schema, c: Config, op: Op)
    requires Inv(sc, c) && Enabled(sc, c, op) && (op.UndoOp? || op.SquashOp?)
    ensures LedgerOf(sc, Step(sc, c, op)) == Entered(LedgerOf(sc, c), c, op)
  {
    hide Inv, LedgerOf, Squash, UndoSession, RestoreOrder;
    NoSession(sc, c);
    if c.t.undo.Bottom? {
      NothingToSquash(c.t);
      if op.UndoOp? {
        UndoNothing(c.t, op.order);
      }
    } else if op.UndoOp? {
      UndoEnters(sc, c, op.order);
    } else if c.t.undo.below.Bottom? {
      SquashLastEnters(sc, c);
    } else {
      SquashInnerEnters(sc, c);
    }
  }

  /** Every operation leaves the ledger as `Entered` says: no span is lost and none is made up. */
  lemma StepEnters(sc: Schema, c: Config, op: Op)
    requires Inv(sc, c) && Enabled(sc, c, op)
    ensures LedgerOf(sc, Step(sc, c, op)) == Entered(LedgerOf(sc, c), c, op)
  {
    hide Inv, LedgerOf, Grown, Emplace, Modify, Remove, Alloc, FreeBlob, RestoreOrder;
    match op
    case StartOp => StartEnters(sc, c);
    case UndoOp(_) => SessionStepEnters(sc, c, op);
    case SquashOp => SessionStepEnters(sc, c, op);
    case CommitOp(upTo) => CommitEnters(sc, c, upTo);
    case AllocOp(_) => BlobStepBalances(sc, c, op);
    case RewriteOp(_, _, _, _) => BlobStepBalances(sc, c, op);
    case SetRevisionOp(_) => QuietStep(sc, c, op);
    case FlushOp => QuietStep(sc, c, op);
    case _ =>
      RowStepBalances(sc, c, op);
      NoneGrown(c.t, op);
  }

  lemma NoneGrown(t: Tab, op: Op)
    requires !op.AllocOp? && !op.RewriteOp?
    ensures Grown(t, op) == multiset{}
  {
  }

  lemma QuietStep(sc: Schema, c: Config, op: Op)
    requires Inv(sc, c) && Enabled(sc, c, op) && (op.SetRevisionOp? || op.FlushOp?)
    ensures LedgerOf(sc, Step(sc, c, op)) == Entered(LedgerOf(sc, c), c, op)
  {
    hide RefsOf, SavedLedger, Freed;
  }

  /** A session's entry stays as it is while the session is open. */
  lemma EnteredKeeps(l: Ledger, c: Config, op: Op, d: nat)
    requires Depth(l.saved) == Depth(c.t.undo)
    requires 0 < d <= Depth(l.saved) && 0 < DepthAfter(Depth(c.t.undo), c.t.revision, op, d)
    ensures var l', d' := Entered(l, c, op), DepthAfter(Depth(c.t.undo), c.t.revision, op, d);
            d' <= Depth(l'.saved) && Nth(l'.saved, d' - 1) == Nth(l.saved, d - 1)
            && Depth(l'.saved) - d' <= Depth(l.saved) - d
  {
    hide Grown;
    if op.CommitOp? {
      NthInnermost(l.saved, KeptBy(Depth(l.saved), c.t.revision, op.revision), d - 1);
      InnermostDepth(l.saved, KeptBy(Depth(l.saved), c.t.revision, op.revision));
    }
  }

  lemma {:induction false} LedgerDepth(sc: Schema, rows: Rows, free: multiset<BlobRef>, st: Stack<Session>)
    ensures Depth(SavedLedger(sc, rows, free, st)) == Depth(st)
    decreases st
  {
    hide RefsOf, Restore, Freed;
    if st.Push? {
      LedgerDepth(sc, Restore(st.top, rows), free + multiset(st.top.reused), st.below);
    }
  }

  lemma OneEachSession(sc: Schema, c: Config)
    ensures Depth(LedgerOf(sc, c).saved) == Depth(c.t.undo)
  {
    LedgerDepth(sc, c.t.rows, multiset(c.t.free), c.t.undo);
  }

  lemma {:induction false} RunKeepsEntry(sc: Schema, c: Config, ops: seq<Op>, d: nat)
    requires Inv(sc, c) && Legal(sc, c, ops) && d <= Depth(c.t.undo) && StaysOpen(sc, c, ops, d)
    ensures var c' := Run(sc, c, ops);
            && Inv(sc, c') && 1 <= Depth(c'.t.undo) <= 1 + Depth(c.t.undo) - d
            && Nth(LedgerOf(sc, c').saved, 0) == Nth(LedgerOf(sc, c).saved, d - 1)
    decreases |ops|
  {
    hide Inv, LedgerOf, Step, Enabled, Entered, AbsOf, AbsStep, DepthAfter;
    OneEachSession(sc, c);
    if ops != [] {
      var op, c' := ops[0], Step(sc, c, ops[0]);
      var d' := DepthAfter(Depth(c.t.undo), c.t.revision, op, d);
      StepRefines(sc, c, op);
      StepEnters(sc, c, op);
      OneEachSession(sc, c');
      StaysOn(sc, c', ops[1..], d');
      EnteredKeeps(LedgerOf(sc, c), c, op, d);
      RunKeepsEntry(sc, c', ops[1..], d');
    }
  }

  lemma StaysOn(sc: Schema, c: Config, ops: seq<Op>, d: nat)
    requires Inv(sc, c) && Legal(sc, c, ops) && StaysOpen(sc, c, ops, d)
    ensures 0 < d
  {
    hide Inv;
  }

  /** Undo puts the spans its session had reused at the end of the free list, in the order they were reused. */
  lemma UndoFreesInOrder(sc: Schema, c: Config, order: seq<int>, log: SessionLogs.Log)
    requires Inv(sc, c) && c.t.undo.Push? && SessionLogs.Records(c.t.undo.top, log)
    ensures UndoSession(c.t, order).free == c.t.free + log.reused
  {
    hide RowInv, PatchesOK, Tiling, Restore, MarkAll;
    ReusedAreOld(sc, CoreOf(c.t), c.t.undo.top, c.t.undo.below, c.t.patches, c.t.flushed);
  }

  /**
    Whatever ran in a session, undoing it leaves exactly the spans there were when it
    started, but for those callers held; so what was free or waiting to be freed then
    is so again, and with no session around it the same spans are free.
   */
  lemma UndoLosesNoSpan(sc: Schema, c: Config, ops: seq<Op>, order: seq<int>)
    requires Inv(sc, c) && SessionRun(sc, c, ops, order)
    ensures var c' := Undone(sc, c, ops, order);
            && LedgerOf(sc, c').now == LedgerOf(sc, c).now - c.held
            && Spare(multiset(c'.t.free), c'.t.undo) == Spare(multiset(c.t.free), c.t.undo)
            && (c.t.undo.Bottom? ==> c'.t.undo.Bottom? && multiset(c'.t.free) == multiset(c.t.free))
  {
    hide Inv, LedgerOf, Step, AbsOf, AbsStep, Run, Legal, StaysOpen, Spare, RestoreOrder;
    UndoRestores(sc, c, ops, order);
    StepRefines(sc, c, StartOp);
    var c1 := Step(sc, c, StartOp);
    var c2, c' := Run(sc, c1, ops), Undone(sc, c, ops, order);
    StepEnters(sc, c, StartOp);
    StartDeepens(sc, c);
    RunKeepsEntry(sc, c1, ops, 1);
    StepEnters(sc, c2, UndoOp(order));
    OneEachSession(sc, c2);
    OneEachSession(sc, c');
    SameRowsShown(sc, c, c');
    UndoHolds(sc, c2, order);
    SpareLeft(sc, c, c');
  }

  lemma StartDeepens(sc: Schema, c: Config)
    requires Inv(sc, c) && Enabled(sc, c, StartOp)
    ensures Depth(Step(sc, c, StartOp).t.undo) == Depth(c.t.undo) + 1
  {
    hide Inv;
  }

  lemma UndoHolds(sc: Schema, c: Config, order: seq<int>)
    requires Inv(sc, c) && Enabled(sc, c, UndoOp(order)) && c.t.undo.Push?
    ensures Step(sc, c, UndoOp(order)).held == multiset{}
  {
    hide Inv;
  }

  lemma SameRowsShown(sc: Schema, c: Config, c': Config)
    requires AbsOf(sc, c').cur == Copy(sc, AbsOf(sc, c).cur)
    ensures c'.t.rows == c.t.rows
  {
    hide Contents, Saved;
  }

  lemma SpareLeft(sc: Schema, c: Config, c': Config)
    requires c'.t.rows == c.t.rows && c'.held == multiset{}
    requires LedgerOf(sc, c').now == LedgerOf(sc, c).now - c.held
    ensures Spare(multiset(c'.t.free), c'.t.undo) == Spare(multiset(c.t.free), c.t.undo)
    ensures c.t.undo.Bottom? && c'.t.undo.Bottom? ==> multiset(c'.t.free) == multiset(c.t.free)
  {
    var refs, spare, spare' := RefsOf(sc, c.t.rows), Spare(multiset(c.t.free), c.t.undo),
        Spare(multiset(c'.t.free), c'.t.undo);
    hide RefsOf, Spare, SavedLedger;
    assert refs + multiset{} + spare' == refs + c.held + spare - c.held;
    Cancel(refs, c.held, spare, spare');
    NothingFreedBelow(c.t);
    NothingFreedBelow(c'.t);
  }

  lemma Cancel(refs: multiset<BlobRef>, held: multiset<BlobRef>, a: multiset<BlobRef>, b: multiset<BlobRef>)
    requires refs + multiset{} + b == refs + held + a - held
    ensures a == b
  {
    forall r ensures a[r] == b[r] {
      assert (refs + multiset{} + b)[r] == (refs + held + a - held)[r];
    }
  }

  lemma NothingFreedBelow(t: Tab)
    ensures t.undo.Bottom? ==> Spare(multiset(t.free), t.undo) == multiset(t.free)
  {
  }

  // ----- the arena's length -------------------------------------------------

  /** How long the arena was when each open session started. */
  function ArenaLengths(st: Stack<Session>): (lens: Stack<nat>)
    ensures Depth(lens) == Depth(st)
  {
    match st
    case Bottom => Bottom
    case Push(s, below) => Push(s.oldBlobLen, ArenaLengths(below))
  }

  ghost function LengthsAfter(lens: Stack<nat>, t: Tab, op: Op): Stack<nat>
  {
    match op
    case StartOp => Push(|t.blobs|, lens)
    case UndoOp(_) => if lens.Bottom? then lens else lens.below
    case SquashOp => if lens.Bottom? then lens else lens.below
    case CommitOp(upTo) => Innermost(lens, KeptBy(Depth(t.undo), t.revision, upTo))
    case _ => lens
  }

  lemma {:induction false} InnermostLengths(st: Stack<Session>, keep: nat)
    ensures ArenaLengths(Innermost(st, keep)) == Innermost(ArenaLengths(st), keep)
    decreases st
  {
    if st.Push? && keep > 0 {
      InnermostLengths(st.below, keep - 1);
    }
  }

  lemma SquashLengths(t: Tab)
    ensures ArenaLengths(Squash(t).undo) == LengthsAfter(ArenaLengths(t.undo), t, SquashOp)
  {
    hide Below, NewIds;
  }

  lemma StepLengths(sc: Schema, t: Tab, op: Op)
    requires CanStep(t, op)
    ensures ArenaLengths(TabStep(sc, t, op).undo) == LengthsAfter(ArenaLengths(t.undo), t, op)
  {
    hide Squash, Restore, MarkAll, Conflict, FindFree, Write, FreedOutside, BelowOffset, FreeInside;
    match op
    case SquashOp => SquashLengths(t);
    case CommitOp(upTo) => InnermostLengths(t.undo, KeptBy(Depth(t.undo), t.revision, upTo));
    case _ =>
  }

  lemma LengthKept(lens: Stack<nat>, t: Tab, op: Op, d: nat)
    requires Depth(lens) == Depth(t.undo)
    requires 0 < d <= Depth(lens) && 0 < DepthAfter(Depth(t.undo), t.revision, op, d)
    ensures var lens', d' := LengthsAfter(lens, t, op), DepthAfter(Depth(t.undo), t.revision, op, d);
            d' <= Depth(lens') && Nth(lens', d' - 1) == Nth(lens, d - 1)
  {
    if op.CommitOp? {
      NthInnermost(lens, KeptBy(Depth(lens), t.revision, op.revision), d - 1);
      InnermostDepth(lens, KeptBy(Depth(lens), t.revision, op.revision));
    }
  }

  lemma {:induction false} RunKeepsLength(sc: Schema, c: Config, ops: seq<Op>, d: nat)
    requires Inv(sc, c) && Legal(sc, c, ops) && d <= Depth(c.t.undo) && StaysOpen(sc, c, ops, d)
    ensures var t := Run(sc, c, ops).t;
            t.undo.Push? && Some(t.undo.top.oldBlobLen) == Nth(ArenaLengths(c.t.undo), d - 1)
    decreases |ops|
  {
    hide Inv, Enabled, LengthsAfter, AbsOf, AbsStep, DepthAfter, TabStep;
    StaysOn(sc, c, ops, d);
    if ops != [] {
      var op, c' := ops[0], Step(sc, c, ops[0]);
      var d' := DepthAfter(Depth(c.t.undo), c.t.revision, op, d);
      StepRefines(sc, c, op);
      CanStepInside(sc, c, op);
      StepLengths(sc, c.t, op);
      StaysOn(sc, c', ops[1..], d');
      LengthKept(ArenaLengths(c.t.undo), c.t, op, d);
      RunKeepsLength(sc, c', ops[1..], d');
    }
  }

  /** Whatever a session appended, undoing it leaves the arena exactly as long as it was when the session started. */
  lemma UndoShrinksArena(sc: Schema, c: Config, ops: seq<Op>, order: seq<int>)
    requires Inv(sc, c) && SessionRun(sc, c, ops, order)
    ensures |Undone(sc, c, ops, order).t.blobs| == |c.t.blobs|
  {
    hide Inv, AbsOf, AbsStep, Run, Legal, StaysOpen, RestoreOrder;
    StepRefines(sc, c, StartOp);
    var c1 := Step(sc, c, StartOp);
    RunRefines(sc, c1, ops);
    RunKeepsLength(sc, c1, ops, 1);
    TruncatedTo(sc, Run(sc, c1, ops), order);
  }

  lemma TruncatedTo(sc: Schema, c: Config, order: seq<int>)
    requires Inv(sc, c) && c.t.undo.Push?
    ensures |UndoSession(c.t, order).blobs| == c.t.undo.top.oldBlobLen
  {
    hide RowInv, PatchesOK, Tiling, Restore, MarkAll, BelowOffset;
  }
}
