/**
  The spans a table has ever to answer for: those named by rows, held by callers,
  free or waiting to be freed, now and at every state an open session could bring
  back. Any two of them are equal or disjoint, and what lies below the flushed
  length never changes its cut.
 */
module SpanHistory {
  import opened ArenaTypes
  import opened TableSpec
  import opened RowHistory
  import opened BlobSafety
  import opened TableOps
  import opened Refinement
  import opened Runs

  /** The spans of the current level and of every level below it. */
  ghost function AllSpans(sc: Schema, core: Core, held: multiset<BlobRef>, st: Stack<Session>): set<BlobRef>
    decreases st, 1
  {
    (set a | a in Spans(sc, core, held, st)) + SavedSpans(sc, core, st)
  }

  /** The spans of the levels below. */
  ghost function SavedSpans(sc: Schema, core: Core, st: Stack<Session>): set<BlobRef>
    decreases st, 0
  {
    match st
    case Bottom => {}
    case Push(s, below) => AllSpans(sc, Back(core, s), multiset{}, below)
  }

  ghost function SpansOf(sc: Schema, c: Config): set<BlobRef>
  {
    AllSpans(sc, CoreOf(c.t), c.held, c.t.undo)
  }

  /** Any two spans, of whatever levels and owners, are equal or disjoint. */
  ghost predicate Coherent(sc: Schema, c: Config)
  {
    forall a, b :: a in SpansOf(sc, c) && b in SpansOf(sc, c) ==> a == b || Apart(a, b)
  }

  /** Without open sessions there is one level, and its spans do not overlap. */
  lemma RestCoherent(sc: Schema, c: Config)
    requires Inv(sc, c) && c.t.undo.Bottom?
    ensures Coherent(sc, c)
  {
    hide RowInv, PatchesOK;
  }

  lemma {:induction false} AllInside(sc: Schema, core: Core, held: multiset<BlobRef>, st: Stack<Session>,
                                     patches: seq<BlobRef>, flushed: nat, a: BlobRef)
    requires BlobStack(sc, core, held, st, patches, flushed) && a in AllSpans(sc, core, held, st)
    ensures 0 < a.len && a.off + a.len <= |core.blobs| && Settled(a, patches, flushed)
    decreases st
  {
    hide Settled;
    if a !in Spans(sc, core, held, st) {
      AllInside(sc, Back(core, st.top), multiset{}, st.below, patches, flushed, a);
    }
  }

  /** Two stacks whose innermost sessions lead back to the same level have the same levels below. */
  lemma SameSaved(sc: Schema, core: Core, st: Stack<Session>, core': Core, st': Stack<Session>)
    requires st.Push? <==> st'.Push?
    requires st.Push? ==> st.below == st'.below && Back(core, st.top) == Back(core', st'.top)
    ensures SavedSpans(sc, core, st) == SavedSpans(sc, core', st')
  {
  }

  lemma SavedIs(sc: Schema, core: Core, st: Stack<Session>)
    requires st.Push?
    ensures SavedSpans(sc, core, st) == AllSpans(sc, Back(core, st.top), multiset{}, st.below)
  {
  }

  // ----- what each operation does to them -----------------------------------

  /** Which spans there are does not depend on the bytes. */
  lemma {:induction false} BytesDoNotMatter(sc: Schema, core: Core, blobs: seq<Byte>, held: multiset<BlobRef>,
                                            st: Stack<Session>)
    ensures AllSpans(sc, core.(blobs := blobs), held, st) == AllSpans(sc, core, held, st)
    decreases st
  {
    hide RefsOf, Restore;
    if st.Push? {
      var b := Back(core, st.top);
      assert Back(core.(blobs := blobs), st.top) == b.(blobs := Truncate(blobs, st.top.oldBlobLen));
      BytesDoNotMatter(sc, b, Truncate(blobs, st.top.oldBlobLen), multiset{}, st.below);
    }
    assert Spans(sc, core.(blobs := blobs), held, st) == Spans(sc, core, held, st);
  }

  lemma RowsMovedSpans(sc: Schema, c: Config, c': Config)
    requires OnlyRowsMoved(sc, c, c')
    ensures SpansOf(sc, c') == SpansOf(sc, c)
  {
    hide RefsOf, Restore;
    assert Spans(sc, CoreOf(c'.t), c'.held, c'.t.undo) == Spans(sc, CoreOf(c.t), c.held, c.t.undo);
    if c.t.undo.Push? {
      assert Back(CoreOf(c'.t), c'.t.undo.top) == Back(CoreOf(c.t), c.t.undo.top);
    }
    SameSaved(sc, CoreOf(c.t), c.t.undo, CoreOf(c'.t), c'.t.undo);
  }

  lemma FreeSpans(sc: Schema, c: Config, r: BlobRef)
    requires r in c.held && 0 < r.len
    ensures SpansOf(sc, Config(FreeBlob(c.t, r), c.held - multiset{r})) == SpansOf(sc, c)
  {
    hide Spans, Back, SavedSpans;
    SpansAfterFree(sc, c, r);
    var t' := FreeBlob(c.t, r);
    if c.t.undo.Push? {
      BackAfterFree(CoreOf(c.t), c.t.undo.top, r);
      assert CoreOf(t') == CoreOf(c.t);
    }
    SameSaved(sc, CoreOf(c.t), c.t.undo, CoreOf(t'), t'.undo);
  }

  lemma AddOne(owned: multiset<BlobRef>, spare: multiset<BlobRef>, r: BlobRef)
    ensures forall a :: a in (owned + multiset{r}) + spare <==> a in owned + spare || a == r
  {
  }

  lemma AppendSpans(sc: Schema, c: Config, bytes: seq<Byte>, r: BlobRef)
    requires c.t.undo.Push? ==> c.t.undo.top.oldBlobLen <= |c.t.blobs|
    ensures SpansOf(sc, Config(c.t.(blobs := c.t.blobs + bytes), c.held + multiset{r})) == SpansOf(sc, c) + {r}
  {
    hide RefsOf, Restore, SavedSpans;
    var t := c.t;
    var t' := t.(blobs := t.blobs + bytes);
    AddOne(Owned(sc, t.rows, c.held), Spare(multiset(t.free), t.undo), r);
    assert Owned(sc, t.rows, c.held + multiset{r}) == Owned(sc, t.rows, c.held) + multiset{r};
    if t.undo.Push? {
      assert Truncate(t'.blobs, t.undo.top.oldBlobLen) == Truncate(t.blobs, t.undo.top.oldBlobLen);
      assert Back(CoreOf(t'), t.undo.top) == Back(CoreOf(t), t.undo.top);
    }
    SameSaved(sc, CoreOf(t), t.undo, CoreOf(t'), t.undo);
    LevelPlus(sc, CoreOf(t), CoreOf(t'), c.held, t.undo, r);
  }

  lemma LevelPlus(sc: Schema, core: Core, core': Core, held: multiset<BlobRef>, st: Stack<Session>, r: BlobRef)
    requires SavedSpans(sc, core', st) == SavedSpans(sc, core, st)
    requires forall a :: a in Spans(sc, core', held + multiset{r}, st) <==> a in Spans(sc, core, held, st) || a == r
    ensures AllSpans(sc, core', held + multiset{r}, st) == AllSpans(sc, core, held, st) + {r}
  {
    hide Spans, SavedSpans;
  }

  lemma TakenSpans(sc: Schema, core: Core, held: multiset<BlobRef>, st: Stack<Session>, r: BlobRef)
    requires r in core.free
    ensures AllSpans(sc, core.(free := core.free - multiset{r}), held + multiset{r},
                     if st.Bottom? then Bottom else OnTop(st, st.top.(reused := st.top.reused + [r])))
            == AllSpans(sc, core, held, st)
  {
    hide RefsOf, Restore;
    var core' := core.(free := core.free - multiset{r});
    var st' := if st.Bottom? then Bottom else OnTop(st, st.top.(reused := st.top.reused + [r]));
    TakeMoves(RefsOf(sc, core.rows), held, core.free, Freed(st), r);
    assert Spans(sc, core', held + multiset{r}, st') == Spans(sc, core, held, st);
    if st.Push? {
      TakeBack(core.free, st.top.reused, r);
      assert Restore(st'.top, core.rows) == Restore(st.top, core.rows) by {
        SameRestore(st.top, core.rows, st'.top.reused);
      }
      assert Back(core', st'.top) == Back(core, st.top);
    }
  }

  lemma SameRestore(s: Session, rows: Rows, reused: seq<BlobRef>)
    ensures Restore(s.(reused := reused), rows) == Restore(s, rows)
  {
  }

  lemma ReuseSpans(sc: Schema, c: Config, i: nat, bytes: seq<Byte>)
    requires i < |c.t.free| && |bytes| == c.t.free[i].len && c.t.free[i].off + |bytes| <= |c.t.blobs|
    ensures SpansOf(sc, Config(Reuse(c.t, i, bytes), c.held + multiset{c.t.free[i]})) == SpansOf(sc, c)
  {
    hide Write, AllSpans;
    var t, r := c.t, c.t.free[i];
    var filled := CoreOf(t).(blobs := Write(t.blobs, r.off, bytes));
    MultisetRemoveAt(t.free, i);
    BytesDoNotMatter(sc, CoreOf(t), filled.blobs, c.held, t.undo);
    TakenSpans(sc, filled, c.held, t.undo, r);
    assert CoreOf(Reuse(t, i, bytes)) == filled.(free := filled.free - multiset{r});
  }

  lemma AllocSpans(sc: Schema, c: Config, bytes: seq<Byte>)
    requires Inv(sc, c) && FreeInside(c.t) && |c.t.blobs| + |bytes| < U32
    ensures var c' := Config(Alloc(c.t, bytes), c.held + Single(AllocRef(c.t, bytes)));
            SpansOf(sc, c') <= SpansOf(sc, c) + {BlobRef(|c.t.blobs|, |bytes|)} && |c.t.blobs| <= |c'.t.blobs|
  {
    hide SpansOf, Reuse, RowInv, PatchesOK, Tiling, Write;
    if bytes == [] {
      assert c.held + Single(AllocRef(c.t, bytes)) == c.held;
    } else {
      match FindFree(c.t.free, |bytes|)
      case Some(i) =>
        ReuseSpans(sc, c, i, bytes);
        ReuseLength(c.t, i, bytes);
      case None => AppendSpans(sc, c, bytes, BlobRef(|c.t.blobs|, |bytes|));
    }
  }

  lemma ReuseLength(t: Tab, i: nat, bytes: seq<Byte>)
    requires i < |t.free| && |bytes| == t.free[i].len && t.free[i].off + |bytes| <= |t.blobs|
    ensures |Reuse(t, i, bytes).blobs| == |t.blobs|
  {
  }

  lemma StartSpans(sc: Schema, c: Config)
    requires Inv(sc, c)
    ensures SpansOf(sc, Config(StartSession(c.t), c.held)) == SpansOf(sc, c)
  {
    hide RefsOf, Tiling, PatchesOK, RowInv, Back;
    StartKeepsSpans(sc, c);
    var core, st := CoreOf(c.t), c.t.undo;
    assert Spans(sc, core, c.held, Push(FreshSession(c.t), st)) == Spans(sc, core, c.held, st);
    assert forall a :: a in Spans(sc, core, multiset{}, st) ==> a in Spans(sc, core, c.held, st);
    assert SavedSpans(sc, core, Push(FreshSession(c.t), st)) == AllSpans(sc, core, multiset{}, st);
  }

  lemma UndoSpans(sc: Schema, c: Config, order: seq<int>)
    requires Inv(sc, c) && c.t.undo.Push?
    ensures SpansOf(sc, Config(UndoSession(c.t, order), multiset{})) <= SpansOf(sc, c)
  {
    hide Inv, Spans, Back, Restore, MarkAll, BelowOffset, SavedSpans;
    UndoLeadsBack(sc, c, order);
    SavedIs(sc, CoreOf(c.t), c.t.undo);
    UndoPops(c.t, order);
  }

  lemma UndoPops(t: Tab, order: seq<int>)
    requires t.undo.Push?
    ensures UndoSession(t, order).undo == t.undo.below
  {
  }

  lemma SquashLastSpans(sc: Schema, c: Config)
    requires c.t.undo.Push? && c.t.undo.below.Bottom?
    ensures SpansOf(sc, Config(Squash(c.t), c.held)) <= SpansOf(sc, c)
  {
    hide RefsOf;
    var t, s := c.t, c.t.undo.top;
    assert Spare(multiset(t.free + s.freed), Bottom) == Spare(multiset(t.free), t.undo);
    assert Spans(sc, CoreOf(Squash(t)), c.held, Bottom) == Spans(sc, CoreOf(t), c.held, t.undo);
  }

  lemma SquashInnerSpans(sc: Schema, c: Config)
    requires Inv(sc, c) && c.t.undo.Push? && c.t.undo.below.Push?
    ensures SpansOf(sc, Config(Squash(c.t), c.held)) <= SpansOf(sc, c)
  {
    hide Inv, RefsOf, Merge, Back, SavedSpans, BlobStack, Freed;
    var t, s, core := c.t, c.t.undo.top, CoreOf(c.t);
    var prev, base := t.undo.below.top, t.undo.below.below;
    SquashKeepsSpans(sc, c);
    MergeFreed(prev, s, base);
    assert Spans(sc, core, c.held, Push(Merge(prev, s), base)) == Spans(sc, core, c.held, t.undo);
    SavedIs(sc, core, Push(Merge(prev, s), base));
    SavedIs(sc, Back(core, s), t.undo.below);
    SavedIs(sc, core, t.undo);
  }

  lemma {:induction false} CommitSpans(sc: Schema, core: Core, held: multiset<BlobRef>, st: Stack<Session>, keep: nat)
    ensures AllSpans(sc, core.(free := core.free + multiset(FreedOutside(st, keep))), held,
                     Innermost(st, keep)) <= AllSpans(sc, core, held, st)
    decreases st
  {
    hide Back;
    var outside := multiset(FreedOutside(st, keep));
    var freer := core.(free := core.free + outside);
    FreedSplit(st, keep);
    DropMoves(Owned(sc, core.rows, held), core.free, Freed(Innermost(st, keep)), outside);
    assert Spans(sc, freer, held, Innermost(st, keep)) == Spans(sc, core, held, st);
    if st.Push? && keep > 0 {
      BackFreer(core, st.top, outside);
      CommitSpans(sc, Back(core, st.top), multiset{}, st.below, keep - 1);
    }
  }

  lemma CommitAllSpans(sc: Schema, c: Config, revision: int)
    ensures SpansOf(sc, Config(Commit(c.t, revision), c.held)) <= SpansOf(sc, c)
  {
    hide AllSpans, FreedOutside, Innermost;
    var t := c.t;
    var keep := KeptBy(Depth(t.undo), t.revision, revision);
    CommitSpans(sc, CoreOf(t), c.held, t.undo, keep);
    assert multiset(t.free + FreedOutside(t.undo, keep)) == multiset(t.free) + multiset(FreedOutside(t.undo, keep));
  }

  // ----- every step ---------------------------------------------------------

  /** A step forgets spans or adds one at the end of the arena; below the flushed length it adds none. */
  ghost predicate Follows(sc: Schema, c: Config, c': Config)
  {
    && c.t.flushed <= c'.t.flushed <= |c'.t.blobs|
    && exists len: nat :: SpansOf(sc, c') <= SpansOf(sc, c) + {BlobRef(|c.t.blobs|, len)}
  }

  lemma FollowsSame(sc: Schema, c: Config, c': Config)
    requires Inv(sc, c') && c'.t.flushed == c.t.flushed && SpansOf(sc, c') <= SpansOf(sc, c)
    ensures Follows(sc, c, c')
  {
    hide SpansOf, RowInv, PatchesOK, Tiling;
    assert SpansOf(sc, c') <= SpansOf(sc, c) + {BlobRef(|c.t.blobs|, 0)};
  }

  lemma FollowsTwice(sc: Schema, c: Config, c1: Config, c2: Config, len: nat)
    requires SpansOf(sc, c1) <= SpansOf(sc, c) + {BlobRef(|c.t.blobs|, len)} && SpansOf(sc, c2) <= SpansOf(sc, c1)
    requires c.t.flushed <= c2.t.flushed <= |c2.t.blobs|
    ensures Follows(sc, c, c2)
  {
    hide SpansOf;
  }

  lemma RewriteSpans(sc: Schema, c: Config, id: int, was: BlobRef, bytes: seq<Byte>, updated: Row)
    requires Inv(sc, c) && Enabled(sc, c, RewriteOp(id, was, bytes, updated))
    ensures Follows(sc, c, Step(sc, c, RewriteOp(id, was, bytes, updated)))
  {
    hide Inv, SpansOf, FreeInside, Alloc, AllocRef, Modify, Conflict, AbsOf;
    var t := c.t;
    var c' := Step(sc, c, RewriteOp(id, was, bytes, updated));
    StepRefines(sc, c, RewriteOp(id, was, bytes, updated));
    FlushedInside(sc, c');
    FreeIsInside(sc, c);
    ReleasedInside(sc, c, id, was);
    RewriteFlushed(sc, t, id, was, bytes, updated);
    if t.undo.Push? || was.len == 0 || bytes == [] || |bytes| != was.len {
      RewriteElsewhereSpans(sc, c, id, was, bytes, updated);
    } else {
      RewriteInPlaceSpans(sc, c, id, was, bytes, updated);
      FollowsSame(sc, c, c');
    }
  }

  lemma FlushedInside(sc: Schema, c: Config)
    requires Inv(sc, c)
    ensures c.t.flushed <= |c.t.blobs|
  {
  }

  lemma RewriteFlushed(sc: Schema, t: Tab, id: int, was: BlobRef, bytes: seq<Byte>, updated: Row)
    requires FreeInside(FreeBlob(t, was)) && |bytes| < U32
    ensures Modify(sc, Alloc(FreeBlob(t, was), bytes), id, updated).flushed == t.flushed
  {
    hide Conflict, FindFree, Write;
  }

  lemma RewriteElsewhereSpans(sc: Schema, c: Config, id: int, was: BlobRef, bytes: seq<Byte>, updated: Row)
    requires Inv(sc, c) && Enabled(sc, c, RewriteOp(id, was, bytes, updated))
    requires FreeInside(c.t) && FreeInside(FreeBlob(c.t, was))
    requires c.t.undo.Push? || was.len == 0 || bytes == [] || |bytes| != was.len
    ensures Follows(sc, c, Config(Modify(sc, Alloc(FreeBlob(c.t, was), bytes), id, updated), c.held))
  {
    hide Inv, SpansOf, FreeInside, Alloc, AllocRef, Modify, AbsOf, Conflict, OnlyRowsMoved;
    var t, r := c.t, AllocRef(c.t, bytes);
    AllocCommutes(t, was, bytes);
    AllocRefines(sc, c, bytes);
    AllocSpans(sc, c, bytes);
    AllocKeepsRest(sc, t, bytes, id, updated);
    var c1 := Config(Alloc(t, bytes), c.held + Single(r));
    ModifyCommutes(sc, c1.t, id, was, updated);
    RewriteEnables(sc.refs(t.rows[id]), c.held, Single(was), Single(r));
    ModifyRefines(sc, c1, id, updated);
    var c2 := Config(Modify(sc, c1.t, id, updated), c.held + Single(was));
    RowsMovedSpans(sc, c1, c2);
    var c3 := Config(FreeBlob(c2.t, was), c.held);
    if was.len != 0 {
      assert was in Single(was);
      assert c2.held - multiset{was} == c.held;
      FreeSpans(sc, c2, was);
      FreeRefines(sc, c2, was);
    } else {
      assert c2.held == c.held && FreeBlob(c2.t, was) == c2.t;
    }
    FlushedInside(sc, c3);
    RewriteFlushed(sc, t, id, was, bytes, updated);
    FollowsTwice(sc, c, c1, c3, |bytes|);
  }

  lemma RewriteInPlaceSpans(sc: Schema, c: Config, id: int, was: BlobRef, bytes: seq<Byte>, updated: Row)
    requires Inv(sc, c) && Enabled(sc, c, RewriteOp(id, was, bytes, updated))
    requires FreeInside(FreeBlob(c.t, was)) && c.t.undo.Bottom? && bytes != [] && |bytes| == was.len
    ensures SpansOf(sc, Config(Modify(sc, Alloc(FreeBlob(c.t, was), bytes), id, updated), c.held)) == SpansOf(sc, c)
  {
    hide Inv, AllSpans, RefsOf, AbsOf, Conflict, OnlyRowsMoved, FreeInside, Alloc, Write;
    var t, refs := c.t, sc.refs(c.t.rows[id]);
    ReallocInPlace(t, was, bytes);
    assert was in Single(was);
    assert refs - Single(was) + Single(was) == refs by { SwapSame(refs, was); }
    RefsOfContains(sc, t.rows, id);
    OverwriteRefines(sc, c, was, bytes);
    var c1 := Config(Overwrite(t, was, bytes), c.held);
    BytesDoNotMatter(sc, CoreOf(t), c1.t.blobs, c.held, t.undo);
    ModifyRefines(sc, c1, id, updated);
    assert c.held + refs - refs == c.held;
    RowsMovedSpans(sc, c1, Config(Modify(sc, c1.t, id, updated), c.held));
  }

  lemma StepFollows(sc: Schema, c: Config, op: Op)
    requires Inv(sc, c) && Enabled(sc, c, op)
    ensures Follows(sc, c, Step(sc, c, op))
  {
    hide Inv, SpansOf, Alloc, AllocRef, Modify, Emplace, Remove, FreeInside, Conflict, AbsOf, Follows, OnlyRowsMoved,
         Squash, Commit, UndoSession;
    var t, c' := c.t, Step(sc, c, op);
    StepRefines(sc, c, op);
    FlushedInside(sc, c');
    FlushedInside(sc, c);
    FreeIsInside(sc, c);
    CanStepInside(sc, c, op);
    FlushedKept(sc, t, op);
    match op
    case AllocOp(bytes) =>
      AllocSpans(sc, c, bytes);
      FollowsTwice(sc, c, c', c', |bytes|);
    case FreeOp(r) =>
      FreeOpSpans(sc, c, r);
      FollowsSame(sc, c, c');
    case EmplaceOp(_) =>
      RowOpSpans(sc, c, op);
      FollowsSame(sc, c, c');
    case ModifyOp(_, _) =>
      RowOpSpans(sc, c, op);
      FollowsSame(sc, c, c');
    case RemoveOp(_) =>
      RowOpSpans(sc, c, op);
      FollowsSame(sc, c, c');
    case RewriteOp(id, was, bytes, updated) =>
      RewriteSpans(sc, c, id, was, bytes, updated);
    case StartOp =>
      StartSpans(sc, c);
      FollowsSame(sc, c, c');
    case UndoOp(order) =>
      UndoOpSpans(sc, c, order);
      FollowsSame(sc, c, c');
    case SquashOp =>
      SquashOpSpans(sc, c);
      FollowsSame(sc, c, c');
    case CommitOp(revision) =>
      CommitAllSpans(sc, c, revision);
      FollowsSame(sc, c, c');
    case SetRevisionOp(_) =>
      SameCore(sc, c, c');
      FollowsSame(sc, c, c');
    case FlushOp =>
      SameCore(sc, c, c');
      FollowsTwice(sc, c, c, c', 0);
  }

  lemma SquashOpSpans(sc: Schema, c: Config)
    requires Inv(sc, c)
    ensures SpansOf(sc, Config(Squash(c.t), c.held)) <= SpansOf(sc, c)
  {
    hide Inv, SpansOf, Squash;
    if c.t.undo.Bottom? {
      SquashNothing(c.t);
    } else if c.t.undo.below.Bottom? {
      SquashLastSpans(sc, c);
    } else {
      SquashInnerSpans(sc, c);
    }
  }

  lemma UndoOpSpans(sc: Schema, c: Config, order: seq<int>)
    requires Inv(sc, c) && Enabled(sc, c, UndoOp(order))
    ensures SpansOf(sc, Step(sc, c, UndoOp(order))) <= SpansOf(sc, c)
  {
    hide Inv, SpansOf, UndoSession, RestoreOrder;
    if c.t.undo.Push? {
      UndoSpans(sc, c, order);
    } else {
      UndoNothing(c.t, order);
    }
  }

  lemma RowOpSpans(sc: Schema, c: Config, op: Op)
    requires Inv(sc, c) && Enabled(sc, c, op) && (op.EmplaceOp? || op.ModifyOp? || op.RemoveOp?)
    ensures SpansOf(sc, Step(sc, c, op)) == SpansOf(sc, c)
  {
    hide Inv, SpansOf, Modify, Emplace, Remove, Conflict, AbsOf, OnlyRowsMoved, CanStep;
    var t, c' := c.t, Step(sc, c, op);
    match op
    case EmplaceOp(obj) =>
      if EmplaceError(sc, t, obj).None? {
        EmplaceRefines(sc, c, obj);
        RowsMovedSpans(sc, c, c');
      } else {
        EmplaceNothing(sc, t, obj);
      }
    case ModifyOp(id, updated) =>
      if ModifyError(sc, t, id, updated).None? {
        ModifyRefines(sc, c, id, updated);
        RowsMovedSpans(sc, c, c');
      } else {
        ModifyNothing(sc, t, id, updated);
      }
    case RemoveOp(id) =>
      if id in t.rows {
        RemoveRefines(sc, c, id);
        RowsMovedSpans(sc, c, c');
      } else {
        RemoveNothing(t, id);
      }
  }

  lemma FreeOpSpans(sc: Schema, c: Config, r: BlobRef)
    requires Single(r) <= c.held
    ensures SpansOf(sc, Config(FreeBlob(c.t, r), c.held - Single(r))) == SpansOf(sc, c)
  {
    hide SpansOf;
    if r.len == 0 {
      assert c.held - Single(r) == c.held;
    } else {
      assert r in Single(r);
      FreeSpans(sc, c, r);
    }
  }

  lemma SameCore(sc: Schema, c: Config, c': Config)
    requires CoreOf(c'.t) == CoreOf(c.t) && c'.held == c.held && c'.t.undo == c.t.undo
    ensures SpansOf(sc, c') == SpansOf(sc, c)
  {
  }

  lemma EmplaceNothing(sc: Schema, t: Tab, obj: Row)
    requires EmplaceError(sc, t, obj).Some?
    ensures Emplace(sc, t, obj) == t
  {
  }

  lemma ModifyNothing(sc: Schema, t: Tab, id: int, updated: Row)
    requires ModifyError(sc, t, id, updated).Some?
    ensures Modify(sc, t, id, updated) == t
  {
  }

  lemma RemoveNothing(t: Tab, id: int)
    requires id !in t.rows
    ensures Remove(t, id) == t
  {
  }

  lemma SquashNothing(t: Tab)
    requires t.undo.Bottom?
    ensures Squash(t) == t
  {
  }

  /** Only a flush moves the flushed length, and not down. */
  lemma FlushedKept(sc: Schema, t: Tab, op: Op)
    requires CanStep(t, op)
    ensures var t' := TabStep(sc, t, op); if op.FlushOp? then t'.flushed == |t.blobs| else t'.flushed == t.flushed
  {
    hide Conflict, FindFree, Write, Merge, Restore, MarkAll, FreeInside, RemoveAt;
  }

  // ----- every run ----------------------------------------------------------

  lemma StepCoherent(sc: Schema, c: Config, c': Config)
    requires Inv(sc, c) && Coherent(sc, c) && Follows(sc, c, c')
    ensures Coherent(sc, c')
  {
    hide SpansOf, RowInv, PatchesOK, Settled;
    var len: nat :| SpansOf(sc, c') <= SpansOf(sc, c) + {BlobRef(|c.t.blobs|, len)};
    forall a, b | a in SpansOf(sc, c') && b in SpansOf(sc, c') ensures a == b || Apart(a, b) {
      if a in SpansOf(sc, c) {
        SpanInside(sc, c, a);
      }
      if b in SpansOf(sc, c) {
        SpanInside(sc, c, b);
      }
    }
  }

  lemma SpanInside(sc: Schema, c: Config, a: BlobRef)
    requires Inv(sc, c) && a in SpansOf(sc, c)
    ensures 0 < a.len && a.off + a.len <= |c.t.blobs| && Settled(a, c.t.patches, c.t.flushed)
  {
    hide RowInv, PatchesOK, BlobStack, AllSpans, Settled;
    AllInside(sc, CoreOf(c.t), c.held, c.t.undo, c.t.patches, c.t.flushed, a);
  }

  /** Over every run the spans stay coherent, and below the length flushed at its start no new span appears. */
  lemma {:induction false} RunFollows(sc: Schema, c: Config, ops: seq<Op>)
    requires Inv(sc, c) && Coherent(sc, c) && Legal(sc, c, ops)
    ensures var c' := Run(sc, c, ops);
            && Inv(sc, c') && Coherent(sc, c')
            && c.t.flushed <= c'.t.flushed
            && forall b :: b in SpansOf(sc, c') && b.off < c.t.flushed ==> b in SpansOf(sc, c)
    decreases |ops|
  {
    hide Inv, SpansOf, Step, Enabled, Coherent, AbsOf, AbsStep;
    if ops != [] {
      var c1 := Step(sc, c, ops[0]);
      StepRefines(sc, c, ops[0]);
      StepFollows(sc, c, ops[0]);
      StepCoherent(sc, c, c1);
      FlushedInside(sc, c);
      RunFollows(sc, c1, ops[1..]);
    }
  }

  lemma {:induction false} RowSpansKnown(sc: Schema, core: Core, held: multiset<BlobRef>, st: Stack<Session>, k: nat,
                                         id: int, a: BlobRef)
    requires k <= Depth(st) && id in Level(core, st, k).rows && a in sc.refs(Level(core, st, k).rows[id])
    ensures a in AllSpans(sc, core, held, st)
    decreases k
  {
    if k == 0 {
      RefsOfContains(sc, core.rows, id);
    } else {
      RowSpansKnown(sc, Back(core, st.top), multiset{}, st.below, k - 1, id, a);
    }
  }

  /** The `k`th session lists `r` as freed or reused. */
  predicate Listed(st: Stack<Session>, k: nat, r: BlobRef)
  {
    Nth(st, k).Some? && (r in Nth(st, k).value.freed || r in Nth(st, k).value.reused)
  }

  lemma {:induction false} ListedKnown(sc: Schema, core: Core, held: multiset<BlobRef>, st: Stack<Session>, k: nat,
                                       r: BlobRef)
    requires Listed(st, k, r)
    ensures r in AllSpans(sc, core, held, st)
    decreases k
  {
    hide RefsOf, Restore;
    var s := st.top;
    if k > 0 {
      ListedKnown(sc, Back(core, s), multiset{}, st.below, k - 1, r);
    } else if r in s.freed {
      assert r in multiset(s.freed);
      assert r in Spans(sc, core, held, st);
    } else {
      assert r in multiset(s.reused);
      assert r in Spans(sc, Back(core, s), multiset{}, st.below);
      assert r in AllSpans(sc, Back(core, s), multiset{}, st.below);
    }
  }

  /** `a` is a span of a row that is live or that undoing `k` sessions brings back. */
  ghost predicate RowSpan(sc: Schema, t: Tab, k: nat, a: BlobRef)
  {
    k <= Depth(t.undo) && exists id ::
        id in Level(CoreOf(t), t.undo, k).rows && a in sc.refs(Level(CoreOf(t), t.undo, k).rows[id])
  }

  /**
    Free spans are pairwise disjoint and overlap no blob of a row that is live or
    that some open session could bring back. Any two spans of any rows at any
    levels, free, freed, reused or held, are equal or disjoint, and so are patched
    spans with each of them and with one another: an offset has one length.
   */
  ghost predicate SpansSafe(sc: Schema, c: Config)
  {
    var t := c.t;
    && (forall i, j :: 0 <= i < j < |t.free| ==> Apart(t.free[i], t.free[j]))
    && (forall k: nat, a, r | RowSpan(sc, t, k, a) && r in t.free :: Apart(r, a))
    && (forall k: nat, a | RowSpan(sc, t, k, a) :: a in SpansOf(sc, c))
    && (forall k: nat, a | Listed(t.undo, k, a) :: a in SpansOf(sc, c))
    && (forall a :: a in t.free ==> a in SpansOf(sc, c))
    && (forall a, b :: a in SpansOf(sc, c) && b in SpansOf(sc, c) ==> a == b || Apart(a, b))
    && (forall a, p :: a in SpansOf(sc, c) && p in t.patches ==> a == p || Apart(p, a))
    && (forall p, q :: p in t.patches && q in t.patches ==> p == q || Apart(p, q))
    && (forall a :: a in SpansOf(sc, c) ==> 0 < a.len && (a.off + a.len <= t.flushed || t.flushed <= a.off))
  }

  lemma RowSpanFacts(sc: Schema, c: Config, k: nat, a: BlobRef)
    requires Inv(sc, c) && RowSpan(sc, c.t, k, a)
    ensures a in SpansOf(sc, c) && forall r :: r in c.t.free ==> Apart(r, a)
  {
    hide AllSpans, Tiling, RowInv, PatchesOK, Level, BlobStack;
    var t := c.t;
    var id :| id in Level(CoreOf(t), t.undo, k).rows && a in sc.refs(Level(CoreOf(t), t.undo, k).rows[id]);
    RowSpansKnown(sc, CoreOf(t), c.held, t.undo, k, id, a);
    forall r | r in t.free ensures Apart(r, a) {
      assert r in multiset(t.free);
      FreeNeverReachable(sc, CoreOf(t), c.held, t.undo, t.patches, t.flushed, k, id, a, r);
    }
  }

  lemma OtherSpansKnown(sc: Schema, c: Config, k: nat, a: BlobRef)
    requires Listed(c.t.undo, k, a) || a in c.t.free
    ensures a in SpansOf(sc, c)
  {
    hide Listed, RefsOf, SavedSpans;
    if a in c.t.free {
      assert a in multiset(c.t.free);
      assert a in Spans(sc, CoreOf(c.t), c.held, c.t.undo);
    } else {
      ListedKnown(sc, CoreOf(c.t), c.held, c.t.undo, k, a);
    }
  }

  /** Blob safety in every state the table can reach. */
  lemma ReachableSpans(sc: Schema, c: Config, ops: seq<Op>)
    requires Inv(sc, c) && Coherent(sc, c) && Legal(sc, c, ops)
    ensures SpansSafe(sc, Run(sc, c, ops))
  {
    hide Inv, SpansOf, RowSpan, Listed, Run, Legal;
    RunFollows(sc, c, ops);
    var c' := Run(sc, c, ops);
    var t := c'.t;
    forall i, j | 0 <= i < j < |t.free| ensures Apart(t.free[i], t.free[j]) {
      FreeApartInList(sc, c', i, j);
    }
    forall k: nat, a | RowSpan(sc, t, k, a) ensures a in SpansOf(sc, c') && forall r :: r in t.free ==> Apart(r, a) {
      RowSpanFacts(sc, c', k, a);
    }
    forall k: nat, a | Listed(t.undo, k, a) ensures a in SpansOf(sc, c') {
      OtherSpansKnown(sc, c', k, a);
    }
    forall a | a in t.free ensures a in SpansOf(sc, c') {
      OtherSpansKnown(sc, c', 0, a);
    }
    forall a | a in SpansOf(sc, c') ensures 0 < a.len && Settled(a, t.patches, t.flushed) {
      SpanInside(sc, c', a);
    }
    PatchesApart(sc, c');
  }

  lemma PatchesApart(sc: Schema, c: Config)
    requires Inv(sc, c)
    ensures forall p, q :: p in c.t.patches && q in c.t.patches ==> p == q || Apart(p, q)
  {
    hide RowInv, BlobStack;
  }

  /** So it is in every state that a table without open sessions can reach: a new one, or one that was read back. */
  lemma ReachableFromRest(sc: Schema, c: Config, ops: seq<Op>)
    requires Inv(sc, c) && c.t.undo.Bottom? && Legal(sc, c, ops)
    ensures SpansSafe(sc, Run(sc, c, ops)) && Coherent(sc, Run(sc, c, ops))
  {
    hide Inv, SpansSafe, Coherent, Run, Legal;
    RestCoherent(sc, c);
    ReachableSpans(sc, c, ops);
    RunFollows(sc, c, ops);
  }

  /**
    Along every run an offset below the length flushed at its start keeps its
    length: any two spans there, one from before the run and one from after it,
    of whatever levels and owners, are the same if they start at the same offset.
   */
  lemma LengthsStayFixed(sc: Schema, c: Config, ops: seq<Op>, a: BlobRef, b: BlobRef)
    requires Inv(sc, c) && Coherent(sc, c) && Legal(sc, c, ops)
    requires a in SpansOf(sc, c) && b in SpansOf(sc, Run(sc, c, ops)) && a.off == b.off < c.t.flushed
    ensures a == b
  {
    hide Inv, SpansOf, Run, Legal;
    RunFollows(sc, c, ops);
    SpanInside(sc, c, a);
    SpanInside(sc, c, b);
  }
}
