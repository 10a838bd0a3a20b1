/**
  A table with its undo sessions, span reuse and partial commits behaves like a
  store that copies its whole visible state whenever a session starts and puts
  the copy back on undo, over every run of operations that callers may make.
 */
module Refinement {
  import opened ArenaTypes
  import opened TableSpec
  import opened RowHistory
  import opened BlobSafety
  import opened TableOps

  function Single(r: BlobRef): multiset<BlobRef>
  {
    if r.len == 0 then multiset{} else multiset{r}
  }

  /** The reference an allocation of `bytes` returns once `was` has been released. */
  function ReallocRef(t: Tab, was: BlobRef, bytes: seq<Byte>): BlobRef
  {
    AllocRef(FreeBlob(t, was), bytes)
  }

  /**
    What callers owe the table: a span is stored in at most one row field and
    released at most once, after its field dropped it. Releasing a field's span,
    allocating its new value and modifying the row is one step.
   */
  ghost predicate Enabled(sc: Schema, c: Config, op: Op)
  {
    var t := c.t;
    match op
    case AllocOp(bytes) => |t.blobs| + |bytes| < U32
    case FreeOp(r) => Single(r) <= c.held
    case EmplaceOp(obj) => |obj.data| == sc.size && sc.refs(WithId(t, obj)) <= c.held
    case ModifyOp(id, updated) => |updated.data| == sc.size
        && (id in t.rows ==> sc.refs(updated) <= sc.refs(t.rows[id]) + c.held)
    case RewriteOp(id, was, bytes, updated) =>
      && |t.blobs| + |bytes| < U32
      && |updated.data| == sc.size
      && ModifyError(sc, t, id, updated).None?
      && Single(was) <= sc.refs(t.rows[id])
      && sc.refs(updated) == sc.refs(t.rows[id]) - Single(was) + Single(ReallocRef(t, was, bytes))
    case UndoOp(order) => t.undo.Push? ==> RestoreOrder(t.undo.top, order)
    case FlushOp => t.undo.Bottom?
    case _ => true
  }

  lemma ReleasedInside(sc: Schema, c: Config, id: int, was: BlobRef)
    requires Inv(sc, c) && id in c.t.rows && Single(was) <= sc.refs(c.t.rows[id])
    ensures FreeInside(FreeBlob(c.t, was))
  {
    FreeIsInside(sc, c);
    if was.len != 0 {
      RefsOfContains(sc, c.t.rows, id);
      assert was in Single(was);
      assert was in Spans(sc, CoreOf(c.t), c.held, c.t.undo);
    }
  }

  lemma CanStepInside(sc: Schema, c: Config, op: Op)
    requires Inv(sc, c) && Enabled(sc, c, op)
    ensures CanStep(c.t, op)
  {
    FreeIsInside(sc, c);
    if op.RewriteOp? {
      ReleasedInside(sc, c, op.id, op.was);
    }
  }

  /** The spans callers hold after an operation; those held when a session is undone are lost with it. */
  ghost function HeldAfter(sc: Schema, c: Config, op: Op): multiset<BlobRef>
  {
    var t := c.t;
    match op
    case AllocOp(bytes) => c.held + Single(AllocRef(t, bytes))
    case FreeOp(r) => c.held - Single(r)
    case EmplaceOp(obj) => if EmplaceError(sc, t, obj).Some? then c.held else c.held - sc.refs(WithId(t, obj))
    case ModifyOp(id, updated) =>
      if ModifyError(sc, t, id, updated).Some? then c.held else c.held + sc.refs(t.rows[id]) - sc.refs(updated)
    case RemoveOp(id) => if id in t.rows then c.held + sc.refs(t.rows[id]) else c.held
    case UndoOp(_) => if t.undo.Bottom? then c.held else multiset{}
    case _ => c.held
  }

  ghost function Step(sc: Schema, c: Config, op: Op): Config
    requires Inv(sc, c) && Enabled(sc, c, op)
  {
    CanStepInside(sc, c, op);
    Config(TabStep(sc, c.t, op), HeldAfter(sc, c, op))
  }

  // ----- the copying store --------------------------------------------------

  /** The copying store: the visible state, and a full copy for each open session. */
  datatype Abs = Abs(cur: Obs, saved: Stack<Obs>, revision: int)

  ghost function AbsOf(sc: Schema, c: Config): Abs
  {
    Abs(Observe(sc, CoreOf(c.t), c.held), Saved(sc, CoreOf(c.t), c.t.undo), c.t.revision)
  }

  /** What a session start copies: callers' unstored blobs are not part of it. */
  ghost function Copy(sc: Schema, o: Obs): Obs
  {
    o.(store := map r | r in o.store && r in RefsOf(sc, o.rows) :: o.store[r])
  }

  function Without(o: Obs, r: BlobRef): Obs
  {
    if r.len == 0 then o else o.(store := o.store - {r})
  }

  function With(o: Obs, r: BlobRef, bytes: seq<Byte>): Obs
  {
    if bytes == [] then o else o.(store := o.store[r := bytes])
  }

  /** One step of the copying store; `r` is the name the allocator picked, if it was asked. */
  ghost function AbsStep(sc: Schema, a: Abs, op: Op, r: BlobRef): Abs
  {
    var o := a.cur;
    match op
    case AllocOp(bytes) => a.(cur := With(o, r, bytes))
    case FreeOp(x) => a.(cur := Without(o, x))
    case EmplaceOp(obj) =>
      var row := obj.(id := o.nextId);
      if Conflict(sc, o.rows, row, 0).Some? then a
      else a.(cur := o.(rows := o.rows[o.nextId := row], nextId := o.nextId + 1))
    case ModifyOp(id, updated) =>
      if id !in o.rows || updated.id != id || Conflict(sc, o.rows, updated, 0).Some? then a
      else a.(cur := o.(rows := o.rows[id := updated]))
    case RemoveOp(id) => a.(cur := o.(rows := o.rows - {id}))
    case RewriteOp(id, was, bytes, updated) =>
        a.(cur := With(Without(o, was), r, bytes).(rows := o.rows[id := updated]))
    case StartOp => a.(saved := Push(Copy(sc, o), a.saved), revision := a.revision + 1)
    case UndoOp(_) => if a.saved.Bottom? then a else Abs(a.saved.top, a.saved.below, a.revision - 1)
    case SquashOp => if a.saved.Bottom? then a else a.(saved := a.saved.below, revision := a.revision - 1)
    case CommitOp(revision) => a.(saved := Innermost(a.saved, KeptBy(Depth(a.saved), a.revision, revision)))
    case SetRevisionOp(revision) => if a.saved.Bottom? && a.revision <= revision then a.(revision := revision) else a
    case FlushOp => a
  }

  /** The name an operation's allocation returns. */
  function Allocated(t: Tab, op: Op): BlobRef
  {
    match op
    case AllocOp(bytes) => AllocRef(t, bytes)
    case RewriteOp(_, was, bytes, _) => ReallocRef(t, was, bytes)
    case _ => BlobRef(0, 0)
  }

  ghost predicate Refines(sc: Schema, c: Config, op: Op)
    requires Inv(sc, c) && Enabled(sc, c, op)
  {
    && Inv(sc, Step(sc, c, op))
    && AbsOf(sc, Step(sc, c, op)) == AbsStep(sc, AbsOf(sc, c), op, Allocated(c.t, op))
  }

  // ----- row operations -----------------------------------------------------

  /** Nothing but rows and unstored spans moved, and the open session still leads back to the same state. */
  ghost predicate OnlyRowsMoved(sc: Schema, c: Config, c': Config)
  {
    && c'.t.blobs == c.t.blobs && c'.t.free == c.t.free && c'.t.patches == c.t.patches && c'.t.flushed == c.t.flushed
    && Owned(sc, c'.t.rows, c'.held) == Owned(sc, c.t.rows, c.held)
    && match c.t.undo
       case Bottom => c'.t.undo.Bottom?
       case Push(s, below) =>
         && c'.t.undo.Push? && c'.t.undo.below == below
         && c'.t.undo.top.freed == s.freed && c'.t.undo.top.reused == s.reused
         && c'.t.undo.top.oldBlobLen == s.oldBlobLen && c'.t.undo.top.oldNextId == s.oldNextId
         && Restore(c'.t.undo.top, c'.t.rows) == Restore(s, c.t.rows)
  }

  lemma RowsMovedKeeps(sc: Schema, c: Config, c': Config)
    requires Inv(sc, c) && OnlyRowsMoved(sc, c, c') && RowInv(sc, c'.t)
    ensures Inv(sc, c')
    ensures AbsOf(sc, c').saved == AbsOf(sc, c).saved
    ensures AbsOf(sc, c').cur.store == AbsOf(sc, c).cur.store
  {
    assert Spans(sc, CoreOf(c'.t), c'.held, c'.t.undo) == Spans(sc, CoreOf(c.t), c.held, c.t.undo);
    if c.t.undo.Push? {
      assert Back(CoreOf(c'.t), c'.t.undo.top) == Back(CoreOf(c.t), c.t.undo.top);
    }
  }

  lemma EmplaceMoves(sc: Schema, c: Config, obj: Row)
    requires Inv(sc, c) && |obj.data| == sc.size && sc.refs(WithId(c.t, obj)) <= c.held
    requires EmplaceError(sc, c.t, obj).None?
    ensures var c' := Config(Emplace(sc, c.t, obj), c.held - sc.refs(WithId(c.t, obj)));
            OnlyRowsMoved(sc, c, c') && RowInv(sc, c'.t)
  {
    hide BlobStack, PatchesOK, KeysUnique, Restore;
    var t := c.t;
    EmplaceKeepsRows(sc, t, obj);
    RefsOfUpdate(sc, t.rows, t.nextId, WithId(t, obj));
    assert t.rows - {t.nextId} == t.rows;
    if t.undo.Push? {
      RestoreAfterEmplace(t.undo.top, t.nextId, t.rows, WithId(t, obj));
    }
  }

  lemma EmplaceRefines(sc: Schema, c: Config, obj: Row)
    requires Inv(sc, c) && |obj.data| == sc.size && sc.refs(WithId(c.t, obj)) <= c.held
    requires EmplaceError(sc, c.t, obj).None?
    ensures var c', o := Config(Emplace(sc, c.t, obj), c.held - sc.refs(WithId(c.t, obj))), AbsOf(sc, c).cur;
            && Inv(sc, c') && OnlyRowsMoved(sc, c, c')
            && AbsOf(sc, c') == AbsOf(sc, c).(cur :=
                                              o.(rows := o.rows[o.nextId := WithId(c.t, obj)], nextId := o.nextId + 1))
  {
    hide Inv, RowInv, OnlyRowsMoved, Saved, BlobSafety.Contents;
    EmplaceMoves(sc, c, obj);
    RowsMovedKeeps(sc, c, Config(Emplace(sc, c.t, obj), c.held - sc.refs(WithId(c.t, obj))));
  }

  lemma Exchange(rest: multiset<BlobRef>, was: multiset<BlobRef>, now: multiset<BlobRef>, held: multiset<BlobRef>)
    requires now <= was + held
    ensures (now + rest) + (held + was - now) == (was + rest) + held
  {
  }

  lemma ModifyRefines(sc: Schema, c: Config, id: int, updated: Row)
    requires Inv(sc, c) && |updated.data| == sc.size && ModifyError(sc, c.t, id, updated).None?
    requires sc.refs(updated) <= sc.refs(c.t.rows[id]) + c.held
    ensures var c', o := Config(Modify(sc, c.t, id, updated), c.held + sc.refs(c.t.rows[id]) - sc.refs(updated)),
            AbsOf(sc, c).cur;
            && Inv(sc, c') && OnlyRowsMoved(sc, c, c')
            && AbsOf(sc, c') == AbsOf(sc, c).(cur := o.(rows := o.rows[id := updated]))
  {
    var t := c.t;
    ModifyKeepsRows(sc, t, id, updated);
    RefsOfUpdate(sc, t.rows, id, updated);
    RefsOfRemove(sc, t.rows, id);
    Exchange(RefsOf(sc, t.rows - {id}), sc.refs(t.rows[id]), sc.refs(updated), c.held);
    if t.undo.Push? {
      RestoreAfterModify(t.undo.top, t.nextId, t.rows, id, updated);
    }
    RowsMovedKeeps(sc, c, Config(Modify(sc, t, id, updated), c.held + sc.refs(t.rows[id]) - sc.refs(updated)));
  }

  lemma RemoveRefines(sc: Schema, c: Config, id: int)
    requires Inv(sc, c) && id in c.t.rows
    ensures var c', o := Config(Remove(c.t, id), c.held + sc.refs(c.t.rows[id])), AbsOf(sc, c).cur;
            && Inv(sc, c') && OnlyRowsMoved(sc, c, c')
            && AbsOf(sc, c') == AbsOf(sc, c).(cur := o.(rows := o.rows - {id}))
  {
    var t := c.t;
    RemoveKeepsRows(sc, t, id);
    RefsOfRemove(sc, t.rows, id);
    if t.undo.Push? {
      RestoreAfterRemove(t.undo.top, t.nextId, t.rows, id);
    }
    RowsMovedKeeps(sc, c, Config(Remove(t, id), c.held + sc.refs(t.rows[id])));
  }

  // ----- blob operations ----------------------------------------------------

  lemma FreeMoves(owned: multiset<BlobRef>, spare: multiset<BlobRef>, r: BlobRef)
    requires r in owned
    ensures (owned - multiset{r}) + (spare + multiset{r}) == owned + spare
  {
  }

  lemma FreeMovesOwned(refs: multiset<BlobRef>, held: multiset<BlobRef>, r: BlobRef)
    requires r in held
    ensures refs + (held - multiset{r}) == refs + held - multiset{r}
  {
  }

  lemma FreeKeepsRows(sc: Schema, t: Tab, r: BlobRef)
    requires RowInv(sc, t)
    ensures RowInv(sc, FreeBlob(t, r))
  {
    hide RowsOK, Lists;
    if t.undo.Push? {
      assert Restore(t.undo.top.(freed := t.undo.top.freed + [r]), t.rows) == Restore(t.undo.top, t.rows);
    }
  }

  lemma BackAfterFree(core: Core, s: Session, r: BlobRef)
    ensures Back(core, s.(freed := s.freed + [r])) == Back(core, s)
  {
  }

  lemma SpansAfterFree(sc: Schema, c: Config, r: BlobRef)
    requires r in c.held && 0 < r.len
    ensures var c' := Config(FreeBlob(c.t, r), c.held - multiset{r});
            Spans(sc, CoreOf(c'.t), c'.held, c'.t.undo) == Spans(sc, CoreOf(c.t), c.held, c.t.undo)
  {
    hide RefsOf;
    var t, c' := c.t, Config(FreeBlob(c.t, r), c.held - multiset{r});
    var owned, spare := Owned(sc, t.rows, c.held), Spare(multiset(t.free), t.undo);
    FreeMovesOwned(RefsOf(sc, t.rows), c.held, r);
    assert Owned(sc, c'.t.rows, c'.held) == owned - multiset{r};
    assert Spare(multiset(c'.t.free), c'.t.undo) == spare + multiset{r};
    FreeMoves(owned, spare, r);
  }

  lemma FreeKeepsSpans(sc: Schema, c: Config, r: BlobRef)
    requires Inv(sc, c) && r in c.held && 0 < r.len
    ensures var c' := Config(FreeBlob(c.t, r), c.held - multiset{r});
            Inv(sc, c') && AbsOf(sc, c').saved == AbsOf(sc, c).saved
  {
    hide RowInv, Tiling, PatchesOK, Observe, RefsOf, Back, Spans;
    FreeKeepsRows(sc, c.t, r);
    SpansAfterFree(sc, c, r);
    if c.t.undo.Push? {
      BackAfterFree(CoreOf(c.t), c.t.undo.top, r);
    }
  }

  lemma MinusOne(m: multiset<BlobRef>, r: BlobRef)
    requires m[r] == 1
    ensures forall a :: a in m - multiset{r} <==> a in m && a != r
  {
  }

  /** Releasing a span owned once makes it, and nothing else, invisible. */
  lemma ForgetOne(blobs: seq<Byte>, m: multiset<BlobRef>, r: BlobRef)
    requires m[r] == 1
    ensures Contents(blobs, m - multiset{r}) == Contents(blobs, m) - {r}
  {
    MinusOne(m, r);
  }

  lemma OwnedOnce(sc: Schema, c: Config, r: BlobRef)
    requires Inv(sc, c) && r in Owned(sc, c.t.rows, c.held)
    ensures Owned(sc, c.t.rows, c.held)[r] == 1 && 0 < r.len && r.off + r.len <= |c.t.blobs|
  {
    assert Spans(sc, CoreOf(c.t), c.held, c.t.undo)[r] >= Owned(sc, c.t.rows, c.held)[r];
  }

  lemma FreeRefines(sc: Schema, c: Config, r: BlobRef)
    requires Inv(sc, c) && r in c.held && 0 < r.len
    ensures var c' := Config(FreeBlob(c.t, r), c.held - multiset{r});
            Inv(sc, c') && AbsOf(sc, c') == AbsOf(sc, c).(cur := Without(AbsOf(sc, c).cur, r))
  {
    hide Inv, Saved, Contents;
    FreeKeepsSpans(sc, c, r);
    OwnedOnce(sc, c, r);
    FreeMovesOwned(RefsOf(sc, c.t.rows), c.held, r);
    ForgetOne(c.t.blobs, Owned(sc, c.t.rows, c.held), r);
  }

  lemma MultisetRemoveAt(s: seq<BlobRef>, i: nat)
    requires i < |s|
    ensures multiset(RemoveAt(s, i)) == multiset(s) - multiset{s[i]}
    ensures s[i] in multiset(s)
  {
    assert s == s[..i] + [s[i]] + s[i + 1..];
  }

  /** A span past the end of everything joins a tiling. */
  lemma TilingGrows(owned: multiset<BlobRef>, spare: multiset<BlobRef>, bound: nat, len: nat, patches: seq<BlobRef>,
                    flushed: nat)
    requires Tiling(owned + spare, bound, patches, flushed) && flushed <= bound && PatchesOK(patches, flushed)
    requires 0 < len
    ensures BlobRef(bound, len) !in owned + spare
    ensures Tiling((owned + multiset{BlobRef(bound, len)}) + spare, bound + len, patches, flushed)
  {
    var r := BlobRef(bound, len);
    var m, m' := owned + spare, (owned + multiset{r}) + spare;
    assert r !in m;
    assert m' == m + multiset{r};
    assert Settled(r, patches, flushed);
  }

  lemma AppendKeepsSpans(sc: Schema, c: Config, bytes: seq<Byte>)
    requires Inv(sc, c) && bytes != []
    ensures var c' := Config(c.t.(blobs := c.t.blobs + bytes), c.held + multiset{BlobRef(|c.t.blobs|, |bytes|)});
            Inv(sc, c') && AbsOf(sc, c').saved == AbsOf(sc, c).saved
  {
    var t, r := c.t, BlobRef(|c.t.blobs|, |bytes|);
    var c' := Config(t.(blobs := t.blobs + bytes), c.held + multiset{r});
    var owned, spare := Owned(sc, t.rows, c.held), Spare(multiset(t.free), t.undo);
    assert Owned(sc, c'.t.rows, c'.held) == owned + multiset{r};
    TilingGrows(owned, spare, |t.blobs|, |bytes|, t.patches, t.flushed);
    if t.undo.Push? {
      assert Truncate(c'.t.blobs, t.undo.top.oldBlobLen) == Truncate(t.blobs, t.undo.top.oldBlobLen);
      assert Back(CoreOf(c'.t), t.undo.top) == Back(CoreOf(t), t.undo.top);
    }
  }

  lemma ShowOne(blobs: seq<Byte>, m: multiset<BlobRef>, bytes: seq<Byte>)
    requires bytes != []
    requires forall a :: a in m ==> a.off + a.len <= |blobs|
    ensures var r := BlobRef(|blobs|, |bytes|);
            Contents(blobs + bytes, m + multiset{r}) == Contents(blobs, m)[r := bytes]
  {
    var r := BlobRef(|blobs|, |bytes|);
    forall a | a in m ensures Read(blobs + bytes, a) == Read(blobs, a) && a != r {
    }
    assert Read(blobs + bytes, r) == bytes;
  }

  /** Growing the arena leaves every saved state alone. */
  lemma AppendRefines(sc: Schema, c: Config, bytes: seq<Byte>)
    requires Inv(sc, c) && bytes != []
    ensures var r := BlobRef(|c.t.blobs|, |bytes|);
            var c' := Config(c.t.(blobs := c.t.blobs + bytes), c.held + multiset{r});
            Inv(sc, c') && AbsOf(sc, c') == AbsOf(sc, c).(cur := With(AbsOf(sc, c).cur, r, bytes))
  {
    hide Inv, Saved, Contents;
    AppendKeepsSpans(sc, c, bytes);
    var r, owned := BlobRef(|c.t.blobs|, |bytes|), Owned(sc, c.t.rows, c.held);
    forall a | a in owned ensures a.off + a.len <= |c.t.blobs| {
      OwnedOnce(sc, c, a);
    }
    ShowOne(c.t.blobs, owned, bytes);
    assert Owned(sc, c.t.rows, c.held + multiset{r}) == owned + multiset{r};
  }

  /** Handing a free span to a caller; the open session remembers to take it back. */
  lemma TakeFree(sc: Schema, core: Core, held: multiset<BlobRef>, st: Stack<Session>,
                 patches: seq<BlobRef>, flushed: nat, r: BlobRef)
    requires BlobStack(sc, core, held, st, patches, flushed) && r in core.free
    ensures var core' := core.(free := core.free - multiset{r});
            var st' := if st.Bottom? then Bottom else OnTop(st, st.top.(reused := st.top.reused + [r]));
            && BlobStack(sc, core', held + multiset{r}, st', patches, flushed)
            && Saved(sc, core', st') == Saved(sc, core, st)
  {
    var core' := core.(free := core.free - multiset{r});
    var st' := if st.Bottom? then Bottom else OnTop(st, st.top.(reused := st.top.reused + [r]));
    TakeMoves(RefsOf(sc, core.rows), held, core.free, Freed(st), r);
    assert Spans(sc, core', held + multiset{r}, st') == Spans(sc, core, held, st);
    if st.Push? {
      TakeBack(core.free, st.top.reused, r);
      assert Back(core', st'.top) == Back(core, st.top);
    }
  }

  lemma TakeMoves(refs: multiset<BlobRef>, held: multiset<BlobRef>, free: multiset<BlobRef>, freed: multiset<BlobRef>,
                  r: BlobRef)
    requires r in free
    ensures (refs + (held + multiset{r})) + ((free - multiset{r}) + freed) == (refs + held) + (free + freed)
  {
  }

  lemma TakeBack(free: multiset<BlobRef>, reused: seq<BlobRef>, r: BlobRef)
    requires r in free
    ensures (free - multiset{r}) + multiset(reused + [r]) == free + multiset(reused)
  {
  }

  lemma ShowWritten(blobs: seq<Byte>, m: multiset<BlobRef>, r: BlobRef, bytes: seq<Byte>)
    requires r.len == |bytes| && r.off + r.len <= |blobs|
    ensures Contents(Write(blobs, r.off, bytes), m + multiset{r}) == Contents(Write(blobs, r.off, bytes), m)[r := bytes]
  {
    assert Read(Write(blobs, r.off, bytes), r) == bytes;
  }

  lemma ReuseKeepsSpans(sc: Schema, c: Config, i: nat, bytes: seq<Byte>)
    requires Inv(sc, c) && i < |c.t.free| && |bytes| == c.t.free[i].len && c.t.free[i].off + |bytes| <= |c.t.blobs|
    ensures var c' := Config(Reuse(c.t, i, bytes), c.held + multiset{c.t.free[i]});
            && BlobStack(sc, CoreOf(c'.t), c'.held, c'.t.undo, c'.t.patches, c'.t.flushed)
            && AbsOf(sc, c').saved == AbsOf(sc, c).saved
  {
    var t, r := c.t, c.t.free[i];
    var t' := Reuse(t, i, bytes);
    var core := CoreOf(t);
    var filled := core.(blobs := Write(t.blobs, r.off, bytes));
    MultisetRemoveAt(t.free, i);
    FillFree(sc, core, c.held, t.undo, t.patches, t.flushed, r, bytes);
    if r.off < t.flushed {
      PatchFree(sc, filled, c.held, t.undo, t.patches, t.flushed, r);
    }
    TakeFree(sc, filled, c.held, t.undo, t'.patches, t.flushed, r);
    assert CoreOf(t') == filled.(free := filled.free - multiset{r});
  }

  lemma ReuseKeepsPatches(sc: Schema, c: Config, i: nat)
    requires Inv(sc, c) && i < |c.t.free| && c.t.free[i].off < c.t.flushed
    ensures PatchesOK(c.t.patches + [c.t.free[i]], c.t.flushed)
  {
    MultisetRemoveAt(c.t.free, i);
    assert c.t.free[i] in Spans(sc, CoreOf(c.t), c.held, c.t.undo);
  }

  /** Reusing a span shows its new bytes and changes nothing else at any level. */
  lemma ReuseRefines(sc: Schema, c: Config, i: nat, bytes: seq<Byte>)
    requires Inv(sc, c) && i < |c.t.free| && |bytes| == c.t.free[i].len && c.t.free[i].off + |bytes| <= |c.t.blobs|
    requires bytes != []
    ensures var r := c.t.free[i];
            var c' := Config(Reuse(c.t, i, bytes), c.held + multiset{r});
            Inv(sc, c') && AbsOf(sc, c') == AbsOf(sc, c).(cur := With(AbsOf(sc, c).cur, r, bytes))
  {
    hide RowInv, BlobStack, PatchesOK, Saved, Contents, Write;
    var r, owned := c.t.free[i], Owned(sc, c.t.rows, c.held);
    ReuseKeepsSpans(sc, c, i, bytes);
    MultisetRemoveAt(c.t.free, i);
    FillUnseen(sc, CoreOf(c.t), c.held, c.t.undo, c.t.patches, c.t.flushed, r, bytes);
    ShowWritten(c.t.blobs, owned, r, bytes);
    assert Owned(sc, c.t.rows, c.held + multiset{r}) == owned + multiset{r};
    if r.off < c.t.flushed {
      ReuseKeepsPatches(sc, c, i);
    }
    ReuseKeepsRows(sc, c.t, i, bytes);
  }

  lemma ReuseKeepsRows(sc: Schema, t: Tab, i: nat, bytes: seq<Byte>)
    requires RowInv(sc, t) && i < |t.free| && |bytes| == t.free[i].len && t.free[i].off + |bytes| <= |t.blobs|
    ensures RowInv(sc, Reuse(t, i, bytes))
  {
    if t.undo.Push? {
      assert Restore(Reuse(t, i, bytes).undo.top, t.rows) == Restore(t.undo.top, t.rows);
    }
  }

  lemma AllocRefines(sc: Schema, c: Config, bytes: seq<Byte>)
    requires Inv(sc, c) && FreeInside(c.t) && |c.t.blobs| + |bytes| < U32
    ensures var c' := Config(Alloc(c.t, bytes), c.held + Single(AllocRef(c.t, bytes)));
            Inv(sc, c') && AbsOf(sc, c') == AbsOf(sc, c).(cur := With(AbsOf(sc, c).cur, AllocRef(c.t, bytes), bytes))
  {
    hide Inv, AbsOf, Reuse;
    if bytes == [] {
      assert c.held + Single(AllocRef(c.t, bytes)) == c.held;
    } else {
      match FindFree(c.t.free, |bytes|)
      case Some(i) => ReuseRefines(sc, c, i, bytes);
      case None => AppendRefines(sc, c, bytes);
    }
  }

  // ----- sessions -----------------------------------------------------------

  lemma StartKeepsSpans(sc: Schema, c: Config)
    requires Inv(sc, c)
    ensures Back(CoreOf(c.t), FreshSession(c.t)) == CoreOf(c.t)
    ensures BlobStack(sc, CoreOf(c.t), c.held, Push(FreshSession(c.t), c.t.undo), c.t.patches, c.t.flushed)
  {
    var t, s, core := c.t, FreshSession(c.t), CoreOf(c.t);
    RestoreFresh(sc, t);
    assert Back(core, s) == core;
    var m, own := Spans(sc, core, c.held, t.undo), Spans(sc, core, multiset{}, t.undo);
    assert own <= m;
    TilingSub(m, own, |t.blobs|, t.patches, t.flushed);
    assert Spans(sc, core, c.held, Push(s, t.undo)) == m;
  }

  lemma CopyIsOwn(sc: Schema, core: Core, held: multiset<BlobRef>)
    ensures Copy(sc, Observe(sc, core, held)) == Observe(sc, core, multiset{})
  {
    assert Owned(sc, core.rows, multiset{}) == RefsOf(sc, core.rows);
  }

  lemma StartRefines(sc: Schema, c: Config)
    requires Inv(sc, c)
    ensures var c' := Config(StartSession(c.t), c.held); var a := AbsOf(sc, c);
            Inv(sc, c') && AbsOf(sc, c') == a.(saved := Push(Copy(sc, a.cur), a.saved), revision := a.revision + 1)
  {
    hide RowInv, BlobStack, PatchesOK, Copy, Observe, Back;
    StartKeepsRows(sc, c.t);
    StartKeepsSpans(sc, c);
    CopyIsOwn(sc, CoreOf(c.t), c.held);
  }

  lemma BelowOffsetAll(refs: seq<BlobRef>, bound: nat)
    requires forall r :: r in refs ==> r.off < bound
    ensures BelowOffset(refs, bound) == refs
  {
    if refs != [] {
      BelowOffsetAll(refs[..|refs| - 1], bound);
      assert refs == refs[..|refs| - 1] + [refs[|refs| - 1]];
    }
  }

  /** Every span a session reused lies in the arena it started with, so undo frees all of them. */
  lemma ReusedAreOld(sc: Schema, core: Core, s: Session, below: Stack<Session>, patches: seq<BlobRef>, flushed: nat)
    requires BlobStack(sc, Back(core, s), multiset{}, below, patches, flushed)
    ensures BelowOffset(s.reused, s.oldBlobLen) == s.reused
  {
    forall r | r in s.reused ensures r.off < s.oldBlobLen {
      assert r in multiset(s.reused);
      assert r in Spans(sc, Back(core, s), multiset{}, below);
    }
    BelowOffsetAll(s.reused, s.oldBlobLen);
  }

  lemma UndoLeadsBack(sc: Schema, c: Config, order: seq<int>)
    requires Inv(sc, c) && c.t.undo.Push?
    ensures CoreOf(UndoSession(c.t, order)) == Back(CoreOf(c.t), c.t.undo.top)
  {
    hide RowInv, Tiling, Restore, MarkAll, PatchesOK;
    ReusedAreOld(sc, CoreOf(c.t), c.t.undo.top, c.t.undo.below, c.t.patches, c.t.flushed);
  }

  lemma UndoRefines(sc: Schema, c: Config, order: seq<int>)
    requires Inv(sc, c) && c.t.undo.Push?
    ensures var c', a := Config(UndoSession(c.t, order), multiset{}), AbsOf(sc, c);
            Inv(sc, c') && AbsOf(sc, c') == Abs(a.saved.top, a.saved.below, a.revision - 1)
  {
    hide RowsOK, SessionOK, Tiling, Observe, Restore, Back, MarkAll, PatchesOK, BelowOffset, Truncate;
    UndoLeadsBack(sc, c, order);
  }

  lemma SquashLast(sc: Schema, c: Config)
    requires Inv(sc, c) && c.t.undo.Push? && c.t.undo.below.Bottom?
    ensures var c', a := Config(Squash(c.t), c.held), AbsOf(sc, c);
            Inv(sc, c') && AbsOf(sc, c') == a.(saved := a.saved.below, revision := a.revision - 1)
  {
    var t, s := c.t, c.t.undo.top;
    assert Spare(multiset(t.free + s.freed), Bottom) == Spare(multiset(t.free), t.undo);
    assert Saved(sc, CoreOf(t), t.undo).below == Bottom;
  }

  lemma SquashKeepsSpans(sc: Schema, c: Config)
    requires Inv(sc, c) && c.t.undo.Push? && c.t.undo.below.Push?
    ensures var s, prev, core := c.t.undo.top, c.t.undo.below.top, CoreOf(c.t);
            && Back(core, Merge(prev, s)) == Back(Back(core, s), prev)
            && BlobStack(sc, core, c.held, Push(Merge(prev, s), c.t.undo.below.below), c.t.patches, c.t.flushed)
  {
    hide RowsOK, SessionOK, Tiling, PatchesOK, Restore, Freed;
    var t, core := c.t, CoreOf(c.t);
    var s, prev, base := t.undo.top, t.undo.below.top, t.undo.below.below;
    assert RowStack(sc, s.oldNextId, Restore(s, t.rows), t.undo.below);
    assert BlobStack(sc, Back(core, s), multiset{}, t.undo.below, t.patches, t.flushed);
    RestoreAfterMerge(prev, s, t.nextId, t.rows);
    MergeBack(core, prev, s);
    MergeFreed(prev, s, base);
    hide Back, Merge;
    assert Spans(sc, core, c.held, Push(Merge(prev, s), base)) == Spans(sc, core, c.held, t.undo);
  }

  lemma SquashInner(sc: Schema, c: Config)
    requires Inv(sc, c) && c.t.undo.Push? && c.t.undo.below.Push?
    ensures var c', a := Config(Squash(c.t), c.held), AbsOf(sc, c);
            Inv(sc, c') && AbsOf(sc, c') == a.(saved := a.saved.below, revision := a.revision - 1)
  {
    hide RowInv, BlobStack, PatchesOK, Back, Observe, Merge;
    SquashKeepsRows(sc, c.t);
    SquashKeepsSpans(sc, c);
    var core, s := CoreOf(c.t), c.t.undo.top;
    assert Saved(sc, core, c.t.undo).below == Saved(sc, Back(core, s), c.t.undo.below);
  }

  lemma MergeBack(core: Core, prev: Session, s: Session)
    requires Restore(Merge(prev, s), core.rows) == Restore(prev, Restore(s, core.rows))
    requires prev.oldBlobLen <= s.oldBlobLen <= |core.blobs|
    ensures Back(core, Merge(prev, s)) == Back(Back(core, s), prev)
  {
    assert multiset(prev.reused + s.reused) == multiset(prev.reused) + multiset(s.reused);
  }

  lemma MergeFreed(prev: Session, s: Session, base: Stack<Session>)
    ensures Freed(Push(Merge(prev, s), base)) == Freed(Push(s, Push(prev, base)))
  {
    assert multiset(prev.freed + s.freed) == multiset(prev.freed) + multiset(s.freed);
  }

  // ----- partial commit -----------------------------------------------------

  lemma FreedSplit(st: Stack<Session>, keep: nat)
    ensures Freed(st) == Freed(Innermost(st, keep)) + multiset(FreedOutside(st, keep))
  {
    if st.Push? {
      FreedSplit(st.below, if keep == 0 then 0 else keep - 1);
      if keep == 0 {
        assert Innermost(st.below, 0) == Bottom;
      }
    }
  }

  lemma DropMoves(owned: multiset<BlobRef>, free: multiset<BlobRef>, freed: multiset<BlobRef>,
                  outside: multiset<BlobRef>)
    ensures owned + ((free + outside) + freed) == owned + (free + (freed + outside))
  {
  }

  lemma BackFreer(core: Core, s: Session, more: multiset<BlobRef>)
    ensures Back(core.(free := core.free + more), s) == Back(core, s).(free := Back(core, s).free + more)
  {
  }

  /** Committing the oldest sessions frees their spans at every remaining level, and none of those levels sees them. */
  lemma CommitKeepsSpans(sc: Schema, core: Core, held: multiset<BlobRef>, st: Stack<Session>,
                         patches: seq<BlobRef>, flushed: nat, keep: nat)
    requires BlobStack(sc, core, held, st, patches, flushed)
    ensures var freer := core.(free := core.free + multiset(FreedOutside(st, keep)));
            && BlobStack(sc, freer, held, Innermost(st, keep), patches, flushed)
            && Saved(sc, freer, Innermost(st, keep)) == Innermost(Saved(sc, core, st), keep)
    decreases st
  {
    hide Tiling, Observe;
    var outside := multiset(FreedOutside(st, keep));
    var freer := core.(free := core.free + outside);
    FreedSplit(st, keep);
    DropMoves(Owned(sc, core.rows, held), core.free, Freed(Innermost(st, keep)), outside);
    assert Spans(sc, freer, held, Innermost(st, keep)) == Spans(sc, core, held, st);
    if st.Push? && keep > 0 {
      var b := Back(core, st.top);
      BackFreer(core, st.top, outside);
      CommitKeepsSpans(sc, b, multiset{}, st.below, patches, flushed, keep - 1);
      ObserveFreer(sc, b, multiset{}, outside);
    }
  }

  lemma ObserveFreer(sc: Schema, core: Core, held: multiset<BlobRef>, more: multiset<BlobRef>)
    ensures Observe(sc, core.(free := core.free + more), held) == Observe(sc, core, held)
  {
  }

  lemma SavedDepth(sc: Schema, core: Core, st: Stack<Session>)
    ensures Depth(Saved(sc, core, st)) == Depth(st)
    decreases st
  {
    if st.Push? {
      SavedDepth(sc, Back(core, st.top), st.below);
    }
  }

  lemma CommitRefines(sc: Schema, c: Config, revision: int)
    requires Inv(sc, c)
    ensures var c', a := Config(Commit(c.t, revision), c.held), AbsOf(sc, c);
            Inv(sc, c')
                && AbsOf(sc, c') == a.(saved := Innermost(a.saved, KeptBy(Depth(a.saved), a.revision, revision)))
  {
    hide RowStack, BlobStack, PatchesOK, Saved, Observe, FreedOutside, Innermost;
    var t, core := c.t, CoreOf(c.t);
    SavedDepth(sc, core, t.undo);
    var keep := KeptBy(Depth(t.undo), t.revision, revision);
    var outside := FreedOutside(t.undo, keep);
    InnermostKeepsRows(sc, t.nextId, t.rows, t.undo, keep);
    CommitKeepsSpans(sc, core, c.held, t.undo, t.patches, t.flushed, keep);
    ObserveFreer(sc, core, c.held, multiset(outside));
    assert multiset(t.free + outside) == multiset(t.free) + multiset(outside);
    assert CoreOf(Commit(t, revision)) == core.(free := core.free + multiset(outside));
  }

  lemma FlushRefines(sc: Schema, c: Config)
    requires Inv(sc, c) && c.t.undo.Bottom?
    ensures var c' := Config(MarkFlushed(c.t), c.held);
            Inv(sc, c') && AbsOf(sc, c') == AbsOf(sc, c)
  {
    var t := c.t;
    assert Spans(sc, CoreOf(MarkFlushed(t)), c.held, Bottom) == Spans(sc, CoreOf(t), c.held, Bottom);
  }

  // ----- release, allocate and modify in one step ---------------------------

  lemma FindFreeSkips(free: seq<BlobRef>, r: BlobRef, len: nat)
    requires r.len != len
    ensures FindFree(free + [r], len) == FindFree(free, len)
  {
    assert (free + [r])[..|free|] == free;
  }

  /** Unless the released span is reused at once, releasing first or last makes no difference. */
  lemma AllocCommutes(t: Tab, was: BlobRef, bytes: seq<Byte>)
    requires FreeInside(t) && FreeInside(FreeBlob(t, was)) && |bytes| < U32
    requires t.undo.Push? || was.len == 0 || bytes == [] || |bytes| != was.len
    ensures Alloc(FreeBlob(t, was), bytes) == FreeBlob(Alloc(t, bytes), was)
    ensures ReallocRef(t, was, bytes) == AllocRef(t, bytes)
  {
    hide FindFree, Reuse;
    if was.len != 0 && bytes != [] {
      var found := FindFree(t.free, |bytes|);
      if t.undo.Bottom? {
        FindFreeSkips(t.free, was, |bytes|);
      }
      assert FindFree(FreeBlob(t, was).free, |bytes|) == found;
      if found.Some? {
        assert t.free[found.value] in t.free;
        ReuseCommutes(t, was, bytes, found.value);
      }
    }
  }

  lemma ReuseCommutes(t: Tab, was: BlobRef, bytes: seq<Byte>, i: nat)
    requires was.len != 0 && i < |t.free| && |bytes| == t.free[i].len && t.free[i].off + |bytes| <= |t.blobs|
    ensures i < |FreeBlob(t, was).free| && FreeBlob(t, was).free[i] == t.free[i]
    ensures Reuse(FreeBlob(t, was), i, bytes) == FreeBlob(Reuse(t, i, bytes), was)
  {
    hide Write;
    if t.undo.Bottom? {
      assert RemoveAt(t.free + [was], i) == RemoveAt(t.free, i) + [was];
    }
  }

  lemma ModifyCommutes(sc: Schema, t: Tab, id: int, was: BlobRef, updated: Row)
    ensures Modify(sc, FreeBlob(t, was), id, updated) == FreeBlob(Modify(sc, t, id, updated), was)
  {
  }

  lemma RewriteEnables(refs: multiset<BlobRef>, held: multiset<BlobRef>, was: multiset<BlobRef>, r: multiset<BlobRef>)
    requires was <= refs
    ensures refs - was + r <= refs + (held + r)
    ensures (held + r) + refs - (refs - was + r) == held + was
    ensures held + was - was == held
  {
  }

  lemma AllocKeepsRest(sc: Schema, t: Tab, bytes: seq<Byte>, id: int, updated: Row)
    requires FreeInside(t) && |bytes| < U32
    ensures Alloc(t, bytes).rows == t.rows && Alloc(t, bytes).nextId == t.nextId
    ensures ModifyError(sc, Alloc(t, bytes), id, updated) == ModifyError(sc, t, id, updated)
  {
  }

  /** A fresh allocation never has the name of a span that a row still owns. */
  lemma ReleasedApart(sc: Schema, c: Config, id: int, was: BlobRef, r: BlobRef)
    requires Inv(sc, c) && id in c.t.rows && was in sc.refs(c.t.rows[id]) && r in c.held
    ensures r != was
  {
    RefsOfContains(sc, c.t.rows, id);
    OwnedOnce(sc, c, was);
  }

  lemma WithKeepsRows(o: Obs, r: BlobRef, bytes: seq<Byte>)
    ensures With(o, r, bytes).rows == o.rows && With(o, r, bytes).nextId == o.nextId
  {
  }

  lemma WithoutNothing(o: Obs, r: BlobRef)
    requires r.len == 0
    ensures Without(o, r) == o
  {
  }

  lemma WithoutCommutes(o: Obs, rows: Rows, was: BlobRef, r: BlobRef, bytes: seq<Byte>)
    requires was.len == 0 || bytes == [] || r != was
    ensures Without(With(o, r, bytes).(rows := rows), was) == With(Without(o, was), r, bytes).(rows := rows)
  {
    if was.len != 0 && bytes != [] {
      assert o.store[r := bytes] - {was} == (o.store - {was})[r := bytes];
    }
  }

  lemma AllocLength(t: Tab, bytes: seq<Byte>)
    requires |bytes| < U32
    ensures AllocRef(t, bytes).len == |bytes|
  {
  }

  /** The new value stored before the old one is released: the old span is then held by the caller. */
  lemma RewriteStored(sc: Schema, c: Config, id: int, was: BlobRef, bytes: seq<Byte>, updated: Row)
    requires Inv(sc, c) && Enabled(sc, c, RewriteOp(id, was, bytes, updated)) && FreeInside(c.t)
    requires ReallocRef(c.t, was, bytes) == AllocRef(c.t, bytes)
    ensures var c2, r, a := Config(Modify(sc, Alloc(c.t, bytes), id, updated), c.held + Single(was)),
            AllocRef(c.t, bytes), AbsOf(sc, c);
            && Inv(sc, c2) && AbsOf(sc, c2) == a.(cur := With(a.cur, r, bytes).(rows := a.cur.rows[id := updated]))
            && (was.len == 0 || bytes == [] || r != was)
  {
    hide Inv, AbsOf, FreeInside, Alloc, AllocRef, Modify, With, Conflict;
    var t, r, a := c.t, AllocRef(c.t, bytes), AbsOf(sc, c);
    AllocRefines(sc, c, bytes);
    AllocKeepsRest(sc, t, bytes, id, updated);
    AllocLength(t, bytes);
    WithKeepsRows(a.cur, r, bytes);
    var c1 := Config(Alloc(t, bytes), c.held + Single(r));
    RewriteEnables(sc.refs(t.rows[id]), c.held, Single(was), Single(r));
    ModifyRefines(sc, c1, id, updated);
    if was.len != 0 && bytes != [] {
      assert was in Single(was) && r in Single(r);
      ReleasedApart(sc, c1, id, was, r);
    }
  }

  /** The new value went elsewhere: the same as allocating, modifying, then releasing. */
  lemma RewriteElsewhere(sc: Schema, c: Config, id: int, was: BlobRef, bytes: seq<Byte>, updated: Row)
    requires Inv(sc, c) && Enabled(sc, c, RewriteOp(id, was, bytes, updated))
    requires FreeInside(c.t) && FreeInside(FreeBlob(c.t, was))
    requires c.t.undo.Push? || was.len == 0 || bytes == [] || |bytes| != was.len
    ensures ReallocRef(c.t, was, bytes) == AllocRef(c.t, bytes)
    ensures var c' := Config(Modify(sc, Alloc(FreeBlob(c.t, was), bytes), id, updated), c.held); var a := AbsOf(sc, c);
            Inv(sc, c') && AbsOf(sc, c') ==
              a.(cur := With(Without(a.cur, was), AllocRef(c.t, bytes), bytes).(rows := a.cur.rows[id := updated]))
  {
    hide Inv, AbsOf, FreeInside, Alloc, AllocRef, Modify, With, Without, Conflict, FreeBlob;
    var t, r, a := c.t, AllocRef(c.t, bytes), AbsOf(sc, c);
    AllocCommutes(t, was, bytes);
    ModifyCommutes(sc, Alloc(t, bytes), id, was, updated);
    RewriteStored(sc, c, id, was, bytes, updated);
    var c2 := Config(Modify(sc, Alloc(t, bytes), id, updated), c.held + Single(was));
    WithoutCommutes(a.cur, a.cur.rows[id := updated], was, r, bytes);
    if was.len != 0 {
      assert was in Single(was) && c2.held - multiset{was} == c.held;
      FreeRefines(sc, c2, was);
    } else {
      assert c2.held == c.held;
      NothingFreed(c2.t, was);
      WithoutNothing(With(a.cur, r, bytes).(rows := a.cur.rows[id := updated]), was);
    }
  }

  lemma NothingFreed(t: Tab, r: BlobRef)
    requires r.len == 0
    ensures FreeBlob(t, r) == t
  {
  }

  /** With no session open, a value of the same length is written over the one it replaces. */
  lemma ReallocInPlace(t: Tab, was: BlobRef, bytes: seq<Byte>)
    requires FreeInside(FreeBlob(t, was)) && |bytes| < U32
    requires t.undo.Bottom? && |bytes| == was.len && bytes != []
    ensures ReallocRef(t, was, bytes) == was
    ensures was.off + was.len <= |t.blobs|
    ensures Alloc(FreeBlob(t, was), bytes) ==
            t.(blobs := Write(t.blobs, was.off, bytes), patches :=
               if was.off < t.flushed then t.patches + [was] else t.patches)
  {
    assert was in (t.free + [was]);
    assert RemoveAt(t.free + [was], |t.free|) == t.free;
  }

  lemma PatchOwned(m: multiset<BlobRef>, bound: nat, patches: seq<BlobRef>, flushed: nat, r: BlobRef)
    requires Tiling(m, bound, patches, flushed) && PatchesOK(patches, flushed) && r in m && r.off < flushed
    ensures Tiling(m, bound, patches + [r], flushed) && PatchesOK(patches + [r], flushed)
  {
  }

  lemma ShowOverwritten(blobs: seq<Byte>, m: multiset<BlobRef>, r: BlobRef, bytes: seq<Byte>)
    requires r in m && r.len == |bytes| && r.off + r.len <= |blobs|
    requires forall a :: a in m && a != r ==> Apart(r, a)
    ensures Contents(Write(blobs, r.off, bytes), m) == Contents(blobs, m)[r := bytes]
  {
    assert Read(Write(blobs, r.off, bytes), r) == bytes;
    forall a | a in m && a != r ensures Read(Write(blobs, r.off, bytes), a) == Read(blobs, a) {
      ReadElsewhere(blobs, r.off, bytes, a);
    }
  }

  lemma SwapSame(refs: multiset<BlobRef>, r: BlobRef)
    requires r in refs
    ensures refs - multiset{r} + multiset{r} == refs
  {
  }

  /** The table after a same-length value was written over span `r`. */
  function Overwrite(t: Tab, r: BlobRef, bytes: seq<Byte>): Tab
    requires r.off + |bytes| <= |t.blobs|
  {
    t.(blobs := Write(t.blobs, r.off, bytes), patches := if r.off < t.flushed then t.patches + [r] else t.patches)
  }

  lemma OverwriteRefines(sc: Schema, c: Config, r: BlobRef, bytes: seq<Byte>)
    requires Inv(sc, c) && c.t.undo.Bottom? && r in Owned(sc, c.t.rows, c.held) && r.len == |bytes|
    requires r.off + |bytes| <= |c.t.blobs|
    requires bytes != []
    ensures var c' := Config(Overwrite(c.t, r, bytes), c.held);
            Inv(sc, c') && AbsOf(sc, c') == AbsOf(sc, c).(cur := With(AbsOf(sc, c).cur, r, bytes))
  {
    var t, owned := c.t, Owned(sc, c.t.rows, c.held);
    var m := Spans(sc, CoreOf(t), c.held, Bottom);
    assert r in m;
    if r.off < t.flushed {
      PatchOwned(m, |t.blobs|, t.patches, t.flushed, r);
    }
    assert forall a :: a in owned ==> a in m;
    ShowOverwritten(t.blobs, owned, r, bytes);
    hide Tiling, Contents, RowsOK, Settled, PatchesOK;
    assert Spans(sc, CoreOf(Overwrite(t, r, bytes)), c.held, Bottom) == m;
  }

  lemma RewriteInPlace(sc: Schema, c: Config, id: int, was: BlobRef, bytes: seq<Byte>, updated: Row)
    requires Inv(sc, c) && Enabled(sc, c, RewriteOp(id, was, bytes, updated))
    requires FreeInside(FreeBlob(c.t, was))
    requires c.t.undo.Bottom? && bytes != [] && |bytes| == was.len
    ensures ReallocRef(c.t, was, bytes) == was
    ensures var c' := Config(Modify(sc, Alloc(FreeBlob(c.t, was), bytes), id, updated), c.held); var a := AbsOf(sc, c);
            Inv(sc, c') && AbsOf(sc, c') ==
              a.(cur := With(Without(a.cur, was), was, bytes).(rows := a.cur.rows[id := updated]))
  {
    hide Inv, AbsOf, RefsOf;
    var t, refs, o := c.t, sc.refs(c.t.rows[id]), AbsOf(sc, c).cur;
    ReallocInPlace(t, was, bytes);
    hide FreeInside, Alloc, Write;
    assert was in Single(was);
    assert refs - Single(was) + Single(was) == refs by { SwapSame(refs, was); }
    RefsOfContains(sc, t.rows, id);
    OverwriteRefines(sc, c, was, bytes);
    var c1 := Config(Overwrite(t, was, bytes), c.held);
    ModifyRefines(sc, c1, id, updated);
    hide Modify, ModifyError;
    assert c.held + refs - refs == c.held;
    WithAgain(o, was, bytes);
  }

  lemma WithAgain(o: Obs, r: BlobRef, bytes: seq<Byte>)
    ensures bytes != [] ==> With(Without(o, r), r, bytes) == With(o, r, bytes)
  {
    assert (o.store - {r})[r := bytes] == o.store[r := bytes];
  }

  // ----- every step, every run ----------------------------------------------

  /** The table and the copying store take the same step. */
  lemma StepRefines(sc: Schema, c: Config, op: Op)
    requires Inv(sc, c) && Enabled(sc, c, op)
    ensures Refines(sc, c, op)
  {
    var t := c.t;
    hide Inv, AbsOf, With, Without, Alloc, Modify, Emplace, FreeInside;
    match op
    case AllocOp(bytes) =>
      FreeIsInside(sc, c);
      AllocRefines(sc, c, bytes);
    case FreeOp(r) =>
      FreeStep(sc, c, r);
    case EmplaceOp(obj) =>
      EmplaceStep(sc, c, obj);
    case ModifyOp(id, updated) =>
      ModifyStep(sc, c, id, updated);
    case RemoveOp(id) =>
      RemoveStep(sc, c, id);
    case RewriteOp(id, was, bytes, updated) =>
      FreeIsInside(sc, c);
      ReleasedInside(sc, c, id, was);
      if t.undo.Push? || was.len == 0 || bytes == [] || |bytes| != was.len {
        RewriteElsewhere(sc, c, id, was, bytes, updated);
      } else {
        RewriteInPlace(sc, c, id, was, bytes, updated);
      }
    case StartOp =>
      StartRefines(sc, c);
    case UndoOp(order) =>
      UndoStep(sc, c, order);
    case SquashOp =>
      SquashStep(sc, c);
    case CommitOp(revision) =>
      CommitRefines(sc, c, revision);
    case SetRevisionOp(revision) =>
      SetRevisionStep(sc, c, revision);
    case FlushOp =>
      FlushRefines(sc, c);
  }

  lemma FreeStep(sc: Schema, c: Config, r: BlobRef)
    requires Inv(sc, c) && Enabled(sc, c, FreeOp(r))
    ensures Refines(sc, c, FreeOp(r))
  {
    hide Inv, AbsOf;
    if r.len == 0 {
      assert c.held - Single(r) == c.held;
    } else {
      assert r in Single(r);
      FreeRefines(sc, c, r);
    }
  }

  lemma EmplaceStep(sc: Schema, c: Config, obj: Row)
    requires Inv(sc, c) && Enabled(sc, c, EmplaceOp(obj))
    ensures Refines(sc, c, EmplaceOp(obj))
  {
    hide Inv, Saved, Contents, Conflict;
    if EmplaceError(sc, c.t, obj).None? {
      EmplaceRefines(sc, c, obj);
    }
  }

  lemma ModifyStep(sc: Schema, c: Config, id: int, updated: Row)
    requires Inv(sc, c) && Enabled(sc, c, ModifyOp(id, updated))
    ensures Refines(sc, c, ModifyOp(id, updated))
  {
    hide Inv, Saved, Contents, Conflict;
    if ModifyError(sc, c.t, id, updated).None? {
      ModifyRefines(sc, c, id, updated);
    }
  }

  lemma RemoveStep(sc: Schema, c: Config, id: int)
    requires Inv(sc, c)
    ensures Refines(sc, c, RemoveOp(id))
  {
    hide Inv, Saved, Contents;
    if id in c.t.rows {
      RemoveRefines(sc, c, id);
    } else {
      assert c.t.rows - {id} == c.t.rows;
    }
  }

  lemma UndoStep(sc: Schema, c: Config, order: seq<int>)
    requires Inv(sc, c) && Enabled(sc, c, UndoOp(order))
    ensures Refines(sc, c, UndoOp(order))
  {
    hide Inv, Observe, Back, UndoSession, RestoreOrder;
    if c.t.undo.Push? {
      UndoRefines(sc, c, order);
    } else {
      UndoNothing(c.t, order);
    }
  }

  lemma UndoNothing(t: Tab, order: seq<int>)
    requires t.undo.Bottom?
    ensures UndoSession(t, order) == t
  {
  }

  lemma SquashStep(sc: Schema, c: Config)
    requires Inv(sc, c)
    ensures Refines(sc, c, SquashOp)
  {
    hide Inv, Observe, Back, Merge;
    if c.t.undo.Push? {
      if c.t.undo.below.Bottom? {
        SquashLast(sc, c);
      } else {
        SquashInner(sc, c);
      }
    }
  }

  lemma SetRevisionStep(sc: Schema, c: Config, revision: int)
    requires Inv(sc, c)
    ensures Refines(sc, c, SetRevisionOp(revision))
  {
    hide Observe, Back;
  }
}
