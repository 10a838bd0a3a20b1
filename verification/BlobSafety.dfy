/**
  Who owns each span of the blob arena. At the current state, and at every state
  an open session could bring back, the spans named by rows, the spans held by
  callers, the free spans and the spans waiting for an older session to commit
  are pairwise disjoint.
 */
module BlobSafety {
  import opened ArenaTypes
  import opened TableSpec
  import opened RowHistory

  // ----- spans --------------------------------------------------------------

  predicate Apart(a: BlobRef, b: BlobRef)
  {
    a.off + a.len <= b.off || b.off + b.len <= a.off
  }

  /** The non-empty spans named by rows. */
  ghost function RefsOf(sc: Schema, rows: Rows): multiset<BlobRef>
    decreases |rows|
  {
    if id: int :| id in rows then sc.refs(rows[id]) + RefsOf(sc, rows - {id}) else multiset{}
  }

  lemma RefsOfRemove(sc: Schema, rows: Rows, id: int)
    requires id in rows
    ensures RefsOf(sc, rows) == sc.refs(rows[id]) + RefsOf(sc, rows - {id})
    decreases |rows|
  {
    var pick: int :| pick in rows && RefsOf(sc, rows) == sc.refs(rows[pick]) + RefsOf(sc, rows - {pick});
    if pick != id {
      RefsOfRemove(sc, rows - {pick}, id);
      RefsOfRemove(sc, rows - {id}, pick);
      assert rows - {pick} - {id} == rows - {id} - {pick};
    }
  }

  lemma RefsOfUpdate(sc: Schema, rows: Rows, id: int, row: Row)
    ensures RefsOf(sc, rows[id := row]) == sc.refs(row) + RefsOf(sc, rows - {id})
  {
    RefsOfRemove(sc, rows[id := row], id);
    assert rows[id := row] - {id} == rows - {id};
  }

  lemma RefsOfContains(sc: Schema, rows: Rows, id: int)
    requires id in rows
    ensures sc.refs(rows[id]) <= RefsOf(sc, rows)
  {
    RefsOfRemove(sc, rows, id);
  }

  /** No patch and no flush boundary cuts through span `a`. */
  ghost predicate Settled(a: BlobRef, patches: seq<BlobRef>, flushed: nat)
  {
    && (a.off + a.len <= flushed || flushed <= a.off)
    && forall p :: p in patches ==> p == a || Apart(p, a)
  }

  /** The spans of `m` are non-empty, inside the arena, each owned once, and disjoint. */
  ghost predicate Tiling(m: multiset<BlobRef>, bound: nat, patches: seq<BlobRef>, flushed: nat)
  {
    && (forall a :: a in m ==> m[a] == 1 && 0 < a.len && a.off + a.len <= bound && Settled(a, patches, flushed))
    && (forall a, b :: a in m && b in m && a != b ==> Apart(a, b))
  }

  lemma TilingSub(m: multiset<BlobRef>, sub: multiset<BlobRef>, bound: nat, patches: seq<BlobRef>, flushed: nat)
    requires Tiling(m, bound, patches, flushed) && sub <= m
    ensures Tiling(sub, bound, patches, flushed)
  {
    forall a | a in sub
      ensures a in m && sub[a] == 1 && 0 < a.len && a.off + a.len <= bound && Settled(a, patches, flushed)
    {
      assert sub[a] <= m[a];
    }
  }

  // ----- levels -------------------------------------------------------------

  /** What matters about the table at one level: now, or at the start of an open session. */
  datatype Core = Core(nextId: nat, rows: Rows, blobs: seq<Byte>, free: multiset<BlobRef>)

  function CoreOf(t: Tab): Core
  {
    Core(t.nextId, t.rows, t.blobs, multiset(t.free))
  }

  /** The level below: where undoing session `s` leads. */
  function Back(core: Core, s: Session): Core
  {
    Core(s.oldNextId, Restore(s, core.rows), Truncate(core.blobs, s.oldBlobLen), core.free + multiset(s.reused))
  }

  /** Spans that open sessions gave up and that no one may reuse yet. */
  function Freed(st: Stack<Session>): multiset<BlobRef>
  {
    match st
    case Bottom => multiset{}
    case Push(s, below) => Freed(below) + multiset(s.freed)
  }

  /** The spans that rows name and callers hold. */
  ghost function Owned(sc: Schema, rows: Rows, held: multiset<BlobRef>): multiset<BlobRef>
  {
    RefsOf(sc, rows) + held
  }

  /** The spans free now, and those free once older sessions commit. */
  function Spare(free: multiset<BlobRef>, st: Stack<Session>): multiset<BlobRef>
  {
    free + Freed(st)
  }

  ghost function Spans(sc: Schema, core: Core, held: multiset<BlobRef>, st: Stack<Session>): multiset<BlobRef>
  {
    Owned(sc, core.rows, held) + Spare(core.free, st)
  }

  /** Every level of the stack owns its spans without overlap; callers hold `held` at the top. */
  ghost predicate BlobStack(sc: Schema, core: Core, held: multiset<BlobRef>, st: Stack<Session>,
                            patches: seq<BlobRef>, flushed: nat)
    decreases st
  {
    && flushed <= |core.blobs|
    && Tiling(Spans(sc, core, held, st), |core.blobs|, patches, flushed)
    && match st
       case Bottom => true
       case Push(s, below) =>
         && s.oldBlobLen <= |core.blobs|
         && BlobStack(sc, Back(core, s), multiset{}, below, patches, flushed)
  }

  /** Patches lie inside the flushed part of the arena, and one offset has one length. */
  ghost predicate PatchesOK(patches: seq<BlobRef>, flushed: nat)
  {
    && (forall p :: p in patches ==> 0 < p.len && p.off + p.len <= flushed)
    && (forall p, q :: p in patches && q in patches ==> p == q || Apart(p, q))
  }

  /** A table together with the spans its callers hold and have not stored in a row. */
  datatype Config = Config(t: Tab, held: multiset<BlobRef>)

  ghost predicate Inv(sc: Schema, c: Config)
  {
    && RowInv(sc, c.t)
    && BlobStack(sc, CoreOf(c.t), c.held, c.t.undo, c.t.patches, c.t.flushed)
    && PatchesOK(c.t.patches, c.t.flushed)
  }

  lemma FreeIsInside(sc: Schema, c: Config)
    requires Inv(sc, c)
    ensures FreeInside(c.t)
  {
    forall r | r in c.t.free ensures r.off + r.len <= |c.t.blobs| {
      assert r in multiset(c.t.free);
      assert r in Spans(sc, CoreOf(c.t), c.held, c.t.undo);
    }
  }

  // ----- what the levels look like from outside -----------------------------

  /** The visible state at one level: next id, rows, and the bytes of each owned blob. */
  datatype Obs = Obs(nextId: nat, rows: Rows, store: map<BlobRef, seq<Byte>>)

  function Contents(blobs: seq<Byte>, spans: multiset<BlobRef>): map<BlobRef, seq<Byte>>
  {
    map r | r in spans :: Read(blobs, r)
  }

  ghost function Observe(sc: Schema, core: Core, held: multiset<BlobRef>): Obs
  {
    Obs(core.nextId, core.rows, Contents(core.blobs, Owned(sc, core.rows, held)))
  }

  /** What each open session would bring back, innermost first. */
  ghost function Saved(sc: Schema, core: Core, st: Stack<Session>): Stack<Obs>
    decreases st
  {
    match st
    case Bottom => Bottom
    case Push(s, below) => Push(Observe(sc, Back(core, s), multiset{}), Saved(sc, Back(core, s), below))
  }

  // ----- writing where it is allowed ----------------------------------------

  lemma ReadElsewhere(blobs: seq<Byte>, off: nat, bytes: seq<Byte>, r: BlobRef)
    requires off + |bytes| <= |blobs|
    requires Apart(BlobRef(off, |bytes|), r)
    ensures Read(Write(blobs, off, bytes), r) == Read(blobs, r)
  {
    var blobs' := Write(blobs, off, bytes);
    if r.off + r.len <= |blobs| {
      forall i | r.off <= i < r.off + r.len ensures blobs'[i] == blobs[i] {
      }
    }
  }

  /** A free span is apart from every span that rows or callers own. */
  lemma FreeApart(sc: Schema, core: Core, held: multiset<BlobRef>, st: Stack<Session>,
                  patches: seq<BlobRef>, flushed: nat, r: BlobRef, a: BlobRef)
    requires BlobStack(sc, core, held, st, patches, flushed)
    requires r in core.free && a in Owned(sc, core.rows, held)
    ensures Apart(r, a) && r.off + r.len <= |core.blobs| && 0 < r.len
  {
    var m := Spans(sc, core, held, st);
    assert r in m && a in m;
    assert m[a] >= core.free[a] + Owned(sc, core.rows, held)[a];
  }

  /** Filling a free span changes no byte the current level can see. */
  lemma FillUnseen(sc: Schema, core: Core, held: multiset<BlobRef>, st: Stack<Session>,
                   patches: seq<BlobRef>, flushed: nat, r: BlobRef, bytes: seq<Byte>)
    requires BlobStack(sc, core, held, st, patches, flushed)
    requires r in core.free && |bytes| == r.len && r.off + r.len <= |core.blobs|
    ensures Observe(sc, core.(blobs := Write(core.blobs, r.off, bytes)), held) == Observe(sc, core, held)
  {
    forall a | a in Owned(sc, core.rows, held) ensures Read(Write(core.blobs, r.off, bytes), a) == Read(core.blobs, a) {
      FreeApart(sc, core, held, st, patches, flushed, r, a);
      ReadElsewhere(core.blobs, r.off, bytes, a);
    }
  }

  lemma FillBack(core: Core, s: Session, r: BlobRef, bytes: seq<Byte>)
    requires r.off + |bytes| <= |Truncate(core.blobs, s.oldBlobLen)|
    ensures Back(core.(blobs := Write(core.blobs, r.off, bytes)), s) ==
            Back(core, s).(blobs := Write(Back(core, s).blobs, r.off, bytes))
  {
    assert Truncate(Write(core.blobs, r.off, bytes), s.oldBlobLen)
           == Write(Truncate(core.blobs, s.oldBlobLen), r.off, bytes);
  }

  /** Filling a free span changes no byte that any level can see. */
  lemma FillFree(sc: Schema, core: Core, held: multiset<BlobRef>, st: Stack<Session>,
                 patches: seq<BlobRef>, flushed: nat, r: BlobRef, bytes: seq<Byte>)
    requires BlobStack(sc, core, held, st, patches, flushed)
    requires r in core.free && |bytes| == r.len && r.off + r.len <= |core.blobs|
    ensures BlobStack(sc, core.(blobs := Write(core.blobs, r.off, bytes)), held, st, patches, flushed)
    ensures Saved(sc, core.(blobs := Write(core.blobs, r.off, bytes)), st) == Saved(sc, core, st)
    decreases st
  {
    assert Spans(sc, core.(blobs := Write(core.blobs, r.off, bytes)), held, st) == Spans(sc, core, held, st);
    if st.Push? {
      var b := Back(core, st.top);
      assert r in Spans(sc, b, multiset{}, st.below);
      FillBack(core, st.top, r, bytes);
      FillUnseen(sc, b, multiset{}, st.below, patches, flushed, r, bytes);
      FillFree(sc, b, multiset{}, st.below, patches, flushed, r, bytes);
    }
  }

  /** A free span may be recorded as a patch: no level's spans straddle it. */
  lemma PatchFree(sc: Schema, core: Core, held: multiset<BlobRef>, st: Stack<Session>,
                  patches: seq<BlobRef>, flushed: nat, r: BlobRef)
    requires BlobStack(sc, core, held, st, patches, flushed)
    requires r in core.free
    ensures BlobStack(sc, core, held, st, patches + [r], flushed)
    decreases st
  {
    var m := Spans(sc, core, held, st);
    assert r in m;
    if st.Push? {
      PatchFree(sc, Back(core, st.top), multiset{}, st.below, patches, flushed, r);
    }
  }
}
