/**
  What ending a session, allocating and releasing mean, said without the functions
  that do it: which sessions a commit ends, where released spans go, and which span
  an allocation gets.
 */
module SessionLaws {
  import opened ArenaTypes
  import opened TableSpec

  // ----- which sessions end -------------------------------------------------

  function Min(a: int, b: int): int
  {
    if a < b then a else b
  }

  function Max(a: int, b: int): int
  {
    if a < b then b else a
  }

  lemma {:induction false} NthPast<T>(st: Stack<T>, k: nat)
    ensures Nth(st, k).Some? <==> k < Depth(st)
    decreases st
  {
    if st.Push? && k > 0 {
      NthPast(st.below, k - 1);
    }
  }

  lemma {:induction false} InnermostIs<T>(st: Stack<T>, keep: nat)
    ensures Depth(Innermost(st, keep)) == Min(keep, Depth(st))
    ensures forall k: nat :: Nth(Innermost(st, keep), k) == if k < keep then Nth(st, k) else None
    decreases st
  {
    if st.Push? && keep > 0 {
      InnermostIs(st.below, keep - 1);
      forall k: nat ensures Nth(Innermost(st, keep), k) == if k < keep then Nth(st, k) else None {
        if k > 0 {
          assert Nth(Innermost(st.below, keep - 1), k - 1) == if k - 1 < keep - 1 then Nth(st.below, k - 1) else None;
        }
      }
    }
  }

  /** A commit up to a revision ends the sessions that led to it or to an earlier one, and no other. */
  lemma CommitEnds<T>(st: Stack<T>, revision: int, upTo: int)
    ensures var kept := Innermost(st, KeptBy(Depth(st), revision, upTo));
            && Depth(kept) == Min(Depth(st), Max(0, revision - upTo))
            && forall k: int :: OpenedAt(kept, revision, k) == if k > upTo then OpenedAt(st, revision, k) else None
  {
    var keep := KeptBy(Depth(st), revision, upTo);
    InnermostIs(st, keep);
    forall k: int
      ensures OpenedAt(Innermost(st, keep), revision, k) == if k > upTo then OpenedAt(st, revision, k) else None
    {
      if k <= revision {
        NthPast(st, revision - k);
      }
    }
  }

  /** The same for a table, of which a commit changes nothing else but the free list. */
  lemma CommitEndsOlder(t: Tab, upTo: int)
    ensures var t' := Commit(t, upTo);
            && t' == t.(undo := t'.undo, free := t'.free)
            && Depth(t'.undo) == Min(Depth(t.undo), Max(0, t.revision - upTo))
            && forall k: int ::
                 OpenedAt(t'.undo, t'.revision, k) == if k > upTo then OpenedAt(t.undo, t.revision, k) else None
  {
    CommitEnds(t.undo, t.revision, upTo);
  }

  // ----- where released spans go --------------------------------------------

  /** The sessions a commit ends release their spans oldest session first, each in the order it gave them up. */
  lemma {:induction false} OldestFirst(st: Stack<Session>, k: nat)
    ensures k >= Depth(st) ==> FreedOutside(st, k) == []
    ensures Nth(st, k).Some? ==> FreedOutside(st, k) == FreedOutside(st, k + 1) + Nth(st, k).value.freed
    decreases st
  {
    if st.Push? {
      OldestFirst(st.below, if k == 0 then 0 else k - 1);
    }
  }

  /**
    Folding the innermost session into the one around it, and committing all, release
    the same spans in the same order.
   */
  lemma SquashThenCommit(t: Tab)
    requires t.undo.Push?
    ensures Commit(Squash(t), t.revision).free == Commit(t, t.revision).free
    ensures t.undo.below.Bottom? ==> Squash(t).free == Commit(t, t.revision).free
    ensures t.undo.below.Push? ==> Squash(t).free == t.free
  {
    if t.undo.below.Push? {
      var s, prev, base := t.undo.top, t.undo.below.top, t.undo.below.below;
      assert FreedOutside(Squash(t).undo, 0) == FreedOutside(base, 0) + (prev.freed + s.freed);
      assert FreedOutside(t.undo.below, 0) == FreedOutside(base, 0) + prev.freed;
    }
  }

  // ----- which span an allocation gets --------------------------------------

  ghost predicate HasFree(t: Tab, len: nat)
  {
    exists i :: 0 <= i < |t.free| && t.free[i].len == len
  }

  /** Place `i` of the free list holds the latest released span of this length. */
  ghost predicate Latest(t: Tab, len: nat, i: nat)
  {
    i < |t.free| && t.free[i].len == len && forall j :: i < j < |t.free| ==> t.free[j].len != len
  }

  /** Span `r` was the latest of its length; it is off the free list and nothing outside it was written. */
  ghost predicate TookLatest(t: Tab, t': Tab, r: BlobRef, bytes: seq<Byte>)
  {
    && |t'.blobs| == |t.blobs|
    && (exists i: nat :: Latest(t, |bytes|, i) && r == t.free[i] && t'.free == t.free[..i] + t.free[i + 1..])
    && t'.patches == (if r.off < t.flushed then t.patches + [r] else t.patches)
    && (forall o :: 0 <= o < |t.blobs| && !(r.off <= o < r.off + r.len) ==> t'.blobs[o] == t.blobs[o])
  }

  lemma ReuseTakes(t: Tab, i: nat, bytes: seq<Byte>)
    requires Latest(t, |bytes|, i) && t.free[i].off + |bytes| <= |t.blobs|
    ensures var t', r := Reuse(t, i, bytes), t.free[i];
            && TookLatest(t, t', r, bytes) && Read(t'.blobs, r) == bytes
            && t' == t.(blobs := t'.blobs, free := t'.free, patches := t'.patches, undo := t'.undo)
  {
    var t', r := Reuse(t, i, bytes), t.free[i];
    assert t'.blobs[r.off..r.off + r.len] == bytes by {
      WrittenAt(t.blobs, r.off, bytes);
    }
  }

  lemma WrittenAt(blobs: seq<Byte>, off: nat, bytes: seq<Byte>)
    requires off + |bytes| <= |blobs|
    ensures Write(blobs, off, bytes)[off..off + |bytes|] == bytes
  {
  }

  /**
    An allocation takes the latest released span of exactly its length off the free
    list and grows nothing; when there is none it grows the arena by its bytes.
   */
  lemma AllocTakes(t: Tab, bytes: seq<Byte>)
    requires FreeInside(t) && bytes != [] && |t.blobs| + |bytes| < U32
    ensures var t', r := Alloc(t, bytes), AllocRef(t, bytes);
            && Read(t'.blobs, r) == bytes && r.len == |bytes|
            && t' == t.(blobs := t'.blobs, free := t'.free, patches := t'.patches, undo := t'.undo)
            && if HasFree(t, |bytes|) then TookLatest(t, t', r, bytes)
               else t' == t.(blobs := t.blobs + bytes) && r.off == |t.blobs|
  {
    hide TookLatest, Reuse, Read;
    match FindFree(t.free, |bytes|)
    case Some(i) =>
      assert t.free[i] in t.free;
      ReuseTakes(t, i, bytes);
      assert HasFree(t, |bytes|);
    case None =>
      ReadAppended(t.blobs, bytes);
      assert !HasFree(t, |bytes|);
  }

  lemma ReadAppended(blobs: seq<Byte>, bytes: seq<Byte>)
    ensures Read(blobs + bytes, BlobRef(|blobs|, |bytes|)) == bytes
  {
  }

  lemma LastIsTaken(t: Tab, r: BlobRef, bytes: seq<Byte>)
    requires t.free != [] && t.free[|t.free| - 1] == r && bytes != [] && |bytes| == r.len < U32
    ensures AllocRef(t, bytes) == r
  {
  }

  /** Without an open session a released span is reused by the next allocation of its length. */
  lemma ReleasedIsNext(t: Tab, r: BlobRef, bytes: seq<Byte>)
    requires t.undo.Bottom? && bytes != [] && |bytes| == r.len < U32
    ensures AllocRef(FreeBlob(t, r), bytes) == r
  {
  }

  /** With one session open the span is held back until the session's end, and then reused. */
  lemma HeldBackThenNext(t: Tab, r: BlobRef, bytes: seq<Byte>)
    requires t.undo.Push? && t.undo.below.Bottom? && bytes != [] && |bytes| == r.len < U32
    ensures FreeBlob(t, r).free == t.free
    ensures AllocRef(Squash(FreeBlob(t, r)), bytes) == r && AllocRef(Commit(FreeBlob(t, r), t.revision), bytes) == r
  {
    hide AllocRef, Commit, Merge;
    var t' := FreeBlob(t, r);
    assert Squash(t').free == t.free + (t.undo.top.freed + [r]);
    SquashThenCommit(t');
    LastIsTaken(Squash(t'), r, bytes);
    LastIsTaken(Commit(t', t.revision), r, bytes);
  }
}
