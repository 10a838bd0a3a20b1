/**
  The delta log record: what changed since the last flush. Replaying it on the
  last flushed state gives the current state, unless a dirty row takes a key that
  a row later in the dirty list still holds, and then it is refused.
 */
module Delta {
  import opened ArenaTypes
  import opened TableSpec
  import opened TableOps
  import opened RowHistory
  import opened BlobSafety
  import opened Refinement

  /** What a checkpoint or the log keeps of a table. */
  datatype Persisted = Persisted(nextId: nat, rows: Rows, blobs: seq<Byte>)

  function PersistedOf(t: Tab): Persisted
  {
    Persisted(t.nextId, t.rows, t.blobs)
  }

  datatype Entry = Entry(id: int, row: Option<Row>)

  datatype Patch = Patch(off: nat, bytes: seq<Byte>)

  datatype Record = Record(nextId: nat, entries: seq<Entry>, patches: seq<Patch>, tail: seq<Byte>)

  // ----- packing ------------------------------------------------------------

  /** The last patch of each flushed offset, latest first. */
  function LatestPatches(patches: seq<BlobRef>, flushed: nat, seen: set<nat>): seq<BlobRef>
  {
    if patches == [] then []
    else
      var r, init := patches[|patches| - 1], patches[..|patches| - 1];
      if r.off < flushed && r.off !in seen then [r] + LatestPatches(init, flushed, seen + {r.off})
      else LatestPatches(init, flushed, seen)
  }

  function EntryOf(t: Tab, id: int): Entry
  {
    Entry(id, Get(t.rows, id))
  }

  function PatchOf(t: Tab, r: BlobRef): Patch
  {
    Patch(r.off, Read(t.blobs, r))
  }

  function Pack(t: Tab): Record
    requires t.flushed <= |t.blobs|
  {
    var latest := LatestPatches(t.patches, t.flushed, {});
    Record(t.nextId,
           seq(|t.dirty|, i requires 0 <= i < |t.dirty| => EntryOf(t, t.dirty[i])),
           seq(|latest|, i requires 0 <= i < |latest| => PatchOf(t, latest[i])),
           t.blobs[t.flushed..])
  }

  // ----- applying -----------------------------------------------------------

  /** Some row has a key that `row` has in the same index. */
  ghost predicate KeyHeld(sc: Schema, rows: Rows, row: Row)
  {
    exists x: nat, id :: x < |sc.keys| && id in rows && sc.keys[x](rows[id]) == sc.keys[x](row)
  }

  lemma HeldIsConflict(sc: Schema, rows: Rows, row: Row)
    requires row.id !in rows
    ensures KeyHeld(sc, rows, row) <==> Conflict(sc, rows, row, 0).Some?
  {
    if KeyHeld(sc, rows, row) {
      var x: nat, id :| x < |sc.keys| && id in rows && sc.keys[x](rows[id]) == sc.keys[x](row);
      assert Taken(sc, rows, row, x);
    }
    if Conflict(sc, rows, row, 0).Some? {
      var x := Conflict(sc, rows, row, 0).value;
      var id :| id in rows && id != row.id && sc.keys[x](rows[id]) == sc.keys[x](row);
      assert x < |sc.keys| && id in rows;
    }
  }

  ghost function ApplyEntries(sc: Schema, next: nat, rows: Rows, entries: seq<Entry>): Result<Rows, TableError>
    decreases |entries|
  {
    if entries == [] then Ok(rows)
    else
      var e := entries[0];
      match e.row
      case None => ApplyEntries(sc, next, rows - {e.id}, entries[1..])
      case Some(row) =>
        if next <= e.id || KeyHeld(sc, rows - {e.id}, row) then Err(Corrupted)
        else ApplyEntries(sc, next, rows[e.id := row], entries[1..])
  }

  function ApplyPatches(blobs: seq<Byte>, patches: seq<Patch>): Result<seq<Byte>, TableError>
    decreases |patches|
  {
    if patches == [] then Ok(blobs)
    else
      var p := patches[0];
      if |blobs| < p.off + |p.bytes| then Err(Corrupted)
      else ApplyPatches(Write(blobs, p.off, p.bytes), patches[1..])
  }

  ghost function Apply(sc: Schema, p: Persisted, d: Record): Result<Persisted, TableError>
  {
    var next := if p.nextId < d.nextId then d.nextId else p.nextId;
    match ApplyEntries(sc, next, p.rows, d.entries)
    case Err(e) => Err(e)
    case Ok(rows) =>
      match ApplyPatches(p.blobs, d.patches)
      case Err(e) => Err(e)
      case Ok(blobs) => Ok(Persisted(next, rows, blobs + d.tail))
  }

  // ----- what has changed since the last flush ------------------------------

  ghost predicate Covered(patches: seq<BlobRef>, o: nat)
  {
    exists p :: p in patches && p.off <= o < p.off + p.len
  }

  /** No open session started before the flush that recorded `nextId` and `flushed`. */
  predicate StartedSince(st: Stack<Session>, nextId: nat, flushed: nat)
  {
    match st
    case Bottom => true
    case Push(s, below) => nextId <= s.oldNextId && flushed <= s.oldBlobLen && StartedSince(below, nextId, flushed)
  }

  ghost predicate Distinct(ids: seq<int>)
  {
    forall i, j :: 0 <= i < j < |ids| ==> ids[i] != ids[j]
  }

  ghost predicate SameOutside(base: Rows, rows: Rows, dirty: seq<int>)
  {
    forall id :: id !in dirty ==> Get(rows, id) == Get(base, id)
  }

  ghost predicate PatchedSince(base: seq<Byte>, blobs: seq<Byte>, patches: seq<BlobRef>)
  {
    && |base| <= |blobs|
    && forall o: nat :: o < |base| ==> blobs[o] == base[o] || Covered(patches, o)
  }

  /** The dirty list and the patches account for every difference from the flushed state `p`. */
  ghost predicate Tracks(sc: Schema, p: Persisted, t: Tab)
  {
    && RowsOK(sc, p.nextId, p.rows)
    && p.nextId <= t.nextId
    && t.flushed == |p.blobs|
    && SameOutside(p.rows, t.rows, t.dirty)
    && Distinct(t.dirty)
    && PatchedSince(p.blobs, t.blobs, t.patches)
    && StartedSince(t.undo, p.nextId, t.flushed)
  }

  // ----- replay -------------------------------------------------------------

  /** Dirty row `i` takes, in some index, a key that dirty row `j` held at the last flush. */
  ghost predicate Clash(sc: Schema, p: Persisted, t: Tab, i: nat, j: nat)
    requires i < |t.dirty| && j < |t.dirty|
  {
    && t.dirty[i] in t.rows && t.dirty[j] in p.rows
    && exists x: nat :: x < |sc.keys| && sc.keys[x](p.rows[t.dirty[j]]) == sc.keys[x](t.rows[t.dirty[i]])
  }

  /** From position `k` on, some dirty row takes a key that a row after it in the dirty list still holds. */
  ghost predicate TakesHeldKey(sc: Schema, p: Persisted, t: Tab, k: nat)
  {
    exists i: nat, j: nat :: k <= i < j < |t.dirty| && Clash(sc, p, t, i, j)
  }

  /** The rows when the first `k` dirty entries have been replayed. */
  ghost function Replayed(p: Persisted, t: Tab, k: nat): Rows
    requires k <= |t.dirty|
  {
    map id | id in p.rows.Keys + t.rows.Keys && (if id in t.dirty[..k] then id in t.rows else id in p.rows)
      :: if id in t.dirty[..k] then t.rows[id] else p.rows[id]
  }

  lemma ReplayedEnds(sc: Schema, p: Persisted, t: Tab)
    requires Tracks(sc, p, t)
    ensures Replayed(p, t, 0) == p.rows && Replayed(p, t, |t.dirty|) == t.rows
  {
    assert t.dirty[..|t.dirty|] == t.dirty;
    forall id | id !in t.dirty ensures Get(t.rows, id) == Get(p.rows, id) {
    }
    var all := Replayed(p, t, |t.dirty|);
    forall id ensures id in all <==> id in t.rows {
      assert id !in t.dirty ==> Get(t.rows, id) == Get(p.rows, id);
    }
    forall id | id in all ensures all[id] == t.rows[id] {
      assert id !in t.dirty ==> Get(t.rows, id) == Get(p.rows, id);
    }
  }

  lemma ReplayedNext(p: Persisted, t: Tab, k: nat)
    requires k < |t.dirty|
    ensures var id, next := t.dirty[k], Replayed(p, t, k + 1);
            next == if id in t.rows then Replayed(p, t, k)[id := t.rows[id]] else Replayed(p, t, k) - {id}
  {
    assert t.dirty[..k + 1] == t.dirty[..k] + [t.dirty[k]];
  }

  /** When entry `k` is replayed, its row's key is taken exactly when a later entry still holds it. */
  lemma TakenNow(sc: Schema, p: Persisted, t: Tab, k: nat)
    requires Tracks(sc, p, t) && RowsOK(sc, t.nextId, t.rows) && k < |t.dirty| && t.dirty[k] in t.rows
    ensures var id := t.dirty[k];
            Conflict(sc, Replayed(p, t, k) - {id}, t.rows[id], 0).Some? <==>
                exists j: nat :: k < j < |t.dirty| && Clash(sc, p, t, k, j)
  {
    var id, rows := t.dirty[k], Replayed(p, t, k) - {t.dirty[k]};
    if j: nat :| k < j < |t.dirty| && Clash(sc, p, t, k, j) {
      var x: nat :| x < |sc.keys| && sc.keys[x](p.rows[t.dirty[j]]) == sc.keys[x](t.rows[id]);
      assert t.dirty[j] !in t.dirty[..k];
      assert t.dirty[j] in rows;
      assert Taken(sc, rows, t.rows[id], x);
    }
    if Conflict(sc, rows, t.rows[id], 0).Some? {
      var x := Conflict(sc, rows, t.rows[id], 0).value;
      var b :| b in rows && b != id && sc.keys[x](rows[b]) == sc.keys[x](t.rows[id]);
      HolderIsLater(sc, p, t, k, x, b);
    }
  }

  lemma HolderIsLater(sc: Schema, p: Persisted, t: Tab, k: nat, x: nat, b: int)
    requires Tracks(sc, p, t) && RowsOK(sc, t.nextId, t.rows) && k < |t.dirty| && t.dirty[k] in t.rows
    requires x < |sc.keys| && b in Replayed(p, t, k) && b != t.dirty[k]
    requires sc.keys[x](Replayed(p, t, k)[b]) == sc.keys[x](t.rows[t.dirty[k]])
    ensures exists j: nat :: k < j < |t.dirty| && Clash(sc, p, t, k, j)
  {
    if b in t.rows && Replayed(p, t, k)[b] == t.rows[b] {
      assert false;
    }
    assert b !in t.dirty[..k];
    assert b in t.dirty by {
      assert b !in t.dirty ==> Get(t.rows, b) == Get(p.rows, b);
    }
    var j: nat :| j < |t.dirty| && t.dirty[j] == b;
    assert Clash(sc, p, t, k, j);
  }

  lemma {:induction false} EntriesReplay(sc: Schema, p: Persisted, t: Tab, k: nat)
    requires Tracks(sc, p, t) && RowsOK(sc, t.nextId, t.rows) && k <= |t.dirty|
    requires t.flushed <= |t.blobs|
    ensures ApplyEntries(sc, t.nextId, Replayed(p, t, k), Pack(t).entries[k..]) ==
            if TakesHeldKey(sc, p, t, k) then Err(Corrupted) else Ok(t.rows)
    decreases |t.dirty| - k
  {
    if k == |t.dirty| {
      ReplayedEnds(sc, p, t);
    } else {
      var id, entries := t.dirty[k], Pack(t).entries[k..];
      assert entries[0] == EntryOf(t, id) && entries[1..] == Pack(t).entries[k + 1..];
      EntriesReplay(sc, p, t, k + 1);
      ReplayedNext(p, t, k);
      if id in t.rows {
        TakenNow(sc, p, t, k);
        HeldIsConflict(sc, Replayed(p, t, k) - {id}, t.rows[id]);
      }
      hide Tracks, Replayed, Pack, Conflict, KeyHeld, RowsOK;
      assert TakesHeldKey(sc, p, t, k) <==>
             (exists j: nat :: k < j < |t.dirty| && Clash(sc, p, t, k, j)) || TakesHeldKey(sc, p, t, k + 1);
    }
  }

  // ----- the blob arena -----------------------------------------------------

  lemma LatestMember(patches: seq<BlobRef>, flushed: nat, seen: set<nat>, r: BlobRef)
    ensures r in LatestPatches(patches, flushed, seen) ==> r in patches && r.off < flushed
  {
    if patches != [] {
      var last, init := patches[|patches| - 1], patches[..|patches| - 1];
      LatestMember(init, flushed, seen, r);
      LatestMember(init, flushed, seen + {last.off}, r);
    }
  }

  /** Keeping one patch for each offset loses no byte, because an offset has one length. */
  lemma LatestCovers(patches: seq<BlobRef>, flushed: nat, seen: set<nat>, p: BlobRef)
    requires PatchesOK(patches, flushed) && p in patches && p.off !in seen
    ensures p in LatestPatches(patches, flushed, seen)
  {
    var last, init := patches[|patches| - 1], patches[..|patches| - 1];
    assert patches == init + [last] && last == patches[|patches| - 1] && last in patches;
    if p != last {
      assert p.off != last.off;
      LatestCovers(init, flushed, seen, p);
      LatestCovers(init, flushed, seen + {last.off}, p);
    }
  }

  /** Patches that carry the bytes of `blobs` turn `b` into `blobs` wherever they reach. */
  lemma {:induction false} PatchesReplay(t: Tab, b: seq<Byte>, refs: seq<BlobRef>, patches: seq<Patch>)
    requires |b| <= |t.blobs| && |patches| == |refs|
    requires forall i :: 0 <= i < |refs| ==> refs[i].off + refs[i].len <= |b| && patches[i] == PatchOf(t, refs[i])
    ensures ApplyPatches(b, patches).Ok?
    ensures var b' := ApplyPatches(b, patches).value;
            |b'| == |b| && forall o: nat :: o < |b| && (b[o] == t.blobs[o] || Covered(refs, o)) ==> b'[o] == t.blobs[o]
    decreases |refs|
  {
    if refs != [] {
      var r, p := refs[0], patches[0];
      var next := Write(b, p.off, p.bytes);
      PatchesReplay(t, next, refs[1..], patches[1..]);
      forall o: nat | o < |b| && (b[o] == t.blobs[o] || Covered(refs, o))
        ensures next[o] == t.blobs[o] || Covered(refs[1..], o)
      {
        if !(r.off <= o < r.off + r.len) && Covered(refs, o) {
          var q :| q in refs && q.off <= o < q.off + q.len;
          assert q in refs[1..];
        }
      }
    }
  }

  lemma BlobsReplay(sc: Schema, p: Persisted, t: Tab)
    requires Tracks(sc, p, t) && PatchesOK(t.patches, t.flushed)
    ensures ApplyPatches(p.blobs, Pack(t).patches) == Ok(t.blobs[..t.flushed])
  {
    var latest := LatestPatches(t.patches, t.flushed, {});
    forall i | 0 <= i < |latest| ensures latest[i].off + latest[i].len <= t.flushed {
      LatestMember(t.patches, t.flushed, {}, latest[i]);
    }
    PatchesReplay(t, p.blobs, latest, Pack(t).patches);
    var b := ApplyPatches(p.blobs, Pack(t).patches).value;
    forall o: nat | o < t.flushed ensures b[o] == t.blobs[o] {
      if p.blobs[o] != t.blobs[o] {
        var q :| q in t.patches && q.off <= o < q.off + q.len;
        LatestCovers(t.patches, t.flushed, {}, q);
        assert Covered(latest, o);
      }
    }
    assert b == t.blobs[..t.flushed];
  }

  /**
    Replaying the delta on the last flushed state gives the current next id, rows
    and blob arena, exactly when no dirty row takes a key that a row later in the
    dirty list still holds; otherwise the replay is refused.
   */
  lemma DeltaReplays(sc: Schema, p: Persisted, t: Tab)
    requires Tracks(sc, p, t) && RowsOK(sc, t.nextId, t.rows) && PatchesOK(t.patches, t.flushed)
    ensures Apply(sc, p, Pack(t)) == if TakesHeldKey(sc, p, t, 0) then Err(Corrupted) else Ok(PersistedOf(t))
  {
    EntriesReplay(sc, p, t, 0);
    ReplayedEnds(sc, p, t);
    BlobsReplay(sc, p, t);
    assert Pack(t).entries[0..] == Pack(t).entries;
    assert t.blobs[..t.flushed] + t.blobs[t.flushed..] == t.blobs;
    hide ApplyEntries, ApplyPatches, TakesHeldKey, RowsOK, PatchesOK;
  }

  // ----- every operation is tracked -----------------------------------------

  lemma MarkedDirty(dirty: seq<int>, id: int)
    requires Distinct(dirty)
    ensures Distinct(MarkDirty(dirty, id))
    ensures forall x :: x in MarkDirty(dirty, id) <==> x in dirty || x == id
  {
  }

  lemma MarkedAll(dirty: seq<int>, ids: seq<int>)
    requires Distinct(dirty)
    ensures Distinct(MarkAll(dirty, ids))
    ensures forall x :: x in MarkAll(dirty, ids) <==> x in dirty || x in ids
  {
    if ids != [] {
      var init, last := ids[..|ids| - 1], ids[|ids| - 1];
      MarkedAll(dirty, init);
      MarkedDirty(MarkAll(dirty, init), last);
      assert ids == init + [last];
    }
  }

  lemma StartedInnermost(st: Stack<Session>, nextId: nat, flushed: nat, keep: nat)
    requires StartedSince(st, nextId, flushed)
    ensures StartedSince(Innermost(st, keep), nextId, flushed)
  {
  }

  lemma TracksRowChange(sc: Schema, p: Persisted, t: Tab, rows: Rows, id: int)
    requires Tracks(sc, p, t)
    requires forall x :: x != id ==> Get(rows, x) == Get(t.rows, x)
    ensures SameOutside(p.rows, rows, MarkDirty(t.dirty, id)) && Distinct(MarkDirty(t.dirty, id))
  {
    MarkedDirty(t.dirty, id);
  }

  lemma UndoTracks(sc: Schema, p: Persisted, t: Tab, order: seq<int>)
    requires Tracks(sc, p, t) && RowInv(sc, t) && t.undo.Push? && RestoreOrder(t.undo.top, order)
    ensures var t' := UndoSession(t, order); SameOutside(p.rows, t'.rows, t'.dirty) && Distinct(t'.dirty)
  {
    var s, t' := t.undo.top, UndoSession(t, order);
    var created := Range(s.oldNextId, t.nextId);
    forall id | s.oldNextId <= id < t.nextId ensures id in created {
      assert created[id - s.oldNextId] == id;
    }
    MarkedAll(t.dirty, created);
    MarkedAll(MarkAll(t.dirty, created), order);
    forall id | id !in t'.dirty ensures Get(t'.rows, id) == Get(p.rows, id) {
      RestoreGet(s, t.rows, id);
      assert id !in order && id !in s.modified && id !in s.removed;
      assert Get(t.rows, id) == Get(p.rows, id);
    }
  }

  lemma CoveredMore(patches: seq<BlobRef>, r: BlobRef, o: nat)
    requires Covered(patches, o) || r.off <= o < r.off + r.len
    ensures Covered(patches + [r], o)
  {
    if Covered(patches, o) {
      var q :| q in patches && q.off <= o < q.off + q.len;
      assert q in patches + [r];
    } else {
      assert r in patches + [r];
    }
  }

  lemma WritePatched(base: seq<Byte>, blobs: seq<Byte>, patches: seq<BlobRef>, r: BlobRef, bytes: seq<Byte>)
    requires PatchedSince(base, blobs, patches) && r.len == |bytes| && r.off + r.len <= |blobs|
    ensures PatchedSince(base, Write(blobs, r.off, bytes), if r.off < |base| then patches + [r] else patches)
  {
    forall o: nat | o < |base| && (Covered(patches, o) || r.off <= o < r.off + r.len)
      ensures Covered(patches + [r], o)
    {
      CoveredMore(patches, r, o);
    }
  }

  lemma AllocTracks(sc: Schema, p: Persisted, t: Tab, bytes: seq<Byte>)
    requires Tracks(sc, p, t) && FreeInside(t) && |bytes| < U32
    ensures Tracks(sc, p, Alloc(t, bytes))
  {
    hide RowsOK, SameOutside, Distinct, FindFree;
    if bytes != [] && FindFree(t.free, |bytes|).Some? {
      var r := t.free[FindFree(t.free, |bytes|).value];
      assert r in t.free;
      WritePatched(p.blobs, t.blobs, t.patches, r, bytes);
      hide PatchedSince, Write;
    }
  }

  lemma ModifyTracks(sc: Schema, p: Persisted, t: Tab, id: int, updated: Row)
    requires Tracks(sc, p, t)
    ensures Tracks(sc, p, Modify(sc, t, id, updated))
  {
    TracksRowChange(sc, p, t, Modify(sc, t, id, updated).rows, id);
    hide RowsOK, SameOutside, Distinct, PatchedSince, Conflict, MarkDirty;
  }

  lemma EmplaceTracks(sc: Schema, p: Persisted, t: Tab, obj: Row)
    requires Tracks(sc, p, t)
    ensures Tracks(sc, p, Emplace(sc, t, obj))
  {
    TracksRowChange(sc, p, t, Emplace(sc, t, obj).rows, t.nextId);
    hide RowsOK, SameOutside, Distinct, PatchedSince, Conflict, MarkDirty;
  }

  lemma RemoveTracks(sc: Schema, p: Persisted, t: Tab, id: int)
    requires Tracks(sc, p, t)
    ensures Tracks(sc, p, Remove(t, id))
  {
    TracksRowChange(sc, p, t, Remove(t, id).rows, id);
    hide RowsOK, SameOutside, Distinct, PatchedSince, MarkDirty;
  }

  lemma SessionTracks(sc: Schema, p: Persisted, t: Tab, op: Op)
    requires RowInv(sc, t) && Tracks(sc, p, t)
    requires op.UndoOp? && t.undo.Push? ==> RestoreOrder(t.undo.top, op.order) && t.undo.top.oldBlobLen <= |t.blobs|
    requires op.StartOp? || op.UndoOp? || op.SquashOp? || op.CommitOp? || op.SetRevisionOp?
    ensures Tracks(sc, p, TabStep(sc, t, op))
  {
    if op.UndoOp? && t.undo.Push? {
      UndoTracks(sc, p, t, op.order);
    }
    if op.CommitOp? {
      StartedInnermost(t.undo, p.nextId, t.flushed, KeptBy(Depth(t.undo), t.revision, op.revision));
    }
    if t.undo.Push? {
      assert StartedSince(t.undo.below, p.nextId, t.flushed);
    }
    hide RowInv, RowsOK, SameOutside, Distinct, Restore, RestoreOrder, MarkAll, FreedOutside, Innermost;
  }

  /** Whatever happens between flushes is accounted for. */
  lemma StepTracks(sc: Schema, p: Persisted, t: Tab, op: Op)
    requires RowInv(sc, t) && Tracks(sc, p, t) && CanStep(t, op) && !op.FlushOp?
    requires op.UndoOp? && t.undo.Push? ==> RestoreOrder(t.undo.top, op.order) && t.undo.top.oldBlobLen <= |t.blobs|
    ensures Tracks(sc, p, TabStep(sc, t, op))
  {
    hide RowInv, RowsOK, SameOutside, Distinct, PatchedSince, Alloc, Modify, Emplace, Remove, FreeInside;
    match op
    case AllocOp(bytes) => AllocTracks(sc, p, t, bytes);
    case FreeOp(_) =>
    case EmplaceOp(obj) => EmplaceTracks(sc, p, t, obj);
    case ModifyOp(id, updated) => ModifyTracks(sc, p, t, id, updated);
    case RemoveOp(id) => RemoveTracks(sc, p, t, id);
    case RewriteOp(id, was, bytes, updated) =>
      AllocTracks(sc, p, FreeBlob(t, was), bytes);
      ModifyTracks(sc, p, Alloc(FreeBlob(t, was), bytes), id, updated);
    case _ => SessionTracks(sc, p, t, op);
  }

  lemma FlushTracks(sc: Schema, t: Tab)
    requires RowInv(sc, t) && t.undo.Bottom?
    ensures Tracks(sc, PersistedOf(t), MarkFlushed(t))
  {
  }
}
