/**
  Which files are accepted and what they mean, for any bytes: said by what the
  file lists, not by how it is read.
 */
module FileRules {
  import opened ArenaTypes
  import opened TableSpec
  import opened RowHistory
  import opened Delta
  import opened Wire
  import opened Recovery

  // ----- snapshots ----------------------------------------------------------

  /** Rows are filed under different ids, all below the next one and none in `taken`. */
  ghost predicate FiledApart(nextId: nat, taken: Rows, items: seq<(int, Row)>)
  {
    && (forall i :: 0 <= i < |items| ==> items[i].0 < nextId && items[i].0 !in taken)
    && (forall i, j :: 0 <= i < j < |items| ==> items[i].0 != items[j].0)
  }

  /** The rows are those of `base` and those listed. */
  ghost predicate RowsAre(rows: Rows, base: Rows, items: seq<(int, Row)>)
  {
    && (forall id :: id in rows <==> id in base || exists i :: 0 <= i < |items| && items[i].0 == id)
    && (forall id :: id in base ==> id in rows && rows[id] == base[id])
    && (forall i :: 0 <= i < |items| ==> items[i].0 in rows && rows[items[i].0] == items[i].1)
  }

  lemma {:induction false} ItemsExact(nextId: nat, base: Rows, items: seq<(int, Row)>)
    ensures LoadItems(nextId, base, items).Ok? <==> FiledApart(nextId, base, items)
    ensures LoadItems(nextId, base, items).Ok? ==> RowsAre(LoadItems(nextId, base, items).value, base, items)
    decreases |items|
  {
    if items != [] {
      var (id, row) := items[0];
      var more, rest := base[id := row], items[1..];
      ItemsExact(nextId, more, rest);
      assert forall i :: 1 <= i < |items| ==> items[i] == rest[i - 1];
      if LoadItems(nextId, base, items).Ok? {
        FiledMore(nextId, base, items);
        RowsMore(LoadItems(nextId, base, items).value, base, items);
      } else if FiledApart(nextId, base, items) {
        FiledRest(nextId, base, items);
      }
    }
  }

  lemma FiledMore(nextId: nat, base: Rows, items: seq<(int, Row)>)
    requires items != [] && items[0].0 < nextId && items[0].0 !in base
    requires FiledApart(nextId, base[items[0].0 := items[0].1], items[1..])
    ensures FiledApart(nextId, base, items)
  {
    var rest := items[1..];
    forall i | 1 <= i < |items| ensures items[i].0 < nextId && items[i].0 !in base && items[i].0 != items[0].0 {
      assert items[i] == rest[i - 1];
    }
    forall i, j | 1 <= i < j < |items| ensures items[i].0 != items[j].0 {
      assert items[i] == rest[i - 1] && items[j] == rest[j - 1];
    }
  }

  lemma FiledRest(nextId: nat, base: Rows, items: seq<(int, Row)>)
    requires items != [] && FiledApart(nextId, base, items)
    ensures FiledApart(nextId, base[items[0].0 := items[0].1], items[1..])
  {
  }

  lemma RowsMore(rows: Rows, base: Rows, items: seq<(int, Row)>)
    requires items != [] && items[0].0 !in base && RowsAre(rows, base[items[0].0 := items[0].1], items[1..])
    ensures RowsAre(rows, base, items)
  {
    var rest, more := items[1..], base[items[0].0 := items[0].1];
    forall i | 1 <= i < |items| ensures items[i].0 in rows && rows[items[i].0] == items[i].1 {
      assert items[i] == rest[i - 1];
    }
    forall id ensures id in rows <==> id in base || exists i :: 0 <= i < |items| && items[i].0 == id {
      if id in rows && id !in more {
        var i :| 0 <= i < |rest| && rest[i].0 == id;
        assert items[i + 1].0 == id;
      }
      if id in rows && id in more && id !in base {
        assert items[0].0 == id;
      }
      if i :| 0 <= i < |items| && items[i].0 == id {
        assert items[i].0 in rows;
      }
    }
    assert forall id :: id in base ==> id in more && more[id] == base[id];
  }

  /**
    A snapshot loads exactly when its rows are filed under different ids below its
    next id and no two share a key; then the table holds exactly the rows it lists.
   */
  lemma SnapshotAccepted(sc: Schema, s: Snapshot)
    ensures LoadSnapshot(sc, s).Ok? <==>
            FiledApart(s.nextId, map[], s.items)
            && forall rows :: RowsAre(rows, map[], s.items) ==> KeysUnique(sc, rows)
    ensures LoadSnapshot(sc, s).Ok? ==>
              var p := LoadSnapshot(sc, s).value;
              p.nextId == s.nextId && p.blobs == s.blobs && RowsAre(p.rows, map[], s.items)
  {
    hide KeysUnique, RowsAre, FiledApart, LoadItems;
    ItemsExact(s.nextId, map[], s.items);
    if LoadItems(s.nextId, map[], s.items).Ok? {
      var rows := LoadItems(s.nextId, map[], s.items).value;
      forall other | RowsAre(other, map[], s.items) ensures other == rows {
        OneReading(rows, other, s.items);
      }
    }
  }

  lemma OneReading(a: Rows, b: Rows, items: seq<(int, Row)>)
    requires RowsAre(a, map[], items) && RowsAre(b, map[], items)
    ensures a == b
  {
    forall id | id in a || id in b ensures id in a && id in b && a[id] == b[id] {
      var i :| 0 <= i < |items| && items[i].0 == id;
      assert items[i].0 in a && items[i].0 in b;
    }
    assert a.Keys == b.Keys;
  }

  // ----- delta records ------------------------------------------------------

  /** The row under an id when the first `k` entries are in force: the last of them that names it decides. */
  function RowAfter(base: Rows, entries: seq<Entry>, k: nat, id: int): Option<Row>
    requires k <= |entries|
  {
    if k == 0 then Get(base, id)
    else if entries[k - 1].id == id then entries[k - 1].row
    else RowAfter(base, entries, k - 1, id)
  }

  /** Entry `k` brings a row whose id is in range and none of whose keys another row has by then. */
  ghost predicate EntryFitsIn(sc: Schema, next: nat, base: Rows, entries: seq<Entry>, k: nat)
    requires k < |entries|
  {
    entries[k].row.Some? ==>
      && entries[k].id < next
      && forall id, x: nat :: x < |sc.keys| && id != entries[k].id && RowAfter(base, entries, k, id).Some? ==>
           sc.keys[x](RowAfter(base, entries, k, id).value) != sc.keys[x](entries[k].row.value)
  }

  ghost predicate StateAt(base: Rows, entries: seq<Entry>, k: nat, rows: Rows)
    requires k <= |entries|
  {
    forall id :: Get(rows, id) == RowAfter(base, entries, k, id)
  }

  lemma KeyHeldAt(sc: Schema, next: nat, base: Rows, entries: seq<Entry>, k: nat, rows: Rows)
    requires k < |entries| && StateAt(base, entries, k, rows) && entries[k].row.Some?
    ensures EntryFitsIn(sc, next, base, entries, k) <==>
            entries[k].id < next && !KeyHeld(sc, rows - {entries[k].id}, entries[k].row.value)
  {
    var e := entries[k];
    var others := rows - {e.id};
    if KeyHeld(sc, others, e.row.value) {
      var x: nat, id :| x < |sc.keys| && id in others && sc.keys[x](others[id]) == sc.keys[x](e.row.value);
      assert RowAfter(base, entries, k, id) == Get(rows, id) == Some(others[id]);
    }
    if !EntryFitsIn(sc, next, base, entries, k) && e.id < next {
      var id, x: nat :| x < |sc.keys| && id != e.id && RowAfter(base, entries, k, id).Some?
        && sc.keys[x](RowAfter(base, entries, k, id).value) == sc.keys[x](e.row.value);
      assert Get(rows, id) == RowAfter(base, entries, k, id);
      assert id in others;
    }
  }

  lemma NextState(base: Rows, entries: seq<Entry>, k: nat, rows: Rows)
    requires k < |entries| && StateAt(base, entries, k, rows)
    ensures var e := entries[k];
            StateAt(base, entries, k + 1, if e.row.Some? then rows[e.id := e.row.value] else rows - {e.id})
  {
    var e := entries[k];
    var next := if e.row.Some? then rows[e.id := e.row.value] else rows - {e.id};
    forall id ensures Get(next, id) == RowAfter(base, entries, k + 1, id) {
      assert Get(rows, id) == RowAfter(base, entries, k, id);
    }
  }

  lemma {:induction false} EntriesFrom(sc: Schema, next: nat, base: Rows, entries: seq<Entry>, k: nat, rows: Rows)
    requires k <= |entries| && StateAt(base, entries, k, rows)
    ensures ApplyEntries(sc, next, rows, entries[k..]).Ok? <==>
            forall i :: k <= i < |entries| ==> EntryFitsIn(sc, next, base, entries, i)
    ensures ApplyEntries(sc, next, rows, entries[k..]).Ok? ==>
            StateAt(base, entries, |entries|, ApplyEntries(sc, next, rows, entries[k..]).value)
    decreases |entries| - k
  {
    hide StateAt, KeyHeld;
    if k < |entries| {
      var e, rest := entries[k], entries[k..];
      assert rest[0] == e && rest[1..] == entries[k + 1..];
      NextState(base, entries, k, rows);
      var after := if e.row.Some? then rows[e.id := e.row.value] else rows - {e.id};
      EntriesFrom(sc, next, base, entries, k + 1, after);
      if e.row.Some? {
        KeyHeldAt(sc, next, base, entries, k, rows);
      } else {
        GoneFits(sc, next, base, entries, k);
      }
      hide EntryFitsIn;
    }
  }

  lemma GoneFits(sc: Schema, next: nat, base: Rows, entries: seq<Entry>, k: nat)
    requires k < |entries| && entries[k].row.None?
    ensures EntryFitsIn(sc, next, base, entries, k)
  {
  }

  /** The byte at an offset when the first `k` patches are in force: the last of them that covers it decides. */
  function ByteAfter(base: seq<Byte>, patches: seq<Patch>, k: nat, o: nat): Byte
    requires k <= |patches| && o < |base|
  {
    if k == 0 then base[o]
    else
      var p := patches[k - 1];
      if p.off <= o < p.off + |p.bytes| then p.bytes[o - p.off] else ByteAfter(base, patches, k - 1, o)
  }

  ghost predicate BytesAre(base: seq<Byte>, patches: seq<Patch>, k: nat, blobs: seq<Byte>)
    requires k <= |patches|
  {
    |blobs| == |base| && forall o: nat :: o < |base| ==> blobs[o] == ByteAfter(base, patches, k, o)
  }

  lemma NextBytes(base: seq<Byte>, patches: seq<Patch>, k: nat, blobs: seq<Byte>)
    requires k < |patches| && BytesAre(base, patches, k, blobs) && patches[k].off + |patches[k].bytes| <= |base|
    ensures BytesAre(base, patches, k + 1, Write(blobs, patches[k].off, patches[k].bytes))
  {
  }

  lemma {:induction false} PatchesFrom(base: seq<Byte>, patches: seq<Patch>, k: nat, blobs: seq<Byte>)
    requires k <= |patches| && BytesAre(base, patches, k, blobs)
    ensures ApplyPatches(blobs, patches[k..]).Ok? <==>
            forall i :: k <= i < |patches| ==> patches[i].off + |patches[i].bytes| <= |base|
    ensures ApplyPatches(blobs, patches[k..]).Ok? ==>
            BytesAre(base, patches, |patches|, ApplyPatches(blobs, patches[k..]).value)
    decreases |patches| - k
  {
    hide ByteAfter, Write;
    if k < |patches| {
      var p, rest := patches[k], patches[k..];
      assert rest[0] == p && rest[1..] == patches[k + 1..];
      if p.off + |p.bytes| <= |base| {
        NextBytes(base, patches, k, blobs);
        PatchesFrom(base, patches, k + 1, Write(blobs, p.off, p.bytes));
      }
    }
  }

  /**
    A record applies exactly when each row it brings has an id in range and, among the
    rows as the entries before it leave them, shares no key with another; and when
    each patch lies in the arena. Then the last entry on an id decides its row, the last patch on a
    byte decides the byte, the tail follows, and the next id does not drop.
   */
  lemma RecordAccepted(sc: Schema, p: Persisted, d: Record)
    ensures var next, r := if p.nextId < d.nextId then d.nextId else p.nextId, Apply(sc, p, d);
            && (r.Ok? <==>
                && (forall k :: 0 <= k < |d.entries| ==> EntryFitsIn(sc, next, p.rows, d.entries, k))
                && (forall k :: 0 <= k < |d.patches| ==> d.patches[k].off + |d.patches[k].bytes| <= |p.blobs|))
            && (r.Ok? ==>
                && r.value.nextId == next && StateAt(p.rows, d.entries, |d.entries|, r.value.rows)
                && |r.value.blobs| == |p.blobs| + |d.tail| && r.value.blobs[|p.blobs|..] == d.tail
                && BytesAre(p.blobs, d.patches, |d.patches|, r.value.blobs[..|p.blobs|]))
  {
    hide EntryFitsIn, ApplyEntries, ApplyPatches, BytesAre, StateAt;
    var next := if p.nextId < d.nextId then d.nextId else p.nextId;
    StartState(p.rows, d.entries);
    StartBytes(p.blobs, d.patches);
    EntriesFrom(sc, next, p.rows, d.entries, 0, p.rows);
    PatchesFrom(p.blobs, d.patches, 0, p.blobs);
    assert d.entries[0..] == d.entries && d.patches[0..] == d.patches;
    if ApplyPatches(p.blobs, d.patches).Ok? {
      var blobs := ApplyPatches(p.blobs, d.patches).value;
      SameLength(p.blobs, d.patches, blobs);
      assert (blobs + d.tail)[..|p.blobs|] == blobs && (blobs + d.tail)[|p.blobs|..] == d.tail;
    }
  }

  lemma SameLength(base: seq<Byte>, patches: seq<Patch>, blobs: seq<Byte>)
    requires BytesAre(base, patches, |patches|, blobs)
    ensures |blobs| == |base|
  {
  }

  lemma StartState(base: Rows, entries: seq<Entry>)
    ensures StateAt(base, entries, 0, base)
  {
  }

  lemma StartBytes(base: seq<Byte>, patches: seq<Patch>)
    ensures BytesAre(base, patches, 0, base)
  {
  }

  // ----- sections -----------------------------------------------------------

  /** A section has a table, and its body is a snapshot that loads into it. */
  ghost predicate SectionLoads(l: Layout, part: Section)
    requires |l.schemas| == |l.typeIds|
  {
    && part.typeId in l.typeIds
    && (MustFind(l, part.typeId);
        var sc := l.schemas[Find(l.typeIds, part.typeId).value];
        var s := ParseSnapshot(sc.size, part.body);
        s.Some? && LoadSnapshot(sc, s.value).Ok?)
  }

  lemma MustFind(l: Layout, typeId: nat)
    requires |l.schemas| == |l.typeIds| && typeId in l.typeIds
    ensures Find(l.typeIds, typeId).Some?
  {
  }

  /** Sections load exactly when every one has a registered table and loads into it; there is no skipping. */
  lemma {:induction false} SectionsAccepted(l: Layout, tables: seq<Persisted>, parts: seq<Section>)
    requires |tables| == |l.schemas| == |l.typeIds|
    ensures LoadParts(l, tables, parts).Ok? <==> forall i :: 0 <= i < |parts| ==> SectionLoads(l, parts[i])
    ensures LoadParts(l, tables, parts).Ok? ==>
              var after := LoadParts(l, tables, parts).value;
              |after| == |tables|
              && forall x :: 0 <= x < |tables| && (forall i :: 0 <= i < |parts| ==> parts[i].typeId != l.typeIds[x]) ==>
                   after[x] == tables[x]
    decreases |parts|
  {
    hide ParseSnapshot, LoadSnapshot;
    if parts != [] {
      var part, rest := parts[0], parts[1..];
      assert forall i :: 1 <= i < |parts| ==> parts[i] == rest[i - 1];
      match Find(l.typeIds, part.typeId)
      case None => assert !SectionLoads(l, part);
      case Some(x) =>
        var s := ParseSnapshot(l.schemas[x].size, part.body);
        if s.Some? && LoadSnapshot(l.schemas[x], s.value).Ok? {
          SectionsAccepted(l, tables[x := LoadSnapshot(l.schemas[x], s.value).value], rest);
          assert SectionLoads(l, part);
        } else {
          assert !SectionLoads(l, part);
        }
    }
  }

  /** A checkpoint is accepted exactly when its sections are and its revision is not negative; it keeps both. */
  lemma CheckpointAccepted(l: Layout, b: Bytes)
    requires |l.schemas| == |l.typeIds| > 0
    ensures Load(l, b).Ok? <==>
            && ParseSections(b).Some? && ParseSections(b).value.revision >= 0
            && forall i :: 0 <= i < |ParseSections(b).value.parts| ==> SectionLoads(l, ParseSections(b).value.parts[i])
    ensures Load(l, b).Ok? ==> Load(l, b).value.revision == ParseSections(b).value.revision
  {
    hide ParseSections, LoadParts, SectionLoads;
    if ParseSections(b).Some? {
      SectionsAccepted(l, Blank(|l.schemas|), ParseSections(b).value.parts);
    }
  }

  /** A frame with a section of no registered table, or one that is no record, is refused. */
  lemma {:induction false} FrameNeedsTables(l: Layout, tables: seq<Persisted>, parts: seq<Section>, i: nat)
    requires |tables| == |l.schemas| == |l.typeIds| && ApplyParts(l, tables, parts).Ok? && i < |parts|
    ensures parts[i].typeId in l.typeIds && Find(l.typeIds, parts[i].typeId).Some?
    ensures ParseRecord(l.schemas[Find(l.typeIds, parts[i].typeId).value].size, parts[i].body).Some?
    decreases |parts|
  {
    hide ParseRecord, Apply;
    var x := Find(l.typeIds, parts[0].typeId).value;
    assert l.typeIds[x] in l.typeIds;
    if i > 0 {
      var d := ParseRecord(l.schemas[x].size, parts[0].body).value;
      FrameNeedsTables(l, tables[x := Apply(l.schemas[x], tables[x], d).value], parts[1..], i - 1);
    }
  }

  /** Frames one after another: the last one's revision stands. */
  lemma {:induction false} LastRevision(l: Layout, im: Image, frames: seq<Bytes>)
    requires |im.tables| == |l.schemas| == |l.typeIds| && ApplyFrames(l, im, frames).Ok?
    ensures frames == [] ==> ApplyFrames(l, im, frames).value == im
    ensures frames != [] ==>
              var s := ParseSections(frames[|frames| - 1]);
              s.Some? && ApplyFrames(l, im, frames).value.revision == s.value.revision
    decreases |frames|
  {
    hide ParseSections, ApplyParts;
    if |frames| > 1 {
      LastRevision(l, ApplyFrame(l, im.tables, frames[0]).value, frames[1..]);
    } else if |frames| == 1 {
      assert frames[1..] == [];
    }
  }

  // ----- bytes --------------------------------------------------------------

  lemma {:induction false} FromLEBound(b: Bytes)
    ensures FromLE(b) < Pow256(|b|) && LE(FromLE(b), |b|) == b
    decreases |b|
  {
    if b != [] {
      FromLEBound(b[1..]);
      assert FromLE(b) / 256 == FromLE(b[1..]) && FromLE(b) % 256 == b[0];
      assert b == [b[0]] + b[1..];
    }
  }

  lemma TookU64(b: Bytes)
    requires TakeU64(b).Got?
    ensures var n := TakeU64(b).value; n < U64_LIMIT && b == U64(n) + TakeU64(b).rest
  {
    FromLEBound(b[..8]);
    assert Pow256(8) == U64_LIMIT by {
      assert Pow256(1) == 256 && Pow256(2) == 65536 && Pow256(3) == 16777216 && Pow256(4) == 4294967296;
      assert Pow256(5) == 256 * Pow256(4) && Pow256(6) == 256 * Pow256(5) && Pow256(7) == 256 * Pow256(6);
    }
    assert b == b[..8] + b[8..];
  }

  lemma TookItem(size: nat, b: Bytes)
    requires TakeItem(size, b).Got?
    ensures ItemFits(size, TakeItem(size, b).value) && b == ItemBytes(TakeItem(size, b).value) + TakeItem(size, b).rest
  {
    hide TakeU64, U64;
    TookU64(b);
    TookU64(TakeU64(b).rest);
  }

  lemma {:induction false} TookItems(size: nat, n: nat, b: Bytes)
    requires TakeItems(size, n, b).Got?
    ensures var items := TakeItems(size, n, b).value;
            && |items| == n && (forall i :: 0 <= i < n ==> ItemFits(size, items[i]))
            && b == ItemsBytes(items) + TakeItems(size, n, b).rest
    decreases n
  {
    hide TakeItem, ItemFits, ItemBytes;
    if n > 0 {
      TookItem(size, b);
      var item, b1 := TakeItem(size, b).value, TakeItem(size, b).rest;
      TookItems(size, n - 1, b1);
      var items := TakeItems(size, n - 1, b1).value;
      assert ([item] + items)[1..] == items;
      assert b == ItemBytes(item) + (ItemsBytes(items) + TakeItems(size, n - 1, b1).rest);
    }
  }

  lemma TookBlock(b: Bytes)
    requires TakeBlock(b).Got?
    ensures var x := TakeBlock(b).value; |x| < U64_LIMIT && b == U64(|x|) + x + TakeBlock(b).rest
  {
    hide TakeU64, U64;
    TookU64(b);
    var n, rest := TakeU64(b).value, TakeU64(b).rest;
    assert rest == rest[..n] + rest[n..];
  }

  /** Bytes read as a snapshot exactly when they are that snapshot's bytes and nothing else. */
  lemma SnapshotParsesExactly(size: nat, b: Bytes, s: Snapshot)
    ensures ParseSnapshot(size, b) == Some(s) <==> SnapshotFits(size, s) && b == SnapshotBytes(s)
  {
    hide TakeU64, TakeItems, TakeBlock, U64, ItemsBytes, ItemFits;
    if SnapshotFits(size, s) && b == SnapshotBytes(s) {
      SnapshotRoundTrip(size, s);
    }
    if ParseSnapshot(size, b) == Some(s) {
      TookU64(b);
      var b1 := TakeU64(b).rest;
      TookU64(b1);
      var n, b2 := TakeU64(b1).value, TakeU64(b1).rest;
      TookItems(size, n, b2);
      TookBlock(TakeItems(size, n, b2).rest);
      assert b == U64(s.nextId) + (U64(|s.items|) + (ItemsBytes(s.items) + (U64(|s.blobs|) + s.blobs + [])));
    }
  }

  // ----- patches ------------------------------------------------------------

  /** Where the last patch at an offset stands; -1 when there is none. */
  function LastAt(patches: seq<BlobRef>, off: nat): int
  {
    if patches == [] then -1
    else if patches[|patches| - 1].off == off then |patches| - 1
    else LastAt(patches[..|patches| - 1], off)
  }

  lemma LastAtIs(patches: seq<BlobRef>, off: nat)
    ensures var k := LastAt(patches, off);
            && -1 <= k < |patches| && (k >= 0 ==> patches[k].off == off)
            && forall i :: k < i < |patches| ==> patches[i].off != off
  {
    if patches != [] {
      LastAtIs(patches[..|patches| - 1], off);
    }
  }

  ghost predicate IsLatest(latest: seq<BlobRef>, patches: seq<BlobRef>, flushed: nat, seen: set<nat>)
  {
    && (forall i :: 0 <= i < |latest| ==>
          var off := latest[i].off;
          off < flushed && off !in seen && LastAt(patches, off) >= 0 && LastAt(patches, off) < |patches|
          && patches[LastAt(patches, off)] == latest[i])
    && (forall off: nat :: off < flushed && off !in seen && LastAt(patches, off) >= 0 ==>
          exists i :: 0 <= i < |latest| && latest[i].off == off)
    && (forall i, j :: 0 <= i < j < |latest| ==> LastAt(patches, latest[j].off) < LastAt(patches, latest[i].off))
  }

  /**
    The patches a record carries: the last one at each flushed offset, and the later
    it was made the earlier it stands.
   */
  lemma {:induction false} LatestFirst(patches: seq<BlobRef>, flushed: nat, seen: set<nat>)
    ensures IsLatest(LatestPatches(patches, flushed, seen), patches, flushed, seen)
    decreases |patches|
  {
    if patches != [] {
      var r, init := patches[|patches| - 1], patches[..|patches| - 1];
      if r.off < flushed && r.off !in seen {
        LatestFirst(init, flushed, seen + {r.off});
        LatestTaken(LatestPatches(init, flushed, seen + {r.off}), init, r, flushed, seen);
        assert init + [r] == patches;
      } else {
        LatestFirst(init, flushed, seen);
        LatestSkipped(LatestPatches(init, flushed, seen), init, r, flushed, seen);
        assert init + [r] == patches;
      }
    }
  }

  lemma LastAtNext(init: seq<BlobRef>, r: BlobRef, off: nat)
    ensures LastAt(init + [r], off) == if r.off == off then |init| else LastAt(init, off)
  {
    assert (init + [r])[..|init|] == init;
  }

  lemma LatestSkipped(latest: seq<BlobRef>, init: seq<BlobRef>, r: BlobRef, flushed: nat, seen: set<nat>)
    requires IsLatest(latest, init, flushed, seen) && !(r.off < flushed && r.off !in seen)
    ensures IsLatest(latest, init + [r], flushed, seen)
  {
    hide LastAt;
    forall off: nat ensures LastAt(init + [r], off) == if r.off == off then |init| else LastAt(init, off) {
      LastAtNext(init, r, off);
    }
  }

  lemma LatestTaken(latest: seq<BlobRef>, init: seq<BlobRef>, r: BlobRef, flushed: nat, seen: set<nat>)
    requires IsLatest(latest, init, flushed, seen + {r.off}) && r.off < flushed && r.off !in seen
    ensures IsLatest([r] + latest, init + [r], flushed, seen)
  {
    hide LastAt;
    var all, patches := [r] + latest, init + [r];
    forall off: nat ensures LastAt(patches, off) == if r.off == off then |init| else LastAt(init, off) {
      LastAtNext(init, r, off);
    }
    assert forall i :: 1 <= i < |all| ==> all[i] == latest[i - 1];
    forall off: nat | off < flushed && off !in seen && LastAt(patches, off) >= 0
      ensures exists i :: 0 <= i < |all| && all[i].off == off
    {
      if off == r.off {
        assert all[0].off == off;
      } else {
        var i :| 0 <= i < |latest| && latest[i].off == off;
        assert all[i + 1].off == off;
      }
    }
  }

  // ----- logs and records ---------------------------------------------------

  /** The frames of a log are what it starts with, each after its length, and what follows them is torn. */
  lemma {:induction false} FramesExactly(b: Bytes) returns (torn: Bytes)
    ensures b == LogBytes(CompleteFrames(b)) + torn && TakeBlock(torn).Stuck?
    decreases |b|
  {
    hide TakeBlock, U64;
    if TakeBlock(b).Stuck? {
      torn := b;
    } else {
      TookBlock(b);
      var x, rest := TakeBlock(b).value, TakeBlock(b).rest;
      torn := FramesExactly(rest);
      var frames := CompleteFrames(rest);
      assert CompleteFrames(b) == [x] + frames && ([x] + frames)[1..] == frames;
      assert b == U64(|x|) + x + (LogBytes(frames) + torn);
    }
  }

  lemma TookEntry(size: nat, b: Bytes)
    requires TakeEntry(size, b).Got?
    ensures var e := TakeEntry(size, b).value; EntryFits(size, e) && |b| == |EntryBytes(e)| + |TakeEntry(size, b).rest|
  {
    hide TakeU64, U64;
    TookU64(b);
    var b1 := TakeU64(b).rest;
    if b1[0] == 1 {
      TookU64(b1[1..]);
    }
  }

  lemma {:induction false} TookEntries(size: nat, n: nat, b: Bytes)
    requires TakeEntries(size, n, b).Got?
    ensures var entries := TakeEntries(size, n, b).value;
            && |entries| == n && (forall i :: 0 <= i < n ==> EntryFits(size, entries[i]))
            && |b| == |EntriesBytes(entries)| + |TakeEntries(size, n, b).rest|
    decreases n
  {
    hide TakeEntry, EntryFits, EntryBytes;
    if n > 0 {
      TookEntry(size, b);
      var b1 := TakeEntry(size, b).rest;
      TookEntries(size, n - 1, b1);
      assert ([TakeEntry(size, b).value] + TakeEntries(size, n - 1, b1).value)[1..]
             == TakeEntries(size, n - 1, b1).value;
    }
  }

  lemma TookPatch(b: Bytes)
    requires TakePatch(b).Got?
    ensures var p := TakePatch(b).value; PatchFits(p) && b == PatchBytes(p) + TakePatch(b).rest
  {
    hide TakeU64, U64, TakeBlock;
    TookU64(b);
    TookBlock(TakeU64(b).rest);
  }

  lemma {:induction false} TookPatches(n: nat, b: Bytes)
    requires TakePatches(n, b).Got?
    ensures var patches := TakePatches(n, b).value;
            && |patches| == n && (forall i :: 0 <= i < n ==> PatchFits(patches[i]))
            && b == PatchesBytes(patches) + TakePatches(n, b).rest
    decreases n
  {
    hide TakePatch, PatchFits, PatchBytes;
    if n > 0 {
      TookPatch(b);
      var b1 := TakePatch(b).rest;
      TookPatches(n - 1, b1);
      var p, patches := TakePatch(b).value, TakePatches(n - 1, b1).value;
      assert ([p] + patches)[1..] == patches;
      assert b == PatchBytes(p) + (PatchesBytes(patches) + TakePatches(n - 1, b1).rest);
    }
  }

  /** Bytes read as a record are as long as that record's bytes: nothing may follow it. */
  lemma RecordParsesWhole(size: nat, b: Bytes)
    requires ParseRecord(size, b).Some?
    ensures var d := ParseRecord(size, b).value; RecordFits(size, d) && |b| == |RecordBytes(d)|
  {
    hide TakeU64, TakeEntries, TakePatches, TakeBlock, U64, EntriesBytes, PatchesBytes, EntryFits, PatchFits;
    TookU64(b);
    var b1 := TakeU64(b).rest;
    TookU64(b1);
    var n, b2 := TakeU64(b1).value, TakeU64(b1).rest;
    TookEntries(size, n, b2);
    var b3 := TakeEntries(size, n, b2).rest;
    TookU64(b3);
    var m, b4 := TakeU64(b3).value, TakeU64(b3).rest;
    TookPatches(m, b4);
    TookBlock(TakePatches(m, b4).rest);
  }
}
