/** The byte layout of checkpoints, delta records and log frames. */
module Wire {
  import opened ArenaTypes
  import opened Delta

  type Bytes = seq<Byte>

  // ----- integers -----------------------------------------------------------

  function Pow256(n: nat): nat
  {
    if n == 0 then 1 else 256 * Pow256(n - 1)
  }

  /** `n` in `width` bytes, low byte first. */
  function LE(n: nat, width: nat): (b: Bytes)
    ensures |b| == width
  {
    if width == 0 then [] else [n % 256] + LE(n / 256, width - 1)
  }

  function FromLE(b: Bytes): nat
  {
    if b == [] then 0 else b[0] + 256 * FromLE(b[1..])
  }

  lemma {:induction false} LERoundTrip(n: nat, width: nat)
    requires n < Pow256(width)
    ensures FromLE(LE(n, width)) == n
  {
    if width > 0 {
      LERoundTrip(n / 256, width - 1);
      assert LE(n, width)[1..] == LE(n / 256, width - 1);
    }
  }

  const U64_LIMIT: nat := 0x1_0000_0000_0000_0000

  function U64(n: nat): (b: Bytes)
    ensures |b| == 8
  {
    LE(n, 8)
  }

  // ----- parsing from the front of a byte string ----------------------------

  /** A value read from the front of a byte string, and what follows it. */
  datatype Parsed<+T> = Stuck | Got(value: T, rest: Bytes)

  function TakeBytes(b: Bytes, n: nat): Parsed<Bytes>
  {
    if n <= |b| then Got(b[..n], b[n..]) else Stuck
  }

  function TakeU64(b: Bytes): Parsed<nat>
  {
    if 8 <= |b| then Got(FromLE(b[..8]), b[8..]) else Stuck
  }

  lemma TakeBytesOf(x: Bytes, rest: Bytes)
    ensures TakeBytes(x + rest, |x|) == Got(x, rest)
  {
  }

  lemma TakeU64Of(n: nat, rest: Bytes)
    requires n < U64_LIMIT
    ensures TakeU64(U64(n) + rest) == Got(n, rest)
  {
    assert Pow256(8) == U64_LIMIT by {
      assert Pow256(1) == 256 && Pow256(2) == 65536 && Pow256(3) == 16777216 && Pow256(4) == 4294967296;
      assert Pow256(5) == 256 * Pow256(4) && Pow256(6) == 256 * Pow256(5) && Pow256(7) == 256 * Pow256(6);
    }
    LERoundTrip(n, 8);
    assert (U64(n) + rest)[..8] == U64(n);
  }

  // ----- rows ---------------------------------------------------------------

  /** A row as it lies in memory: its id, then its other fields. */
  function RowBytes(r: Row): Bytes
  {
    U64(r.id % U64_LIMIT) + r.data
  }

  function TakeRow(size: nat, b: Bytes): Parsed<Row>
  {
    match TakeU64(b)
    case Stuck => Stuck
    case Got(id, b1) =>
      match TakeBytes(b1, size)
      case Stuck => Stuck
      case Got(data, b2) => Got(Row(id, data), b2)
  }

  lemma TakeRowOf(size: nat, r: Row, rest: Bytes)
    requires 0 <= r.id < U64_LIMIT && |r.data| == size
    ensures TakeRow(size, RowBytes(r) + rest) == Got(r, rest)
  {
    assert RowBytes(r) + rest == U64(r.id) + (r.data + rest);
    TakeU64Of(r.id, r.data + rest);
    TakeBytesOf(r.data, rest);
  }

  // ----- delta records ------------------------------------------------------

  function EntryBytes(e: Entry): Bytes
  {
    U64(e.id % U64_LIMIT) + match e.row case Some(r) => [1] + RowBytes(r) case None => [0]
  }

  function TakeEntry(size: nat, b: Bytes): Parsed<Entry>
  {
    match TakeU64(b)
    case Stuck => Stuck
    case Got(id, b1) =>
      if b1 == [] then Stuck
      else if b1[0] != 1 then Got(Entry(id, None), b1[1..])
      else match TakeRow(size, b1[1..])
        case Stuck => Stuck
        case Got(r, b2) => Got(Entry(id, Some(r)), b2)
  }

  predicate EntryFits(size: nat, e: Entry)
  {
    0 <= e.id < U64_LIMIT && (e.row.Some? ==> 0 <= e.row.value.id < U64_LIMIT && |e.row.value.data| == size)
  }

  lemma TakeEntryOf(size: nat, e: Entry, rest: Bytes)
    requires EntryFits(size, e)
    ensures TakeEntry(size, EntryBytes(e) + rest) == Got(e, rest)
  {
    hide TakeU64, TakeRow, U64, RowBytes;
    match e.row
    case None =>
      assert EntryBytes(e) + rest == U64(e.id) + ([0] + rest);
      TakeU64Of(e.id, [0] + rest);
    case Some(r) =>
      var b2 := RowBytes(r) + rest;
      assert EntryBytes(e) + rest == U64(e.id) + ([1] + b2);
      TakeU64Of(e.id, [1] + b2);
      assert ([1] + b2)[1..] == b2;
      TakeRowOf(size, r, rest);
  }

  predicate PatchFits(p: Patch)
  {
    p.off < U64_LIMIT && |p.bytes| < U64_LIMIT
  }

  function PatchBytes(p: Patch): Bytes
  {
    U64(p.off) + (U64(|p.bytes|) + p.bytes)
  }

  function TakePatch(b: Bytes): Parsed<Patch>
  {
    match TakeU64(b)
    case Stuck => Stuck
    case Got(off, b1) =>
      match TakeBlock(b1)
      case Stuck => Stuck
      case Got(bytes, b2) => Got(Patch(off, bytes), b2)
  }

  /** A length, then that many bytes. */
  function TakeBlock(b: Bytes): Parsed<Bytes>
  {
    match TakeU64(b)
    case Stuck => Stuck
    case Got(len, b1) => TakeBytes(b1, len)
  }

  lemma TakeBlockOf(x: Bytes, rest: Bytes)
    requires |x| < U64_LIMIT
    ensures TakeBlock(U64(|x|) + x + rest) == Got(x, rest)
  {
    assert U64(|x|) + x + rest == U64(|x|) + (x + rest);
    TakeU64Of(|x|, x + rest);
    TakeBytesOf(x, rest);
  }

  lemma TakePatchOf(p: Patch, rest: Bytes)
    requires PatchFits(p)
    ensures TakePatch(PatchBytes(p) + rest) == Got(p, rest)
  {
    assert PatchBytes(p) + rest == U64(p.off) + (U64(|p.bytes|) + p.bytes + rest);
    TakeU64Of(p.off, U64(|p.bytes|) + p.bytes + rest);
    TakeBlockOf(p.bytes, rest);
  }

  function EntriesBytes(entries: seq<Entry>): Bytes
  {
    if entries == [] then [] else EntryBytes(entries[0]) + EntriesBytes(entries[1..])
  }

  function TakeEntries(size: nat, n: nat, b: Bytes): Parsed<seq<Entry>>
  {
    if n == 0 then Got([], b)
    else match TakeEntry(size, b)
      case Stuck => Stuck
      case Got(e, b1) =>
        match TakeEntries(size, n - 1, b1)
        case Stuck => Stuck
        case Got(es, b2) => Got([e] + es, b2)
  }

  lemma {:induction false} TakeEntriesOf(size: nat, entries: seq<Entry>, rest: Bytes)
    requires forall i :: 0 <= i < |entries| ==> EntryFits(size, entries[i])
    ensures TakeEntries(size, |entries|, EntriesBytes(entries) + rest) == Got(entries, rest)
  {
    hide TakeEntry, EntryBytes, EntryFits;
    if entries == [] {
      assert EntriesBytes(entries) + rest == rest;
    } else {
      var after := EntriesBytes(entries[1..]) + rest;
      assert EntriesBytes(entries) + rest == EntryBytes(entries[0]) + after;
      TakeEntryOf(size, entries[0], after);
      TakeEntriesOf(size, entries[1..], rest);
      assert [entries[0]] + entries[1..] == entries;
    }
  }

  function PatchesBytes(patches: seq<Patch>): Bytes
  {
    if patches == [] then [] else PatchBytes(patches[0]) + PatchesBytes(patches[1..])
  }

  function TakePatches(n: nat, b: Bytes): Parsed<seq<Patch>>
  {
    if n == 0 then Got([], b)
    else match TakePatch(b)
      case Stuck => Stuck
      case Got(p, b1) =>
        match TakePatches(n - 1, b1)
        case Stuck => Stuck
        case Got(ps, b2) => Got([p] + ps, b2)
  }

  lemma {:induction false} TakePatchesOf(patches: seq<Patch>, rest: Bytes)
    requires forall i :: 0 <= i < |patches| ==> PatchFits(patches[i])
    ensures TakePatches(|patches|, PatchesBytes(patches) + rest) == Got(patches, rest)
  {
    hide TakePatch, PatchBytes, PatchFits;
    if patches == [] {
      assert PatchesBytes(patches) + rest == rest;
    } else {
      var after := PatchesBytes(patches[1..]) + rest;
      assert PatchesBytes(patches) + rest == PatchBytes(patches[0]) + after;
      TakePatchOf(patches[0], after);
      TakePatchesOf(patches[1..], rest);
      assert [patches[0]] + patches[1..] == patches;
    }
  }

  predicate RecordFits(size: nat, d: Record)
  {
    && d.nextId < U64_LIMIT && |d.entries| < U64_LIMIT && |d.patches| < U64_LIMIT && |d.tail| < U64_LIMIT
    && (forall i :: 0 <= i < |d.entries| ==> EntryFits(size, d.entries[i]))
    && (forall i :: 0 <= i < |d.patches| ==> PatchFits(d.patches[i]))
  }

  function RecordBytes(d: Record): Bytes
  {
    U64(d.nextId) + U64(|d.entries|) + EntriesBytes(d.entries)
    + U64(|d.patches|) + PatchesBytes(d.patches)
    + U64(|d.tail|) + d.tail
  }

  /** Reads a whole record: nothing may follow it. */
  function ParseRecord(size: nat, b: Bytes): Option<Record>
  {
    match TakeU64(b)
    case Stuck => None
    case Got(nextId, b1) =>
      match TakeU64(b1)
      case Stuck => None
      case Got(n, b2) =>
        match TakeEntries(size, n, b2)
        case Stuck => None
        case Got(entries, b3) =>
          match TakeU64(b3)
          case Stuck => None
          case Got(m, b4) =>
            match TakePatches(m, b4)
            case Stuck => None
            case Got(patches, b5) =>
              match TakeBlock(b5)
              case Stuck => None
              case Got(tail, b6) => if b6 == [] then Some(Record(nextId, entries, patches, tail)) else None
  }

  /** A packed delta is read back as it was. */
  lemma RecordRoundTrip(size: nat, d: Record)
    requires RecordFits(size, d)
    ensures ParseRecord(size, RecordBytes(d)) == Some(d)
  {
    hide TakeU64, TakeEntries, TakePatches, TakeBlock, EntriesBytes, PatchesBytes, U64, EntryFits;
    var b6: Bytes := [];
    var b5 := U64(|d.tail|) + d.tail + b6;
    var b4 := PatchesBytes(d.patches) + b5;
    var b3 := U64(|d.patches|) + b4;
    var b2 := EntriesBytes(d.entries) + b3;
    var b1 := U64(|d.entries|) + b2;
    assert RecordBytes(d) == U64(d.nextId) + b1;
    TakeU64Of(d.nextId, b1);
    TakeU64Of(|d.entries|, b2);
    TakeEntriesOf(size, d.entries, b3);
    TakeU64Of(|d.patches|, b4);
    TakePatchesOf(d.patches, b5);
    TakeBlockOf(d.tail, b6);
  }

  // ----- snapshots ----------------------------------------------------------

  datatype Snapshot = Snapshot(nextId: nat, items: seq<(int, Row)>, blobs: Bytes)

  function ItemBytes(item: (int, Row)): Bytes
  {
    U64(item.0 % U64_LIMIT) + RowBytes(item.1)
  }

  function TakeItem(size: nat, b: Bytes): Parsed<(int, Row)>
  {
    match TakeU64(b)
    case Stuck => Stuck
    case Got(id, b1) =>
      match TakeRow(size, b1)
      case Stuck => Stuck
      case Got(r, b2) => Got((id, r), b2)
  }

  predicate ItemFits(size: nat, item: (int, Row))
  {
    0 <= item.0 < U64_LIMIT && 0 <= item.1.id < U64_LIMIT && |item.1.data| == size
  }

  lemma TakeItemOf(size: nat, item: (int, Row), rest: Bytes)
    requires ItemFits(size, item)
    ensures TakeItem(size, ItemBytes(item) + rest) == Got(item, rest)
  {
    hide TakeU64, TakeRow, U64, RowBytes;
    assert ItemBytes(item) + rest == U64(item.0) + (RowBytes(item.1) + rest);
    TakeU64Of(item.0, RowBytes(item.1) + rest);
    TakeRowOf(size, item.1, rest);
  }

  function ItemsBytes(items: seq<(int, Row)>): Bytes
  {
    if items == [] then [] else ItemBytes(items[0]) + ItemsBytes(items[1..])
  }

  function TakeItems(size: nat, n: nat, b: Bytes): Parsed<seq<(int, Row)>>
  {
    if n == 0 then Got([], b)
    else match TakeItem(size, b)
      case Stuck => Stuck
      case Got(item, b1) =>
        match TakeItems(size, n - 1, b1)
        case Stuck => Stuck
        case Got(items, b2) => Got([item] + items, b2)
  }

  lemma {:induction false} TakeItemsOf(size: nat, items: seq<(int, Row)>, rest: Bytes)
    requires forall i :: 0 <= i < |items| ==> ItemFits(size, items[i])
    ensures TakeItems(size, |items|, ItemsBytes(items) + rest) == Got(items, rest)
  {
    hide TakeItem, ItemBytes, ItemFits;
    if items == [] {
      assert ItemsBytes(items) + rest == rest;
    } else {
      var after := ItemsBytes(items[1..]) + rest;
      assert ItemsBytes(items) + rest == ItemBytes(items[0]) + after;
      TakeItemOf(size, items[0], after);
      TakeItemsOf(size, items[1..], rest);
      assert [items[0]] + items[1..] == items;
    }
  }

  function SnapshotBytes(s: Snapshot): Bytes
  {
    U64(s.nextId) + U64(|s.items|) + ItemsBytes(s.items) + U64(|s.blobs|) + s.blobs
  }

  function ParseSnapshot(size: nat, b: Bytes): Option<Snapshot>
  {
    match TakeU64(b)
    case Stuck => None
    case Got(nextId, b1) =>
      match TakeU64(b1)
      case Stuck => None
      case Got(n, b2) =>
        match TakeItems(size, n, b2)
        case Stuck => None
        case Got(items, b3) =>
          match TakeBlock(b3)
          case Stuck => None
          case Got(blobs, b4) => if b4 == [] then Some(Snapshot(nextId, items, blobs)) else None
  }

  predicate SnapshotFits(size: nat, s: Snapshot)
  {
    && s.nextId < U64_LIMIT && |s.items| < U64_LIMIT && |s.blobs| < U64_LIMIT
    && forall i :: 0 <= i < |s.items| ==> ItemFits(size, s.items[i])
  }

  lemma SnapshotRoundTrip(size: nat, s: Snapshot)
    requires SnapshotFits(size, s)
    ensures ParseSnapshot(size, SnapshotBytes(s)) == Some(s)
  {
    hide TakeU64, TakeItems, TakeBlock, ItemsBytes, U64, ItemFits;
    var b4: Bytes := [];
    var b3 := U64(|s.blobs|) + s.blobs + b4;
    var b2 := ItemsBytes(s.items) + b3;
    var b1 := U64(|s.items|) + b2;
    assert SnapshotBytes(s) == U64(s.nextId) + b1;
    TakeU64Of(s.nextId, b1);
    TakeU64Of(|s.items|, b2);
    TakeItemsOf(size, s.items, b3);
    TakeBlockOf(s.blobs, b4);
  }

  // ----- sections: the checkpoint file and each log frame -------------------

  datatype Section = Section(typeId: nat, body: Bytes)

  /** A revision and one section for each table. */
  datatype Sections = Sections(revision: int, parts: seq<Section>)

  const I64_MIN: int := -0x8000_0000_0000_0000
  const I64_MAX: int := 0x7FFF_FFFF_FFFF_FFFF

  /** A signed 64-bit number in two's complement. */
  function I64(n: int): (b: Bytes)
    ensures |b| == 8
  {
    U64(n % U64_LIMIT)
  }

  function TakeI64(b: Bytes): Parsed<int>
  {
    match TakeU64(b)
    case Stuck => Stuck
    case Got(n, rest) => Got(if n <= I64_MAX then n else n - U64_LIMIT, rest)
  }

  lemma TakeI64Of(n: int, rest: Bytes)
    requires I64_MIN <= n <= I64_MAX
    ensures TakeI64(I64(n) + rest) == Got(n, rest)
  {
    TakeU64Of(n % U64_LIMIT, rest);
  }

  function TakeU16(b: Bytes): Parsed<nat>
  {
    if 2 <= |b| then Got(FromLE(b[..2]), b[2..]) else Stuck
  }

  lemma TakeU16Of(n: nat, rest: Bytes)
    requires n < 65536
    ensures TakeU16(LE(n, 2) + rest) == Got(n, rest)
  {
    LERoundTrip(n, 2);
    assert (LE(n, 2) + rest)[..2] == LE(n, 2);
  }

  function SectionBytes(s: Section): Bytes
  {
    LE(s.typeId, 2) + (U64(|s.body|) + s.body)
  }

  function TakeSection(b: Bytes): Parsed<Section>
  {
    match TakeU16(b)
    case Stuck => Stuck
    case Got(typeId, b1) =>
      match TakeBlock(b1)
      case Stuck => Stuck
      case Got(body, b2) => Got(Section(typeId, body), b2)
  }

  predicate SectionFits(s: Section)
  {
    s.typeId < 65536 && |s.body| < U64_LIMIT
  }

  lemma TakeSectionOf(s: Section, rest: Bytes)
    requires SectionFits(s)
    ensures TakeSection(SectionBytes(s) + rest) == Got(s, rest)
  {
    hide TakeU16, TakeBlock, U64, LE;
    var b1 := U64(|s.body|) + s.body + rest;
    assert SectionBytes(s) + rest == LE(s.typeId, 2) + b1;
    TakeU16Of(s.typeId, b1);
    TakeBlockOf(s.body, rest);
  }

  function PartsBytes(parts: seq<Section>): Bytes
  {
    if parts == [] then [] else SectionBytes(parts[0]) + PartsBytes(parts[1..])
  }

  function TakeParts(n: nat, b: Bytes): Parsed<seq<Section>>
  {
    if n == 0 then Got([], b)
    else match TakeSection(b)
      case Stuck => Stuck
      case Got(s, b1) =>
        match TakeParts(n - 1, b1)
        case Stuck => Stuck
        case Got(parts, b2) => Got([s] + parts, b2)
  }

  lemma {:induction false} TakePartsOf(parts: seq<Section>, rest: Bytes)
    requires forall i :: 0 <= i < |parts| ==> SectionFits(parts[i])
    ensures TakeParts(|parts|, PartsBytes(parts) + rest) == Got(parts, rest)
  {
    hide TakeSection, SectionBytes, SectionFits;
    if parts == [] {
      assert PartsBytes(parts) + rest == rest;
    } else {
      var after := PartsBytes(parts[1..]) + rest;
      assert PartsBytes(parts) + rest == SectionBytes(parts[0]) + after;
      TakeSectionOf(parts[0], after);
      TakePartsOf(parts[1..], rest);
      assert [parts[0]] + parts[1..] == parts;
    }
  }

  function SectionsBytes(s: Sections): Bytes
  {
    I64(s.revision) + U64(|s.parts|) + PartsBytes(s.parts)
  }

  /** Reads a revision and its sections; what follows them is not looked at. */
  function ParseSections(b: Bytes): Option<Sections>
  {
    match TakeI64(b)
    case Stuck => None
    case Got(revision, b1) =>
      match TakeU64(b1)
      case Stuck => None
      case Got(n, b2) =>
        match TakeParts(n, b2)
        case Stuck => None
        case Got(parts, _) => Some(Sections(revision, parts))
  }

  predicate SectionsFit(s: Sections)
  {
    && I64_MIN <= s.revision <= I64_MAX && |s.parts| < U64_LIMIT
    && forall i :: 0 <= i < |s.parts| ==> SectionFits(s.parts[i])
  }

  lemma SectionsRoundTrip(s: Sections)
    requires SectionsFit(s)
    ensures ParseSections(SectionsBytes(s)) == Some(s)
  {
    hide TakeI64, TakeU64, TakeParts, PartsBytes, U64, I64, SectionFits;
    var b3: Bytes := [];
    var b2 := PartsBytes(s.parts) + b3;
    var b1 := U64(|s.parts|) + b2;
    assert SectionsBytes(s) == I64(s.revision) + b1;
    TakeI64Of(s.revision, b1);
    TakeU64Of(|s.parts|, b2);
    TakePartsOf(s.parts, b3);
  }

  // ----- the log ------------------------------------------------------------

  /** Frames as `flush_delta` appends them: each after its length. */
  function LogBytes(frames: seq<Bytes>): Bytes
  {
    if frames == [] then [] else U64(|frames[0]|) + frames[0] + LogBytes(frames[1..])
  }

  /** The frames a replay sees: it stops at the first torn length or torn frame. */
  function CompleteFrames(b: Bytes): seq<Bytes>
    decreases |b|
  {
    match TakeBlock(b)
    case Stuck => []
    case Got(frame, rest) => [frame] + CompleteFrames(rest)
  }

  /** How many of the frames lie entirely in the first `n` bytes of their log. */
  function WholeFrames(frames: seq<Bytes>, n: nat): (k: nat)
    ensures k <= |frames|
  {
    if frames == [] || n < 8 + |frames[0]| then 0 else 1 + WholeFrames(frames[1..], n - 8 - |frames[0]|)
  }

  lemma TornBlock(x: Bytes, rest: Bytes, n: nat)
    requires |x| < U64_LIMIT && n < 8 + |x|
    ensures TakeBlock((U64(|x|) + x + rest)[..n]) == Stuck
  {
    var b := (U64(|x|) + x + rest)[..n];
    if 8 <= n {
      assert b == U64(|x|) + b[8..];
      TakeU64Of(|x|, b[8..]);
    }
  }

  /** Any prefix of a log shows exactly the frames that are complete in it. */
  lemma {:induction false} TornLog(frames: seq<Bytes>, n: nat)
    requires forall i :: 0 <= i < |frames| ==> |frames[i]| < U64_LIMIT
    requires n <= |LogBytes(frames)|
    ensures CompleteFrames(LogBytes(frames)[..n]) == frames[..WholeFrames(frames, n)]
  {
    hide TakeBlock, U64;
    if frames == [] {
      EmptyBlock();
    } else {
      var f, after := frames[0], LogBytes(frames[1..]);
      if n < 8 + |f| {
        TornBlock(f, after, n);
      } else {
        var m := n - 8 - |f|;
        assert LogBytes(frames)[..n] == U64(|f|) + f + after[..m];
        TakeBlockOf(f, after[..m]);
        TornLog(frames[1..], m);
        assert frames[..1 + WholeFrames(frames[1..], m)] == [f] + frames[1..][..WholeFrames(frames[1..], m)];
      }
    }
  }

  lemma EmptyBlock()
    ensures TakeBlock([]) == Stuck
  {
  }
}
