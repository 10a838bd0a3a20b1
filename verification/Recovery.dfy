/**
  What a database's files hold and what loading and replaying them does: the
  checkpoint with a snapshot of every table, and the log of flushed frames.
 */
module Recovery {
  import opened ArenaTypes
  import opened TableSpec
  import opened RowHistory
  import opened TableOps
  import opened SessionLevels
  import opened BlobSafety
  import opened Refinement
  import opened Runs
  import opened Delta
  import opened DeltaRuns
  import opened Wire

  // ----- snapshots of one table ---------------------------------------------

  /** The rows with ids below `n`, in id order. */
  function Listing(rows: Rows, n: nat): seq<(int, Row)>
  {
    if n == 0 then []
    else Listing(rows, n - 1) + (if n - 1 in rows then [(n - 1, rows[n - 1])] else [])
  }

  function SnapshotOf(p: Persisted): Snapshot
  {
    Snapshot(p.nextId, Listing(p.rows, p.nextId), p.blobs)
  }

  function LoadItems(nextId: nat, rows: Rows, items: seq<(int, Row)>): Result<Rows, TableError>
    decreases |items|
  {
    if items == [] then Ok(rows)
    else
      var (id, row) := items[0];
      if nextId <= id || id in rows then Err(Corrupted)
      else LoadItems(nextId, rows[id := row], items[1..])
  }

  ghost function LoadSnapshot(sc: Schema, s: Snapshot): Result<Persisted, TableError>
  {
    match LoadItems(s.nextId, map[], s.items)
    case Err(e) => Err(e)
    case Ok(rows) => if KeysUnique(sc, rows) then Ok(Persisted(s.nextId, rows, s.blobs)) else Err(Corrupted)
  }

  lemma {:induction false} LoadItemsSplit(nextId: nat, rows: Rows, a: seq<(int, Row)>, b: seq<(int, Row)>)
    ensures LoadItems(nextId, rows, a + b) ==
            match LoadItems(nextId, rows, a) case Err(e) => Err(e) case Ok(mid) => LoadItems(nextId, mid, b)
    decreases |a|
  {
    if a == [] {
      assert a + b == b;
    } else {
      assert (a + b)[1..] == a[1..] + b;
      var (id, row) := a[0];
      if id < nextId && id !in rows {
        LoadItemsSplit(nextId, rows[id := row], a[1..], b);
      }
    }
  }

  lemma BelowNext(rows: Rows, id: nat)
    ensures id in rows ==> Below(rows, id + 1) == Below(rows, id)[id := rows[id]] && id !in Below(rows, id)
    ensures id !in rows ==> Below(rows, id + 1) == Below(rows, id)
  {
  }

  lemma {:induction false} LoadListing(nextId: nat, rows: Rows, n: nat)
    requires n <= nextId && Below(rows, 0) == map[]
    ensures LoadItems(nextId, map[], Listing(rows, n)) == Ok(Below(rows, n))
  {
    hide Below;
    if n > 0 {
      var id := n - 1;
      LoadListing(nextId, rows, id);
      BelowNext(rows, id);
      if id in rows {
        LoadItemsSplit(nextId, map[], Listing(rows, id), [(id, rows[id])]);
        assert LoadItems(nextId, Below(rows, id), [(id, rows[id])])
               == LoadItems(nextId, Below(rows, id)[id := rows[id]], []);
      } else {
        assert Listing(rows, n) == Listing(rows, id);
      }
    }
  }

  /** A table's snapshot loads back as the table it was taken of. */
  lemma SnapshotLoads(sc: Schema, p: Persisted)
    requires RowsOK(sc, p.nextId, p.rows)
    ensures LoadSnapshot(sc, SnapshotOf(p)) == Ok(p)
  {
    assert Below(p.rows, 0) == map[];
    LoadListing(p.nextId, p.rows, p.nextId);
    assert Below(p.rows, p.nextId) == p.rows;
  }

  // ----- the database -------------------------------------------------------

  /** The registered tables: their type ids and row types. */
  datatype Layout = Layout(typeIds: seq<nat>, schemas: seq<Schema>)

  ghost predicate LayoutOK(l: Layout)
  {
    && |l.typeIds| == |l.schemas| < U64_LIMIT
    && (forall i :: 0 <= i < |l.typeIds| ==> l.typeIds[i] < 65536)
    && (forall i, j :: 0 <= i < j < |l.typeIds| ==> l.typeIds[i] != l.typeIds[j])
  }

  function Find(typeIds: seq<nat>, typeId: nat): (r: Option<nat>)
    ensures r.Some? ==> r.value < |typeIds| && typeIds[r.value] == typeId
    ensures r.None? ==> typeId !in typeIds
  {
    if typeIds == [] then None
    else if typeIds[|typeIds| - 1] == typeId then Some(|typeIds| - 1)
    else Find(typeIds[..|typeIds| - 1], typeId)
  }

  lemma FindOwn(l: Layout, i: nat)
    requires LayoutOK(l) && i < |l.typeIds|
    ensures Find(l.typeIds, l.typeIds[i]) == Some(i)
  {
    assert l.typeIds[i] in l.typeIds;
  }

  /** What the files keep of a database. */
  datatype Image = Image(revision: int, tables: seq<Persisted>)

  ghost predicate ImageOK(l: Layout, im: Image)
  {
    && |im.tables| == |l.schemas|
    && 0 <= im.revision <= I64_MAX
    && forall i :: 0 <= i < |im.tables| ==> TableFits(l.schemas[i], im.tables[i])
  }

  ghost predicate TableFits(sc: Schema, p: Persisted)
  {
    && RowsOK(sc, p.nextId, p.rows)
    && SnapshotFits(sc.size, SnapshotOf(p)) && |SnapshotBytes(SnapshotOf(p))| < U64_LIMIT
  }

  function PersistedAll(views: seq<Tab>): (ps: seq<Persisted>)
    ensures |ps| == |views| && forall x :: 0 <= x < |views| ==> ps[x] == PersistedOf(views[x])
  {
    seq(|views|, x requires 0 <= x < |views| => PersistedOf(views[x]))
  }

  /** What the files keep of a database with these tables. */
  function ImageOf(views: seq<Tab>): Image
  {
    Image(if views == [] then 0 else views[0].revision, PersistedAll(views))
  }

  // ----- checkpoint and load ------------------------------------------------

  const EMPTY := Persisted(0, map[], [])

  /** The checkpoint file, with its sections in the given order of tables. */
  function CheckpointBytes(l: Layout, im: Image, order: seq<nat>): Bytes
    requires |l.typeIds| == |im.tables| && forall k :: 0 <= k < |order| ==> order[k] < |im.tables|
  {
    SectionsBytes(Sections(im.revision,
      seq(|order|, k requires 0 <= k < |order| =>
          Section(l.typeIds[order[k]], SnapshotBytes(SnapshotOf(im.tables[order[k]]))))))
  }

  function Blank(n: nat): (tables: seq<Persisted>)
    ensures |tables| == n && forall i :: 0 <= i < n ==> tables[i] == EMPTY
  {
    seq(n, i => EMPTY)
  }

  ghost function LoadParts(l: Layout, tables: seq<Persisted>, parts: seq<Section>): Result<seq<Persisted>, TableError>
    requires |tables| == |l.schemas| == |l.typeIds|
    decreases |parts|
  {
    if parts == [] then Ok(tables)
    else match Find(l.typeIds, parts[0].typeId)
      case None => Err(Corrupted)
      case Some(x) =>
        match ParseSnapshot(l.schemas[x].size, parts[0].body)
          case None => Err(Corrupted)
          case Some(s) =>
            match LoadSnapshot(l.schemas[x], s)
            case Err(e) => Err(e)
            case Ok(p) => LoadParts(l, tables[x := p], parts[1..])
  }

  ghost function Load(l: Layout, b: Bytes): Result<Image, TableError>
    requires |l.schemas| == |l.typeIds|
  {
    match ParseSections(b)
    case None => Err(Corrupted)
    case Some(s) =>
      match LoadParts(l, Blank(|l.schemas|), s.parts)
      case Err(e) => Err(e)
      case Ok(tables) => if s.revision < 0 && tables != [] then Err(Revision) else Ok(Image(s.revision, tables))
  }

  /** The tables once the sections in `order[..k]` are loaded. */
  ghost function Loaded(tables: seq<Persisted>, order: seq<nat>, k: nat): seq<Persisted>
    requires k <= |order|
  {
    seq(|tables|, i requires 0 <= i < |tables| => if i in order[..k] then tables[i] else EMPTY)
  }

  ghost predicate Permutes(order: seq<nat>, n: nat)
  {
    && (forall k :: 0 <= k < |order| ==> order[k] < n)
    && (forall i, j :: 0 <= i < j < |order| ==> order[i] != order[j])
    && (forall x: nat :: x < n ==> x in order)
  }

  lemma SectionLoads(l: Layout, im: Image, x: nat)
    requires LayoutOK(l) && ImageOK(l, im) && x < |im.tables|
    ensures var body := SnapshotBytes(SnapshotOf(im.tables[x]));
            && SectionFits(Section(l.typeIds[x], body))
            && Find(l.typeIds, l.typeIds[x]) == Some(x)
            && ParseSnapshot(l.schemas[x].size, body) == Some(SnapshotOf(im.tables[x]))
            && LoadSnapshot(l.schemas[x], SnapshotOf(im.tables[x])) == Ok(im.tables[x])
  {
    hide RowsOK, SnapshotFits, ParseSnapshot, SnapshotBytes;
    assert TableFits(l.schemas[x], im.tables[x]);
    FindOwn(l, x);
    SnapshotRoundTrip(l.schemas[x].size, SnapshotOf(im.tables[x]));
    SnapshotLoads(l.schemas[x], im.tables[x]);
  }

  lemma {:induction false} PartsLoad(l: Layout, im: Image, order: seq<nat>, parts: seq<Section>, k: nat)
    requires LayoutOK(l) && ImageOK(l, im) && Permutes(order, |im.tables|) && k <= |order| == |parts|
    requires forall j :: 0 <= j < |order| ==>
             parts[j] == Section(l.typeIds[order[j]], SnapshotBytes(SnapshotOf(im.tables[order[j]])))
    ensures LoadParts(l, Loaded(im.tables, order, k), parts[k..]) == Ok(im.tables)
    decreases |order| - k
  {
    hide ImageOK, LayoutOK, SnapshotBytes, SnapshotOf, ParseSnapshot, LoadSnapshot, Find;
    LayoutSizes(l, im);
    if k == |order| {
      assert order[..k] == order;
      assert Loaded(im.tables, order, k) == im.tables;
    } else {
      var x := order[k];
      SectionLoads(l, im, x);
      PartsLoad(l, im, order, parts, k + 1);
      assert order[..k + 1] == order[..k] + [x];
      assert x !in order[..k];
      assert Loaded(im.tables, order, k)[x := im.tables[x]] == Loaded(im.tables, order, k + 1);
      assert parts[k..][0] == parts[k] && parts[k..][1..] == parts[k + 1..];
    }
  }

  lemma LayoutSizes(l: Layout, im: Image)
    requires LayoutOK(l) && ImageOK(l, im)
    ensures |l.typeIds| == |l.schemas| == |im.tables| < U64_LIMIT
  {
  }

  /** Loading a checkpoint gives the database it was taken of, in whatever order its sections were written. */
  lemma CheckpointLoads(l: Layout, im: Image, order: seq<nat>)
    requires LayoutOK(l) && ImageOK(l, im) && Permutes(order, |im.tables|) && |order| == |im.tables|
    ensures Load(l, CheckpointBytes(l, im, order)) == Ok(im)
  {
    hide SnapshotBytes, SnapshotOf, LoadParts, ParseSections, SectionsBytes, TableFits;
    var parts := seq(|order|, k requires 0 <= k < |order| =>
                     Section(l.typeIds[order[k]], SnapshotBytes(SnapshotOf(im.tables[order[k]]))));
    forall k | 0 <= k < |parts| ensures SectionFits(parts[k]) {
      SectionLoads(l, im, order[k]);
    }
    SectionsRoundTrip(Sections(im.revision, parts));
    PartsLoad(l, im, order, parts, 0);
    assert Loaded(im.tables, order, 0) == Blank(|l.schemas|);
    assert parts[0..] == parts;
  }

  // ----- flush and replay ---------------------------------------------------

  /** The frame `flush_delta` appends: one record for each table, in table order. */
  function FrameOf(l: Layout, revision: int, records: seq<Record>): Bytes
    requires |l.typeIds| == |records|
  {
    SectionsBytes(Sections(revision, seq(|records|, i requires 0 <= i < |records| =>
                                         Section(l.typeIds[i], RecordBytes(records[i])))))
  }

  /** What was flushed of each arena is still there. */
  ghost predicate Flushable(views: seq<Tab>)
  {
    forall x :: 0 <= x < |views| ==> views[x].flushed <= |views[x].blobs|
  }

  /** The frame a flush of these tables writes. */
  ghost function FrameNow(l: Layout, views: seq<Tab>): Bytes
    requires |l.typeIds| == |views| && Flushable(views)
  {
    FrameOf(l, ImageOf(views).revision, PackAll(views))
  }

  ghost function PackAll(views: seq<Tab>): (records: seq<Record>)
    requires Flushable(views)
    ensures |records| == |views| && forall x :: 0 <= x < |views| ==> records[x] == Pack(views[x])
  {
    seq(|views|, x requires 0 <= x < |views| => Pack(views[x]))
  }

  ghost function ApplyParts(l: Layout, tables: seq<Persisted>, parts: seq<Section>): Result<seq<Persisted>, TableError>
    requires |tables| == |l.schemas| == |l.typeIds|
    decreases |parts|
  {
    if parts == [] then Ok(tables)
    else match Find(l.typeIds, parts[0].typeId)
      case None => Err(Corrupted)
      case Some(x) =>
        match ParseRecord(l.schemas[x].size, parts[0].body)
        case None => Err(Corrupted)
        case Some(d) =>
          match Apply(l.schemas[x], tables[x], d)
          case Err(e) => Err(e)
          case Ok(p) => ApplyParts(l, tables[x := p], parts[1..])
  }

  ghost function ApplyFrame(l: Layout, tables: seq<Persisted>, frame: Bytes): Result<Image, TableError>
    requires |tables| == |l.schemas| == |l.typeIds|
  {
    match ParseSections(frame)
    case None => Err(Corrupted)
    case Some(s) =>
      match ApplyParts(l, tables, s.parts)
      case Err(e) => Err(e)
      case Ok(after) => Ok(Image(s.revision, after))
  }

  ghost function ApplyFrames(l: Layout, im: Image, frames: seq<Bytes>): (r: Result<Image, TableError>)
    requires |im.tables| == |l.schemas| == |l.typeIds|
    decreases |frames|
  {
    if frames == [] then Ok(im)
    else match ApplyFrame(l, im.tables, frames[0])
      case Err(e) => Err(e)
      case Ok(next) => if |next.tables| == |im.tables| then ApplyFrames(l, next, frames[1..]) else Err(Corrupted)
  }

  /** Replaying a log: every complete frame, then the last frame's revision, which may not be lower. */
  ghost function Replay(l: Layout, im: Image, log: Bytes): Result<Image, TableError>
    requires |im.tables| == |l.schemas| == |l.typeIds|
  {
    match ApplyFrames(l, im, CompleteFrames(log))
    case Err(e) => Err(e)
    case Ok(after) => if after.revision < im.revision && after.tables != [] then Err(Revision) else Ok(after)
  }

  /** The revision below all open sessions never drops. */
  lemma {:induction false} RevisionRises(sc: Schema, c: Config, ops: seq<Op>)
    requires Inv(sc, c) && Legal(sc, c, ops)
    ensures var t := Run(sc, c, ops).t; c.t.revision - Depth(c.t.undo) <= t.revision - Depth(t.undo)
    decreases |ops|
  {
    hide Inv, Enabled, AbsStep, AbsOf, TabStep, HeldAfter;
    if ops != [] {
      StepRefines(sc, c, ops[0]);
      CanStepInside(sc, c, ops[0]);
      RevisionStep(sc, c.t, ops[0]);
      RevisionRises(sc, Step(sc, c, ops[0]), ops[1..]);
    }
  }

  lemma RevisionStep(sc: Schema, t: Tab, op: Op)
    requires CanStep(t, op)
    ensures var t' := TabStep(sc, t, op); t.revision - Depth(t.undo) <= t'.revision - Depth(t'.undo)
  {
    hide TabStep, CanStep;
    StepMoves(sc, t, op);
  }

  lemma SizesOf(l: Layout)
    requires LayoutOK(l)
    ensures |l.typeIds| == |l.schemas|
  {
  }
}
