/**
  The database's files: the checkpoint and the log frames it writes, and reading
  them back, each proved against the functions recovery is stated with.
 */
module DbPersistence {
  import opened ArenaTypes
  import Spec = TableSpec
  import opened TableClass
  import opened Delta
  import opened Wire
  import opened Recovery
  import opened TablePersistence
  import opened TableOps
  import opened DbLifecycle
  import opened DbClass
  import FreeList

  ghost function SchemasOf(tables: seq<Table>): (scs: seq<Schema>)
    ensures |scs| == |tables| && forall x :: 0 <= x < |tables| ==> scs[x] == tables[x].sc
  {
    seq(|tables|, x requires 0 <= x < |tables| => tables[x].sc)
  }

  ghost function LayoutOf(db: Db): Layout
    reads db
  {
    Layout(db.typeIds, SchemasOf(db.tables))
  }

  // ----- writing ------------------------------------------------------------

  lemma {:induction false} PartsBytesMore(parts: seq<Section>, s: Section)
    ensures PartsBytes(parts + [s]) == PartsBytes(parts) + SectionBytes(s)
  {
    hide SectionBytes;
    if parts == [] {
      assert parts + [s] == [s] && [s][1..] == [];
    } else {
      assert (parts + [s])[1..] == parts[1..] + [s];
      PartsBytesMore(parts[1..], s);
    }
  }

  /** The positions below `k` of the directory that hold a table, as table positions. */
  ghost predicate OrderedBelow(order: seq<nat>, typeIds: seq<nat>, k: nat)
  {
    && (forall i :: 0 <= i < |order| ==> order[i] < |typeIds| && typeIds[order[i]] < k)
    && (forall i, j :: 0 <= i < j < |order| ==> typeIds[order[i]] < typeIds[order[j]])
    && (forall x: nat :: x < |typeIds| && typeIds[x] < k ==> x in order)
  }

  lemma OrderNext(order: seq<nat>, byTypeId: seq<Option<nat>>, typeIds: seq<nat>, k: nat)
    requires Registered(byTypeId, typeIds) && OrderedBelow(order, typeIds, k) && k < |byTypeId|
    ensures byTypeId[k].Some? ==> OrderedBelow(order + [byTypeId[k].value], typeIds, k + 1)
    ensures byTypeId[k].None? ==> OrderedBelow(order, typeIds, k + 1)
  {
    if byTypeId[k].Some? {
      var more := order + [byTypeId[k].value];
      forall x: nat | x < |typeIds| && typeIds[x] < k + 1 ensures x in more {
        if typeIds[x] < k {
          assert x in order;
        } else {
          assert more[|order|] == x;
        }
      }
    }
  }

  /** The table positions sorted by type id. */
  method SortedByTypeId(byTypeId: seq<Option<nat>>, typeIds: seq<nat>) returns (order: seq<nat>)
    requires Registered(byTypeId, typeIds)
    ensures Permutes(order, |typeIds|) && |order| == |typeIds|
    ensures forall i, j :: 0 <= i < j < |order| ==> typeIds[order[i]] < typeIds[order[j]]
  {
    hide Registered, OrderedBelow;
    order := [];
    OrderStart(typeIds);
    var k := 0;
    while k < |byTypeId|
      invariant 0 <= k <= |byTypeId| && OrderedBelow(order, typeIds, k)
    {
      OrderNext(order, byTypeId, typeIds, k);
      if byTypeId[k].Some? {
        order := order + [byTypeId[k].value];
      }
      k := k + 1;
    }
    OrderEnd(order, byTypeId, typeIds);
  }

  lemma OrderStart(typeIds: seq<nat>)
    ensures OrderedBelow([], typeIds, 0)
  {
  }

  lemma OrderEnd(order: seq<nat>, byTypeId: seq<Option<nat>>, typeIds: seq<nat>)
    requires Registered(byTypeId, typeIds) && OrderedBelow(order, typeIds, |byTypeId|)
    ensures Permutes(order, |typeIds|) && |order| == |typeIds|
    ensures forall i, j :: 0 <= i < j < |order| ==> typeIds[order[i]] < typeIds[order[j]]
  {
    assert forall i, j :: 0 <= i < j < |order| ==> order[i] != order[j];
    AllOnce(order, |typeIds|);
  }

  lemma {:induction false} AllOnce(order: seq<nat>, n: nat)
    requires Permutes(order, n)
    ensures |order| == n
  {
    assert |order| > 0 ==> order[0] < n;
    if n > 0 {
      assert n - 1 in order;
      var i :| 0 <= i < |order| && order[i] == n - 1;
      var rest := order[..i] + order[i + 1..];
      forall x: nat | x < n - 1 ensures x in rest {
        assert x in order;
        var j :| 0 <= j < |order| && order[j] == x;
        assert rest[if j < i then j else j - 1] == x;
      }
      AllOnce(rest, n - 1);
    }
  }

  /** The snapshot sections of the tables in `order`. */
  ghost function SnapshotParts(typeIds: seq<nat>, ps: seq<Persisted>, order: seq<nat>): (parts: seq<Section>)
    requires |typeIds| == |ps| && forall k :: 0 <= k < |order| ==> order[k] < |ps|
    ensures |parts| == |order|
    ensures forall k :: 0 <= k < |order| ==>
            parts[k] == Section(typeIds[order[k]], SnapshotBytes(SnapshotOf(ps[order[k]])))
  {
    seq(|order|, k requires 0 <= k < |order| => Section(typeIds[order[k]], SnapshotBytes(SnapshotOf(ps[order[k]]))))
  }

  /** Writes a snapshot section for each table in `order`. */
  method WriteSnapshots(tables: seq<Table>, typeIds: seq<nat>, order: seq<nat>,
                        ghost views: seq<Tab>) returns (out: Bytes)
    requires AllHold(tables, views) && |typeIds| == |tables| && forall k :: 0 <= k < |order| ==> order[k] < |tables|
    ensures out == PartsBytes(SnapshotParts(typeIds, PersistedAll(views), order))
  {
    hide Parts, AllParts, SnapshotBytes, SnapshotOf, PersistedOf, SectionBytes, SnapshotParts, PersistedAll, PartsBytes,
         Table.Valid, Table.View;
    ghost var parts := SnapshotParts(typeIds, PersistedAll(views), order);
    out := [];
    NoParts();
    var k := 0;
    while k < |order|
      invariant 0 <= k <= |order| && out == PartsBytes(parts[..k])
    {
      var x := order[k];
      var body := Snap(tables[x], views[x]);
      PartsBytesMore(parts[..k], parts[k]);
      assert parts[..k + 1] == parts[..k] + [parts[k]];
      out := out + SectionBytes(Section(typeIds[x], body));
      k := k + 1;
    }
    assert parts[..k] == parts;
  }

  lemma NoParts()
    ensures PartsBytes([]) == []
  {
  }

  method Snap(t: Table, ghost view: Tab) returns (body: Bytes)
    requires Holds(t, view)
    ensures body == SnapshotBytes(SnapshotOf(PersistedOf(view)))
  {
    hide Table.StoreOK, Table.DirtyOK, FreeList.Ties;
    body := PackInto(t);
  }

  lemma CheckpointParts(l: Layout, im: Image, order: seq<nat>)
    requires |l.typeIds| == |im.tables| && forall k :: 0 <= k < |order| ==> order[k] < |im.tables|
    ensures CheckpointBytes(l, im, order) == I64(im.revision) + U64(|order|)
            + PartsBytes(SnapshotParts(l.typeIds, im.tables, order))
  {
    hide SnapshotBytes, SnapshotOf, PartsBytes, I64, U64;
    var parts := seq(|order|, k requires 0 <= k < |order| =>
                     Section(l.typeIds[order[k]], SnapshotBytes(SnapshotOf(im.tables[order[k]]))));
    assert parts == SnapshotParts(l.typeIds, im.tables, order);
  }

  /** The revision every table is at, 0 when there is no table. */
  method RevisionOf(db: Db) returns (revision: int)
    requires db.Valid()
    ensures revision == ImageOf(db.views).revision
  {
    hide Parts, AllParts, Separate, Registered, Lockstep, Table.Valid;
    revision := if db.tables == [] then 0 else db.tables[0].revision;
  }

  /**
    Writes a checkpoint: the revision and a snapshot of every table, sorted by
    type id. From then on the tables count as flushed.
   */
  method Checkpoint(db: Db) returns (out: Bytes, ghost order: seq<nat>)
    requires db.Valid()
    modifies db`views, AllParts(db.tables)
    ensures db.Valid() && |db.views| == |old(db.views)| == |db.typeIds|
    ensures Permutes(order, |db.views|)
    ensures forall i, j :: 0 <= i < j < |order| ==> db.typeIds[order[i]] < db.typeIds[order[j]]
    ensures out == CheckpointBytes(LayoutOf(db), ImageOf(old(db.views)), order)
    ensures forall x :: 0 <= x < |db.views| ==> db.views[x] == Spec.MarkFlushed(old(db.views)[x])
  {
    hide Parts, AllParts, Separate, Registered, Lockstep, Table.Valid, Table.View, Permutes, SnapshotParts,
         CheckpointBytes, I64, U64,
         PartsBytes, Spec.MarkFlushed;
    var sorted := SortedByTypeId(db.byTypeId, db.typeIds);
    order := sorted;
    OrderInside(order, |db.tables|);
    var revision := RevisionOf(db);
    var sections := WriteSnapshots(db.tables, db.typeIds, sorted, db.views);
    CheckpointParts(LayoutOf(db), ImageOf(db.views), order);
    out := I64(revision) + U64(|sorted|) + sections;
    db.ValidIsLoose();
    db.MarkFlushed();
  }

  lemma OrderInside(order: seq<nat>, n: nat)
    requires Permutes(order, n)
    ensures forall k :: 0 <= k < |order| ==> order[k] < n
  {
  }

  // ----- flushing -----------------------------------------------------------

  ghost function RecordParts(typeIds: seq<nat>, records: seq<Record>): (parts: seq<Section>)
    requires |typeIds| == |records|
    ensures |parts| == |records|
    ensures forall x :: 0 <= x < |parts| ==> parts[x] == Section(typeIds[x], RecordBytes(records[x]))
  {
    seq(|records|, i requires 0 <= i < |records| => Section(typeIds[i], RecordBytes(records[i])))
  }

  method DeltaOf(t: Table, ghost view: Tab) returns (body: Bytes)
    requires Holds(t, view) && view.flushed <= |view.blobs|
    ensures body == RecordBytes(Pack(view))
  {
    hide Table.StoreOK, Table.DirtyOK, FreeList.Ties, Pack, RecordBytes;
    body := PackDelta(t);
  }

  method WriteRecords(tables: seq<Table>, typeIds: seq<nat>, ghost views: seq<Tab>) returns (out: Bytes)
    requires AllHold(tables, views) && |typeIds| == |tables| && Flushable(views)
    ensures out == PartsBytes(RecordParts(typeIds, PackAll(views)))
  {
    hide Parts, AllParts, RecordBytes, Pack, SectionBytes, RecordParts, PackAll, PartsBytes, Table.Valid, Table.View;
    ghost var parts := RecordParts(typeIds, PackAll(views));
    out := [];
    NoParts();
    var x := 0;
    while x < |tables|
      invariant 0 <= x <= |tables| && out == PartsBytes(parts[..x])
    {
      var body := DeltaOf(tables[x], views[x]);
      PartsBytesMore(parts[..x], parts[x]);
      assert parts[..x + 1] == parts[..x] + [parts[x]];
      out := out + SectionBytes(Section(typeIds[x], body));
      x := x + 1;
    }
    assert parts[..x] == parts;
  }

  /** The frame of changes since the last flush, one record for each table; the tables then count as flushed. */
  method FlushDelta(db: Db) returns (frame: Bytes)
    requires db.Valid() && Flushable(db.views)
    modifies db`views, AllParts(db.tables)
    ensures db.Valid() && |db.views| == |old(db.views)| == |db.typeIds|
    ensures frame == FrameNow(LayoutOf(db), old(db.views))
    ensures forall x :: 0 <= x < |db.views| ==> db.views[x] == Spec.MarkFlushed(old(db.views)[x])
  {
    hide Parts, AllParts, Separate, Registered, Lockstep, Table.Valid, Table.View, I64, U64, PartsBytes, RecordBytes,
         PackAll, Flushable, Spec.MarkFlushed;
    var revision := RevisionOf(db);
    var sections := WriteRecords(db.tables, db.typeIds, db.views);
    frame := I64(revision) + U64(|db.tables|) + sections;
    db.ValidIsLoose();
    db.MarkFlushed();
  }

  // ----- loading ------------------------------------------------------------

  /** The directory entry of a type id is where its table is. */
  lemma DirectoryFinds(byTypeId: seq<Option<nat>>, typeIds: seq<nat>, typeId: nat)
    requires Registered(byTypeId, typeIds)
    ensures Find(typeIds, typeId) == if typeId < |byTypeId| then byTypeId[typeId] else None
  {
    match Find(typeIds, typeId)
    case None =>
    case Some(x) => assert typeIds[x] in typeIds;
  }

  /** Reads and loads `n` sections, one after the other. */
  ghost function RunLoad(l: Layout, n: nat, tables: seq<Persisted>, b: Bytes): Option<seq<Persisted>>
    requires |tables| == |l.schemas| == |l.typeIds|
    decreases n
  {
    if n == 0 then Some(tables)
    else match TakeSection(b)
      case Stuck => None
      case Got(s, b1) =>
        match Find(l.typeIds, s.typeId)
        case None => None
        case Some(x) =>
          match ReadAndLoad(l.schemas[x], s.body)
          case None => None
          case Some(p) => RunLoad(l, n - 1, tables[x := p], b1)
  }

  lemma {:induction false} RunLoadIs(l: Layout, n: nat, tables: seq<Persisted>, b: Bytes)
    requires |tables| == |l.schemas| == |l.typeIds|
    ensures RunLoad(l, n, tables, b) ==
            match TakeParts(n, b)
            case Stuck => None
            case Got(parts, _) =>
              match LoadParts(l, tables, parts)
              case Err(_) => None
              case Ok(after) => Some(after)
    decreases n
  {
    hide TakeSection, Find, ParseSnapshot, LoadSnapshot;
    if n > 0 {
      match TakeSection(b)
      case Stuck =>
      case Got(s, b1) =>
        match TakeParts(n - 1, b1) {
          case Stuck =>
          case Got(parts, _) => assert ([s] + parts)[0] == s && ([s] + parts)[1..] == parts;
        }
        match Find(l.typeIds, s.typeId)
        case None =>
        case Some(x) =>
          match ReadAndLoad(l.schemas[x], s.body)
          case None =>
          case Some(p) => RunLoadIs(l, n - 1, tables[x := p], b1);
    }
  }

  /** What loading asks of a file: no table has two sections. */
  ghost predicate Loadable(l: Layout, n: nat, b: Bytes, done: set<nat>)
    requires |l.schemas| == |l.typeIds|
    decreases n
  {
    n == 0 ||
    match TakeSection(b)
    case Stuck => true
    case Got(s, b1) =>
      match Find(l.typeIds, s.typeId)
      case None => true
      case Some(x) => x !in done && Loadable(l, n - 1, b1, done + {x})
  }

  /** Only what the files keep, and how much of it counts as flushed, changed. */
  predicate SameSessions(was: Tab, now: Tab)
  {
    now == was.(nextId := now.nextId, rows := now.rows, blobs := now.blobs, flushed := now.flushed)
  }

  method LoadOn(t: Table, body: Bytes, ghost view: Tab) returns (ok: bool, ghost now: Tab)
    requires LooselyHolds(t, view) && view.nextId == 0 && view.blobs == []
    modifies Parts(t)
    ensures var r := ReadAndLoad(t.sc, body);
            && (ok <==> r.Some?)
            && (ok ==> LooselyHolds(t, now) && PersistedOf(now) == r.value && SameSessions(view, now))
  {
    hide Table.LooseStore, Table.Valid, Table.DirtyOK, FreeList.Ties, ReadAndLoad, IdsOK;
    ok := LoadFrom(t, body);
    now := t.View();
  }

  lemma SectionRest(b: Bytes, pos: nat)
    requires pos <= |b|
    ensures var s := TakeSection(b[pos..]); s.Got? ==> |s.rest| <= |b| - pos && s.rest == b[|b| - |s.rest|..]
  {
    if TakeSection(b[pos..]).Got? {
      assert b[pos..][2..] == b[pos + 2..];
    }
  }

  /** Reads `n` sections and loads each into its table. */
  method LoadSections(tables: seq<Table>, byTypeId: seq<Option<nat>>, data: Bytes, start: nat, n: nat,
                      ghost typeIds: seq<nat>, ghost views: seq<Tab>)
    returns (ok: bool, ghost now: seq<Tab>)
    requires Separate(tables) && AllLoose(tables, views) && Registered(byTypeId, typeIds) && |typeIds| == |tables|
    requires start <= |data| && Loadable(Layout(typeIds, SchemasOf(tables)), n, data[start..], {})
    requires forall x :: 0 <= x < |views| ==> views[x].nextId == 0 && views[x].blobs == []
    modifies AllParts(tables)
    ensures var r := RunLoad(Layout(typeIds, SchemasOf(tables)), n, PersistedAll(views), data[start..]);
            && (ok <==> r.Some?)
            && (ok ==>
                AllLoose(tables, now) && PersistedAll(now) == r.value
                && forall x :: 0 <= x < |views| ==> SameSessions(views[x], now[x]))
  {
    hide Parts, AllParts, Table.Loose, Table.View, Registered, TakeSection, Find, ReadAndLoad, SameSessions, SchemasOf,
         PersistedAll, PersistedOf;
    ghost var l := Layout(typeIds, SchemasOf(tables));
    now := views;
    SameToItself(views);
    ghost var done: set<nat> := {};
    var pos, i := start, 0;
    while i < n
      invariant 0 <= i <= n && start <= pos <= |data| && Loadable(l, n - i, data[pos..], done)
      invariant AllLoose(tables, now)
      invariant forall x :: 0 <= x < |views| ==> SameSessions(views[x], now[x])
      invariant forall x :: 0 <= x < |views| && x !in done ==> now[x] == views[x]
      invariant RunLoad(l, n, PersistedAll(views), data[start..]) == RunLoad(l, n - i, PersistedAll(now), data[pos..])
    {
      SectionRest(data, pos);
      match TakeSection(data[pos..])
      case Stuck => return false, now;
      case Got(s, rest) =>
        DirectoryFinds(byTypeId, typeIds, s.typeId);
        if |byTypeId| <= s.typeId || byTypeId[s.typeId].None? {
          return false, now;
        }
        var x := byTypeId[s.typeId].value;
        ghost var view;
        ok, view := LoadOn(tables[x], s.body, now[x]);
        if !ok {
          return false, now;
        }
        assert forall y :: 0 <= y < |tables| && y != x ==> LooselyHolds(tables[y], now[y]);
        assert PersistedAll(now[x := view]) == PersistedAll(now)[x := PersistedOf(view)];
        now := now[x := view];
        done := done + {x};
        pos := |data| - |rest|;
        i := i + 1;
    }
    return true, now;
  }

  lemma SameToItself(views: seq<Tab>)
    ensures forall x :: 0 <= x < |views| ==> SameSessions(views[x], views[x])
  {
  }

  ghost predicate LoadableFile(l: Layout, data: Bytes)
    requires |l.schemas| == |l.typeIds|
  {
    match TakeI64(data)
    case Stuck => true
    case Got(_, b1) =>
      match TakeU64(b1)
      case Stuck => true
      case Got(n, b2) => Loadable(l, n, b2, {})
  }

  lemma HeaderRest(data: Bytes)
    ensures TakeI64(data).Got? ==> 8 <= |data| && TakeI64(data).rest == data[8..]
    ensures TakeI64(data).Got? && TakeU64(data[8..]).Got? ==> 16 <= |data| && TakeU64(data[8..]).rest == data[16..]
  {
  }

  /** Loading is reading the header, then the sections one by one. */
  lemma LoadIs(l: Layout, data: Bytes)
    requires |l.schemas| == |l.typeIds|
    ensures Load(l, data).Ok? <==>
            && TakeI64(data).Got? && TakeU64(data[8..]).Got?
            && RunLoad(l, TakeU64(data[8..]).value, Blank(|l.schemas|), data[16..]).Some?
            && (TakeI64(data).value < 0 ==> l.schemas == [])
    ensures Load(l, data).Ok? ==>
            Load(l, data).value == Image(TakeI64(data).value,
                                         RunLoad(l, TakeU64(data[8..]).value, Blank(|l.schemas|), data[16..]).value)
  {
    hide TakeI64, TakeU64, TakeParts, RunLoad, LoadParts;
    HeaderRest(data);
    if TakeI64(data).Got? && TakeU64(data[8..]).Got? {
      RunLoadIs(l, TakeU64(data[8..]).value, Blank(|l.schemas|), data[16..]);
      match TakeParts(TakeU64(data[8..]).value, data[16..])
      case Stuck =>
      case Got(parts, _) => LoadPartsSize(l, Blank(|l.schemas|), parts);
    }
  }

  lemma {:induction false} LoadPartsSize(l: Layout, tables: seq<Persisted>, parts: seq<Section>)
    requires |tables| == |l.schemas| == |l.typeIds|
    ensures var r := LoadParts(l, tables, parts); r.Ok? ==> |r.value| == |tables|
    decreases |parts|
  {
    hide Find, ParseSnapshot, LoadSnapshot;
    if parts != [] {
      match Find(l.typeIds, parts[0].typeId)
      case None =>
      case Some(x) =>
        match ParseSnapshot(l.schemas[x].size, parts[0].body)
        case None =>
        case Some(s) =>
          match LoadSnapshot(l.schemas[x], s)
          case Err(_) =>
          case Ok(p) => LoadPartsSize(l, tables[x := p], parts[1..]);
    }
  }

  lemma StillLocked(was: seq<Tab>, now: seq<Tab>, depth: nat, revision: int)
    requires At(was, depth, revision) && |now| == |was| && forall x :: 0 <= x < |was| ==> SameSessions(was[x], now[x])
    ensures At(now, depth, revision) && Lockstep(now)
  {
  }

  lemma NothingKept(views: seq<Tab>)
    requires forall x :: 0 <= x < |views| ==> views[x].nextId == 0 && views[x].blobs == [] && views[x].rows == map[]
    ensures PersistedAll(views) == Blank(|views|)
  {
  }

  /** After reading the files: the database stores this image, and its sessions are what they were. */
  ghost predicate Restored(was: seq<Tab>, now: seq<Tab>, im: Image)
  {
    && |now| == |was| == |im.tables|
    && forall x :: 0 <= x < |now| ==>
       PersistedOf(now[x]) == im.tables[x] && SameSessions(was[x].(revision := im.revision), now[x])
  }

  lemma RaisedTo(was: seq<Tab>, mid: seq<Tab>, now: seq<Tab>, revision: int)
    requires |now| == |mid| == |was| && forall x :: 0 <= x < |was| ==> SameSessions(was[x], mid[x])
    requires forall x :: 0 <= x < |was| ==>
             Spec.CanSetRevision(mid[x], revision) && now[x] == Spec.SetRevision(mid[x], revision)
    ensures Restored(was, now, Image(revision, PersistedAll(mid)))
  {
  }

  lemma CanRaise(views: seq<Tab>, depth: nat, current: int, revision: int)
    requires At(views, depth, current)
    ensures forall x :: 0 <= x < |views| ==> (Spec.CanSetRevision(views[x], revision) <==>
                                              depth == 0 && current <= revision)
  {
  }

  /** Loads a checkpoint into a database whose tables are registered and empty. */
  method LoadCheckpoint(db: Db, data: Bytes) returns (ok: bool)
    requires db.Loose() && At(db.views, 0, 0) && LoadableFile(LayoutOf(db), data)
    requires forall x :: 0 <= x < |db.views| ==>
             db.views[x].nextId == 0 && db.views[x].rows == map[] && db.views[x].blobs == []
    modifies db`views, AllParts(db.tables)
    ensures var r := Load(LayoutOf(db), data);
            (ok <==> r.Ok?) && (ok ==>
                                && db.Loose() && Restored(old(db.views), db.views, r.value)
                                && (db.Valid() <==> AllOwn(db.views)))
  {
    hide Parts, AllParts, Separate, Table.Loose, Table.View, Db.Valid, IdsOK, LooselyHolds, Registered, Lockstep, At,
         TakeI64, TakeU64, Loadable, RunLoad, Load,
         SameSessions, Restored, Spec.CanSetRevision, Spec.SetRevision, SchemasOf, PersistedAll, Blank;
    LoadIs(LayoutOf(db), data);
    HeaderRest(data);
    NothingKept(db.views);
    var revision := TakeI64(data);
    if revision.Stuck? {
      return false;
    }
    var count := TakeU64(data[8..]);
    if count.Stuck? {
      return false;
    }
    ghost var now;
    ok, now := LoadSections(db.tables, db.byTypeId, data, 16, count.value, db.typeIds, db.views);
    if !ok {
      return;
    }
    StillLocked(db.views, now, 0, 0);
    CanRaise(now, 0, 0, revision.value);
    db.views := now;
    ok := db.SetRevision(revision.value);
    assert now != [] ==> ok == Spec.CanSetRevision(now[0], revision.value);
    if ok {
      RaisedTo(old(db.views), now, db.views, revision.value);
    }
    db.ValidIsLoose();
  }

  // ----- replaying ----------------------------------------------------------

  /** Reads and applies `n` sections of a frame, one after the other. */
  ghost function RunFrame(l: Layout, n: nat, tables: seq<Persisted>, b: Bytes): Option<seq<Persisted>>
    requires |tables| == |l.schemas| == |l.typeIds|
    decreases n
  {
    if n == 0 then Some(tables)
    else match TakeSection(b)
      case Stuck => None
      case Got(s, b1) =>
        match Find(l.typeIds, s.typeId)
        case None => None
        case Some(x) =>
          match ReadAndApply(l.schemas[x], tables[x], s.body)
          case None => None
          case Some(p) => RunFrame(l, n - 1, tables[x := p], b1)
  }

  lemma {:induction false} RunFrameIs(l: Layout, n: nat, tables: seq<Persisted>, b: Bytes)
    requires |tables| == |l.schemas| == |l.typeIds|
    ensures RunFrame(l, n, tables, b) ==
            match TakeParts(n, b)
            case Stuck => None
            case Got(parts, _) =>
              match ApplyParts(l, tables, parts)
              case Err(_) => None
              case Ok(after) => Some(after)
    ensures RunFrame(l, n, tables, b).Some? ==> |RunFrame(l, n, tables, b).value| == |tables|
    decreases n
  {
    hide TakeSection, Find, ParseRecord, Apply;
    if n > 0 {
      match TakeSection(b)
      case Stuck =>
      case Got(s, b1) =>
        match TakeParts(n - 1, b1) {
          case Stuck =>
          case Got(parts, _) => assert ([s] + parts)[0] == s && ([s] + parts)[1..] == parts;
        }
        match Find(l.typeIds, s.typeId)
        case None =>
        case Some(x) =>
          match ReadAndApply(l.schemas[x], tables[x], s.body)
          case None =>
          case Some(p) => RunFrameIs(l, n - 1, tables[x := p], b1);
    }
  }

  lemma FrameIs(l: Layout, tables: seq<Persisted>, frame: Bytes)
    requires |tables| == |l.schemas| == |l.typeIds|
    ensures ApplyFrame(l, tables, frame).Ok? <==>
            && TakeI64(frame).Got? && TakeU64(frame[8..]).Got?
            && RunFrame(l, TakeU64(frame[8..]).value, tables, frame[16..]).Some?
    ensures ApplyFrame(l, tables, frame).Ok? ==>
            && ApplyFrame(l, tables, frame).value
               == Image(TakeI64(frame).value, RunFrame(l, TakeU64(frame[8..]).value, tables, frame[16..]).value)
            && |ApplyFrame(l, tables, frame).value.tables| == |tables|
  {
    hide TakeI64, TakeU64, TakeParts, RunFrame, ApplyParts;
    HeaderRest(frame);
    if TakeI64(frame).Got? && TakeU64(frame[8..]).Got? {
      RunFrameIs(l, TakeU64(frame[8..]).value, tables, frame[16..]);
    }
  }

  method ApplyOn(t: Table, body: Bytes, ghost view: Tab) returns (ok: bool, ghost now: Tab)
    requires LooselyHolds(t, view)
    modifies Parts(t)
    ensures var r := ReadAndApply(t.sc, PersistedOf(view), body);
            && (ok <==> r.Some?)
            && (ok ==> LooselyHolds(t, now) && PersistedOf(now) == r.value && SameSessions(view, now))
  {
    hide Table.LooseStore, Table.Valid, Table.DirtyOK, FreeList.Ties, ReadAndApply, IdsOK;
    ok := ApplyDelta(t, body);
    now := t.View();
  }

  /** Reads `n` sections and applies each to its table. */
  method ApplySections(tables: seq<Table>, byTypeId: seq<Option<nat>>, data: Bytes, start: nat, n: nat,
                       ghost typeIds: seq<nat>, ghost views: seq<Tab>)
    returns (ok: bool, ghost now: seq<Tab>)
    requires Separate(tables) && AllLoose(tables, views) && Registered(byTypeId, typeIds) && |typeIds| == |tables|
    requires start <= |data|
    modifies AllParts(tables)
    ensures var r := RunFrame(Layout(typeIds, SchemasOf(tables)), n, PersistedAll(views), data[start..]);
            && (ok <==> r.Some?)
            && (ok ==>
                AllLoose(tables, now) && PersistedAll(now) == r.value
                && forall x :: 0 <= x < |views| ==> SameSessions(views[x], now[x]))
  {
    hide Parts, AllParts, Table.Loose, Table.View, Registered, TakeSection, Find, ReadAndApply, SameSessions, SchemasOf,
         PersistedAll, PersistedOf;
    ghost var l := Layout(typeIds, SchemasOf(tables));
    now := views;
    SameToItself(views);
    var pos, i := start, 0;
    while i < n
      invariant 0 <= i <= n && start <= pos <= |data|
      invariant AllLoose(tables, now)
      invariant forall x :: 0 <= x < |views| ==> SameSessions(views[x], now[x])
      invariant RunFrame(l, n, PersistedAll(views), data[start..]) == RunFrame(l, n - i, PersistedAll(now), data[pos..])
    {
      SectionRest(data, pos);
      match TakeSection(data[pos..])
      case Stuck => return false, now;
      case Got(s, rest) =>
        DirectoryFinds(byTypeId, typeIds, s.typeId);
        if |byTypeId| <= s.typeId || byTypeId[s.typeId].None? {
          return false, now;
        }
        var x := byTypeId[s.typeId].value;
        ghost var view;
        ok, view := ApplyOn(tables[x], s.body, now[x]);
        if !ok {
          return false, now;
        }
        assert forall y :: 0 <= y < |tables| && y != x ==> LooselyHolds(tables[y], now[y]);
        assert PersistedAll(now[x := view]) == PersistedAll(now)[x := PersistedOf(view)];
        SameAgain(views[x], now[x], view);
        now := now[x := view];
        pos := |data| - |rest|;
        i := i + 1;
    }
    return true, now;
  }

  lemma SameAgain(a: Tab, b: Tab, c: Tab)
    requires SameSessions(a, b) && SameSessions(b, c)
    ensures SameSessions(a, c)
  {
  }

  /** Applies one frame; also gives back the revision it carries. */
  method ApplyOneFrame(tables: seq<Table>, byTypeId: seq<Option<nat>>, frame: Bytes, ghost typeIds: seq<nat>,
                       ghost views: seq<Tab>)
    returns (ok: bool, revision: int, ghost now: seq<Tab>)
    requires Separate(tables) && AllLoose(tables, views) && Registered(byTypeId, typeIds) && |typeIds| == |tables|
    modifies AllParts(tables)
    ensures var r := ApplyFrame(Layout(typeIds, SchemasOf(tables)), PersistedAll(views), frame);
            && (ok <==> r.Ok?)
            && (ok ==>
                && AllLoose(tables, now) && r.value == Image(revision, PersistedAll(now))
                && forall x :: 0 <= x < |views| ==> SameSessions(views[x], now[x]))
  {
    hide Parts, AllParts, Separate, Table.Loose, Table.View, Registered, TakeI64, TakeU64, RunFrame, ApplyFrame,
         SameSessions,
         SchemasOf, PersistedAll;
    FrameIs(Layout(typeIds, SchemasOf(tables)), PersistedAll(views), frame);
    HeaderRest(frame);
    revision, now := 0, views;
    var first := TakeI64(frame);
    if first.Stuck? {
      return false, revision, now;
    }
    revision := first.value;
    var count := TakeU64(frame[8..]);
    if count.Stuck? {
      return false, revision, now;
    }
    ok, now := ApplySections(tables, byTypeId, frame, 16, count.value, typeIds, views);
  }

  lemma BlockRest(b: Bytes, pos: nat)
    requires pos <= |b|
    ensures var r := TakeBlock(b[pos..]); r.Got? ==> |r.rest| < |b| - pos && r.rest == b[|b| - |r.rest|..]
  {
  }

  /** Applies every complete frame of the log, in order; stops cleanly at a torn one. */
  method ApplyLog(tables: seq<Table>, byTypeId: seq<Option<nat>>, log: Bytes, ghost typeIds: seq<nat>,
                  ghost views: seq<Tab>, ghost current: int)
    returns (ok: bool, last: Option<int>, ghost now: seq<Tab>)
    requires Separate(tables) && AllLoose(tables, views) && Registered(byTypeId, typeIds) && |typeIds| == |tables|
    modifies AllParts(tables)
    ensures var r := ApplyFrames(Layout(typeIds, SchemasOf(tables)), Image(current, PersistedAll(views)),
                                 CompleteFrames(log));
            && (ok <==> r.Ok?)
            && (ok ==> && AllLoose(tables, now) && (forall x :: 0 <= x < |views| ==> SameSessions(views[x], now[x]))
                       && r.value == Image(if last.Some? then last.value else current, PersistedAll(now))
                       && (last.None? <==> CompleteFrames(log) == []) && (last.None? ==> now == views))
  {
    hide Parts, AllParts, Separate, Table.Loose, Table.View, Registered, TakeBlock, ApplyFrame, SameSessions, SchemasOf,
         PersistedAll;
    ghost var l := Layout(typeIds, SchemasOf(tables));
    ghost var im := Image(current, PersistedAll(views));
    now, last := views, None;
    SameToItself(views);
    var pos := 0;
    assert log[0..] == log;
    while pos < |log|
      invariant 0 <= pos <= |log| && AllLoose(tables, now)
      invariant forall x :: 0 <= x < |views| ==> SameSessions(views[x], now[x])
      invariant im == Image(if last.Some? then last.value else current, PersistedAll(now))
      invariant last.None? ==> pos == 0 && now == views
      invariant last.Some? ==> CompleteFrames(log) != []
      invariant ApplyFrames(l, Image(current, PersistedAll(views)), CompleteFrames(log))
                == ApplyFrames(l, im, CompleteFrames(log[pos..]))
    {
      BlockRest(log, pos);
      match TakeBlock(log[pos..])
      case Stuck => return true, last, now;
      case Got(frame, rest) =>
        assert CompleteFrames(log[pos..])[0] == frame && CompleteFrames(log[pos..])[1..] == CompleteFrames(rest);
        var revision;
        ghost var before := now;
        ok, revision, now := ApplyOneFrame(tables, byTypeId, frame, typeIds, now);
        if !ok {
          return false, last, now;
        }
        SameThrough(views, before, now);
        last, im := Some(revision), Image(revision, PersistedAll(now));
        pos := |log| - |rest|;
    }
    NoFrames();
    assert log[pos..] == [];
    return true, last, now;
  }

  lemma NoFrames()
    ensures CompleteFrames([]) == []
  {
  }

  lemma SameThrough(a: seq<Tab>, b: seq<Tab>, c: seq<Tab>)
    requires |a| == |b| == |c|
    requires forall x :: 0 <= x < |a| ==> SameSessions(a[x], b[x])
    requires forall x :: 0 <= x < |a| ==> SameSessions(b[x], c[x])
    ensures forall x :: 0 <= x < |a| ==> SameSessions(a[x], c[x])
  {
  }

  /**
    Replays a log onto the database: every complete frame, then the revision of
    the last one. The sessions are untouched, and everything counts as flushed
    once a frame was replayed.
   */
  method ReplayLog(db: Db, log: Bytes) returns (ok: bool)
    requires db.Loose()
    modifies db`views, AllParts(db.tables)
    ensures var r := Replay(LayoutOf(db), ImageOf(old(db.views)), log);
            && (ok <==> r.Ok? && (CompleteFrames(log) == []
                                  || forall x :: 0 <= x < |old(db.views)| ==> old(db.views)[x].undo.Bottom?))
            && (ok ==> db.Loose() && PersistedAll(db.views) == r.value.tables && (db.Valid() <==> AllOwn(db.views)))
            && (ok ==> forall x :: 0 <= x < |db.views| ==>
                  db.views[x].undo == old(db.views)[x].undo && db.views[x].free == old(db.views)[x].free
                      && db.views[x].revision == r.value.revision)
            && (ok && CompleteFrames(log) != [] ==> forall x :: 0 <= x < |db.views| ==>
                db.views[x] == Spec.MarkFlushed(db.views[x]))
  {
    hide Parts, AllParts, Separate, Table.Loose, Table.View, Db.Valid, IdsOK, LooselyHolds, Registered, Lockstep, At,
         CompleteFrames, ApplyFrames,
         SameSessions, Spec.CanSetRevision, Spec.SetRevision, Spec.MarkFlushed, SchemasOf, PersistedAll;
    ghost var depth, current := SharedBy(db.views);
    CurrentIs(db.views, depth, current);
    ghost var now;
    var last;
    ok, last, now := ApplyLog(db.tables, db.byTypeId, log, db.typeIds, db.views, ImageOf(db.views).revision);
    if !ok {
      return;
    }
    StillLocked(db.views, now, depth, current);
    SessionsKept(db.views, now);
    db.views := now;
    CurrentIs(now, depth, current);
    if last.Some? {
      db.MarkFlushed();
      FlushedLocked(now, db.views, depth, current);
      ghost var mid := db.views;
      CanRaise(mid, depth, current, last.value);
      ok := db.SetRevision(last.value);
      assert mid != [] ==> ok == Spec.CanSetRevision(mid[0], last.value);
      if ok {
        AfterReplay(now, mid, db.views, last.value);
      }
    }
    db.ValidIsLoose();
  }

  lemma SessionsKept(was: seq<Tab>, now: seq<Tab>)
    requires |now| == |was| && forall x :: 0 <= x < |was| ==> SameSessions(was[x], now[x])
    ensures forall x :: 0 <= x < |was| ==> now[x].undo == was[x].undo && now[x].free == was[x].free
  {
  }

  lemma CurrentIs(views: seq<Tab>, depth: nat, revision: int)
    requires At(views, depth, revision) && (views == [] ==> depth == 0 && revision == 0)
    ensures ImageOf(views).revision == revision
    ensures forall x :: 0 <= x < |views| ==> views[x].revision == revision && (views[x].undo.Bottom? <==> depth == 0)
  {
  }

  lemma FlushedLocked(was: seq<Tab>, now: seq<Tab>, depth: nat, revision: int)
    requires At(was, depth, revision) && |now| == |was|
    requires forall x :: 0 <= x < |was| ==> now[x] == Spec.MarkFlushed(was[x])
    ensures At(now, depth, revision) && PersistedAll(now) == PersistedAll(was)
  {
  }

  lemma AfterReplay(was: seq<Tab>, mid: seq<Tab>, now: seq<Tab>, revision: int)
    requires |now| == |mid| == |was| && forall x :: 0 <= x < |was| ==> mid[x] == Spec.MarkFlushed(was[x])
    requires forall x :: 0 <= x < |was| ==>
             Spec.CanSetRevision(mid[x], revision) && now[x] == Spec.SetRevision(mid[x], revision)
    ensures PersistedAll(now) == PersistedAll(mid)
    ensures forall x :: 0 <= x < |now| ==>
            && now[x].undo == was[x].undo && now[x].free == was[x].free
            && now[x].revision == revision && now[x] == Spec.MarkFlushed(now[x])
  {
  }
}
