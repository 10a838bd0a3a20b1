/**
  Recovering a database that ran, flushed and stopped: from its checkpoint and
  any prefix of its log, the state and revision after exactly the flushes whose
  frames are complete.
 */
module CrashRecovery {
  import opened ArenaTypes
  import opened TableSpec
  import opened RowHistory
  import opened TableOps
  import opened BlobSafety
  import opened Refinement
  import opened Runs
  import opened SpanHistory
  import opened DbLifecycle
  import opened Delta
  import opened DeltaRuns
  import TouchOrder
  import opened Wire
  import opened Recovery

  // ----- between two flushes ------------------------------------------------

  predicate DbNoFlush(dops: seq<DbOp>)
  {
    forall i :: 0 <= i < |dops| ==> dops[i] != Every(FlushOp) && !(dops[i].On? && dops[i].op.FlushOp?)
  }

  /** No session is open and everything is flushed: what a checkpoint or a flush leaves. */
  ghost predicate Rests(cs: seq<Config>)
  {
    forall x :: 0 <= x < |cs| ==> cs[x].t.undo.Bottom? && cs[x].t == MarkFlushed(cs[x].t)
  }

  ghost predicate NoSessions(cs: seq<Config>)
  {
    forall x :: 0 <= x < |cs| ==> cs[x].t.undo.Bottom?
  }

  /** A run that does not flush and ends with no session open. */
  ghost predicate Stretch(scs: seq<Schema>, cs: seq<Config>, dops: seq<DbOp>)
    requires DbInv(scs, cs)
  {
    DbLegal(scs, cs, dops) && DbNoFlush(dops) && NoSessions(DbRun(scs, cs, dops))
  }

  /** The numbers a frame carries fit the widths they are written in. */
  ghost predicate FrameFits(l: Layout, views: seq<Tab>)
    requires |l.typeIds| == |l.schemas| == |views|
  {
    && Flushable(views)
    && ImageOf(views).revision <= I64_MAX
    && |FrameNow(l, views)| < U64_LIMIT
    && forall x :: 0 <= x < |views| ==>
       RecordFits(l.schemas[x].size, Pack(views[x])) && |RecordBytes(Pack(views[x]))| < U64_LIMIT
  }

  /** In table `x` the run gave some row a key that a row it first touched later held at its start. */
  ghost predicate TableClashes(scs: seq<Schema>, cs: seq<Config>, dops: seq<DbOp>, x: nat)
    requires DbInv(scs, cs) && DbLegal(scs, cs, dops) && x < |cs|
  {
    PartRuns(scs, cs, dops, x);
    TakenEarlier(scs[x], cs[x].t.rows, DbRun(scs, cs, dops)[x].t.rows, TouchLog(scs[x], cs[x], Part(dops, x)))
  }

  ghost predicate Clashes(scs: seq<Schema>, cs: seq<Config>, dops: seq<DbOp>)
    requires DbInv(scs, cs) && DbLegal(scs, cs, dops)
  {
    exists x: nat :: x < |cs| && TableClashes(scs, cs, dops, x)
  }

  lemma {:induction false} PartNoFlush(dops: seq<DbOp>, x: nat)
    requires DbNoFlush(dops)
    ensures NoFlush(Part(dops, x))
  {
    if dops != [] {
      assert DbNoFlush(dops[1..]);
      PartNoFlush(dops[1..], x);
    }
  }

  /** What one table's part of the run does to its record and its revision. */
  lemma TableStretch(scs: seq<Schema>, cs: seq<Config>, dops: seq<DbOp>, x: nat)
    requires DbInv(scs, cs) && Rests(cs) && Stretch(scs, cs, dops) && x < |cs|
    ensures var p, t := PersistedOf(cs[x].t), DbRun(scs, cs, dops)[x].t;
            && t.flushed <= |t.blobs| && cs[x].t.revision <= t.revision
            && Apply(scs[x], p, Pack(t)) ==
               if TableClashes(scs, cs, dops, x) then Err(Corrupted) else Ok(PersistedOf(t))
  {
    hide Inv, Legal, Run, Apply, Pack, TakenEarlier, DbLegal, DbRun, Lockstep, TouchOrder.IsFirsts;
    PartRuns(scs, cs, dops, x);
    PartNoFlush(dops, x);
    RunReplays(scs[x], cs[x], Part(dops, x));
    RevisionRises(scs[x], cs[x], Part(dops, x));
  }

  // ----- one frame ----------------------------------------------------------

  /** Applying a frame's sections, from table `k` on: all of them, or refused at the first that is. */
  lemma {:induction false} PartsApply(l: Layout, a: seq<Persisted>, b: seq<Persisted>, records: seq<Record>,
                                      parts: seq<Section>, bad: set<int>, k: nat)
    requires LayoutOK(l) && |a| == |b| == |records| == |parts| == |l.schemas| && k <= |a|
    requires forall x :: 0 <= x < |parts| ==> parts[x] == Section(l.typeIds[x], RecordBytes(records[x]))
    requires forall x :: 0 <= x < |records| ==>
             RecordFits(l.schemas[x].size, records[x]) && |RecordBytes(records[x])| < U64_LIMIT
    requires forall x :: 0 <= x < |records| ==>
             Apply(l.schemas[x], a[x], records[x]) == if x in bad then Err(Corrupted) else Ok(b[x])
    ensures ApplyParts(l, b[..k] + a[k..], parts[k..]) ==
            if exists x :: k <= x < |a| && x in bad then Err(Corrupted) else Ok(b)
    decreases |a| - k
  {
    hide RecordFits, RecordBytes, ParseRecord, Apply, Find, LayoutOK;
    SizesOf(l);
    if k < |a| {
      PartApplies(l, b[..k] + a[k..], parts[k..], records[k], k);
      PartsApply(l, a, b, records, parts, bad, k + 1);
      Swapped(a, b, k);
      assert parts[k..][1..] == parts[k + 1..];
    } else {
      assert b[..k] + a[k..] == b;
    }
  }

  lemma Swapped(a: seq<Persisted>, b: seq<Persisted>, k: nat)
    requires |a| == |b| && k < |a|
    ensures (b[..k] + a[k..])[k] == a[k] && (b[..k] + a[k..])[k := b[k]] == b[..k + 1] + a[k + 1..]
  {
  }

  lemma PartApplies(l: Layout, tables: seq<Persisted>, parts: seq<Section>, record: Record, k: nat)
    requires LayoutOK(l) && |tables| == |l.schemas| && parts != [] && k < |tables|
    requires |l.typeIds| == |l.schemas| && parts[0] == Section(l.typeIds[k], RecordBytes(record))
    requires RecordFits(l.schemas[k].size, record)
    ensures ApplyParts(l, tables, parts) ==
            match Apply(l.schemas[k], tables[k], record)
            case Err(e) => Err(e)
            case Ok(p) => ApplyParts(l, tables[k := p], parts[1..])
  {
    hide RecordFits, RecordBytes, ParseRecord, Apply, Find, LayoutOK;
    FindOwn(l, k);
    RecordRoundTrip(l.schemas[k].size, record);
  }

  /** A frame whose records take each table from `a` to `b`, or are refused where `bad`. */
  lemma FrameTakes(l: Layout, a: seq<Persisted>, revision: nat, b: seq<Persisted>, records: seq<Record>, bad: set<int>)
    requires LayoutOK(l) && |a| == |b| == |records| == |l.schemas| && revision <= I64_MAX
    requires forall x :: 0 <= x < |records| ==>
             RecordFits(l.schemas[x].size, records[x]) && |RecordBytes(records[x])| < U64_LIMIT
    requires forall x :: 0 <= x < |records| ==>
             Apply(l.schemas[x], a[x], records[x]) == if x in bad then Err(Corrupted) else Ok(b[x])
    ensures |l.typeIds| == |l.schemas|
    ensures ApplyFrame(l, a, FrameOf(l, revision, records)) ==
            if exists x :: 0 <= x < |a| && x in bad then Err(Corrupted) else Ok(Image(revision, b))
  {
    hide RecordFits, RecordBytes, Apply, ApplyParts, ParseSections, SectionsBytes;
    var parts := seq(|records|, i requires 0 <= i < |records| => Section(l.typeIds[i], RecordBytes(records[i])));
    SectionsRoundTrip(Sections(revision, parts));
    PartsApply(l, a, b, records, parts, bad, 0);
    assert b[..0] + a[0..] == a && parts[0..] == parts;
  }

  /**
    The frame a flush writes takes the last flushed state to the current one, unless a
    key clashes, and then it is refused.
   */
  lemma FrameApplies(l: Layout, cs: seq<Config>, dops: seq<DbOp>)
    requires LayoutOK(l) && DbInv(l.schemas, cs) && Rests(cs) && Stretch(l.schemas, cs, dops)
    requires FrameFits(l, Tabs(DbRun(l.schemas, cs, dops)))
    ensures var after := DbRun(l.schemas, cs, dops);
            ApplyFrame(l, PersistedAll(Tabs(cs)), FrameNow(l, Tabs(after))) ==
            if Clashes(l.schemas, cs, dops) then Err(Corrupted) else Ok(ImageOf(Tabs(after)))
  {
    hide DbInv, DbLegal, Rests, DbRun, RecordFits, RecordBytes, Apply, Pack, ApplyFrame, FrameOf, TableClashes,
         PersistedAll, PackAll, LayoutOK, Clashes;
    var after := DbRun(l.schemas, cs, dops);
    var views := Tabs(after);
    var records, a, b := PackAll(views), PersistedAll(Tabs(cs)), PersistedAll(views);
    Sizes(l, cs);
    var bad := set x | 0 <= x < |cs| && TableClashes(l.schemas, cs, dops, x);
    forall x: nat | x < |records|
      ensures Apply(l.schemas[x], a[x], records[x]) == if x in bad then Err(Corrupted) else Ok(b[x])
    {
      TableStretch(l.schemas, cs, dops, x);
    }
    RevisionNotNegative(l.schemas, cs, dops);
    FrameTakes(l, a, ImageOf(views).revision, b, records, bad);
    ClashSet(l.schemas, cs, dops, bad);
  }

  lemma ClashSet(scs: seq<Schema>, cs: seq<Config>, dops: seq<DbOp>, bad: set<int>)
    requires DbInv(scs, cs) && DbLegal(scs, cs, dops)
    requires bad == set x | 0 <= x < |cs| && TableClashes(scs, cs, dops, x)
    ensures Clashes(scs, cs, dops) <==> exists x :: 0 <= x < |cs| && x in bad
  {
    hide TableClashes, DbInv, DbLegal;
    if Clashes(scs, cs, dops) {
      var x: nat :| x < |cs| && TableClashes(scs, cs, dops, x);
      assert x in bad;
    }
  }

  lemma Sizes(l: Layout, cs: seq<Config>)
    requires LayoutOK(l) && DbInv(l.schemas, cs)
    ensures |l.typeIds| == |l.schemas| == |cs| < U64_LIMIT && forall x :: 0 <= x < |l.typeIds| ==> l.typeIds[x] < 65536
  {
  }

  lemma RevisionNotNegative(scs: seq<Schema>, cs: seq<Config>, dops: seq<DbOp>)
    requires DbInv(scs, cs) && DbLegal(scs, cs, dops)
    ensures 0 <= ImageOf(Tabs(DbRun(scs, cs, dops))).revision
  {
    hide Inv, DbRun, DbLegal;
    DbRunKeeps(scs, cs, dops);
    var depth: nat, revision: int :| At(Tabs(DbRun(scs, cs, dops)), depth, revision);
  }

  // ----- flush after flush --------------------------------------------------

  /** What a stretch and the flush after it leave. */
  ghost function Flushed(scs: seq<Schema>, cs: seq<Config>, dops: seq<DbOp>): (after: seq<Config>)
    requires DbInv(scs, cs) && Stretch(scs, cs, dops)
  {
    DbRunKeeps(scs, cs, dops);
    DbStep(scs, DbRun(scs, cs, dops), Every(FlushOp))
  }

  /** A flush leaves a resting database with the same contents and revision. */
  lemma FlushRests(scs: seq<Schema>, cs: seq<Config>, dops: seq<DbOp>)
    requires DbInv(scs, cs) && Stretch(scs, cs, dops)
    ensures var run, after := DbRun(scs, cs, dops), Flushed(scs, cs, dops);
            DbInv(scs, after) && Rests(after) && ImageOf(Tabs(after)) == ImageOf(Tabs(run))
  {
    hide Inv, Lockstep, DbLegal, DbRun;
    var run, after := DbRun(scs, cs, dops), Flushed(scs, cs, dops);
    DbRunKeeps(scs, cs, dops);
    StepInv(scs, run, Every(FlushOp));
    forall x | 0 <= x < |after| ensures after[x].t == MarkFlushed(run[x].t) {
    }
    assert PersistedAll(Tabs(after)) == PersistedAll(Tabs(run));
  }

  /** Stretches from a resting database, each followed by a flush whose frame fits. */
  ghost predicate Flushes(l: Layout, cs: seq<Config>, stretches: seq<seq<DbOp>>)
    requires LayoutOK(l) && DbInv(l.schemas, cs)
    decreases |stretches|
  {
    stretches == []
    || (&& Stretch(l.schemas, cs, stretches[0])
        && (SizesOf(l); FrameFits(l, Tabs(DbRun(l.schemas, cs, stretches[0]))))
        && (FlushRests(l.schemas, cs, stretches[0]); Flushes(l, Flushed(l.schemas, cs, stretches[0]), stretches[1..])))
  }

  /** The database after the first `n` stretches and their flushes. */
  ghost function AfterFlushes(l: Layout, cs: seq<Config>, stretches: seq<seq<DbOp>>, n: nat): (after: seq<Config>)
    requires LayoutOK(l) && DbInv(l.schemas, cs) && Flushes(l, cs, stretches) && n <= |stretches|
    decreases n
  {
    if n == 0 then cs
    else
      FlushRests(l.schemas, cs, stretches[0]);
      AfterFlushes(l, Flushed(l.schemas, cs, stretches[0]), stretches[1..], n - 1)
  }

  /** The frames those flushes append to the log. */
  ghost function FramesOf(l: Layout, cs: seq<Config>, stretches: seq<seq<DbOp>>): (frames: seq<Bytes>)
    requires LayoutOK(l) && DbInv(l.schemas, cs) && Flushes(l, cs, stretches)
    ensures |frames| == |stretches|
    decreases |stretches|
  {
    if stretches == [] then []
    else
      SizesOf(l);
      FlushRests(l.schemas, cs, stretches[0]);
      [FrameNow(l, Tabs(DbRun(l.schemas, cs, stretches[0])))]
          + FramesOf(l, Flushed(l.schemas, cs, stretches[0]), stretches[1..])
  }

  /** How many flushes come before the first whose stretch has a clash in some table. */
  ghost function CleanFlushes(l: Layout, cs: seq<Config>, stretches: seq<seq<DbOp>>): (k: nat)
    requires LayoutOK(l) && DbInv(l.schemas, cs) && Flushes(l, cs, stretches)
    ensures k <= |stretches|
    decreases |stretches|
  {
    if stretches == [] || Clashes(l.schemas, cs, stretches[0]) then 0
    else
      FlushRests(l.schemas, cs, stretches[0]);
      1 + CleanFlushes(l, Flushed(l.schemas, cs, stretches[0]), stretches[1..])
  }

  lemma {:induction false} FramesFitLog(l: Layout, cs: seq<Config>, stretches: seq<seq<DbOp>>)
    requires LayoutOK(l) && DbInv(l.schemas, cs) && Flushes(l, cs, stretches)
    ensures forall i :: 0 <= i < |stretches| ==> |FramesOf(l, cs, stretches)[i]| < U64_LIMIT
    decreases |stretches|
  {
    hide DbInv, LayoutOK, FrameNow, Stretch, DbRun;
    if stretches != [] {
      FlushRests(l.schemas, cs, stretches[0]);
      FramesFitLog(l, Flushed(l.schemas, cs, stretches[0]), stretches[1..]);
    }
  }

  /** Applying the first `n` frames: the contents after `n` flushes, or refused at the first clash. */
  lemma {:induction false} FramesReplay(l: Layout, cs: seq<Config>, stretches: seq<seq<DbOp>>, n: nat)
    requires LayoutOK(l) && DbInv(l.schemas, cs) && Rests(cs) && Flushes(l, cs, stretches) && n <= |stretches|
    ensures |l.schemas| == |l.typeIds| == |cs|
    ensures ApplyFrames(l, ImageOf(Tabs(cs)), FramesOf(l, cs, stretches)[..n]) ==
            if CleanFlushes(l, cs, stretches) < n then Err(Corrupted)
            else Ok(ImageOf(Tabs(AfterFlushes(l, cs, stretches, n))))
    decreases n
  {
    hide LayoutOK, Rests, Stretch, FrameFits, ApplyFrame, FrameNow, DbRun, DbInv, ImageOf, Clashes;
    Sizes(l, cs);
    ImageParts(Tabs(cs));
    if n > 0 {
      var scs, dops, frames := l.schemas, stretches[0], FramesOf(l, cs, stretches);
      var next := Flushed(scs, cs, dops);
      FlushRests(scs, cs, dops);
      ImageParts(Tabs(next));
      FrameApplies(l, cs, dops);
      FramesReplay(l, next, stretches[1..], n - 1);
      var rest := FramesOf(l, next, stretches[1..]);
      assert frames[..n][0] == frames[0] && frames[..n][1..] == rest[..n - 1];
    }
  }

  lemma ImageParts(views: seq<Tab>)
    ensures ImageOf(views).tables == PersistedAll(views) && |ImageOf(views).tables| == |views|
  {
  }

  lemma {:induction false} RevisionGrows(l: Layout, cs: seq<Config>, stretches: seq<seq<DbOp>>, n: nat)
    requires LayoutOK(l) && DbInv(l.schemas, cs) && Rests(cs) && Flushes(l, cs, stretches) && n <= |stretches|
    ensures |AfterFlushes(l, cs, stretches, n)| == |cs|
    ensures cs != [] ==> ImageOf(Tabs(cs)).revision <= ImageOf(Tabs(AfterFlushes(l, cs, stretches, n))).revision
    decreases n
  {
    hide Inv, Lockstep, LayoutOK, Stretch, FrameFits, DbRun, PersistedAll;
    if n > 0 {
      var next := Flushed(l.schemas, cs, stretches[0]);
      FlushRests(l.schemas, cs, stretches[0]);
      if cs != [] {
        TableStretch(l.schemas, cs, stretches[0], 0);
      }
      RevisionGrows(l, next, stretches[1..], n - 1);
    }
  }

  /**
    Crash recovery. A resting database is checkpointed; then it runs and flushes,
    any number of times. From the checkpoint and any prefix of the log, torn
    anywhere, recovery gives the contents and revision after exactly the flushes
    whose frames are complete, if and only if in none of those flushes a dirty
    row takes a key that a later dirty row still holds in the last flushed state;
    otherwise it refuses the log as corrupted.
   */
  lemma RecoversPrefix(l: Layout, cs: seq<Config>, stretches: seq<seq<DbOp>>, order: seq<nat>, n: nat)
    requires LayoutOK(l) && DbInv(l.schemas, cs) && Rests(cs) && Flushes(l, cs, stretches)
    requires ImageOK(l, ImageOf(Tabs(cs))) && Permutes(order, |cs|) && |order| == |cs| == |l.typeIds|
    requires n <= |LogBytes(FramesOf(l, cs, stretches))|
    ensures var start, frames := ImageOf(Tabs(cs)), FramesOf(l, cs, stretches);
            var whole := WholeFrames(frames, n);
            && whole <= |stretches| && |start.tables| == |l.schemas|
            && Load(l, CheckpointBytes(l, start, order)) == Ok(start)
            && Replay(l, start, LogBytes(frames)[..n]) ==
               if CleanFlushes(l, cs, stretches) < whole then Err(Corrupted)
               else Ok(ImageOf(Tabs(AfterFlushes(l, cs, stretches, whole))))
  {
    hide LayoutOK, DbInv, Rests, Flushes, ImageOK, FramesOf, AfterFlushes, CleanFlushes, ImageOf, CheckpointBytes, Load,
         ApplyFrames, LogBytes, CompleteFrames;
    var start, frames := ImageOf(Tabs(cs)), FramesOf(l, cs, stretches);
    Sizes(l, cs);
    ImageParts(Tabs(cs));
    CheckpointLoads(l, start, order);
    FramesFitLog(l, cs, stretches);
    TornLog(frames, n);
    var whole := WholeFrames(frames, n);
    FramesReplay(l, cs, stretches, whole);
    RevisionGrows(l, cs, stretches, whole);
    ImageParts(Tabs(AfterFlushes(l, cs, stretches, whole)));
  }

  // ----- starting again -----------------------------------------------------

  /** A table holding what was read back: no session, no free span, nothing unflushed. */
  function Restarted(p: Persisted, revision: int): Tab
  {
    MarkFlushed(EmptyTab().(nextId := p.nextId, rows := p.rows, blobs := p.blobs, revision := revision))
  }

  /** What is read back of a sound table without sessions is sound, and shows what the table showed of its rows. */
  lemma RestartsTable(sc: Schema, c: Config)
    requires Inv(sc, c) && c.t.undo.Bottom?
    ensures var again := Config(Restarted(PersistedOf(c.t), c.t.revision), multiset{});
            && Inv(sc, again) && Coherent(sc, again)
            && AbsOf(sc, again) == Abs(Copy(sc, AbsOf(sc, c).cur), Bottom, c.t.revision)
  {
    hide RowStack, Observe, Copy, Tiling, Coherent;
    var t, again := MarkFlushed(c.t), Config(Restarted(PersistedOf(c.t), c.t.revision), multiset{});
    StepRefines(sc, c, FlushOp);
    var all, rows := Spans(sc, CoreOf(t), c.held, Bottom), Spans(sc, CoreOf(again.t), multiset{}, Bottom);
    assert rows <= all;
    TilingSub(all, rows, |t.blobs|, [], |t.blobs|);
    CopyIsOwn(sc, CoreOf(c.t), c.held);
    SameOwned(sc, CoreOf(c.t), CoreOf(again.t));
    RestCoherent(sc, again);
  }

  lemma SameOwned(sc: Schema, a: Core, b: Core)
    requires a.nextId == b.nextId && a.rows == b.rows && a.blobs == b.blobs
    ensures Observe(sc, a, multiset{}) == Observe(sc, b, multiset{})
  {
  }

  ghost function RestartAll(im: Image): (cs: seq<Config>)
    ensures |cs| == |im.tables|
    ensures forall x :: 0 <= x < |cs| ==> cs[x] == Config(Restarted(im.tables[x], im.revision), multiset{})
  {
    seq(|im.tables|, x requires 0 <= x < |im.tables| => Config(Restarted(im.tables[x], im.revision), multiset{}))
  }

  /** A recovered database is sound, coherent and at rest, so it can run, flush and be recovered again. */
  lemma RestartsSound(scs: seq<Schema>, cs: seq<Config>)
    requires DbInv(scs, cs) && NoSessions(cs)
    ensures var again := RestartAll(ImageOf(Tabs(cs)));
            && DbInv(scs, again) && Rests(again) && ImageOf(Tabs(again)) == ImageOf(Tabs(cs))
            && forall x :: 0 <= x < |again| ==> Coherent(scs[x], again[x])
  {
    hide Inv, AbsOf, Copy, Coherent;
    var im := ImageOf(Tabs(cs));
    var again := RestartAll(im);
    var depth, revision :| At(Tabs(cs), depth, revision);
    forall x | 0 <= x < |cs|
      ensures Inv(scs[x], again[x]) && Coherent(scs[x], again[x]) && Tabs(cs)[x].revision == im.revision
    {
      RestartsTable(scs[x], cs[x]);
    }
    assert At(Tabs(again), 0, im.revision);
    assert PersistedAll(Tabs(again)) == PersistedAll(Tabs(cs));
  }

  /** A table that joins a running database is coherent too. */
  lemma {:induction false} JoinsCoherent(sc: Schema, depth: nat, revision: int)
    requires depth <= revision
    ensures var c := Config(Joined(depth, revision), multiset{}); Inv(sc, c) && Coherent(sc, c)
    decreases depth
  {
    hide Inv, Coherent, AbsOf, AbsStep, Follows;
    TableJoins(sc, depth, revision);
    if depth == 0 {
      RestCoherent(sc, Config(Joined(depth, revision), multiset{}));
    } else {
      JoinsCoherent(sc, depth - 1, revision - 1);
      var c := Config(Joined(depth - 1, revision - 1), multiset{});
      StepFollows(sc, c, StartOp);
      StepCoherent(sc, c, Step(sc, c, StartOp));
    }
  }

  /** In every state a database of coherent tables can reach, the spans of each table are safe. */
  lemma DbSpansSafe(scs: seq<Schema>, cs: seq<Config>, dops: seq<DbOp>, x: nat)
    requires DbInv(scs, cs) && DbLegal(scs, cs, dops) && x < |cs| && Coherent(scs[x], cs[x])
    ensures SpansSafe(scs[x], DbRun(scs, cs, dops)[x]) && Coherent(scs[x], DbRun(scs, cs, dops)[x])
  {
    hide Inv, Legal, Run, DbLegal, DbRun, Lockstep, Coherent, SpansSafe;
    PartRuns(scs, cs, dops, x);
    ReachableSpans(scs[x], cs[x], Part(dops, x));
    RunFollows(scs[x], cs[x], Part(dops, x));
  }
}
