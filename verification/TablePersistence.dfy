/** Writing a table to bytes and reading it back, with a cursor over the bytes. */
module TablePersistence {
  import opened ArenaTypes
  import opened TableSpec
  import opened RowHistory
  import opened PagedPrimary
  import opened KeyIndex
  import opened TableClass
  import opened Delta
  import opened Wire
  import opened Recovery

  // ----- packing a delta ----------------------------------------------------

  lemma {:induction false} EntriesBytesSnoc(entries: seq<Entry>, e: Entry)
    ensures EntriesBytes(entries + [e]) == EntriesBytes(entries) + EntryBytes(e)
  {
    if entries == [] {
      assert (entries + [e])[1..] == [];
    } else {
      assert (entries + [e])[1..] == entries[1..] + [e];
      EntriesBytesSnoc(entries[1..], e);
    }
  }

  lemma {:induction false} PatchesBytesSnoc(patches: seq<Patch>, p: Patch)
    ensures PatchesBytes(patches + [p]) == PatchesBytes(patches) + PatchBytes(p)
  {
    if patches == [] {
      assert (patches + [p])[1..] == [];
    } else {
      assert (patches + [p])[1..] == patches[1..] + [p];
      PatchesBytesSnoc(patches[1..], p);
    }
  }

  /** The last patch of each flushed offset, found walking backwards. */
  method LatestOf(patches: seq<BlobRef>, flushed: nat) returns (latest: seq<BlobRef>)
    ensures latest == LatestPatches(patches, flushed, {})
  {
    hide LatestPatches;
    latest := [];
    var seen: set<nat> := {};
    var i := |patches|;
    assert patches[..i] == patches;
    while i > 0
      invariant 0 <= i <= |patches|
      invariant LatestPatches(patches, flushed, {}) == latest + LatestPatches(patches[..i], flushed, seen)
    {
      i := i - 1;
      var r := patches[i];
      LatestLast(patches, i, flushed, seen);
      if r.off < flushed && r.off !in seen {
        seen := seen + {r.off};
        latest := latest + [r];
      }
    }
    LatestNone(patches, flushed, seen);
  }

  lemma LatestLast(patches: seq<BlobRef>, i: nat, flushed: nat, seen: set<nat>)
    requires i < |patches|
    ensures var r := patches[i];
            LatestPatches(patches[..i + 1], flushed, seen) ==
            if r.off < flushed && r.off !in seen then [r] + LatestPatches(patches[..i], flushed, seen + {r.off})
            else LatestPatches(patches[..i], flushed, seen)
  {
    assert patches[..i + 1][..i] == patches[..i];
  }

  lemma LatestNone(patches: seq<BlobRef>, flushed: nat, seen: set<nat>)
    ensures LatestPatches(patches[..0], flushed, seen) == []
  {
  }

  method PackEntries(t: Table) returns (out: Bytes)
    requires t.Valid() && t.flushed <= |t.blobs|
    ensures out == EntriesBytes(Pack(t.View()).entries)
  {
    hide EntriesBytes, EntryBytes;
    ghost var entries := Pack(t.View()).entries;
    out := [];
    NoBytes();
    var i := 0;
    while i < |t.dirty|
      invariant 0 <= i <= |t.dirty| && out == EntriesBytes(entries[..i])
    {
      var found := t.primary.Get(t.dirty[i]);
      assert entries[i] == Entry(t.dirty[i], found);
      EntriesBytesSnoc(entries[..i], entries[i]);
      assert entries[..i + 1] == entries[..i] + [entries[i]];
      out := out + EntryBytes(Entry(t.dirty[i], found));
      i := i + 1;
    }
    assert entries[..i] == entries;
  }

  lemma NoBytes()
    ensures EntriesBytes([]) == [] && PatchesBytes([]) == [] && ItemsBytes([]) == []
  {
  }

  method PackPatches(t: Table) returns (n: nat, out: Bytes)
    requires t.flushed <= |t.blobs|
    ensures n == |Pack(t.View()).patches| && out == PatchesBytes(Pack(t.View()).patches)
  {
    hide PatchesBytes, PatchBytes;
    var latest := LatestOf(t.patches, t.flushed);
    ghost var patches := Pack(t.View()).patches;
    out := [];
    NoBytes();
    n := 0;
    while n < |latest|
      invariant 0 <= n <= |latest| && out == PatchesBytes(patches[..n])
    {
      var r := latest[n];
      var p := Patch(r.off, Read(t.blobs, r));
      assert patches[n] == p;
      PatchesBytesSnoc(patches[..n], p);
      assert patches[..n + 1] == patches[..n] + [p];
      out := out + PatchBytes(p);
      n := n + 1;
    }
    assert patches[..n] == patches;
  }

  /** The delta record: the rows touched since the last flush, the patched spans and the new tail. */
  method PackDelta(t: Table) returns (out: Bytes)
    requires t.Valid() && t.flushed <= |t.blobs|
    ensures out == RecordBytes(Pack(t.View()))
  {
    var entries := PackEntries(t);
    var n, patches := PackPatches(t);
    var tail := t.blobs[t.flushed..];
    out := U64(t.primary.len) + U64(|t.dirty|) + entries + U64(n) + patches + U64(|tail|) + tail;
  }

  // ----- replaying a delta --------------------------------------------------

  /** Parses and applies `n` entries, one after the other. */
  ghost function RunEntries(sc: Schema, next: nat, n: nat, rows: Rows, b: Bytes): Option<(Rows, Bytes)>
    decreases n
  {
    if n == 0 then Some((rows, b))
    else match TakeEntry(sc.size, b)
      case Stuck => None
      case Got(e, b1) =>
        match e.row
        case None => RunEntries(sc, next, n - 1, rows - {e.id}, b1)
        case Some(row) =>
          if next <= e.id || KeyHeld(sc, rows - {e.id}, row) then None
          else RunEntries(sc, next, n - 1, rows[e.id := row], b1)
  }

  lemma {:induction false} RunEntriesIs(sc: Schema, next: nat, n: nat, rows: Rows, b: Bytes)
    ensures RunEntries(sc, next, n, rows, b) ==
            match TakeEntries(sc.size, n, b)
            case Stuck => None
            case Got(es, rest) =>
              match ApplyEntries(sc, next, rows, es)
              case Err(_) => None
              case Ok(after) => Some((after, rest))
    decreases n
  {
    hide TakeEntry, KeyHeld;
    if n > 0 {
      match TakeEntry(sc.size, b)
      case Stuck =>
      case Got(e, b1) =>
        match TakeEntries(sc.size, n - 1, b1) {
          case Stuck =>
          case Got(es, _) => assert ([e] + es)[0] == e && ([e] + es)[1..] == es;
        }
        match e.row
        case None => RunEntriesIs(sc, next, n - 1, rows - {e.id}, b1);
        case Some(row) => RunEntriesIs(sc, next, n - 1, rows[e.id := row], b1);
    }
  }

  function RunPatches(n: nat, blobs: Bytes, b: Bytes): Option<(Bytes, Bytes)>
    decreases n
  {
    if n == 0 then Some((blobs, b))
    else match TakePatch(b)
      case Stuck => None
      case Got(p, b1) =>
        if |blobs| < p.off + |p.bytes| then None
        else RunPatches(n - 1, Write(blobs, p.off, p.bytes), b1)
  }

  lemma {:induction false} RunPatchesIs(n: nat, blobs: Bytes, b: Bytes)
    ensures RunPatches(n, blobs, b) ==
            match TakePatches(n, b)
            case Stuck => None
            case Got(ps, rest) =>
              match ApplyPatches(blobs, ps)
              case Err(_) => None
              case Ok(after) => Some((after, rest))
    decreases n
  {
    hide TakePatch, Write;
    if n > 0 {
      match TakePatch(b)
      case Stuck =>
      case Got(p, b1) =>
        match TakePatches(n - 1, b1) {
          case Stuck =>
          case Got(ps, _) => assert ([p] + ps)[0] == p && ([p] + ps)[1..] == ps;
        }
        if p.off + |p.bytes| <= |blobs| {
          RunPatchesIs(n - 1, Write(blobs, p.off, p.bytes), b1);
        }
    }
  }

  /** What reading a record and applying it comes to. */
  ghost function ReadAndApply(sc: Schema, p: Persisted, b: Bytes): Option<Persisted>
  {
    match ParseRecord(sc.size, b)
    case None => None
    case Some(d) =>
      match Apply(sc, p, d)
      case Err(_) => None
      case Ok(after) => Some(after)
  }

  /** The same, reading and applying piece by piece. */
  ghost function RunRecord(sc: Schema, p: Persisted, b: Bytes): Option<Persisted>
  {
    match TakeU64(b)
    case Stuck => None
    case Got(nextId, b1) =>
      var next := if p.nextId < nextId then nextId else p.nextId;
      match TakeU64(b1)
      case Stuck => None
      case Got(n, b2) =>
        match RunEntries(sc, next, n, p.rows, b2)
        case None => None
        case Some((rows, b3)) =>
          match TakeU64(b3)
          case Stuck => None
          case Got(m, b4) =>
            match RunPatches(m, p.blobs, b4)
            case None => None
            case Some((blobs, b5)) =>
              match TakeBlock(b5)
              case Stuck => None
              case Got(tail, b6) => if b6 == [] then Some(Persisted(next, rows, blobs + tail)) else None
  }

  lemma RunRecordIs(sc: Schema, p: Persisted, b: Bytes)
    ensures RunRecord(sc, p, b) == ReadAndApply(sc, p, b)
  {
    hide TakeU64, RunEntries, RunPatches, TakeEntries, TakePatches, TakeBlock, ApplyEntries, ApplyPatches;
    match TakeU64(b)
    case Stuck =>
    case Got(nextId, b1) =>
      var next := if p.nextId < nextId then nextId else p.nextId;
      match TakeU64(b1)
      case Stuck =>
      case Got(n, b2) =>
        RunEntriesIs(sc, next, n, p.rows, b2);
        match TakeEntries(sc.size, n, b2)
        case Stuck =>
        case Got(_, b3) =>
          match TakeU64(b3)
          case Stuck =>
          case Got(m, b4) => RunPatchesIs(m, p.blobs, b4);
  }

  /** Gives a row its keys in every index, stopping at the first that is taken. */
  method InsertEach(t: Table, id: int, row: Row, ghost rows: Rows) returns (ok: bool)
    requires t.Shape() && t.LooselyIndexed(rows) && id !in rows
    modifies t.indices
    ensures ok <==> !KeyHeld(t.sc, rows, row)
    ensures ok ==> t.LooselyIndexed(rows[id := row])
  {
    hide Filed, HasKey, KeyHeld;
    HeldInSome(t.sc, rows, row);
    var i := 0;
    while i < |t.indices|
      invariant 0 <= i <= |t.indices|
      invariant forall j: nat :: j < i ==> !HasKey(t.sc.keys[j], rows, t.sc.keys[j](row))
      invariant forall j :: 0 <= j < i ==> Filed(t.indices[j].entries, t.sc.keys[j], rows[id := row])
      invariant forall j :: i <= j < |t.indices| ==> Filed(t.indices[j].entries, t.sc.keys[j], rows)
    {
      FiledKeys(t.indices[i].entries, t.sc.keys[i], rows, t.sc.keys[i](row));
      if t.sc.keys[i](row) !in t.indices[i].entries {
        FiledInsert(t.indices[i].entries, t.sc.keys[i], rows, id, row);
      }
      var inserted := t.indices[i].TryInsert(row);
      if !inserted {
        return false;
      }
      i := i + 1;
    }
    return true;
  }

  lemma HeldInSome(sc: Schema, rows: Rows, row: Row)
    ensures KeyHeld(sc, rows, row) <==> exists x: nat :: x < |sc.keys| && HasKey(sc.keys[x], rows, sc.keys[x](row))
  {
    if KeyHeld(sc, rows, row) {
      var x: nat, id :| x < |sc.keys| && id in rows && sc.keys[x](rows[id]) == sc.keys[x](row);
      assert HasKey(sc.keys[x], rows, sc.keys[x](row));
    }
  }

  /** Takes a row's keys out of every index. */
  method EraseEach(t: Table, id: int, row: Row, ghost rows: Rows)
    requires t.Shape() && t.LooselyIndexed(rows) && id in rows && rows[id] == row
    modifies t.indices
    ensures t.LooselyIndexed(rows - {id})
  {
    hide Filed;
    var i := 0;
    while i < |t.indices|
      invariant 0 <= i <= |t.indices|
      invariant forall j :: 0 <= j < i ==> Filed(t.indices[j].entries, t.sc.keys[j], rows - {id})
      invariant forall j :: i <= j < |t.indices| ==> Filed(t.indices[j].entries, t.sc.keys[j], rows)
    {
      FiledErase(t.indices[i].entries, t.sc.keys[i], rows, id);
      t.indices[i].Erase(row);
      i := i + 1;
    }
  }

  /** Takes the row under `id` out of store and indices, if there is one. */
  method TakeAway(t: Table, id: int)
    requires t.LooseStore() && 0 <= id
    modifies t`rowCount, t.primary, t.indices
    ensures t.LooseStore() && t.primary.len == old(t.primary.len) && t.primary.rows == old(t.primary.rows) - {id}
  {
    hide MapOf, AllPagesOK, NothingFrom, Table.LooselyIndexed, Table.Shape;
    ghost var rows := t.primary.rows;
    CountUpdate(rows, id, Row(0, []));
    var taken := t.primary.Take(id);
    if taken.Some? {
      EraseEach(t, id, taken.value, rows);
      t.rowCount := t.rowCount - 1;
    } else {
      assert rows - {id} == rows;
    }
  }

  /** Stores a row the indices already know. */
  method StoreRow(t: Table, id: int, row: Row)
    requires t.LoosePrimary() && 0 <= id < t.primary.len && id !in t.primary.rows
    requires t.LooselyIndexed(t.primary.rows[id := row])
    modifies t`rowCount, t.primary
    ensures t.LooseStore() && t.primary.len == old(t.primary.len) && t.primary.rows == old(t.primary.rows)[id := row]
  {
    hide MapOf, AllPagesOK, NothingFrom, Table.LooselyIndexed, Table.Shape;
    CountUpdate(t.primary.rows, id, row);
    var wasAbsent := t.primary.Insert(id, row);
    t.rowCount := t.rowCount + 1;
  }

  lemma PutAgain(rows: Rows, id: int, row: Row)
    ensures (rows - {id})[id := row] == rows[id := row]
  {
  }

  lemma StoreParts(t: Table)
    requires t.LooseStore()
    ensures t.Shape() && t.LoosePrimary() && t.LooselyIndexed(t.primary.rows)
  {
  }

  /** Replays one entry: drops what the id held, then stores what the entry carries. */
  method ApplyEntry(t: Table, e: Entry) returns (ok: bool)
    requires t.LooseStore() && 0 <= e.id
    modifies t`rowCount, t.primary, t.indices
    ensures ok <==> e.row.None? || (e.id < t.primary.len && !KeyHeld(t.sc, old(t.primary.rows) - {e.id}, e.row.value))
    ensures t.primary.len == old(t.primary.len)
    ensures ok ==>
            t.LooseStore() && t.primary.rows ==
              if e.row.None? then old(t.primary.rows) - {e.id} else old(t.primary.rows)[e.id := e.row.value]
  {
    hide KeyHeld, Table.LooseStore, Table.LoosePrimary, Table.LooselyIndexed, Table.Shape;
    ghost var was := t.primary.rows;
    TakeAway(t, e.id);
    if e.row.None? {
      return true;
    }
    var row := e.row.value;
    if t.primary.len <= e.id {
      return false;
    }
    StoreParts(t);
    PutAgain(was, e.id, row);
    ok := InsertEach(t, e.id, row, t.primary.rows);
    if ok {
      StoreRow(t, e.id, row);
    }
  }

  method ApplyDeltaRows(t: Table, b: Bytes, start: nat, n: nat) returns (ok: bool, pos: nat)
    requires t.LooseStore() && start <= |b|
    modifies t`rowCount, t.primary, t.indices
    ensures var r := RunEntries(t.sc, old(t.primary.len), n, old(t.primary.rows), b[start..]);
            && (ok <==> r.Some?)
            && (ok ==>
                && t.LooseStore() && start <= pos <= |b| && r.value == (t.primary.rows, b[pos..])
                && t.primary.len == old(t.primary.len))
  {
    hide TakeEntry, KeyHeld, Table.LooseStore;
    pos := start;
    var i := 0;
    while i < n
      invariant 0 <= i <= n && start <= pos <= |b|
      invariant t.LooseStore() && t.primary.len == old(t.primary.len)
      invariant RunEntries(t.sc, old(t.primary.len), n, old(t.primary.rows), b[start..]) ==
                RunEntries(t.sc, old(t.primary.len), n - i, t.primary.rows, b[pos..])
    {
      EntryRest(t.sc.size, b, pos);
      match TakeEntry(t.sc.size, b[pos..])
      case Stuck => return false, pos;
      case Got(e, rest) =>
        var applied := ApplyEntry(t, e);
        if !applied {
          return false, pos;
        }
        pos := |b| - |rest|;
        i := i + 1;
    }
    return true, pos;
  }

  /** Reading an entry moves the cursor forward inside the bytes. */
  lemma EntryRest(size: nat, b: Bytes, pos: nat)
    requires pos <= |b|
    ensures var e := TakeEntry(size, b[pos..]);
            e.Got? ==> 0 <= e.value.id && |e.rest| <= |b| - pos && e.rest == b[|b| - |e.rest|..]
  {
    var e := TakeEntry(size, b[pos..]);
    if e.Got? {
      RowRest(size, b[pos..][8..][1..]);
      assert b[pos..][8..][1..] == b[pos + 9..];
    }
  }

  lemma RowRest(size: nat, b: Bytes)
    ensures var r := TakeRow(size, b); r.Got? ==> |r.rest| <= |b| && r.rest == b[|b| - |r.rest|..]
  {
    if TakeRow(size, b).Got? {
      assert b[8..][size..] == b[8 + size..];
    }
  }

  lemma PatchRest(b: Bytes, pos: nat)
    requires pos <= |b|
    ensures var p := TakePatch(b[pos..]); p.Got? ==> |p.rest| <= |b| - pos && p.rest == b[|b| - |p.rest|..]
  {
    var p := TakePatch(b[pos..]);
    if p.Got? {
      var len := FromLE(b[pos..][8..][..8]);
      assert b[pos..][8..][8..][len..] == b[pos + 16 + len..];
    }
  }

  method ApplyDeltaPatches(t: Table, b: Bytes, start: nat, n: nat) returns (ok: bool, pos: nat)
    requires start <= |b|
    modifies t`blobs
    ensures var r := RunPatches(n, old(t.blobs), b[start..]);
            && (ok <==> r.Some?)
            && (ok ==> start <= pos <= |b| && r.value == (t.blobs, b[pos..]))
  {
    hide TakePatch, Write;
    pos := start;
    var i := 0;
    while i < n
      invariant 0 <= i <= n && start <= pos <= |b|
      invariant RunPatches(n, old(t.blobs), b[start..]) == RunPatches(n - i, t.blobs, b[pos..])
    {
      PatchRest(b, pos);
      match TakePatch(b[pos..])
      case Stuck => return false, pos;
      case Got(p, rest) =>
        if |t.blobs| < p.off + |p.bytes| {
          return false, pos;
        }
        t.blobs := Write(t.blobs, p.off, p.bytes);
        pos := |b| - |rest|;
        i := i + 1;
    }
    return true, pos;
  }

  /** Raises the next id; no row changes. */
  method Grow(t: Table, next: nat)
    requires t.LooseStore()
    modifies t.primary
    ensures t.LooseStore() && t.primary.rows == old(t.primary.rows)
    ensures t.primary.len == if old(t.primary.len) < next then next else old(t.primary.len)
  {
    hide MapOf, AllPagesOK, NothingFrom, Table.LooselyIndexed, Table.Shape;
    if t.primary.len < next {
      AllBelow(t.primary, next);
      t.primary.SetLen(next);
    }
  }

  lemma AllBelow(p: Primary, next: nat)
    requires p.Valid() && p.len <= next
    ensures (map id | id in p.rows && id < next :: p.rows[id]) == p.rows
  {
  }

  /**
    Replays a delta record onto the table. The table is sound afterwards exactly
    when every row is filed under the id it carries, which is not looked at. On a
    refusal the table is not to be used any more.
   */
  method ApplyDelta(t: Table, b: Bytes) returns (ok: bool)
    requires t.Loose()
    modifies t`rowCount, t`blobs, t`flushed, t.primary, t.indices
    ensures var r := ReadAndApply(t.sc, PersistedOf(old(t.View())), b);
            && (ok <==> r.Some?)
            && (ok ==> t.Loose() && (t.Valid() <==> IdsOK(r.value.rows))
                       && t.View() == old(t.View()).(nextId := r.value.nextId, rows := r.value.rows,
                                                     blobs := r.value.blobs, flushed := |r.value.blobs|))
  {
    hide TakeU64, RunEntries, RunPatches, TakeBlock, ReadAndApply, Table.LooseStore, Table.Valid, Table.DirtyOK,
         FreeList.Ties, ToStack, IdsOK;
    RunRecordIs(t.sc, PersistedOf(t.View()), b);
    U64Rest(b, 0);
    assert b[0..] == b;
    var first := TakeU64(b);
    if first.Stuck? {
      return false;
    }
    Grow(t, first.value);
    U64Rest(b, 8);
    var count := TakeU64(b[8..]);
    if count.Stuck? {
      return false;
    }
    var pos;
    ok, pos := ApplyDeltaRows(t, b, 16, count.value);
    if !ok {
      return false;
    }
    U64Rest(b, pos);
    var patchCount := TakeU64(b[pos..]);
    if patchCount.Stuck? {
      return false;
    }
    ok, pos := ApplyDeltaPatches(t, b, pos + 8, patchCount.value);
    if !ok {
      return false;
    }
    var tail := TakeBlock(b[pos..]);
    if tail.Stuck? || tail.rest != [] {
      return false;
    }
    t.blobs := t.blobs + tail.value;
    t.flushed := |t.blobs|;
    t.ValidIsLoose();
    return true;
  }

  lemma U64Rest(b: Bytes, pos: nat)
    requires pos <= |b|
    ensures TakeU64(b[pos..]).Got? ==> pos + 8 <= |b| && TakeU64(b[pos..]).rest == b[pos + 8..]
  {
    if pos + 8 <= |b| {
      assert b[pos..][8..] == b[pos + 8..];
    }
  }

  // ----- snapshots ----------------------------------------------------------

  lemma {:induction false} ItemsBytesSnoc(items: seq<(int, Row)>, item: (int, Row))
    ensures ItemsBytes(items + [item]) == ItemsBytes(items) + ItemBytes(item)
  {
    if items == [] {
      assert (items + [item])[1..] == [];
    } else {
      assert (items + [item])[1..] == items[1..] + [item];
      ItemsBytesSnoc(items[1..], item);
    }
  }

  /** A list of the rows of `m` in id order is the listing. */
  lemma {:induction false} EnumerationIsListing(items: seq<(int, Row)>, m: Rows, n: nat)
    requires Enumerates(items, m, n) && Below(m, 0) == map[]
    ensures items == Listing(m, n) && |items| == |Below(m, n)|
    decreases n
  {
    hide Enumerates, Below;
    if n == 0 {
      NoItems(items, m);
    } else if n - 1 in m {
      LastItem(items, m, n);
      var init := items[..|items| - 1];
      EnumerationIsListing(init, m, n - 1);
      assert items == init + [items[|items| - 1]];
      BelowNext(m, n - 1);
      CountUpdate(Below(m, n - 1), n - 1, m[n - 1]);
    } else {
      BelowNext(m, n - 1);
      SameItems(items, m, n);
      EnumerationIsListing(items, m, n - 1);
    }
  }

  lemma FirstItem(items: seq<(int, Row)>, m: Rows, n: nat)
    requires Enumerates(items, m, n) && items != []
    ensures items[0].0 in Below(m, n)
  {
  }

  lemma NoItems(items: seq<(int, Row)>, m: Rows)
    requires Enumerates(items, m, 0) && Below(m, 0) == map[]
    ensures items == []
  {
    if items != [] {
      FirstItem(items, m, 0);
      assert false;
    }
  }

  lemma SameItems(items: seq<(int, Row)>, m: Rows, n: nat)
    requires Enumerates(items, m, n) && n > 0 && n - 1 !in m
    ensures Enumerates(items, m, n - 1)
  {
  }

  lemma LastItem(items: seq<(int, Row)>, m: Rows, n: nat)
    requires Enumerates(items, m, n) && n > 0 && n - 1 in m
    ensures items != [] && items[|items| - 1] == (n - 1, m[n - 1])
    ensures Enumerates(items[..|items| - 1], m, n - 1)
  {
    var last := |items| - 1;
    var i :| 0 <= i < |items| && items[i].0 == n - 1;
    assert items[i].0 <= items[last].0 < n;
    var init := items[..last];
    forall j | 0 <= j < |init| ensures init[j].0 < n - 1 {
      assert items[j].0 < items[last].0;
    }
    forall id | id in m && id < n - 1 ensures exists j :: 0 <= j < |init| && init[j].0 == id {
      var j :| 0 <= j < |items| && items[j].0 == id;
      assert j < last && init[j].0 == id;
    }
  }

  /** The snapshot of a table: its next id, its rows in id order, and its arena. */
  method PackInto(t: Table) returns (out: Bytes)
    requires t.Valid()
    ensures out == SnapshotBytes(SnapshotOf(PersistedOf(t.View())))
  {
    hide ItemBytes, ItemsBytes, Listing, Enumerates, MapOf, AllPagesOK, NothingFrom, IdsOK, Table.Indexed, Table.Shape,
         Table.DirtyOK, FreeList.Ties;
    var items := t.primary.List();
    RowsListed(t, items);
    out := U64(t.primary.len) + U64(t.rowCount);
    ghost var head := out;
    NoBytes();
    var i := 0;
    while i < |items|
      invariant 0 <= i <= |items| && out == head + ItemsBytes(items[..i])
    {
      ItemsBytesSnoc(items[..i], items[i]);
      assert items[..i + 1] == items[..i] + [items[i]];
      out := out + ItemBytes(items[i]);
      i := i + 1;
    }
    assert items[..i] == items;
    out := out + U64(|t.blobs|) + t.blobs;
  }

  lemma RowsListed(t: Table, items: seq<(int, Row)>)
    requires t.Valid() && Enumerates(items, t.primary.rows, t.primary.len)
    ensures items == Listing(t.primary.rows, t.primary.len) && |items| == t.rowCount
  {
    RowsBelow(t.primary);
    EnumerationIsListing(items, t.primary.rows, t.primary.len);
  }

  lemma RowsBelow(p: Primary)
    requires p.Valid()
    ensures Below(p.rows, 0) == map[] && Below(p.rows, p.len) == p.rows
  {
  }

  // ----- loading a snapshot -------------------------------------------------

  /** Reads and stores `n` items, one after the other. */
  function RunItems(size: nat, next: nat, n: nat, rows: Rows, b: Bytes): Option<(Rows, Bytes)>
    decreases n
  {
    if n == 0 then Some((rows, b))
    else match TakeItem(size, b)
      case Stuck => None
      case Got(item, b1) =>
        if next <= item.0 || item.0 in rows then None
        else RunItems(size, next, n - 1, rows[item.0 := item.1], b1)
  }

  lemma {:induction false} RunItemsIs(size: nat, next: nat, n: nat, rows: Rows, b: Bytes)
    ensures RunItems(size, next, n, rows, b) ==
            match TakeItems(size, n, b)
            case Stuck => None
            case Got(items, rest) =>
              match LoadItems(next, rows, items)
              case Err(_) => None
              case Ok(after) => Some((after, rest))
    decreases n
  {
    hide TakeItem;
    if n > 0 {
      match TakeItem(size, b)
      case Stuck =>
      case Got(item, b1) =>
        match TakeItems(size, n - 1, b1) {
          case Stuck =>
          case Got(items, _) => assert ([item] + items)[0] == item && ([item] + items)[1..] == items;
        }
        if item.0 < next && item.0 !in rows {
          RunItemsIs(size, next, n - 1, rows[item.0 := item.1], b1);
        }
    }
  }

  /** What reading a snapshot and loading it comes to. */
  ghost function ReadAndLoad(sc: Schema, b: Bytes): Option<Persisted>
  {
    match ParseSnapshot(sc.size, b)
    case None => None
    case Some(s) =>
      match LoadSnapshot(sc, s)
      case Err(_) => None
      case Ok(p) => Some(p)
  }

  ghost function RunSnapshot(sc: Schema, b: Bytes): Option<Persisted>
  {
    match TakeU64(b)
    case Stuck => None
    case Got(next, b1) =>
      match TakeU64(b1)
      case Stuck => None
      case Got(n, b2) =>
        match RunItems(sc.size, next, n, map[], b2)
        case None => None
        case Some((rows, b3)) =>
          if !KeysUnique(sc, rows) then None
          else match TakeBlock(b3)
            case Stuck => None
            case Got(blobs, b4) => if b4 == [] then Some(Persisted(next, rows, blobs)) else None
  }

  lemma RunSnapshotIs(sc: Schema, b: Bytes)
    ensures RunSnapshot(sc, b) == ReadAndLoad(sc, b)
  {
    hide TakeU64, RunItems, TakeItems, TakeBlock, LoadItems, KeysUnique;
    match TakeU64(b)
    case Stuck =>
    case Got(next, b1) =>
      match TakeU64(b1)
      case Stuck =>
      case Got(n, b2) => RunItemsIs(sc.size, next, n, map[], b2);
  }

  lemma ItemRest(size: nat, b: Bytes, pos: nat)
    requires pos <= |b|
    ensures var item := TakeItem(size, b[pos..]);
            item.Got? ==> 0 <= item.value.0 && |item.rest| <= |b| - pos && item.rest == b[|b| - |item.rest|..]
  {
    if TakeItem(size, b[pos..]).Got? {
      RowRest(size, b[pos..][8..]);
      assert b[pos..][8..] == b[pos + 8..];
    }
  }

  /** `live` lists the rows of `m`, each once. */
  ghost predicate ListsRows(live: seq<(int, Row)>, m: Rows)
  {
    && (forall i :: 0 <= i < |live| ==> live[i].0 in m && m[live[i].0] == live[i].1)
    && (forall id :: id in m ==> exists i :: 0 <= i < |live| && live[i].0 == id)
    && (forall i, j :: 0 <= i < j < |live| ==> live[i].0 != live[j].0)
  }

  lemma ListsRowsNext(live: seq<(int, Row)>, m: Rows, id: int, row: Row)
    requires ListsRows(live, m) && id !in m
    ensures ListsRows(live + [(id, row)], m[id := row])
  {
    var live', m' := live + [(id, row)], m[id := row];
    forall x | x in m' ensures exists i :: 0 <= i < |live'| && live'[i].0 == x {
      if x == id {
        assert live'[|live|].0 == x;
      } else {
        var i :| 0 <= i < |live| && live[i].0 == x;
        assert live'[i].0 == x;
      }
    }
  }

  /** Stores a row under a free id below the next id. */
  method StoreNew(t: Table, id: int, row: Row) returns (ok: bool)
    requires t.LoosePrimary() && 0 <= id
    modifies t`rowCount, t.primary
    ensures t.LoosePrimary() && t.primary.len == old(t.primary.len)
    ensures ok <==> id < t.primary.len && id !in old(t.primary.rows)
    ensures t.primary.rows == if ok then old(t.primary.rows)[id := row] else old(t.primary.rows)
  {
    hide MapOf, AllPagesOK, NothingFrom, Table.Shape;
    var found := t.primary.Get(id);
    if t.primary.len <= id || found.Some? {
      return false;
    }
    CountUpdate(t.primary.rows, id, row);
    var wasAbsent := t.primary.Insert(id, row);
    t.rowCount := t.rowCount + 1;
    return true;
  }

  method LoadRows(t: Table, b: Bytes, start: nat, n: nat) returns (ok: bool, pos: nat, live: seq<(int, Row)>)
    requires t.LoosePrimary() && t.primary.rows == map[] && start <= |b|
    modifies t`rowCount, t.primary
    ensures var r := RunItems(t.sc.size, old(t.primary.len), n, map[], b[start..]);
            && (ok <==> r.Some?)
            && (ok ==> t.LoosePrimary() && start <= pos <= |b| && r.value == (t.primary.rows, b[pos..])
                       && t.primary.len == old(t.primary.len) && ListsRows(live, t.primary.rows))
  {
    hide TakeItem, ListsRows, Table.LoosePrimary;
    pos, live := start, [];
    NoRowsListed();
    var i := 0;
    while i < n
      invariant 0 <= i <= n && start <= pos <= |b|
      invariant t.LoosePrimary() && t.primary.len == old(t.primary.len)
      invariant ListsRows(live, t.primary.rows)
      invariant RunItems(t.sc.size, old(t.primary.len), n, map[], b[start..]) ==
                RunItems(t.sc.size, old(t.primary.len), n - i, t.primary.rows, b[pos..])
    {
      ItemRest(t.sc.size, b, pos);
      match TakeItem(t.sc.size, b[pos..])
      case Stuck => return false, pos, live;
      case Got(item, rest) =>
        ghost var was := t.primary.rows;
        var stored := StoreNew(t, item.0, item.1);
        if !stored {
          return false, pos, live;
        }
        ListsRowsNext(live, was, item.0, item.1);
        live := live + [item];
        pos := |b| - |rest|;
        i := i + 1;
    }
    return true, pos, live;
  }

  lemma NoRowsListed()
    ensures ListsRows([], map[])
  {
  }

  /** Distinct listed keys in every index are unique keys of the rows. */
  lemma BuiltKeys(sc: Schema, live: seq<(int, Row)>, m: Rows)
    requires ListsRows(live, m)
    ensures KeysUnique(sc, m) <==> forall x: nat :: x < |sc.keys| ==> KeysDiffer(live, sc.keys[x], |live|)
  {
    if forall x: nat :: x < |sc.keys| ==> KeysDiffer(live, sc.keys[x], |live|) {
      forall x: nat, a, b | x < |sc.keys| && a in m && b in m && sc.keys[x](m[a]) == sc.keys[x](m[b]) ensures a == b {
        var i :| 0 <= i < |live| && live[i].0 == a;
        var j :| 0 <= j < |live| && live[j].0 == b;
        assert KeysDiffer(live, sc.keys[x], |live|);
      }
    }
    if KeysUnique(sc, m) {
      forall x: nat | x < |sc.keys| ensures KeysDiffer(live, sc.keys[x], |live|) {
        forall i, j | 0 <= i < j < |live| ensures sc.keys[x](live[i].1) != sc.keys[x](live[j].1) {
          assert m[live[i].0] == live[i].1 && m[live[j].0] == live[j].1;
        }
      }
    }
  }

  lemma BuiltExact(entries: map<Key, int>, key: Row -> Key, live: seq<(int, Row)>, m: Rows)
    requires ListsRows(live, m) && Points(entries, live, key, |live|) && HasKeys(entries, live, key, |live|)
    ensures Exact(entries, key, m) && Filed(entries, key, m)
  {
    forall id | id in m ensures key(m[id]) in entries && entries[key(m[id])] == id {
      var i :| 0 <= i < |live| && live[i].0 == id;
      assert key(live[i].1) in entries;
    }
    forall k | k in entries ensures entries[k] in m && key(m[entries[k]]) == k {
      var i :| 0 <= i < |live| && key(live[i].1) == k;
      assert entries[key(live[i].1)] == live[i].0;
    }
    forall k | k in entries ensures HasKey(key, m, k) {
      assert entries[k] in m && key(m[entries[k]]) == k;
    }
  }

  /** Rebuilds every index from the listed rows; stops at the first in which two rows share a key. */
  method BuildIndices(t: Table, live: seq<(int, Row)>, ghost rows: Rows) returns (ok: bool)
    requires t.Shape() && ListsRows(live, rows)
    modifies t.indices
    ensures ok <==> KeysUnique(t.sc, rows)
    ensures ok ==> t.LooselyIndexed(rows)
  {
    hide ListsRows, KeysDiffer, Points, HasKeys, Exact, Filed, KeysUnique;
    BuiltKeys(t.sc, live, rows);
    var i := 0;
    while i < |t.indices|
      invariant 0 <= i <= |t.indices|
      invariant forall j: nat :: j < i ==> KeysDiffer(live, t.sc.keys[j], |live|)
      invariant forall j :: 0 <= j < i ==> Filed(t.indices[j].entries, t.sc.keys[j], rows)
    {
      var built := t.indices[i].BulkBuild(live);
      if !built {
        return false;
      }
      BuiltExact(t.indices[i].entries, t.sc.keys[i], live, rows);
      i := i + 1;
    }
    return true;
  }

  /**
    Restores a snapshot into an empty table. The table is sound afterwards exactly
    when every row is filed under the id it carries, which is not looked at. On a
    refusal the table is not to be used any more.
   */
  method LoadFrom(t: Table, b: Bytes) returns (ok: bool)
    requires t.Loose() && t.primary.len == 0 && t.blobs == []
    modifies t`rowCount, t`blobs, t`flushed, t.primary, t.indices
    ensures var r := ReadAndLoad(t.sc, b);
            && (ok <==> r.Some?)
            && (ok ==> t.Loose() && (t.Valid() <==> IdsOK(r.value.rows))
                       && t.View() == old(t.View()).(nextId := r.value.nextId, rows := r.value.rows,
                                                     blobs := r.value.blobs, flushed := |r.value.blobs|))
  {
    hide TakeU64, RunItems, TakeBlock, ReadAndLoad, ListsRows, KeysUnique, Table.LoosePrimary, Table.LooselyIndexed,
         Table.Valid, Table.DirtyOK, FreeList.Ties, ToStack, IdsOK;
    RunSnapshotIs(t.sc, b);
    U64Rest(b, 0);
    assert b[0..] == b;
    var first := TakeU64(b);
    if first.Stuck? {
      return false;
    }
    U64Rest(b, 8);
    var count := TakeU64(b[8..]);
    if count.Stuck? {
      return false;
    }
    EmptyRows(t);
    Grow(t, first.value);
    var pos, live;
    ok, pos, live := LoadRows(t, b, 16, count.value);
    if !ok {
      return false;
    }
    PrimaryShape(t);
    ok := BuildIndices(t, live, t.primary.rows);
    if !ok {
      return false;
    }
    var blobs := TakeBlock(b[pos..]);
    if blobs.Stuck? || blobs.rest != [] {
      return false;
    }
    t.blobs := t.blobs + blobs.value;
    t.flushed := |t.blobs|;
    t.ValidIsLoose();
    return true;
  }

  lemma EmptyRows(t: Table)
    requires t.LoosePrimary() && t.primary.len == 0
    ensures t.primary.rows == map[]
  {
  }

  lemma PrimaryShape(t: Table)
    requires t.LoosePrimary()
    ensures t.Shape()
  {
  }

  // ----- rows filed under ids they do not carry -----------------------------

  lemma OneItemLoads(sc: Schema, id: nat, row: Row)
    ensures LoadSnapshot(sc, Snapshot(id + 1, [(id, row)], [])) == Ok(Persisted(id + 1, map[id := row], []))
  {
    hide KeysUnique;
    assert [(id, row)][1..] == [];
    assert LoadItems(id + 1, map[id := row], []) == Ok(map[id := row]);
    OneRowUnique(sc, id, row);
  }

  lemma OneRowUnique(sc: Schema, id: int, row: Row)
    ensures KeysUnique(sc, map[id := row])
  {
  }

  lemma OneEntryReplays(sc: Schema, id: nat, row: Row)
    ensures Apply(sc, EMPTY, Record(id + 1, [Entry(id, Some(row))], [], []))
            == Ok(Persisted(id + 1, map[id := row], []))
  {
    hide KeyHeld;
    var entries, none: Rows := [Entry(id, Some(row))], map[];
    NothingHeld(sc, row, none - {id});
    assert entries[1..] == [] && none[id := row] == map[id := row];
    assert ApplyEntries(sc, id + 1, none, entries) == ApplyEntries(sc, id + 1, none[id := row], []);
    assert ApplyEntries(sc, id + 1, none[id := row], []) == Ok(none[id := row]);
    var d := Record(id + 1, entries, [], []);
    assert ApplyPatches(EMPTY.blobs, d.patches) == Ok(EMPTY.blobs) && EMPTY.blobs + d.tail == [];
    assert EMPTY.rows == none && d.entries == entries;
  }

  lemma NothingHeld(sc: Schema, row: Row, rows: Rows)
    requires rows == map[]
    ensures !KeyHeld(sc, rows, row)
  {
  }

  /** Any row that is filed under an id it does not carry loads from a snapshot, and leaves an unsound table. */
  method ForeignRowLoads(sc: Schema, id: nat, row: Row) returns (t: Table, ok: bool)
    requires ItemFits(sc.size, (id, row)) && id + 1 < U64_LIMIT && row.id != id
    ensures fresh(t) && ok && t.View().rows == map[id := row] && t.Loose() && !t.Valid()
  {
    hide SnapshotBytes, ParseSnapshot, LoadSnapshot, ItemFits, Table.Loose, Table.Valid;
    t := new Table(sc);
    t.ValidIsLoose();
    var s := Snapshot(id + 1, [(id, row)], []);
    SnapshotRoundTrip(sc.size, s);
    OneItemLoads(sc, id, row);
    ok := LoadFrom(t, SnapshotBytes(s));
    NotOwn(id, row);
  }

  /** So it is with a delta record. */
  method ForeignRowReplays(sc: Schema, id: nat, row: Row) returns (t: Table, ok: bool)
    requires EntryFits(sc.size, Entry(id, Some(row))) && id + 1 < U64_LIMIT && row.id != id
    ensures fresh(t) && ok && t.View().rows == map[id := row] && t.Loose() && !t.Valid()
  {
    hide RecordBytes, ParseRecord, Apply, EntryFits, Table.Loose, Table.Valid;
    t := new Table(sc);
    t.ValidIsLoose();
    var d := Record(id + 1, [Entry(id, Some(row))], [], []);
    RecordRoundTrip(sc.size, d);
    OneEntryReplays(sc, id, row);
    ok := ApplyDelta(t, RecordBytes(d));
    NotOwn(id, row);
  }

  lemma NotOwn(id: int, row: Row)
    requires row.id != id
    ensures !IdsOK(map[id := row])
  {
    assert map[id := row][id].id != id;
  }
}
