/**
  Where each number stands in the bytes that files and state history are made of.
  A number is read from its own offset, low byte first.
 */
module Layouts {
  import opened ArenaTypes
  import opened Delta
  import opened Wire
  import opened HistoryRules

  // ----- reading a number at an offset --------------------------------------

  predicate Inside(b: Bytes, off: nat, width: nat)
  {
    off + width <= |b|
  }

  /** The number that the `width` bytes from `off` spell, digit by digit in base 256. */
  function NumAt(b: Bytes, off: nat, width: nat): nat
    requires Inside(b, off, width)
    decreases width
  {
    if width == 0 then 0 else b[off] + 256 * NumAt(b, off + 1, width - 1)
  }

  /** Bytes `off` on hold `n` in `width` bytes. */
  predicate Holds(b: Bytes, off: nat, width: nat, n: int)
  {
    Inside(b, off, width) && NumAt(b, off, width) == n
  }

  lemma {:induction false} NumOf(x: Bytes, n: nat, width: nat, y: Bytes)
    requires n < Pow256(width)
    ensures Holds(x + LE(n, width) + y, |x|, width, n)
    decreases width
  {
    var b := x + LE(n, width) + y;
    if width > 0 {
      assert LE(n, width) == [n % 256] + LE(n / 256, width - 1);
      assert b == (x + [n % 256]) + LE(n / 256, width - 1) + y;
      NumOf(x + [n % 256], n / 256, width - 1, y);
    }
  }

  // ----- fields -------------------------------------------------------------

  /** Where field `i` starts. */
  function Offset(fields: seq<Field>, i: nat): nat
    requires i <= |fields|
  {
    if i == 0 then 0 else Offset(fields, i - 1) + fields[i - 1].1
  }

  lemma {:induction false} EncodeJoin(a: seq<Field>, b: seq<Field>)
    ensures Encode(a + b) == Encode(a) + Encode(b)
    decreases |a|
  {
    hide LE;
    if a == [] {
      assert a + b == b;
    } else {
      assert (a + b)[0] == a[0] && (a + b)[1..] == a[1..] + b;
      EncodeJoin(a[1..], b);
    }
  }

  lemma {:induction false} PrefixLength(fields: seq<Field>, i: nat)
    requires i <= |fields|
    ensures |Encode(fields[..i])| == Offset(fields, i)
    decreases i
  {
    hide LE;
    if i > 0 {
      var init, f := fields[..i - 1], fields[i - 1];
      PrefixLength(fields, i - 1);
      assert fields[..i] == init + [f];
      EncodeJoin(init, [f]);
      assert Encode([f]) == LE(f.0, f.1) + Encode([f][1..]);
    }
  }

  /** Each field stands at its offset, whatever follows the record. */
  lemma FieldAt(fields: seq<Field>, i: nat, rest: Bytes)
    requires i < |fields| && Fit(fields)
    ensures Holds(Encode(fields) + rest, Offset(fields, i), fields[i].1, fields[i].0)
  {
    hide LE, Encode, Holds, Offset;
    var pre, f, post := fields[..i], fields[i], fields[i + 1..];
    PrefixLength(fields, i);
    EncodeAround(fields, i);
    Regrouped(Encode(pre), LE(f.0, f.1), Encode(post), rest);
    NumOf(Encode(pre), f.0, f.1, Encode(post) + rest);
  }

  lemma Regrouped(a: Bytes, b: Bytes, c: Bytes, d: Bytes)
    ensures a + (b + c) + d == a + b + (c + d)
  {
  }

  lemma EncodeAround(fields: seq<Field>, i: nat)
    requires i < |fields|
    ensures Encode(fields) == Encode(fields[..i]) + (LE(fields[i].0, fields[i].1) + Encode(fields[i + 1..]))
  {
    hide LE, Encode;
    var pre, f, post := fields[..i], fields[i], fields[i + 1..];
    assert fields == pre + ([f] + post);
    EncodeJoin(pre, [f] + post);
    EncodeHead(f, post);
  }

  lemma EncodeHead(f: Field, post: seq<Field>)
    ensures Encode([f] + post) == LE(f.0, f.1) + Encode(post)
  {
    assert ([f] + post)[1..] == post;
  }

  lemma WholeLength(fields: seq<Field>)
    ensures |Encode(fields)| == Offset(fields, |fields|)
  {
    PrefixLength(fields, |fields|);
    assert fields[..|fields|] == fields;
  }

  // ----- state history ------------------------------------------------------

  /** `b` starts with these fields, one after another, and `at` lists where they start. */
  ghost predicate LaidOut(b: Bytes, fields: seq<Field>, at: seq<nat>)
  {
    |at| == |fields| && forall i :: 0 <= i < |fields| ==> Holds(b, at[i], fields[i].1, fields[i].0)
  }

  lemma AllLaidOut(fields: seq<Field>, at: seq<nat>, rest: Bytes)
    requires Fit(fields) && |at| == |fields| && (|at| > 0 ==> at[0] == 0)
    requires forall i :: 0 <= i < |at| - 1 ==> at[i + 1] == at[i] + fields[i].1
    ensures LaidOut(Encode(fields) + rest, fields, at)
  {
    hide Holds, Fit, Encode;
    forall i | 0 <= i < |fields| ensures Holds(Encode(fields) + rest, at[i], fields[i].1, fields[i].0) {
      OffsetIs(fields, at, i);
      FieldAt(fields, i, rest);
    }
  }

  lemma {:induction false} OffsetIs(fields: seq<Field>, at: seq<nat>, i: nat)
    requires |at| == |fields| && (|at| > 0 ==> at[0] == 0) && i < |at|
    requires forall j :: 0 <= j < |at| - 1 ==> at[j + 1] == at[j] + fields[j].1
    ensures Offset(fields, i) == at[i]
    decreases i
  {
    if i > 0 {
      OffsetIs(fields, at, i - 1);
      assert at[(i - 1) + 1] == at[i - 1] + fields[i - 1].1;
    }
  }

  /** A contract table: code, scope, table and payer. */
  lemma TableLayout(r: HistoryRules.TableRow)
    requires HistoryRules.TableFits(r)
    ensures var b := SerTable(r);
            && Holds(b, 0, 1, 0) && Holds(b, 1, 8, r.code) && Holds(b, 9, 8, r.scope) && Holds(b, 17, 8, r.table)
            && Holds(b, 25, 8, r.payer)
  {
    hide Encode, Pow256, Holds;
    Widths();
    var f, at := TableFields(r), [0, 1, 9, 17, 25];
    AllLaidOut(f, at, []);
    assert Encode(f) + [] == Encode(f);
    assert at[0] == 0 && at[1] == 1 && at[2] == 9 && at[3] == 17 && at[4] == 25;
  }

  /** Account limits: owner, then net, cpu and ram. */
  lemma LimitsLayout(r: LimitsRow)
    requires LimitsFit(r)
    ensures var b := SerLimits(r);
            && Holds(b, 0, 1, 0) && Holds(b, 1, 8, r.owner) && Holds(b, 9, 8, Bits(r.netWeight))
               && Holds(b, 17, 8, Bits(r.cpuWeight))
            && Holds(b, 25, 8, Bits(r.ramBytes))
  {
    hide Encode, Pow256, Holds;
    Widths();
    var f, at := LimitsFields(r), [0, 1, 9, 17, 25];
    AllLaidOut(f, at, []);
    assert Encode(f) + [] == Encode(f);
    assert at[0] == 0 && at[1] == 1 && at[2] == 9 && at[3] == 17 && at[4] == 25;
  }

  /** The resource state: the net average, the cpu average, the totals and the elastic limits. */
  lemma StateLayout(r: StateRow)
    requires StateFits(r)
    ensures var b := SerState(r);
            && Holds(b, 0, 1, 0) && Holds(b, 1, 1, 0) && Holds(b, 22, 1, 0)
            && Holds(b, 2, 4, r.net.lastOrdinal) && Holds(b, 6, 8, r.net.valueEx) && Holds(b, 14, 8, r.net.consumed)
            && Holds(b, 23, 4, r.cpu.lastOrdinal) && Holds(b, 27, 8, r.cpu.valueEx) && Holds(b, 35, 8, r.cpu.consumed)
            && Holds(b, 43, 8, r.totalNet) && Holds(b, 51, 8, r.totalCpu) && Holds(b, 59, 8, r.totalRam)
            && Holds(b, 67, 8, r.virtualNet) && Holds(b, 75, 8, r.virtualCpu)
  {
    hide Encode, Pow256, Holds;
    StateFieldsFit(r);
    var f, at := StateFields(r), [0, 1, 2, 6, 14, 22, 23, 27, 35, 43, 51, 59, 67, 75];
    AllLaidOut(f, at, []);
    assert Encode(f) + [] == Encode(f);
    assert f[2] == (r.net.lastOrdinal, 4) && f[3] == (r.net.valueEx, 8) && f[4] == (r.net.consumed, 8);
    assert f[6] == (r.cpu.lastOrdinal, 4) && f[7] == (r.cpu.valueEx, 8) && f[8] == (r.cpu.consumed, 8);
    assert f[0] == (0, 1) && f[1] == (0, 1) && f[5] == (0, 1) && at[0] == 0 && at[1] == 1 && at[5] == 22;
    assert at[2] == 2 && at[3] == 6 && at[4] == 14 && at[6] == 23 && at[7] == 27 && at[8] == 35;
    assert at[9] == 43 && at[10] == 51 && at[11] == 59 && at[12] == 67 && at[13] == 75;
  }

  /** The elastic parameters of one resource, from `off` on. */
  ghost predicate ElasticAt(b: Bytes, off: nat, e: ElasticRow)
  {
    && Holds(b, off, 1, 0) && Holds(b, off + 25, 1, 0) && Holds(b, off + 42, 1, 0)
    && Holds(b, off + 1, 8, e.target) && Holds(b, off + 9, 8, e.max)
    && Holds(b, off + 17, 4, e.periods) && Holds(b, off + 21, 4, e.maxMultiplier)
    && Holds(b, off + 26, 8, e.contractNum) && Holds(b, off + 34, 8, e.contractDen)
    && Holds(b, off + 43, 8, e.expandNum) && Holds(b, off + 51, 8, e.expandDen)
  }

  lemma {:induction false} HoldsIn(x: Bytes, b: Bytes, off: nat, width: nat, n: int)
    requires Holds(b, off, width, n)
    ensures Holds(x + b, |x| + off, width, n)
    decreases width
  {
    if width > 0 {
      HoldsIn(x, b, off + 1, width - 1, NumAt(b, off + 1, width - 1));
    }
  }

  lemma ElasticLayout(e: ElasticRow, rest: Bytes)
    requires ElasticFits(e)
    ensures |Encode(ElasticFields(e))| == 59 && ElasticAt(Encode(ElasticFields(e)) + rest, 0, e)
  {
    hide Encode, Pow256, Holds;
    Widths();
    var f, at := ElasticFields(e), [0, 1, 9, 17, 21, 25, 26, 34, 42, 43, 51];
    assert Fit(f);
    AllLaidOut(f, at, rest);
    assert at[0] == 0 && at[1] == 1 && at[2] == 9 && at[3] == 17 && at[4] == 21 && at[5] == 25 && at[8] == 42;
    assert at[6] == 26 && at[7] == 34 && at[9] == 43 && at[10] == 51;
    WholeLength(f);
    OffsetIs(f, at, 10);
  }

  lemma ElasticIn(x: Bytes, b: Bytes, e: ElasticRow)
    requires ElasticAt(b, 0, e)
    ensures ElasticAt(x + b, |x|, e)
  {
    hide Holds;
    HoldsIn(x, b, 0, 1, 0);
    HoldsIn(x, b, 25, 1, 0);
    HoldsIn(x, b, 42, 1, 0);
    HoldsIn(x, b, 1, 8, e.target);
    HoldsIn(x, b, 9, 8, e.max);
    HoldsIn(x, b, 17, 4, e.periods);
    HoldsIn(x, b, 21, 4, e.maxMultiplier);
    HoldsIn(x, b, 26, 8, e.contractNum);
    HoldsIn(x, b, 34, 8, e.contractDen);
    HoldsIn(x, b, 43, 8, e.expandNum);
    HoldsIn(x, b, 51, 8, e.expandDen);
  }

  /** The resource configuration: cpu, net, the cpu window, the net window. */
  lemma ConfigLayout(r: ConfigRow)
    requires ConfigFits(r)
    ensures var b := SerConfig(r);
            ElasticAt(b, 1, r.cpu) && ElasticAt(b, 60, r.net) && Holds(b, 119, 4, r.cpuWindow)
                && Holds(b, 123, 4, r.netWindow)
  {
    hide Encode, Pow256, Holds, ElasticAt, ElasticFields;
    var head, cpu, net, last := [(0, 1)], ElasticFields(r.cpu), ElasticFields(r.net),
        [(r.cpuWindow, 4), (r.netWindow, 4)];
    assert ConfigFields(r) == head + (cpu + (net + last));
    EncodeJoin(head, cpu + (net + last));
    EncodeJoin(cpu, net + last);
    EncodeJoin(net, last);
    OneField(head);
    ElasticLayout(r.cpu, Encode(net + last));
    ElasticLayout(r.net, Encode(last));
    var h, c, n, w := Encode(head), Encode(cpu), Encode(net), Encode(last);
    ElasticIn(h, c + (n + w), r.cpu);
    ElasticIn(h + c, n + w, r.net);
    assert h + (c + (n + w)) == (h + c) + (n + w) == ((h + c) + n) + w;
    WindowsLayout(r);
    HoldsIn((h + c) + n, w, 0, 4, r.cpuWindow);
    HoldsIn((h + c) + n, w, 4, 4, r.netWindow);
  }

  lemma OneField(head: seq<Field>)
    requires |head| == 1 && head[0].1 == 1
    ensures |Encode(head)| == 1
  {
    WholeLength(head);
  }

  lemma WindowsLayout(r: ConfigRow)
    requires ConfigFits(r)
    ensures var b := Encode([(r.cpuWindow, 4), (r.netWindow, 4)]);
            Holds(b, 0, 4, r.cpuWindow) && Holds(b, 4, 4, r.netWindow)
  {
    hide Encode, Pow256, Holds;
    Widths();
    var f, at := [(r.cpuWindow, 4), (r.netWindow, 4)], [0, 4];
    AllLaidOut(f, at, []);
    assert Encode(f) + [] == Encode(f);
    assert at[0] == 0 && at[1] == 4;
  }

  /**
    Account metadata: name, privilege, time of the last code update, and the code's
    machine and hash if there is code.
   */
  lemma MetaLayout(r: MetaRow)
    requires MetaFits(r)
    ensures var b := SerMeta(r);
            && Holds(b, 0, 1, 0) && Holds(b, 1, 8, r.name) && Holds(b, 9, 1, r.flags % 2)
               && Holds(b, 10, 8, Bits(r.lastCodeUpdate))
            && Holds(b, 18, 1, if HasCode(r) then 1 else 0)
            && (HasCode(r) ==> b[19..] == [r.vmType, r.vmVersion] + r.codeHash)
            && (!HasCode(r) ==> |b| == 19)
  {
    hide Encode, Pow256, Holds, HasCode;
    Widths();
    var f, at := MetaFields(r), [0, 1, 9, 10, 18];
    AllLaidOut(f, at, CodeBytes(r));
    assert at[0] == 0 && at[1] == 1 && at[2] == 9 && at[3] == 10 && at[4] == 18;
    WholeLength(f);
    OffsetIs(f, at, 4);
    OneByte(r.vmType);
    OneByte(r.vmVersion);
    assert SerMeta(r)[19..] == CodeBytes(r);
  }

  /** Code: the machine's type and version, the hash, then the code after its length. */
  lemma CodeLayout(r: CodeRow, blobs: Blobs)
    requires CodeFits(r)
    ensures var b := SerCode(r, blobs);
            |b| >= 35 && b[0] == 0 && b[1] == r.vmType && b[2] == r.vmVersion && b[3..35] == r.codeHash
            && b[35..] == Uvar(|BytesAt(blobs, r.code)|) + BytesAt(blobs, r.code)
  {
    hide Uvar, BytesAt;
    OneByte(r.vmType);
    OneByte(r.vmVersion);
    OneByte(0);
    ThreeFields((0, 1), (r.vmType, 1), (r.vmVersion, 1));
  }

  lemma ThreeFields(a: Field, b: Field, c: Field)
    ensures Encode([a, b, c]) == LE(a.0, a.1) + LE(b.0, b.1) + LE(c.0, c.1)
  {
    hide LE;
    assert [a, b, c][1..] == [b, c] && [b, c][1..] == [c] && [c][1..] == [];
    assert Encode([c]) == LE(c.0, c.1) + Encode([]);
    assert Encode([b, c]) == LE(b.0, b.1) + Encode([c]);
  }

  // ----- files --------------------------------------------------------------

  lemma U64At(x: Bytes, n: nat, y: Bytes)
    requires n < U64_LIMIT
    ensures Holds(x + U64(n) + y, |x|, 8, n)
  {
    hide Pow256, LE;
    Widths();
    NumOf(x, n, 8, y);
  }

  /** A snapshot: next id, number of rows, and the arena after its length at the end. */
  lemma SnapshotHeader(size: nat, s: Snapshot)
    requires SnapshotFits(size, s)
    ensures var b, rows := SnapshotBytes(s), ItemsBytes(s.items);
            && Holds(b, 0, 8, s.nextId) && Holds(b, 8, 8, |s.items|)
            && |rows| == |s.items| * (16 + size) && Holds(b, 16 + |rows|, 8, |s.blobs|) && b[24 + |rows|..] == s.blobs
  {
    hide U64, ItemsBytes, Holds, ItemFits;
    var b, rows, end := SnapshotBytes(s), ItemsBytes(s.items), U64(|s.blobs|) + s.blobs;
    var a := U64(s.nextId);
    U64At([], s.nextId, U64(|s.items|) + rows + end);
    assert b == [] + a + (U64(|s.items|) + rows + end);
    U64At(a, |s.items|, rows + end);
    assert b == a + U64(|s.items|) + (rows + end);
    U64At(a + U64(|s.items|) + rows, |s.blobs|, s.blobs);
    assert b == (a + U64(|s.items|) + rows) + U64(|s.blobs|) + s.blobs;
    ItemsLength(size, s.items);
  }

  lemma {:induction false} ItemsLength(size: nat, items: seq<(int, Row)>)
    requires forall i :: 0 <= i < |items| ==> ItemFits(size, items[i])
    ensures |ItemsBytes(items)| == |items| * (16 + size)
    decreases |items|
  {
    hide U64;
    if items != [] {
      ItemsLength(size, items[1..]);
    }
  }

  /** A row stands at `off`: the id it is filed under, the id it carries, and its other bytes. */
  ghost predicate ItemStands(b: Bytes, off: nat, size: nat, item: (int, Row))
  {
    && Holds(b, off, 8, item.0) && Holds(b, off + 8, 8, item.1.id)
    && off + 16 + size <= |b| && b[off + 16..off + 16 + size] == item.1.data
  }

  lemma FirstStands(size: nat, item: (int, Row), rest: Bytes)
    requires ItemFits(size, item)
    ensures |ItemBytes(item)| == 16 + size && ItemStands(ItemBytes(item) + rest, 0, size, item)
  {
    hide U64, Holds;
    var (id, row) := item;
    var b := ItemBytes(item) + rest;
    U64At([], id, U64(row.id) + row.data + rest);
    assert b == [] + U64(id) + (U64(row.id) + row.data + rest);
    U64At(U64(id), row.id, row.data + rest);
    assert b == U64(id) + U64(row.id) + (row.data + rest);
  }

  lemma StandsIn(x: Bytes, b: Bytes, off: nat, size: nat, item: (int, Row))
    requires ItemStands(b, off, size, item)
    ensures ItemStands(x + b, |x| + off, size, item)
  {
    hide Holds;
    HoldsIn(x, b, off, 8, item.0);
    HoldsIn(x, b, off + 8, 8, item.1.id);
    assert (x + b)[|x| + off + 16..|x| + off + 16 + size] == b[off + 16..off + 16 + size];
  }

  function ItemOffset(size: nat, i: nat): nat
  {
    i * (16 + size)
  }

  lemma NextOffset(size: nat, i: nat)
    requires i > 0
    ensures ItemOffset(size, i) == 16 + size + ItemOffset(size, i - 1)
  {
  }

  /** Row `i` of a snapshot stands `i` rows' widths into them. */
  lemma {:induction false} ItemAt(size: nat, items: seq<(int, Row)>, i: nat)
    requires i < |items| && forall j :: 0 <= j < |items| ==> ItemFits(size, items[j])
    ensures ItemStands(ItemsBytes(items), ItemOffset(size, i), size, items[i])
    decreases i
  {
    hide ItemBytes, ItemStands, ItemOffset, ItemFits;
    var rest := ItemsBytes(items[1..]);
    FirstStands(size, items[0], rest);
    if i == 0 {
      FirstOffset(size);
    } else {
      ItemAt(size, items[1..], i - 1);
      StandsIn(ItemBytes(items[0]), rest, ItemOffset(size, i - 1), size, items[i]);
      NextOffset(size, i);
    }
  }

  lemma FirstOffset(size: nat)
    ensures ItemOffset(size, 0) == 0
  {
  }

  /** A delta record: next id, number of entries, entries, number of patches, patches, length of the tail, tail. */
  lemma RecordHeader(size: nat, d: Record)
    requires RecordFits(size, d)
    ensures var b, entries, patches := RecordBytes(d), EntriesBytes(d.entries), PatchesBytes(d.patches);
            && Holds(b, 0, 8, d.nextId) && Holds(b, 8, 8, |d.entries|)
            && Holds(b, 16 + |entries|, 8, |d.patches|)
            && Holds(b, 24 + |entries| + |patches|, 8, |d.tail|)
            && b[32 + |entries| + |patches|..] == d.tail
            && b[16..16 + |entries|] == entries && b[24 + |entries|..24 + |entries| + |patches|] == patches
  {
    hide U64, EntriesBytes, PatchesBytes, Holds, EntryFits, PatchFits;
    var b, entries, patches := RecordBytes(d), EntriesBytes(d.entries), PatchesBytes(d.patches);
    var n, e, p, t := U64(d.nextId), U64(|d.entries|), U64(|d.patches|), U64(|d.tail|);
    assert b == [] + n + (e + entries + p + patches + t + d.tail);
    U64At([], d.nextId, e + entries + p + patches + t + d.tail);
    assert b == n + e + (entries + p + patches + t + d.tail);
    U64At(n, |d.entries|, entries + p + patches + t + d.tail);
    assert b == (n + e + entries) + p + (patches + t + d.tail);
    U64At(n + e + entries, |d.patches|, patches + t + d.tail);
    U64At(n + e + entries + p + patches, |d.tail|, d.tail);
    Middle(n + e, entries, p + patches + t + d.tail);
    assert b == n + e + entries + (p + patches + t + d.tail);
    Middle(n + e + entries + p, patches, t + d.tail);
    assert b == n + e + entries + p + patches + (t + d.tail);
  }

  lemma Middle(a: Bytes, b: Bytes, c: Bytes)
    ensures (a + b + c)[|a|..|a| + |b|] == b
  {
  }

  /** An entry: the id, then 1 and the row, or 0 for a row that is gone. A patch: offset, length, bytes. */
  lemma EntryLayout(size: nat, e: Entry)
    requires EntryFits(size, e)
    ensures var b := EntryBytes(e);
            && Holds(b, 0, 8, e.id)
            && match e.row
               case None => b[8..] == [0]
               case Some(row) => |b| == 17 + size && b[8] == 1 && Holds(b, 9, 8, row.id) && b[17..] == row.data
  {
    hide U64, Holds;
    var b := EntryBytes(e);
    match e.row
    case None =>
      U64At([], e.id, [0]);
      assert b == [] + U64(e.id) + [0];
    case Some(row) =>
      U64At([], e.id, [1] + RowBytes(row));
      assert b == [] + U64(e.id) + ([1] + RowBytes(row));
      U64At(U64(e.id) + [1], row.id, row.data);
      assert b == (U64(e.id) + [1]) + U64(row.id) + row.data;
  }

  lemma PatchLayout(p: Patch)
    requires PatchFits(p)
    ensures var b := PatchBytes(p); Holds(b, 0, 8, p.off) && Holds(b, 8, 8, |p.bytes|) && b[16..] == p.bytes
  {
    hide U64, Holds;
    U64At([], p.off, U64(|p.bytes|) + p.bytes);
    assert PatchBytes(p) == [] + U64(p.off) + (U64(|p.bytes|) + p.bytes);
    U64At(U64(p.off), |p.bytes|, p.bytes);
    assert PatchBytes(p) == U64(p.off) + U64(|p.bytes|) + p.bytes;
  }

  /** A checkpoint or frame: revision in two's complement, number of sections, sections. */
  lemma SectionsHeader(s: Sections)
    requires SectionsFit(s)
    ensures var b := SectionsBytes(s);
            && Holds(b, 0, 8, if s.revision < 0 then s.revision + U64_LIMIT else s.revision)
            && Holds(b, 8, 8, |s.parts|) && b[16..] == PartsBytes(s.parts)
  {
    hide U64, PartsBytes, Holds, SectionFits;
    var b, n, parts := SectionsBytes(s), s.revision % U64_LIMIT, PartsBytes(s.parts);
    U64At([], n, U64(|s.parts|) + parts);
    assert b == [] + U64(n) + (U64(|s.parts|) + parts);
    U64At(U64(n), |s.parts|, parts);
    assert b == U64(n) + U64(|s.parts|) + parts;
  }

  /** A section: the table's type id in two bytes, its length, its bytes. */
  lemma SectionLayout(s: Section)
    requires SectionFits(s)
    ensures var b := SectionBytes(s); Holds(b, 0, 2, s.typeId) && Holds(b, 2, 8, |s.body|) && b[10..] == s.body
  {
    hide LE, Holds;
    assert Pow256(2) == 65536;
    NumOf([], s.typeId, 2, U64(|s.body|) + s.body);
    assert SectionBytes(s) == [] + LE(s.typeId, 2) + (U64(|s.body|) + s.body);
    U64At(LE(s.typeId, 2), |s.body|, s.body);
    assert SectionBytes(s) == LE(s.typeId, 2) + U64(|s.body|) + s.body;
  }

  /** A log: each frame after its length. */
  lemma FrameLayout(frames: seq<Bytes>)
    requires frames != [] && |frames[0]| < U64_LIMIT
    ensures var b, n := LogBytes(frames), |frames[0]|;
            Holds(b, 0, 8, n) && 8 + n <= |b| && b[8..8 + n] == frames[0] && b[8 + n..] == LogBytes(frames[1..])
  {
    hide U64, Holds;
    var b, rest := LogBytes(frames), LogBytes(frames[1..]);
    U64At([], |frames[0]|, frames[0] + rest);
    assert b == [] + U64(|frames[0]|) + (frames[0] + rest);
  }

  /** The value of a number in groups of seven bits, least first. */
  function UvarValue(b: Bytes): nat
  {
    if b == [] then 0 else b[0] % 128 + 128 * UvarValue(b[1..])
  }

  /** A variable-length number: its groups add up to it, and every group but the last is marked as followed. */
  lemma {:induction false} UvarMeans(n: nat)
    ensures UvarValue(Uvar(n)) == n && |Uvar(n)| > 0
    ensures forall i :: 0 <= i < |Uvar(n)| ==> (Uvar(n)[i] >= 128 <==> i < |Uvar(n)| - 1)
    decreases n
  {
    if n >= 128 {
      UvarMeans(n / 128);
      assert Uvar(n)[1..] == Uvar(n / 128);
    }
  }
}
