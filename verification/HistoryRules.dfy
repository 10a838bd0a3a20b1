/**
  Which modifications state history emits, row type by row type, against how the
  rows are serialized: a modification is dropped exactly when the serialized row
  stays the same, up to the fields that identify the row.
 */
module HistoryRules {
  import opened ArenaTypes
  import opened Wire
  import opened ResourceUsage

  /** A fixed-width field: its value and its width in bytes. */
  type Field = (nat, nat)

  function Encode(fields: seq<Field>): Bytes
  {
    if fields == [] then [] else LE(fields[0].0, fields[0].1) + Encode(fields[1..])
  }

  predicate Fit(fields: seq<Field>)
  {
    forall i :: 0 <= i < |fields| ==> fields[i].0 < Pow256(fields[i].1)
  }

  predicate SameWidths(a: seq<Field>, b: seq<Field>)
  {
    |a| == |b| && forall i :: 0 <= i < |a| ==> a[i].1 == b[i].1
  }

  /**
    Records of the same fixed-width fields have the same bytes only if they have the
    same values, whatever follows them.
   */
  lemma {:induction false} EncodeInjective(a: seq<Field>, b: seq<Field>, x: Bytes, y: Bytes)
    requires SameWidths(a, b) && Fit(a) && Fit(b) && Encode(a) + x == Encode(b) + y
    ensures a == b && x == y
    decreases |a|
  {
    hide LE, Pow256;
    if a != [] {
      var w := a[0].1;
      var restA, restB := Encode(a[1..]) + x, Encode(b[1..]) + y;
      assert Encode(a) + x == LE(a[0].0, w) + restA;
      assert Encode(b) + y == LE(b[0].0, w) + restB;
      HeadsEqual(LE(a[0].0, w), restA, LE(b[0].0, w), restB);
      LERoundTrip(a[0].0, w);
      LERoundTrip(b[0].0, w);
      EncodeInjective(a[1..], b[1..], x, y);
      assert a == [a[0]] + a[1..] && b == [b[0]] + b[1..];
    } else {
      assert Encode(a) + x == x && Encode(b) + y == y;
    }
  }

  lemma HeadsEqual(a: Bytes, x: Bytes, b: Bytes, y: Bytes)
    requires |a| == |b| && a + x == b + y
    ensures a == b && x == y
  {
    assert a == (a + x)[..|a|] && b == (b + y)[..|b|];
    assert x == (a + x)[|a|..] && y == (b + y)[|b|..];
  }

  lemma SameBytes(a: seq<Field>, b: seq<Field>)
    requires SameWidths(a, b) && Fit(a) && Fit(b)
    ensures Encode(a) == Encode(b) <==> a == b
  {
    if Encode(a) == Encode(b) {
      EncodeInjective(a, b, [], []);
    }
  }

  lemma Widths()
    ensures Pow256(1) == 256 && Pow256(4) == 0x1_0000_0000 && Pow256(8) == U64_LIMIT
  {
    assert Pow256(2) == 65536;
    assert Pow256(4) == 256 * (256 * Pow256(2));
    assert Pow256(8) == 256 * (256 * (256 * (256 * Pow256(4))));
  }

  const U32_LIMIT: nat := 0x1_0000_0000

  predicate IsI64(n: int)
  {
    I64_MIN <= n <= I64_MAX
  }

  /** A signed number as its 64-bit pattern. */
  function Bits(n: int): nat
  {
    n % U64_LIMIT
  }

  lemma BitsExact(a: int, b: int)
    requires IsI64(a) && IsI64(b)
    ensures Bits(a) == Bits(b) <==> a == b
  {
  }

  // ----- contract tables ----------------------------------------------------

  datatype TableRow = TableRow(code: nat, scope: nat, table: nat, payer: nat, count: nat)

  predicate TableFits(r: TableRow)
  {
    r.code < U64_LIMIT && r.scope < U64_LIMIT && r.table < U64_LIMIT && r.payer < U64_LIMIT
  }

  predicate TableMaterial(o: TableRow, c: TableRow)
  {
    o.payer != c.payer
  }

  function TableFields(r: TableRow): seq<Field>
  {
    [(0, 1), (r.code, 8), (r.scope, 8), (r.table, 8), (r.payer, 8)]
  }

  function SerTable(r: TableRow): Bytes
  {
    Encode(TableFields(r))
  }

  /** A table row serializes the same exactly when its payer and its name are the same. */
  lemma TableExact(o: TableRow, c: TableRow)
    requires TableFits(o) && TableFits(c)
    ensures SerTable(o) == SerTable(c) <==>
            !TableMaterial(o, c) && o.code == c.code && o.scope == c.scope && o.table == c.table
  {
    hide Encode, Pow256;
    Widths();
    SameBytes(TableFields(o), TableFields(c));
    SameList5(TableFields(o), TableFields(c));
  }

  lemma SameList5(a: seq<Field>, b: seq<Field>)
    requires |a| == |b| == 5
    ensures a == b <==> a[0] == b[0] && a[1] == b[1] && a[2] == b[2] && a[3] == b[3] && a[4] == b[4]
  {
  }

  // ----- account limits -----------------------------------------------------

  datatype LimitsRow = LimitsRow(owner: nat, ramBytes: int, netWeight: int, cpuWeight: int, pending: nat)

  predicate LimitsFit(r: LimitsRow)
  {
    r.owner < U64_LIMIT && IsI64(r.ramBytes) && IsI64(r.netWeight) && IsI64(r.cpuWeight)
  }

  predicate LimitsMaterial(o: LimitsRow, c: LimitsRow)
  {
    o.netWeight != c.netWeight || o.cpuWeight != c.cpuWeight || o.ramBytes != c.ramBytes
  }

  function LimitsFields(r: LimitsRow): seq<Field>
  {
    [(0, 1), (r.owner, 8), (Bits(r.netWeight), 8), (Bits(r.cpuWeight), 8), (Bits(r.ramBytes), 8)]
  }

  function SerLimits(r: LimitsRow): Bytes
  {
    Encode(LimitsFields(r))
  }

  /** A limits row serializes the same exactly when its limits and its owner are the same; the owner is not compared. */
  lemma LimitsExact(o: LimitsRow, c: LimitsRow)
    requires LimitsFit(o) && LimitsFit(c)
    ensures SerLimits(o) == SerLimits(c) <==> !LimitsMaterial(o, c) && o.owner == c.owner
  {
    hide Encode, Pow256;
    Widths();
    SameBytes(LimitsFields(o), LimitsFields(c));
    SameList5(LimitsFields(o), LimitsFields(c));
    BitsExact(o.netWeight, c.netWeight);
    BitsExact(o.cpuWeight, c.cpuWeight);
    BitsExact(o.ramBytes, c.ramBytes);
  }

  // ----- the resource state -------------------------------------------------

  datatype StateRow = StateRow(net: Usage, cpu: Usage, pendingNet: nat, pendingCpu: nat, totalNet: nat, totalCpu: nat,
                               totalRam: nat, virtualNet: nat, virtualCpu: nat)

  predicate UsageFits(u: Usage)
  {
    u.valueEx < U64_LIMIT && u.consumed < U64_LIMIT && u.lastOrdinal < U32_LIMIT
  }

  predicate StateFits(r: StateRow)
  {
    && UsageFits(r.net) && UsageFits(r.cpu)
    && r.totalNet < U64_LIMIT && r.totalCpu < U64_LIMIT && r.totalRam < U64_LIMIT
    && r.virtualNet < U64_LIMIT && r.virtualCpu < U64_LIMIT
  }

  predicate StateMaterial(o: StateRow, c: StateRow)
  {
    o.net != c.net || o.cpu != c.cpu || o.totalNet != c.totalNet || o.totalCpu != c.totalCpu || o.totalRam != c.totalRam
    || o.virtualNet != c.virtualNet || o.virtualCpu != c.virtualCpu
  }

  function UsageFields(u: Usage): seq<Field>
  {
    [(0, 1), (u.lastOrdinal, 4), (u.valueEx, 8), (u.consumed, 8)]
  }

  function TotalFields(r: StateRow): seq<Field>
  {
    [(r.totalNet, 8), (r.totalCpu, 8), (r.totalRam, 8), (r.virtualNet, 8), (r.virtualCpu, 8)]
  }

  function StateFields(r: StateRow): seq<Field>
  {
    [(0, 1)] + UsageFields(r.net) + UsageFields(r.cpu) + TotalFields(r)
  }

  function SerState(r: StateRow): Bytes
  {
    Encode(StateFields(r))
  }

  /** The state row serializes the same exactly when nothing the rule compares changed: not for pending use. */
  lemma StateExact(o: StateRow, c: StateRow)
    requires StateFits(o) && StateFits(c)
    ensures SerState(o) == SerState(c) <==> !StateMaterial(o, c)
  {
    hide Encode, Pow256, UsageFields, TotalFields;
    StateFieldsFit(o);
    StateFieldsFit(c);
    StateWidths(o, c);
    SameBytes(StateFields(o), StateFields(c));
    if StateFields(o) == StateFields(c) {
      StateParts(o, c);
    }
    if !StateMaterial(o, c) {
      StateSame(o, c);
    }
  }

  lemma StateSame(o: StateRow, c: StateRow)
    requires !StateMaterial(o, c)
    ensures StateFields(o) == StateFields(c)
  {
  }

  lemma StateWidths(o: StateRow, c: StateRow)
    ensures SameWidths(StateFields(o), StateFields(c))
  {
  }

  lemma StateFieldsFit(r: StateRow)
    requires StateFits(r)
    ensures Fit(StateFields(r))
  {
    hide Pow256;
    Widths();
  }

  lemma StateParts(o: StateRow, c: StateRow)
    requires StateFields(o) == StateFields(c)
    ensures !StateMaterial(o, c)
  {
    var a, b := StateFields(o), StateFields(c);
    assert a[2] == b[2] && a[3] == b[3] && a[4] == b[4];
    assert a[6] == b[6] && a[7] == b[7] && a[8] == b[8];
    assert a[9] == b[9] && a[10] == b[10] && a[11] == b[11] && a[12] == b[12] && a[13] == b[13];
  }

  // ----- the resource configuration -----------------------------------------

  datatype ElasticRow = ElasticRow(target: nat, max: nat, periods: nat, maxMultiplier: nat, contractNum: nat,
                                   contractDen: nat, expandNum: nat, expandDen: nat)

  datatype ConfigRow = ConfigRow(cpu: ElasticRow, net: ElasticRow, cpuWindow: nat, netWindow: nat)

  predicate ElasticFits(e: ElasticRow)
  {
    && e.target < U64_LIMIT && e.max < U64_LIMIT && e.periods < U32_LIMIT && e.maxMultiplier < U32_LIMIT
    && e.contractNum < U64_LIMIT && e.contractDen < U64_LIMIT
    && e.expandNum < U64_LIMIT && e.expandDen < U64_LIMIT
  }

  predicate ConfigFits(r: ConfigRow)
  {
    ElasticFits(r.cpu) && ElasticFits(r.net) && r.cpuWindow < U32_LIMIT && r.netWindow < U32_LIMIT
  }

  predicate ElasticMaterial(o: ElasticRow, c: ElasticRow)
  {
    o.target != c.target || o.max != c.max || o.contractNum != c.contractNum || o.contractDen != c.contractDen
    || o.expandNum != c.expandNum || o.expandDen != c.expandDen || o.periods != c.periods
       || o.maxMultiplier != c.maxMultiplier
  }

  predicate ConfigMaterial(o: ConfigRow, c: ConfigRow)
  {
    ElasticMaterial(o.cpu, c.cpu) || ElasticMaterial(o.net, c.net) || o.cpuWindow != c.cpuWindow
        || o.netWindow != c.netWindow
  }

  function ElasticFields(e: ElasticRow): seq<Field>
  {
    [(0, 1), (e.target, 8), (e.max, 8), (e.periods, 4), (e.maxMultiplier, 4),
     (0, 1), (e.contractNum, 8), (e.contractDen, 8), (0, 1), (e.expandNum, 8), (e.expandDen, 8)]
  }

  function ConfigFields(r: ConfigRow): seq<Field>
  {
    [(0, 1)] + ElasticFields(r.cpu) + ElasticFields(r.net) + [(r.cpuWindow, 4), (r.netWindow, 4)]
  }

  function SerConfig(r: ConfigRow): Bytes
  {
    Encode(ConfigFields(r))
  }

  lemma ConfigFieldsFit(r: ConfigRow)
    requires ConfigFits(r)
    ensures Fit(ConfigFields(r))
  {
    hide Pow256;
    Widths();
  }

  lemma ConfigWidths(o: ConfigRow, c: ConfigRow)
    ensures SameWidths(ConfigFields(o), ConfigFields(c))
  {
  }

  lemma ElasticParts(o: ElasticRow, c: ElasticRow)
    ensures ElasticFields(o) == ElasticFields(c) <==> !ElasticMaterial(o, c)
  {
    var a, b := ElasticFields(o), ElasticFields(c);
    if a == b {
      assert a[1] == b[1] && a[2] == b[2] && a[3] == b[3] && a[4] == b[4] && a[6] == b[6] && a[7] == b[7]
             && a[9] == b[9] && a[10] == b[10];
    }
  }

  lemma ConfigParts(o: ConfigRow, c: ConfigRow)
    requires ConfigFields(o) == ConfigFields(c)
    ensures ElasticFields(o.cpu) == ElasticFields(c.cpu) && ElasticFields(o.net) == ElasticFields(c.net)
    ensures o.cpuWindow == c.cpuWindow && o.netWindow == c.netWindow
  {
    var a, b := ConfigFields(o), ConfigFields(c);
    assert a[1..12] == ElasticFields(o.cpu) && b[1..12] == ElasticFields(c.cpu);
    assert a[12..23] == ElasticFields(o.net) && b[12..23] == ElasticFields(c.net);
    assert a[23] == b[23] && a[24] == b[24];
  }

  /** The configuration row serializes the same exactly when no parameter changed. */
  lemma ConfigExact(o: ConfigRow, c: ConfigRow)
    requires ConfigFits(o) && ConfigFits(c)
    ensures SerConfig(o) == SerConfig(c) <==> !ConfigMaterial(o, c)
  {
    hide Encode, Pow256, ElasticFields, ElasticMaterial;
    ConfigFieldsFit(o);
    ConfigFieldsFit(c);
    ConfigWidths(o, c);
    SameBytes(ConfigFields(o), ConfigFields(c));
    ElasticParts(o.cpu, c.cpu);
    ElasticParts(o.net, c.net);
    if ConfigFields(o) == ConfigFields(c) {
      ConfigParts(o, c);
    }
  }

  // ----- account metadata ---------------------------------------------------

  datatype MetaRow = MetaRow(name: nat, recvSequence: nat, authSequence: nat, lastCodeUpdate: int, codeHash: Bytes,
                             flags: nat, vmType: nat, vmVersion: nat)

  const HASH_SIZE: nat := 32

  predicate MetaFits(r: MetaRow)
  {
    r.name < U64_LIMIT && IsI64(r.lastCodeUpdate) && |r.codeHash| == HASH_SIZE && r.vmType < 256 && r.vmVersion < 256
  }

  predicate HasCode(r: MetaRow)
  {
    r.codeHash != seq(HASH_SIZE, i => 0)
  }

  predicate MetaMaterial(o: MetaRow, c: MetaRow)
  {
    o.name != c.name || o.flags % 2 != c.flags % 2 || o.lastCodeUpdate != c.lastCodeUpdate
    || o.vmType != c.vmType || o.vmVersion != c.vmVersion || o.codeHash != c.codeHash
  }

  function MetaFields(r: MetaRow): seq<Field>
  {
    [(0, 1), (r.name, 8), (r.flags % 2, 1), (Bits(r.lastCodeUpdate), 8), (if HasCode(r) then 1 else 0, 1)]
  }

  function CodeBytes(r: MetaRow): Bytes
  {
    if HasCode(r) then LE(r.vmType, 1) + LE(r.vmVersion, 1) + r.codeHash else []
  }

  function SerMeta(r: MetaRow): Bytes
  {
    Encode(MetaFields(r)) + CodeBytes(r)
  }

  lemma OneByte(n: nat)
    requires n < 256
    ensures LE(n, 1) == [n]
  {
    assert LE(n / 256, 0) == [];
  }

  lemma CodeExact(o: MetaRow, c: MetaRow)
    requires MetaFits(o) && MetaFits(c) && HasCode(o) && HasCode(c)
    ensures CodeBytes(o) == CodeBytes(c) <==>
            o.vmType == c.vmType && o.vmVersion == c.vmVersion && o.codeHash == c.codeHash
  {
    hide LE, HasCode;
    OneByte(o.vmType);
    OneByte(c.vmType);
    OneByte(o.vmVersion);
    OneByte(c.vmVersion);
    var a, b := CodeBytes(o), CodeBytes(c);
    assert a[0] == o.vmType && a[1] == o.vmVersion && a[2..] == o.codeHash;
    assert b[0] == c.vmType && b[1] == c.vmVersion && b[2..] == c.codeHash;
  }

  /** Only the virtual machine's numbers differ, of accounts without code. */
  predicate OnlyIdleVm(o: MetaRow, c: MetaRow)
  {
    o.name == c.name && o.flags % 2 == c.flags % 2 && o.lastCodeUpdate == c.lastCodeUpdate && !HasCode(o) && !HasCode(c)
  }

  /**
    An account's metadata serializes the same exactly when the rule drops the
    change, or when the change is to the virtual machine's numbers of an account
    without code: the rule emits that one although nothing a consumer sees changed.
   */
  lemma MetaExact(o: MetaRow, c: MetaRow)
    requires MetaFits(o) && MetaFits(c)
    ensures SerMeta(o) == SerMeta(c) <==> !MetaMaterial(o, c) || OnlyIdleVm(o, c)
  {
    hide Encode, Pow256, HasCode, CodeBytes;
    Widths();
    BitsExact(o.lastCodeUpdate, c.lastCodeUpdate);
    if SerMeta(o) == SerMeta(c) {
      EncodeInjective(MetaFields(o), MetaFields(c), CodeBytes(o), CodeBytes(c));
      SameList5(MetaFields(o), MetaFields(c));
    }
    if HasCode(o) && HasCode(c) {
      CodeExact(o, c);
    }
    NoCode(o);
    NoCode(c);
    if !MetaMaterial(o, c) {
      SameCode(o, c);
    }
  }

  lemma NoCode(r: MetaRow)
    ensures !HasCode(r) ==> CodeBytes(r) == [] && r.codeHash == seq(HASH_SIZE, i => 0)
  {
  }

  lemma SameCode(o: MetaRow, c: MetaRow)
    requires o.codeHash == c.codeHash && o.vmType == c.vmType && o.vmVersion == c.vmVersion
    ensures HasCode(o) == HasCode(c) && CodeBytes(o) == CodeBytes(c)
  {
  }

  /** Such a change: any account without code whose machine's numbers are set, and nothing else. */
  lemma IdleVmIsEmitted(o: MetaRow, vmType: nat, vmVersion: nat)
    requires MetaFits(o) && !HasCode(o) && vmType < 256 && vmVersion < 256
    requires vmType != o.vmType || vmVersion != o.vmVersion
    ensures var c := o.(vmType := vmType, vmVersion := vmVersion);
            MetaFits(c) && MetaMaterial(o, c) && SerMeta(o) == SerMeta(c)
  {
    hide Encode, Pow256;
    MetaExact(o, o.(vmType := vmType, vmVersion := vmVersion));
  }

  // ----- code ---------------------------------------------------------------

  datatype CodeRow = CodeRow(vmType: nat, vmVersion: nat, codeHash: Bytes, code: BlobRef, references: nat)

  predicate CodeFits(r: CodeRow)
  {
    r.vmType < 256 && r.vmVersion < 256 && |r.codeHash| == HASH_SIZE
  }

  /** A number in groups of seven bits, least first, each but the last marked. */
  function Uvar(n: nat): Bytes
  {
    if n < 128 then [n] else [n % 128 + 128] + Uvar(n / 128)
  }

  function Packed(b: Bytes): Bytes
  {
    Uvar(|b|) + b
  }

  function BytesAt(blobs: Blobs, r: BlobRef): Bytes
  {
    if r in blobs then blobs[r] else []
  }

  function SerCode(r: CodeRow, blobs: Blobs): Bytes
  {
    Encode([(0, 1), (r.vmType, 1), (r.vmVersion, 1)]) + (r.codeHash + Packed(BytesAt(blobs, r.code)))
  }

  lemma FirstByte(h: Byte, u: Bytes, x: Bytes)
    ensures (([h] + u) + x)[0] == h && (([h] + u) + x)[1..] == u + x
  {
  }

  lemma UvarHead(n: nat, x: Bytes)
    ensures var s := Uvar(n) + x;
            && |s| > 0 && s[0] == (if n < 128 then n else n % 128 + 128)
            && s[1..] == if n < 128 then x else Uvar(n / 128) + x
  {
    if n < 128 {
      FirstByte(n, [], x);
      assert [n] + [] == Uvar(n) && [] + x == x;
    } else {
      FirstByte(n % 128 + 128, Uvar(n / 128), x);
    }
  }

  lemma {:induction false} UvarInjective(a: nat, b: nat, x: Bytes, y: Bytes)
    requires Uvar(a) + x == Uvar(b) + y
    ensures a == b && x == y
    decreases a
  {
    hide Uvar;
    UvarHead(a, x);
    UvarHead(b, y);
    if a >= 128 {
      UvarInjective(a / 128, b / 128, x, y);
    }
  }

  lemma PackedInjective(a: Bytes, b: Bytes)
    ensures Packed(a) == Packed(b) <==> a == b
  {
    hide Uvar;
    if Packed(a) == Packed(b) {
      UvarInjective(|a|, |b|, a, b);
    }
  }

  /** A code row serializes the same exactly when its machine, its hash and its code are the same. */
  lemma CodeRowExact(o: CodeRow, before: Blobs, c: CodeRow, after: Blobs)
    requires CodeFits(o) && CodeFits(c)
    ensures SerCode(o, before) == SerCode(c, after) <==> SameCodeRow(o, before, c, after)
  {
    hide Encode, Pow256, Packed;
    Widths();
    var a, b := [(0, 1), (o.vmType, 1), (o.vmVersion, 1)], [(0, 1), (c.vmType, 1), (c.vmVersion, 1)];
    var x, y := Packed(BytesAt(before, o.code)), Packed(BytesAt(after, c.code));
    PackedInjective(BytesAt(before, o.code), BytesAt(after, c.code));
    if SerCode(o, before) == SerCode(c, after) {
      EncodeInjective(a, b, o.codeHash + x, c.codeHash + y);
      assert a[1] == b[1] && a[2] == b[2];
      HeadsEqual(o.codeHash, x, c.codeHash, y);
    }
  }

  predicate SameCodeRow(o: CodeRow, before: Blobs, c: CodeRow, after: Blobs)
  {
    o.vmType == c.vmType && o.vmVersion == c.vmVersion && o.codeHash == c.codeHash
        && BytesAt(before, o.code) == BytesAt(after, c.code)
  }
}
