/**
  What contract rows an account pays for, counted directly and counted per table:
  the two inventories agree in every store whose rows all belong to live tables.
 */
module RamInventory {
  import opened ArenaTypes
  import opened ContractTables

  datatype Inventory = Inventory(tables: nat, kvRows: nat, kvBytes: nat, idx64: nat, idx128: nat, idx256: nat,
                                 idxDouble: nat, idxLongDouble: nat)

  const USIZE_LIMIT: nat := 0x1_0000_0000_0000_0000

  const NOTHING := Inventory(0, 0, 0, 0, 0, 0, 0, 0)
  const ONE_TABLE := Inventory(1, 0, 0, 0, 0, 0, 0, 0)

  function Plus(a: Inventory, b: Inventory): Inventory
  {
    Inventory(a.tables + b.tables, a.kvRows + b.kvRows, a.kvBytes + b.kvBytes, a.idx64 + b.idx64, a.idx128 + b.idx128,
              a.idx256 + b.idx256, a.idxDouble + b.idxDouble, a.idxLongDouble + b.idxLongDouble)
  }

  /** What one child row counts as. */
  function OneRow(kind: Kind, c: Child): Inventory
  {
    match kind
    case KeyValue => NOTHING.(kvRows := 1, kvBytes := c.size)
    case Idx64 => NOTHING.(idx64 := 1)
    case Idx128 => NOTHING.(idx128 := 1)
    case Idx256 => NOTHING.(idx256 := 1)
    case IdxDouble => NOTHING.(idxDouble := 1)
    case IdxLongDouble => NOTHING.(idxLongDouble := 1)
  }

  lemma PlusSwaps(a: Inventory, b: Inventory, c: Inventory)
    ensures Plus(a, Plus(b, c)) == Plus(b, Plus(a, c))
    ensures Plus(Plus(a, b), c) == Plus(a, Plus(b, c))
    ensures Plus(a, NOTHING) == a && Plus(NOTHING, a) == a && Plus(a, b) == Plus(b, a)
  {
  }

  /** The sum of what the entries of a map count as. */
  ghost function Total<K(!new), V(!new)>(m: map<K, V>, unit: (K, V) -> Inventory): Inventory
    decreases |m|
  {
    if k: K :| k in m then Plus(unit(k, m[k]), Total(m - {k}, unit)) else NOTHING
  }

  lemma {:induction false} TotalWithout<K(!new), V(!new)>(m: map<K, V>, unit: (K, V) -> Inventory, k: K)
    requires k in m
    ensures Total(m, unit) == Plus(unit(k, m[k]), Total(m - {k}, unit))
    decreases |m|
  {
    hide Plus;
    var first: K :| first in m && Total(m, unit) == Plus(unit(first, m[first]), Total(m - {first}, unit));
    if first != k {
      TotalWithout(m - {first}, unit, k);
      TotalWithout(m - {k}, unit, first);
      assert (m - {first}) - {k} == (m - {k}) - {first};
      PlusSwaps(unit(first, m[first]), unit(k, m[k]), Total(m - {first} - {k}, unit));
    }
  }

  /** A new entry adds what it counts as. */
  lemma TotalGrows<K(!new), V(!new)>(m: map<K, V>, unit: (K, V) -> Inventory, k: K, v: V)
    requires k !in m
    ensures Total(m[k := v], unit) == Plus(Total(m, unit), unit(k, v))
  {
    hide Plus, Total;
    TotalWithout(m[k := v], unit, k);
    assert m[k := v] - {k} == m;
    PlusSwaps(unit(k, v), Total(m, unit), NOTHING);
  }

  /** Every counter fits the width it is counted in. */
  predicate Fits(i: Inventory)
  {
    && i.tables < USIZE_LIMIT && i.kvRows < USIZE_LIMIT && i.kvBytes < USIZE_LIMIT && i.idx64 < USIZE_LIMIT
       && i.idx128 < USIZE_LIMIT
    && i.idx256 < USIZE_LIMIT && i.idxDouble < USIZE_LIMIT && i.idxLongDouble < USIZE_LIMIT
  }

  lemma FitsPart(a: Inventory, b: Inventory)
    ensures Fits(Plus(a, b)) ==> Fits(a) && Fits(b)
  {
  }

  // ----- what an account pays for -------------------------------------------

  /** Whether a payer is looked at: one account, or all of them. */
  predicate Asked(who: Option<nat>, payer: nat)
  {
    who.None? || who.value == payer
  }

  function TableUnits(who: Option<nat>): (int, TableRow) -> Inventory
  {
    (id, row) => TableUnit(row, who)
  }

  function TableUnit(row: TableRow, who: Option<nat>): Inventory
  {
    if Asked(who, row.payer) then ONE_TABLE else NOTHING
  }

  function RowUnits(who: Option<nat>): (ChildKey, Child) -> Inventory
  {
    (k, c) => RowUnit(k, c, who)
  }

  function RowUnit(k: ChildKey, c: Child, who: Option<nat>): Inventory
  {
    if Asked(who, c.payer) then OneRow(k.kind, c) else NOTHING
  }

  ghost function TablesPaid(tables: TableRows, who: Option<nat>): Inventory
  {
    Total(tables, TableUnits(who))
  }

  ghost function RowsPaid(children: ChildRows, who: Option<nat>): Inventory
  {
    Total(children, RowUnits(who))
  }

  /** The live tables and rows that are paid for, added up. */
  ghost function Paid(tables: TableRows, children: ChildRows, who: Option<nat>): Inventory
  {
    Plus(TablesPaid(tables, who), RowsPaid(children, who))
  }

  lemma TableNext(done: TableRows, id: int, row: TableRow, who: Option<nat>)
    requires id !in done
    ensures TablesPaid(done[id := row], who) == Plus(TablesPaid(done, who), TableUnit(row, who))
  {
    hide Total, Plus;
    TotalGrows(done, TableUnits(who), id, row);
  }

  lemma RowNext(done: ChildRows, k: ChildKey, c: Child, who: Option<nat>)
    requires k !in done
    ensures RowsPaid(done[k := c], who) == Plus(RowsPaid(done, who), RowUnit(k, c, who))
  {
    hide Total, Plus;
    TotalGrows(done, RowUnits(who), k, c);
  }

  lemma NothingPaid(who: Option<nat>)
    ensures TablesPaid(map[], who) == NOTHING && RowsPaid(map[], who) == NOTHING
  {
  }

  /** `done` is the part of `all` outside `rest`. */
  ghost predicate Split<K(!new), V(!new)>(all: map<K, V>, done: map<K, V>, rest: map<K, V>)
  {
    && (forall k :: k in all <==> k in done || k in rest)
    && (forall k :: k in done ==> k !in rest && all[k] == done[k])
    && (forall k :: k in rest ==> all[k] == rest[k])
  }

  lemma SplitNext<K(!new), V(!new)>(all: map<K, V>, done: map<K, V>, rest: map<K, V>, k: K)
    requires Split(all, done, rest) && k in rest
    ensures Split(all, done[k := rest[k]], rest - {k}) && k !in done && k in all && all[k] == rest[k]
  {
  }

  lemma SplitDone<K(!new), V(!new)>(all: map<K, V>, done: map<K, V>, rest: map<K, V>)
    requires Split(all, done, rest) && forall k :: k !in rest
    ensures done == all
  {
  }

  lemma SplitStart<K(!new), V(!new)>(all: map<K, V>)
    ensures Split(all, map[], all)
  {
  }

  /** Counts the account's tables, then its rows of every kind; it fails exactly when a counter does not fit. */
  method DirectInventory(tables: TableRows, children: ChildRows, account: nat) returns (inventory: Option<Inventory>)
    ensures inventory == if Fits(Paid(tables, children, Some(account))) then Some(Paid(tables, children, Some(account)))
            else None
  {
    hide Plus, TablesPaid, RowsPaid, Split, OneRow, Fits;
    var who := Some(account);
    var sum := NOTHING;
    NothingPaid(who);
    NothingFits();
    var left := tables;
    ghost var doneTables: TableRows := map[];
    SplitStart(tables);
    while exists id :: id in left
      invariant Split(tables, doneTables, left) && sum == TablesPaid(doneTables, who) && Fits(sum)
      decreases |left|
    {
      var id :| id in left;
      SplitNext(tables, doneTables, left, id);
      TableNext(doneTables, id, left[id], who);
      PlusSwaps(sum, NOTHING, NOTHING);
      if left[id].payer == account {
        sum := Plus(sum, ONE_TABLE);
        if !Fits(sum) {
          TooManyTables(tables, children, doneTables[id := left[id]], left - {id}, who);
          return None;
        }
      }
      doneTables := doneTables[id := left[id]];
      left := left - {id};
    }
    SplitDone(tables, doneTables, left);
    var rest := children;
    ghost var done: ChildRows := map[];
    SplitStart(children);
    PlusSwaps(sum, NOTHING, NOTHING);
    while exists k :: k in rest
      invariant Split(children, done, rest) && sum == Plus(TablesPaid(tables, who), RowsPaid(done, who)) && Fits(sum)
      decreases |rest|
    {
      var k :| k in rest;
      SplitNext(children, done, rest, k);
      RowNext(done, k, rest[k], who);
      PlusSwaps(TablesPaid(tables, who), RowsPaid(done, who), RowUnit(k, rest[k], who));
      PlusSwaps(sum, NOTHING, NOTHING);
      if rest[k].payer == account {
        sum := Plus(sum, OneRow(k.kind, rest[k]));
        if !Fits(sum) {
          TooManyRows(tables, children, done[k := rest[k]], rest - {k}, who);
          return None;
        }
      }
      done := done[k := rest[k]];
      rest := rest - {k};
    }
    SplitDone(children, done, rest);
    return Some(sum);
  }

  lemma NothingFits()
    ensures Fits(NOTHING)
  {
  }

  /** A part of a map counts as no more than the map. */
  lemma {:induction false} TotalOfPart<K(!new), V(!new)>(all: map<K, V>, done: map<K, V>, rest: map<K, V>,
                                                         unit: (K, V) -> Inventory)
    requires Split(all, done, rest)
    ensures Total(all, unit) == Plus(Total(done, unit), Total(rest, unit))
    decreases |rest|
  {
    hide Plus, Total;
    if k: K :| k in rest {
      SplitNext(all, done, rest, k);
      TotalOfPart(all, done[k := rest[k]], rest - {k}, unit);
      TotalGrows(done, unit, k, rest[k]);
      TotalWithout(rest, unit, k);
      PlusSwaps(Total(done, unit), unit(k, rest[k]), Total(rest - {k}, unit));
    } else {
      SplitDone(all, done, rest);
      TotalOfNone(rest, unit);
      PlusSwaps(Total(done, unit), NOTHING, NOTHING);
    }
  }

  lemma TotalOfNone<K(!new), V(!new)>(m: map<K, V>, unit: (K, V) -> Inventory)
    requires forall k :: k !in m
    ensures Total(m, unit) == NOTHING
  {
  }

  lemma TooManyTables(tables: TableRows, children: ChildRows, done: TableRows, left: TableRows, who: Option<nat>)
    requires Split(tables, done, left) && !Fits(TablesPaid(done, who))
    ensures !Fits(Paid(tables, children, who))
  {
    hide Plus, Total, Fits;
    TotalOfPart(tables, done, left, TableUnits(who));
    FitsPart(TablesPaid(done, who), Total(left, TableUnits(who)));
    FitsPart(TablesPaid(tables, who), RowsPaid(children, who));
  }

  lemma TooManyRows(tables: TableRows, children: ChildRows, done: ChildRows, rest: ChildRows, who: Option<nat>)
    requires Split(children, done, rest) && !Fits(Paid(tables, done, who))
    ensures !Fits(Paid(tables, children, who))
  {
    hide Plus, Total, Fits;
    TotalOfPart(children, done, rest, RowUnits(who));
    var x, y, z := TablesPaid(tables, who), RowsPaid(done, who), Total(rest, RowUnits(who));
    PlusSwaps(x, y, z);
    FitsPart(Plus(x, y), z);
  }

  // ----- what the counts mean -----------------------------------------------

  function RowsOf(i: Inventory, kind: Kind): nat
  {
    match kind
    case KeyValue => i.kvRows
    case Idx64 => i.idx64
    case Idx128 => i.idx128
    case Idx256 => i.idx256
    case IdxDouble => i.idxDouble
    case IdxLongDouble => i.idxLongDouble
  }

  ghost function PaidRows(children: ChildRows, who: Option<nat>, kind: Kind): set<ChildKey>
  {
    set k | k in children && Asked(who, children[k].payer) && k.kind == kind
  }

  ghost function PaidTables(tables: TableRows, who: Option<nat>): set<int>
  {
    set id | id in tables && Asked(who, tables[id].payer)
  }

  lemma PaidRowsGrow(done: ChildRows, k: ChildKey, c: Child, who: Option<nat>, kind: Kind)
    requires k !in done
    ensures k !in PaidRows(done, who, kind)
    ensures var paid := Asked(who, c.payer) && k.kind == kind;
            PaidRows(done[k := c], who, kind) == PaidRows(done, who, kind) + if paid then {k} else {}
  {
    hide Asked;
  }

  lemma PaidRowsNext(done: ChildRows, k: ChildKey, c: Child, who: Option<nat>, kind: Kind)
    requires k !in done
    ensures |PaidRows(done[k := c], who, kind)| == |PaidRows(done, who, kind)| +
            if Asked(who, c.payer) && k.kind == kind then 1 else 0
  {
    hide Asked, PaidRows;
    PaidRowsGrow(done, k, c, who, kind);
    if !(Asked(who, c.payer) && k.kind == kind) {
      assert PaidRows(done, who, kind) + {} == PaidRows(done, who, kind);
    }
  }

  lemma AddedRow(i: Inventory, k: ChildKey, c: Child, who: Option<nat>, kind: Kind)
    ensures RowsOf(Plus(i, RowUnit(k, c, who)), kind) == RowsOf(i, kind) +
            if Asked(who, c.payer) && k.kind == kind then 1 else 0
  {
  }

  lemma Recombine<K(!new), V(!new)>(m: map<K, V>, k: K)
    requires k in m
    ensures m == (m - {k})[k := m[k]] && |m - {k}| < |m|
  {
    assert m == (m - {k})[k := m[k]];
    assert m.Keys == (m - {k}).Keys + {k};
  }

  lemma NoneLeft(m: ChildRows)
    requires forall k: ChildKey :: k !in m
    ensures m == map[]
  {
    assert m.Keys == {};
  }

  lemma NoTableLeft(m: TableRows)
    requires forall id: int :: id !in m
    ensures m == map[]
  {
    forall id: int ensures id !in m.Keys {
    }
    assert m.Keys == {};
  }

  /** For each kind the inventory counts the live rows of that kind that are paid for. */
  lemma {:induction false} RowsCounted(children: ChildRows, who: Option<nat>, kind: Kind)
    ensures RowsOf(RowsPaid(children, who), kind) == |PaidRows(children, who, kind)|
    decreases |children|
  {
    hide RowsPaid, PaidRows, Plus, RowsOf, RowUnit;
    if k: ChildKey :| k in children {
      var rest, c := children - {k}, children[k];
      Recombine(children, k);
      RowsCounted(rest, who, kind);
      RowNext(rest, k, c, who);
      PaidRowsNext(rest, k, c, who, kind);
      AddedRow(RowsPaid(rest, who), k, c, who, kind);
    } else {
      NoneLeft(children);
      NoRows(who, kind);
    }
  }

  lemma NoRows(who: Option<nat>, kind: Kind)
    ensures RowsOf(RowsPaid(map[], who), kind) == 0 && |PaidRows(map[], who, kind)| == 0
  {
    NothingPaid(who);
    assert PaidRows(map[], who, kind) == {};
  }

  /** The value bytes of some rows, added up. */
  ghost function SizeOf(children: ChildRows, keys: set<ChildKey>): nat
    requires keys <= children.Keys
    decreases |keys|
  {
    if k: ChildKey :| k in keys then children[k].size + SizeOf(children, keys - {k}) else 0
  }

  lemma {:induction false} SizeWithout(children: ChildRows, keys: set<ChildKey>, k: ChildKey)
    requires keys <= children.Keys && k in keys
    ensures SizeOf(children, keys) == children[k].size + SizeOf(children, keys - {k})
    decreases |keys|
  {
    var first: ChildKey :| first in keys && SizeOf(children, keys) == children[first].size
        + SizeOf(children, keys - {first});
    if first != k {
      SizeWithout(children, keys - {first}, k);
      SizeWithout(children, keys - {k}, first);
      assert keys - {first} - {k} == keys - {k} - {first};
    }
  }

  lemma {:induction false} SizeElsewhere(children: ChildRows, keys: set<ChildKey>, k: ChildKey, c: Child)
    requires keys <= children.Keys && k !in keys
    ensures keys <= children[k := c].Keys && SizeOf(children[k := c], keys) == SizeOf(children, keys)
    decreases |keys|
  {
    if first: ChildKey :| first in keys {
      SizeWithout(children, keys, first);
      SizeWithout(children[k := c], keys, first);
      SizeElsewhere(children, keys - {first}, k, c);
    }
  }

  /** The inventory's value bytes are those of the key-value rows that are paid for. */
  lemma {:induction false} BytesCounted(children: ChildRows, who: Option<nat>)
    ensures PaidRows(children, who, KeyValue) <= children.Keys
    ensures RowsPaid(children, who).kvBytes == SizeOf(children, PaidRows(children, who, KeyValue))
    decreases |children|
  {
    hide RowsPaid, Asked, SizeOf;
    PaidAreRows(children, who);
    if k: ChildKey :| k in children {
      var rest, c := children - {k}, children[k];
      Recombine(children, k);
      BytesCounted(rest, who);
      RowNext(rest, k, c, who);
      PaidRowsGrow(rest, k, c, who, KeyValue);
      var before, after := PaidRows(rest, who, KeyValue), PaidRows(children, who, KeyValue);
      SizeElsewhere(rest, before, k, c);
      if Asked(who, c.payer) && k.kind == KeyValue {
        assert after - {k} == before;
        SizeWithout(children, after, k);
      } else {
        assert after == before;
      }
    } else {
      NoneLeft(children);
      NothingPaid(who);
      NothingSized(children, PaidRows(children, who, KeyValue));
    }
  }

  lemma PaidAreRows(children: ChildRows, who: Option<nat>)
    ensures PaidRows(children, who, KeyValue) <= children.Keys
  {
    hide Asked;
  }

  lemma NothingSized(children: ChildRows, keys: set<ChildKey>)
    requires keys <= children.Keys && children == map[]
    ensures SizeOf(children, keys) == 0
  {
  }

  lemma PaidTablesNext(done: TableRows, id: int, row: TableRow, who: Option<nat>)
    requires id !in done
    ensures |PaidTables(done[id := row], who)| == |PaidTables(done, who)| + if Asked(who, row.payer) then 1 else 0
  {
    var before, after := PaidTables(done, who), PaidTables(done[id := row], who);
    if Asked(who, row.payer) {
      assert after == before + {id};
    } else {
      assert after == before;
    }
  }

  /** The inventory counts the live tables that are paid for. */
  lemma {:induction false} TablesCounted(tables: TableRows, who: Option<nat>)
    ensures TablesPaid(tables, who) == NOTHING.(tables := |PaidTables(tables, who)|)
    decreases |tables|
  {
    hide TablesPaid, PaidTables;
    if id: int :| id in tables {
      var rest, row := tables - {id}, tables[id];
      Recombine(tables, id);
      TablesCounted(rest, who);
      TableNext(rest, id, row, who);
      PaidTablesNext(rest, id, row, who);
    } else {
      NoTableLeft(tables);
      NoTables(who);
    }
  }

  lemma NoTables(who: Option<nat>)
    ensures TablesPaid(map[], who) == NOTHING && |PaidTables(map[], who)| == 0
  {
    NothingPaid(who);
    assert PaidTables(map[], who) == {};
  }

  // ----- grouped by table and payer -----------------------------------------

  type Groups = map<(int, nat), Inventory>

  /** The groups with `more` added to one of them. */
  function Entry(groups: Groups, g: (int, nat), more: Inventory): Groups
  {
    groups[g := if g in groups then Plus(groups[g], more) else Plus(NOTHING, more)]
  }

  function Whole(): ((int, nat), Inventory) -> Inventory
  {
    (g, i) => i
  }

  /** All groups together. */
  ghost function Sum(groups: Groups): Inventory
  {
    Total(groups, Whole())
  }

  lemma EntryAdds(groups: Groups, g: (int, nat), more: Inventory)
    ensures Sum(Entry(groups, g, more)) == Plus(Sum(groups), more)
  {
    hide Total, Plus;
    var after := Entry(groups, g, more);
    TotalWithout(after, Whole(), g);
    var rest := Total(groups - {g}, Whole());
    assert after - {g} == groups - {g};
    if g in groups {
      TotalWithout(groups, Whole(), g);
      PlusSwaps(groups[g], more, rest);
      PlusSwaps(groups[g], rest, more);
      PlusSwaps(more, rest, NOTHING);
    } else {
      assert groups - {g} == groups;
      PlusSwaps(more, rest, NOTHING);
    }
  }

  /** Every row that is looked at belongs to a live table. */
  ghost predicate AllHome(tables: TableRows, children: ChildRows, who: Option<nat>)
  {
    forall k :: k in children && Asked(who, children[k].payer) ==> k.tableId in tables
  }

  ghost function TablePart(tables: TableRows, id: int): TableRows
  {
    map i | i in tables && i == id :: tables[i]
  }

  ghost function RowPart(children: ChildRows, id: int): ChildRows
  {
    map k | k in children && k.tableId == id :: children[k]
  }

  function At(groups: Groups, g: (int, nat)): Inventory
  {
    if g in groups then groups[g] else NOTHING
  }

  /** What a payer pays for in one table, if the payer is looked at. */
  ghost function PaidIn(tables: TableRows, children: ChildRows, who: Option<nat>, id: int, payer: nat): Inventory
  {
    if Asked(who, payer) then Paid(TablePart(tables, id), RowPart(children, id), Some(payer)) else NOTHING
  }

  /** Each group is what its payer pays for in its table. */
  ghost predicate GroupsExact(groups: Groups, tables: TableRows, children: ChildRows, who: Option<nat>)
  {
    forall id: int, payer: nat :: At(groups, (id, payer)) == PaidIn(tables, children, who, id, payer)
  }

  lemma GroupsExactStart(who: Option<nat>)
    ensures GroupsExact(map[], map[], map[], who)
  {
    hide Plus, TablesPaid, RowsPaid;
    forall id: int, payer: nat ensures At(map[], (id, payer)) == PaidIn(map[], map[], who, id, payer) {
      NothingPaid(Some(payer));
      assert TablePart(map[], id) == map[];
      assert RowPart(map[], id) == map[];
      PlusSwaps(NOTHING, NOTHING, NOTHING);
    }
  }

  lemma TableInGroup(tables: TableRows, who: Option<nat>, id: int, row: TableRow, i: int, payer: nat)
    requires id !in tables
    ensures PaidIn(tables[id := row], map[], who, i, payer) ==
            if i == id && payer == row.payer && Asked(who, payer)
            then Plus(PaidIn(tables, map[], who, i, payer), ONE_TABLE)
            else PaidIn(tables, map[], who, i, payer)
  {
    hide Plus, TablesPaid, RowsPaid;
    var part, none := TablePart(tables, i), RowPart(map[], i);
    var x, y, u := TablesPaid(part, Some(payer)), RowsPaid(none, Some(payer)), TableUnit(row, Some(payer));
    if i == id {
      assert TablePart(tables[id := row], i) == part[id := row];
      TableNext(part, id, row, Some(payer));
      PlusSwaps(x, y, u);
      PlusSwaps(x, u, y);
      PlusSwaps(u, y, NOTHING);
      PlusSwaps(x, NOTHING, y);
    } else {
      assert TablePart(tables[id := row], i) == part;
    }
  }

  lemma RowInGroup(tables: TableRows, children: ChildRows, who: Option<nat>, k: ChildKey, c: Child, i: int, payer: nat)
    requires k !in children
    ensures PaidIn(tables, children[k := c], who, i, payer) ==
            if i == k.tableId && payer == c.payer && Asked(who, payer)
            then Plus(PaidIn(tables, children, who, i, payer), OneRow(k.kind, c))
            else PaidIn(tables, children, who, i, payer)
  {
    hide Plus, TablesPaid, RowsPaid, OneRow;
    var own, part := TablePart(tables, i), RowPart(children, i);
    var x, y, u := TablesPaid(own, Some(payer)), RowsPaid(part, Some(payer)), RowUnit(k, c, Some(payer));
    if i == k.tableId {
      assert RowPart(children[k := c], i) == part[k := c];
      RowNext(part, k, c, Some(payer));
      PlusSwaps(x, y, u);
      PlusSwaps(y, NOTHING, NOTHING);
    } else {
      assert RowPart(children[k := c], i) == part;
    }
  }

  lemma EntryAt(groups: Groups, g: (int, nat), more: Inventory, h: (int, nat))
    ensures At(Entry(groups, g, more), h) == if h == g then Plus(At(groups, g), more) else At(groups, h)
  {
  }

  lemma GroupsExactTable(groups: Groups, tables: TableRows, who: Option<nat>, id: int, row: TableRow)
    requires GroupsExact(groups, tables, map[], who) && id !in tables
    ensures GroupsExact(if Asked(who, row.payer) then Entry(groups, (id, row.payer), ONE_TABLE)
                        else groups, tables[id := row], map[], who)
  {
    hide Plus, PaidIn, Entry, At;
    var groups' := if Asked(who, row.payer) then Entry(groups, (id, row.payer), ONE_TABLE) else groups;
    forall i: int, payer: nat ensures At(groups', (i, payer)) == PaidIn(tables[id := row], map[], who, i, payer) {
      TableInGroup(tables, who, id, row, i, payer);
      EntryAt(groups, (id, row.payer), ONE_TABLE, (i, payer));
    }
  }

  lemma GroupsExactRow(groups: Groups, tables: TableRows, children: ChildRows, who: Option<nat>, k: ChildKey, c: Child)
    requires GroupsExact(groups, tables, children, who) && k !in children
    ensures GroupsExact(if Asked(who, c.payer) then Entry(groups, (k.tableId, c.payer), OneRow(k.kind, c))
                        else groups, tables, children[k := c], who)
  {
    hide Plus, PaidIn, Entry, At, OneRow;
    var groups' := if Asked(who, c.payer) then Entry(groups, (k.tableId, c.payer), OneRow(k.kind, c)) else groups;
    forall i: int, payer: nat ensures At(groups', (i, payer)) == PaidIn(tables, children[k := c], who, i, payer) {
      RowInGroup(tables, children, who, k, c, i, payer);
      EntryAt(groups, (k.tableId, c.payer), OneRow(k.kind, c), (i, payer));
    }
  }

  /** No payer's counters for any table leave their width. */
  ghost predicate AllFit(tables: TableRows, children: ChildRows, who: Option<nat>)
  {
    forall id: int, payer: nat :: Fits(PaidIn(tables, children, who, id, payer))
  }

  lemma {:induction false} TableGroupGrows(tables: TableRows, done: TableRows, left: TableRows, who: Option<nat>,
                                           id: int, payer: nat)
    requires Split(tables, done, left) && !Fits(PaidIn(done, map[], who, id, payer))
    ensures !Fits(PaidIn(tables, map[], who, id, payer))
    decreases |left|
  {
    hide Plus, PaidIn, Fits;
    if k: int :| k in left {
      SplitNext(tables, done, left, k);
      TableInGroup(done, who, k, left[k], id, payer);
      FitsPart(PaidIn(done, map[], who, id, payer), ONE_TABLE);
      TableGroupGrows(tables, done[k := left[k]], left - {k}, who, id, payer);
    } else {
      forall k: int ensures k !in left {
      }
      SplitDone(tables, done, left);
    }
  }

  lemma {:induction false} RowGroupGrows(tables: TableRows, children: ChildRows, done: ChildRows, rest: ChildRows,
                                         who: Option<nat>, id: int, payer: nat)
    requires Split(children, done, rest) && !Fits(PaidIn(tables, done, who, id, payer))
    ensures !Fits(PaidIn(tables, children, who, id, payer))
    decreases |rest|
  {
    hide Plus, PaidIn, Fits, OneRow;
    if k: ChildKey :| k in rest {
      SplitNext(children, done, rest, k);
      RowInGroup(tables, done, who, k, rest[k], id, payer);
      FitsPart(PaidIn(tables, done, who, id, payer), OneRow(k.kind, rest[k]));
      RowGroupGrows(tables, children, done[k := rest[k]], rest - {k}, who, id, payer);
    } else {
      SplitDone(children, done, rest);
    }
  }

  lemma TableOverflows(tables: TableRows, children: ChildRows, done: TableRows, left: TableRows, groups: Groups,
                       who: Option<nat>, g: (int, nat))
    requires Split(tables, done, left) && GroupsExact(groups, done, map[], who) && !Fits(At(groups, g))
    ensures !AllFit(tables, children, who)
  {
    hide Plus, PaidIn, Fits, Split, At;
    TableGroupGrows(tables, done, left, who, g.0, g.1);
    SplitStart(children);
    RowGroupGrows(tables, children, map[], children, who, g.0, g.1);
  }

  lemma RowOverflows(tables: TableRows, children: ChildRows, done: ChildRows, rest: ChildRows, groups: Groups,
                     who: Option<nat>, g: (int, nat))
    requires Split(children, done, rest) && GroupsExact(groups, tables, done, who) && !Fits(At(groups, g))
    ensures !AllFit(tables, children, who)
  {
    hide Plus, PaidIn, Fits, Split, At;
    RowGroupGrows(tables, children, done, rest, who, g.0, g.1);
  }

  /** Every group so far fits. */
  ghost predicate GroupsFit(groups: Groups)
  {
    forall g :: g in groups ==> Fits(groups[g])
  }

  lemma FittingGroups(groups: Groups, tables: TableRows, children: ChildRows, who: Option<nat>)
    requires GroupsExact(groups, tables, children, who) && GroupsFit(groups)
    ensures AllFit(tables, children, who)
  {
    hide PaidIn, Fits;
    NothingFits();
    forall id: int, payer: nat ensures Fits(PaidIn(tables, children, who, id, payer)) {
      assert At(groups, (id, payer)) == PaidIn(tables, children, who, id, payer);
    }
  }

  lemma EntryFits(groups: Groups, g: (int, nat), more: Inventory)
    requires GroupsFit(groups) && Fits(At(Entry(groups, g, more), g))
    ensures GroupsFit(Entry(groups, g, more))
  {
    hide Fits, Plus;
  }

  /** Groups the tables of the payers that are looked at. */
  method GroupTables(tables: TableRows, who: Option<nat>, ghost children: ChildRows) returns (found: Option<Groups>)
    ensures found.None? ==> !AllFit(tables, children, who)
    ensures found.Some? ==>
            && Sum(found.value) == TablesPaid(tables, who) && GroupsExact(found.value, tables, map[], who)
            && GroupsFit(found.value)
    ensures found.Some? ==> forall g :: g in found.value ==> g.0 in tables && Asked(who, g.1)
  {
    hide Plus, TablesPaid, RowsPaid, Split, OneRow, GroupsExact, Entry, Sum, At, Fits, AllFit, GroupsFit;
    var groups: Groups := map[];
    NothingPaid(who);
    NoGroups();
    GroupsExactStart(who);
    var left := tables;
    ghost var done: TableRows := map[];
    SplitStart(tables);
    while exists id :: id in left
      invariant Split(tables, done, left) && Sum(groups) == TablesPaid(done, who)
      invariant forall g :: g in groups ==> g.0 in tables && Asked(who, g.1)
      invariant GroupsExact(groups, done, map[], who) && GroupsFit(groups)
      decreases |left|
    {
      var id :| id in left;
      SplitNext(tables, done, left, id);
      TableNext(done, id, left[id], who);
      GroupsExactTable(groups, done, who, id, left[id]);
      PlusSwaps(Sum(groups), NOTHING, NOTHING);
      if Asked(who, left[id].payer) {
        var g := (id, left[id].payer);
        EntryAdds(groups, g, ONE_TABLE);
        EntryKeys(groups, g, ONE_TABLE);
        var more := Entry(groups, g, ONE_TABLE);
        if !Fits(At(more, g)) {
          TableOverflows(tables, children, done[id := left[id]], left - {id}, more, who, g);
          return None;
        }
        EntryFits(groups, g, ONE_TABLE);
        groups := more;
      }
      done := done[id := left[id]];
      left := left - {id};
    }
    SplitDone(tables, done, left);
    return Some(groups);
  }

  /**
    Groups tables and rows by table and payer, for one payer or for all. It fails
    exactly when a row that is looked at has no table or a counter does not fit;
    otherwise each group is what its payer pays for in its table, and the groups
    add up to the whole.
   */
  method GroupedInventory(tables: TableRows, children: ChildRows, who: Option<nat>) returns (groups: Option<Groups>)
    ensures groups.Some? <==> AllHome(tables, children, who) && AllFit(tables, children, who)
    ensures groups.Some? ==> Sum(groups.value) == Paid(tables, children, who)
    ensures groups.Some? ==> GroupsExact(groups.value, tables, children, who)
    ensures groups.Some? ==> forall g :: g in groups.value ==> g.0 in tables && Asked(who, g.1)
  {
    hide Plus, TablesPaid, RowsPaid, Split, OneRow, GroupsExact, Entry, Sum, At, Fits, AllFit, GroupsFit;
    var start := GroupTables(tables, who, children);
    if start.None? {
      return None;
    }
    var found := start.value;
    var rest := children;
    ghost var done: ChildRows := map[];
    NothingPaid(who);
    SplitStart(children);
    PlusSwaps(Sum(found), NOTHING, NOTHING);
    while exists k :: k in rest
      invariant Split(children, done, rest) && Sum(found) == Plus(TablesPaid(tables, who), RowsPaid(done, who))
      invariant forall g :: g in found ==> g.0 in tables && Asked(who, g.1)
      invariant AllHome(tables, done, who) && GroupsExact(found, tables, done, who) && GroupsFit(found)
      decreases |rest|
    {
      var k :| k in rest;
      SplitNext(children, done, rest, k);
      RowNext(done, k, rest[k], who);
      GroupsExactRow(found, tables, done, who, k, rest[k]);
      PlusSwaps(TablesPaid(tables, who), RowsPaid(done, who), RowUnit(k, rest[k], who));
      PlusSwaps(Sum(found), NOTHING, NOTHING);
      if Asked(who, rest[k].payer) {
        if k.tableId !in tables {
          return None;
        }
        var g, one := (k.tableId, rest[k].payer), OneRow(k.kind, rest[k]);
        EntryAdds(found, g, one);
        EntryKeys(found, g, one);
        var more := Entry(found, g, one);
        if !Fits(At(more, g)) {
          RowOverflows(tables, children, done[k := rest[k]], rest - {k}, more, who, g);
          return None;
        }
        EntryFits(found, g, one);
        found := more;
      }
      done := done[k := rest[k]];
      rest := rest - {k};
    }
    SplitDone(children, done, rest);
    FittingGroups(found, tables, children, who);
    return Some(found);
  }

  lemma EntryKeys(groups: Groups, g: (int, nat), more: Inventory)
    ensures Entry(groups, g, more).Keys == groups.Keys + {g}
  {
  }

  lemma NoGroups()
    ensures Sum(map[]) == NOTHING && GroupsFit(map[])
  {
  }

  /**
    In every sound store an account's rows can be counted both ways, and the two
    inventories agree, if the counters fit; the grouped one needs less.
   */
  method Inventories(tables: TableRows, children: ChildRows, account: nat)
    returns (direct: Option<Inventory>, groups: Option<Groups>)
    requires Counted(tables, children)
    ensures direct.Some? <==> Fits(Paid(tables, children, Some(account)))
    ensures direct.Some? ==> groups.Some? && direct.value == Sum(groups.value)
    ensures groups.Some? ==> GroupsExact(groups.value, tables, children, Some(account))
  {
    hide Counted, GroupsExact, Sum, Paid, Fits, AllFit;
    direct := DirectInventory(tables, children, account);
    groups := GroupedInventory(tables, children, Some(account));
    CountedHome(tables, children);
    if direct.Some? {
      WholeFits(tables, children, account);
    }
  }

  /** If an account's whole inventory fits, so does its part in every table. */
  lemma WholeFits(tables: TableRows, children: ChildRows, account: nat)
    requires Fits(Paid(tables, children, Some(account)))
    ensures AllFit(tables, children, Some(account))
  {
    hide Plus, Total, Fits;
    var who := Some(account);
    NothingFits();
    forall id: int, payer: nat ensures Fits(PaidIn(tables, children, who, id, payer)) {
      var t, c := TablePart(tables, id), RowPart(children, id);
      TotalOfPart(tables, t, tables - t.Keys, TableUnits(who));
      TotalOfPart(children, c, children - c.Keys, RowUnits(who));
      var a, b, x, y := TablesPaid(t, who), RowsPaid(c, who), Total(tables - t.Keys, TableUnits(who)),
          Total(children - c.Keys, RowUnits(who));
      Rearranged(a, x, b, y);
      FitsPart(Plus(a, b), Plus(x, y));
    }
  }

  lemma Rearranged(a: Inventory, x: Inventory, b: Inventory, y: Inventory)
    ensures Plus(Plus(a, x), Plus(b, y)) == Plus(Plus(a, b), Plus(x, y))
  {
  }
}
