/**
  Contract rows and the reference-counted tables they belong to. A table row
  appears with its first child and goes with its last one, so that callers see
  one flat map from (kind, code, scope, table, primary key) to rows.
 */
module ContractTables {
  import opened ArenaTypes

  datatype Kind = KeyValue | Idx64 | Idx128 | Idx256 | IdxDouble | IdxLongDouble

  datatype Triple = Triple(code: nat, scope: nat, table: nat)

  datatype TableRow = TableRow(name: Triple, payer: nat, count: nat)

  /** Where a child row is filed: its kind, its table's id and its primary key. */
  datatype ChildKey = ChildKey(kind: Kind, tableId: int, primary: nat)

  /** A child row: who pays, its secondary key, and the length of its value. */
  datatype Child = Child(payer: nat, secondary: nat, size: nat)

  /** How callers name a child row. */
  datatype Name = Name(kind: Kind, table: Triple, primary: nat)

  type TableRows = map<int, TableRow>
  type ChildRows = map<ChildKey, Child>

  ghost function ChildrenOf(children: ChildRows, id: int): set<ChildKey>
  {
    set k | k in children && k.tableId == id
  }

  ghost predicate OneEach(tables: TableRows)
  {
    forall a, b :: a in tables && b in tables && tables[a].name == tables[b].name ==> a == b
  }

  /** Every child belongs to a live table, and every table counts its children. */
  ghost predicate Counted(tables: TableRows, children: ChildRows)
  {
    && (forall k :: k in children ==> k.tableId in tables)
    && (forall id :: id in tables ==> tables[id].count == |ChildrenOf(children, id)|)
  }

  /** No table row is left without children. */
  ghost predicate NoneEmpty(tables: TableRows)
  {
    forall id :: id in tables ==> tables[id].count > 0
  }

  ghost predicate IdsBelow(tables: TableRows, next: nat)
  {
    forall id :: id in tables ==> 0 <= id < next
  }

  /** The row callers find under a name. */
  ghost function Lookup(tables: TableRows, children: ChildRows, n: Name): Option<Child>
  {
    if id: int :| id in tables && tables[id].name == n.table then
      var k := ChildKey(n.kind, id, n.primary);
      if k in children then Some(children[k]) else None
    else None
  }

  lemma LookupIs(tables: TableRows, children: ChildRows, n: Name, id: int)
    requires OneEach(tables) && id in tables && tables[id].name == n.table
    ensures Lookup(tables, children, n) ==
            var k := ChildKey(n.kind, id, n.primary); if k in children then Some(children[k]) else None
  {
  }

  lemma LookupMisses(tables: TableRows, children: ChildRows, n: Name)
    requires forall id :: id in tables ==> tables[id].name != n.table
    ensures Lookup(tables, children, n) == None
  {
  }

  // ----- counting -----------------------------------------------------------

  lemma ChildrenWith(children: ChildRows, k: ChildKey, c: Child, id: int)
    requires k !in children
    ensures |ChildrenOf(children[k := c], id)| == |ChildrenOf(children, id)| + if k.tableId == id then 1 else 0
  {
    if k.tableId == id {
      assert ChildrenOf(children[k := c], id) == ChildrenOf(children, id) + {k};
    } else {
      assert ChildrenOf(children[k := c], id) == ChildrenOf(children, id);
    }
  }

  lemma ChildrenSame(children: ChildRows, k: ChildKey, c: Child, id: int)
    requires k in children
    ensures ChildrenOf(children[k := c], id) == ChildrenOf(children, id)
  {
  }

  lemma ChildrenWithout(children: ChildRows, k: ChildKey, id: int)
    requires k in children
    ensures |ChildrenOf(children, id)| == |ChildrenOf(children - {k}, id)| + if k.tableId == id then 1 else 0
  {
    if k.tableId == id {
      assert ChildrenOf(children, id) == ChildrenOf(children - {k}, id) + {k};
    } else {
      assert ChildrenOf(children, id) == ChildrenOf(children - {k}, id);
    }
  }

  lemma HasChild(children: ChildRows, k: ChildKey)
    requires k in children
    ensures |ChildrenOf(children, k.tableId)| > 0
  {
    assert k in ChildrenOf(children, k.tableId);
  }

  lemma NoChildren(children: ChildRows, id: int)
    requires |ChildrenOf(children, id)| == 0
    ensures forall k :: k in children ==> k.tableId != id
  {
    forall k | k in children ensures k.tableId != id {
      if k.tableId == id {
        HasChild(children, k);
      }
    }
  }

  lemma NewTableCounted(tables: TableRows, children: ChildRows, id: int, name: Triple, payer: nat)
    requires Counted(tables, children) && id !in tables
    ensures Counted(tables[id := TableRow(name, payer, 0)], children)
  {
    assert ChildrenOf(children, id) == {};
    var tables' := tables[id := TableRow(name, payer, 0)];
    forall i | i in tables' ensures tables'[i].count == |ChildrenOf(children, i)| {
    }
  }

  lemma AddCounted(tables: TableRows, children: ChildRows, k: ChildKey, c: Child)
    requires Counted(tables, children) && k !in children && k.tableId in tables
    ensures var row := tables[k.tableId]; Counted(tables[k.tableId := row.(count := row.count + 1)], children[k := c])
  {
    hide ChildrenOf;
    var row := tables[k.tableId];
    var tables', children' := tables[k.tableId := row.(count := row.count + 1)], children[k := c];
    forall id | id in tables' ensures tables'[id].count == |ChildrenOf(children', id)| {
      ChildrenWith(children, k, c, id);
    }
  }

  lemma ReplaceCounted(tables: TableRows, children: ChildRows, k: ChildKey, c: Child)
    requires Counted(tables, children) && k in children
    ensures Counted(tables, children[k := c])
  {
    hide ChildrenOf;
    forall id | id in tables ensures tables[id].count == |ChildrenOf(children[k := c], id)| {
      ChildrenSame(children, k, c, id);
    }
  }

  /** The tables once a child of `id` is gone: one less, or the table too. */
  function Dropped(tables: TableRows, id: int): TableRows
    requires id in tables
  {
    var count := if tables[id].count == 0 then 0 else tables[id].count - 1;
    if count == 0 then tables - {id} else tables[id := tables[id].(count := count)]
  }

  lemma RemoveCounted(tables: TableRows, children: ChildRows, k: ChildKey)
    requires Counted(tables, children) && k in children
    ensures Counted(Dropped(tables, k.tableId), children - {k})
  {
    hide ChildrenOf;
    var tables', children' := Dropped(tables, k.tableId), children - {k};
    HasChild(children, k);
    forall id | id in tables' ensures tables'[id].count == |ChildrenOf(children', id)| {
      ChildrenWithout(children, k, id);
    }
    if k.tableId !in tables' {
      ChildrenWithout(children, k, k.tableId);
      NoChildren(children', k.tableId);
    }
  }

  /** Taking a table row away leaves its children orphaned, unless it has none. */
  lemma RemoveTableCounted(tables: TableRows, children: ChildRows, id: int)
    requires Counted(tables, children) && id in tables
    ensures Counted(tables - {id}, children) <==> tables[id].count == 0
  {
    if tables[id].count == 0 {
      NoChildren(children, id);
    } else {
      var k := AnyChild(tables, children, id);
      assert k.tableId !in tables - {id};
    }
  }

  // ----- the store ----------------------------------------------------------

  class Store {
    var tables: TableRows
    var children: ChildRows
    var nextTableId: nat

    ghost predicate Valid()
      reads this
    {
      OneEach(tables) && IdsBelow(tables, nextTableId) && Counted(tables, children)
    }

    /** The row under a name, if there is one. */
    ghost function Get(n: Name): Option<Child>
      reads this
    {
      Lookup(tables, children, n)
    }

    /** A table row exists for a triple. */
    ghost predicate HasTable(t: Triple)
      reads this
    {
      exists id :: id in tables && tables[id].name == t
    }

    constructor ()
      ensures Valid() && NoneEmpty(tables) && children == map[] && tables == map[]
    {
      tables, children, nextTableId := map[], map[], 0;
    }

    method FindTable(t: Triple) returns (id: Option<int>)
      requires OneEach(tables)
      ensures id.Some? ==> id.value in tables && tables[id.value].name == t
      ensures id.None? ==> forall i :: i in tables ==> tables[i].name != t
    {
      var rest := tables;
      while exists i :: i in rest
        invariant forall i :: i in tables ==> i in rest || tables[i].name != t
        invariant forall i :: i in rest ==> i in tables && rest[i] == tables[i]
        decreases |rest|
      {
        var i :| i in rest;
        if rest[i].name == t {
          return Some(i);
        }
        rest := rest - {i};
      }
      return None;
    }

    /** The table's id; the table row is made, without children, if there is none. */
    method FindOrCreate(t: Triple, payer: nat) returns (id: int)
      requires Valid()
      modifies this`tables, this`nextTableId
      ensures Valid() && id in tables && tables[id].name == t
      ensures forall i :: i in old(tables) ==> i in tables && tables[i] == old(tables[i])
      ensures old(HasTable(t)) ==> tables == old(tables)
      ensures !old(HasTable(t)) ==> tables == old(tables)[id := TableRow(t, payer, 0)] && forall k :: k in children ==>
              k.tableId != id
    {
      hide Counted;
      var found := FindTable(t);
      if found.Some? {
        return found.value;
      }
      id := nextTableId;
      NewTableCounted(tables, children, id, t, payer);
      CountedHome(tables, children);
      tables := tables[id := TableRow(t, payer, 0)];
      nextTableId := nextTableId + 1;
    }

    /**
      Adds a row, with its table if need be. It is refused exactly when the name is
      taken, and then nothing changes.
     */
    method Create(n: Name, c: Child) returns (ok: bool)
      requires Valid()
      modifies this
      ensures Valid() && (old(NoneEmpty(tables)) ==> NoneEmpty(tables))
      ensures ok <==> old(Get(n)).None?
      ensures !ok ==> tables == old(tables) && children == old(children)
      ensures forall m :: Get(m) == if ok && m == n then Some(c) else old(Get(m))
    {
      hide Counted, Lookup, ChildrenOf;
      ghost var tables0 := tables;
      var id := FindOrCreate(n.table, c.payer);
      SameLookups(tables0, tables, children, id);
      LookupIs(tables, children, n, id);
      var k := ChildKey(n.kind, id, n.primary);
      if k in children {
        return false;
      }
      AddCounted(tables, children, k, c);
      PutLookups(tables, children, k, c, n);
      children := children[k := c];
      tables := tables[id := tables[id].(count := tables[id].count + 1)];
      return true;
    }

    /** Changes a row if it is there; the table is not touched. */
    method Update(n: Name, c: Child)
      requires Valid()
      modifies this`children
      ensures Valid()
      ensures forall m :: Get(m) == if m == n && old(Get(m)).Some? then Some(c) else old(Get(m))
    {
      hide Counted, Lookup, ChildrenOf;
      var found := FindTable(n.table);
      if found.None? {
        LookupMisses(tables, children, n);
        return;
      }
      LookupIs(tables, children, n, found.value);
      var k := ChildKey(n.kind, found.value, n.primary);
      if k in children {
        ReplaceCounted(tables, children, k, c);
        PutLookups(tables, children, k, c, n);
        assert tables[k.tableId := tables[k.tableId].(count := tables[k.tableId].count)] == tables;
        children := children[k := c];
      }
    }

    /** Removes a row if it is there, and its table with it when it was the last. */
    method Remove(n: Name)
      requires Valid()
      modifies this`tables, this`children
      ensures Valid() && (old(NoneEmpty(tables)) ==> NoneEmpty(tables))
      ensures forall m :: Get(m) == if m == n then None else old(Get(m))
    {
      hide Counted, Lookup, ChildrenOf;
      var found := FindTable(n.table);
      if found.None? {
        LookupMisses(tables, children, n);
        return;
      }
      var id := found.value;
      LookupIs(tables, children, n, id);
      var k := ChildKey(n.kind, id, n.primary);
      if k in children {
        RemoveCounted(tables, children, k);
        TakeLookups(tables, children, k, n);
        children := children - {k};
        tables := Dropped(tables, id);
      }
    }

    /** Makes the table row if there is none; such a table may stay without children. */
    method CreateTable(t: Triple, payer: nat)
      requires Valid()
      modifies this`tables, this`nextTableId
      ensures Valid() && HasTable(t)
      ensures forall i :: i in old(tables) ==> i in tables && tables[i] == old(tables[i])
      ensures forall i :: i in tables && i !in old(tables) ==> !old(HasTable(t)) && tables[i] == TableRow(t, payer, 0)
      ensures forall m :: Get(m) == old(Get(m))
    {
      hide Counted, Lookup;
      ghost var tables0 := tables;
      var id := FindOrCreate(t, payer);
      SameLookups(tables0, tables, children, id);
    }

    /** Drops a table row whatever it counts: the store stays sound exactly when the table had no children. */
    method RemoveTable(t: Triple)
      requires Valid()
      modifies this`tables
      ensures !HasTable(t) && children == old(children)
      ensures forall i :: i in old(tables) && old(tables)[i].name != t ==> i in tables && tables[i] == old(tables)[i]
      ensures forall i :: i in tables ==> i in old(tables)
      ensures Valid() <==> forall id :: id in old(tables) && old(tables)[id].name == t ==> old(tables)[id].count == 0
    {
      hide Counted;
      var found := FindTable(t);
      if found.Some? {
        RemoveTableCounted(tables, children, found.value);
        tables := tables - {found.value};
      }
    }

    lemma NothingStored(n: Name)
      requires tables == map[]
      ensures Get(n).None?
    {
    }

    lemma SomeChild(n: Name)
      requires Get(n).Some?
      ensures children != map[]
    {
    }

    /** In a store without empty tables, a table row exists exactly while some row names it. */
    lemma TablesAreThoseInUse(t: Triple)
      requires Valid() && NoneEmpty(tables)
      ensures HasTable(t) <==> exists n: Name :: n.table == t && Get(n).Some?
    {
      hide ChildrenOf, Lookup;
      if HasTable(t) {
        var id :| id in tables && tables[id].name == t;
        var k := AnyChild(tables, children, id);
        var n := Name(k.kind, t, k.primary);
        LookupIs(tables, children, n, id);
        assert n.table == t && Get(n).Some?;
      }
      if exists n: Name :: n.table == t && Get(n).Some? {
        var n: Name :| n.table == t && Get(n).Some?;
        FoundMeansTable(tables, children, n);
      }
    }
  }

  /** Any row stored in an empty store is orphaned when its table is dropped. */
  method DroppedTableOrphans(n: Name, c: Child) returns (s: Store)
    ensures fresh(s) && !s.Valid() && !s.HasTable(n.table) && s.children != map[]
  {
    hide Counted, Lookup, OneEach, IdsBelow;
    s := new Store();
    s.NothingStored(n);
    var ok := s.Create(n, c);
    s.TablesAreThoseInUse(n.table);
    assert s.Get(n).Some?;
    ghost var id :| id in s.tables && s.tables[id].name == n.table;
    assert s.tables[id].count > 0;
    s.SomeChild(n);
    s.RemoveTable(n.table);
  }

  lemma FoundMeansTable(tables: TableRows, children: ChildRows, n: Name)
    requires Lookup(tables, children, n).Some?
    ensures exists id :: id in tables && tables[id].name == n.table
  {
  }

  lemma AnyChild(tables: TableRows, children: ChildRows, id: int) returns (k: ChildKey)
    requires Counted(tables, children) && id in tables && tables[id].count > 0
    ensures k in children && k.tableId == id
  {
    if c: ChildKey :| c in ChildrenOf(children, id) {
      k := c;
    } else {
      EmptyHasNone(ChildrenOf(children, id));
    }
  }

  lemma EmptyHasNone(s: set<ChildKey>)
    requires forall k: ChildKey :: k !in s
    ensures |s| == 0
  {
    assert s == {};
  }

  lemma CountedHome(tables: TableRows, children: ChildRows)
    requires Counted(tables, children)
    ensures forall k :: k in children ==> k.tableId in tables
  {
  }

  /** A table without children adds nothing callers can find. */
  lemma SameLookups(tables: TableRows, tables': TableRows, children: ChildRows, id: int)
    requires OneEach(tables) && OneEach(tables') && id in tables'
    requires forall i :: i in tables ==> i in tables' && tables'[i] == tables[i]
    requires tables' == tables || (tables'.Keys == tables.Keys + {id} && forall k :: k in children ==> k.tableId != id)
    ensures forall m :: Lookup(tables', children, m) == Lookup(tables, children, m)
  {
    forall m ensures Lookup(tables', children, m) == Lookup(tables, children, m) {
      if i: int :| i in tables && tables[i].name == m.table {
        LookupIs(tables, children, m, i);
        LookupIs(tables', children, m, i);
      } else {
        LookupMisses(tables, children, m);
        if tables' != tables {
          if tables'[id].name == m.table {
            LookupIs(tables', children, m, id);
          } else {
            LookupMisses(tables', children, m);
          }
        }
      }
    }
  }

  /** Filing a row changes what is found under its name only. */
  lemma PutLookups(tables: TableRows, children: ChildRows, k: ChildKey, c: Child, n: Name)
    requires OneEach(tables) && k.tableId in tables && n == Name(k.kind, tables[k.tableId].name, k.primary)
    ensures forall m, count :: Lookup(tables[k.tableId := tables[k.tableId].(count := count)], children[k := c], m)
                               == if m == n then Some(c) else Lookup(tables, children, m)
  {
    hide Lookup;
    forall m, count ensures Lookup(tables[k.tableId := tables[k.tableId].(count := count)], children[k := c], m)
                            == if m == n then Some(c) else Lookup(tables, children, m)
    {
      var tables' := tables[k.tableId := tables[k.tableId].(count := count)];
      if i: int :| i in tables && tables[i].name == m.table {
        LookupIs(tables, children, m, i);
        LookupIs(tables', children[k := c], m, i);
      } else {
        LookupMisses(tables, children, m);
        LookupMisses(tables', children[k := c], m);
      }
    }
  }

  lemma TakeLookups(tables: TableRows, children: ChildRows, k: ChildKey, n: Name)
    requires OneEach(tables) && Counted(tables, children) && k in children
    requires n == Name(k.kind, tables[k.tableId].name, k.primary)
    ensures OneEach(Dropped(tables, k.tableId))
    ensures forall m ::
            Lookup(Dropped(tables, k.tableId), children - {k}, m) ==
              if m == n then None else Lookup(tables, children, m)
  {
    hide Lookup, ChildrenOf;
    var tables', children' := Dropped(tables, k.tableId), children - {k};
    RemoveCounted(tables, children, k);
    forall m ensures Lookup(tables', children', m) == if m == n then None else Lookup(tables, children, m) {
      if i: int :| i in tables && tables[i].name == m.table {
        LookupIs(tables, children, m, i);
        if i in tables' {
          LookupIs(tables', children', m, i);
        } else {
          LookupMisses(tables', children', m);
        }
      } else {
        LookupMisses(tables, children, m);
        LookupMisses(tables', children', m);
      }
    }
  }
}
