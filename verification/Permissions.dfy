/** Account permissions and the walk up their parents that decides whether one satisfies another. */
module Permissions {
  import opened ArenaTypes

  datatype Perm = Perm(parent: nat, owner: nat, name: nat)

  type PermRows = map<nat, Perm>

  /** Every permission's parent is 0, for none, or a permission made before it. */
  ghost predicate Ordered(rows: PermRows)
  {
    forall id :: id in rows ==> rows[id].parent == 0 || rows[id].parent < id
  }

  /** `steps` parent links over live rows lead from `from` to `to`. */
  ghost predicate Leads(rows: PermRows, from: nat, to: nat, steps: nat)
    decreases steps
  {
    if steps == 0 then from == to else from in rows && Leads(rows, rows[from].parent, to, steps - 1)
  }

  /** `a` is `b` or an ancestor of it. */
  ghost predicate SelfOrAncestor(rows: PermRows, a: nat, b: nat)
  {
    exists steps :: Leads(rows, b, a, steps)
  }

  /** `a` is above `x`, found by following the parents of ordered rows. */
  ghost predicate Above(rows: PermRows, a: nat, x: nat)
    requires Ordered(rows)
    decreases x
  {
    x in rows && (rows[x].parent == a || (rows[x].parent < x && Above(rows, a, rows[x].parent)))
  }

  lemma {:induction false} AboveLeads(rows: PermRows, a: nat, x: nat) returns (steps: nat)
    requires Ordered(rows) && Above(rows, a, x)
    ensures steps > 0 && Leads(rows, x, a, steps)
    decreases x
  {
    if rows[x].parent == a {
      steps := 1;
      assert Leads(rows, rows[x].parent, a, 0);
    } else {
      var more := AboveLeads(rows, a, rows[x].parent);
      steps := more + 1;
    }
  }

  lemma {:induction false} LeadsAbove(rows: PermRows, a: nat, x: nat, steps: nat)
    requires Ordered(rows) && steps > 0 && Leads(rows, x, a, steps)
    ensures Above(rows, a, x)
    decreases steps
  {
    if steps > 1 {
      LeadsAbove(rows, a, rows[x].parent, steps - 1);
    }
  }

  lemma AboveIs(rows: PermRows, a: nat, b: nat)
    requires Ordered(rows)
    ensures SelfOrAncestor(rows, a, b) <==> a == b || Above(rows, a, b)
  {
    if a == b {
      assert Leads(rows, b, a, 0);
    } else if Above(rows, a, b) {
      var steps := AboveLeads(rows, a, b);
    }
    if SelfOrAncestor(rows, a, b) {
      var steps :| Leads(rows, b, a, steps);
      if steps > 0 {
        LeadsAbove(rows, a, b, steps);
      }
    }
  }

  class PermissionTable {
    var rows: PermRows
    var byName: map<(nat, nat), nat>
    var nextId: nat

    ghost predicate Valid()
      reads this
    {
      && Ordered(rows)
      && (forall id :: id in rows ==> id < nextId)
      && (forall id :: id in rows ==>
          (rows[id].owner, rows[id].name) in byName && byName[(rows[id].owner, rows[id].name)] == id)
      && (forall k :: k in byName ==> byName[k] in rows && (rows[byName[k]].owner, rows[byName[k]].name) == k)
    }

    /** The table with the reserved permission 0. */
    constructor ()
      ensures Valid() && rows == map[0 := Perm(0, 0, 0)] && nextId == 1
    {
      rows, byName, nextId := map[0 := Perm(0, 0, 0)], map[(0, 0) := 0], 1;
    }

    /**
      Draws the next id from the counter and files the permission under it, unless
      its name is taken. The table stays sound exactly when nothing was filed or
      the parent is 0 or an id drawn before: the parent is not looked up.
     */
    method Create(parent: nat, owner: nat, name: nat) returns (ok: bool)
      requires Valid()
      modifies this
      ensures nextId == old(nextId) + 1
      ensures Valid() <==> !ok || parent == 0 || parent < old(nextId)
      ensures ok <==> (owner, name) !in old(byName)
      ensures rows == if ok then old(rows)[old(nextId) := Perm(parent, owner, name)] else old(rows)
    {
      var id := nextId;
      nextId := nextId + 1;
      if (owner, name) in byName {
        return false;
      }
      rows := rows[id := Perm(parent, owner, name)];
      byName := byName[(owner, name) := id];
      assert rows[id].parent == parent;
      return true;
    }

    /** Drops a permission; the permissions below it stay, with a parent that is gone. */
    method Remove(owner: nat, name: nat)
      requires Valid()
      modifies this`rows, this`byName
      ensures Valid()
      ensures rows == if (owner, name) in old(byName) then old(rows) - {old(byName)[(owner, name)]} else old(rows)
    {
      if (owner, name) in byName {
        rows := rows - {byName[(owner, name)]};
        byName := byName - {(owner, name)};
      }
    }

    /**
      Whether the first permission satisfies the second: exactly when their owners
      match and the first is the second or one of its ancestors over live rows.
      Nothing is said when either does not exist.
     */
    method Satisfies(ownerA: nat, nameA: nat, ownerB: nat, nameB: nat) returns (r: Option<bool>)
      requires Valid()
      ensures r.Some? <==> (ownerA, nameA) in byName && (ownerB, nameB) in byName
      ensures r.Some? ==>
              (r.value <==> ownerA == ownerB && SelfOrAncestor(rows, byName[(ownerA, nameA)], byName[(ownerB, nameB)]))
    {
      if (ownerA, nameA) !in byName || (ownerB, nameB) !in byName {
        return None;
      }
      var a, b := byName[(ownerA, nameA)], byName[(ownerB, nameB)];
      if rows[a].owner != rows[b].owner {
        return Some(false);
      }
      AboveIs(rows, a, b);
      if a == b || a == rows[b].parent {
        return Some(true);
      }
      var x := rows[b].parent;
      while x in rows
        invariant Above(rows, a, b) <==> Above(rows, a, x)
        decreases x
      {
        if a == rows[x].parent {
          return Some(true);
        }
        if rows[x].parent == 0 {
          NothingAboveZero(rows, a, x);
          return Some(false);
        }
        x := rows[x].parent;
      }
      return Some(false);
    }
  }

  lemma NothingAboveZero(rows: PermRows, a: nat, x: nat)
    requires Ordered(rows) && x in rows && rows[x].parent == 0 && a != 0
    ensures !Above(rows, a, x)
  {
    if 0 in rows {
      assert rows[0].parent == 0;
    }
  }

  // ----- a parent that is not older -----------------------------------------

  /** The walk up from `x` looking for `a`, cut off after `steps` more links; nothing if it is still under way. */
  function Walk(rows: PermRows, a: nat, x: nat, steps: nat): Option<bool>
    decreases steps
  {
    if x !in rows then Some(false)
    else if rows[x].parent == a then Some(true)
    else if rows[x].parent == 0 then Some(false)
    else if steps == 0 then None
    else Walk(rows, a, rows[x].parent, steps - 1)
  }

  /** With parents older than their children the walk ends, with the answer that `Satisfies` gives. */
  lemma {:induction false} OrderedWalkEnds(rows: PermRows, a: nat, x: nat, steps: nat)
    requires Ordered(rows) && a != 0 && x <= steps
    ensures Walk(rows, a, x, steps) == Some(Above(rows, a, x))
    decreases steps
  {
    if x in rows && rows[x].parent != a {
      if rows[x].parent == 0 {
        NothingAboveZero(rows, a, x);
      } else {
        OrderedWalkEnds(rows, a, rows[x].parent, steps - 1);
      }
    }
  }

  lemma {:induction false} OwnParentWalks(rows: PermRows, a: nat, x: nat, steps: nat)
    requires x in rows && rows[x].parent == x && x != 0 && a != x
    ensures Walk(rows, a, x, steps) == None
    decreases steps
  {
    if steps > 0 {
      OwnParentWalks(rows, a, x, steps - 1);
    }
  }

  /** In any table a permission can be made its own parent; no walk up from it, for any other permission, ever ends. */
  method MadeItsOwnParent(table: PermissionTable, owner: nat, name: nat) returns (id: nat)
    requires table.Valid() && (owner, name) !in table.byName && table.nextId > 0
    modifies table
    ensures !table.Valid() && id in table.rows && table.rows[id] == Perm(id, owner, name)
    ensures forall a: nat, steps: nat :: a != id ==> Walk(table.rows, a, id, steps) == None
  {
    id := table.nextId;
    var ok := table.Create(id, owner, name);
    forall a: nat, steps: nat | a != id ensures Walk(table.rows, a, id, steps) == None {
      OwnParentWalks(table.rows, a, id, steps);
    }
  }
}
