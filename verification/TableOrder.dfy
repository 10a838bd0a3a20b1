/**
  Rows in tables, each at a position of its table: the first and last rows of a
  range, and lists of rows in order. Positions are pairs, compared the larger
  part first, so that secondary keys with primary keys to tell ties apart fit.
 */
module TableOrder {
  import opened ArenaTypes

  datatype Pos = Pos(hi: nat, lo: nat)

  predicate Less(a: Pos, b: Pos)
  {
    a.hi < b.hi || (a.hi == b.hi && a.lo < b.lo)
  }

  predicate UpTo(a: Pos, b: Pos)
  {
    a == b || Less(a, b)
  }

  /** The least position above one. */
  function After(a: Pos): Pos
  {
    Pos(a.hi, a.lo + 1)
  }

  datatype Place = Place(tableId: int, pos: Pos)

  ghost predicate InTable<R(!new)>(rows: map<int, R>, place: R -> Place, table: int, id: int)
  {
    id in rows && place(rows[id]).tableId == table
  }

  function PosOf<R>(rows: map<int, R>, place: R -> Place, id: int): Pos
    requires id in rows
  {
    place(rows[id]).pos
  }

  /** `row` is the row of the table with the least position from `low` on; there is none when it is None. */
  ghost predicate IsFirst<R(!new)>(rows: map<int, R>, place: R -> Place, table: int, low: Pos, row: Option<int>)
  {
    match row
    case None => forall id :: InTable(rows, place, table, id) ==> Less(PosOf(rows, place, id), low)
    case Some(r) =>
      && InTable(rows, place, table, r) && UpTo(low, PosOf(rows, place, r))
      && forall id :: InTable(rows, place, table, id) && UpTo(low, PosOf(rows, place, id)) ==>
         UpTo(PosOf(rows, place, r), PosOf(rows, place, id))
  }

  predicate IsBelow(pos: Pos, high: Option<Pos>)
  {
    high.None? || Less(pos, high.value)
  }

  /** `row` is the row of the table with the greatest position below `high`; every position is below None. */
  ghost predicate IsLast<R(!new)>(rows: map<int, R>, place: R -> Place, table: int, high: Option<Pos>, row: Option<int>)
  {
    match row
    case None => forall id :: InTable(rows, place, table, id) ==> !IsBelow(PosOf(rows, place, id), high)
    case Some(r) =>
      && InTable(rows, place, table, r) && IsBelow(PosOf(rows, place, r), high)
      && forall id :: InTable(rows, place, table, id) && IsBelow(PosOf(rows, place, id), high) ==>
         UpTo(PosOf(rows, place, id), PosOf(rows, place, r))
  }

  lemma FirstIn<R(!new)>(rows: map<int, R>, place: R -> Place, table: int, low: Pos, row: Option<int>)
    requires IsFirst(rows, place, table, low, row)
    ensures row.Some? ==> InTable(rows, place, table, row.value)
  {
  }

  lemma LastIn<R(!new)>(rows: map<int, R>, place: R -> Place, table: int, high: Option<Pos>, row: Option<int>)
    requires IsLast(rows, place, table, high, row)
    ensures row.Some? ==> InTable(rows, place, table, row.value)
  {
  }

  method First<R(!new)>(rows: map<int, R>, place: R -> Place, table: int, low: Pos) returns (row: Option<int>)
    ensures IsFirst(rows, place, table, low, row)
  {
    row := None;
    var rest := rows.Keys;
    while exists id :: id in rest
      invariant rest <= rows.Keys
      invariant row.Some? ==> InTable(rows, place, table, row.value) && UpTo(low, PosOf(rows, place, row.value))
      invariant forall id :: InTable(rows, place, table, id) && id !in rest && UpTo(low, PosOf(rows, place, id)) ==>
                             row.Some? && UpTo(PosOf(rows, place, row.value), PosOf(rows, place, id))
      decreases rest
    {
      var id :| id in rest;
      var p := place(rows[id]);
      if p.tableId == table && UpTo(low, p.pos) && (row.None? || Less(p.pos, PosOf(rows, place, row.value))) {
        row := Some(id);
      }
      rest := rest - {id};
    }
  }

  method Last<R(!new)>(rows: map<int, R>, place: R -> Place, table: int, high: Option<Pos>) returns (row: Option<int>)
    ensures IsLast(rows, place, table, high, row)
  {
    row := None;
    var rest := rows.Keys;
    while exists id :: id in rest
      invariant rest <= rows.Keys
      invariant row.Some? ==> InTable(rows, place, table, row.value) && IsBelow(PosOf(rows, place, row.value), high)
      invariant forall id :: InTable(rows, place, table, id) && id !in rest && IsBelow(PosOf(rows, place, id), high) ==>
                             row.Some? && UpTo(PosOf(rows, place, id), PosOf(rows, place, row.value))
      decreases rest
    {
      var id :| id in rest;
      var p := place(rows[id]);
      if p.tableId == table && IsBelow(p.pos, high) && (row.None? || Less(PosOf(rows, place, row.value), p.pos)) {
        row := Some(id);
      }
      rest := rest - {id};
    }
  }

  // ----- forward ------------------------------------------------------------

  /** Positions are unique in a table. */
  ghost predicate Distinct<R(!new)>(rows: map<int, R>, place: R -> Place)
  {
    forall i, j :: i in rows && j in rows && place(rows[i]) == place(rows[j]) ==> i == j
  }

  /** `list` are rows of the table at increasing positions from `low` on. */
  ghost predicate Increasing<R(!new)>(rows: map<int, R>, place: R -> Place, table: int, low: Pos, list: seq<int>)
  {
    && (forall i :: 0 <= i < |list| ==> InTable(rows, place, table, list[i]) && UpTo(low, PosOf(rows, place, list[i])))
    && (forall i, j :: 0 <= i < j < |list| ==> Less(PosOf(rows, place, list[i]), PosOf(rows, place, list[j])))
  }

  /** `list` are the table's rows from `low` on, in ascending order, each once. */
  ghost predicate Ascending<R(!new)>(rows: map<int, R>, place: R -> Place, table: int, low: Pos, list: seq<int>)
  {
    && Increasing(rows, place, table, low, list)
    && (forall id :: InTable(rows, place, table, id) && UpTo(low, PosOf(rows, place, id)) ==> id in list)
  }

  /** A row of the table from `low` on that comes before the next one. */
  ghost predicate Passed<R(!new)>(rows: map<int, R>, place: R -> Place, table: int, low: Pos, id: int,
                                  next: Option<int>)
  {
    && InTable(rows, place, table, id) && UpTo(low, PosOf(rows, place, id))
    && (next.Some? && next.value in rows ==> Less(PosOf(rows, place, id), PosOf(rows, place, next.value)))
  }

  /** The part of a scan done so far: what comes before the next row. */
  ghost predicate Scanned<R(!new)>(rows: map<int, R>, place: R -> Place, table: int, low: Pos, list: seq<int>,
                                   next: Option<int>)
  {
    && Increasing(rows, place, table, low, list)
    && IsFirst(rows, place, table, if list == [] then low else After(PosOf(rows, place, list[|list| - 1])), next)
    && (forall id :: Passed(rows, place, table, low, id, next) ==> id in list)
  }

  lemma ScanStart<R(!new)>(rows: map<int, R>, place: R -> Place, table: int, low: Pos, first: Option<int>)
    requires IsFirst(rows, place, table, low, first)
    ensures Scanned(rows, place, table, low, [], first)
  {
  }

  lemma ScanCovers<R(!new)>(rows: map<int, R>, place: R -> Place, table: int, low: Pos, list: seq<int>, at: int,
                            next: Option<int>, id: int)
    requires Distinct(rows, place) && Scanned(rows, place, table, low, list, Some(at))
    requires IsFirst(rows, place, table, After(PosOf(rows, place, at)), next)
    requires Passed(rows, place, table, low, id, next)
    ensures id in list + [at]
  {
    if Less(PosOf(rows, place, id), PosOf(rows, place, at)) {
      assert id in list;
    } else {
      assert place(rows[id]) == place(rows[at]);
      assert (list + [at])[|list|] == at;
    }
  }

  lemma ScanAscends<R(!new)>(rows: map<int, R>, place: R -> Place, table: int, low: Pos, list: seq<int>, at: int)
    requires Scanned(rows, place, table, low, list, Some(at))
    ensures Increasing(rows, place, table, low, list + [at])
  {
    var more := list + [at];
    if list != [] {
      var n := |list| - 1;
      forall i | 0 <= i < |list| ensures Less(PosOf(rows, place, list[i]), PosOf(rows, place, at)) {
        assert i < n ==> Less(PosOf(rows, place, list[i]), PosOf(rows, place, list[n]));
      }
    }
  }

  lemma ScanNext<R(!new)>(rows: map<int, R>, place: R -> Place, table: int, low: Pos, list: seq<int>, at: int,
                          next: Option<int>)
    requires Distinct(rows, place) && Scanned(rows, place, table, low, list, Some(at))
    requires IsFirst(rows, place, table, After(PosOf(rows, place, at)), next)
    ensures Scanned(rows, place, table, low, list + [at], next)
  {
    hide Distinct, Increasing;
    ScanAscends(rows, place, table, low, list, at);
    forall id | Passed(rows, place, table, low, id, next) ensures id in list + [at] {
      ScanCovers(rows, place, table, low, list, at, next, id);
    }
  }

  lemma ScanEnd<R(!new)>(rows: map<int, R>, place: R -> Place, table: int, low: Pos, list: seq<int>)
    requires Scanned(rows, place, table, low, list, None)
    ensures Ascending(rows, place, table, low, list)
  {
  }

  lemma ScannedNext<R(!new)>(rows: map<int, R>, place: R -> Place, table: int, low: Pos, list: seq<int>,
                             at: Option<int>)
    requires Scanned(rows, place, table, low, list, at)
    ensures at.Some? ==> InTable(rows, place, table, at.value)
  {
  }

  /** Rows still to come. */
  ghost function Ahead<R(!new)>(rows: map<int, R>, place: R -> Place, low: Pos): set<int>
  {
    set id | id in rows && UpTo(low, place(rows[id]).pos)
  }

  lemma AheadShrinks<R(!new)>(rows: map<int, R>, place: R -> Place, table: int, at: int, next: Option<int>)
    requires at in rows && IsFirst(rows, place, table, After(PosOf(rows, place, at)), next)
    ensures next.Some? ==>
            && next.value in rows
            && Ahead(rows, place, PosOf(rows, place, next.value)) < Ahead(rows, place, PosOf(rows, place, at))
  {
    if next.Some? {
      var now, later := Ahead(rows, place, PosOf(rows, place, at)), Ahead(rows, place, PosOf(rows, place, next.value));
      assert at in now && at !in later;
      forall id | id in later ensures id in now {
        assert id in rows;
      }
    }
  }

  // ----- and back -----------------------------------------------------------

  ghost predicate BackPassed<R(!new)>(rows: map<int, R>, place: R -> Place, table: int, id: int, prev: Option<int>)
  {
    && InTable(rows, place, table, id)
    && (prev.Some? && prev.value in rows ==> Less(PosOf(rows, place, prev.value), PosOf(rows, place, id)))
  }

  ghost predicate BackScanned<R(!new)>(rows: map<int, R>, place: R -> Place, table: int, list: seq<int>,
                                       prev: Option<int>)
  {
    && Increasing(rows, place, table, Pos(0, 0), list)
    && IsLast(rows, place, table, if list == [] then None else Some(PosOf(rows, place, list[0])), prev)
    && (forall id :: BackPassed(rows, place, table, id, prev) ==> id in list)
  }

  lemma BackStart<R(!new)>(rows: map<int, R>, place: R -> Place, table: int, prev: Option<int>)
    requires IsLast(rows, place, table, None, prev)
    ensures BackScanned(rows, place, table, [], prev)
  {
  }

  lemma BackAscends<R(!new)>(rows: map<int, R>, place: R -> Place, table: int, list: seq<int>, at: int)
    requires BackScanned(rows, place, table, list, Some(at))
    ensures Increasing(rows, place, table, Pos(0, 0), [at] + list)
  {
    if list != [] {
      forall i | 0 <= i < |list| ensures Less(PosOf(rows, place, at), PosOf(rows, place, list[i])) {
        assert 0 < i ==> Less(PosOf(rows, place, list[0]), PosOf(rows, place, list[i]));
      }
    }
  }

  lemma BackNext<R(!new)>(rows: map<int, R>, place: R -> Place, table: int, list: seq<int>, at: int, prev: Option<int>)
    requires Distinct(rows, place) && BackScanned(rows, place, table, list, Some(at))
    requires IsLast(rows, place, table, Some(PosOf(rows, place, at)), prev)
    ensures BackScanned(rows, place, table, [at] + list, prev)
  {
    hide Increasing;
    BackAscends(rows, place, table, list, at);
    var more := [at] + list;
    forall id | BackPassed(rows, place, table, id, prev) ensures id in more {
      if Less(PosOf(rows, place, at), PosOf(rows, place, id)) {
        assert id in list;
      } else {
        assert place(rows[id]) == place(rows[at]);
        assert more[0] == at;
      }
    }
  }

  lemma BackEnd<R(!new)>(rows: map<int, R>, place: R -> Place, table: int, list: seq<int>)
    requires BackScanned(rows, place, table, list, None)
    ensures Ascending(rows, place, table, Pos(0, 0), list)
  {
  }

  lemma BackAt<R(!new)>(rows: map<int, R>, place: R -> Place, table: int, list: seq<int>, at: Option<int>)
    requires BackScanned(rows, place, table, list, at)
    ensures at.Some? ==> InTable(rows, place, table, at.value)
  {
  }

  ghost function Behind<R(!new)>(rows: map<int, R>, place: R -> Place, high: Pos): set<int>
  {
    set id | id in rows && Less(place(rows[id]).pos, high)
  }

  lemma BehindShrinks<R(!new)>(rows: map<int, R>, place: R -> Place, table: int, at: int, prev: Option<int>)
    requires at in rows && IsLast(rows, place, table, Some(PosOf(rows, place, at)), prev)
    ensures prev.Some? ==>
            && prev.value in rows
            && Behind(rows, place, PosOf(rows, place, prev.value)) < Behind(rows, place, PosOf(rows, place, at))
  {
    if prev.Some? {
      var now, later := Behind(rows, place, PosOf(rows, place, at)),
          Behind(rows, place, PosOf(rows, place, prev.value));
      assert prev.value in now && prev.value !in later;
      forall id | id in later ensures id in now {
        assert id in rows;
      }
    }
  }

  // ----- there and back -----------------------------------------------------

  ghost predicate SameMembers(a: seq<int>, b: seq<int>)
  {
    forall id :: id in a <==> id in b
  }

  lemma LastIsGreatest<R(!new)>(rows: map<int, R>, place: R -> Place, table: int, low: Pos, list: seq<int>, id: int)
    requires Increasing(rows, place, table, low, list) && id in list
    ensures id in rows && UpTo(PosOf(rows, place, id), PosOf(rows, place, list[|list| - 1]))
    ensures PosOf(rows, place, id) == PosOf(rows, place, list[|list| - 1]) ==> id == list[|list| - 1]
  {
    var i :| 0 <= i < |list| && list[i] == id;
  }

  lemma InitMembers<R(!new)>(rows: map<int, R>, place: R -> Place, table: int, low: Pos, list: seq<int>, id: int)
    requires Increasing(rows, place, table, low, list) && list != []
    ensures id in list[..|list| - 1] <==> id in list && id != list[|list| - 1]
  {
    var n := |list| - 1;
    if id in list && id != list[n] {
      var i :| 0 <= i < |list| && list[i] == id;
      assert list[..n][i] == id;
    }
    if id in list[..n] {
      var i :| 0 <= i < n && list[i] == id;
      assert Less(PosOf(rows, place, list[i]), PosOf(rows, place, list[n]));
    }
  }

  lemma SharedMember(a: seq<int>, b: seq<int>, id: int)
    requires SameMembers(a, b) && id in a
    ensures id in b
  {
  }

  lemma NoneInBoth(a: seq<int>, b: seq<int>)
    requires SameMembers(a, b)
    ensures a == [] <==> b == []
  {
    if a != [] {
      SharedMember(a, b, a[0]);
    }
    if b != [] {
      SharedMember(b, a, b[0]);
    }
  }

  /** An ascending list is determined by what is in it. */
  lemma {:induction false} SameOrder<R(!new)>(rows: map<int, R>, place: R -> Place, table: int, low: Pos, a: seq<int>,
                                              b: seq<int>)
    requires Increasing(rows, place, table, low, a) && Increasing(rows, place, table, low, b) && SameMembers(a, b)
    ensures a == b
    decreases |a|
  {
    NoneInBoth(a, b);
    if a != [] {
      var x, y := a[|a| - 1], b[|b| - 1];
      SharedMember(a, b, x);
      SharedMember(b, a, y);
      LastIsGreatest(rows, place, table, low, b, x);
      LastIsGreatest(rows, place, table, low, a, y);
      var a', b' := a[..|a| - 1], b[..|b| - 1];
      forall id ensures id in a' <==> id in b' {
        InitMembers(rows, place, table, low, a, id);
        InitMembers(rows, place, table, low, b, id);
      }
      SameOrder(rows, place, table, low, a', b');
    }
  }

  /** How many rows come before `low`. */
  ghost function CountBelow<R(!new)>(rows: map<int, R>, place: R -> Place, list: seq<int>, low: Pos): (n: nat)
    requires forall i :: 0 <= i < |list| ==> list[i] in rows
    ensures n <= |list|
  {
    if list == [] || UpTo(low, PosOf(rows, place, list[0])) then 0 else 1 + CountBelow(rows, place, list[1..], low)
  }

  lemma {:induction false} BelowSplits<R(!new)>(rows: map<int, R>, place: R -> Place, table: int, list: seq<int>,
                                                low: Pos)
    requires Increasing(rows, place, table, Pos(0, 0), list)
    ensures var n := CountBelow(rows, place, list, low);
            && (forall i :: 0 <= i < n ==> Less(PosOf(rows, place, list[i]), low))
            && (forall i :: n <= i < |list| ==> UpTo(low, PosOf(rows, place, list[i])))
    decreases |list|
  {
    if list != [] && !UpTo(low, PosOf(rows, place, list[0])) {
      BelowSplits(rows, place, table, list[1..], low);
      assert forall i :: 0 < i < |list| ==> list[i] == list[1..][i - 1];
    }
  }

  lemma TailMembers<R(!new)>(rows: map<int, R>, place: R -> Place, table: int, low: Pos, forward: seq<int>,
                             all: seq<int>, n: nat)
    requires Ascending(rows, place, table, low, forward) && Ascending(rows, place, table, Pos(0, 0), all) && n <= |all|
    requires forall i :: 0 <= i < n ==> Less(PosOf(rows, place, all[i]), low)
    requires forall i :: n <= i < |all| ==> UpTo(low, PosOf(rows, place, all[i]))
    ensures SameMembers(forward, all[n..]) && Increasing(rows, place, table, low, all[n..])
  {
    var tail := all[n..];
    forall id | id in forward ensures id in tail {
      var k :| 0 <= k < |forward| && forward[k] == id;
      assert InTable(rows, place, table, forward[k]);
      var i :| 0 <= i < |all| && all[i] == id;
      assert tail[i - n] == id;
    }
    forall id | id in tail ensures id in forward {
      var i :| 0 <= i < |tail| && tail[i] == id;
      assert InTable(rows, place, table, all[n + i]);
    }
  }

  /** Going back retraces going forward: a scan from `low` is the tail of the whole table's ascending list. */
  lemma BackRetraces<R(!new)>(rows: map<int, R>, place: R -> Place, table: int, low: Pos, forward: seq<int>,
                              all: seq<int>)
    requires Ascending(rows, place, table, low, forward) && Ascending(rows, place, table, Pos(0, 0), all)
    ensures |forward| <= |all| && forward == all[|all| - |forward|..]
  {
    BelowSplits(rows, place, table, all, low);
    var n := CountBelow(rows, place, all, low);
    TailMembers(rows, place, table, low, forward, all, n);
    SameOrder(rows, place, table, low, forward, all[n..]);
  }

  /** The rows' handles, in the rows' order. */
  ghost predicate Handles(list: seq<int>, rowToIter: map<int, int>, handles: seq<int>)
  {
    |handles| == |list| && forall i :: 0 <= i < |list| ==> list[i] in rowToIter && rowToIter[list[i]] == handles[i]
  }

  function Reversed(s: seq<int>): (r: seq<int>)
    ensures |r| == |s| && forall i :: 0 <= i < |s| ==> r[i] == s[|s| - 1 - i]
  {
    seq(|s|, i requires 0 <= i < |s| => s[|s| - 1 - i])
  }

  lemma HandlesRetrace(list: seq<int>, all: seq<int>, rowToIter: map<int, int>, forward: seq<int>, back: seq<int>)
    requires |list| <= |all| && list == all[|all| - |list|..]
    requires Handles(list, rowToIter, forward) && Handles(all, rowToIter, Reversed(back))
    ensures |forward| <= |back| && back[..|forward|] == Reversed(forward)
  {
    forall i | 0 <= i < |forward| ensures back[i] == Reversed(forward)[i] {
      var k := |list| - 1 - i;
      assert list[k] == all[|all| - |list| + k];
    }
  }
}
