/**
  Iterator handles of one transaction: rows get non-negative handles in the order
  they are first named, tables get end handles from -2 downwards.
 */
module IteratorHandles {

  class IteratorCache {
    var endToTable: seq<int>
    var tableToEnd: map<int, int>
    var iterToRow: seq<int>
    var rowToIter: map<int, int>

    /** Handles and what they name are in one-to-one correspondence. */
    ghost predicate Valid()
      reads this
    {
      && |tableToEnd| == |endToTable| && |rowToIter| == |iterToRow|
      && (forall i :: 0 <= i < |endToTable| ==> endToTable[i] in tableToEnd && tableToEnd[endToTable[i]] == -(i + 2))
      && (forall t :: t in tableToEnd ==> 0 <= -tableToEnd[t] - 2 < |endToTable| && endToTable[-tableToEnd[t] - 2] == t)
      && (forall i :: 0 <= i < |iterToRow| ==> iterToRow[i] in rowToIter && rowToIter[iterToRow[i]] == i)
      && (forall r :: r in rowToIter ==> 0 <= rowToIter[r] < |iterToRow| && iterToRow[rowToIter[r]] == r)
    }

    constructor ()
      ensures Valid() && tableToEnd == map[] && rowToIter == map[]
    {
      endToTable, tableToEnd, iterToRow, rowToIter := [], map[], [], map[];
    }

    method Reset()
      modifies this
      ensures Valid() && tableToEnd == map[] && rowToIter == map[]
    {
      endToTable, tableToEnd, iterToRow, rowToIter := [], map[], [], map[];
    }

    /** The table's end handle, from -2 downwards as tables are first named. Handles given out before are kept. */
    method CacheTable(table: int) returns (end: int)
      requires Valid()
      modifies this`endToTable, this`tableToEnd
      ensures Valid() && end <= -2
      ensures tableToEnd == old(tableToEnd)[table := end]
      ensures end == if table in old(tableToEnd) then old(tableToEnd)[table] else -(|old(tableToEnd)| + 2)
    {
      if table in tableToEnd {
        assert tableToEnd == tableToEnd[table := tableToEnd[table]];
        return tableToEnd[table];
      }
      end := -(|endToTable| + 2);
      endToTable := endToTable + [table];
      tableToEnd := tableToEnd[table := end];
    }

    method TableOfEnd(end: int) returns (table: int)
      requires Valid() && exists t :: t in tableToEnd && tableToEnd[t] == end
      ensures table in tableToEnd && tableToEnd[table] == end
    {
      return endToTable[-end - 2];
    }

    /** The row's handle, from 0 upwards as rows are first named. Handles given out before are kept. */
    method Add(row: int) returns (handle: int)
      requires Valid()
      modifies this`iterToRow, this`rowToIter
      ensures Valid() && 0 <= handle
      ensures rowToIter == old(rowToIter)[row := handle]
      ensures handle == if row in old(rowToIter) then old(rowToIter)[row] else |old(rowToIter)|
    {
      if row in rowToIter {
        assert rowToIter == rowToIter[row := rowToIter[row]];
        return rowToIter[row];
      }
      handle := |iterToRow|;
      iterToRow := iterToRow + [row];
      rowToIter := rowToIter[row := handle];
    }

    method RowOf(handle: int) returns (row: int)
      requires Valid() && exists r :: r in rowToIter && rowToIter[r] == handle
      ensures row in rowToIter && rowToIter[row] == handle
    {
      return iterToRow[handle];
    }

    /** No two rows share a handle, no two tables share an end, and no row handle is an end. */
    lemma HandlesDiffer()
      requires Valid()
      ensures forall a, b :: a in rowToIter && b in rowToIter && rowToIter[a] == rowToIter[b] ==> a == b
      ensures forall s, t :: s in tableToEnd && t in tableToEnd && tableToEnd[s] == tableToEnd[t] ==> s == t
      ensures forall r, t :: r in rowToIter && t in tableToEnd ==> tableToEnd[t] < -1 < rowToIter[r]
    {
      forall a, b | a in rowToIter && b in rowToIter && rowToIter[a] == rowToIter[b] ensures a == b {
        assert iterToRow[rowToIter[a]] == a;
      }
      forall s, t | s in tableToEnd && t in tableToEnd && tableToEnd[s] == tableToEnd[t] ensures s == t {
        assert endToTable[-tableToEnd[s] - 2] == s;
      }
    }
  }
}
