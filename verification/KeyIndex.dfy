/** A unique secondary index: a map from keys to row ids, kept equal to what the rows say. */
module KeyIndex {
  import opened ArenaTypes

  /** `entries` is the key-to-id map of `rows`. */
  ghost predicate Exact(entries: map<Key, int>, key: Row -> Key, rows: Rows)
  {
    && (forall id :: id in rows ==> key(rows[id]) in entries && entries[key(rows[id])] == id)
    && (forall k :: k in entries ==> entries[k] in rows && key(rows[entries[k]]) == k)
  }

  lemma ExactUnique(a: map<Key, int>, b: map<Key, int>, key: Row -> Key, rows: Rows)
    requires Exact(a, key, rows) && Exact(b, key, rows)
    ensures a == b
  {
    forall k | k in a ensures k in b && b[k] == a[k] {
      var id := a[k];
      assert id in rows && key(rows[id]) == k;
    }
    forall k | k in b ensures k in a {
      var id := b[k];
      assert id in rows && key(rows[id]) == k;
    }
  }

  lemma ExactInsert(entries: map<Key, int>, key: Row -> Key, rows: Rows, row: Row)
    requires Exact(entries, key, rows) && row.id !in rows && key(row) !in entries
    ensures Exact(entries[key(row) := row.id], key, rows[row.id := row])
  {
  }

  lemma ExactErase(entries: map<Key, int>, key: Row -> Key, rows: Rows, id: int)
    requires Exact(entries, key, rows) && id in rows
    ensures Exact(entries - {key(rows[id])}, key, rows - {id})
  {
  }

  ghost predicate HasKey(key: Row -> Key, rows: Rows, k: Key)
  {
    exists id :: id in rows && key(rows[id]) == k
  }

  /**
    `entries` has the keys of `rows`, which are unique; an entry leads to where its
    row is filed or to the id its row carries.
   */
  ghost predicate Filed(entries: map<Key, int>, key: Row -> Key, rows: Rows)
  {
    && (forall id :: id in rows ==>
        key(rows[id]) in entries && (entries[key(rows[id])] == id || entries[key(rows[id])] == rows[id].id))
    && (forall k :: k in entries ==> HasKey(key, rows, k))
    && (forall a, b :: a in rows && b in rows && key(rows[a]) == key(rows[b]) ==> a == b)
  }

  /** For rows filed under their own ids it is the same. */
  lemma FiledIsExact(entries: map<Key, int>, key: Row -> Key, rows: Rows)
    requires forall id :: id in rows ==> rows[id].id == id
    ensures Filed(entries, key, rows) <==> Exact(entries, key, rows)
  {
    if Filed(entries, key, rows) {
      forall k | k in entries ensures entries[k] in rows && key(rows[entries[k]]) == k {
        var id :| id in rows && key(rows[id]) == k;
      }
    }
    if Exact(entries, key, rows) {
      forall k | k in entries ensures HasKey(key, rows, k) {
        var id := entries[k];
        assert id in rows && key(rows[id]) == k;
      }
    }
  }

  lemma FiledInsert(entries: map<Key, int>, key: Row -> Key, rows: Rows, id: int, row: Row)
    requires Filed(entries, key, rows) && id !in rows && key(row) !in entries
    ensures Filed(entries[key(row) := row.id], key, rows[id := row])
  {
    var now := rows[id := row];
    forall k | k == key(row) || k in entries ensures HasKey(key, now, k) {
      if k == key(row) {
        assert key(now[id]) == k;
      } else {
        var i :| i in rows && key(rows[i]) == k;
        assert i in now && key(now[i]) == k;
      }
    }
  }

  lemma FiledErase(entries: map<Key, int>, key: Row -> Key, rows: Rows, id: int)
    requires Filed(entries, key, rows) && id in rows
    ensures Filed(entries - {key(rows[id])}, key, rows - {id})
  {
    var now := rows - {id};
    forall k | k in entries && k != key(rows[id]) ensures HasKey(key, now, k) {
      var i :| i in rows && key(rows[i]) == k;
      assert i in now && key(now[i]) == k;
    }
  }

  lemma FiledKeys(entries: map<Key, int>, key: Row -> Key, rows: Rows, k: Key)
    requires Filed(entries, key, rows)
    ensures k in entries <==> HasKey(key, rows, k)
  {
  }

  /** No two of the first `n` listed rows have the same key. */
  ghost predicate KeysDiffer(rows: seq<(int, Row)>, key: Row -> Key, n: nat)
    requires n <= |rows|
  {
    forall i, j :: 0 <= i < j < n ==> key(rows[i].1) != key(rows[j].1)
  }

  /** `entries` has the keys of the first `n` listed rows and no others. */
  ghost predicate HasKeys(entries: map<Key, int>, rows: seq<(int, Row)>, key: Row -> Key, n: nat)
    requires n <= |rows|
  {
    && (forall i :: 0 <= i < n ==> key(rows[i].1) in entries)
    && (forall k :: k in entries ==> exists i :: 0 <= i < n && key(rows[i].1) == k)
  }

  ghost predicate Points(entries: map<Key, int>, rows: seq<(int, Row)>, key: Row -> Key, n: nat)
    requires n <= |rows|
  {
    forall i :: 0 <= i < n ==> key(rows[i].1) in entries && entries[key(rows[i].1)] == rows[i].0
  }

  lemma HasKeysNext(entries: map<Key, int>, rows: seq<(int, Row)>, key: Row -> Key, n: nat)
    requires n < |rows| && HasKeys(entries, rows, key, n)
    ensures HasKeys(entries[key(rows[n].1) := rows[n].0], rows, key, n + 1)
    ensures KeysDiffer(rows, key, n + 1) <==> KeysDiffer(rows, key, n) && key(rows[n].1) !in entries
    ensures KeysDiffer(rows, key, n + 1) && Points(entries, rows, key, n) ==>
            Points(entries[key(rows[n].1) := rows[n].0], rows, key, n + 1)
  {
    var k := key(rows[n].1);
    var next := entries[k := rows[n].0];
    forall k' | k' in next ensures exists i :: 0 <= i < n + 1 && key(rows[i].1) == k' {
      if k' == k {
        assert key(rows[n].1) == k';
      } else {
        var i :| 0 <= i < n && key(rows[i].1) == k';
        assert i < n + 1;
      }
    }
  }

  class Index {
    const key: Row -> Key
    var entries: map<Key, int>

    constructor (key: Row -> Key)
      ensures this.key == key && entries == map[]
    {
      this.key := key;
      entries := map[];
    }

    /** Inserts the row's key; leaves the index alone when the key is taken. */
    method TryInsert(row: Row) returns (ok: bool)
      modifies this
      ensures ok <==> key(row) !in old(entries)
      ensures entries == if ok then old(entries)[key(row) := row.id] else old(entries)
    {
      if key(row) in entries {
        return false;
      }
      entries := entries[key(row) := row.id];
      return true;
    }

    /** Moves an entry to its new key; leaves the index alone when that key is taken. */
    method Replace(was: Row, now: Row) returns (ok: bool)
      modifies this
      ensures ok <==> key(was) == key(now) || key(now) !in old(entries)
      ensures entries == if !ok || key(was) == key(now) then old(entries)
              else old(entries)[key(now) := was.id] - {key(was)}
    {
      if key(was) == key(now) {
        return true;
      }
      if key(now) in entries {
        return false;
      }
      entries := entries[key(now) := was.id];
      entries := entries - {key(was)};
      return true;
    }

    method Erase(row: Row)
      modifies this
      ensures entries == old(entries) - {key(row)}
    {
      entries := entries - {key(row)};
    }

    /**
      Rebuilds the index from listed rows. It succeeds exactly when no two of them
      share a key, and then maps each key to the id it was listed with.
     */
    method BulkBuild(rows: seq<(int, Row)>) returns (ok: bool)
      modifies this
      ensures ok <==> KeysDiffer(rows, key, |rows|)
      ensures ok ==> Points(entries, rows, key, |rows|) && HasKeys(entries, rows, key, |rows|)
    {
      entries := map[];
      var live := 0;
      while live < |rows|
        invariant 0 <= live <= |rows|
        invariant |entries| <= live
        invariant |entries| == live <==> KeysDiffer(rows, key, live)
        invariant HasKeys(entries, rows, key, live)
        invariant KeysDiffer(rows, key, live) ==> Points(entries, rows, key, live)
      {
        HasKeysNext(entries, rows, key, live);
        CountInsert(entries, key(rows[live].1), rows[live].0);
        hide KeysDiffer, HasKeys, Points;
        entries := entries[key(rows[live].1) := rows[live].0];
        live := live + 1;
      }
      ok := |entries| == live;
    }
  }

  lemma CountInsert(m: map<Key, int>, k: Key, v: int)
    ensures |m[k := v]| == if k in m then |m| else |m| + 1
  {
    assert m[k := v].Keys == m.Keys + {k};
  }
}
