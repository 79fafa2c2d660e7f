/**
 * An in-memory stand-in for one SQLite table whose first column is
 * `id INTEGER PRIMARY KEY AUTOINCREMENT`: the rows by key, and the next key
 * `AUTOINCREMENT` hands out (one more than the table's `sqlite_sequence` entry,
 * so a deleted key is never reused). A `Table` is a value, so a transaction's
 * snapshot is a copy and a rollback is an assignment of that copy.
 */
module Tables {
  import opened Seqs

  datatype Table<T(==)> = Table(rows: map<int, T>, nextId: int) {

    /** Every key was handed out by `AUTOINCREMENT`: it is positive and below `nextId`. */
    predicate Valid() {
      nextId >= 1 && forall k :: k in rows ==> 1 <= k < nextId
    }

    /** `x` is one of the stored rows. */
    predicate Holds(x: T) {
      exists k :: k in rows && rows[k] == x
    }

    /** `SELECT * FROM t` with no `ORDER BY`: SQLite visits the rows in key order. */
    function Scan(): seq<T> {
      ScanFrom(1)
    }

    /** The rows with key `k` or more, in key order. */
    function ScanFrom(k: int): seq<T>
      decreases nextId - k
    {
      if k >= nextId then []
      else if k in rows then [rows[k]] + ScanFrom(k + 1)
      else ScanFrom(k + 1)
    }

    /** `INSERT`: the new row gets key `nextId`. */
    function Insert(r: T): (t: Table<T>)
      requires Valid()
      ensures t.Valid() && nextId !in rows
      ensures t.rows == rows[nextId := r] && t.nextId == nextId + 1
    {
      Table(rows[nextId := r], nextId + 1)
    }

    /** `UPDATE ... WHERE id = k` on a present key. */
    function Update(k: int, r: T): (t: Table<T>)
      requires Valid() && k in rows
      ensures t.Valid() && t.rows == rows[k := r] && t.nextId == nextId
    {
      Table(rows[k := r], nextId)
    }

    /** `DELETE ... WHERE NOT keep(row)`: `AUTOINCREMENT` keeps counting from where it was. */
    function KeepRows(keep: T -> bool): (t: Table<T>)
      requires Valid()
      ensures t.Valid() && t.nextId == nextId
      ensures forall k :: k in t.rows <==> k in rows && keep(rows[k])
      ensures forall k :: k in t.rows ==> t.rows[k] == rows[k]
    {
      Table(map k | k in rows && keep(rows[k]) :: rows[k], nextId)
    }
  }

  /** A second update of the same key overrides the first. */
  lemma UpdateTwice<T>(t: Table<T>, k: int, a: T, b: T)
    requires t.Valid() && k in t.rows
    ensures t.Update(k, a).Update(k, b) == t.Update(k, b)
  {
    assert t.Update(k, a).Update(k, b).rows == t.Update(k, b).rows;
  }

  /** The empty table of a freshly created database file. */
  function EmptyTable<T(==)>(): (t: Table<T>)
    ensures t.Valid() && t.rows == map[] && t.Scan() == []
  {
    Table(map[], 1)
  }

  /** A scan from key `k` lists stored rows only, and every stored row with key `k` or more. */
  lemma {:induction false} ScanFromRows<T>(t: Table<T>, k: int)
    ensures forall i :: 0 <= i < |t.ScanFrom(k)| ==> t.Holds(t.ScanFrom(k)[i])
    ensures forall j :: k <= j < t.nextId && j in t.rows ==> t.rows[j] in t.ScanFrom(k)
    decreases t.nextId - k
  {
    if k < t.nextId {
      ScanFromRows(t, k + 1);
      var rest := t.ScanFrom(k + 1);
      if k in t.rows {
        var s := [t.rows[k]] + rest;
        assert t.ScanFrom(k) == s;
        forall i | 0 <= i < |s| ensures t.Holds(s[i]) {
          if i > 0 { assert s[i] == rest[i - 1]; }
        }
      }
    }
  }

  /** A scan visits exactly the stored rows. */
  lemma ScanRows<T(!new)>(t: Table<T>)
    requires t.Valid()
    ensures forall x :: x in t.Scan() <==> t.Holds(x)
  {
    ScanFromRows(t, 1);
    forall x | t.Holds(x) ensures x in t.Scan() {
      var k :| k in t.rows && t.rows[k] == x;
    }
    forall x | x in t.Scan() ensures t.Holds(x) {
      var i :| 0 <= i < |t.Scan()| && t.Scan()[i] == x;
    }
  }

  /**
   * Two tables with the same keys whose rows agree under `f` scan to sequences that
   * agree under `f` position by position.
   */
  lemma {:induction false} ScanFromAlike<T, U>(t: Table<T>, u: Table<T>, f: T -> U, k: int)
    requires t.nextId == u.nextId
    requires forall j :: j in t.rows <==> j in u.rows
    requires forall j :: j in t.rows ==> f(t.rows[j]) == f(u.rows[j])
    ensures |t.ScanFrom(k)| == |u.ScanFrom(k)|
    ensures forall i :: 0 <= i < |t.ScanFrom(k)| ==> f(t.ScanFrom(k)[i]) == f(u.ScanFrom(k)[i])
    decreases t.nextId - k
  {
    if k < t.nextId {
      ScanFromAlike(t, u, f, k + 1);
      if k in t.rows {
        var a := t.ScanFrom(k + 1);
        var b := u.ScanFrom(k + 1);
        assert t.ScanFrom(k) == [t.rows[k]] + a;
        assert u.ScanFrom(k) == [u.rows[k]] + b;
        forall i | 0 < i < |a| + 1 ensures f(([t.rows[k]] + a)[i]) == f(([u.rows[k]] + b)[i]) {
          assert ([t.rows[k]] + a)[i] == a[i - 1];
          assert ([u.rows[k]] + b)[i] == b[i - 1];
        }
      }
    }
  }

  /** A row inserted last is scanned last. */
  lemma {:induction false} ScanFromInsert<T>(t: Table<T>, r: T, k: int)
    requires t.Valid() && k <= t.nextId
    ensures t.Insert(r).ScanFrom(k) == t.ScanFrom(k) + [r]
    decreases t.nextId - k
  {
    var u := t.Insert(r);
    if k == t.nextId {
      assert u.ScanFrom(k + 1) == [];
    } else {
      ScanFromInsert(t, r, k + 1);
    }
  }

  lemma ScanInsert<T>(t: Table<T>, r: T)
    requires t.Valid()
    ensures t.Insert(r).Scan() == t.Scan() + [r]
  {
    ScanFromInsert(t, r, 1);
  }

  /** Deleting rows and then scanning is scanning and then dropping those rows. */
  lemma {:induction false} ScanFromKeepRows<T(!new)>(t: Table<T>, keep: T -> bool, k: int)
    requires t.Valid()
    ensures t.KeepRows(keep).ScanFrom(k) == Select(t.ScanFrom(k), keep)
    decreases t.nextId - k
  {
    var u := t.KeepRows(keep);
    if k < t.nextId {
      ScanFromKeepRows(t, keep, k + 1);
      var rest := t.ScanFrom(k + 1);
      assert u.ScanFrom(k + 1) == Select(rest, keep);
      if k in t.rows {
        SelectCons(t.rows[k], rest, keep);
        assert t.ScanFrom(k) == [t.rows[k]] + rest;
        if keep(t.rows[k]) {
          assert k in u.rows && u.rows[k] == t.rows[k];
          assert u.ScanFrom(k) == [t.rows[k]] + u.ScanFrom(k + 1);
        } else {
          assert k !in u.rows;
          assert u.ScanFrom(k) == u.ScanFrom(k + 1);
        }
      } else {
        assert k !in u.rows;
        assert u.ScanFrom(k) == u.ScanFrom(k + 1);
        assert t.ScanFrom(k) == rest;
      }
    }
  }

  lemma ScanKeepRows<T(!new)>(t: Table<T>, keep: T -> bool)
    requires t.Valid()
    ensures t.KeepRows(keep).Scan() == Select(t.Scan(), keep)
  {
    ScanFromKeepRows(t, keep, 1);
  }

  /** When every row records its own key, a scan lists the rows by ascending key. */
  lemma {:induction false} ScanFromAscending<T>(t: Table<T>, key: T -> int, k: int)
    requires forall j :: j in t.rows ==> key(t.rows[j]) == j
    ensures Ascending(t.ScanFrom(k), key)
    ensures forall x :: x in t.ScanFrom(k) ==> key(x) >= k
    decreases t.nextId - k
  {
    if k < t.nextId {
      ScanFromAscending(t, key, k + 1);
      if k in t.rows {
        var rest := t.ScanFrom(k + 1);
        var s := [t.rows[k]] + rest;
        forall i, j | 0 <= i < j < |s| ensures key(s[i]) < key(s[j]) {
          assert s[j] == rest[j - 1] && rest[j - 1] in rest;
          if i > 0 { assert s[i] == rest[i - 1]; }
        }
      }
    }
  }

  lemma ScanAscending<T>(t: Table<T>, key: T -> int)
    requires forall j :: j in t.rows ==> key(t.rows[j]) == j
    ensures Ascending(t.Scan(), key)
  {
    ScanFromAscending(t, key, 1);
  }
}
