/**
 * Row selection and ordering, the two things every query of the application
 * does to a table scan: a `WHERE` (or a list comprehension with a condition)
 * and an `ORDER BY ... DESC`.
 */
module Seqs {

  /** The elements of `s` satisfying `p`, in their original order. */
  function Select<T(!new)>(s: seq<T>, p: T -> bool): (r: seq<T>)
    ensures |r| <= |s|
    ensures forall x :: x in r <==> x in s && p(x)
  {
    if s == [] then []
    else
      var init := Select(s[..|s| - 1], p);
      assert s == s[..|s| - 1] + [s[|s| - 1]];
      if p(s[|s| - 1]) then init + [s[|s| - 1]] else init
  }

  /** `key` strictly increases from left to right. */
  predicate Ascending<T>(s: seq<T>, key: T -> int) {
    forall i, j :: 0 <= i < j < |s| ==> key(s[i]) < key(s[j])
  }

  /** Selecting from a sequence ordered strictly by `key` gives a sequence ordered the same way. */
  lemma {:induction false} SelectKeepsOrder<T(!new)>(s: seq<T>, p: T -> bool, key: T -> int)
    requires Ascending(s, key)
    ensures Ascending(Select(s, p), key)
  {
    if s != [] {
      var init := s[..|s| - 1];
      var last := s[|s| - 1];
      SelectKeepsOrder(init, p, key);
      var r0 := Select(init, p);
      assert s[..|s| - 1] == init;
      if p(last) {
        assert Select(s, p) == r0 + [last];
        var r := r0 + [last];
        forall i, j | 0 <= i < j < |r| ensures key(r[i]) < key(r[j]) {
          if j == |r| - 1 {
            assert r[i] in r0;
            var k :| 0 <= k < |init| && init[k] == r[i];
            assert s[k] == r[i] && k < |s| - 1;
            assert key(s[k]) < key(s[|s| - 1]);
          } else {
            assert r[i] == r0[i] && r[j] == r0[j];
          }
        }
      }
    }
  }

  /** Selecting from a sequence whose keys never increase gives a sequence whose keys never increase. */
  lemma {:induction false} SelectKeepsDescending<T(!new)>(s: seq<T>, p: T -> bool, key: T -> int)
    ensures Descending(s, key) ==> Descending(Select(s, p), key)
  {
    if s != [] && Descending(s, key) {
      var init := s[..|s| - 1];
      var last := s[|s| - 1];
      SelectKeepsDescending(init, p, key);
      var r0 := Select(init, p);
      assert s[..|s| - 1] == init;
      if p(last) {
        assert Select(s, p) == r0 + [last];
        var r := r0 + [last];
        forall i, j | 0 <= i < j < |r| ensures key(r[i]) >= key(r[j]) {
          if j == |r| - 1 {
            assert r[i] in r0;
            var k :| 0 <= k < |init| && init[k] == r[i];
            assert s[k] == r[i] && k < |s| - 1;
            assert key(s[k]) >= key(s[|s| - 1]);
          } else {
            assert r[i] == r0[i] && r[j] == r0[j];
          }
        }
      }
    }
  }

  /** Selecting from a duplicate-free sequence gives a duplicate-free sequence. */
  lemma {:induction false} SelectKeepsDistinct<T(!new)>(s: seq<T>, p: T -> bool)
    ensures Distinct(s) ==> Distinct(Select(s, p))
  {
    if s != [] && Distinct(s) {
      var init := s[..|s| - 1];
      var last := s[|s| - 1];
      assert Distinct(init);
      SelectKeepsDistinct(init, p);
      var r0 := Select(init, p);
      assert s[..|s| - 1] == init;
      if p(last) {
        assert Select(s, p) == r0 + [last];
        var r := r0 + [last];
        forall i, j | 0 <= i < j < |r| ensures r[i] != r[j] {
          if j == |r| - 1 {
            assert r[i] in r0;
            var k :| 0 <= k < |init| && init[k] == r[i];
            assert s[k] == r[i] && k < |s| - 1;
          } else {
            assert r[i] == r0[i] && r[j] == r0[j];
          }
        }
      }
    }
  }

  /** Selection distributes over putting an element in front. */
  lemma {:induction false} SelectCons<T(!new)>(x: T, s: seq<T>, p: T -> bool)
    ensures Select([x] + s, p) == (if p(x) then [x] else []) + Select(s, p)
  {
    if s != [] {
      var init := s[..|s| - 1];
      var last := s[|s| - 1];
      assert ([x] + s)[..|s|] == [x] + init;
      assert ([x] + s)[|s|] == last;
      SelectCons(x, init, p);
    } else {
      assert ([x] + s)[..0] == [];
    }
  }

  /** Selecting twice is selecting once by both conditions. */
  lemma {:induction false} SelectTwice<T(!new)>(s: seq<T>, p: T -> bool, q: T -> bool, both: T -> bool)
    requires forall x :: x in s ==> both(x) == (p(x) && q(x))
    ensures Select(Select(s, p), q) == Select(s, both)
  {
    if s != [] {
      var init := s[..|s| - 1];
      var last := s[|s| - 1];
      assert last in s;
      assert forall x :: x in init ==> x in s;
      SelectTwice(init, p, q, both);
      if p(last) {
        assert Select(s, p) == Select(init, p) + [last];
        var sp := Select(s, p);
        assert sp[..|sp| - 1] == Select(init, p);
      }
    }
  }

  /** Selection distributes over concatenation. */
  lemma {:induction false} SelectAppend<T(!new)>(a: seq<T>, b: seq<T>, p: T -> bool)
    ensures Select(a + b, p) == Select(a, p) + Select(b, p)
    decreases |b|
  {
    if b == [] {
      assert a + b == a;
    } else {
      var init := b[..|b| - 1];
      var last := b[|b| - 1];
      assert (a + b)[..|a + b| - 1] == a + init;
      assert (a + b)[|a + b| - 1] == last;
      SelectAppend(a, init, p);
    }
  }

  /** Selecting by a condition every element meets keeps everything. */
  lemma {:induction false} SelectAll<T(!new)>(s: seq<T>, p: T -> bool)
    requires forall i :: 0 <= i < |s| ==> p(s[i])
    ensures Select(s, p) == s
  {
    if s != [] {
      SelectAll(s[..|s| - 1], p);
      assert s == s[..|s| - 1] + [s[|s| - 1]];
    }
  }

  /** Selecting by a condition no element meets keeps nothing. */
  lemma SelectNone<T(!new)>(s: seq<T>, p: T -> bool)
    requires forall x :: x in s ==> !p(x)
    ensures Select(s, p) == []
  {
    if Select(s, p) != [] {
      assert Select(s, p)[0] in Select(s, p);
    }
  }

  /** `key` never increases from left to right. */
  predicate Descending<T>(s: seq<T>, key: T -> int) {
    forall i, j :: 0 <= i < j < |s| ==> key(s[i]) >= key(s[j])
  }

  lemma DescendingTail<T>(s: seq<T>, key: T -> int)
    requires s != [] && Descending(s, key)
    ensures Descending(s[1..], key)
  {
    forall i, j | 0 <= i < j < |s| - 1 ensures key(s[1..][i]) >= key(s[1..][j]) {
      assert s[1..][i] == s[i + 1] && s[1..][j] == s[j + 1];
    }
  }

  /** A sequence with non-increasing keys stays so when an element with a key at least its head's is put in front. */
  lemma DescendingCons<T>(x: T, s: seq<T>, key: T -> int)
    requires Descending(s, key) && (s != [] ==> key(x) >= key(s[0]))
    ensures Descending([x] + s, key)
  {
    var r := [x] + s;
    forall i, j | 0 <= i < j < |r| ensures key(r[i]) >= key(r[j]) {
      if i == 0 {
        assert r[j] == s[j - 1];
        if j > 1 { assert key(s[0]) >= key(s[j - 1]); }
      } else {
        assert r[i] == s[i - 1] && r[j] == s[j - 1];
      }
    }
  }

  /** `x` placed in front of the first element of `s` whose key is not above its own. */
  function InsertDescending<T>(x: T, s: seq<T>, key: T -> int): (r: seq<T>)
    requires Descending(s, key)
    ensures Descending(r, key)
    ensures multiset(r) == multiset(s) + multiset{x}
    ensures r != [] && (r[0] == x || (s != [] && r[0] == s[0]))
  {
    if s == [] then [x]
    else if key(s[0]) <= key(x) then
      DescendingCons(x, s, key);
      [x] + s
    else
      DescendingTail(s, key);
      var rest := InsertDescending(x, s[1..], key);
      assert s == [s[0]] + s[1..];
      DescendingCons(s[0], rest, key);
      [s[0]] + rest
  }

  /**
   * `ORDER BY key DESC`: a permutation of `s` with non-increasing keys.
   */
  function SortDescending<T>(s: seq<T>, key: T -> int): (r: seq<T>)
    ensures Descending(r, key)
    ensures multiset(r) == multiset(s)
    ensures |r| == |s|
  {
    if s == [] then []
    else
      assert s == [s[0]] + s[1..];
      var r := InsertDescending(s[0], SortDescending(s[1..], key), key);
      assert |r| == |multiset(r)|;
      r
  }

  /** No element occurs twice. */
  predicate Distinct<T(==)>(s: seq<T>) {
    forall i, j :: 0 <= i < j < |s| ==> s[i] != s[j]
  }

  /** A sequence is duplicate-free exactly when its multiset counts every element at most once. */
  lemma {:induction false} DistinctCounts<T>(s: seq<T>)
    ensures Distinct(s) <==> forall x :: multiset(s)[x] <= 1
  {
    if s != [] {
      var init := s[..|s| - 1];
      var last := s[|s| - 1];
      assert s == init + [last];
      DistinctCounts(init);
      assert forall x :: multiset(s)[x] == multiset(init)[x] + (if x == last then 1 else 0);
      if Distinct(s) {
        assert Distinct(init);
        assert last !in init;
      }
      if forall x :: multiset(s)[x] <= 1 {
        assert forall x :: multiset(init)[x] <= 1 by {
          forall x ensures multiset(init)[x] <= 1 { assert multiset(s)[x] <= 1; }
        }
        assert multiset(init)[last] == 0 by { assert multiset(s)[last] <= 1; }
        forall i, j | 0 <= i < j < |s| ensures s[i] != s[j] {
          if j == |s| - 1 {
            assert s[i] in multiset(init) by { assert s[i] == init[i]; }
          } else {
            assert s[i] == init[i] && s[j] == init[j];
          }
        }
      }
    }
  }

  /** A sequence ordered strictly by some key has no duplicates. */
  lemma AscendingDistinct<T>(s: seq<T>, key: T -> int)
    requires Ascending(s, key)
    ensures Distinct(s)
  {
  }

  /** A rearrangement of a duplicate-free sequence is duplicate-free. */
  lemma DistinctPermutation<T>(a: seq<T>, b: seq<T>)
    requires multiset(a) == multiset(b) && Distinct(b)
    ensures Distinct(a)
  {
    DistinctCounts(a);
    DistinctCounts(b);
  }
}
