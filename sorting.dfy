/** Python's `sorted(xs, key=k, reverse=True)` and SQL's `ORDER BY k DESC`:
    a stable sort by a real-valued key, largest key first. Stable means that
    elements with equal keys keep the order they had in the input, which is
    what Python guarantees for `reverse=True` too. */
module Sorting {

  /** Inserts `x` in front of the first element whose key is not larger. */
  function Insert<T>(x: T, s: seq<T>, key: T -> real): (r: seq<T>)
    ensures |r| == |s| + 1
    ensures multiset(r) == multiset(s) + multiset{x}
  {
    if s == [] || key(s[0]) <= key(x) then [x] + s
    else
      assert s == [s[0]] + s[1..];
      [s[0]] + Insert(x, s[1..], key)
  }

  /** Insertion sort; `s[0]` is inserted into the sorted rest, in front of
      every element of equal key, so that the sort is stable. */
  function SortDesc<T>(s: seq<T>, key: T -> real): (r: seq<T>)
    ensures |r| == |s|
    ensures multiset(r) == multiset(s)
  {
    if s == [] then []
    else
      assert s == [s[0]] + s[1..];
      Insert(s[0], SortDesc(s[1..], key), key)
  }

  ghost predicate SortedDesc<T>(s: seq<T>, key: T -> real)
  {
    forall i, j :: 0 <= i < j < |s| ==> key(s[i]) >= key(s[j])
  }

  /** In a sequence sorted by descending key, nothing outside the first `n`
      elements has a larger key than any of them. */
  lemma SortedPrefixTop<T>(s: seq<T>, key: T -> real, n: nat)
    requires SortedDesc(s, key) && n <= |s|
    ensures forall x, i :: x in multiset(s) - multiset(s[..n]) && 0 <= i < n ==> key(x) <= key(s[i])
  {
    assert multiset(s) == multiset(s[..n]) + multiset(s[n..]) by {
      assert s == s[..n] + s[n..];
    }
    forall x, i | x in multiset(s) - multiset(s[..n]) && 0 <= i < n
      ensures key(x) <= key(s[i])
    {
      assert x in s[n..];
      var k :| 0 <= k < |s[n..]| && s[n..][k] == x;
      assert s[n + k] == x;
    }
  }

  /** The elements of `s` whose key is `k`, in order. */
  function WithKey<T>(s: seq<T>, key: T -> real, k: real): seq<T>
  {
    if s == [] then []
    else if key(s[0]) == k then [s[0]] + WithKey(s[1..], key, k)
    else WithKey(s[1..], key, k)
  }

  lemma {:induction false} InsertSorted<T>(x: T, s: seq<T>, key: T -> real)
    requires SortedDesc(s, key)
    ensures SortedDesc(Insert(x, s, key), key)
    ensures Insert(x, s, key)[0] == x || (s != [] && Insert(x, s, key)[0] == s[0])
  {
    if s != [] && key(s[0]) > key(x) {
      InsertSorted(x, s[1..], key);
      var r := Insert(x, s, key);
      var t := Insert(x, s[1..], key);
      assert r == [s[0]] + t;
      forall i, j | 0 <= i < j < |r| ensures key(r[i]) >= key(r[j]) {
        if i == 0 {
          assert r[j] == t[j - 1];
          assert multiset(t) == multiset(s[1..]) + multiset{x};
          assert t[j - 1] in multiset(t);
          if t[j - 1] != x {
            assert t[j - 1] in multiset(s[1..]);
            var m :| 0 <= m < |s[1..]| && s[1..][m] == t[j - 1];
            assert s[m + 1] == t[j - 1];
          }
        } else {
          assert r[i] == t[i - 1] && r[j] == t[j - 1];
        }
      }
    }
  }

  /** The sort orders by key, largest first. */
  lemma {:induction false} SortDescSorted<T>(s: seq<T>, key: T -> real)
    ensures SortedDesc(SortDesc(s, key), key)
  {
    if s != [] {
      SortDescSorted(s[1..], key);
      InsertSorted(s[0], SortDesc(s[1..], key), key);
    }
  }

  lemma {:induction false} InsertWithKey<T>(x: T, s: seq<T>, key: T -> real, k: real)
    ensures WithKey(Insert(x, s, key), key, k) ==
            (if key(x) == k then [x] else []) + WithKey(s, key, k)
  {
    if s == [] || key(s[0]) <= key(x) {
      assert Insert(x, s, key) == [x] + s;
      assert ([x] + s)[1..] == s;
    } else {
      InsertWithKey(x, s[1..], key, k);
      var t := Insert(x, s[1..], key);
      assert ([s[0]] + t)[1..] == t;
    }
  }

  /** The sort is stable: for every key value, the elements carrying it come
      out in the order they went in. */
  lemma {:induction false} SortDescStable<T>(s: seq<T>, key: T -> real, k: real)
    ensures WithKey(SortDesc(s, key), key, k) == WithKey(s, key, k)
  {
    if s != [] {
      SortDescStable(s[1..], key, k);
      InsertWithKey(s[0], SortDesc(s[1..], key), key, k);
    }
  }
}
