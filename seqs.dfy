/** Sequence operations the routers perform on query results: filtering
    (a `WHERE` clause), counting (`.count()`), string concatenation (`+=`),
    and first-occurrence deduplication by a key (a loop with a `seen` set). */
module Seqs {

  /** The elements of `s` satisfying `p`, in order. */
  function Filter<T>(s: seq<T>, p: T -> bool): (r: seq<T>)
    ensures |r| <= |s|
  {
    if s == [] then []
    else if p(s[0]) then [s[0]] + Filter(s[1..], p)
    else Filter(s[1..], p)
  }

  lemma {:induction false} FilterAppend<T>(a: seq<T>, b: seq<T>, p: T -> bool)
    ensures Filter(a + b, p) == Filter(a, p) + Filter(b, p)
  {
    if a == [] {
      assert a + b == b;
    } else {
      var ab := a + b;
      assert ab[0] == a[0];
      assert ab[1..] == a[1..] + b;
      FilterAppend(a[1..], b, p);
      var rest := Filter(a[1..], p) + Filter(b, p);
      assert Filter(ab, p) == (if p(a[0]) then [a[0]] + rest else rest);
      if p(a[0]) {
        assert [a[0]] + rest == ([a[0]] + Filter(a[1..], p)) + Filter(b, p);
      }
    }
  }

  /** Filtering the last element on is the same as filtering the prefix and
      then deciding about that element. */
  lemma FilterSnoc<T>(s: seq<T>, x: T, p: T -> bool)
    ensures Filter(s + [x], p) == Filter(s, p) + (if p(x) then [x] else [])
  {
    FilterAppend(s, [x], p);
  }

  /** What `Filter` keeps: exactly the elements satisfying `p`. */
  lemma {:induction false} FilterMembers<T>(s: seq<T>, p: T -> bool)
    ensures forall i :: 0 <= i < |Filter(s, p)| ==> p(Filter(s, p)[i]) && Filter(s, p)[i] in s
    ensures forall i :: 0 <= i < |s| && p(s[i]) ==> s[i] in Filter(s, p)
  {
    if s != [] {
      FilterMembers(s[1..], p);
      forall i | 0 <= i < |s| && p(s[i]) ensures s[i] in Filter(s, p) {
        if i > 0 { assert s[i] == s[1..][i - 1]; }
      }
    }
  }

  /** Filtering with a predicate every element satisfies changes nothing. */
  lemma {:induction false} FilterAll<T>(s: seq<T>, p: T -> bool)
    requires forall i :: 0 <= i < |s| ==> p(s[i])
    ensures Filter(s, p) == s
  {
    if s != [] {
      FilterAll(s[1..], p);
    }
  }

  /** A relation that holds between every earlier and later element of `s`
      still holds after filtering, because filtering keeps the order. */
  lemma {:induction false} FilterPairwise<T>(s: seq<T>, p: T -> bool, rel: (T, T) -> bool)
    requires forall i, j :: 0 <= i < j < |s| ==> rel(s[i], s[j])
    ensures forall i, j :: 0 <= i < j < |Filter(s, p)| ==> rel(Filter(s, p)[i], Filter(s, p)[j])
  {
    if s != [] {
      assert forall i, j :: 0 <= i < j < |s[1..]| ==> rel(s[1..][i], s[1..][j]) by {
        forall i, j | 0 <= i < j < |s[1..]| ensures rel(s[1..][i], s[1..][j]) {
          assert s[1..][i] == s[i + 1] && s[1..][j] == s[j + 1];
        }
      }
      FilterPairwise(s[1..], p, rel);
      if p(s[0]) {
        var f, t := Filter(s, p), Filter(s[1..], p);
        assert f == [s[0]] + t;
        FilterMembers(s[1..], p);
        forall i, j | 0 <= i < j < |f| ensures rel(f[i], f[j]) {
          if i == 0 {
            assert f[j] == t[j - 1] && t[j - 1] in s[1..];
            var k :| 0 <= k < |s[1..]| && s[1..][k] == t[j - 1];
            assert s[k + 1] == t[j - 1];
          } else {
            assert f[i] == t[i - 1] && f[j] == t[j - 1];
          }
        }
      }
    }
  }

  /** Filtering keeps keys distinct. */
  lemma FilterDistinct<T, K>(s: seq<T>, p: T -> bool, key: T -> K)
    requires DistinctKeys(s, key)
    ensures DistinctKeys(Filter(s, p), key)
  {
    FilterPairwise(s, p, (a, b) => key(a) != key(b));
  }

  /** Filters that agree on every element of `s` select the same elements. */
  lemma {:induction false} FilterCongruent<T>(s: seq<T>, p: T -> bool, q: T -> bool)
    requires forall x :: x in s ==> p(x) == q(x)
    ensures Filter(s, p) == Filter(s, q)
  {
    if s != [] {
      FilterCongruent(s[1..], p, q);
    }
  }

  /** Filtering twice is filtering by the conjunction. */
  lemma {:induction false} FilterFilter<T>(s: seq<T>, p: T -> bool, q: T -> bool)
    ensures Filter(Filter(s, p), q) == Filter(s, x => p(x) && q(x))
  {
    if s != [] {
      FilterFilter(s[1..], p, q);
    }
  }

  /** Filtering never changes multiplicities of kept elements and drops the rest. */
  lemma {:induction false} FilterMultiset<T>(s: seq<T>, p: T -> bool, x: T)
    ensures multiset(Filter(s, p))[x] == if p(x) then multiset(s)[x] else 0
  {
    if s != [] {
      FilterMultiset(s[1..], p, x);
      assert s == [s[0]] + s[1..];
    }
  }

  /** Filtering two permutations of each other keeps the same elements. */
  lemma FilterPermutation<T>(a: seq<T>, b: seq<T>, p: T -> bool)
    requires multiset(a) == multiset(b)
    ensures multiset(Filter(a, p)) == multiset(Filter(b, p))
  {
    forall x ensures multiset(Filter(a, p))[x] == multiset(Filter(b, p))[x] {
      FilterMultiset(a, p, x);
      FilterMultiset(b, p, x);
    }
    MultisetExtensionality(multiset(Filter(a, p)), multiset(Filter(b, p)));
  }

  lemma MultisetExtensionality<T>(m1: multiset<T>, m2: multiset<T>)
    requires forall x :: m1[x] == m2[x]
    ensures m1 == m2
  {
  }

  /** The number of elements of `s` satisfying `p`. */
  function Count<T>(s: seq<T>, p: T -> bool): nat
  {
    if s == [] then 0 else (if p(s[0]) then 1 else 0) + Count(s[1..], p)
  }

  lemma {:induction false} CountIsFilterLength<T>(s: seq<T>, p: T -> bool)
    ensures Count(s, p) == |Filter(s, p)|
  {
    if s != [] {
      CountIsFilterLength(s[1..], p);
    }
  }

  lemma {:induction false} CountAppend<T>(a: seq<T>, b: seq<T>, p: T -> bool)
    ensures Count(a + b, p) == Count(a, p) + Count(b, p)
  {
    CountIsFilterLength(a + b, p);
    CountIsFilterLength(a, p);
    CountIsFilterLength(b, p);
    FilterAppend(a, b, p);
  }

  /** Removing one position drops its element from the count, if it counted. */
  lemma CountRemoveAt<T>(s: seq<T>, i: nat, p: T -> bool)
    requires i < |s|
    ensures Count(s[..i] + s[i + 1..], p) + (if p(s[i]) then 1 else 0) == Count(s, p)
  {
    var before, x, after := s[..i], s[i], s[i + 1..];
    assert s == before + [x] + after;
    CountAppend(before + [x], after, p);
    CountAppend(before, [x], p);
    CountAppend(before, after, p);
    assert [x][1..] == [];
  }

  /** Counting within a filtered sequence by a predicate that implies the
      filter counts the same as in the whole sequence. */
  lemma {:induction false} CountOfFilter<T>(s: seq<T>, p: T -> bool, q: T -> bool)
    requires forall x :: q(x) ==> p(x)
    ensures Count(Filter(s, p), q) == Count(s, q)
  {
    if s != [] {
      CountOfFilter(s[1..], p, q);
      if p(s[0]) {
        assert ([s[0]] + Filter(s[1..], p))[1..] == Filter(s[1..], p);
      }
    }
  }

  /** Counting by `q` within the elements that pass `p` counts the elements
      passing both, stated through any predicate `r` equal to the pair. */
  lemma {:induction false} CountWithin<T>(s: seq<T>, p: T -> bool, q: T -> bool, r: T -> bool)
    requires forall x :: r(x) == (p(x) && q(x))
    ensures Count(Filter(s, p), q) == Count(s, r)
  {
    if s != [] {
      CountWithin(s[1..], p, q, r);
      if p(s[0]) {
        assert ([s[0]] + Filter(s[1..], p))[1..] == Filter(s[1..], p);
      }
    }
  }

  /** Appending one element adds one to the count exactly when it counts. */
  lemma CountSnoc<T>(s: seq<T>, x: T, p: T -> bool)
    ensures Count(s + [x], p) == Count(s, p) + (if p(x) then 1 else 0)
  {
    CountAppend(s, [x], p);
    assert [x][1..] == [];
  }

  /** Nothing satisfies `p` exactly when nothing is counted. */
  lemma {:induction false} CountZero<T>(s: seq<T>, p: T -> bool)
    ensures Count(s, p) == 0 <==> forall i :: 0 <= i < |s| ==> !p(s[i])
  {
    if s != [] {
      CountZero(s[1..], p);
      assert forall i :: 1 <= i < |s| ==> s[i] == s[1..][i - 1];
    }
  }

  /** Filtering with a predicate that only the element at `i` fails drops
      exactly that element and keeps the others in order. */
  lemma {:induction false} FilterDropOne<T>(s: seq<T>, p: T -> bool, i: nat)
    requires i < |s| && !p(s[i])
    requires forall k :: 0 <= k < |s| && k != i ==> p(s[k])
    ensures Filter(s, p) == s[..i] + s[i + 1..]
  {
    if i == 0 {
      var t := s[1..];
      forall k | 0 <= k < |t| ensures p(t[k]) {
        assert t[k] == s[k + 1];
      }
      FilterAll(t, p);
      assert s[..0] + s[1..] == t;
    } else {
      FilterDropOne(s[1..], p, i - 1);
      assert s[1..][..i - 1] + s[1..][i..] == s[1..i] + s[i + 1..];
      assert s[..i] + s[i + 1..] == [s[0]] + (s[1..i] + s[i + 1..]);
    }
  }

  /** The concatenation of all strings of `parts`, in order. */
  function Concat(parts: seq<string>): string
  {
    if parts == [] then "" else Concat(parts[..|parts| - 1]) + parts[|parts| - 1]
  }

  /** The set of keys of the elements of `s`. */
  function KeySet<T, K(==)>(s: seq<T>, key: T -> K): (r: set<K>)
    ensures forall i :: 0 <= i < |s| ==> key(s[i]) in r
    ensures forall k :: k in r ==> exists i :: 0 <= i < |s| && key(s[i]) == k
  {
    set i | 0 <= i < |s| :: key(s[i])
  }

  lemma KeySetSnoc<T, K>(s: seq<T>, x: T, key: T -> K)
    ensures KeySet(s + [x], key) == KeySet(s, key) + {key(x)}
  {
    var t := s + [x];
    forall k | k in KeySet(t, key) ensures k in KeySet(s, key) + {key(x)} {
      var i :| 0 <= i < |t| && key(t[i]) == k;
      if i < |s| { assert t[i] == s[i]; }
    }
    forall k | k in KeySet(s, key) + {key(x)} ensures k in KeySet(t, key) {
      if k in KeySet(s, key) {
        var i :| 0 <= i < |s| && key(s[i]) == k;
        assert t[i] == s[i];
      } else {
        assert t[|s|] == x;
      }
    }
  }

  /** No two elements of `s` share a key. */
  ghost predicate DistinctKeys<T, K>(s: seq<T>, key: T -> K)
  {
    forall i, j :: 0 <= i < j < |s| ==> key(s[i]) != key(s[j])
  }

  /** Appending an element with a new key keeps the keys distinct. */
  lemma DistinctSnoc<T, K>(s: seq<T>, x: T, key: T -> K)
    requires DistinctKeys(s, key) && key(x) !in KeySet(s, key)
    ensures DistinctKeys(s + [x], key)
  {
    var t := s + [x];
    forall i, j | 0 <= i < j < |t| ensures key(t[i]) != key(t[j]) {
      assert t[i] == s[i];
      if j < |s| {
        assert t[j] == s[j];
      }
    }
  }

  /** The elements of `s` whose key has not occurred earlier in `s`, in order:
      the first occurrence of each key. */
  function FirstOccurrences<T, K(==)>(s: seq<T>, key: T -> K): seq<T>
  {
    if s == [] then []
    else
      var init := s[..|s| - 1];
      var last := s[|s| - 1];
      if key(last) in KeySet(init, key) then FirstOccurrences(init, key)
      else FirstOccurrences(init, key) + [last]
  }

  /** Position `j` of `s` holds the first element with its key. */
  ghost predicate FirstAt<T, K>(s: seq<T>, key: T -> K, j: int)
  {
    0 <= j < |s| && key(s[j]) !in KeySet(s[..j], key)
  }

  /** Below the last position, being a first occurrence does not depend
      on the last element. */
  lemma FirstAtInit<T, K>(s: seq<T>, key: T -> K, j: int)
    requires 0 <= j < |s| - 1
    ensures FirstAt(s, key, j) == FirstAt(s[..|s| - 1], key, j)
  {
    assert s[..|s| - 1][..j] == s[..j];
  }

  /** The positions deduplication keeps: increasing, each the first of its
      key, and every such position among them. */
  lemma {:induction false} FirstOccurrenceIndices<T, K>(s: seq<T>, key: T -> K) returns (idx: seq<int>)
    ensures |idx| == |FirstOccurrences(s, key)|
    ensures forall i :: 0 <= i < |idx| ==> FirstAt(s, key, idx[i]) && s[idx[i]] == FirstOccurrences(s, key)[i]
    ensures forall i, i' :: 0 <= i < i' < |idx| ==> idx[i] < idx[i']
    ensures forall j :: FirstAt(s, key, j) ==> j in idx
  {
    if s == [] {
      return [];
    }
    var init, last := s[..|s| - 1], s[|s| - 1];
    var idx0 := FirstOccurrenceIndices(init, key);
    var r := FirstOccurrences(s, key);
    var r0 := FirstOccurrences(init, key);
    var isNew := key(last) !in KeySet(init, key);
    idx := if isNew then idx0 + [|s| - 1] else idx0;
    assert r == if isNew then r0 + [last] else r0;
    forall i | 0 <= i < |idx| ensures FirstAt(s, key, idx[i]) && s[idx[i]] == r[i] {
      if i < |idx0| {
        assert idx[i] == idx0[i] && r[i] == r0[i];
        FirstAtInit(s, key, idx0[i]);
      }
    }
    forall i, i' | 0 <= i < i' < |idx| ensures idx[i] < idx[i'] {
      assert FirstAt(init, key, idx0[i]);
    }
    forall j | FirstAt(s, key, j) ensures j in idx {
      if j < |s| - 1 {
        FirstAtInit(s, key, j);
        assert j in idx0;
      } else {
        assert s[..j] == init;
      }
    }
  }

  /** Deduplication keeps every key that occurs (and no other), and never
      repeats a key. It keeps exactly the first element of each key: every
      first occurrence is kept, everything kept is a first occurrence, and
      the kept elements appear in the order of the input. */
  lemma FirstOccurrencesSpec<T, K>(s: seq<T>, key: T -> K)
    ensures KeySet(FirstOccurrences(s, key), key) == KeySet(s, key)
    ensures forall i :: 0 <= i < |FirstOccurrences(s, key)| ==> FirstOccurrences(s, key)[i] in s
    ensures DistinctKeys(FirstOccurrences(s, key), key)
    ensures |FirstOccurrences(s, key)| <= |s|
    ensures forall j :: FirstAt(s, key, j) ==> s[j] in FirstOccurrences(s, key)
    ensures forall i :: 0 <= i < |FirstOccurrences(s, key)| ==>
      exists j :: FirstAt(s, key, j) && s[j] == FirstOccurrences(s, key)[i]
    ensures forall i, i' :: 0 <= i < i' < |FirstOccurrences(s, key)| ==>
      exists j, j' :: 0 <= j < j' < |s| && s[j] == FirstOccurrences(s, key)[i] && s[j'] == FirstOccurrences(s, key)[i']
  {
    FirstOccurrencesBasics(s, key);
    FirstOccurrencesOrder(s, key);
  }

  /** The first-occurrence and order facts of `FirstOccurrencesSpec`, from
      the kept positions. */
  lemma FirstOccurrencesOrder<T, K>(s: seq<T>, key: T -> K)
    ensures forall j :: FirstAt(s, key, j) ==> s[j] in FirstOccurrences(s, key)
    ensures forall i :: 0 <= i < |FirstOccurrences(s, key)| ==>
      exists j :: FirstAt(s, key, j) && s[j] == FirstOccurrences(s, key)[i]
    ensures forall i, i' :: 0 <= i < i' < |FirstOccurrences(s, key)| ==>
      exists j, j' :: 0 <= j < j' < |s| && s[j] == FirstOccurrences(s, key)[i] && s[j'] == FirstOccurrences(s, key)[i']
  {
    var r := FirstOccurrences(s, key);
    var idx := FirstOccurrenceIndices(s, key);
    forall j | FirstAt(s, key, j) ensures s[j] in r {
      var i :| 0 <= i < |idx| && idx[i] == j;
      assert s[j] == r[i];
    }
    forall i | 0 <= i < |r| ensures exists j :: FirstAt(s, key, j) && s[j] == r[i] {
      assert FirstAt(s, key, idx[i]) && s[idx[i]] == r[i];
    }
    forall i, i' | 0 <= i < i' < |r|
      ensures exists j, j' :: 0 <= j < j' < |s| && s[j] == r[i] && s[j'] == r[i']
    {
      assert FirstAt(s, key, idx[i]) && FirstAt(s, key, idx[i']);
      assert 0 <= idx[i] < idx[i'] < |s| && s[idx[i]] == r[i] && s[idx[i']] == r[i'];
    }
  }

  /** The key-set, membership, distinctness and length facts of
      `FirstOccurrencesSpec`, by induction. */
  lemma {:induction false} FirstOccurrencesBasics<T, K>(s: seq<T>, key: T -> K)
    ensures KeySet(FirstOccurrences(s, key), key) == KeySet(s, key)
    ensures forall i :: 0 <= i < |FirstOccurrences(s, key)| ==> FirstOccurrences(s, key)[i] in s
    ensures DistinctKeys(FirstOccurrences(s, key), key)
    ensures |FirstOccurrences(s, key)| <= |s|
  {
    if s != [] {
      var init, last := s[..|s| - 1], s[|s| - 1];
      assert s == init + [last];
      FirstOccurrencesBasics(init, key);
      KeySetSnoc(init, last, key);
      var d := FirstOccurrences(init, key);
      if key(last) !in KeySet(init, key) {
        KeySetSnoc(d, last, key);
        forall i, j | 0 <= i < j < |d + [last]|
          ensures key((d + [last])[i]) != key((d + [last])[j])
        {
          if j == |d| {
            assert (d + [last])[i] == d[i] && d[i] in d;
          } else {
            assert (d + [last])[i] == d[i] && (d + [last])[j] == d[j];
          }
        }
      }
    }
  }

  /** A sequence whose keys are already distinct is left as it is. */
  lemma {:induction false} FirstOccurrencesOfDistinct<T, K>(s: seq<T>, key: T -> K)
    requires DistinctKeys(s, key)
    ensures FirstOccurrences(s, key) == s
  {
    if s != [] {
      var init, last := s[..|s| - 1], s[|s| - 1];
      assert DistinctKeys(init, key);
      FirstOccurrencesOfDistinct(init, key);
      assert key(last) !in KeySet(init, key) by {
        forall i | 0 <= i < |init| ensures key(init[i]) != key(last) {
          assert init[i] == s[i];
        }
      }
      assert s == init + [last];
    }
  }

  /** Deduplicating twice is the same as deduplicating once. */
  lemma FirstOccurrencesIdempotent<T, K>(s: seq<T>, key: T -> K)
    ensures FirstOccurrences(FirstOccurrences(s, key), key) == FirstOccurrences(s, key)
  {
    FirstOccurrencesBasics(s, key);
    FirstOccurrencesOfDistinct(FirstOccurrences(s, key), key);
  }
}
