/**
 * Descending orderings of query results (`order_by('-field')`).
 *
 * The database's order among rows with equal keys is unspecified; the model
 * fixes one (a stable insertion sort), and every property proved about the
 * queries holds for any order that is sorted and a permutation.
 */
module Ordering {

  /** Every earlier element has a key at least as large as every later one. */
  ghost predicate SortedDesc<T>(s: seq<T>, key: T -> int)
  {
    forall i, j :: 0 <= i < j < |s| ==> key(s[i]) >= key(s[j])
  }

  /** Inserts `x` before the first element whose key does not exceed its own. */
  function Insert<T>(x: T, s: seq<T>, key: T -> int): (r: seq<T>)
    ensures multiset(r) == multiset(s) + multiset{x}
  {
    if s == [] || key(s[0]) <= key(x) then
      [x] + s
    else
      assert s == [s[0]] + s[1..];
      [s[0]] + Insert(x, s[1..], key)
  }

  /** No element's key exceeds `b`. */
  ghost predicate AllAtMost<T>(s: seq<T>, b: int, key: T -> int)
  {
    forall k :: 0 <= k < |s| ==> key(s[k]) <= b
  }

  /** A bound on every key survives an insertion that respects it. */
  lemma {:induction false} InsertBounded<T>(x: T, s: seq<T>, key: T -> int, b: int)
    requires AllAtMost(s, b, key) && key(x) <= b
    ensures AllAtMost(Insert(x, s, key), b, key)
  {
    if s == [] || key(s[0]) <= key(x) {
    } else {
      InsertBounded(x, s[1..], key, b);
    }
  }

  /** A head bounding a descending tail gives a descending sequence. */
  lemma ConsSorted<T>(a: T, s: seq<T>, key: T -> int)
    requires SortedDesc(s, key) && AllAtMost(s, key(a), key)
    ensures SortedDesc([a] + s, key)
  {
    var r := [a] + s;
    forall i, j | 0 <= i < j < |r| ensures key(r[i]) >= key(r[j]) {
      assert r[j] == s[j - 1];
      if i > 0 {
        assert r[i] == s[i - 1];
      }
    }
  }

  /** Insertion keeps a descending sequence descending. */
  lemma {:induction false} InsertSorted<T>(x: T, s: seq<T>, key: T -> int)
    requires SortedDesc(s, key)
    ensures SortedDesc(Insert(x, s, key), key)
  {
    if s == [] || key(s[0]) <= key(x) {
      assert AllAtMost(s, key(x), key) by {
        forall k | 0 <= k < |s| ensures key(s[k]) <= key(x) {
          assert key(s[0]) >= key(s[k]);
        }
      }
      ConsSorted(x, s, key);
    } else {
      var tail := s[1..];
      InsertSorted(x, tail, key);
      assert AllAtMost(tail, key(s[0]), key) by {
        forall k | 0 <= k < |tail| ensures key(tail[k]) <= key(s[0]) {
          assert tail[k] == s[k + 1];
        }
      }
      InsertBounded(x, tail, key, key(s[0]));
      ConsSorted(s[0], Insert(x, tail, key), key);
    }
  }

  /** Orders `s` by `key`, largest first. */
  function SortDesc<T>(s: seq<T>, key: T -> int): (r: seq<T>)
    ensures multiset(r) == multiset(s)
    ensures |r| == |s|
    ensures SortedDesc(r, key)
  {
    if s == [] then []
    else
      assert s == [s[0]] + s[1..];
      InsertSorted(s[0], SortDesc(s[1..], key), key);
      Insert(s[0], SortDesc(s[1..], key), key)
  }

  /** Sorting keeps exactly the elements it was given. */
  lemma {:induction false} SortDescMembers<T>(s: seq<T>, key: T -> int, x: T)
    ensures x in SortDesc(s, key) <==> x in s
  {
    var r := SortDesc(s, key);
    assert x in r <==> x in multiset(r);
    assert x in s <==> x in multiset(s);
  }
}
