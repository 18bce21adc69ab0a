/**
 Priority ordering of interceptors.

 The engine sorts the matching interceptors with the priority comparator of
 the interceptor slice. That comparator is a parameter `less` over
 priorities; the sort is required, as any comparison sort is, to be given a
 strict order. The sort is not stable, so a model may pick any order among
 equal priorities: `SortBy` is one insertion sort, and the properties of the
 interceptor stage are proved for every sorted permutation (`IsPriorityOrder`).
 */
module Ordering {

  ghost predicate StrictOrder(less: (int, int) -> bool) {
    && (forall a :: !less(a, a))
    && (forall a, b, c :: less(a, b) && less(b, c) ==> less(a, c))
  }

  lemma Transitive(less: (int, int) -> bool, a: int, b: int, c: int)
    requires StrictOrder(less)
    requires less(a, b) && less(b, c)
    ensures less(a, c) && a != c
  {
  }

  /** No element is placed after one it should precede. */
  ghost predicate SortedBy(s: seq<nat>, key: nat -> int, less: (int, int) -> bool) {
    forall i, j :: 0 <= i < j < |s| ==> !less(key(s[j]), key(s[i]))
  }

  /** No element occurs twice. */
  ghost predicate Distinct<T>(s: seq<T>) {
    forall i, j :: 0 <= i < j < |s| ==> s[i] != s[j]
  }

  /** `order` holds exactly the elements of `elements`, each once, sorted by priority. */
  ghost predicate IsPriorityOrder(order: seq<nat>, elements: seq<nat>, key: nat -> int, less: (int, int) -> bool) {
    && Distinct(order)
    && (forall x :: x in order <==> x in elements)
    && SortedBy(order, key, less)
  }

  /** Inserts `x` before the first element it should precede. */
  function Insert(x: nat, s: seq<nat>, key: nat -> int, less: (int, int) -> bool): (r: seq<nat>)
    ensures |r| == |s| + 1
    ensures multiset(r) == multiset(s) + multiset{x}
  {
    if s == [] then [x]
    else if less(key(x), key(s[0])) then [x] + s
    else
      assert s == [s[0]] + s[1..];
      [s[0]] + Insert(x, s[1..], key, less)
  }

  function SortBy(s: seq<nat>, key: nat -> int, less: (int, int) -> bool): (r: seq<nat>)
    ensures |r| == |s|
    ensures multiset(r) == multiset(s)
  {
    if s == [] then []
    else
      assert s == [s[0]] + s[1..];
      Insert(s[0], SortBy(s[1..], key, less), key, less)
  }

  lemma {:induction false} InsertSorted(x: nat, s: seq<nat>, key: nat -> int, less: (int, int) -> bool)
    requires StrictOrder(less)
    requires SortedBy(s, key, less)
    ensures SortedBy(Insert(x, s, key, less), key, less)
  {
    if s == [] {
    } else if less(key(x), key(s[0])) {
      var r := [x] + s;
      forall i, j | 0 <= i < j < |r|
        ensures !less(key(r[j]), key(r[i]))
      {
        if i == 0 {
          assert r[j] == s[j - 1];
          if less(key(r[j]), key(x)) {
            Transitive(less, key(s[j - 1]), key(x), key(s[0]));
          }
        } else {
          assert r[i] == s[i - 1] && r[j] == s[j - 1];
        }
      }
    } else {
      var t := Insert(x, s[1..], key, less);
      InsertSorted(x, s[1..], key, less);
      var r := [s[0]] + t;
      forall i, j | 0 <= i < j < |r|
        ensures !less(key(r[j]), key(r[i]))
      {
        if i == 0 {
          assert r[j] in multiset(t);
          assert r[j] == x || r[j] in s[1..];
          if r[j] != x {
            var m :| 0 <= m < |s[1..]| && s[1..][m] == r[j];
            assert s[m + 1] == r[j];
          }
        } else {
          assert r[i] == t[i - 1] && r[j] == t[j - 1];
        }
      }
    }
  }

  lemma {:induction false} InsertDistinct(x: nat, s: seq<nat>, key: nat -> int, less: (int, int) -> bool)
    requires Distinct(s) && x !in s
    ensures Distinct(Insert(x, s, key, less))
  {
    if s == [] {
    } else if less(key(x), key(s[0])) {
    } else {
      var t := Insert(x, s[1..], key, less);
      assert x !in s[1..];
      InsertDistinct(x, s[1..], key, less);
      var r := [s[0]] + t;
      assert s[0] !in t by {
        assert s[0] !in s[1..];
        assert s[0] !in multiset(t);
      }
      forall i, j | 0 <= i < j < |r|
        ensures r[i] != r[j]
      {
        if i == 0 {
          assert r[j] in t;
        } else {
          assert r[i] == t[i - 1] && r[j] == t[j - 1];
        }
      }
    }
  }

  /** The insertion sort yields a sorted permutation of a repeat-free input. */
  lemma {:induction false} SortByIsPriorityOrder(s: seq<nat>, key: nat -> int, less: (int, int) -> bool)
    requires StrictOrder(less)
    requires Distinct(s)
    ensures IsPriorityOrder(SortBy(s, key, less), s, key, less)
  {
    var r := SortBy(s, key, less);
    forall x
      ensures x in r <==> x in s
    {
      assert x in r <==> x in multiset(r);
    }
    if s != [] {
      var t := SortBy(s[1..], key, less);
      SortByIsPriorityOrder(s[1..], key, less);
      assert s[0] !in s[1..];
      InsertSorted(s[0], t, key, less);
      InsertDistinct(s[0], t, key, less);
    }
  }
}
