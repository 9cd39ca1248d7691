/**
 * Python's built-in `sorted(xs, key=k)` and `list.sort(key=k)`: a stable sort,
 * ascending by an integer key. `sorted(xs, key=k, reverse=True)` keeps equal
 * elements in their original order too, so it is the same stable sort on the
 * negated key. Modelled here as insertion sort, which is stable by construction.
 */
module Sorting {

  /** Keys never decrease along `s`. */
  ghost predicate SortedBy<T>(s: seq<T>, key: T -> int) {
    forall i, j :: 0 <= i < j < |s| ==> key(s[i]) <= key(s[j])
  }

  /** Ordered by `key`, and among equal keys strictly ordered by `rank`. */
  ghost predicate SortedStably<T>(s: seq<T>, key: T -> int, rank: T -> int) {
    forall i, j :: 0 <= i < j < |s| ==>
      key(s[i]) < key(s[j]) || (key(s[i]) == key(s[j]) && rank(s[i]) < rank(s[j]))
  }

  /** Strictly increasing `rank` along `s` (e.g. the original positions). */
  ghost predicate StrictlyRanked<T>(s: seq<T>, rank: T -> int) {
    forall i, j :: 0 <= i < j < |s| ==> rank(s[i]) < rank(s[j])
  }

  /** Puts `x` after every element of `s` whose key is not larger than its own. */
  function Insert<T>(s: seq<T>, x: T, key: T -> int): (r: seq<T>)
    ensures |r| == |s| + 1
    ensures multiset(r) == multiset(s) + multiset{x}
  {
    if s == [] then [x]
    else if key(x) < key(s[|s| - 1]) then
      assert s == s[..|s| - 1] + [s[|s| - 1]];
      Insert(s[..|s| - 1], x, key) + [s[|s| - 1]]
    else
      s + [x]
  }

  lemma {:induction false} InsertMembers<T>(s: seq<T>, x: T, key: T -> int)
    ensures forall y :: y in Insert(s, x, key) ==> y in s || y == x
  {
    forall y | y in Insert(s, x, key) ensures y in s || y == x {
      assert y in multiset(Insert(s, x, key));
    }
  }

  lemma {:induction false} InsertSorted<T>(s: seq<T>, x: T, key: T -> int)
    requires SortedBy(s, key)
    ensures SortedBy(Insert(s, x, key), key)
  {
    if s != [] && key(x) < key(s[|s| - 1]) {
      var init := s[..|s| - 1];
      InsertSorted(init, x, key);
      InsertMembers(init, x, key);
      var r := Insert(init, x, key);
      forall y | y in r ensures key(y) <= key(s[|s| - 1]) {
        if y != x {
          assert y in init;
        }
      }
      var r' := r + [s[|s| - 1]];
      forall i, j | 0 <= i < j < |r'| ensures key(r'[i]) <= key(r'[j]) {
        if j == |r'| - 1 {
          assert r'[i] in r;
        }
      }
    }
  }

  /** Stable sort of `s`, ascending by `key`. */
  function SortBy<T>(s: seq<T>, key: T -> int): (r: seq<T>)
    ensures |r| == |s|
    ensures multiset(r) == multiset(s)
    ensures SortedBy(r, key)
  {
    if s == [] then []
    else
      assert s == s[..|s| - 1] + [s[|s| - 1]];
      var sortedInit := SortBy(s[..|s| - 1], key);
      InsertSorted(sortedInit, s[|s| - 1], key);
      Insert(sortedInit, s[|s| - 1], key)
  }

  lemma {:induction false} InsertStable<T>(s: seq<T>, x: T, key: T -> int, rank: T -> int)
    requires SortedStably(s, key, rank)
    requires forall y :: y in s ==> rank(y) < rank(x)
    ensures SortedStably(Insert(s, x, key), key, rank)
  {
    if s != [] && key(x) < key(s[|s| - 1]) {
      var init := s[..|s| - 1];
      InsertStable(init, x, key, rank);
      InsertMembers(init, x, key);
      var r := Insert(init, x, key);
      var r' := r + [s[|s| - 1]];
      forall i, j | 0 <= i < j < |r'|
        ensures key(r'[i]) < key(r'[j]) || (key(r'[i]) == key(r'[j]) && rank(r'[i]) < rank(r'[j]))
      {
        if j == |r'| - 1 {
          assert r'[i] in r;
        }
      }
    }
  }

  /**
   * Stability: when the input is strictly ordered by `rank` (for instance by
   * position), elements with equal keys keep that order in the output.
   */
  lemma {:induction false} SortByStable<T>(s: seq<T>, key: T -> int, rank: T -> int)
    requires StrictlyRanked(s, rank)
    ensures SortedStably(SortBy(s, key), key, rank)
  {
    if s != [] {
      var init := s[..|s| - 1];
      SortByStable(init, key, rank);
      forall y | y in SortBy(init, key) ensures rank(y) < rank(s[|s| - 1]) {
        assert y in multiset(SortBy(init, key));
        assert y in multiset(init);
      }
      InsertStable(SortBy(init, key), s[|s| - 1], key, rank);
    }
  }

  /** Sorting an already sorted sequence leaves it as it is. */
  lemma {:induction false} SortBySorted<T>(s: seq<T>, key: T -> int)
    requires SortedBy(s, key)
    ensures SortBy(s, key) == s
  {
    if s != [] {
      var init := s[..|s| - 1];
      assert SortedBy(init, key);
      SortBySorted(init, key);
      assert s == init + [s[|s| - 1]];
    }
  }

  /** No two elements of `s` share a key. */
  ghost predicate KeysUnique<T>(s: seq<T>, key: T -> int) {
    forall i, j :: 0 <= i < j < |s| ==> key(s[i]) != key(s[j])
  }

  lemma {:induction false} KeysUniqueOnce<T>(s: seq<T>, key: T -> int, y: T)
    requires KeysUnique(s, key)
    ensures multiset(s)[y] <= 1
  {
    if s != [] {
      var init := s[..|s| - 1];
      assert s == init + [s[|s| - 1]];
      assert KeysUnique(init, key);
      KeysUniqueOnce(init, key, y);
    }
  }

  /** Unique keys survive any rearrangement. */
  lemma KeysUniquePermutation<T>(a: seq<T>, b: seq<T>, key: T -> int)
    requires KeysUnique(a, key)
    requires multiset(a) == multiset(b)
    ensures KeysUnique(b, key)
  {
    forall i, j | 0 <= i < j < |b| ensures key(b[i]) != key(b[j]) {
      if key(b[i]) == key(b[j]) {
        assert b[i] in multiset(a) && b[j] in multiset(a);
        var p :| 0 <= p < |a| && a[p] == b[i];
        var q :| 0 <= q < |a| && a[q] == b[j];
        if b[i] == b[j] {
          RepeatedElement(b, i, j);
          KeysUniqueOnce(a, key, b[i]);
        }
      }
    }
  }

  function Identity(x: int): int { x }

  /** Python's `sorted(numbers)` on a list of integers. */
  function SortInts(s: seq<int>): (r: seq<int>)
    ensures |r| == |s|
    ensures multiset(r) == multiset(s)
    ensures forall i, j :: 0 <= i < j < |r| ==> r[i] <= r[j]
  {
    var r := SortBy(s, Identity);
    assert SortedBy(r, Identity);
    r
  }

  /** Membership is preserved by any rearrangement with the same multiset. */
  lemma SameElements<T>(a: seq<T>, b: seq<T>)
    requires multiset(a) == multiset(b)
    ensures forall x :: x in a <==> x in b
  {
    forall x ensures x in a <==> x in b {
      assert x in a <==> x in multiset(a);
      assert x in b <==> x in multiset(b);
    }
  }

  /** An element at two positions occurs at least twice. */
  lemma RepeatedElement<T>(s: seq<T>, i: int, j: int)
    requires 0 <= i < j < |s| && s[i] == s[j]
    ensures multiset(s)[s[i]] >= 2
  {
    assert s == s[..j] + s[j..];
    assert s[i] in s[..j] && s[j] in s[j..];
    assert multiset(s) == multiset(s[..j]) + multiset(s[j..]);
  }
}
