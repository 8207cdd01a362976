/** `Array.prototype.sort` with a comparator of the form `key(a) - key(b)`:
    a stable sort (as ECMAScript 2019 requires) by an integer key,
    smallest key first. The description-mining code sorts technology names
    by their priority rank and feature sentences by decreasing length. */
module StableSort {

  predicate SortedBy<T>(s: seq<T>, key: T -> int)
  {
    forall i, j :: 0 <= i < j < |s| ==> key(s[i]) <= key(s[j])
  }

  /** Puts `x` in front of the first element of `r` whose key is not
      smaller, so `x` stays ahead of the elements with its own key. */
  function Insert<T>(x: T, r: seq<T>, key: T -> int): (q: seq<T>)
    ensures |q| == |r| + 1
  {
    if r == [] || key(x) <= key(r[0]) then [x] + r
    else [r[0]] + Insert(x, r[1..], key)
  }

  /** Insertion sort from the back: every element goes in ahead of the
      later elements with the same key, which keeps equal keys in their
      original order. */
  function SortByKey<T>(s: seq<T>, key: T -> int): (q: seq<T>)
    ensures |q| == |s|
  {
    if s == [] then [] else Insert(s[0], SortByKey(s[1..], key), key)
  }

  /** A lower bound on the keys of `x` and of `r` bounds the keys after insertion. */
  lemma {:induction false} InsertKeepsBound<T>(x: T, r: seq<T>, key: T -> int, b: int)
    requires b <= key(x) && forall k :: 0 <= k < |r| ==> b <= key(r[k])
    ensures forall k :: 0 <= k < |Insert(x, r, key)| ==> b <= key(Insert(x, r, key)[k])
    decreases |r|
  {
    if r != [] && key(x) > key(r[0]) {
      InsertKeepsBound(x, r[1..], key, b);
    }
  }

  lemma {:induction false} InsertSorted<T>(x: T, r: seq<T>, key: T -> int)
    requires SortedBy(r, key)
    ensures SortedBy(Insert(x, r, key), key)
    decreases |r|
  {
    if r != [] && key(x) > key(r[0]) {
      InsertSorted(x, r[1..], key);
      InsertKeepsBound(x, r[1..], key, key(r[0]));
    }
  }

  lemma {:induction false} InsertPermutes<T>(x: T, r: seq<T>, key: T -> int)
    ensures multiset(Insert(x, r, key)) == multiset(r) + multiset{x}
    decreases |r|
  {
    if r != [] && key(x) > key(r[0]) {
      InsertPermutes(x, r[1..], key);
      assert r == [r[0]] + r[1..];
    }
  }

  /** The sorted list is a permutation of the input in ascending key order. */
  lemma {:induction false} SortByKeyFacts<T>(s: seq<T>, key: T -> int)
    ensures SortedBy(SortByKey(s, key), key)
    ensures multiset(SortByKey(s, key)) == multiset(s)
    decreases |s|
  {
    if s != [] {
      SortByKeyFacts(s[1..], key);
      InsertSorted(s[0], SortByKey(s[1..], key), key);
      InsertPermutes(s[0], SortByKey(s[1..], key), key);
      assert s == [s[0]] + s[1..];
    }
  }

  /** The elements of `s` whose key is `k`, in their order in `s`. */
  function WithKey<T>(s: seq<T>, key: T -> int, k: int): seq<T>
  {
    if s == [] then [] else (if key(s[0]) == k then [s[0]] else []) + WithKey(s[1..], key, k)
  }

  lemma WithKeyCons<T>(y: T, t: seq<T>, key: T -> int, k: int)
    ensures WithKey([y] + t, key, k) == (if key(y) == k then [y] else []) + WithKey(t, key, k)
  {
    assert ([y] + t)[0] == y && ([y] + t)[1..] == t;
  }

  lemma {:induction false} InsertWithKey<T>(x: T, r: seq<T>, key: T -> int, k: int)
    ensures WithKey(Insert(x, r, key), key, k) == (if key(x) == k then [x] else []) + WithKey(r, key, k)
    decreases |r|
  {
    if r == [] || key(x) <= key(r[0]) {
      WithKeyCons(x, r, key, k);
    } else {
      var q := Insert(x, r[1..], key);
      InsertWithKey(x, r[1..], key, k);
      WithKeyCons(r[0], q, key, k);
      WithKeyCons(r[0], r[1..], key, k);
      assert r == [r[0]] + r[1..];
      var headPart: seq<T> := if key(r[0]) == k then [r[0]] else [];
      var xPart: seq<T> := if key(x) == k then [x] else [];
      assert headPart == [] || xPart == [];
      assert headPart + (xPart + WithKey(r[1..], key, k)) == xPart + (headPart + WithKey(r[1..], key, k));
    }
  }

  /** The sort is stable: for every key, the elements with that key come
      out in the order they went in. */
  lemma {:induction false} SortByKeyStable<T>(s: seq<T>, key: T -> int, k: int)
    ensures WithKey(SortByKey(s, key), key, k) == WithKey(s, key, k)
    decreases |s|
  {
    if s != [] {
      SortByKeyStable(s[1..], key, k);
      InsertWithKey(s[0], SortByKey(s[1..], key), key, k);
    }
  }

  /** The first `n` elements of the sorted list are still in key order and
      all taken from `s`. */
  lemma SortedPrefixFromInput<T>(s: seq<T>, key: T -> int, n: nat)
    requires n <= |s|
    ensures var r := SortByKey(s, key)[..n];
      SortedBy(r, key) && forall x :: x in r ==> x in s
  {
    var q := SortByKey(s, key);
    SortByKeyFacts(s, key);
    forall x | x in q[..n] ensures x in s {
      assert x in multiset(q);
    }
  }

  /** Every element of `s` left out of the first `n` of the sorted list has
      a key at least as large as every kept one's. */
  lemma SortedPrefixKeepsSmallest<T>(s: seq<T>, key: T -> int, n: nat)
    requires n <= |s|
    ensures var r := SortByKey(s, key)[..n];
      forall x :: x in s && x !in r ==> forall i :: 0 <= i < n ==> key(r[i]) <= key(x)
  {
    var q := SortByKey(s, key);
    SortByKeyFacts(s, key);
    var r := q[..n];
    forall x | x in s && x !in r ensures forall i :: 0 <= i < n ==> key(r[i]) <= key(x) {
      assert x in multiset(q);
      var j :| 0 <= j < |q| && q[j] == x;
      assert j >= n by {
        assert forall k :: 0 <= k < n ==> r[k] == q[k];
      }
    }
  }
}
