/** List helpers the description-mining code relies on: `Array.prototype.includes`
    guards that keep a list free of repeats, and `Array.prototype.indexOf`. */
module Collections {

  predicate NoDuplicates<T(==)>(s: seq<T>)
  {
    forall i, j :: 0 <= i < j < |s| ==> s[i] != s[j]
  }

  /** The elements of `s` at their first occurrence, in order: what a loop
      that pushes `x` only when `!list.includes(x)` builds from `s`. */
  function Dedup<T(==)>(s: seq<T>): seq<T>
  {
    if s == [] then []
    else
      var d := Dedup(s[..|s| - 1]);
      if s[|s| - 1] in d then d else d + [s[|s| - 1]]
  }

  /** De-duplication keeps exactly the elements of `s`, each once. */
  lemma {:induction false} DedupFacts<T>(s: seq<T>)
    ensures NoDuplicates(Dedup(s))
    ensures forall x :: x in Dedup(s) <==> x in s
  {
    if s != [] {
      var init := s[..|s| - 1];
      DedupFacts(init);
      assert s == init + [s[|s| - 1]];
    }
  }

  /** Appending one element extends the de-duplicated list by that element
      exactly when it is new. */
  lemma DedupSnoc<T>(s: seq<T>, x: T)
    ensures Dedup(s + [x]) == if x in Dedup(s) then Dedup(s) else Dedup(s) + [x]
  {
    assert (s + [x])[..|s|] == s;
  }

  /** A list without repeats is its own de-duplication. */
  lemma {:induction false} DedupOfDistinct<T>(s: seq<T>)
    requires NoDuplicates(s)
    ensures Dedup(s) == s
  {
    if s != [] {
      var init := s[..|s| - 1];
      DedupOfDistinct(init);
      DedupFacts(init);
      assert s == init + [s[|s| - 1]];
    }
  }

  /** Every element of a list without repeats occurs in it once. */
  lemma {:induction false} DistinctCountsOnce<T>(s: seq<T>)
    requires NoDuplicates(s)
    ensures forall x :: multiset(s)[x] <= 1
  {
    if s != [] {
      var init := s[..|s| - 1];
      DistinctCountsOnce(init);
      assert s == init + [s[|s| - 1]];
      assert s[|s| - 1] !in init;
    }
  }

  /** Reordering a list without repeats leaves it without repeats. */
  lemma PermutationKeepsDistinct<T>(a: seq<T>, b: seq<T>)
    requires multiset(a) == multiset(b) && NoDuplicates(a)
    ensures NoDuplicates(b)
  {
    DistinctCountsOnce(a);
    forall i, j | 0 <= i < j < |b| ensures b[i] != b[j] {
      assert b == b[..j] + [b[j]] + b[j + 1..];
      assert multiset(b)[b[j]] >= multiset(b[..j])[b[j]] + 1;
      assert b[i] in b[..j];
    }
  }

  /** `s.indexOf(x)`: the first position holding `x`, or -1. */
  function IndexOf<T(==)>(s: seq<T>, x: T): (i: int)
    ensures -1 <= i < |s|
    ensures i == -1 <==> x !in s
    ensures i >= 0 ==> s[i] == x && forall k :: 0 <= k < i ==> s[k] != x
  {
    if s == [] then -1
    else if s[0] == x then 0
    else
      var j := IndexOf(s[1..], x);
      if j == -1 then -1 else j + 1
  }
}
