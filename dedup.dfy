/** Keeping the first element of each key, in order: the `seen`-set loop of
    the enhanced crawler (key: the normalised URL) and `[...new Set(urls)]`
    of the first crawler (key: the URL itself). */
module Dedup {

  /** Element `i` is the first of `xs` with its key. */
  predicate FirstOf<T, K(==)>(xs: seq<T>, key: T -> K, i: nat)
    requires i < |xs|
  {
    forall j :: 0 <= j < i ==> key(xs[j]) != key(xs[i])
  }

  /** The first element of each key, in the order of `xs`. */
  function FirstOccurrences<T, K(==)>(xs: seq<T>, key: T -> K): seq<T>
  {
    if xs == [] then []
    else
      var n := |xs| - 1;
      FirstOccurrences(xs[..n], key) + (if FirstOf(xs, key, n) then [xs[n]] else [])
  }

  /** Keys are pairwise distinct. */
  predicate DistinctKeys<T, K(==)>(xs: seq<T>, key: T -> K)
  {
    forall a, b :: 0 <= a < b < |xs| ==> key(xs[a]) != key(xs[b])
  }

  /** A first occurrence stays first in any longer list it starts. */
  lemma FirstOfPrefix<T, K>(xs: seq<T>, key: T -> K, m: nat, i: nat)
    requires i < m <= |xs|
    ensures FirstOf(xs[..m], key, i) <==> FirstOf(xs, key, i)
  {
    assert forall j :: 0 <= j <= i ==> xs[..m][j] == xs[j];
  }

  /** The result is never longer than the input. */
  lemma {:induction false} FirstOccurrencesLength<T, K>(xs: seq<T>, key: T -> K)
    ensures |FirstOccurrences(xs, key)| <= |xs|
  {
    if xs != [] {
      FirstOccurrencesLength(xs[..|xs| - 1], key);
    }
  }

  /** Every kept element is a first occurrence of the input. */
  lemma {:induction false} FirstOccurrencesFrom<T, K>(xs: seq<T>, key: T -> K)
    ensures forall x :: x in FirstOccurrences(xs, key) ==>
      exists i :: 0 <= i < |xs| && FirstOf(xs, key, i) && x == xs[i]
  {
    if xs != [] {
      var n := |xs| - 1;
      FirstOccurrencesFrom(xs[..n], key);
      forall x | x in FirstOccurrences(xs, key)
        ensures exists i :: 0 <= i < |xs| && FirstOf(xs, key, i) && x == xs[i]
      {
        if x in FirstOccurrences(xs[..n], key) {
          var i :| 0 <= i < n && FirstOf(xs[..n], key, i) && x == xs[..n][i];
          FirstOfPrefix(xs, key, n, i);
        } else {
          assert x == xs[n] && FirstOf(xs, key, n);
        }
      }
    }
  }

  /** Every first occurrence is kept. */
  lemma {:induction false} FirstOccurrencesComplete<T, K>(xs: seq<T>, key: T -> K, i: nat)
    requires i < |xs| && FirstOf(xs, key, i)
    ensures xs[i] in FirstOccurrences(xs, key)
  {
    var n := |xs| - 1;
    if i < n {
      FirstOfPrefix(xs, key, n, i);
      FirstOccurrencesComplete(xs[..n], key, i);
    }
  }

  /** Every key of the input is the key of some kept element. */
  lemma {:induction false} FirstOccurrencesCover<T, K>(xs: seq<T>, key: T -> K, i: nat)
    requires i < |xs|
    ensures exists y :: y in FirstOccurrences(xs, key) && key(y) == key(xs[i])
  {
    if FirstOf(xs, key, i) {
      FirstOccurrencesComplete(xs, key, i);
    } else {
      var j :| 0 <= j < i && key(xs[j]) == key(xs[i]);
      FirstOccurrencesCover(xs, key, j);
    }
  }

  /** No two kept elements share a key. */
  lemma {:induction false} FirstOccurrencesDistinct<T, K>(xs: seq<T>, key: T -> K)
    ensures DistinctKeys(FirstOccurrences(xs, key), key)
  {
    if xs != [] {
      var n := |xs| - 1;
      FirstOccurrencesDistinct(xs[..n], key);
      FirstOccurrencesFrom(xs[..n], key);
      var prev := FirstOccurrences(xs[..n], key);
      if FirstOf(xs, key, n) {
        forall a | 0 <= a < |prev| ensures key(prev[a]) != key(xs[n]) {
          assert prev[a] in prev;
          var j :| 0 <= j < n && FirstOf(xs[..n], key, j) && prev[a] == xs[..n][j];
        }
      }
    }
  }

  /** On a list whose keys are already distinct, nothing is dropped. */
  lemma {:induction false} FirstOccurrencesOfDistinct<T, K>(xs: seq<T>, key: T -> K)
    requires DistinctKeys(xs, key)
    ensures FirstOccurrences(xs, key) == xs
  {
    if xs != [] {
      var n := |xs| - 1;
      assert DistinctKeys(xs[..n], key);
      FirstOccurrencesOfDistinct(xs[..n], key);
      assert FirstOf(xs, key, n);
      assert xs == xs[..n] + [xs[n]];
    }
  }
}
