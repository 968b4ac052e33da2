/**
 * numpy's in-place `np.random.shuffle`, as a pure function.
 *
 * numpy shuffles a list with the Fisher-Yates walk: for i from n-1 down to 1 it
 * draws j uniformly from 0..i and swaps positions i and j. The random source is
 * injected as a draw function: position i uses `draw(key, i) % (i + 1)`, so every
 * function is a legal source and every sequence of legal draws is reachable.
 */
module Shuffling {

  /** The list `[0, 1, ..., n-1]`, i.e. Python's `[i for i in range(n)]`. */
  function Range(n: nat): (r: seq<nat>)
    ensures |r| == n
    ensures forall i :: 0 <= i < n ==> r[i] == i
  {
    seq(n, i => i)
  }

  /** No value occurs twice. */
  ghost predicate Distinct(p: seq<nat>)
  {
    forall i, j :: 0 <= i < j < |p| ==> p[i] != p[j]
  }

  /** `p` lists each of 0..n-1 exactly once. */
  ghost predicate IsPermutation(p: seq<nat>, n: nat)
  {
    && |p| == n
    && (forall i :: 0 <= i < |p| ==> p[i] < n)
    && Distinct(p)
    && (forall b :: 0 <= b < n ==> b in p)
  }

  lemma RangeIsPermutation(n: nat)
    ensures IsPermutation(Range(n), n)
  {
    var r := Range(n);
    forall b | 0 <= b < n
      ensures b in r
    {
      assert r[b] == b;
    }
  }

  /** Exchange positions i and j, as `x[i], x[j] = x[j], x[i]`. */
  function Swap<T>(s: seq<T>, i: nat, j: nat): (r: seq<T>)
    requires i < |s| && j < |s|
    ensures |r| == |s|
  {
    s[i := s[j]][j := s[i]]
  }

  /** A swap moves the two entries and leaves the rest alone, so it keeps the multiset. */
  lemma SwapSpec<T>(s: seq<T>, i: nat, j: nat)
    requires i < |s| && j < |s|
    ensures var r := Swap(s, i, j);
      && r[i] == s[j] && r[j] == s[i]
      && (forall k :: 0 <= k < |s| && k != i && k != j ==> r[k] == s[k])
      && multiset(r) == multiset(s)
  {
  }

  /** The Fisher-Yates walk from position i down to 1. */
  function ShuffleDown<T>(s: seq<T>, draw: (nat, nat) -> nat, key: nat, i: nat): (r: seq<T>)
    requires i < |s|
    ensures |r| == |s|
    decreases i
  {
    if i == 0 then s
    else ShuffleDown(Swap(s, i, draw(key, i) % (i + 1)), draw, key, i - 1)
  }

  /** `np.random.shuffle(s)` with the draws `draw(key, i)`; the key tells independent shuffles apart. */
  function Shuffle<T>(s: seq<T>, draw: (nat, nat) -> nat, key: nat): (r: seq<T>)
    ensures |r| == |s|
  {
    if |s| == 0 then s else ShuffleDown(s, draw, key, |s| - 1)
  }

  /** Exchanging two entries of a permutation leaves a permutation. */
  lemma SwapKeepsPermutation(p: seq<nat>, n: nat, i: nat, j: nat)
    requires IsPermutation(p, n) && i < |p| && j < |p|
    ensures IsPermutation(Swap(p, i, j), n)
  {
    var r := Swap(p, i, j);
    SwapSpec(p, i, j);
    forall a, b | 0 <= a < b < |r|
      ensures r[a] != r[b]
    {
      var a' := if a == i then j else if a == j then i else a;
      var b' := if b == i then j else if b == j then i else b;
      assert r[a] == p[a'] && r[b] == p[b'];
      assert a' != b';
      if a' < b' {
        assert p[a'] != p[b'];
      } else {
        assert p[b'] != p[a'];
      }
    }
    forall x | 0 <= x < n
      ensures x in r
    {
      assert x in p;
      var k :| 0 <= k < |p| && p[k] == x;
      var k' := if k == i then j else if k == j then i else k;
      assert r[k'] == x;
    }
  }

  lemma {:induction false} ShuffleDownKeepsPermutation(p: seq<nat>, n: nat, draw: (nat, nat) -> nat, key: nat, i: nat)
    requires IsPermutation(p, n) && i < |p|
    ensures IsPermutation(ShuffleDown(p, draw, key, i), n)
    decreases i
  {
    if i > 0 {
      var p' := Swap(p, i, draw(key, i) % (i + 1));
      SwapKeepsPermutation(p, n, i, draw(key, i) % (i + 1));
      ShuffleDownKeepsPermutation(p', n, draw, key, i - 1);
      assert ShuffleDown(p, draw, key, i) == ShuffleDown(p', draw, key, i - 1);
    }
  }

  /** Reshuffling a permutation of the bucket indices leaves a permutation of them. */
  lemma ShuffleKeepsPermutation(p: seq<nat>, n: nat, draw: (nat, nat) -> nat, key: nat)
    requires IsPermutation(p, n)
    ensures IsPermutation(Shuffle(p, draw, key), n)
  {
    if |p| > 0 {
      ShuffleDownKeepsPermutation(p, n, draw, key, |p| - 1);
    }
  }

  lemma {:induction false} ShuffleDownPermutes<T>(s: seq<T>, draw: (nat, nat) -> nat, key: nat, i: nat)
    requires i < |s|
    ensures multiset(ShuffleDown(s, draw, key, i)) == multiset(s)
    decreases i
  {
    if i > 0 {
      var s' := Swap(s, i, draw(key, i) % (i + 1));
      SwapSpec(s, i, draw(key, i) % (i + 1));
      ShuffleDownPermutes(s', draw, key, i - 1);
      assert ShuffleDown(s, draw, key, i) == ShuffleDown(s', draw, key, i - 1);
    }
  }

  /** A shuffle reorders its list: the same elements, each as often as before. */
  lemma ShufflePermutes<T>(s: seq<T>, draw: (nat, nat) -> nat, key: nat)
    ensures multiset(Shuffle(s, draw, key)) == multiset(s)
  {
    if |s| > 0 {
      ShuffleDownPermutes(s, draw, key, |s| - 1);
    }
  }
}
