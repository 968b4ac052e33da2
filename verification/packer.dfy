/**
 * `fill_context` from app/utils.py: count tokens, choose the batch count
 * `ceil(total / context_limit)`, sort the texts by token count (largest first),
 * deal them round-robin into the batches in a freshly shuffled batch order on
 * every pass, record per-batch statistics, shuffle each batch and render it.
 *
 * The tokenizer is an abstract `Text -> nat`; numpy's random source is the pair
 * of draw functions in `Rng`.
 */
module Packer {
  import opened Wrappers
  import opened Shuffling
  import opened Batches
  import Strings

  type Text = string
  type Bucket = seq<Text>
  type Tokenizer = Text -> nat

  /** Random draws: `passDraw(p, i)` for position i when the batch order is reshuffled
      on pass p, `bucketDraw(b, i)` for position i when batch b is shuffled. */
  datatype Rng = Rng(passDraw: (nat, nat) -> nat, bucketDraw: (nat, nat) -> nat)

  // ---------------------------------------------------------------- token counts

  /** Sum of the token counts of `s`. */
  function TokenSum(s: seq<Text>, tok: Tokenizer): (r: nat)
  {
    if |s| == 0 then 0 else tok(s[0]) + TokenSum(s[1..], tok)
  }

  lemma {:induction false} TokenSumConcat(a: seq<Text>, b: seq<Text>, tok: Tokenizer)
    ensures TokenSum(a + b, tok) == TokenSum(a, tok) + TokenSum(b, tok)
  {
    if |a| == 0 {
      assert a + b == b;
    } else {
      assert (a + b)[1..] == a[1..] + b;
      TokenSumConcat(a[1..], b, tok);
    }
  }

  /** The token sum depends only on which texts there are, not on their order. */
  lemma {:induction false} TokenSumIgnoresOrder(a: seq<Text>, b: seq<Text>, tok: Tokenizer)
    requires multiset(a) == multiset(b)
    ensures TokenSum(a, tok) == TokenSum(b, tok)
    decreases |a|
  {
    if |a| > 0 {
      var x := a[0];
      assert x in multiset(b);
      var i :| 0 <= i < |b| && b[i] == x;
      var b' := b[..i] + b[i + 1..];
      assert b == b[..i] + [x] + b[i + 1..];
      assert a == [x] + a[1..];
      assert multiset(b) == multiset(b[..i]) + multiset{x} + multiset(b[i + 1..]);
      assert multiset(b') == multiset(b[..i]) + multiset(b[i + 1..]);
      assert multiset(a) == multiset{x} + multiset(a[1..]);
      assert multiset(a[1..]) == multiset(a) - multiset{x};
      assert multiset(b') == multiset(b) - multiset{x};
      TokenSumIgnoresOrder(a[1..], b', tok);
      TokenSumConcat(b[..i] + [x], b[i + 1..], tok);
      TokenSumConcat(b[..i], [x], tok);
      TokenSumConcat(b[..i], b[i + 1..], tok);
    }
  }

  /** `np.ceil(a / d)` for a positive divisor, counted out one share of d at a time. */
  function CeilDiv(a: nat, d: nat): (q: nat)
    requires d > 0
    ensures q == 0 <==> a == 0
    decreases a
  {
    if a == 0 then 0 else if a <= d then 1 else 1 + CeilDiv(a - d, d)
  }

  /** The count is the least q with q * d >= a. */
  lemma {:induction false} CeilDivSpec(a: nat, d: nat)
    requires d > 0
    ensures CeilDiv(a, d) * d >= a
    ensures CeilDiv(a, d) > 0 ==> (CeilDiv(a, d) - 1) * d < a
    decreases a
  {
    if a > d {
      var q' := CeilDiv(a - d, d);
      CeilDivSpec(a - d, d);
      assert (q' + 1) * d == q' * d + d;
    }
  }

  /** Line 42: the number of batches, `ceil(total tokens / context_limit)`. */
  function BatchCount(texts: seq<Text>, limit: nat, tok: Tokenizer): (r: nat)
    requires limit > 0
  {
    CeilDiv(TokenSum(texts, tok), limit)
  }

  // ---------------------------------------------------------------- sorting

  /** Token counts never increase from left to right. */
  ghost predicate NonIncreasing(s: seq<Text>, tok: Tokenizer)
  {
    forall i, j :: 0 <= i < j < |s| ==> tok(s[i]) >= tok(s[j])
  }

  /** Put x in front of the first element with no more tokens than x. */
  function Insert(x: Text, s: seq<Text>, tok: Tokenizer): (r: seq<Text>)
    ensures multiset(r) == multiset(s) + multiset{x}
  {
    if |s| == 0 || tok(x) >= tok(s[0]) then [x] + s
    else
      assert s == [s[0]] + s[1..];
      [s[0]] + Insert(x, s[1..], tok)
  }

  /** Inserting into a sorted sequence keeps it sorted. */
  lemma {:induction false} InsertKeepsOrder(x: Text, s: seq<Text>, tok: Tokenizer)
    requires NonIncreasing(s, tok)
    ensures NonIncreasing(Insert(x, s, tok), tok)
  {
    if |s| > 0 && tok(x) < tok(s[0]) {
      InsertKeepsOrder(x, s[1..], tok);
      InsertBounded(x, s[1..], tok, tok(s[0]));
      var t := Insert(x, s[1..], tok);
      assert Insert(x, s, tok) == [s[0]] + t;
      ConsOrdered(s[0], t, tok);
    } else {
      ConsOrdered(x, s, tok);
    }
  }

  /** A bound on every token count survives an insertion that respects it. */
  lemma {:induction false} InsertBounded(x: Text, s: seq<Text>, tok: Tokenizer, m: nat)
    requires tok(x) <= m && forall k :: 0 <= k < |s| ==> tok(s[k]) <= m
    ensures forall k :: 0 <= k < |Insert(x, s, tok)| ==> tok(Insert(x, s, tok)[k]) <= m
  {
    if |s| > 0 && tok(x) < tok(s[0]) {
      InsertBounded(x, s[1..], tok, m);
      assert Insert(x, s, tok) == [s[0]] + Insert(x, s[1..], tok);
    }
  }

  /** A head with at least as many tokens as everything after it extends a sorted sequence. */
  lemma ConsOrdered(h: Text, t: seq<Text>, tok: Tokenizer)
    requires NonIncreasing(t, tok) && forall k :: 0 <= k < |t| ==> tok(t[k]) <= tok(h)
    ensures NonIncreasing([h] + t, tok)
  {
    var r := [h] + t;
    forall i, j | 0 <= i < j < |r|
      ensures tok(r[i]) >= tok(r[j])
    {
      assert r[j] == t[j - 1];
      if i > 0 {
        assert r[i] == t[i - 1];
      }
    }
  }

  /**
   * Line 45, `sorted(texts, key=token count, reverse=True)`: a stable sort by
   * descending token count.
   */
  function SortDescending(s: seq<Text>, tok: Tokenizer): (r: seq<Text>)
    ensures multiset(r) == multiset(s) && |r| == |s|
    ensures NonIncreasing(r, tok)
  {
    if |s| == 0 then []
    else
      assert s == [s[0]] + s[1..];
      var rest := SortDescending(s[1..], tok);
      InsertKeepsOrder(s[0], rest, tok);
      var r := Insert(s[0], rest, tok);
      assert |r| == |multiset(r)| == |multiset(s)| == |s|;
      r
  }

  /** The texts with exactly k tokens, in their order in s. */
  function WithTokens(s: seq<Text>, tok: Tokenizer, k: nat): (r: seq<Text>)
  {
    if |s| == 0 then []
    else (if tok(s[0]) == k then [s[0]] else []) + WithTokens(s[1..], tok, k)
  }

  lemma {:induction false} InsertWithTokens(x: Text, s: seq<Text>, tok: Tokenizer, k: nat)
    ensures WithTokens(Insert(x, s, tok), tok, k)
         == (if tok(x) == k then [x] else []) + WithTokens(s, tok, k)
  {
    if |s| == 0 || tok(x) >= tok(s[0]) {
      assert ([x] + s)[1..] == s;
    } else {
      var tail := Insert(x, s[1..], tok);
      var r := [s[0]] + tail;
      assert Insert(x, s, tok) == r;
      assert r[0] == s[0] && r[1..] == tail;
      InsertWithTokens(x, s[1..], tok, k);
      var head := if tok(s[0]) == k then [s[0]] else [];
      assert WithTokens(r, tok, k) == head + WithTokens(tail, tok, k);
      assert WithTokens(s, tok, k) == head + WithTokens(s[1..], tok, k);
      if tok(x) == k {
        assert head == [];
      }
    }
  }

  /**
   * Python's sort is stable: texts with equal token counts keep their input
   * order. Together with the ensures of SortDescending this pins the result down.
   */
  lemma {:induction false} SortIsStable(s: seq<Text>, tok: Tokenizer, k: nat)
    ensures WithTokens(SortDescending(s, tok), tok, k) == WithTokens(s, tok, k)
  {
    if |s| > 0 {
      SortIsStable(s[1..], tok, k);
      InsertWithTokens(s[0], SortDescending(s[1..], tok), tok, k);
    }
  }

  // ---------------------------------------------------------------- buckets as a whole

  /** Everything held by the buckets together. */
  function BagOf(bs: seq<Bucket>): (r: multiset<Text>)
  {
    if |bs| == 0 then multiset{} else multiset(bs[0]) + BagOf(bs[1..])
  }

  lemma {:induction false} BagOfAppendAt(bs: seq<Bucket>, p: nat, x: Text)
    requires p < |bs|
    ensures BagOf(bs[p := bs[p] + [x]]) == BagOf(bs) + multiset{x}
  {
    var bs' := bs[p := bs[p] + [x]];
    if p == 0 {
      assert bs'[1..] == bs[1..];
    } else {
      assert bs'[1..] == bs[1..][p - 1 := bs[p] + [x]];
      BagOfAppendAt(bs[1..], p - 1, x);
    }
  }

  /** Two bucket lists holding the same texts bucket by bucket hold the same texts overall. */
  lemma {:induction false} BagOfPointwise(a: seq<Bucket>, b: seq<Bucket>)
    requires |a| == |b|
    requires forall i :: 0 <= i < |a| ==> multiset(a[i]) == multiset(b[i])
    ensures BagOf(a) == BagOf(b)
  {
    if |a| > 0 {
      BagOfPointwise(a[1..], b[1..]);
    }
  }

  /** When every bucket is non-empty, there are at least as many texts as buckets. */
  lemma {:induction false} BagOfNonEmptyBuckets(bs: seq<Bucket>)
    requires forall i :: 0 <= i < |bs| ==> |bs[i]| >= 1
    ensures |BagOf(bs)| >= |bs|
  {
    if |bs| > 0 {
      BagOfNonEmptyBuckets(bs[1..]);
    }
  }

  // ---------------------------------------------------------------- one pass of the deal

  /**
   * Lines 51-55, `for i in indexes`: hand the next text to each bucket in `order`,
   * stopping early once the texts run out. Returns the buckets and the texts left.
   */
  function Assign(bs: seq<Bucket>, rest: seq<Text>, order: seq<nat>): (r: (seq<Bucket>, seq<Text>))
    requires forall i :: 0 <= i < |order| ==> order[i] < |bs|
    ensures |r.0| == |bs|
    decreases |order|
  {
    if |order| == 0 || |rest| == 0 then (bs, rest)
    else
      var p := order[0];
      Assign(bs[p := bs[p] + [rest[0]]], rest[1..], order[1..])
  }

  /** A pass moves texts from the leftovers into buckets and nowhere else. */
  lemma {:induction false} AssignConserves(bs: seq<Bucket>, rest: seq<Text>, order: seq<nat>)
    requires forall i :: 0 <= i < |order| ==> order[i] < |bs|
    ensures var r := Assign(bs, rest, order);
      BagOf(r.0) + multiset(r.1) == BagOf(bs) + multiset(rest)
    decreases |order|
  {
    if |order| > 0 && |rest| > 0 {
      var p := order[0];
      BagOfAppendAt(bs, p, rest[0]);
      assert rest == [rest[0]] + rest[1..];
      AssignConserves(bs[p := bs[p] + [rest[0]]], rest[1..], order[1..]);
    }
  }

  function Min(a: nat, b: nat): (r: nat)
  {
    if a <= b then a else b
  }

  /**
   * What one pass does, in closed form: with k = min(|order|, |rest|), the j-th
   * bucket in the order receives rest[j] for j < k, the other buckets nothing,
   * and rest[k..] remains.
   */
  lemma {:induction false} AssignSpec(bs: seq<Bucket>, rest: seq<Text>, order: seq<nat>)
    requires forall i :: 0 <= i < |order| ==> order[i] < |bs|
    requires Distinct(order)
    ensures var r := Assign(bs, rest, order); var k := Min(|order|, |rest|);
      && r.1 == rest[k..]
      && (forall j :: 0 <= j < k ==> r.0[order[j]] == bs[order[j]] + [rest[j]])
      && (forall b :: 0 <= b < |bs| && b !in order[..k] ==> r.0[b] == bs[b])
    decreases |order|
  {
    if |order| > 0 && |rest| > 0 {
      var p := order[0];
      var bs' := bs[p := bs[p] + [rest[0]]];
      AssignSpec(bs', rest[1..], order[1..]);
      var r := Assign(bs, rest, order);
      var k := Min(|order|, |rest|);
      assert r == Assign(bs', rest[1..], order[1..]);
      assert rest[1..][k - 1..] == rest[k..];
      forall j | 0 <= j < k
        ensures r.0[order[j]] == bs[order[j]] + [rest[j]]
      {
        if j > 0 {
          assert order[1..][j - 1] == order[j];
          assert rest[1..][j - 1] == rest[j];
          assert order[j] != p;
        } else {
          assert p !in order[1..][..k - 1];
        }
      }
      forall b | 0 <= b < |bs| && b !in order[..k]
        ensures r.0[b] == bs[b]
      {
        assert b != p;
        assert b !in order[1..][..k - 1];
      }
    }
  }

  // ---------------------------------------------------------------- the while loop

  /** The loop state: the (persistent) index list, the buckets, the texts still to deal. */
  datatype DealState = DealState(order: seq<nat>, buckets: seq<Bucket>, rest: seq<Text>, pass: nat)

  ghost predicate WellFormed(st: DealState)
  {
    IsPermutation(st.order, |st.buckets|)
  }

  /** Line 50: the index list reshuffled at the start of a pass. */
  function PassOrder(st: DealState, rng: Rng): (order: seq<nat>)
    requires WellFormed(st)
    ensures IsPermutation(order, |st.buckets|)
  {
    ShuffleKeepsPermutation(st.order, |st.buckets|, rng.passDraw, st.pass);
    Shuffle(st.order, rng.passDraw, st.pass)
  }

  /** Lines 51-55 for a given order, counting the pass. */
  function Advance(st: DealState, order: seq<nat>): (r: DealState)
    requires IsPermutation(order, |st.buckets|)
    ensures WellFormed(r) && |r.buckets| == |st.buckets|
  {
    var (bs, rest) := Assign(st.buckets, st.rest, order);
    DealState(order, bs, rest, st.pass + 1)
  }

  /** Lines 50-55: reshuffle the index list, then deal one pass. */
  function Step(st: DealState, rng: Rng): (r: DealState)
    requires WellFormed(st)
    ensures WellFormed(r) && |r.buckets| == |st.buckets|
  {
    Advance(st, PassOrder(st, rng))
  }

  /** Lines 49-57: `while texts:` run for at most `fuel` passes. */
  function Passes(st: DealState, rng: Rng, fuel: nat): (r: DealState)
    requires WellFormed(st)
    ensures WellFormed(r) && |r.buckets| == |st.buckets|
    decreases fuel
  {
    if fuel == 0 || |st.rest| == 0 then st else Passes(Step(st, rng), rng, fuel - 1)
  }

  /** Every text the state holds, dealt or not. */
  ghost function Contents(st: DealState): (r: multiset<Text>)
  {
    BagOf(st.buckets) + multiset(st.rest)
  }

  lemma AdvanceConserves(st: DealState, order: seq<nat>)
    requires IsPermutation(order, |st.buckets|)
    ensures Contents(Advance(st, order)) == Contents(st)
  {
    AssignConserves(st.buckets, st.rest, order);
  }

  /** The passes neither lose nor invent texts: buckets and leftovers together stay the same. */
  lemma {:induction false} PassesConserve(st: DealState, rng: Rng, fuel: nat)
    requires WellFormed(st)
    ensures Contents(Passes(st, rng, fuel)) == Contents(st)
    decreases fuel
  {
    if fuel > 0 && |st.rest| > 0 {
      var st' := Step(st, rng);
      AdvanceConserves(st, PassOrder(st, rng));
      assert Contents(st') == Contents(st);
      PassesConserve(st', rng, fuel - 1);
      PassesUnfold(st, rng, fuel);
      assert Passes(st, rng, fuel) == Passes(st', rng, fuel - 1);
      assert Contents(Passes(st', rng, fuel - 1)) == Contents(st');
      assert Contents(Passes(st, rng, fuel)) == Contents(st);
    } else {
      assert Passes(st, rng, fuel) == st;
    }
  }

  /** n empty buckets. */
  function NoBuckets(n: nat): (bs: seq<Bucket>)
    ensures |bs| == n && forall i :: 0 <= i < n ==> bs[i] == []
  {
    seq(n, _ => [])
  }

  /** Lines 47-48: n empty buckets, indexes `[0, ..., n-1]`, all texts still to deal. */
  function InitialState(sorted: seq<Text>, n: nat): (st: DealState)
    ensures WellFormed(st)
  {
    RangeIsPermutation(n);
    DealState(Range(n), NoBuckets(n), sorted, 0)
  }

  /** Lines 45-57: sort the texts, then deal them into n buckets. */
  function Deal(texts: seq<Text>, n: nat, tok: Tokenizer, rng: Rng): (bs: seq<Bucket>)
    requires n > 0 || |texts| == 0
    ensures |bs| == n
  {
    Passes(InitialState(SortDescending(texts, tok), n), rng, |texts|).buckets
  }

  // ---------------------------------------------------------------- facts about the deal

  /** The three ordering facts the largest-first deal keeps. */
  ghost predicate Ordered(st: DealState, tok: Tokenizer)
  {
    && NonIncreasing(st.rest, tok)
    && (forall b :: 0 <= b < |st.buckets| ==> NonIncreasing(st.buckets[b], tok))
    && (forall b, i, j :: 0 <= b < |st.buckets| && 0 <= i < |st.buckets[b]| && 0 <= j < |st.rest|
          ==> tok(st.buckets[b][i]) >= tok(st.rest[j]))
  }

  /** One pass in closed form. */
  lemma AdvanceSpec(st: DealState, order: seq<nat>)
    requires IsPermutation(order, |st.buckets|)
    ensures var r := Advance(st, order); var k := Min(|st.buckets|, |st.rest|);
      && r.rest == st.rest[k..]
      && r.pass == st.pass + 1
      && r.order == order
      && (forall j :: 0 <= j < k ==> r.buckets[order[j]] == st.buckets[order[j]] + [st.rest[j]])
      && (forall b :: 0 <= b < |st.buckets| && b !in order[..k] ==> r.buckets[b] == st.buckets[b])
  {
    AssignSpec(st.buckets, st.rest, order);
  }

  /** The j-th bucket of the pass order receives the j-th remaining text. */
  lemma AdvanceDealt(st: DealState, order: seq<nat>, j: nat)
    requires IsPermutation(order, |st.buckets|) && j < Min(|st.buckets|, |st.rest|)
    ensures Advance(st, order).rest == st.rest[Min(|st.buckets|, |st.rest|)..]
    ensures Advance(st, order).buckets[order[j]] == st.buckets[order[j]] + [st.rest[j]]
  {
    AdvanceSpec(st, order);
  }

  /** A bucket the pass does not reach is left as it was. */
  lemma AdvanceSkipped(st: DealState, order: seq<nat>, b: nat)
    requires IsPermutation(order, |st.buckets|) && b < |st.buckets|
    requires b !in order[..Min(|st.buckets|, |st.rest|)]
    ensures Advance(st, order).rest == st.rest[Min(|st.buckets|, |st.rest|)..]
    ensures Advance(st, order).buckets[b] == st.buckets[b]
  {
    AdvanceSpec(st, order);
  }

  /** A pass gives every bucket at most one text, and exactly one while enough texts remain. */
  lemma AdvanceSizes(st: DealState, order: seq<nat>)
    requires IsPermutation(order, |st.buckets|)
    ensures var r := Advance(st, order);
      forall b :: 0 <= b < |st.buckets| ==>
        if |st.rest| >= |st.buckets| then |r.buckets[b]| == |st.buckets[b]| + 1
        else |r.buckets[b]| == |st.buckets[b]| || |r.buckets[b]| == |st.buckets[b]| + 1
  {
    var r := Advance(st, order);
    var n := |st.buckets|;
    var k := Min(n, |st.rest|);
    AdvanceSpec(st, order);
    if |st.rest| >= n {
      assert order[..k] == order;
    }
    forall b | 0 <= b < n
      ensures |r.buckets[b]| == |st.buckets[b]| || |r.buckets[b]| == |st.buckets[b]| + 1
      ensures |st.rest| >= n ==> |r.buckets[b]| == |st.buckets[b]| + 1
    {
      if b in order[..k] {
        var j :| 0 <= j < k && order[..k][j] == b;
        assert order[j] == b;
      }
    }
  }

  lemma AdvanceOrdered(st: DealState, order: seq<nat>, tok: Tokenizer)
    requires IsPermutation(order, |st.buckets|) && Ordered(st, tok)
    ensures Ordered(Advance(st, order), tok)
  {
    var r := Advance(st, order);
    AdvanceRestOrdered(st, order, tok);
    forall b | 0 <= b < |st.buckets|
      ensures NonIncreasing(r.buckets[b], tok)
      ensures forall i, t :: 0 <= i < |r.buckets[b]| && 0 <= t < |r.rest| ==> tok(r.buckets[b][i]) >= tok(r.rest[t])
    {
      AdvanceBucketOrdered(st, order, b, tok);
    }
  }

  /** What is left after a pass is still largest first. */
  lemma AdvanceRestOrdered(st: DealState, order: seq<nat>, tok: Tokenizer)
    requires IsPermutation(order, |st.buckets|) && Ordered(st, tok)
    ensures NonIncreasing(Advance(st, order).rest, tok)
  {
    var r := Advance(st, order);
    var k := Min(|st.buckets|, |st.rest|);
    AdvanceSpec(st, order);
    assert forall i :: 0 <= i < |r.rest| ==> r.rest[i] == st.rest[k + i];
  }

  /** After a pass, bucket b is largest first and ahead of everything left. */
  lemma AdvanceBucketOrdered(st: DealState, order: seq<nat>, b: nat, tok: Tokenizer)
    requires IsPermutation(order, |st.buckets|) && Ordered(st, tok) && b < |st.buckets|
    ensures var r := Advance(st, order);
      && NonIncreasing(r.buckets[b], tok)
      && forall i, t :: 0 <= i < |r.buckets[b]| && 0 <= t < |r.rest| ==> tok(r.buckets[b][i]) >= tok(r.rest[t])
  {
    var r := Advance(st, order);
    var k := Min(|st.buckets|, |st.rest|);
    if b in order[..k] {
      var j :| 0 <= j < k && order[..k][j] == b;
      assert order[j] == b;
      AdvanceDealt(st, order, j);
      ExtendOrdered(st, r, b, j, k, tok);
    } else {
      AdvanceSkipped(st, order, b);
      KeepOrdered(st, r, b, k, tok);
    }
  }

  /** A bucket the pass skips stays largest first and ahead of rest[k..]. */
  lemma KeepOrdered(st: DealState, r: DealState, b: nat, k: nat, tok: Tokenizer)
    requires Ordered(st, tok) && b < |st.buckets| && b < |r.buckets|
    requires k <= |st.rest| && r.rest == st.rest[k..]
    requires r.buckets[b] == st.buckets[b]
    ensures NonIncreasing(r.buckets[b], tok)
    ensures forall i, t :: 0 <= i < |r.buckets[b]| && 0 <= t < |r.rest| ==> tok(r.buckets[b][i]) >= tok(r.rest[t])
  {
    forall i, t | 0 <= i < |r.buckets[b]| && 0 <= t < |r.rest|
      ensures tok(r.buckets[b][i]) >= tok(r.rest[t])
    {
      assert r.rest[t] == st.rest[k + t];
    }
  }

  /** Appending rest[j] to a bucket keeps it largest first and still ahead of rest[k..]. */
  lemma ExtendOrdered(st: DealState, r: DealState, b: nat, j: nat, k: nat, tok: Tokenizer)
    requires Ordered(st, tok) && b < |st.buckets| && b < |r.buckets|
    requires j < k <= |st.rest| && r.rest == st.rest[k..]
    requires r.buckets[b] == st.buckets[b] + [st.rest[j]]
    ensures NonIncreasing(r.buckets[b], tok)
    ensures forall i, t :: 0 <= i < |r.buckets[b]| && 0 <= t < |r.rest| ==> tok(r.buckets[b][i]) >= tok(r.rest[t])
  {
    var prev := st.buckets[b];
    forall i, i' | 0 <= i < i' < |r.buckets[b]|
      ensures tok(r.buckets[b][i]) >= tok(r.buckets[b][i'])
    {
      if i' == |prev| {
        assert r.buckets[b][i'] == st.rest[j];
        assert r.buckets[b][i] == prev[i];
      } else {
        assert r.buckets[b][i'] == prev[i'];
        assert r.buckets[b][i] == prev[i];
      }
    }
    forall i, t | 0 <= i < |r.buckets[b]| && 0 <= t < |r.rest|
      ensures tok(r.buckets[b][i]) >= tok(r.rest[t])
    {
      assert r.rest[t] == st.rest[k + t];
      if i == |prev| {
        assert r.buckets[b][i] == st.rest[j];
      } else {
        assert r.buckets[b][i] == prev[i];
      }
    }
  }

  lemma {:induction false} PassesOrdered(st: DealState, rng: Rng, fuel: nat, tok: Tokenizer)
    requires WellFormed(st) && Ordered(st, tok)
    ensures Ordered(Passes(st, rng, fuel), tok)
    decreases fuel
  {
    if fuel > 0 && |st.rest| > 0 {
      AdvanceOrdered(st, PassOrder(st, rng), tok);
      PassesOrdered(Step(st, rng), rng, fuel - 1, tok);
    }
  }

  /** Every bucket holds exactly c texts. */
  ghost predicate AllSized(bs: seq<Bucket>, c: nat)
  {
    forall b :: 0 <= b < |bs| ==> |bs[b]| == c
  }

  /** Every bucket holds c texts, or c + 1 when `extra` allows it. */
  ghost predicate Balanced(bs: seq<Bucket>, c: nat, extra: bool)
  {
    forall b :: 0 <= b < |bs| ==> |bs[b]| == c || (extra && |bs[b]| == c + 1)
  }

  /**
   * From equal buckets of size c and q * n + rem texts left (rem < n), enough
   * passes deal everything and leave each bucket with c + q texts, or c + q + 1
   * when there was a remainder.
   */
  lemma {:induction false} PassesSizes(st: DealState, rng: Rng, fuel: nat, c: nat, q: nat, rem: nat)
    requires WellFormed(st) && |st.buckets| > 0 && AllSized(st.buckets, c)
    requires |st.rest| == Times(q, |st.buckets|) + rem && rem < |st.buckets|
    requires fuel >= q + (if rem > 0 then 1 else 0)
    ensures |Passes(st, rng, fuel).rest| == 0
    ensures Balanced(Passes(st, rng, fuel).buckets, c + q, rem != 0)
    decreases q
  {
    if q > 0 {
      FullPass(st, rng, c, q, rem);
      PassesSizes(Step(st, rng), rng, fuel - 1, c + 1, q - 1, rem);
    } else {
      LastPass(st, rng, fuel, c);
    }
  }

  lemma PassesUnfold(st: DealState, rng: Rng, fuel: nat)
    requires WellFormed(st) && fuel > 0 && |st.rest| > 0
    ensures Passes(st, rng, fuel) == Passes(Step(st, rng), rng, fuel - 1)
  {
  }

  /** Fewer texts than buckets: one last pass deals them all, one text per bucket at most. */
  lemma LastPass(st: DealState, rng: Rng, fuel: nat, c: nat)
    requires WellFormed(st) && |st.rest| < |st.buckets| && AllSized(st.buckets, c)
    requires |st.rest| == 0 || fuel > 0
    ensures |Passes(st, rng, fuel).rest| == 0
    ensures Balanced(Passes(st, rng, fuel).buckets, c, |st.rest| > 0)
  {
    if |st.rest| > 0 {
      StepCounts(st, rng);
      PassesUnfold(st, rng, fuel);
    }
  }

  /** A full pass leaves equal buckets one text larger and n texts fewer to deal. */
  lemma FullPass(st: DealState, rng: Rng, c: nat, q: nat, rem: nat)
    requires WellFormed(st) && |st.buckets| > 0
    requires AllSized(st.buckets, c)
    requires |st.rest| == Times(q, |st.buckets|) + rem && q > 0
    ensures AllSized(Step(st, rng).buckets, c + 1)
    ensures |Step(st, rng).rest| == Times(q - 1, |st.buckets|) + rem
  {
    StepCounts(st, rng);
    FullPassArithmetic(q, |st.buckets|, rem);
  }

  /** q * n, spelled as repeated addition so that the solver need not reason about products. */
  function Times(q: nat, n: nat): (r: nat)
  {
    if q == 0 then 0 else n + Times(q - 1, n)
  }

  lemma {:induction false} TimesIsProduct(q: nat, n: nat)
    ensures Times(q, n) == q * n
  {
    if q > 0 {
      TimesIsProduct(q - 1, n);
    }
  }

  lemma FullPassArithmetic(q: nat, n: nat, rem: nat)
    requires q > 0
    ensures Times(q, n) + rem >= n
    ensures Times(q, n) + rem - n == Times(q - 1, n) + rem
  {
  }

  /** What one pass does to the bucket sizes and to the number of texts left. */
  lemma StepCounts(st: DealState, rng: Rng)
    requires WellFormed(st)
    ensures var r := Step(st, rng); var n := |st.buckets|;
      && |r.rest| == |st.rest| - Min(n, |st.rest|)
      && r.pass == st.pass + 1
      && forall b :: 0 <= b < n ==>
        if |st.rest| >= n then |r.buckets[b]| == |st.buckets[b]| + 1
        else |r.buckets[b]| == |st.buckets[b]| || |r.buckets[b]| == |st.buckets[b]| + 1
  {
    var order := PassOrder(st, rng);
    AdvanceSpec(st, order);
    AdvanceSizes(st, order);
  }

  /** With no buckets a pass deals nothing: the loop's state never changes. */
  lemma {:induction false} PassesWithoutBuckets(st: DealState, rng: Rng, fuel: nat)
    requires WellFormed(st) && |st.buckets| == 0
    ensures Passes(st, rng, fuel).rest == st.rest
    ensures Passes(st, rng, fuel).buckets == st.buckets
    decreases fuel
  {
    if fuel > 0 && |st.rest| > 0 {
      var order := PassOrder(st, rng);
      AdvanceSpec(st, order);
      PassesWithoutBuckets(Step(st, rng), rng, fuel - 1);
    }
  }

  lemma {:induction false} BagOfNoBuckets(n: nat)
    ensures BagOf(NoBuckets(n)) == multiset{}
  {
    if n > 0 {
      assert NoBuckets(n)[1..] == NoBuckets(n - 1);
      BagOfNoBuckets(n - 1);
    }
  }

  /** From empty buckets, m texts and m passes deal everything into balanced buckets. */
  lemma StartSizes(init: DealState, rng: Rng, m: nat)
    requires WellFormed(init) && |init.buckets| > 0 && AllSized(init.buckets, 0) && |init.rest| == m
    ensures var r := Passes(init, rng, m); var n := |init.buckets|;
      && |r.rest| == 0
      && forall b :: 0 <= b < n ==> |r.buckets[b]| == m / n || (m % n != 0 && |r.buckets[b]| == m / n + 1)
  {
    var n := |init.buckets|;
    var q, rem := m / n, m % n;
    DivisionArithmetic(m, n);
    PassesSizes(init, rng, m, 0, q, rem);
    var r := Passes(init, rng, m);
    forall b | 0 <= b < n
      ensures |r.buckets[b]| == q || (rem != 0 && |r.buckets[b]| == q + 1)
    {
    }
  }

  /** The texts are all dealt once the loop's passes are used up, in balanced buckets. */
  lemma DealSizes(texts: seq<Text>, n: nat, tok: Tokenizer, rng: Rng)
    requires n > 0
    ensures var r := Passes(InitialState(SortDescending(texts, tok), n), rng, |texts|);
      && |r.rest| == 0
      && forall b :: 0 <= b < n ==> |r.buckets[b]| == |texts| / n || (|texts| % n != 0 && |r.buckets[b]| == |texts| / n + 1)
  {
    var init := InitialState(SortDescending(texts, tok), n);
    assert AllSized(init.buckets, 0);
    StartSizes(init, rng, |texts|);
  }

  lemma DivisionArithmetic(m: nat, n: nat)
    requires n > 0
    ensures m == Times(m / n, n) + m % n && m % n < n
    ensures m >= m / n + (if m % n > 0 then 1 else 0)
  {
    TimesIsProduct(m / n, n);
    TimesAtLeast(m / n, n);
  }

  lemma {:induction false} TimesAtLeast(q: nat, n: nat)
    requires n > 0
    ensures Times(q, n) >= q
  {
    if q > 0 {
      TimesAtLeast(q - 1, n);
    }
  }

  /** Every text ends up in exactly one bucket: nothing dropped, nothing duplicated. */
  lemma DealPartition(texts: seq<Text>, n: nat, tok: Tokenizer, rng: Rng)
    requires n > 0 || |texts| == 0
    ensures BagOf(Deal(texts, n, tok, rng)) == multiset(texts)
  {
    var sorted := SortDescending(texts, tok);
    var init := InitialState(sorted, n);
    var r := Passes(init, rng, |texts|);
    assert Deal(texts, n, tok, rng) == r.buckets;
    if n > 0 {
      DealSizes(texts, n, tok, rng);
    }
    assert r.rest == [];
    PassesConserve(init, rng, |texts|);
    BagOfNoBuckets(n);
    assert BagOf(r.buckets) == BagOf(init.buckets) + multiset(init.rest);
    assert multiset(init.rest) == multiset(texts);
  }

  /** Bucket sizes differ by at most one: each holds floor(m/n) or ceil(m/n) of the m texts. */
  lemma DealBalanced(texts: seq<Text>, n: nat, tok: Tokenizer, rng: Rng)
    requires n > 0
    ensures var bs := Deal(texts, n, tok, rng); var m := |texts|;
      forall b :: 0 <= b < n ==> |bs[b]| == m / n || (m % n != 0 && |bs[b]| == m / n + 1)
  {
    DealSizes(texts, n, tok, rng);
  }

  /** Before the in-batch shuffle each bucket lists its texts largest first. */
  lemma DealOrdered(texts: seq<Text>, n: nat, tok: Tokenizer, rng: Rng)
    requires n > 0 || |texts| == 0
    ensures forall b :: 0 <= b < n ==> NonIncreasing(Deal(texts, n, tok, rng)[b], tok)
  {
    var init := InitialState(SortDescending(texts, tok), n);
    PassesOrdered(init, rng, |texts|, tok);
  }

  // ---------------------------------------------------------------- statistics, shuffle, rendering

  /** Lines 68-69: shuffle every bucket in place. */
  function ShuffleBuckets(bs: seq<Bucket>, rng: Rng): (r: seq<Bucket>)
    ensures |r| == |bs|
    ensures forall b :: 0 <= b < |bs| ==> multiset(r[b]) == multiset(bs[b])
  {
    var r := seq(|bs|, b requires 0 <= b < |bs| => Shuffle(bs[b], rng.bucketDraw, b));
    forall b | 0 <= b < |bs|
      ensures multiset(r[b]) == multiset(bs[b])
    {
      ShufflePermutes(bs[b], rng.bucketDraw, b);
    }
    r
  }

  /** The `(s, t)` pair of line 66: tokens and number of texts in one bucket. */
  datatype Stat = Stat(tokens: nat, count: nat)

  /** The key `f"context_{i}"`. */
  function StatKey(i: nat): (r: string)
  {
    "context_" + Strings.NatToString(i)
  }

  lemma StatKeyInjective(i: nat, j: nat)
    requires StatKey(i) == StatKey(j)
    ensures i == j
  {
    var p := "context_";
    assert StatKey(i)[|p|..] == Strings.NatToString(i);
    assert StatKey(j)[|p|..] == Strings.NatToString(j);
    Strings.NatToStringInjective(i, j);
  }

  /** Lines 59-66: `stats["context_i"] = (token sum, item count)` of bucket i. */
  function StatsOf(bs: seq<Bucket>, tok: Tokenizer): (m: map<string, Stat>)
    ensures m.Keys == set i | 0 <= i < |bs| :: StatKey(i)
    ensures forall i :: 0 <= i < |bs| ==> m[StatKey(i)] == Stat(TokenSum(bs[i], tok), |bs[i]|)
  {
    forall i: nat, j: nat | StatKey(i) == StatKey(j)
      ensures i == j
    {
      StatKeyInjective(i, j);
    }
    map i | 0 <= i < |bs| :: StatKey(i) := Stat(TokenSum(bs[i], tok), |bs[i]|)
  }

  // ---------------------------------------------------------------- fill_context

  /** The buckets behind the rendered batches: dealt, then shuffled one by one. */
  function Pack(texts: seq<Text>, limit: nat, tok: Tokenizer, rng: Rng): (bs: seq<Bucket>)
    requires limit > 0
    requires |texts| == 0 || TokenSum(texts, tok) > 0
    ensures |bs| == BatchCount(texts, limit, tok)
  {
    ShuffleBuckets(Deal(texts, BatchCount(texts, limit, tok), tok, rng), rng)
  }

  /** The result of `fill_context`, or the endless loop it runs instead. */
  datatype FillOutcome = Filled(batches: seq<string>, stats: map<string, Stat>) | LoopsForever

  /**
   * `fill_context(texts, context_limit, separater)`. When texts remain but the
   * batch count is 0 (all texts have 0 tokens) the source loops forever at line 49.
   */
  function FillContext(texts: seq<Text>, limit: nat, sep: string, tok: Tokenizer, rng: Rng): (r: FillOutcome)
    requires limit > 0
    ensures r.LoopsForever? <==> |texts| > 0 && TokenSum(texts, tok) == 0
    ensures r.Filled? ==> |r.batches| == CeilDiv(TokenSum(texts, tok), limit)
    ensures r.Filled? ==> r.stats.Keys == set i | 0 <= i < |r.batches| :: StatKey(i)
    ensures |texts| == 0 ==> r == Filled([], map[])
  {
    var n := BatchCount(texts, limit, tok);
    if n == 0 && |texts| > 0 then LoopsForever
    else
      var dealt := Deal(texts, n, tok, rng);
      Filled(RenderAll(ShuffleBuckets(dealt, rng), sep), StatsOf(dealt, tok))
  }

  // ---------------------------------------------------------------- what fill_context promises

  /** Shuffling inside the buckets keeps every bucket's texts and size. */
  lemma ShuffleBucketsKeeps(bs: seq<Bucket>, rng: Rng)
    ensures var r := ShuffleBuckets(bs, rng);
      && BagOf(r) == BagOf(bs)
      && forall b :: 0 <= b < |bs| ==> |r[b]| == |bs[b]|
  {
    var r := ShuffleBuckets(bs, rng);
    BagOfPointwise(r, bs);
    forall b | 0 <= b < |bs|
      ensures |r[b]| == |bs[b]|
    {
      assert |multiset(r[b])| == |multiset(bs[b])|;
    }
  }

  /** The batches partition the input: every text in exactly one batch, as often as it was given. */
  lemma PackPartition(texts: seq<Text>, limit: nat, tok: Tokenizer, rng: Rng)
    requires limit > 0
    requires |texts| == 0 || TokenSum(texts, tok) > 0
    ensures BagOf(Pack(texts, limit, tok, rng)) == multiset(texts)
  {
    var n := BatchCount(texts, limit, tok);
    var dealt := Deal(texts, n, tok, rng);
    assert Pack(texts, limit, tok, rng) == ShuffleBuckets(dealt, rng);
    DealPartition(texts, n, tok, rng);
    ShuffleBucketsKeeps(dealt, rng);
  }

  /** Batches differ in size by at most one text: each holds floor(m/n) or ceil(m/n) of the m texts. */
  lemma PackBalanced(texts: seq<Text>, limit: nat, tok: Tokenizer, rng: Rng)
    requires limit > 0 && TokenSum(texts, tok) > 0
    ensures var bs := Pack(texts, limit, tok, rng); var m, n := |texts|, |bs|;
      n > 0 && forall b :: 0 <= b < n ==> |bs[b]| == m / n || (m % n != 0 && |bs[b]| == m / n + 1)
  {
    var n := BatchCount(texts, limit, tok);
    var dealt := Deal(texts, n, tok, rng);
    assert Pack(texts, limit, tok, rng) == ShuffleBuckets(dealt, rng);
    DealBalanced(texts, n, tok, rng);
    ShuffleBucketsKeeps(dealt, rng);
  }

  /**
   * What `fill_context` returns: batch i is bucket i of the pack, rendered, and
   * `stats["context_i"]` holds that batch's token total and text count, which
   * the in-batch shuffle does not change.
   */
  lemma FillContextBatches(texts: seq<Text>, limit: nat, sep: string, tok: Tokenizer, rng: Rng)
    requires limit > 0
    ensures var r := FillContext(texts, limit, sep, tok, rng);
      r.Filled? ==>
        var bs := Pack(texts, limit, tok, rng);
        && |r.batches| == |bs|
        && forall i :: 0 <= i < |bs| ==>
             && r.batches[i] == Render(bs[i], sep)
             && r.stats[StatKey(i)] == Stat(TokenSum(bs[i], tok), |bs[i]|)
  {
    var r := FillContext(texts, limit, sep, tok, rng);
    if r.Filled? {
      var n := BatchCount(texts, limit, tok);
      var dealt := Deal(texts, n, tok, rng);
      var bs := ShuffleBuckets(dealt, rng);
      forall i | 0 <= i < |bs|
        ensures r.stats[StatKey(i)] == Stat(TokenSum(bs[i], tok), |bs[i]|)
      {
        TokenSumIgnoresOrder(dealt[i], bs[i], tok);
        assert |multiset(bs[i])| == |multiset(dealt[i])|;
      }
    }
  }

  /** Every text the batches carry, each batch read back with `ReadBatch`. */
  ghost function ReadAll(batches: seq<string>, sep: string): (r: multiset<Text>)
  {
    if |batches| == 0 then multiset{} else multiset(ReadBatch(batches[0], sep)) + ReadAll(batches[1..], sep)
  }

  lemma {:induction false} ReadAllRendered(bs: seq<Bucket>, sep: string)
    requires PlainTag(sep)
    requires forall b, i :: 0 <= b < |bs| && 0 <= i < |bs[b]| ==> !Strings.Contains(bs[b][i], Close(sep))
    ensures ReadAll(RenderAll(bs, sep), sep) == BagOf(bs)
  {
    if |bs| > 0 {
      ReadRenderRoundTrip(bs[0], sep);
      assert RenderAll(bs, sep)[1..] == RenderAll(bs[1..], sep);
      ReadAllRendered(bs[1..], sep);
    }
  }

  /**
   * Reading the batches back recovers exactly the input texts, provided the tag
   * name is plain and no text contains the closing tag itself.
   */
  lemma FillContextRoundTrip(texts: seq<Text>, limit: nat, sep: string, tok: Tokenizer, rng: Rng)
    requires limit > 0 && PlainTag(sep)
    requires forall i :: 0 <= i < |texts| ==> !Strings.Contains(texts[i], Close(sep))
    ensures var r := FillContext(texts, limit, sep, tok, rng);
      r.Filled? ==> ReadAll(r.batches, sep) == multiset(texts)
  {
    var r := FillContext(texts, limit, sep, tok, rng);
    if r.Filled? {
      var bs := Pack(texts, limit, tok, rng);
      PackPartition(texts, limit, tok, rng);
      forall b, i | 0 <= b < |bs| && 0 <= i < |bs[b]|
        ensures !Strings.Contains(bs[b][i], Close(sep))
      {
        BagOfHolds(bs, b, i);
        assert bs[b][i] in multiset(texts);
      }
      ReadAllRendered(bs, sep);
    }
  }

  /** Every text in a bucket is counted by `BagOf`. */
  lemma {:induction false} BagOfHolds(bs: seq<Bucket>, b: nat, i: nat)
    requires b < |bs| && i < |bs[b]|
    ensures bs[b][i] in BagOf(bs)
  {
    if b == 0 {
      assert bs[0][i] in multiset(bs[0]);
    } else {
      BagOfHolds(bs[1..], b - 1, i);
    }
  }

  /**
   * With fewer texts than batches (one text alone over the limit, say) some
   * batch gets no text and is rendered as the empty string.
   */
  lemma FewerTextsThanBatches(texts: seq<Text>, limit: nat, sep: string, tok: Tokenizer, rng: Rng)
    requires limit > 0 && |texts| < BatchCount(texts, limit, tok)
    ensures var r := FillContext(texts, limit, sep, tok, rng);
      r.Filled? && exists i :: 0 <= i < |r.batches| && r.batches[i] == ""
  {
    var bs := Pack(texts, limit, tok, rng);
    PackPartition(texts, limit, tok, rng);
    var i := EmptyBucket(bs, |texts|);
    FillContextBatches(texts, limit, sep, tok, rng);
    assert Render(bs[i], sep) == "";
  }

  /** Fewer texts than buckets leave some bucket empty. */
  lemma EmptyBucket(bs: seq<Bucket>, m: nat) returns (i: nat)
    requires |BagOf(bs)| == m < |bs|
    ensures i < |bs| && bs[i] == []
  {
    if forall j :: 0 <= j < |bs| ==> |bs[j]| >= 1 {
      BagOfNonEmptyBuckets(bs);
      assert false;
    }
    i :| 0 <= i < |bs| && |bs[i]| < 1;
  }

  /** A single text over the limit still travels whole, in one batch, next to empty ones. */
  lemma OversizedText(text: Text, limit: nat, sep: string, tok: Tokenizer, rng: Rng)
    requires limit > 0 && tok(text) > limit
    ensures var r := FillContext([text], limit, sep, tok, rng);
      && r.Filled? && |r.batches| >= 2
      && (exists i :: 0 <= i < |r.batches| && r.batches[i] == Wrap(text, sep))
      && (exists i :: 0 <= i < |r.batches| && r.batches[i] == "")
  {
    var texts := [text];
    assert TokenSum(texts, tok) == tok(text) by {
      assert texts[1..] == [];
    }
    var r := FillContext(texts, limit, sep, tok, rng);
    var bs := Pack(texts, limit, tok, rng);
    FewerTextsThanBatches(texts, limit, sep, tok, rng);
    PackPartition(texts, limit, tok, rng);
    FillContextBatches(texts, limit, sep, tok, rng);
    assert text in BagOf(bs);
    var b := InBucket(bs, text);
    BagOfSingleton(bs, b, text);
    assert r.batches[b] == Render([text], sep);
    assert Render([text], sep) == Wrap(text, sep) + Render([], sep);
  }

  /** A single text within the limit makes one batch holding just that text. */
  lemma FittingText(text: Text, limit: nat, sep: string, tok: Tokenizer, rng: Rng)
    requires 0 < tok(text) <= limit
    ensures var r := FillContext([text], limit, sep, tok, rng);
      && r.Filled? && r.batches == [Wrap(text, sep)]
      && r.stats[StatKey(0)] == Stat(tok(text), 1)
  {
    var texts := [text];
    assert TokenSum(texts, tok) == tok(text) by {
      assert texts[1..] == [];
    }
    var r := FillContext(texts, limit, sep, tok, rng);
    var bs := Pack(texts, limit, tok, rng);
    PackPartition(texts, limit, tok, rng);
    FillContextBatches(texts, limit, sep, tok, rng);
    assert text in BagOf(bs);
    var b := InBucket(bs, text);
    BagOfSingleton(bs, b, text);
    assert |r.batches| == 1 && b == 0;
    assert r.batches[0] == Wrap(text, sep) by {
      assert Render([text], sep) == Wrap(text, sep) + Render([], sep);
      assert Wrap(text, sep) + "" == Wrap(text, sep);
    }
    assert TokenSum(bs[0], tok) == tok(text) by {
      assert bs[0][1..] == [];
    }
  }

  /** Some bucket holds x when the buckets together hold it. */
  lemma {:induction false} InBucket(bs: seq<Bucket>, x: Text) returns (b: nat)
    requires x in BagOf(bs)
    ensures b < |bs| && x in bs[b]
  {
    if x in multiset(bs[0]) {
      b := 0;
    } else {
      var b' := InBucket(bs[1..], x);
      b := b' + 1;
    }
  }

  /** When the buckets together hold one text, the bucket holding it holds nothing else. */
  lemma {:induction false} BagOfSingleton(bs: seq<Bucket>, b: nat, x: Text)
    requires BagOf(bs) == multiset{x} && b < |bs| && x in bs[b]
    ensures bs[b] == [x]
  {
    if b == 0 {
      assert multiset(bs[0]) <= multiset{x};
      assert |bs[0]| == |multiset(bs[0])| <= 1;
      assert bs[0][0] in multiset{x};
    } else {
      assert multiset(bs[0]) <= multiset{x};
      var j :| 0 <= j < |bs[b]| && bs[b][j] == x;
      BagOfHolds(bs[1..], b - 1, j);
      if |bs[0]| > 0 {
        assert false;
      }
      BagOfSingleton(bs[1..], b - 1, x);
    }
  }

  /**
   * Lines 42-57 on texts with 0 tokens in total: the computed batch count is
   * 0, so the index list is empty, and however many passes of the `while
   * texts:` loop run, no text is ever dealt. This is the case `FillContext`
   * reports as `LoopsForever`.
   */
  lemma ZeroTokensNeverFinish(texts: seq<Text>, limit: nat, sep: string, tok: Tokenizer, rng: Rng, fuel: nat)
    requires limit > 0 && |texts| > 0 && TokenSum(texts, tok) == 0
    ensures BatchCount(texts, limit, tok) == 0
    ensures FillContext(texts, limit, sep, tok, rng) == LoopsForever
    ensures var st := Passes(InitialState(SortDescending(texts, tok), BatchCount(texts, limit, tok)), rng, fuel);
      st.buckets == [] && multiset(st.rest) == multiset(texts)
  {
    var init := InitialState(SortDescending(texts, tok), BatchCount(texts, limit, tok));
    PassesWithoutBuckets(init, rng, fuel);
  }
}
