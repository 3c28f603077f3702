/** Holm's adjustment of p-values, and the step-down test it stands for. */
module Holm {
  import opened Domain
  import opened Sets
  import opened Ordering
  import opened Sorting

  type Ranked = (nat, real)

  predicate ByValue(a: Ranked, b: Ranked) {
    a.1 <= b.1
  }

  function Enumerated(ps: seq<real>): (r: seq<Ranked>)
    ensures |r| == |ps| && forall i :: 0 <= i < |ps| ==> r[i] == (i, ps[i])
  {
    seq(|ps|, i requires 0 <= i < |ps| => (i, ps[i]))
  }

  /** Indices and p-values from the smallest p-value up. */
  function Order(ps: seq<real>): seq<Ranked> {
    Sorted(Enumerated(ps), ByValue)
  }

  function Smaller(a: real, b: real): real {
    if a <= b then a else b
  }

  function Larger(a: real, b: real): real {
    if a >= b then a else b
  }

  /** The p-value at a rank times the number of hypotheses from that rank on. */
  function Scaled(order: seq<Ranked>, rank: nat): real
    requires rank < |order|
  {
    (|order| - rank) as real * order[rank].1
  }

  /** The running maximum after the first `count` ranks. */
  function Running(order: seq<Ranked>, count: nat): real
    requires count <= |order|
  {
    if count == 0 then 0.0
    else Larger(Running(order, count - 1), Smaller(1.0, Scaled(order, count - 1)))
  }

  ghost predicate Probabilities(ps: seq<real>) {
    forall i :: 0 <= i < |ps| ==> 0.0 <= ps[i] <= 1.0
  }

  /** Each input position holds the running maximum up to its rank. */
  ghost predicate AdjustedBy(order: seq<Ranked>, adjusted: seq<real>) {
    && |adjusted| == |order|
    && forall k :: 0 <= k < |order| ==> order[k].0 < |adjusted| && adjusted[order[k].0] == Running(order, k + 1)
  }

  /** Every index occurs once, and the p-values ascend. */
  ghost predicate Ranking(ps: seq<real>, order: seq<Ranked>) {
    && |order| == |ps|
    && (forall k :: 0 <= k < |order| ==> order[k].0 < |ps| && order[k].1 == ps[order[k].0])
    && (forall j, k :: 0 <= j < k < |order| ==> order[j].0 != order[k].0 && order[j].1 <= order[k].1)
    && (forall i :: 0 <= i < |ps| ==> (i, ps[i]) in order)
  }

  lemma ByValueIsTotalPreorder()
    ensures TotalPreorder(ByValue)
  {
  }

  lemma {:induction false} EnumeratedOnce(ps: seq<real>, n: nat, x: Ranked)
    requires n <= |ps|
    ensures multiset(Enumerated(ps)[..n])[x] <= 1
    ensures x.0 >= n ==> multiset(Enumerated(ps)[..n])[x] == 0
  {
    var es := Enumerated(ps);
    if n > 0 {
      EnumeratedOnce(ps, n - 1, x);
      assert es[..n] == es[..n - 1] + [es[n - 1]];
    }
  }

  lemma OrderIsRanking(ps: seq<real>)
    ensures Ranking(ps, Order(ps))
  {
    var es, order := Enumerated(ps), Order(ps);
    ByValueIsTotalPreorder();
    SortedFacts(es, ByValue);
    RankedOnce(ps, order);
    forall i | 0 <= i < |ps| ensures (i, ps[i]) in order {
      assert es[i] in multiset(order);
    }
  }

  /** A permutation of the enumerated values holds each position once, with its value. */
  lemma RankedOnce(ps: seq<real>, order: seq<Ranked>)
    requires multiset(order) == multiset(Enumerated(ps))
    ensures forall k :: 0 <= k < |order| ==> order[k].0 < |ps| && order[k].1 == ps[order[k].0]
    ensures forall j, k :: 0 <= j < k < |order| ==> order[j].0 != order[k].0
  {
    var es := Enumerated(ps);
    forall k | 0 <= k < |order| ensures order[k].0 < |ps| && order[k].1 == ps[order[k].0] {
      assert order[k] in multiset(es);
    }
    assert es[..|ps|] == es;
    forall j, k | 0 <= j < k < |order| ensures order[j].0 != order[k].0 {
      EnumeratedOnce(ps, |ps|, order[j]);
      if order[j].0 == order[k].0 {
        OccursTwice(order, order[j]);
      }
    }
  }

  /** No two entries write to the same position. */
  ghost predicate Places(order: seq<Ranked>) {
    && (forall k :: 0 <= k < |order| ==> order[k].0 < |order|)
    && (forall j, k :: 0 <= j < k < |order| ==> order[j].0 != order[k].0)
  }

  ghost predicate FilledTo(order: seq<Ranked>, filled: seq<real>, n: nat)
    requires n <= |order|
  {
    && |filled| == |order|
    && forall k :: 0 <= k < n ==> order[k].0 < |filled| && filled[order[k].0] == Running(order, k + 1)
  }

  lemma FillOne(order: seq<Ranked>, filled: seq<real>, rank: nat)
    requires Places(order) && rank < |order| && FilledTo(order, filled, rank)
    ensures order[rank].0 < |filled| && FilledTo(order, filled[order[rank].0 := Running(order, rank + 1)], rank + 1)
  {
    var more := filled[order[rank].0 := Running(order, rank + 1)];
    forall k | 0 <= k < rank + 1 ensures order[k].0 < |more| && more[order[k].0] == Running(order, k + 1) {
      assert k < rank ==> order[k].0 != order[rank].0;
    }
  }

  method FillAdjusted(order: seq<Ranked>) returns (adjusted: seq<real>)
    requires Places(order)
    ensures AdjustedBy(order, adjusted)
  {
    var filled := new real[|order|];
    var running := 0.0;
    for rank := 0 to |order|
      invariant running == Running(order, rank) && FilledTo(order, filled[..], rank)
    {
      FillOne(order, filled[..], rank);
      running := Larger(running, Smaller(1.0, Scaled(order, rank)));
      ghost var before := filled[..];
      filled[order[rank].0] := running;
      assert filled[..] == before[order[rank].0 := running];
    }
    adjusted := filled[..];
  }

  method HolmAdjust(ps: seq<real>) returns (r: Result<seq<real>>)
    ensures r.Ok? <==> Probabilities(ps)
    ensures r.Ok? ==> AdjustedBy(Order(ps), r.value)
    ensures r.Err? ==> r.code == "ValueError"
  {
    if exists i :: 0 <= i < |ps| && !(0.0 <= ps[i] <= 1.0) {
      return Err("ValueError");
    }
    OrderIsRanking(ps);
    var adjusted := FillAdjusted(Order(ps));
    return Ok(adjusted);
  }

  // ---------------------------------------------------------------- Holm's step-down test

  /** Reject from the smallest p-value up, and stop at the first one above its share of `alpha`. */
  function StepDown(order: seq<Ranked>, alpha: real, rank: nat): set<nat>
    requires rank <= |order|
    decreases |order| - rank
  {
    if rank == |order| || order[rank].1 > alpha / (|order| - rank) as real then {}
    else {order[rank].0} + StepDown(order, alpha, rank + 1)
  }

  lemma ScaledExactly(order: seq<Ranked>, rank: nat, alpha: real)
    requires rank < |order|
    ensures Scaled(order, rank) <= alpha <==> order[rank].1 <= alpha / (|order| - rank) as real
  {
    Divided((|order| - rank) as real, order[rank].1, alpha);
  }

  lemma Divided(n: real, p: real, alpha: real)
    requires n > 0.0
    ensures n * p <= alpha <==> p <= alpha / n
  {
    var share := alpha / n;
    assert n * share == alpha;
    if p <= share { Times(n, p, share); }
    if p > share { Times(n, share, p); }
  }

  lemma Times(n: real, a: real, b: real)
    requires n > 0.0 && a <= b
    ensures n * a <= n * b && (a < b ==> n * a < n * b)
  {
    assert n * (b - a) >= 0.0 && (a < b ==> n * (b - a) > 0.0);
  }

  lemma {:induction false} RejectedExactly(ps: seq<real>, order: seq<Ranked>, alpha: real, rank: nat, k: nat)
    requires Ranking(ps, order) && rank <= |order| && k < |order|
    ensures order[k].0 in StepDown(order, alpha, rank) <==>
              rank <= k && forall j :: rank <= j <= k ==> Scaled(order, j) <= alpha
    decreases |order| - rank
  {
    forall j: nat | j < |order| ensures Scaled(order, j) <= alpha <==> order[j].1 <= alpha / (|order| - j) as real {
      ScaledExactly(order, j, alpha);
    }
    if rank < |order| && Scaled(order, rank) <= alpha {
      RejectedExactly(ps, order, alpha, rank + 1, k);
    }
  }

  lemma {:induction false} RunningBelow(ps: seq<real>, order: seq<Ranked>, alpha: real, count: nat)
    requires Ranking(ps, order) && Probabilities(ps) && alpha < 1.0 && 0 < count <= |order|
    ensures Running(order, count) <= alpha <==> forall j :: 0 <= j < count ==> Scaled(order, j) <= alpha
  {
    ScaledAtLeast(ps, order, count - 1);
    if count > 1 {
      RunningBelow(ps, order, alpha, count - 1);
    } else {
      assert Running(order, 0) == 0.0;
    }
  }

  /** A scaled p-value is never below the p-value. */
  lemma ScaledAtLeast(ps: seq<real>, order: seq<Ranked>, k: nat)
    requires Ranking(ps, order) && Probabilities(ps) && k < |order|
    ensures Scaled(order, k) >= order[k].1 >= 0.0
  {
    var v, more := order[k].1, (|order| - k) as real;
    assert v == ps[order[k].0] && 0.0 <= ps[order[k].0] && more >= 1.0;
    Scaling(more, v);
    assert Scaled(order, k) == more * v;
  }

  lemma Scaling(more: real, v: real)
    requires more >= 1.0 && v >= 0.0
    ensures more * v >= v && (more + 1.0) * v >= more * v
  {
    var extra := more - 1.0;
    assert extra * v >= 0.0;
    assert more * v == extra * v + v;
  }

  lemma ScaledFalls(ps: seq<real>, order: seq<Ranked>, k: nat)
    requires Ranking(ps, order) && Probabilities(ps) && 0 < k < |order| && order[k - 1].1 == order[k].1
    ensures Scaled(order, k) <= Scaled(order, k - 1)
  {
    assert 0.0 <= ps[order[k].0];
    Scaling((|order| - k) as real, order[k].1);
  }

  lemma RankOf(ps: seq<real>, order: seq<Ranked>, i: nat) returns (k: nat)
    requires Ranking(ps, order) && i < |ps|
    ensures k < |order| && order[k] == (i, ps[i])
  {
    k :| 0 <= k < |order| && order[k] == (i, ps[i]);
  }

  /** An adjusted p-value is at most `alpha` exactly when the step-down test rejects the hypothesis. */
  lemma AdjustedRejectsExactly(ps: seq<real>, adjusted: seq<real>, alpha: real, i: nat)
    requires Probabilities(ps) && AdjustedBy(Order(ps), adjusted) && alpha < 1.0 && i < |ps|
    ensures |adjusted| == |ps|
    ensures adjusted[i] <= alpha <==> i in StepDown(Order(ps), alpha, 0)
  {
    OrderIsRanking(ps);
    var k := RankOf(ps, Order(ps), i);
    RunningBelow(ps, Order(ps), alpha, k + 1);
    RejectedExactly(ps, Order(ps), alpha, 0, k);
  }

  // ---------------------------------------------------------------- bounds, order and ties

  lemma {:induction false} RunningBounds(ps: seq<real>, order: seq<Ranked>, j: nat, k: nat)
    requires Ranking(ps, order) && Probabilities(ps) && j < k <= |order|
    ensures order[j].1 <= Running(order, j + 1) <= Running(order, k) <= 1.0
  {
    ScaledAtLeast(ps, order, j);
    assert ps[order[j].0] <= 1.0;
    if k > j + 1 {
      RunningBounds(ps, order, j, k - 1);
    } else {
      RunningAtMostOne(order, k);
    }
  }

  lemma {:induction false} RunningAtMostOne(order: seq<Ranked>, count: nat)
    requires count <= |order|
    ensures 0.0 <= Running(order, count) <= 1.0
  {
    if count > 0 {
      RunningAtMostOne(order, count - 1);
    }
  }

  /** Equal p-values leave the running maximum where the first of them put it. */
  lemma {:induction false} TiesShare(ps: seq<real>, order: seq<Ranked>, j: nat, k: nat)
    requires Ranking(ps, order) && Probabilities(ps) && j <= k < |order| && order[j].1 == order[k].1
    ensures Running(order, j + 1) == Running(order, k + 1)
  {
    if j < k {
      assert order[j].1 <= order[k - 1].1 <= order[k].1;
      TiesShare(ps, order, j, k - 1);
      ScaledFalls(ps, order, k);
    }
  }

  /** Adjusting never lowers a p-value nor leaves the unit interval, keeps their order, and gives
      equal p-values equal results. */
  lemma AdjustedKeepsOrder(ps: seq<real>, adjusted: seq<real>, i: nat, j: nat)
    requires Probabilities(ps) && AdjustedBy(Order(ps), adjusted) && i < |ps| && j < |ps|
    ensures |adjusted| == |ps|
    ensures ps[i] <= adjusted[i] <= 1.0
    ensures ps[i] <= ps[j] ==> adjusted[i] <= adjusted[j]
  {
    var order := Order(ps);
    OrderIsRanking(ps);
    var a := RankOf(ps, order, i);
    var b := RankOf(ps, order, j);
    RunningBounds(ps, order, a, a + 1);
    if a < b {
      RunningBounds(ps, order, a, b + 1);
    } else if ps[i] <= ps[j] {
      assert order[b].1 == order[a].1;
      TiesShare(ps, order, b, a);
    }
  }

  // ---------------------------------------------------------------- permuting the input

  function Values(order: seq<Ranked>): seq<real> {
    Mapped(order, (x: Ranked) => x.1)
  }

  lemma {:induction false} RunningByValues(order: seq<Ranked>, other: seq<Ranked>, count: nat)
    requires Values(order) == Values(other) && count <= |order|
    ensures |order| == |other| && Running(order, count) == Running(other, count)
  {
    assert |order| == |Values(order)| == |Values(other)| == |other|;
    if count > 0 {
      RunningByValues(order, other, count - 1);
      assert Values(order)[count - 1] == Values(other)[count - 1];
    }
  }

  predicate AtMost(a: real, b: real) {
    a <= b
  }

  lemma ValuesIgnoreOrder(ps: seq<real>, qs: seq<real>)
    requires multiset(ps) == multiset(qs)
    ensures Values(Order(ps)) == Values(Order(qs))
  {
    ByValueIsTotalPreorder();
    SortedFacts(Enumerated(ps), ByValue);
    SortedFacts(Enumerated(qs), ByValue);
    MappedTogether(Order(ps), Enumerated(ps), (x: Ranked) => x.1);
    MappedTogether(Order(qs), Enumerated(qs), (x: Ranked) => x.1);
    assert Values(Enumerated(ps)) == ps && Values(Enumerated(qs)) == qs;
    OrderedPermutationUnique(Values(Order(ps)), Values(Order(qs)), AtMost);
  }

  /** An adjusted value depends on the ascending p-values and on its own p-value alone. */
  lemma SameValueAt(order: seq<Ranked>, other: seq<Ranked>, b: nat)
    requires Values(order) == Values(other) && b < |other|
    ensures |order| == |other| && order[b].1 == other[b].1
  {
    assert |order| == |Values(order)| == |Values(other)| == |other|;
    assert order[b].1 == Values(order)[b] == Values(other)[b] == other[b].1;
  }

  lemma SharedThroughOrder(ps: seq<real>, order: seq<Ranked>, other: seq<Ranked>, a: nat, b: nat)
    requires Ranking(ps, order) && Probabilities(ps) && Values(order) == Values(other) && a < |order| && b < |other|
    requires order[a].1 == other[b].1
    ensures Running(order, a + 1) == Running(other, b + 1)
  {
    SameValueAt(order, other, b);
    RunningByValues(order, other, b + 1);
    if a <= b {
      TiesShare(ps, order, a, b);
    } else {
      TiesShare(ps, order, b, a);
    }
  }

  /** Listing the p-values in another order moves each adjusted value along with its p-value. */
  lemma AdjustingIgnoresOrder(ps: seq<real>, qs: seq<real>, adjusted: seq<real>, other: seq<real>, i: nat, j: nat)
    requires multiset(ps) == multiset(qs) && Probabilities(ps) && i < |ps| && j < |qs| && ps[i] == qs[j]
    requires AdjustedBy(Order(ps), adjusted) && AdjustedBy(Order(qs), other)
    ensures |adjusted| == |ps| && |other| == |qs| && adjusted[i] == other[j]
  {
    OrderIsRanking(ps);
    OrderIsRanking(qs);
    ValuesIgnoreOrder(ps, qs);
    var a := RankOf(ps, Order(ps), i);
    var b := RankOf(qs, Order(qs), j);
    SharedThroughOrder(ps, Order(ps), Order(qs), a, b);
  }
}
