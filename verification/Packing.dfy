// Greedy packing of a list of weighted items into contiguous groups. Four loops
// of the chunker are this packing with different weights and budgets: sentence
// tokens, paragraphs (twice) and word-budget groups.
module Packing {

  // The items lo..hi, hi excluded.
  datatype Span = Span(lo: nat, hi: nat)

  // The total weight of the items lo..hi.
  function Weight(w: seq<nat>, lo: nat, hi: nat): nat
    requires lo <= hi <= |w|
  {
    if lo == hi then 0 else Weight(w, lo, hi - 1) + w[hi - 1]
  }

  lemma {:induction false} WeightSplits(w: seq<nat>, lo: nat, mid: nat, hi: nat)
    requires lo <= mid <= hi <= |w|
    ensures Weight(w, lo, hi) == Weight(w, lo, mid) + Weight(w, mid, hi)
  {
    if mid < hi {
      WeightSplits(w, lo, mid, hi - 1);
    }
  }

  lemma WeightOfOne(w: seq<nat>, i: nat)
    requires i < |w|
    ensures Weight(w, i, i + 1) == w[i]
  {
    assert Weight(w, i, i + 1) == Weight(w, i, i) + w[i];
  }

  // A group is allowed when it is within budget or is a single item.
  predicate Fits(w: seq<nat>, budget: nat, g: Span)
    requires g.lo <= g.hi <= |w|
  {
    g.hi == g.lo + 1 || Weight(w, g.lo, g.hi) <= budget
  }

  // The nonempty spans follow each other and cover lo..hi exactly.
  predicate Tiles(spans: seq<Span>, lo: nat, hi: nat) {
    if spans == [] then lo == hi
    else spans[0].lo == lo < spans[0].hi <= hi && Tiles(spans[1..], spans[0].hi, hi)
  }

  predicate AllFit(w: seq<nat>, budget: nat, spans: seq<Span>) {
    forall g <- spans :: g.lo <= g.hi <= |w| && Fits(w, budget, g)
  }

  // The packing the loops compute: lo..hi is the group being filled; the item
  // at hi joins it unless the group is nonempty and would go over budget.
  function Greedy(w: seq<nat>, budget: nat, lo: nat, hi: nat): (gs: seq<Span>)
    requires lo <= hi <= |w|
    ensures forall g <- gs :: lo <= g.lo < g.hi <= |w|
    decreases |w| - hi
  {
    if hi == |w| then
      if lo < hi then [Span(lo, hi)] else []
    else if lo < hi && Weight(w, lo, hi) + w[hi] > budget then
      [Span(lo, hi)] + Greedy(w, budget, hi, hi + 1)
    else
      Greedy(w, budget, lo, hi + 1)
  }

  // Greedy groups are contiguous, cover every item, and are all allowed.
  lemma {:induction false} GreedyIsPacking(w: seq<nat>, budget: nat, lo: nat, hi: nat)
    requires lo <= hi <= |w|
    requires lo < hi ==> Fits(w, budget, Span(lo, hi))
    ensures Tiles(Greedy(w, budget, lo, hi), lo, |w|)
    ensures AllFit(w, budget, Greedy(w, budget, lo, hi))
    decreases |w| - hi
  {
    if hi < |w| {
      if lo < hi && Weight(w, lo, hi) + w[hi] > budget {
        GreedyIsPacking(w, budget, hi, hi + 1);
        assert Greedy(w, budget, lo, hi)[1..] == Greedy(w, budget, hi, hi + 1);
      } else {
        assert Weight(w, lo, hi + 1) == Weight(w, lo, hi) + w[hi];
        GreedyIsPacking(w, budget, lo, hi + 1);
      }
    }
  }

  // The first greedy group reaches at least as far as any allowed group that
  // starts at or before it.
  lemma {:induction false} GreedyReachesFurthest(w: seq<nat>, budget: nat, a: nat, lo: nat, hi: nat, c: nat)
    requires a <= lo < hi <= c <= |w|
    requires Fits(w, budget, Span(a, c))
    ensures var g := Greedy(w, budget, lo, hi);
            g != [] && g[0].lo == lo && c <= g[0].hi <= |w| && g[1..] == Greedy(w, budget, g[0].hi, g[0].hi)
    decreases |w| - hi
  {
    if hi < c {
      WeightSplits(w, a, lo, c);
      WeightSplits(w, lo, hi + 1, c);
      GreedyReachesFurthest(w, budget, a, lo, hi + 1, c);
    } else if hi < |w| {
      if Weight(w, lo, hi) + w[hi] > budget {
        assert Greedy(w, budget, lo, hi)[1..] == Greedy(w, budget, hi, hi);
      } else {
        assert Weight(w, lo, hi + 1) == Weight(w, lo, hi) + w[hi];
        GreedyReachesFurthest(w, budget, lo, lo, hi + 1, hi + 1);
      }
    }
  }

  // Greedy packing is optimal: no contiguous packing into allowed groups has
  // fewer of them. `a` may lag behind `b`, which is what makes the induction go.
  lemma {:induction false} GreedyIsFewest(w: seq<nat>, budget: nat, a: nat, b: nat, spans: seq<Span>)
    requires a <= b <= |w|
    requires Tiles(spans, a, |w|) && AllFit(w, budget, spans)
    ensures |Greedy(w, budget, b, b)| <= |spans|
    decreases |spans|
  {
    if spans != [] {
      var c := spans[0].hi;
      if c <= b {
        GreedyIsFewest(w, budget, c, b, spans[1..]);
      } else {
        GreedyReachesFurthest(w, budget, a, b, b + 1, c);
        var g := Greedy(w, budget, b, b);
        assert g == Greedy(w, budget, b, b + 1);
        GreedyIsFewest(w, budget, c, g[0].hi, spans[1..]);
        assert |g| == 1 + |g[1..]|;
      }
    }
  }

  // An item that is over budget by itself forms a group of its own.
  lemma {:induction false} OverBudgetIsAlone(w: seq<nat>, budget: nat, lo: nat, hi: nat, i: nat)
    requires lo <= hi <= i < |w| && w[i] > budget
    ensures Span(i, i + 1) in Greedy(w, budget, lo, hi)
    decreases |w| - hi
  {
    if hi == i {
      if lo < hi {
        OverBudgetCloses(w, budget, i);
      } else {
        OverBudgetCloses(w, budget, i);
        assert Greedy(w, budget, lo, hi) == Greedy(w, budget, i, i + 1);
      }
    } else if lo < hi && Weight(w, lo, hi) + w[hi] > budget {
      OverBudgetIsAlone(w, budget, hi, hi + 1, i);
    } else {
      OverBudgetIsAlone(w, budget, lo, hi + 1, i);
    }
  }

  // After an over-budget item the packing starts afresh.
  lemma OverBudgetCloses(w: seq<nat>, budget: nat, i: nat)
    requires i < |w| && w[i] > budget
    ensures Greedy(w, budget, i, i + 1) == [Span(i, i + 1)] + Greedy(w, budget, i + 1, i + 1)
  {
    assert Weight(w, i, i + 1) == Weight(w, i, i) + w[i] == w[i];
  }

  // ---------- what a packing loop has emitted so far ----------

  // One output list per group, in order.
  function Emitted<T>(gs: seq<Span>, emit: Span -> seq<T>): seq<T> {
    if gs == [] then [] else emit(gs[0]) + Emitted(gs[1..], emit)
  }

  // Everything emitted comes from some group.
  lemma {:induction false} EmittedComesFrom<T>(gs: seq<Span>, emit: Span -> seq<T>, x: T)
    requires x in Emitted(gs, emit)
    ensures exists g :: g in gs && x in emit(g)
  {
    if x !in emit(gs[0]) {
      EmittedComesFrom(gs[1..], emit, x);
      var g :| g in gs[1..] && x in emit(g);
      assert g in gs;
    }
  }

  // With one output per group there are as many outputs as groups.
  lemma {:induction false} EmittedCount<T>(gs: seq<Span>, emit: Span -> seq<T>)
    requires forall g <- gs :: |emit(g)| == 1
    ensures |Emitted(gs, emit)| == |gs|
  {
    if gs != [] {
      EmittedCount(gs[1..], emit);
    }
  }

  lemma {:induction false} EmittedHolds<T>(gs: seq<Span>, emit: Span -> seq<T>, g: Span, x: T)
    requires g in gs && x in emit(g)
    ensures x in Emitted(gs, emit)
  {
    if g != gs[0] {
      EmittedHolds(gs[1..], emit, g, x);
    }
  }
}
