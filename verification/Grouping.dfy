// The grouping strategies of the hierarchical summary chunker. Chunks are any
// type here; only a chunk's word count and heading matter.
module Grouping {
  import opened Text
  import opened Packing

  // ---------- groups as slices ----------

  function SliceOf<T>(items: seq<T>, g: Span): seq<T> {
    if g.lo <= g.hi <= |items| then items[g.lo..g.hi] else []
  }

  function SliceEmit<T>(items: seq<T>): Span -> seq<seq<T>> {
    g => [SliceOf(items, g)]
  }

  function Slices<T>(items: seq<T>, gs: seq<Span>): seq<seq<T>> {
    Emitted(gs, SliceEmit(items))
  }

  function Flatten<T>(groups: seq<seq<T>>): seq<T> {
    if groups == [] then [] else groups[0] + Flatten(groups[1..])
  }

  // Slices along a tiling hold every item once, in order, and none is empty.
  lemma {:induction false} SlicesFlatten<T>(items: seq<T>, gs: seq<Span>, lo: nat)
    requires lo <= |items| && Tiles(gs, lo, |items|)
    ensures Flatten(Slices(items, gs)) == items[lo..]
    ensures |Slices(items, gs)| == |gs|
    ensures forall k :: 0 <= k < |gs| ==> Slices(items, gs)[k] == SliceOf(items, gs[k]) != []
    decreases |gs|
  {
    if gs != [] {
      SlicesFlatten(items, gs[1..], gs[0].hi);
      assert items[lo..] == items[lo..gs[0].hi] + items[gs[0].hi..];
      assert Slices(items, gs) == [SliceOf(items, gs[0])] + Slices(items, gs[1..]);
    }
  }

  lemma SliceOfOne<T>(items: seq<T>, lo: nat)
    requires lo < |items|
    ensures Slices(items, [Span(lo, |items|)]) == [items[lo..]]
  {
    var gs := [Span(lo, |items|)];
    assert gs[1..] == [];
    assert items[lo..|items|] == items[lo..];
    assert Slices(items, gs) == [SliceOf(items, gs[0])] + Slices(items, gs[1..]);
  }

  // ---------- packing strategies ----------

  // The groups still to come when lo..i is the current group.
  function GroupsFrom<T>(items: seq<T>, w: seq<nat>, budget: nat, lo: nat, i: nat): seq<seq<T>>
    requires |w| == |items| && lo <= i <= |items|
  {
    Slices(items, Greedy(w, budget, lo, i))
  }

  lemma GroupsFlush<T>(items: seq<T>, w: seq<nat>, budget: nat, lo: nat, i: nat)
    requires |w| == |items| && lo < i < |items| && Weight(w, lo, i) + w[i] > budget
    ensures GroupsFrom(items, w, budget, lo, i) == [items[lo..i]] + GroupsFrom(items, w, budget, i, i)
  {
    var gs := Greedy(w, budget, lo, i);
    assert gs[1..] == Greedy(w, budget, i, i);
  }

  lemma GroupsTake<T>(items: seq<T>, w: seq<nat>, budget: nat, lo: nat, i: nat)
    requires |w| == |items| && lo <= i < |items| && (lo == i || Weight(w, lo, i) + w[i] <= budget)
    ensures GroupsFrom(items, w, budget, lo, i) == GroupsFrom(items, w, budget, lo, i + 1)
    ensures Weight(w, lo, i + 1) == Weight(w, lo, i) + w[i]
    ensures items[lo..i + 1] == items[lo..i] + [items[i]]
  {
  }

  lemma GroupsEnd<T>(items: seq<T>, w: seq<nat>, budget: nat, lo: nat)
    requires |w| == |items| && lo <= |items|
    ensures GroupsFrom(items, w, budget, lo, |items|) == if lo < |items| then [items[lo..]] else []
  {
    if lo < |items| {
      SliceOfOne(items, lo);
    }
  }

  function Ones(n: nat): (w: seq<nat>)
    ensures |w| == n && forall i :: 0 <= i < n ==> w[i] == 1
  {
    seq(n, _ => 1)
  }

  lemma {:induction false} WeightOfOnes(n: nat, lo: nat, i: nat)
    requires lo <= i <= n
    ensures Weight(Ones(n), lo, i) == i - lo
  {
    if lo < i {
      WeightOfOnes(n, lo, i - 1);
    }
  }

  // Groups of n items; n = 0 keeps everything together.
  function FixedNGroups<T>(items: seq<T>, n: nat): seq<seq<T>> {
    if n == 0 then [items] else GroupsFrom(items, Ones(|items|), n, 0, 0)
  }

  lemma FixedNGroupsAre<T>(items: seq<T>, n: nat)
    ensures FixedNGroups(items, n) == if n == 0 then [items] else GroupsFrom(items, Ones(|items|), n, 0, 0)
  {
  }

  method GroupFixedN<T>(items: seq<T>, n: nat) returns (groups: seq<seq<T>>)
    ensures groups == FixedNGroups(items, n)
  {
    hide *;
    FixedNGroupsAre(items, n);
    if n == 0 {
      return [items];
    }
    groups := [];
    var cur: seq<T> := [];
    ghost var lo, w := 0, Ones(|items|);
    for i := 0 to |items|
      invariant lo <= i && cur == items[lo..i] && i - lo <= n
      invariant FixedNGroups(items, n) == groups + GroupsFrom(items, w, n, lo, i)
    {
      WeightOfOnes(|items|, lo, i);
      WeightOfOnes(|items|, i, i);
      if |cur| == n {
        GroupsFlush(items, w, n, lo, i);
        groups := groups + [cur];
        cur := [];
        lo := i;
      }
      GroupsTake(items, w, n, lo, i);
      cur := cur + [items[i]];
    }
    GroupsEnd(items, w, n, lo);
    assert cur == items[lo..];
    if cur != [] {
      groups := groups + [cur];
    }
  }

  // Groups of at most maxWords words.
  function WordBudgetGroups<T>(items: seq<T>, words: seq<nat>, maxWords: nat): seq<seq<T>>
    requires |words| == |items|
  {
    GroupsFrom(items, words, maxWords, 0, 0)
  }

  method GroupWordBudget<T>(items: seq<T>, words: seq<nat>, maxWords: nat) returns (groups: seq<seq<T>>)
    requires |words| == |items|
    ensures groups == WordBudgetGroups(items, words, maxWords)
  {
    groups := [];
    var cur: seq<T> := [];
    var curWords := 0;
    ghost var lo := 0;
    hide GroupsFrom;
    for i := 0 to |items|
      invariant lo <= i && cur == items[lo..i] && curWords == Weight(words, lo, i)
      invariant WordBudgetGroups(items, words, maxWords) == groups + GroupsFrom(items, words, maxWords, lo, i)
    {
      if cur != [] && curWords + words[i] > maxWords {
        GroupsFlush(items, words, maxWords, lo, i);
        groups := groups + [cur];
        cur := [];
        curWords := 0;
        lo := i;
      }
      GroupsTake(items, words, maxWords, lo, i);
      cur := cur + [items[i]];
      curWords := curWords + words[i];
    }
    GroupsEnd(items, words, maxWords, lo);
    assert cur == items[lo..];
    if cur != [] {
      groups := groups + [cur];
    }
  }

  // Word-budget groups hold every chunk once, in order; a chunk over the budget
  // is alone; and no contiguous grouping whose groups are within budget or single
  // chunks has fewer groups.
  lemma WordBudgetGroupsAreOptimal<T>(items: seq<T>, words: seq<nat>, maxWords: nat, other: seq<Span>)
    requires |words| == |items|
    requires Tiles(other, 0, |items|) && AllFit(words, maxWords, other)
    ensures Flatten(WordBudgetGroups(items, words, maxWords)) == items
    ensures |WordBudgetGroups(items, words, maxWords)| <= |other|
    ensures forall i :: 0 <= i < |items| && words[i] > maxWords ==>
              [items[i]] in WordBudgetGroups(items, words, maxWords)
  {
    hide Flatten, Slices, Greedy;
    var gs := Greedy(words, maxWords, 0, 0);
    GreedyIsPacking(words, maxWords, 0, 0);
    SlicesFlatten(items, gs, 0);
    assert items[0..] == items;
    GreedyIsFewest(words, maxWords, 0, 0, other);
    forall i | 0 <= i < |items| && words[i] > maxWords
      ensures [items[i]] in WordBudgetGroups(items, words, maxWords)
    {
      OverBudgetIsAlone(words, maxWords, 0, 0, i);
      var k :| 0 <= k < |gs| && gs[k] == Span(i, i + 1);
      assert Slices(items, gs)[k] == items[i..i + 1] == [items[i]];
    }
  }

  // With n > 0, fixed-size groups all hold n items but the last, which holds at
  // most n.
  lemma {:induction false} FixedNGroupSizes(n: nat, count: nat, lo: nat, i: nat)
    requires n > 0 && lo <= i <= count && i - lo <= n
    ensures var gs := Greedy(Ones(count), n, lo, i);
            && (forall k :: 0 <= k < |gs| - 1 ==> gs[k].hi - gs[k].lo == n)
            && (gs != [] ==> gs[|gs| - 1].hi - gs[|gs| - 1].lo <= n)
    decreases count - i
  {
    hide Weight;
    WeightOfOnes(count, lo, i);
    if i < count {
      if lo < i && i - lo + 1 > n {
        FixedNGroupSizes(n, count, i, i + 1);
      } else {
        FixedNGroupSizes(n, count, lo, i + 1);
      }
    }
  }

  // Fixed-size groups hold every chunk once, in order: n each, and at most n in the
  // last; n = 0 keeps them together.
  lemma FixedNGroupsHoldN<T>(items: seq<T>, n: nat)
    ensures var groups := FixedNGroups(items, n);
            && Flatten(groups) == items
            && (n == 0 ==> groups == [items])
            && (n > 0 ==> forall k :: 0 <= k < |groups| - 1 ==> |groups[k]| == n)
            && (n > 0 && groups != [] ==> 0 < |groups[|groups| - 1]| <= n)
  {
    if n == 0 {
      assert [items][1..] == [] && Flatten([items]) == items + Flatten([items][1..]);
    } else {
      var gs := Greedy(Ones(|items|), n, 0, 0);
      WeightOfOnes(|items|, 0, 0);
      GreedyIsPacking(Ones(|items|), n, 0, 0);
      FixedNGroupSizes(n, |items|, 0, 0);
      SlicesFlatten(items, gs, 0);
      hide Flatten, Slices, Greedy;
      assert items[0..] == items;
    }
  }

  // ---------- runs of equal headings ----------

  // The runs from lo on, where lo..i is the current run.
  function Runs(keys: seq<Option<string>>, lo: nat, i: nat): seq<Span>
    requires lo < i <= |keys|
    decreases |keys| - i
  {
    if i == |keys| then [Span(lo, i)]
    else if keys[i] != keys[i - 1] then [Span(lo, i)] + Runs(keys, i, i + 1)
    else Runs(keys, lo, i + 1)
  }

  function SectionGroups<T>(items: seq<T>, keys: seq<Option<string>>): seq<seq<T>>
    requires |keys| == |items|
  {
    if items == [] then [] else Slices(items, Runs(keys, 0, 1))
  }

  lemma RunsStep<T>(items: seq<T>, keys: seq<Option<string>>, lo: nat, i: nat)
    requires |keys| == |items| && lo < i < |items|
    ensures Slices(items, Runs(keys, lo, i)) ==
              if keys[i] != keys[i - 1] then [items[lo..i]] + Slices(items, Runs(keys, i, i + 1))
              else Slices(items, Runs(keys, lo, i + 1))
  {
    if keys[i] != keys[i - 1] {
      assert Runs(keys, lo, i)[1..] == Runs(keys, i, i + 1);
    }
  }

  lemma RunsEnd<T>(items: seq<T>, keys: seq<Option<string>>, lo: nat)
    requires |keys| == |items| && lo < |items|
    ensures Slices(items, Runs(keys, lo, |items|)) == [items[lo..]]
  {
    SliceOfOne(items, lo);
  }

  method GroupBySection<T>(items: seq<T>, keys: seq<Option<string>>) returns (groups: seq<seq<T>>)
    requires |keys| == |items|
    ensures groups == SectionGroups(items, keys)
  {
    groups := [];
    var cur: seq<T> := [];
    var curHeading: Option<string> := None;
    var haveHeading := false;
    ghost var lo := 0;
    hide Slices, Runs;
    for i := 0 to |items|
      invariant lo <= i && (lo < i <==> i > 0) && cur == items[lo..i]
      invariant haveHeading == (i > 0) && (i > 0 ==> curHeading == keys[i - 1])
      invariant i == 0 ==> groups == []
      invariant i > 0 ==> SectionGroups(items, keys) == groups + Slices(items, Runs(keys, lo, i))
    {
      var h := keys[i];
      if i > 0 {
        RunsStep(items, keys, lo, i);
      }
      if haveHeading && h != curHeading && cur != [] {
        groups := groups + [cur];
        cur := [];
        lo := i;
      }
      curHeading := h;
      haveHeading := true;
      cur := cur + [items[i]];
    }
    if cur != [] {
      assert cur == items[lo..];
      RunsEnd(items, keys, lo);
      groups := groups + [cur];
    }
  }

  // Keys are equal within every span.
  predicate OneKeyEach(keys: seq<Option<string>>, gs: seq<Span>) {
    forall g <- gs :: g.lo < g.hi <= |keys| && forall k :: g.lo <= k < g.hi ==> keys[k] == keys[g.lo]
  }

  lemma {:induction false} RunsHaveOneKey(keys: seq<Option<string>>, lo: nat, i: nat)
    requires lo < i <= |keys|
    requires forall k :: lo <= k < i ==> keys[k] == keys[lo]
    ensures OneKeyEach(keys, Runs(keys, lo, i))
    decreases |keys| - i
  {
    if i < |keys| {
      if keys[i] != keys[i - 1] {
        RunsHaveOneKey(keys, i, i + 1);
      } else {
        RunsHaveOneKey(keys, lo, i + 1);
      }
    }
  }

  // Neighbouring spans meet where the key changes.
  predicate KeysChangeBetween(keys: seq<Option<string>>, gs: seq<Span>) {
    forall j :: 0 <= j < |gs| - 1 ==>
      0 < gs[j].hi < |keys| && gs[j].hi == gs[j + 1].lo && keys[gs[j].hi - 1] != keys[gs[j].hi]
  }

  lemma {:induction false} RunsChangeKey(keys: seq<Option<string>>, lo: nat, i: nat)
    requires lo < i <= |keys|
    ensures var gs := Runs(keys, lo, i); gs != [] && gs[0].lo == lo
    ensures KeysChangeBetween(keys, Runs(keys, lo, i))
    ensures Tiles(Runs(keys, lo, i), lo, |keys|)
    ensures Runs(keys, lo, i)[0].hi >= i
    decreases |keys| - i
  {
    if i < |keys| {
      if keys[i] != keys[i - 1] {
        RunsChangeKey(keys, i, i + 1);
        assert Runs(keys, lo, i)[1..] == Runs(keys, i, i + 1);
      } else {
        RunsChangeKey(keys, lo, i + 1);
      }
    }
  }

  // Section groups are exactly the runs of equal headings: every chunk is in one
  // group, in order, a group has one heading, and the heading changes between
  // neighbouring groups.
  lemma SectionGroupsAreTheRuns<T>(items: seq<T>, keys: seq<Option<string>>)
    requires |keys| == |items| && items != []
    ensures Flatten(SectionGroups(items, keys)) == items
    ensures var groups, gs := SectionGroups(items, keys), Runs(keys, 0, 1);
            && |groups| == |gs|
            && forall k :: 0 <= k < |gs| ==> gs[k].lo < gs[k].hi <= |items| && groups[k] == items[gs[k].lo..gs[k].hi]
    ensures OneKeyEach(keys, Runs(keys, 0, 1)) && KeysChangeBetween(keys, Runs(keys, 0, 1))
  {
    hide Runs, Slices, Flatten;
    RunsHaveOneKey(keys, 0, 1);
    RunsChangeKey(keys, 0, 1);
    SlicesFlatten(items, Runs(keys, 0, 1), 0);
    assert items[0..] == items;
  }
}
