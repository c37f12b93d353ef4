// The loop the three text packers share. Items are collected in a buffer, with a
// separator between them; an item that would take the buffer over `cap` flushes
// it first. The output is the greedy packing of the items, each group emitted.
module Buffering {
  import opened Text
  import opened Packing

  // Every item weighs its length and one separator.
  function Weights(items: seq<string>, sep: string): (w: seq<nat>)
    ensures |w| == |items|
    ensures forall i :: 0 <= i < |w| ==> w[i] == |items[i]| + |sep|
  {
    seq(|items|, i requires 0 <= i < |items| => |items[i]| + |sep|)
  }

  // The output still to come when items lo..i are in the buffer.
  function Remaining(items: seq<string>, sep: string, cap: nat, emit: Span -> seq<string>, lo: nat, i: nat): seq<string>
    requires lo <= i <= |items|
  {
    Emitted(Greedy(Weights(items, sep), cap + |sep|, lo, i), emit)
  }

  function PackedText(items: seq<string>, sep: string, cap: nat, emit: Span -> seq<string>): seq<string> {
    Remaining(items, sep, cap, emit, 0, 0)
  }

  lemma JoinGrows(items: seq<string>, sep: string, lo: nat, i: nat)
    requires lo <= i < |items|
    ensures Join(items[lo..i + 1], sep) == if lo == i then items[i] else Join(items[lo..i], sep) + sep + items[i]
  {
    assert items[lo..i + 1] == items[lo..i] + [items[i]];
    if lo < i {
      JoinSnoc(items[lo..i], items[i], sep);
    }
  }

  lemma {:induction false} JoinLength(items: seq<string>, sep: string, lo: nat, i: nat)
    requires lo < i <= |items|
    ensures |Join(items[lo..i], sep)| + |sep| == Weight(Weights(items, sep), lo, i)
  {
    hide Join, Weights;
    JoinGrows(items, sep, lo, i - 1);
    if lo + 1 < i {
      JoinLength(items, sep, lo, i - 1);
    } else {
      WeightOfOne(Weights(items, sep), lo);
    }
  }

  // Before item i: `out` is emitted, lo..i is in the buffer, and what remains
  // completes `all`.
  ghost predicate Buffered(items: seq<string>, sep: string, cap: nat, emit: Span -> seq<string>,
                           all: seq<string>, out: seq<string>, buf: string, lo: nat, i: nat)
  {
    && lo <= i <= |items|
    && buf == Join(items[lo..i], sep)
    && (buf == "" <==> lo == i)
    && all == out + Remaining(items, sep, cap, emit, lo, i)
  }

  lemma Start(items: seq<string>, sep: string, cap: nat, emit: Span -> seq<string>)
    ensures Buffered(items, sep, cap, emit, PackedText(items, sep, cap, emit), [], "", 0, 0)
  {
  }

  lemma Facts(items: seq<string>, sep: string, cap: nat, emit: Span -> seq<string>,
              all: seq<string>, out: seq<string>, buf: string, lo: nat, i: nat)
    requires Buffered(items, sep, cap, emit, all, out, buf, lo, i)
    ensures lo <= i <= |items| && (buf == "" <==> lo == i) && buf == Join(items[lo..i], sep)
  {
  }

  // Flush the buffer.
  lemma Flush(items: seq<string>, sep: string, cap: nat, emit: Span -> seq<string>,
              all: seq<string>, out: seq<string>, buf: string, lo: nat, i: nat)
    requires Buffered(items, sep, cap, emit, all, out, buf, lo, i)
    requires buf != "" && i < |items| && |buf| + |sep| + |items[i]| > cap
    ensures Buffered(items, sep, cap, emit, all, out + emit(Span(lo, i)), "", i, i)
  {
    JoinLength(items, sep, lo, i);
    var gs := Greedy(Weights(items, sep), cap + |sep|, lo, i);
    assert gs[1..] == Greedy(Weights(items, sep), cap + |sep|, i, i);
    assert Remaining(items, sep, cap, emit, lo, i) == emit(gs[0]) + Emitted(gs[1..], emit);
  }

  // Emit an item over the cap on its own.
  lemma Alone(items: seq<string>, sep: string, cap: nat, emit: Span -> seq<string>,
              all: seq<string>, out: seq<string>, i: nat)
    requires Buffered(items, sep, cap, emit, all, out, "", i, i)
    requires i < |items| && |items[i]| > cap
    ensures Buffered(items, sep, cap, emit, all, out + emit(Span(i, i + 1)), "", i + 1, i + 1)
  {
    var w := Weights(items, sep);
    OverBudgetCloses(w, cap + |sep|, i);
    var gs := Greedy(w, cap + |sep|, i, i);
    assert gs == Greedy(w, cap + |sep|, i, i + 1);
    assert gs[1..] == Greedy(w, cap + |sep|, i + 1, i + 1);
  }

  // Put an item in the buffer.
  lemma Take(items: seq<string>, sep: string, cap: nat, emit: Span -> seq<string>,
             all: seq<string>, out: seq<string>, buf: string, lo: nat, i: nat)
    requires Buffered(items, sep, cap, emit, all, out, buf, lo, i)
    requires i < |items| && items[i] != "" && (buf == "" || |buf| + |sep| + |items[i]| <= cap)
    ensures Buffered(items, sep, cap, emit, all, out, if buf == "" then items[i] else buf + sep + items[i], lo, i + 1)
  {
    JoinGrows(items, sep, lo, i);
    if lo < i {
      JoinLength(items, sep, lo, i);
    }
  }

  // After the last item only the buffer is missing.
  lemma End(items: seq<string>, sep: string, cap: nat, emit: Span -> seq<string>,
            all: seq<string>, out: seq<string>, buf: string, lo: nat)
    requires Buffered(items, sep, cap, emit, all, out, buf, lo, |items|)
    ensures all == if buf == "" then out else out + emit(Span(lo, |items|))
  {
    if lo < |items| {
      var gs := Greedy(Weights(items, sep), cap + |sep|, lo, |items|);
      assert gs == [Span(lo, |items|)] && gs[1..] == [];
      assert Emitted(gs, emit) == emit(gs[0]) + Emitted(gs[1..], emit);
    }
  }

  // ---------- what packed text keeps ----------

  // A packed piece comes from a greedy group, which joins within the cap or is
  // a single item.
  lemma ComesFromGroup(items: seq<string>, sep: string, cap: nat, emit: Span -> seq<string>, piece: string)
    returns (g: Span)
    requires piece in PackedText(items, sep, cap, emit)
    ensures g.lo < g.hi <= |items| && piece in emit(g)
    ensures g.hi == g.lo + 1 || |Join(items[g.lo..g.hi], sep)| <= cap
  {
    var w := Weights(items, sep);
    var gs := Greedy(w, cap + |sep|, 0, 0);
    EmittedComesFrom(gs, emit, piece);
    g :| g in gs && piece in emit(g);
    GreedyIsPacking(w, cap + |sep|, 0, 0);
    JoinLength(items, sep, g.lo, g.hi);
  }

  lemma {:induction false} EmittedContent(items: seq<string>, gs: seq<Span>, emit: Span -> seq<string>, lo: nat)
    requires lo <= |items| && Tiles(gs, lo, |items|)
    requires forall g <- gs :: g.lo < g.hi <= |items| ==>
               NonSpace(Concat(emit(g))) == NonSpace(Concat(items[g.lo..g.hi]))
    ensures NonSpace(Concat(Emitted(gs, emit))) == NonSpace(Concat(items[lo..]))
  {
    hide NonSpace, Concat;
    if gs == [] {
      assert items[lo..] == [];
    } else {
      var mid := gs[0].hi;
      EmittedContent(items, gs[1..], emit, mid);
      assert items[lo..] == items[lo..mid] + items[mid..];
      ConcatAppend(items[lo..mid], items[mid..]);
      ConcatAppend(emit(gs[0]), Emitted(gs[1..], emit));
      NonSpaceConcat(Concat(items[lo..mid]), Concat(items[mid..]));
      NonSpaceConcat(Concat(emit(gs[0])), Concat(Emitted(gs[1..], emit)));
    }
  }

  lemma PackedTextIs(items: seq<string>, sep: string, cap: nat, emit: Span -> seq<string>)
    ensures PackedText(items, sep, cap, emit) == Emitted(Greedy(Weights(items, sep), cap + |sep|, 0, 0), emit)
  {
  }

  // When every group emits its own content, the packed text has the content of
  // the items, in order.
  lemma PackedContent(items: seq<string>, sep: string, cap: nat, emit: Span -> seq<string>)
    requires forall g: Span :: g.lo < g.hi <= |items| ==>
               NonSpace(Concat(emit(g))) == NonSpace(Concat(items[g.lo..g.hi]))
    ensures NonSpace(Concat(PackedText(items, sep, cap, emit))) == NonSpace(Concat(items))
  {
    hide *;
    var w := Weights(items, sep);
    PackedTextIs(items, sep, cap, emit);
    GreedyIsPacking(w, cap + |sep|, 0, 0);
    EmittedContent(items, Greedy(w, cap + |sep|, 0, 0), emit, 0);
    assert items[0..] == items;
  }

  // When every group emits one piece, no other way of joining the items, in
  // order and within the cap unless alone, needs fewer pieces.
  lemma PackedIsFewest(items: seq<string>, sep: string, cap: nat, emit: Span -> seq<string>, spans: seq<Span>)
    requires forall g: Span :: g.lo < g.hi <= |items| ==> |emit(g)| == 1
    requires Tiles(spans, 0, |items|)
    requires forall g <- spans ::
               g.lo < g.hi <= |items| && (g.hi == g.lo + 1 || |Join(items[g.lo..g.hi], sep)| <= cap)
    ensures |PackedText(items, sep, cap, emit)| <= |spans|
  {
    var w := Weights(items, sep);
    forall g <- spans ensures g.lo <= g.hi <= |w| && Fits(w, cap + |sep|, g) {
      JoinLength(items, sep, g.lo, g.hi);
    }
    GreedyIsFewest(w, cap + |sep|, 0, 0, spans);
    EmittedCount(Greedy(w, cap + |sep|, 0, 0), emit);
  }
}
