// Where the semantic chunker cuts a list of sentences: the percentile threshold
// over neighbour distances, the spans between breakpoints, and the merging of
// short spans. Distances are exact reals.
module SemanticSpans {
  import opened Packing

  // ---------- the percentile ----------

  predicate Ascending(s: seq<real>) {
    forall i :: 0 <= i < |s| - 1 ==> s[i] <= s[i + 1]
  }

  function Inserted(x: real, s: seq<real>): (r: seq<real>)
    requires Ascending(s)
    ensures Ascending(r) && |r| == |s| + 1
    ensures r[0] == if s == [] || x <= s[0] then x else s[0]
  {
    if s == [] || x <= s[0] then [x] + s
    else [s[0]] + Inserted(x, s[1..])
  }

  lemma {:induction false} InsertedIsPermutation(x: real, s: seq<real>)
    requires Ascending(s)
    ensures multiset(Inserted(x, s)) == multiset{x} + multiset(s)
  {
    if s != [] && x > s[0] {
      InsertedIsPermutation(x, s[1..]);
      assert s == [s[0]] + s[1..];
    }
  }

  // The values sorted ascending.
  function SortedValues(values: seq<real>): (r: seq<real>)
    ensures Ascending(r) && |r| == |values|
  {
    if values == [] then [] else Inserted(values[0], SortedValues(values[1..]))
  }

  // Sorting keeps every value.
  lemma {:induction false} SortedIsPermutation(values: seq<real>)
    ensures multiset(SortedValues(values)) == multiset(values)
  {
    if values != [] {
      SortedIsPermutation(values[1..]);
      InsertedIsPermutation(values[0], SortedValues(values[1..]));
      assert values == [values[0]] + values[1..];
    }
  }

  // The value at position t / 100 of the sorted list, between neighbours by
  // linear interpolation.
  function ValueAt(s: seq<real>, t: nat): real
    requires s != [] && t <= 100 * (|s| - 1)
  {
    var lo := t / 100;
    if t % 100 == 0 then s[lo]
    else
      var frac := (t % 100) as real / 100.0;
      s[lo] * (1.0 - frac) + s[lo + 1] * frac
  }

  lemma PercentOf(n: nat, p: nat, q: nat)
    requires p <= q
    ensures n * p <= n * q
  {
  }

  // `percentile_linear`.
  function Percentile(values: seq<real>, p: nat): real
    requires p <= 100
  {
    if values == [] then 0.0
    else
      PercentOf(|values| - 1, p, 100);
      ValueAt(SortedValues(values), (|values| - 1) * p)
  }

  lemma ValueAtSteps(s: seq<real>, t: nat)
    requires s != [] && Ascending(s) && t + 1 <= 100 * (|s| - 1)
    ensures ValueAt(s, t) <= ValueAt(s, t + 1)
  {
    var lo, r := t / 100, t % 100;
    var a, b := s[lo], s[lo + 1];
    assert a <= b;
    assert ValueAt(s, t) == a + (b - a) * (r as real / 100.0);
    if r < 99 {
      assert (t + 1) / 100 == lo && (t + 1) % 100 == r + 1;
      assert ValueAt(s, t + 1) == a + (b - a) * ((r + 1) as real / 100.0);
      Scaled(b - a, r as real / 100.0, (r + 1) as real / 100.0);
    } else {
      assert (t + 1) / 100 == lo + 1 && (t + 1) % 100 == 0;
      Scaled(b - a, r as real / 100.0, 1.0);
    }
  }

  lemma Scaled(d: real, x: real, y: real)
    requires d >= 0.0 && x <= y
    ensures d * x <= d * y
  {
  }

  lemma {:induction false} ValueAtIsMonotone(s: seq<real>, t: nat, u: nat)
    requires s != [] && Ascending(s) && t <= u <= 100 * (|s| - 1)
    ensures ValueAt(s, t) <= ValueAt(s, u)
    decreases u - t
  {
    hide ValueAt;
    if t < u {
      ValueAtSteps(s, t);
      ValueAtIsMonotone(s, t + 1, u);
    }
  }

  // The value at t / 100: one of the list, or t % 100 hundredths of the way from one
  // to the next.
  predicate LiesAt(s: seq<real>, t: nat, v: real) {
    var lo, r := t / 100, t % 100;
    if r == 0 then lo < |s| && v == s[lo]
    else lo + 1 < |s| && (v - s[lo]) * 100.0 == (s[lo + 1] - s[lo]) * r as real
  }

  lemma ValueLiesAt(s: seq<real>, t: nat)
    requires s != [] && t <= 100 * (|s| - 1)
    ensures LiesAt(s, t, ValueAt(s, t))
  {
  }

  lemma PercentileIs(values: seq<real>, p: nat, t: nat)
    requires values != [] && p <= 100 && t == (|values| - 1) * p && t <= 100 * (|values| - 1)
    ensures Percentile(values, p) == ValueAt(SortedValues(values), t)
  {
    hide SortedValues, ValueAt;
  }

  // The percentile of n values lies at the place (n - 1) * p / 100 of the sorted
  // list.
  lemma PercentileLiesBetween(values: seq<real>, p: nat)
    requires values != [] && p <= 100
    ensures LiesAt(SortedValues(values), (|values| - 1) * p, Percentile(values, p))
  {
    var n := |values| - 1;
    PercentOf(n, p, 100);
    PercentileIs(values, p, n * p);
    hide *;
    ValueLiesAt(SortedValues(values), n * p);
  }

  lemma SortedOfTwo(a: real, b: real)
    ensures SortedValues([a, b]) == if a <= b then [a, b] else [b, a]
  {
    assert [a, b][1..] == [b] && [b][1..] == [];
    assert SortedValues([b]) == [b];
    if a > b {
      assert [b][1..] == [] && Inserted(a, [b]) == [b] + Inserted(a, []);
    }
  }

  // Of two values the percentile is p hundredths of the way from the smaller to the
  // larger.
  lemma PercentileOfTwo(a: real, b: real, p: nat)
    requires p <= 100
    ensures var lo, hi := if a <= b then a else b, if a <= b then b else a;
            Percentile([a, b], p) == lo + (hi - lo) * (p as real / 100.0)
  {
    SortedOfTwo(a, b);
    var s := SortedValues([a, b]);
    hide SortedValues;
    assert Percentile([a, b], p) == ValueAt(s, p);
    if p < 100 {
      assert p / 100 == 0 && p % 100 == p;
    } else {
      assert p / 100 == 1 && p % 100 == 0;
    }
  }

  // A higher percentile gives a higher threshold.
  lemma PercentileIsMonotone(values: seq<real>, p: nat, q: nat)
    requires p <= q <= 100
    ensures Percentile(values, p) <= Percentile(values, q)
  {
    hide ValueAt, SortedValues;
    if values != [] {
      var n := |values| - 1;
      PercentOf(n, p, q);
      PercentOf(n, q, 100);
      ValueAtIsMonotone(SortedValues(values), n * p, n * q);
    }
  }

  // The threshold never exceeds the largest value.
  lemma PercentileIsReached(values: seq<real>, p: nat)
    requires p <= 100 && values != []
    ensures exists i :: 0 <= i < |values| && values[i] >= Percentile(values, p)
  {
    hide ValueAt, SortedValues;
    var s, n := SortedValues(values), |values| - 1;
    PercentOf(n, p, 100);
    ValueAtIsMonotone(s, n * p, 100 * n);
    LastValue(s);
    SortedIsPermutation(values);
    assert s[n] in multiset(s);
    assert s[n] in multiset(values);
    var i :| 0 <= i < |values| && values[i] == s[n];
  }

  lemma LastValue(s: seq<real>)
    requires s != []
    ensures ValueAt(s, 100 * (|s| - 1)) == s[|s| - 1]
  {
    var n := |s| - 1;
    assert 100 * n / 100 == n && 100 * n % 100 == 0;
  }

  // ---------- breakpoints ----------

  // The positions from i on whose distance reaches the threshold.
  function Breakpoints(distances: seq<real>, threshold: real, i: nat): seq<nat>
    decreases |distances| - i
  {
    if i >= |distances| then []
    else (if distances[i] >= threshold then [i] else []) + Breakpoints(distances, threshold, i + 1)
  }

  predicate StrictlyAscending(cuts: seq<nat>) {
    forall i, j :: 0 <= i < j < |cuts| ==> cuts[i] < cuts[j]
  }

  lemma {:induction false} BreakpointIff(distances: seq<real>, threshold: real, i: nat, b: nat)
    ensures b in Breakpoints(distances, threshold, i) <==> i <= b < |distances| && distances[b] >= threshold
    decreases |distances| - i
  {
    if i < |distances| {
      BreakpointIff(distances, threshold, i + 1, b);
    }
  }

  lemma {:induction false} BreakpointsAscend(distances: seq<real>, threshold: real, i: nat)
    ensures StrictlyAscending(Breakpoints(distances, threshold, i))
    ensures forall b <- Breakpoints(distances, threshold, i) :: i <= b
    decreases |distances| - i
  {
    if i < |distances| {
      BreakpointsAscend(distances, threshold, i + 1);
      var rest := Breakpoints(distances, threshold, i + 1);
      assert forall k :: 0 <= k < |rest| ==> rest[k] in rest;
    }
  }

  // The breakpoints are exactly the positions whose distance reaches the
  // threshold, in order.
  lemma BreakpointsAreTheReachedPositions(distances: seq<real>, threshold: real, i: nat)
    ensures forall b :: b in Breakpoints(distances, threshold, i)
                   <==> i <= b < |distances| && distances[b] >= threshold
    ensures StrictlyAscending(Breakpoints(distances, threshold, i))
  {
    hide *;
    BreakpointsAscend(distances, threshold, i);
    forall b: nat
      ensures b in Breakpoints(distances, threshold, i) <==> i <= b < |distances| && distances[b] >= threshold
    {
      BreakpointIff(distances, threshold, i, b);
    }
  }

  // At least one breakpoint is left, whatever the percentile.
  lemma SomeBreakpoint(distances: seq<real>, p: nat)
    requires p <= 100 && distances != []
    ensures Breakpoints(distances, Percentile(distances, p), 0) != []
  {
    hide Percentile;
    PercentileIsReached(distances, p);
    var i :| 0 <= i < |distances| && distances[i] >= Percentile(distances, p);
    BreakpointsAreTheReachedPositions(distances, Percentile(distances, p), 0);
    assert i in Breakpoints(distances, Percentile(distances, p), 0);
  }

  // Raising the percentile only removes breakpoints.
  lemma BreakpointsShrink(distances: seq<real>, p: nat, q: nat)
    requires p <= q <= 100
    ensures forall b <- Breakpoints(distances, Percentile(distances, q), 0) ::
              b in Breakpoints(distances, Percentile(distances, p), 0)
  {
    hide Percentile, Breakpoints;
    PercentileIsMonotone(distances, p, q);
    BreakpointsAreTheReachedPositions(distances, Percentile(distances, p), 0);
    BreakpointsAreTheReachedPositions(distances, Percentile(distances, q), 0);
  }

  // ---------- spans ----------

  // The spans of the sentences s..n when a cut follows each breakpoint.
  function SpansFrom(breaks: seq<nat>, s: nat, n: nat): seq<Span> {
    if breaks == [] then [Span(s, n)]
    else [Span(s, breaks[0] + 1)] + SpansFrom(breaks[1..], breaks[0] + 1, n)
  }

  method BuildSpans(breakpoints: seq<nat>, n: nat) returns (spans: seq<Span>)
    ensures spans == SpansFrom(breakpoints, 0, n)
  {
    var starts: seq<nat> := [0];
    for i := 0 to |breakpoints|
      invariant |starts| == i + 1 && starts[0] == 0
      invariant forall k :: 0 <= k < i ==> starts[k + 1] == breakpoints[k] + 1
    {
      starts := starts + [breakpoints[i] + 1];
    }
    spans := [];
    for i := 0 to |starts|
      invariant i < |starts| ==> SpansFrom(breakpoints, 0, n) == spans + SpansFrom(breakpoints[i..], starts[i], n)
      invariant i == |starts| ==> SpansFrom(breakpoints, 0, n) == spans
    {
      var e := if i + 1 < |starts| then starts[i + 1] else n;
      assert i + 1 < |starts| ==> breakpoints[i..][1..] == breakpoints[i + 1..];
      spans := spans + [Span(starts[i], e)];
    }
  }

  // The spans partition the sentences when every breakpoint lies between two of
  // them.
  lemma {:induction false} SpansPartition(breaks: seq<nat>, s: nat, n: nat)
    requires s < n && StrictlyAscending(breaks)
    requires forall b <- breaks :: s <= b && b + 1 < n
    ensures Tiles(SpansFrom(breaks, s, n), s, n)
  {
    if breaks != [] {
      assert breaks[0] in breaks;
      forall b <- breaks[1..] ensures breaks[0] + 1 <= b && b in breaks {
        var k :| 1 <= k < |breaks| && breaks[k] == b;
      }
      SpansPartition(breaks[1..], breaks[0] + 1, n);
      assert SpansFrom(breaks, s, n)[1..] == SpansFrom(breaks[1..], breaks[0] + 1, n);
    }
  }

  // ---------- merging short spans ----------

  predicate Short(g: Span, min: nat) {
    g.hi - g.lo < min
  }

  // Forward pass: a short span joins the one before it.
  function Forward(cur: Span, rest: seq<Span>, min: nat): seq<Span>
    decreases |rest|
  {
    if rest == [] then [cur]
    else if Short(rest[0], min) then Forward(Span(cur.lo, rest[0].hi), rest[1..], min)
    else [cur] + Forward(rest[0], rest[1..], min)
  }

  // A short first span takes in the second.
  function FixFirst(m: seq<Span>, min: nat): seq<Span> {
    if |m| > 1 && Short(m[0], min) then [Span(m[0].lo, m[1].hi)] + m[2..] else m
  }

  // A short last span joins the one before it.
  function FixLast(m: seq<Span>, min: nat): seq<Span> {
    if |m| > 1 && Short(m[|m| - 1], min)
    then m[..|m| - 2] + [Span(m[|m| - 2].lo, m[|m| - 1].hi)]
    else m
  }

  // `merge_small_spans`.
  function Merged(spans: seq<Span>, min: nat): seq<Span> {
    if spans == [] then []
    else FixLast(FixFirst(Forward(spans[0], spans[1..], min), min), min)
  }

  method MergeSmallSpans(spans: seq<Span>, min: nat) returns (merged: seq<Span>)
    ensures merged == Merged(spans, min)
  {
    if spans == [] {
      return [];
    }
    merged := [];
    for i := 0 to |spans|
      invariant i == 0 <==> merged == []
      invariant merged != [] ==>
                  Forward(spans[0], spans[1..], min) ==
                  merged[..|merged| - 1] + Forward(merged[|merged| - 1], spans[i..], min)
    {
      var g := spans[i];
      assert i > 0 ==> spans[i..][1..] == spans[i + 1..];
      if merged != [] && Short(g, min) {
        var last := |merged| - 1;
        merged := merged[last := Span(merged[last].lo, g.hi)];
      } else {
        merged := merged + [g];
      }
    }
    assert merged == Forward(spans[0], spans[1..], min);
    if |merged| > 1 && Short(merged[0], min) {
      merged := [Span(merged[0].lo, merged[1].hi)] + merged[2..];
    }
    if |merged| > 1 && Short(merged[|merged| - 1], min) {
      var last := |merged| - 1;
      merged := merged[..last - 1] + [Span(merged[last - 1].lo, merged[last].hi)];
    }
  }

  // Every span but the first has at least min sentences.
  predicate TailLong(m: seq<Span>, min: nat) {
    forall k :: 0 < k < |m| ==> !Short(m[k], min)
  }

  lemma {:induction false} ForwardPartitions(cur: Span, rest: seq<Span>, min: nat, hi: nat)
    requires cur.lo < cur.hi <= hi && Tiles(rest, cur.hi, hi)
    ensures Tiles(Forward(cur, rest, min), cur.lo, hi)
    ensures TailLong(Forward(cur, rest, min), min)
    ensures Forward(cur, rest, min)[0].hi >= cur.hi
    decreases |rest|
  {
    if rest != [] {
      if Short(rest[0], min) {
        ForwardPartitions(Span(cur.lo, rest[0].hi), rest[1..], min, hi);
      } else {
        var m := Forward(rest[0], rest[1..], min);
        ForwardPartitions(rest[0], rest[1..], min, hi);
        assert Forward(cur, rest, min)[1..] == m;
      }
    }
  }

  lemma FixFirstPartitions(m: seq<Span>, min: nat, lo: nat, hi: nat)
    requires Tiles(m, lo, hi) && TailLong(m, min)
    ensures Tiles(FixFirst(m, min), lo, hi)
    ensures |FixFirst(m, min)| > 1 ==> forall g <- FixFirst(m, min) :: !Short(g, min)
  {
    if |m| > 1 && Short(m[0], min) {
      var f := FixFirst(m, min);
      assert f[1..] == m[2..] == m[1..][1..];
      assert forall k :: 0 < k < |f| ==> f[k] == m[k + 1];
    }
  }

  // After the first two passes a last span that is not alone is never short: the
  // back-merge of the source never fires on a partition.
  lemma BackMergeNeverFires(spans: seq<Span>, min: nat, lo: nat, hi: nat)
    requires spans != [] && Tiles(spans, lo, hi)
    ensures var m := FixFirst(Forward(spans[0], spans[1..], min), min);
            && !(|m| > 1 && Short(m[|m| - 1], min))
            && Merged(spans, min) == m
  {
    hide Forward;
    ForwardPartitions(spans[0], spans[1..], min, hi);
    FixFirstPartitions(Forward(spans[0], spans[1..], min), min, lo, hi);
  }

  // Merging keeps a partition a partition, and every span has at least min
  // sentences unless it is the only one.
  lemma MergedPartitions(spans: seq<Span>, min: nat, lo: nat, hi: nat)
    requires spans != [] && Tiles(spans, lo, hi)
    ensures Tiles(Merged(spans, min), lo, hi)
    ensures |Merged(spans, min)| > 1 ==> forall g <- Merged(spans, min) :: !Short(g, min)
  {
    hide Forward;
    ForwardPartitions(spans[0], spans[1..], min, hi);
    FixFirstPartitions(Forward(spans[0], spans[1..], min), min, lo, hi);
    BackMergeNeverFires(spans, min, lo, hi);
  }

  // The starts of m are starts of spans.
  ghost predicate CutsAmong(m: seq<Span>, spans: seq<Span>) {
    forall g <- m :: exists h :: h in spans && h.lo == g.lo
  }

  lemma {:induction false} ForwardCuts(cur: Span, rest: seq<Span>, min: nat)
    ensures CutsAmong(Forward(cur, rest, min), [cur] + rest)
    decreases |rest|
  {
    var m, all := Forward(cur, rest, min), [cur] + rest;
    if rest == [] {
      assert cur in all;
    } else if Short(rest[0], min) {
      var next := Span(cur.lo, rest[0].hi);
      ForwardCuts(next, rest[1..], min);
      forall g <- m ensures exists h :: h in all && h.lo == g.lo {
        var h :| h in [next] + rest[1..] && h.lo == g.lo;
        assert cur in all;
        assert h in rest[1..] ==> h in all;
      }
    } else {
      ForwardCuts(rest[0], rest[1..], min);
      assert [rest[0]] + rest[1..] == rest;
      forall g <- m ensures exists h :: h in all && h.lo == g.lo {
        assert cur in all;
        if g != cur {
          var h :| h in rest && h.lo == g.lo;
          assert h in all;
        }
      }
    }
  }

  // Merging never invents a cut.
  lemma MergedCuts(spans: seq<Span>, min: nat, lo: nat, hi: nat)
    requires spans != [] && Tiles(spans, lo, hi)
    ensures CutsAmong(Merged(spans, min), spans)
  {
    hide Forward;
    var m := Forward(spans[0], spans[1..], min);
    ForwardCuts(spans[0], spans[1..], min);
    assert [spans[0]] + spans[1..] == spans;
    BackMergeNeverFires(spans, min, lo, hi);
    forall g <- FixFirst(m, min) ensures exists h :: h in spans && h.lo == g.lo {
      if g !in m {
        assert g.lo == m[0].lo && m[0] in m;
      }
    }
  }

  // ---------- exactly which cuts stay ----------

  ghost predicate StartsOne(m: seq<Span>, x: nat) {
    exists g :: g in m && g.lo == x
  }

  // The spans of a tiling that starts at lo start there, and the later ones later.
  lemma {:induction false} TilesAscend(m: seq<Span>, lo: nat, hi: nat)
    requires Tiles(m, lo, hi)
    ensures forall k :: 0 <= k < |m| ==> lo <= m[k].lo < m[k].hi <= hi
    ensures forall j, k :: 0 <= j < k < |m| ==> m[j].hi <= m[k].lo
    ensures forall k :: 0 < k < |m| ==> m[k - 1].hi == m[k].lo
    decreases |m|
  {
    if m != [] {
      TilesAscend(m[1..], m[0].hi, hi);
      assert forall k :: 0 < k < |m| ==> m[k] == m[1..][k - 1];
    }
  }

  lemma TailStarts(m: seq<Span>, lo: nat, hi: nat, x: nat)
    requires Tiles(m, lo, hi) && m != []
    ensures StartsOne(m, x) <==> x == lo || StartsOne(m[1..], x)
    ensures StartsOne(m[1..], x) ==> x >= m[0].hi
  {
    TilesAscend(m, lo, hi);
    assert m == [m[0]] + m[1..];
  }

  // After the forward pass a cut is left exactly where a span that is not short
  // starts.
  lemma {:induction false} ForwardStarts(cur: Span, rest: seq<Span>, min: nat, hi: nat, j: nat)
    requires cur.lo < cur.hi <= hi && Tiles(rest, cur.hi, hi) && j < |rest|
    ensures Forward(cur, rest, min) != []
    ensures StartsOne(Forward(cur, rest, min)[1..], rest[j].lo) <==> !Short(rest[j], min)
    decreases |rest|
  {
    var m, x := Forward(cur, rest, min), rest[j].lo;
    ForwardPartitions(cur, rest, min, hi);
    TailStarts(m, cur.lo, hi, x);
    TilesAscend(rest, cur.hi, hi);
    if Short(rest[0], min) {
      var next := Span(cur.lo, rest[0].hi);
      ForwardPartitions(next, rest[1..], min, hi);
      if j > 0 {
        ForwardStarts(next, rest[1..], min, hi, j - 1);
      }
    } else {
      var f := Forward(rest[0], rest[1..], min);
      ForwardPartitions(rest[0], rest[1..], min, hi);
      assert m[1..] == f;
      TailStarts(f, rest[0].lo, hi, x);
      if j > 0 {
        ForwardStarts(rest[0], rest[1..], min, hi, j - 1);
      }
    }
  }

  // When some cut is left, the first one is where the first such span starts.
  lemma {:induction false} ForwardFirstCut(cur: Span, rest: seq<Span>, min: nat)
    ensures var m := Forward(cur, rest, min);
            && m != [] && m[0].lo == cur.lo
            && (|m| > 1 ==> exists j :: 0 <= j < |rest| && m[1].lo == rest[j].lo && !Short(rest[j], min)
                              && forall i :: 0 <= i < j ==> Short(rest[i], min))
    decreases |rest|
  {
    if rest != [] {
      if Short(rest[0], min) {
        ForwardFirstCut(Span(cur.lo, rest[0].hi), rest[1..], min);
        var m := Forward(cur, rest, min);
        if |m| > 1 {
          var j :| 0 <= j < |rest[1..]| && m[1].lo == rest[1..][j].lo && !Short(rest[1..][j], min)
                   && forall i :: 0 <= i < j ==> Short(rest[1..][i], min);
          assert rest[j + 1] == rest[1..][j];
          assert forall i :: 0 < i < j + 1 ==> rest[i] == rest[1..][i - 1];
        }
      } else {
        ForwardFirstCut(rest[0], rest[1..], min);
      }
    }
  }

  // A cut stays exactly when the span after it is not short, and some such span is
  // before that one or at least min sentences are before the cut.
  lemma MergedCutsExactly(spans: seq<Span>, min: nat, lo: nat, hi: nat, k: nat)
    requires Tiles(spans, lo, hi) && 0 < k < |spans|
    ensures StartsOne(Merged(spans, min), spans[k].lo)
       <==> !Short(spans[k], min)
            && (spans[k].lo - lo >= min || exists j :: 0 < j < k && !Short(spans[j], min))
  {
    var cur, rest, x := spans[0], spans[1..], spans[k].lo;
    var m := Forward(cur, rest, min);
    BackMergeNeverFires(spans, min, lo, hi);
    ForwardPartitions(cur, rest, min, hi);
    ForwardStarts(cur, rest, min, hi, k - 1);
    ForwardFirstCut(cur, rest, min);
    TilesAscend(spans, lo, hi);
    hide Forward;
    CutsOfFixed(m, min, lo, hi, x);
    assert forall i :: 0 <= i < |rest| ==> rest[i] == spans[i + 1];
    if |m| > 1 {
      var j :| 0 <= j < |rest| && m[1].lo == rest[j].lo && !Short(rest[j], min)
               && forall i :: 0 <= i < j ==> Short(rest[i], min);
      assert x == m[1].lo <==> j + 1 == k;
      if j + 1 < k {
        assert !Short(spans[j + 1], min);
      }
    }
  }

  // The first-span fix drops the first cut when fewer than min sentences are before it.
  lemma CutsOfFixed(m: seq<Span>, min: nat, lo: nat, hi: nat, x: nat)
    requires Tiles(m, lo, hi) && m != [] && x > lo
    ensures |m| > 1 ==> m[1].lo == m[0].hi
    ensures StartsOne(FixFirst(m, min), x) <==> StartsOne(m[1..], x) && !(|m| > 1 && x == m[1].lo && x - lo < min)
  {
    TilesAscend(m, lo, hi);
    TailStarts(m, lo, hi, x);
    var f := FixFirst(m, min);
    if |m| > 1 && Short(m[0], min) {
      assert f[1..] == m[2..];
      assert m[1..] == [m[1]] + m[2..];
      assert forall g :: g in f <==> g == f[0] || g in m[2..];
      assert forall g <- m[2..] :: g.lo >= m[1].hi;
    }
  }

  // ---------- the spans between breakpoints ----------

  // One span more than breakpoints, each ending after its breakpoint.
  lemma {:induction false} SpansEndAfterBreaks(breaks: seq<nat>, s: nat, n: nat)
    ensures var spans := SpansFrom(breaks, s, n);
            && |spans| == |breaks| + 1 && spans[0].lo == s && spans[|breaks|].hi == n
            && (forall k :: 0 <= k < |breaks| ==> spans[k].hi == breaks[k] + 1 == spans[k + 1].lo)
  {
    if breaks != [] {
      SpansEndAfterBreaks(breaks[1..], breaks[0] + 1, n);
    }
  }

  lemma {:induction false} ForwardOfLong(cur: Span, rest: seq<Span>, min: nat)
    requires forall g <- rest :: !Short(g, min)
    ensures Forward(cur, rest, min) == [cur] + rest
    decreases |rest|
  {
    if rest != [] {
      assert rest[0] in rest;
      ForwardOfLong(rest[0], rest[1..], min);
      assert [rest[0]] + rest[1..] == rest;
    }
  }

  // Spans that need no merging are left alone.
  lemma MergedOfLong(m: seq<Span>, min: nat)
    requires |m| > 1 ==> forall g <- m :: !Short(g, min)
    ensures Merged(m, min) == m
  {
    if m != [] {
      forall g <- m[1..] ensures !Short(g, min) {
        assert g in m;
      }
      ForwardOfLong(m[0], m[1..], min);
      hide Forward;
      assert [m[0]] + m[1..] == m;
      if |m| > 1 {
        assert m[0] in m && m[|m| - 1] in m;
      }
    }
  }

  // Merging twice changes nothing more.
  lemma MergedIsIdempotent(spans: seq<Span>, min: nat, lo: nat, hi: nat)
    requires Tiles(spans, lo, hi) && lo < hi
    ensures Merged(Merged(spans, min), min) == Merged(spans, min)
  {
    MergedPartitions(spans, min, lo, hi);
    hide Merged;
    MergedOfLong(Merged(spans, min), min);
  }

  // ---------- the whole cutting ----------

  // The spans the semantic chunker cuts n sentences into, n - 1 distances apart.
  function CutSpans(distances: seq<real>, p: nat, min: nat): seq<Span>
    requires p <= 100
  {
    Merged(SpansFrom(Breakpoints(distances, Percentile(distances, p), 0), 0, |distances| + 1), min)
  }

  method CutSentences(distances: seq<real>, p: nat, min: nat) returns (spans: seq<Span>)
    requires p <= 100
    ensures spans == CutSpans(distances, p, min)
  {
    hide Percentile, Breakpoints, Merged, SpansFrom;
    var threshold := Percentile(distances, p);
    spans := BuildSpans(Breakpoints(distances, threshold, 0), |distances| + 1);
    spans := MergeSmallSpans(spans, min);
  }

  // The spans partition the sentences, and each has at least min of them unless
  // it is the only one. Every cut follows a breakpoint.
  lemma CutSpansPartition(distances: seq<real>, p: nat, min: nat)
    requires p <= 100 && distances != []
    ensures Tiles(CutSpans(distances, p, min), 0, |distances| + 1)
    ensures |CutSpans(distances, p, min)| > 1 ==> forall g <- CutSpans(distances, p, min) :: !Short(g, min)
    ensures forall g <- CutSpans(distances, p, min) ::
              g.lo == 0 || (g.lo <= |distances| && distances[g.lo - 1] >= Percentile(distances, p))
  {
    hide Percentile, Breakpoints, Merged;
    var threshold, n := Percentile(distances, p), |distances| + 1;
    var breaks := Breakpoints(distances, threshold, 0);
    BreakpointsAreTheReachedPositions(distances, threshold, 0);
    SpansPartition(breaks, 0, n);
    var spans := SpansFrom(breaks, 0, n);
    MergedPartitions(spans, min, 0, n);
    MergedCuts(spans, min, 0, n);
    forall g <- CutSpans(distances, p, min)
      ensures g.lo == 0 || (g.lo <= |distances| && distances[g.lo - 1] >= threshold)
    {
      var h :| h in spans && h.lo == g.lo;
      SpanStartsAfterBreak(breaks, 0, n, h);
    }
  }

  lemma {:induction false} SpanStartsAfterBreak(breaks: seq<nat>, s: nat, n: nat, h: Span)
    requires h in SpansFrom(breaks, s, n)
    ensures h.lo == s || (h.lo > 0 && h.lo - 1 in breaks)
  {
    if breaks != [] && h != Span(s, breaks[0] + 1) {
      SpanStartsAfterBreak(breaks[1..], breaks[0] + 1, n, h);
      assert breaks[0] in breaks;
    }
  }
}
