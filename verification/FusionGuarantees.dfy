// What fusion promises: the sums it ranks by, what it does not depend on, and how
// far over-fetching the legs helps.
module FusionGuarantees {
  import opened Fusion

  // ---------- the k best rows ----------

  // Cutting the ranking to k keeps k rows (or all), and no dropped row scores
  // above a kept one.
  lemma NothingDroppedBeatsAnythingKept(rows: seq<Row>, k: nat)
    ensures var all, kept := Ranked(rows), Prefix(Ranked(rows), k);
            && |kept| == (if k < |rows| then k else |rows|)
            && kept == all[..|kept|]
            && multiset(kept) + multiset(all[|kept|..]) == multiset(rows)
            && forall i, j :: 0 <= i < |kept| <= j < |all| ==> kept[i].score >= all[j].score
  {
    hide Ranked;
    RankedIsStableSort(rows);
    var all, kept := Ranked(rows), Prefix(Ranked(rows), k);
    assert |multiset(all)| == |all| && |multiset(rows)| == |rows|;
    assert all == kept + all[|kept|..];
  }

  // A negative k drops the last rows, as a Python slice does.
  lemma NegativeCutDropsLast(rows: seq<Row>, k: int)
    requires k < 0
    ensures var all, kept := Ranked(rows), Prefix(Ranked(rows), k);
            && kept == all[..|kept|]
            && |kept| == (if |rows| + k > 0 then |rows| + k else 0)
  {
    hide Ranked;
    RankedIsStableSort(rows);
    assert |multiset(Ranked(rows))| == |multiset(rows)|;
    assert |multiset(Ranked(rows))| == |Ranked(rows)| && |multiset(rows)| == |rows|;
  }

  // ---------- scores and provenance ----------

  lemma {:induction false} ScoreAppend(a: seq<Contribution>, b: seq<Contribution>, key: Key)
    ensures ScoreOf(a + b, key) == ScoreOf(a, key) + ScoreOf(b, key)
  {
    if b == [] {
      assert a + b == a;
    } else {
      assert (a + b)[..|a + b| - 1] == a + b[..|b| - 1];
      ScoreAppend(a, b[..|b| - 1], key);
    }
  }

  function Keys(hits: seq<Hit>): (ks: seq<Key>)
    ensures |ks| == |hits| && forall i :: 0 <= i < |ks| ==> ks[i] == hits[i].key
  {
    seq(|hits|, i requires 0 <= i < |hits| => hits[i].key)
  }

  // The reciprocal ranks of a key's occurrences in the first n places of a list.
  function RankSum(ks: seq<Key>, rrfK: nat, key: Key, n: nat): real
    requires rrfK >= 1 && n <= |ks|
  {
    if n == 0 then 0.0
    else RankSum(ks, rrfK, key, n - 1) + if ks[n - 1] == key then 1.0 / (rrfK + n) as real else 0.0
  }

  // The definition of reciprocal rank fusion: one reciprocal rank per leg and
  // occurrence.
  function RrfScore(legs: seq<Leg>, rrfK: nat, key: Key): real
    requires rrfK >= 1
  {
    if legs == [] then 0.0
    else RankSum(Keys(legs[0].hits), rrfK, key, |legs[0].hits|) + RrfScore(legs[1..], rrfK, key)
  }

  lemma {:induction false} RrfLegScore(leg: Leg, rrfK: nat, key: Key, n: nat)
    requires rrfK >= 1 && n <= |leg.hits|
    ensures ScoreOf(RrfLeg(leg, rrfK, n), key) == RankSum(Keys(leg.hits), rrfK, key, n)
  {
    if n > 0 {
      RrfLegScore(leg, rrfK, key, n - 1);
      assert RrfLeg(leg, rrfK, n)[..n - 1] == RrfLeg(leg, rrfK, n - 1);
    }
  }

  lemma {:induction false} RrfScoreSnoc(legs: seq<Leg>, leg: Leg, rrfK: nat, key: Key)
    requires rrfK >= 1
    ensures RrfScore(legs + [leg], rrfK, key)
         == RrfScore(legs, rrfK, key) + RankSum(Keys(leg.hits), rrfK, key, |leg.hits|)
  {
    hide RankSum;
    if legs == [] {
      assert legs + [leg] == [leg] && [leg][1..] == [];
    } else {
      assert (legs + [leg])[1..] == legs[1..] + [leg];
      RrfScoreSnoc(legs[1..], leg, rrfK, key);
    }
  }

  // A fused row scores the sum of its reciprocal ranks over the legs.
  lemma {:induction false} FusedScoreIsRrfScore(legs: seq<Leg>, rrfK: nat, key: Key)
    requires rrfK >= 1
    ensures ScoreOf(RrfAll(legs, rrfK), key) == RrfScore(legs, rrfK, key)
  {
    hide RankSum, RrfLeg;
    if legs != [] {
      var before, leg := legs[..|legs| - 1], legs[|legs| - 1];
      assert legs == before + [leg];
      FusedScoreIsRrfScore(before, rrfK, key);
      RrfScoreSnoc(before, leg, rrfK, key);
      RrfLegScore(leg, rrfK, key, |leg.hits|);
      ScoreAppend(RrfAll(before, rrfK), RrfLeg(leg, rrfK, |leg.hits|), key);
    }
  }

  lemma {:induction false} LegsOfIff(cs: seq<Contribution>, key: Key, name: string)
    ensures name in LegsOf(cs, key) <==> exists c :: c in cs && c.key == key && c.leg == name
  {
    if cs != [] {
      var before, last := cs[..|cs| - 1], cs[|cs| - 1];
      assert cs == before + [last];
      LegsOfIff(before, key, name);
    }
  }

  ghost predicate Matched(legs: seq<Leg>, key: Key, name: string) {
    exists l :: l in legs && l.name == name && key in Keys(l.hits)
  }

  lemma {:induction false} RrfContributors(legs: seq<Leg>, rrfK: nat, key: Key, name: string)
    requires rrfK >= 1
    ensures (exists c :: c in RrfAll(legs, rrfK) && c.key == key && c.leg == name) <==> Matched(legs, key, name)
  {
    if legs != [] {
      var before, leg := legs[..|legs| - 1], legs[|legs| - 1];
      assert legs == before + [leg];
      RrfContributors(before, rrfK, key, name);
      var cs := RrfLeg(leg, rrfK, |leg.hits|);
      if key in Keys(leg.hits) && leg.name == name {
        var i :| 0 <= i < |leg.hits| && Keys(leg.hits)[i] == key;
        assert cs[i] in RrfAll(legs, rrfK);
      }
    }
  }

  lemma {:induction false} WeightedContributors(legs: seq<Leg>, weights: map<string, real>, key: Key, name: string)
    ensures (exists c :: c in WeightedAll(legs, weights) && c.key == key && c.leg == name) <==> Matched(legs, key, name)
  {
    hide Share;
    if legs != [] {
      var before, leg := legs[..|legs| - 1], legs[|legs| - 1];
      assert legs == before + [leg];
      WeightedContributors(before, weights, key, name);
      var cs := WeightedLeg(leg, weights, |leg.hits|);
      if key in Keys(leg.hits) && leg.name == name {
        var i :| 0 <= i < |leg.hits| && Keys(leg.hits)[i] == key;
        assert cs[i] in WeightedAll(legs, weights);
      }
    }
  }

  // A fused row lists exactly the legs that matched it, whichever the fusion.
  lemma LegsAreTheOnesThatMatched(legs: seq<Leg>, kind: FusionKind, weights: map<string, real>, rrfK: int, key: Key)
    requires kind.Rrf? ==> rrfK >= 1
    ensures forall name ::
              name in RowOf(Contributions(legs, kind, weights, rrfK), key).legs <==> Matched(legs, key, name)
  {
    hide RrfAll, WeightedAll, Matched, LegsOf, ScoreOf, BodyOf;
    forall name: string
      ensures name in LegsOf(Contributions(legs, kind, weights, rrfK), key) <==> Matched(legs, key, name)
    {
      LegsOfIff(Contributions(legs, kind, weights, rrfK), key, name);
      if kind.Rrf? {
        RrfContributors(legs, rrfK, key, name);
      } else {
        WeightedContributors(legs, weights, key, name);
      }
    }
  }

  // ---------- weighted scores ----------

  // What a key's occurrences in the first n places of a leg are worth.
  function ShareSum(leg: Leg, weights: map<string, real>, key: Key, n: nat): real
    requires n <= |leg.hits|
  {
    if n == 0 then 0.0
    else
      ShareSum(leg, weights, key, n - 1)
        + if leg.hits[n - 1].key == key then Share(leg, weights, leg.hits[n - 1].score) else 0.0
  }

  // The definition of weighted fusion: over the legs, weight times normalized score.
  function WeightedScore(legs: seq<Leg>, weights: map<string, real>, key: Key): real {
    if legs == [] then 0.0
    else ShareSum(legs[0], weights, key, |legs[0].hits|) + WeightedScore(legs[1..], weights, key)
  }

  lemma {:induction false} WeightedLegScore(leg: Leg, weights: map<string, real>, key: Key, n: nat)
    requires n <= |leg.hits|
    ensures ScoreOf(WeightedLeg(leg, weights, n), key) == ShareSum(leg, weights, key, n)
  {
    hide Share;
    if n > 0 {
      WeightedLegScore(leg, weights, key, n - 1);
      assert WeightedLeg(leg, weights, n)[..n - 1] == WeightedLeg(leg, weights, n - 1);
    }
  }

  lemma {:induction false} WeightedScoreSnoc(legs: seq<Leg>, leg: Leg, weights: map<string, real>, key: Key)
    ensures WeightedScore(legs + [leg], weights, key)
         == WeightedScore(legs, weights, key) + ShareSum(leg, weights, key, |leg.hits|)
  {
    hide ShareSum;
    if legs == [] {
      assert legs + [leg] == [leg] && [leg][1..] == [];
    } else {
      assert (legs + [leg])[1..] == legs[1..] + [leg];
      WeightedScoreSnoc(legs[1..], leg, weights, key);
    }
  }

  // A fused row scores the sum of its weighted, normalized scores over the legs.
  lemma {:induction false} FusedScoreIsWeightedScore(legs: seq<Leg>, weights: map<string, real>, key: Key)
    ensures ScoreOf(WeightedAll(legs, weights), key) == WeightedScore(legs, weights, key)
  {
    hide ShareSum, WeightedLeg;
    if legs != [] {
      var before, leg := legs[..|legs| - 1], legs[|legs| - 1];
      assert legs == before + [leg];
      FusedScoreIsWeightedScore(before, weights, key);
      WeightedScoreSnoc(before, leg, weights, key);
      WeightedLegScore(leg, weights, key, |leg.hits|);
      ScoreAppend(WeightedAll(before, weights), WeightedLeg(leg, weights, |leg.hits|), key);
    }
  }

  lemma {:induction false} ScoresBetween(hits: seq<Hit>, h: Hit)
    requires h in hits
    ensures Least(hits) <= h.score <= Greatest(hits)
  {
    if |hits| > 1 && h != hits[0] {
      ScoresBetween(hits[1..], h);
    } else if |hits| > 1 {
      ScoresBetween(hits[1..], hits[1]);
    }
  }

  // A leg's normalized scores lie between 0 and 1, and its best hits have 1.
  lemma NormalizedIsAFraction(hits: seq<Hit>, h: Hit)
    requires h in hits
    ensures 0.0 <= Normalized(hits, h.score) <= 1.0
    ensures h.score == Greatest(hits) ==> Normalized(hits, h.score) == 1.0
  {
    ScoresBetween(hits, h);
    hide Least, Greatest;
    var lo, hi := Least(hits), Greatest(hits);
    if lo < hi {
      FractionOf(h.score - lo, hi - lo);
    }
  }

  lemma FractionOf(part: real, whole: real)
    requires 0.0 <= part <= whole && whole > 0.0
    ensures 0.0 <= part / whole <= 1.0 && (part == whole ==> part / whole == 1.0)
  {
    assert part / whole * whole == part;
  }

  lemma {:induction false} BoundsAre(hits: seq<Hit>, worst: Hit, best: Hit)
    requires worst in hits && best in hits
    requires forall h <- hits :: worst.score <= h.score <= best.score
    ensures Least(hits) == worst.score && Greatest(hits) == best.score
  {
    ScoresBetween(hits, worst);
    ScoresBetween(hits, best);
    AttainedBounds(hits);
  }

  lemma {:induction false} AttainedBounds(hits: seq<Hit>)
    requires hits != []
    ensures exists h <- hits :: h.score == Least(hits)
    ensures exists h <- hits :: h.score == Greatest(hits)
  {
    if |hits| == 1 {
      assert hits[0] in hits;
    } else {
      AttainedBounds(hits[1..]);
      assert hits == [hits[0]] + hits[1..];
      assert hits[0] in hits;
    }
  }

  // Normalizing is linear: from the worst hit at 0 to the best at 1; when all hits
  // score the same, each has 1.
  lemma NormalizedIsLinear(hits: seq<Hit>, worst: Hit, best: Hit, h: Hit)
    requires worst in hits && best in hits && h in hits
    requires forall g <- hits :: worst.score <= g.score <= best.score
    ensures worst.score < best.score ==>
              Normalized(hits, h.score) * (best.score - worst.score) == h.score - worst.score
    ensures worst.score == best.score ==> Normalized(hits, h.score) == 1.0
    ensures h.score == best.score ==> Normalized(hits, h.score) == 1.0
  {
    BoundsAre(hits, worst, best);
    NormalizedIsAFraction(hits, h);
    hide Least, Greatest;
  }

  // A leg named in the weights contributes its weight times the normalized score of
  // each hit.
  lemma NamedLegIsWeighted(leg: Leg, weights: map<string, real>, i: nat)
    requires i < |leg.hits| && leg.name in weights
    ensures var cs, h := WeightedAll([leg], weights), leg.hits[i];
            && |cs| == |leg.hits|
            && cs[i] == Contribution(leg.name, h.key, h.body, weights[leg.name] * Normalized(leg.hits, h.score))
  {
    hide *;
    OneLeg(leg, weights);
    NamedShare(leg, weights, leg.hits[i].score);
  }

  lemma NamedShare(leg: Leg, weights: map<string, real>, score: real)
    requires leg.hits != [] && leg.name in weights
    ensures Share(leg, weights, score) == weights[leg.name] * Normalized(leg.hits, score)
  {
    hide Normalized;
  }

  lemma OneLeg(leg: Leg, weights: map<string, real>)
    ensures WeightedAll([leg], weights) == WeightedLeg(leg, weights, |leg.hits|)
  {
    hide WeightedLeg;
    assert [leg][..0] == [] && WeightedAll([], weights) == [];
    assert WeightedAll([leg], weights) == [] + WeightedLeg(leg, weights, |leg.hits|);
  }

  // A leg not named weighs 1.
  lemma {:induction false} UnnamedLegWeighsOne(legs: seq<Leg>, weights: map<string, real>, name: string)
    requires name !in weights
    ensures WeightedAll(legs, weights) == WeightedAll(legs, weights[name := 1.0])
  {
    if legs != [] {
      var before, leg := legs[..|legs| - 1], legs[|legs| - 1];
      UnnamedLegWeighsOne(before, weights, name);
      hide Normalized;
      var more := weights[name := 1.0];
      assert forall i :: 0 <= i < |leg.hits| ==>
               WeightedLeg(leg, weights, |leg.hits|)[i] == WeightedLeg(leg, more, |leg.hits|)[i];
    }
  }

  // Without weights the best hits of a leg contribute exactly 1 each.
  lemma BestHitsContributeOne(leg: Leg, i: nat)
    requires i < |leg.hits| && forall h <- leg.hits :: h.score <= leg.hits[i].score
    ensures |WeightedAll([leg], map[])| == |leg.hits| && WeightedAll([leg], map[])[i].amount == 1.0
  {
    var weights: map<string, real> := map[leg.name := 1.0];
    var none: map<string, real> := map[];
    UnnamedLegWeighsOne([leg], none, leg.name);
    assert none[leg.name := 1.0] == weights;
    NamedLegIsWeighted(leg, weights, i);
    AttainedBounds(leg.hits);
    var worst :| worst in leg.hits && worst.score == Least(leg.hits);
    forall g <- leg.hits ensures worst.score <= g.score {
      ScoresBetween(leg.hits, g);
    }
    NormalizedIsLinear(leg.hits, worst, leg.hits[i], leg.hits[i]);
  }

  // ---------- which body, which order ----------

  // The keys come in the order in which they first appear.
  lemma {:induction false} KeysInFirstOrder(cs: seq<Contribution>, a: nat, b: nat)
    requires a < b < |FirstKeys(cs)|
    ensures exists i, j :: 0 <= i < j < |cs| && cs[i].key == FirstKeys(cs)[a] && cs[j].key == FirstKeys(cs)[b]
              && forall k :: 0 <= k < j ==> cs[k].key != FirstKeys(cs)[b]
  {
    var n := |cs| - 1;
    var before := FirstKeys(cs[..n]);
    if b < |before| {
      KeysInFirstOrder(cs[..n], a, b);
      var i, j :| 0 <= i < j < |cs[..n]| && cs[..n][i].key == before[a] && cs[..n][j].key == before[b]
                  && forall k :: 0 <= k < j ==> cs[..n][k].key != before[b];
      assert forall k :: 0 <= k < j ==> cs[..n][k] == cs[k];
      assert cs[i].key == FirstKeys(cs)[a] && cs[j].key == FirstKeys(cs)[b];
    } else {
      assert FirstKeys(cs)[a] == before[a] && before[a] in before;
      var c :| c in cs[..n] && c.key == before[a];
      var i :| 0 <= i < n && cs[..n][i] == c;
      assert cs[i].key == FirstKeys(cs)[a] && cs[n].key == FirstKeys(cs)[b];
      forall k | 0 <= k < n ensures cs[k].key != FirstKeys(cs)[b] {
        assert cs[..n][k] in cs[..n];
      }
    }
  }

  // A fused row has the body of the first hit with its key.
  lemma {:induction false} BodyIsTheFirst(cs: seq<Contribution>, i: nat)
    requires i < |cs| && forall k :: 0 <= k < i ==> cs[k].key != cs[i].key
    ensures RowOf(cs, cs[i].key).body == cs[i].body
  {
    if i > 0 {
      BodyIsTheFirst(cs[1..], i - 1);
    }
  }

  // ---------- what the result does not depend on ----------

  // Same legs, keys and bodies in the same places; scores may differ.
  predicate SameRanking(a: seq<Leg>, b: seq<Leg>) {
    && |a| == |b|
    && forall l :: 0 <= l < |a| ==>
         && a[l].name == b[l].name
         && |a[l].hits| == |b[l].hits|
         && forall i :: 0 <= i < |a[l].hits| ==>
              a[l].hits[i].key == b[l].hits[i].key && a[l].hits[i].body == b[l].hits[i].body
  }

  // Reciprocal rank fusion depends on ranks only.
  lemma {:induction false} RrfDependsOnRanksOnly(a: seq<Leg>, b: seq<Leg>, rrfK: nat)
    requires rrfK >= 1 && SameRanking(a, b)
    ensures RrfAll(a, rrfK) == RrfAll(b, rrfK)
  {
    if a != [] {
      RrfDependsOnRanksOnly(a[..|a| - 1], b[..|b| - 1], rrfK);
      var n := |a[|a| - 1].hits|;
      assert RrfLeg(a[|a| - 1], rrfK, n) == RrfLeg(b[|b| - 1], rrfK, n);
    }
  }

  function Affine(scale: real, shift: real, x: real): real {
    scale * x + shift
  }

  function Rescaled(hits: seq<Hit>, scale: real, shift: real): (r: seq<Hit>)
    ensures |r| == |hits|
    ensures forall i :: 0 <= i < |hits| ==> r[i] == hits[i].(score := Affine(scale, shift, hits[i].score))
  {
    seq(|hits|, i requires 0 <= i < |hits| => hits[i].(score := Affine(scale, shift, hits[i].score)))
  }

  lemma RescaledTail(hits: seq<Hit>, scale: real, shift: real)
    requires hits != []
    ensures Rescaled(hits, scale, shift)[1..] == Rescaled(hits[1..], scale, shift)
  {
    var r, t := Rescaled(hits, scale, shift)[1..], Rescaled(hits[1..], scale, shift);
    assert |r| == |t|;
    forall i | 0 <= i < |t| ensures r[i] == t[i] {
      assert hits[1..][i] == hits[i + 1];
    }
  }

  lemma ScaleOrder(scale: real, shift: real, x: real, y: real)
    requires scale > 0.0
    ensures x < y <==> Affine(scale, shift, x) < Affine(scale, shift, y)
  {
    if x < y {
      assert scale * (y - x) > 0.0;
      assert scale * (y - x) == scale * y - scale * x;
    } else {
      assert scale * (x - y) >= 0.0;
      assert scale * (x - y) == scale * x - scale * y;
    }
  }

  lemma {:induction false} RescaledLeast(hits: seq<Hit>, scale: real, shift: real)
    requires scale > 0.0 && hits != []
    ensures Least(Rescaled(hits, scale, shift)) == Affine(scale, shift, Least(hits))
  {
    hide Rescaled, Affine;
    if |hits| > 1 {
      RescaledTail(hits, scale, shift);
      RescaledLeast(hits[1..], scale, shift);
      ScaleOrder(scale, shift, hits[0].score, Least(hits[1..]));
    }
  }

  lemma {:induction false} RescaledGreatest(hits: seq<Hit>, scale: real, shift: real)
    requires scale > 0.0 && hits != []
    ensures Greatest(Rescaled(hits, scale, shift)) == Affine(scale, shift, Greatest(hits))
  {
    hide Rescaled, Affine;
    if |hits| > 1 {
      RescaledTail(hits, scale, shift);
      RescaledGreatest(hits[1..], scale, shift);
      ScaleOrder(scale, shift, Greatest(hits[1..]), hits[0].score);
    }
  }

  lemma AffineQuotient(scale: real, shift: real, s: real, lo: real, hi: real)
    requires scale > 0.0 && hi != lo
    ensures var d := Affine(scale, shift, hi) - Affine(scale, shift, lo);
            d != 0.0 && (Affine(scale, shift, s) - Affine(scale, shift, lo)) / d == (s - lo) / (hi - lo)
  {
    var q := (s - lo) / (hi - lo);
    var d := (scale * hi + shift) - (scale * lo + shift);
    assert d == scale * (hi - lo);
    assert d != 0.0;
    assert (scale * s + shift) - (scale * lo + shift) == scale * (s - lo);
    assert s - lo == q * (hi - lo);
    assert scale * (s - lo) == q * d;
  }

  lemma RescaledShare(hits: seq<Hit>, scale: real, shift: real, s: real)
    requires scale > 0.0 && hits != []
    ensures Normalized(Rescaled(hits, scale, shift), Affine(scale, shift, s)) == Normalized(hits, s)
  {
    hide Least, Greatest, Rescaled, Affine;
    RescaledLeast(hits, scale, shift);
    RescaledGreatest(hits, scale, shift);
    var lo, hi := Least(hits), Greatest(hits);
    if hi != lo {
      AffineQuotient(scale, shift, s, lo, hi);
    }
  }

  datatype Scale = Scale(scale: real, shift: real)

  // Each leg's scores replaced by scale * score + shift, a scale of its own each.
  function RescaledLegs(legs: seq<Leg>, scales: seq<Scale>): seq<Leg>
    requires |scales| == |legs|
  {
    seq(|legs|, l requires 0 <= l < |legs| =>
      Leg(legs[l].name, Rescaled(legs[l].hits, scales[l].scale, scales[l].shift)))
  }

  lemma RescaledLeg(leg: Leg, c: Scale, weights: map<string, real>)
    requires c.scale > 0.0
    ensures var r := Leg(leg.name, Rescaled(leg.hits, c.scale, c.shift));
            WeightedLeg(r, weights, |r.hits|) == WeightedLeg(leg, weights, |leg.hits|)
  {
    hide Normalized, WeightOf, Rescaled, Affine;
    var r := Leg(leg.name, Rescaled(leg.hits, c.scale, c.shift));
    forall i | 0 <= i < |leg.hits|
      ensures Share(r, weights, r.hits[i].score) == Share(leg, weights, leg.hits[i].score)
    {
      RescaledShare(leg.hits, c.scale, c.shift, leg.hits[i].score);
      assert r.hits[i].score == Affine(c.scale, c.shift, leg.hits[i].score);
    }
  }

  // Weighted fusion is unchanged by any positive affine rescaling of each leg's
  // scores.
  lemma {:induction false} WeightedIgnoresRescaling(legs: seq<Leg>, scales: seq<Scale>, weights: map<string, real>)
    requires |scales| == |legs| && forall c <- scales :: c.scale > 0.0
    ensures WeightedAll(RescaledLegs(legs, scales), weights) == WeightedAll(legs, weights)
  {
    hide WeightedLeg, Rescaled;
    if legs != [] {
      var n := |legs| - 1;
      WeightedIgnoresRescaling(legs[..n], scales[..n], weights);
      assert RescaledLegs(legs, scales)[..n] == RescaledLegs(legs[..n], scales[..n]);
      assert scales[n] in scales;
      RescaledLeg(legs[n], scales[n], weights);
    } else {
      assert RescaledLegs(legs, scales) == [];
    }
  }

  // ---------- concurrent legs ----------

  datatype LegOutcome = Returned(hits: seq<Hit>) | Raised(error: string)
  datatype Collected = Legs(legs: seq<Leg>) | Failed(error: string)

  // Running the legs one after the other: the first failure is raised.
  function Sequential(names: seq<string>, outcomes: map<string, LegOutcome>): Collected
    requires forall n <- names :: n in outcomes
  {
    if names == [] then Legs([])
    else
      match Sequential(names[..|names| - 1], outcomes)
      case Failed(e) => Failed(e)
      case Legs(legs) =>
        match outcomes[names[|names| - 1]]
        case Raised(e) => Failed(e)
        case Returned(hits) => Legs(legs + [Leg(names[|names| - 1], hits)])
  }

  // The legs finish in the order `completion`; their results are then read in
  // submission order. Whatever the completion order, the outcome is the
  // sequential one.
  method RunConcurrently(names: seq<string>, outcomes: map<string, LegOutcome>, completion: seq<string>)
    returns (r: Collected)
    requires forall n <- names :: n in outcomes
    requires multiset(completion) == multiset(names)
    ensures r == Sequential(names, outcomes)
  {
    var finished: map<string, LegOutcome> := map[];
    forall n <- completion ensures n in names {
      assert n in multiset(completion);
    }
    for i := 0 to |completion|
      invariant finished.Keys == (set n | n in completion[..i])
      invariant forall n <- finished.Keys :: n in outcomes && finished[n] == outcomes[n]
    {
      assert completion[..i + 1] == completion[..i] + [completion[i]];
      assert completion[i] in completion;
      finished := finished[completion[i] := outcomes[completion[i]]];
    }
    assert completion[..|completion|] == completion;
    forall n <- names ensures n in finished {
      assert n in multiset(names);
      assert n in completion;
    }
    var legs: seq<Leg> := [];
    for i := 0 to |names|
      invariant Sequential(names[..i], outcomes) == Legs(legs)
    {
      assert names[..i + 1][..i] == names[..i] && names[i] in names;
      ghost var step := Sequential(names[..i + 1], outcomes);
      match finished[names[i]] {
        case Raised(e) =>
          assert step == Failed(e);
          FailureSpreads(names, outcomes, i + 1, e);
          return Failed(e);
        case Returned(hits) =>
          legs := legs + [Leg(names[i], hits)];
      }
    }
    assert names[..|names|] == names;
    return Legs(legs);
  }

  lemma {:induction false} FailureSpreads(names: seq<string>, outcomes: map<string, LegOutcome>, i: nat, e: string)
    requires forall n <- names :: n in outcomes
    requires i <= |names| && Sequential(names[..i], outcomes) == Failed(e)
    ensures Sequential(names, outcomes) == Failed(e)
    decreases |names| - i
  {
    if i == |names| {
      assert names[..i] == names;
    } else {
      assert names[..i + 1][..i] == names[..i];
      FailureSpreads(names, outcomes, i + 1, e);
    }
  }

  // ---------- two legs ----------

  predicate Distinct(ks: seq<Key>) {
    forall i, j :: 0 <= i < j < |ks| ==> ks[i] != ks[j]
  }

  // The RRF score of a key ranked by two legs.
  function PairScore(a: seq<Key>, b: seq<Key>, rrfK: nat, key: Key): real
    requires rrfK >= 1
  {
    RankSum(a, rrfK, key, |a|) + RankSum(b, rrfK, key, |b|)
  }

  // It is the score `fuse` gives the key.
  lemma PairScoreIsFusedScore(a: Leg, b: Leg, rrfK: nat, key: Key)
    requires rrfK >= 1
    ensures ScoreOf(RrfAll([a, b], rrfK), key) == PairScore(Keys(a.hits), Keys(b.hits), rrfK, key)
  {
    hide RankSum, ScoreOf, RrfAll;
    FusedScoreIsRrfScore([a, b], rrfK, key);
    assert [a, b][1..] == [b] && [b][1..] == [];
    assert RrfScore([b], rrfK, key) == RankSum(Keys(b.hits), rrfK, key, |b.hits|);
  }

  lemma {:induction false} RankSumAbsent(ks: seq<Key>, rrfK: nat, key: Key, n: nat)
    requires rrfK >= 1 && n <= |ks| && key !in ks[..n]
    ensures RankSum(ks, rrfK, key, n) == 0.0
  {
    if n > 0 {
      assert ks[..n] == ks[..n - 1] + [ks[n - 1]];
      RankSumAbsent(ks, rrfK, key, n - 1);
    }
  }

  lemma {:induction false} RankSumAt(ks: seq<Key>, rrfK: nat, p: nat, n: nat)
    requires rrfK >= 1 && p < n <= |ks| && Distinct(ks)
    ensures RankSum(ks, rrfK, ks[p], n) == 1.0 / (rrfK + p + 1) as real
  {
    if p == n - 1 {
      RankSumAbsent(ks, rrfK, ks[p], p);
    } else {
      RankSumAt(ks, rrfK, p, n - 1);
    }
  }

  // The score one leg gives a key: the reciprocal of its place, or nothing.
  lemma LegRank(ks: seq<Key>, rrfK: nat, key: Key) returns (p: nat)
    requires rrfK >= 1 && Distinct(ks)
    ensures key in ks ==> p < |ks| && ks[p] == key && RankSum(ks, rrfK, key, |ks|) == 1.0 / (rrfK + p + 1) as real
    ensures key !in ks ==> RankSum(ks, rrfK, key, |ks|) == 0.0
  {
    hide RankSum;
    p := 0;
    if key in ks {
      p :| p < |ks| && ks[p] == key;
      RankSumAt(ks, rrfK, p, |ks|);
    } else {
      assert ks[..|ks|] == ks;
      RankSumAbsent(ks, rrfK, key, |ks|);
    }
  }

  lemma Reciprocals(x: nat, y: nat)
    requires 0 < x <= y
    ensures 1.0 / x as real >= 1.0 / y as real > 0.0
  {
  }

  lemma HalvesAdd(x: nat, y: nat)
    requires 0 < x && 2 * x > y > 0
    ensures 1.0 / y as real + 1.0 / y as real > 1.0 / x as real
  {
    assert (2.0 * x as real) > y as real;
    assert 2.0 / y as real > 1.0 / x as real;
  }

  // Every key both legs match outscores every key one leg matches.
  ghost predicate BothBeatOne(n: nat, rrfK: nat)
    requires rrfK >= 1
  {
    forall a: seq<Key>, b: seq<Key>, both: Key, one: Key ::
      (Distinct(a) && Distinct(b) && |a| <= n && |b| <= n
       && both in a && both in b && (one in a <==> one !in b))
      ==> PairScore(a, b, rrfK, both) > PairScore(a, b, rrfK, one)
  }

  lemma BothBeatOneUpTo(a: seq<Key>, b: seq<Key>, rrfK: nat, both: Key, one: Key)
    requires rrfK >= 1 && Distinct(a) && Distinct(b)
    requires |a| <= rrfK + 1 && |b| <= rrfK + 1
    requires both in a && both in b && (one in a <==> one !in b)
    ensures PairScore(a, b, rrfK, both) > PairScore(a, b, rrfK, one)
  {
    hide RankSum;
    var p := LegRank(a, rrfK, both);
    var q := LegRank(b, rrfK, both);
    var s := LegRank(a, rrfK, one);
    var t := LegRank(b, rrfK, one);
    var top, low := rrfK + 1, 2 * rrfK + 1;
    Reciprocals(rrfK + p + 1, low);
    Reciprocals(rrfK + q + 1, low);
    HalvesAdd(top, low);
    if one in a {
      Reciprocals(top, rrfK + s + 1);
    } else {
      Reciprocals(top, rrfK + t + 1);
    }
  }

  // n keys of one document with `last` after them.
  function Tail(name: string, n: nat, last: Key): (ks: seq<Key>)
    ensures |ks| == n + 1 && ks[n] == last
    ensures forall i :: 0 <= i < n ==> ks[i] == Key(name, i)
  {
    seq(n, i requires 0 <= i < n => Key(name, i)) + [last]
  }

  lemma TieIsPossible(rrfK: nat)
    requires rrfK >= 1
    ensures var last := Key("y", 0);
            var a, b := Tail("a", rrfK + 1, last), Tail("b", rrfK + 1, last);
            && Distinct(a) && Distinct(b) && |a| == |b| == rrfK + 2
            && last in a && last in b && Key("a", 0) in a && Key("a", 0) !in b
            && PairScore(a, b, rrfK, last) == PairScore(a, b, rrfK, Key("a", 0))
  {
    hide RankSum, Tail;
    var last, n := Key("y", 0), rrfK + 1;
    var a, b := Tail("a", n, last), Tail("b", n, last);
    assert a[n] == last && b[n] == last && a[0] == Key("a", 0);
    assert Key("a", 0) !in b;
    RankSumAt(a, rrfK, n, n + 1);
    RankSumAt(b, rrfK, n, n + 1);
    RankSumAt(a, rrfK, 0, n + 1);
    assert b[..n + 1] == b;
    RankSumAbsent(b, rrfK, Key("a", 0), n + 1);
    var x := (rrfK + 1) as real;
    assert (rrfK + n + 1) as real == 2.0 * x;
    assert 1.0 / (2.0 * x) + 1.0 / (2.0 * x) == 1.0 / x;
  }

  // With at most n hits a leg, a row both legs match always scores strictly above
  // a row one leg matches, exactly when n <= rrf_k + 1.
  lemma BothBeatOneExactly(n: nat, rrfK: nat)
    requires rrfK >= 1
    ensures BothBeatOne(n, rrfK) <==> n <= rrfK + 1
  {
    hide PairScore, RankSum, Tail;
    if n <= rrfK + 1 {
      forall a: seq<Key>, b: seq<Key>, both: Key, one: Key |
        Distinct(a) && Distinct(b) && |a| <= n && |b| <= n
        && both in a && both in b && (one in a <==> one !in b)
        ensures PairScore(a, b, rrfK, both) > PairScore(a, b, rrfK, one)
      {
        BothBeatOneUpTo(a, b, rrfK, both, one);
      }
    } else {
      TieIsPossible(rrfK);
    }
  }

  // ---------- over-fetching ----------

  // How many candidates each leg fetches.
  function CandidateCount(k: nat, multiplier: nat): nat {
    if k * multiplier > k then k * multiplier else k
  }

  function Fetched(ks: seq<Key>, n: nat): seq<Key> {
    if n < |ks| then ks[..n] else ks
  }

  // Keys other than x, fetched by some leg, that score at least as much as x in
  // the fusion of the full rankings.
  ghost predicate NoWorse(a: seq<Key>, b: seq<Key>, rrfK: nat, n: nat, x: Key, y: Key)
    requires rrfK >= 1
  {
    && y != x
    && (y in Fetched(a, n) || y in Fetched(b, n))
    && PairScore(a, b, rrfK, y) >= PairScore(a, b, rrfK, x)
  }

  // No row outside both truncated lists is among the k best of the full fusion
  // unless k fetched rows are no worse.
  ghost predicate OverFetchSuffices(k: nat, n: nat, rrfK: nat)
    requires rrfK >= 1
  {
    forall a: seq<Key>, b: seq<Key>, x: Key ::
      (Distinct(a) && Distinct(b) && (x in a || x in b) && x !in Fetched(a, n) && x !in Fetched(b, n))
      ==> exists best: set<Key> :: |best| == k && forall y <- best :: NoWorse(a, b, rrfK, n, x, y)
  }

  lemma {:induction false} FirstKeysSet(ks: seq<Key>, k: nat) returns (s: set<Key>)
    requires Distinct(ks) && k <= |ks|
    ensures |s| == k && forall y :: y in s <==> y in ks[..k]
  {
    if k == 0 {
      s := {};
    } else {
      var before := FirstKeysSet(ks, k - 1);
      assert ks[..k] == ks[..k - 1] + [ks[k - 1]];
      assert ks[k - 1] !in ks[..k - 1];
      s := before + {ks[k - 1]};
    }
  }

  lemma RankSumIsAtLeast(ks: seq<Key>, rrfK: nat, key: Key)
    requires rrfK >= 1 && Distinct(ks)
    ensures RankSum(ks, rrfK, key, |ks|) >= 0.0
  {
    hide RankSum;
    var p := LegRank(ks, rrfK, key);
    if key in ks {
      Reciprocals(1, rrfK + p + 1);
    }
  }

  lemma FetchedPrefix(ks: seq<Key>, n: nat)
    ensures forall p :: 0 <= p < n && p < |ks| ==> ks[p] in Fetched(ks, n)
  {
    assert forall p :: 0 <= p < n && p < |ks| ==> Fetched(ks, n)[p] == ks[p];
  }

  // A key outside the first n places of a leg earns at most 1 / (rrfK + n + 1).
  lemma LateKey(ks: seq<Key>, rrfK: nat, n: nat, x: Key)
    requires rrfK >= 1 && Distinct(ks) && x !in Fetched(ks, n)
    ensures RankSum(ks, rrfK, x, |ks|) <= 1.0 / (rrfK + n + 1) as real
    ensures x in ks ==> n < |ks|
  {
    hide RankSum;
    var p := LegRank(ks, rrfK, x);
    Reciprocals(1, rrfK + n + 1);
    if x in ks {
      FetchedPrefix(ks, n);
      Reciprocals(rrfK + n + 1, rrfK + p + 1);
    }
  }

  // The first k keys of a leg that ranks x after place n are no worse than x.
  lemma LeadersAreNoWorse(a: seq<Key>, b: seq<Key>, rrfK: nat, k: nat, n: nat, x: Key) returns (best: set<Key>)
    requires rrfK >= 1 && Distinct(a) && Distinct(b)
    requires x in a && x !in Fetched(a, n) && x !in Fetched(b, n)
    requires k <= n && rrfK + 2 * k <= n + 1
    ensures |best| == k
    ensures forall y <- best :: y != x && y in Fetched(a, n) && PairScore(a, b, rrfK, y) >= PairScore(a, b, rrfK, x)
  {
    hide RankSum;
    LateKey(a, rrfK, n, x);
    LateKey(b, rrfK, n, x);
    best := FirstKeysSet(a, k);
    forall y <- best
      ensures y != x && y in Fetched(a, n) && PairScore(a, b, rrfK, y) >= PairScore(a, b, rrfK, x)
    {
      var p :| 0 <= p < k && a[..k][p] == y;
      assert Fetched(a, n)[p] == y;
      RankSumAt(a, rrfK, p, |a|);
      RankSumIsAtLeast(b, rrfK, y);
      Reciprocals(rrfK + p + 1, rrfK + k);
      TwoLateAreNoMore(rrfK + k, rrfK + n + 1);
    }
  }

  lemma TwoLateAreNoMore(x: nat, y: nat)
    requires 0 < x && 2 * x <= y
    ensures 1.0 / y as real + 1.0 / y as real <= 1.0 / x as real
  {
    assert 2.0 * x as real <= y as real;
    assert 2.0 / y as real <= 1.0 / x as real;
  }

  // A ranking where over-fetching falls short: k - 1 keys both legs lead with,
  // then keys of the leg's own up to place n, then x.
  function ShortRanking(name: string, k: nat, n: nat): (ks: seq<Key>)
    requires 1 <= k <= n
    ensures |ks| == n + 1 && ks[n] == Key("x", 0)
    ensures forall i :: 0 <= i < k - 1 ==> ks[i] == Key("c", i)
    ensures forall i :: k - 1 <= i < n ==> ks[i] == Key(name, i)
  {
    seq(n, i requires 0 <= i < n => if i < k - 1 then Key("c", i) else Key(name, i)) + [Key("x", 0)]
  }

  lemma ShortScores(k: nat, n: nat, rrfK: nat, y: Key)
    requires rrfK >= 1 && 1 <= k <= n && n + 1 < rrfK + 2 * k
    requires var a, b := ShortRanking("a", k, n), ShortRanking("b", k, n);
             NoWorse(a, b, rrfK, n, Key("x", 0), y)
    ensures y.docId == "c" && y.seqNum < k - 1
  {
    hide RankSum, ShortRanking;
    var x := Key("x", 0);
    var a, b := ShortRanking("a", k, n), ShortRanking("b", k, n);
    assert Distinct(a) && Distinct(b);
    RankSumAt(a, rrfK, n, n + 1);
    RankSumAt(b, rrfK, n, n + 1);
    HalvesAdd(rrfK + k, rrfK + n + 1);
    var p := LegRank(a, rrfK, y);
    var q := LegRank(b, rrfK, y);
    if y in a && y.docId != "c" {
      assert k - 1 <= p < n && y == Key("a", p);
      assert y !in b;
      Reciprocals(rrfK + k, rrfK + p + 1);
    } else if y in b && y.docId != "c" {
      assert k - 1 <= q < n && y == Key("b", q);
      assert y !in a;
      Reciprocals(rrfK + k, rrfK + q + 1);
    }
  }

  lemma {:induction false} FewSuchKeys(s: set<Key>, m: nat)
    requires forall y <- s :: y.docId == "c" && y.seqNum < m
    ensures |s| <= m
    decreases m
  {
    if m == 0 {
      if y :| y in s {
        assert false;
      }
    } else {
      var t := s - {Key("c", m - 1)};
      FewSuchKeys(t, m - 1);
      assert s == t || s == t + {Key("c", m - 1)};
    }
  }

  lemma ShortRankingsDefeat(k: nat, n: nat, rrfK: nat)
    requires rrfK >= 1 && 1 <= k <= n && n + 1 < rrfK + 2 * k
    ensures !OverFetchSuffices(k, n, rrfK)
  {
    hide RankSum, ShortRanking, PairScore;
    var a, b, x := ShortRanking("a", k, n), ShortRanking("b", k, n), Key("x", 0);
    assert Distinct(a) && Distinct(b);
    assert a[n] == x && x !in Fetched(a, n) && x !in Fetched(b, n);
    forall best: set<Key> | |best| == k ensures !(forall y <- best :: NoWorse(a, b, rrfK, n, x, y)) {
      if forall y <- best :: NoWorse(a, b, rrfK, n, x, y) {
        forall y <- best ensures y.docId == "c" && y.seqNum < k - 1 {
          ShortScores(k, n, rrfK, y);
        }
        FewSuchKeys(best, k - 1);
      }
    }
  }

  // Fetching n >= k candidates a leg is enough for every pair of rankings, in the
  // sense that k fetched rows are always no worse than a row neither leg fetched,
  // exactly when n + 1 >= rrf_k + 2 * k.
  lemma OverFetchSufficesExactly(k: nat, n: nat, rrfK: nat)
    requires rrfK >= 1 && 1 <= k <= n
    ensures OverFetchSuffices(k, n, rrfK) <==> rrfK + 2 * k <= n + 1
  {
    hide RankSum, PairScore;
    if rrfK + 2 * k <= n + 1 {
      forall a: seq<Key>, b: seq<Key>, x: Key |
        Distinct(a) && Distinct(b) && (x in a || x in b) && x !in Fetched(a, n) && x !in Fetched(b, n)
        ensures exists best: set<Key> :: |best| == k && forall y <- best :: NoWorse(a, b, rrfK, n, x, y)
      {
        if x in a {
          var best := LeadersAreNoWorse(a, b, rrfK, k, n, x);
          assert forall y <- best :: NoWorse(a, b, rrfK, n, x, y);
        } else {
          var best := LeadersAreNoWorse(b, a, rrfK, k, n, x);
          forall y <- best ensures NoWorse(a, b, rrfK, n, x, y) {
            PairScoreCommutes(a, b, rrfK, y);
            PairScoreCommutes(a, b, rrfK, x);
          }
        }
      }
    } else {
      ShortRankingsDefeat(k, n, rrfK);
    }
  }

  lemma PairScoreCommutes(a: seq<Key>, b: seq<Key>, rrfK: nat, y: Key)
    requires rrfK >= 1
    ensures PairScore(a, b, rrfK, y) == PairScore(b, a, rrfK, y)
  {
    hide RankSum;
  }

  // For candidate multiplier m that is (m - 2) * k + 1 >= rrf_k; the defaults
  // m = 3 and rrf_k = 60 meet it from k = 59 on.
  lemma MultiplierSuffices(k: nat, m: nat, rrfK: nat)
    requires rrfK >= 1 && k >= 1
    ensures OverFetchSuffices(k, CandidateCount(k, m), rrfK) <==> (m - 2) * k + 1 >= rrfK
  {
    hide OverFetchSuffices;
    var n := CandidateCount(k, m);
    OverFetchSufficesExactly(k, n, rrfK);
    assert (m - 2) * k == k * m - 2 * k;
    if m == 0 {
      assert k * m == 0;
    } else if m == 1 {
      assert k * m == k;
    } else {
      assert k * m == k + k * (m - 1);
      assert k * (m - 1) >= 1;
    }
  }
}
