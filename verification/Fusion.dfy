// Fusing the ranked lists of the search legs into one. Scores are exact reals.
module Fusion {

  datatype Key = Key(docId: string, seqNum: nat)

  // A hit of one leg; `body` stands for everything a hit carries besides its key
  // and score.
  datatype Hit = Hit(key: Key, body: string, score: real)
  datatype Leg = Leg(name: string, hits: seq<Hit>)

  // What one hit adds to the fused table.
  datatype Contribution = Contribution(leg: string, key: Key, body: string, amount: real)

  datatype Entry = Entry(score: real, body: string, legs: seq<string>)

  // A dict that remembers insertion order.
  datatype Table = Table(order: seq<Key>, entries: map<Key, Entry>)

  // A fused row. The sorted tuple of leg names is a set here.
  datatype Row = Row(key: Key, body: string, score: real, legs: set<string>)

  // ---------- what a list of contributions adds up to ----------

  function ScoreOf(cs: seq<Contribution>, key: Key): real {
    if cs == [] then 0.0
    else ScoreOf(cs[..|cs| - 1], key) + if cs[|cs| - 1].key == key then cs[|cs| - 1].amount else 0.0
  }

  function LegsOf(cs: seq<Contribution>, key: Key): seq<string> {
    if cs == [] then []
    else LegsOf(cs[..|cs| - 1], key) + if cs[|cs| - 1].key == key then [cs[|cs| - 1].leg] else []
  }

  // The body of the first contribution for the key.
  function BodyOf(cs: seq<Contribution>, key: Key): string {
    if cs == [] then ""
    else if cs[0].key == key then cs[0].body
    else BodyOf(cs[1..], key)
  }

  // The keys in order of first appearance.
  function FirstKeys(cs: seq<Contribution>): (ks: seq<Key>)
    ensures forall k :: k in ks <==> exists c :: c in cs && c.key == k
    ensures forall i, j :: 0 <= i < j < |ks| ==> ks[i] != ks[j]
  {
    if cs == [] then []
    else
      var last := cs[|cs| - 1];
      var before := FirstKeys(cs[..|cs| - 1]);
      assert cs == cs[..|cs| - 1] + [last];
      if last.key in before then before else before + [last.key]
  }

  // The table the contributions specify: one entry per key, with the sum of its
  // amounts, the legs it came from, and the first body.
  ghost predicate Describes(t: Table, cs: seq<Contribution>) {
    && t.order == FirstKeys(cs)
    && t.entries.Keys == (set k | k in t.order)
    && forall k <- t.entries.Keys :: t.entries[k] == Entry(ScoreOf(cs, k), BodyOf(cs, k), LegsOf(cs, k))
  }

  // `fused[key] = ...`: add to the entry, or start one.
  function Add(t: Table, c: Contribution): Table {
    if c.key in t.entries then
      var e := t.entries[c.key];
      Table(t.order, t.entries[c.key := Entry(e.score + c.amount, e.body, e.legs + [c.leg])])
    else
      Table(t.order + [c.key], t.entries[c.key := Entry(c.amount, c.body, [c.leg])])
  }

  lemma {:induction false} NoContribution(cs: seq<Contribution>, key: Key)
    requires forall c <- cs :: c.key != key
    ensures ScoreOf(cs, key) == 0.0 && LegsOf(cs, key) == []
  {
    if cs != [] {
      assert cs[|cs| - 1] in cs;
      NoContribution(cs[..|cs| - 1], key);
    }
  }

  lemma {:induction false} BodyAppend(cs: seq<Contribution>, c: Contribution, key: Key)
    ensures BodyOf(cs + [c], key) ==
              if exists d :: d in cs && d.key == key then BodyOf(cs, key)
              else if c.key == key then c.body else ""
  {
    if cs == [] {
      assert cs + [c] == [c] && [c][1..] == [];
    } else {
      assert (cs + [c])[1..] == cs[1..] + [c];
      assert forall d :: d in cs <==> d == cs[0] || d in cs[1..];
      BodyAppend(cs[1..], c, key);
    }
  }

  lemma SumsGrow(cs: seq<Contribution>, c: Contribution, k: Key)
    ensures ScoreOf(cs + [c], k) == ScoreOf(cs, k) + if c.key == k then c.amount else 0.0
    ensures LegsOf(cs + [c], k) == LegsOf(cs, k) + if c.key == k then [c.leg] else []
  {
    var next := cs + [c];
    assert next[..|next| - 1] == cs && next[|next| - 1] == c;
  }

  // Adding to a table the contribution that comes next.
  lemma AddedEntry(t: Table, cs: seq<Contribution>, c: Contribution, k: Key)
    requires Describes(t, cs) && (k in t.entries || k == c.key)
    ensures Add(t, c).entries[k] == Entry(ScoreOf(cs + [c], k), BodyOf(cs + [c], k), LegsOf(cs + [c], k))
  {
    hide ScoreOf, BodyOf, LegsOf, FirstKeys;
    SumsGrow(cs, c, k);
    BodyAppend(cs, c, k);
    assert k in t.order <==> exists d :: d in cs && d.key == k;
    if k !in t.entries {
      NoContribution(cs, k);
      assert [] + [c.leg] == [c.leg];
    }
  }

  lemma AddDescribes(t: Table, cs: seq<Contribution>, c: Contribution)
    requires Describes(t, cs)
    ensures Describes(Add(t, c), cs + [c])
  {
    hide ScoreOf, BodyOf, LegsOf;
    var next, r := cs + [c], Add(t, c);
    assert next[..|next| - 1] == cs && next[|next| - 1] == c;
    forall k <- r.entries.Keys
      ensures r.entries[k] == Entry(ScoreOf(next, k), BodyOf(next, k), LegsOf(next, k))
    {
      AddedEntry(t, cs, c, k);
    }
  }

  // ---------- contributions of the two fusions ----------

  function RrfLeg(leg: Leg, rrfK: nat, n: nat): (cs: seq<Contribution>)
    requires rrfK >= 1 && n <= |leg.hits|
    ensures |cs| == n
    ensures forall i :: 0 <= i < n ==>
              cs[i] == Contribution(leg.name, leg.hits[i].key, leg.hits[i].body, 1.0 / (rrfK + i + 1) as real)
  {
    seq(n, i requires 0 <= i < n =>
      Contribution(leg.name, leg.hits[i].key, leg.hits[i].body, 1.0 / (rrfK + i + 1) as real))
  }

  // Reciprocal rank fusion: rank r (from 1) contributes 1 / (rrfK + r).
  function RrfAll(legs: seq<Leg>, rrfK: nat): seq<Contribution>
    requires rrfK >= 1
  {
    if legs == [] then []
    else RrfAll(legs[..|legs| - 1], rrfK) + RrfLeg(legs[|legs| - 1], rrfK, |legs[|legs| - 1].hits|)
  }

  function Least(hits: seq<Hit>): real
    requires hits != []
  {
    if |hits| == 1 then hits[0].score
    else
      var m := Least(hits[1..]);
      if hits[0].score < m then hits[0].score else m
  }

  function Greatest(hits: seq<Hit>): real
    requires hits != []
  {
    if |hits| == 1 then hits[0].score
    else
      var m := Greatest(hits[1..]);
      if hits[0].score > m then hits[0].score else m
  }

  function Normalized(hits: seq<Hit>, score: real): real
    requires hits != []
  {
    var lo, hi := Least(hits), Greatest(hits);
    if hi - lo == 0.0 then 1.0 else (score - lo) / (hi - lo)
  }

  function WeightOf(weights: map<string, real>, leg: string): real {
    if leg in weights then weights[leg] else 1.0
  }

  // What a score of the leg contributes.
  function Share(leg: Leg, weights: map<string, real>, score: real): real
    requires leg.hits != []
  {
    WeightOf(weights, leg.name) * Normalized(leg.hits, score)
  }

  function WeightedLeg(leg: Leg, weights: map<string, real>, n: nat): (cs: seq<Contribution>)
    requires n <= |leg.hits|
    ensures |cs| == n
    ensures forall i :: 0 <= i < n ==>
              cs[i] == Contribution(leg.name, leg.hits[i].key, leg.hits[i].body,
                                    Share(leg, weights, leg.hits[i].score))
  {
    seq(n, i requires 0 <= i < n =>
      Contribution(leg.name, leg.hits[i].key, leg.hits[i].body,
                   Share(leg, weights, leg.hits[i].score)))
  }

  // Weighted fusion: each leg's scores are brought to [0, 1] and weighted.
  function WeightedAll(legs: seq<Leg>, weights: map<string, real>): seq<Contribution> {
    if legs == [] then []
    else WeightedAll(legs[..|legs| - 1], weights) + WeightedLeg(legs[|legs| - 1], weights, |legs[|legs| - 1].hits|)
  }

  method FuseRrf(legs: seq<Leg>, rrfK: nat) returns (t: Table)
    requires rrfK >= 1
    ensures Describes(t, RrfAll(legs, rrfK))
  {
    hide *;
    t := Table([], map[]);
    ghost var cs := [];
    EmptyDescribes();
    RrfAllStep(legs, rrfK, 0);
    var l := 0;
    while l < |legs|
      invariant l <= |legs| && cs == RrfAll(legs[..l], rrfK) && Describes(t, cs)
    {
      var leg := legs[l];
      ghost var before := cs;
      var i := 0;
      while i < |leg.hits|
        invariant i <= |leg.hits| && cs == before + RrfLeg(leg, rrfK, i) && Describes(t, cs)
      {
        var hit := leg.hits[i];
        var c := Contribution(leg.name, hit.key, hit.body, 1.0 / (rrfK + i + 1) as real);
        AddDescribes(t, cs, c);
        t := Add(t, c);
        assert RrfLeg(leg, rrfK, i + 1) == RrfLeg(leg, rrfK, i) + [c];
        cs := cs + [c];
        i := i + 1;
      }
      RrfAllStep(legs, rrfK, l);
      l := l + 1;
    }
    assert legs[..|legs|] == legs;
  }

  lemma EmptyDescribes()
    ensures Describes(Table([], map[]), [])
  {
  }

  lemma RrfAllStep(legs: seq<Leg>, rrfK: nat, l: nat)
    requires rrfK >= 1
    ensures RrfAll(legs[..0], rrfK) == []
    ensures l < |legs| ==>
              RrfAll(legs[..l + 1], rrfK) == RrfAll(legs[..l], rrfK) + RrfLeg(legs[l], rrfK, |legs[l].hits|)
  {
    if l < |legs| {
      assert legs[..l + 1][..l] == legs[..l];
    }
  }

  lemma WeightedAllStep(legs: seq<Leg>, weights: map<string, real>, l: nat)
    ensures WeightedAll(legs[..0], weights) == []
    ensures l < |legs| ==>
              WeightedAll(legs[..l + 1], weights)
                == WeightedAll(legs[..l], weights) + WeightedLeg(legs[l], weights, |legs[l].hits|)
  {
    if l < |legs| {
      assert legs[..l + 1][..l] == legs[..l];
    }
  }

  lemma ShareIs(leg: Leg, weights: map<string, real>, score: real, w: real, norm: real)
    requires leg.hits != [] && w == WeightOf(weights, leg.name)
    requires var span := Greatest(leg.hits) - Least(leg.hits);
             norm == if span == 0.0 then 1.0 else (score - Least(leg.hits)) / span
    ensures Share(leg, weights, score) == w * norm
  {
  }

  method FuseWeighted(legs: seq<Leg>, weights: map<string, real>) returns (t: Table)
    ensures Describes(t, WeightedAll(legs, weights))
  {
    hide *;
    t := Table([], map[]);
    ghost var cs := [];
    EmptyDescribes();
    WeightedAllStep(legs, weights, 0);
    var l := 0;
    while l < |legs|
      invariant l <= |legs| && cs == WeightedAll(legs[..l], weights) && Describes(t, cs)
    {
      var leg := legs[l];
      WeightedAllStep(legs, weights, l);
      if leg.hits == [] {
        l := l + 1;
        continue;
      }
      var lo, hi := Least(leg.hits), Greatest(leg.hits);
      var span := hi - lo;
      var w := WeightOf(weights, leg.name);
      ghost var before := cs;
      var i := 0;
      while i < |leg.hits|
        invariant i <= |leg.hits| && cs == before + WeightedLeg(leg, weights, i) && Describes(t, cs)
      {
        var hit := leg.hits[i];
        var norm := if span == 0.0 then 1.0 else (hit.score - lo) / span;
        ShareIs(leg, weights, hit.score, w, norm);
        var c := Contribution(leg.name, hit.key, hit.body, w * norm);
        AddDescribes(t, cs, c);
        t := Add(t, c);
        assert WeightedLeg(leg, weights, i + 1) == WeightedLeg(leg, weights, i) + [c];
        cs := cs + [c];
        i := i + 1;
      }
      l := l + 1;
    }
    assert legs[..|legs|] == legs;
  }

  // ---------- ranking ----------

  predicate Descending(rows: seq<Row>) {
    forall i, j :: 0 <= i < j < |rows| ==> rows[i].score >= rows[j].score
  }

  // Put a row after every row that scores at least as much.
  function InsertRow(rows: seq<Row>, row: Row): seq<Row> {
    if rows != [] && rows[0].score >= row.score then [rows[0]] + InsertRow(rows[1..], row)
    else [row] + rows
  }

  // The rows sorted by score, highest first, ties in their original order.
  function Ranked(rows: seq<Row>): seq<Row> {
    if rows == [] then [] else InsertRow(Ranked(rows[..|rows| - 1]), rows[|rows| - 1])
  }

  // The rows with a given score, in order.
  function WithScore(rows: seq<Row>, s: real): seq<Row> {
    if rows == [] then []
    else (if rows[0].score == s then [rows[0]] else []) + WithScore(rows[1..], s)
  }

  lemma {:induction false} InsertRowPermutes(rows: seq<Row>, row: Row)
    ensures multiset(InsertRow(rows, row)) == multiset(rows) + multiset{row}
  {
    if rows != [] && rows[0].score >= row.score {
      InsertRowPermutes(rows[1..], row);
      assert rows == [rows[0]] + rows[1..];
    }
  }

  lemma {:induction false} InsertRowSorts(rows: seq<Row>, row: Row)
    requires Descending(rows)
    ensures Descending(InsertRow(rows, row))
    ensures forall r <- InsertRow(rows, row) :: r == row || r in rows
  {
    if rows != [] && rows[0].score >= row.score {
      InsertRowSorts(rows[1..], row);
      var rest := InsertRow(rows[1..], row);
      forall j | 0 <= j < |rest| ensures rows[0].score >= rest[j].score {
        assert rest[j] in rest;
      }
    }
  }

  lemma {:induction false} WithScoreAppend(a: seq<Row>, row: Row, s: real)
    ensures WithScore(a + [row], s) == WithScore(a, s) + if row.score == s then [row] else []
  {
    if a == [] {
      assert a + [row] == [row] && [row][1..] == [];
    } else {
      assert (a + [row])[1..] == a[1..] + [row];
      WithScoreAppend(a[1..], row, s);
    }
  }

  lemma {:induction false} NoneWithScore(rows: seq<Row>, s: real)
    requires forall r <- rows :: r.score != s
    ensures WithScore(rows, s) == []
  {
    if rows != [] {
      assert rows[0] in rows;
      NoneWithScore(rows[1..], s);
    }
  }

  lemma {:induction false} InsertRowIsStable(rows: seq<Row>, row: Row, s: real)
    requires Descending(rows)
    ensures WithScore(InsertRow(rows, row), s) == WithScore(rows, s) + if row.score == s then [row] else []
  {
    if rows != [] && rows[0].score >= row.score {
      InsertRowIsStable(rows[1..], row, s);
    } else if row.score == s {
      forall r <- rows ensures r.score != s {
        assert rows[0].score >= r.score;
      }
      NoneWithScore(rows, s);
      assert ([row] + rows)[1..] == rows;
    } else {
      assert ([row] + rows)[1..] == rows;
    }
  }

  // The ranking is a permutation, highest score first, and stable: rows of equal
  // score keep their order.
  lemma {:induction false} RankedIsStableSort(rows: seq<Row>)
    ensures Descending(Ranked(rows))
    ensures multiset(Ranked(rows)) == multiset(rows)
    ensures forall s :: WithScore(Ranked(rows), s) == WithScore(rows, s)
  {
    if rows != [] {
      var before, last := rows[..|rows| - 1], rows[|rows| - 1];
      assert rows == before + [last];
      RankedIsStableSort(before);
      InsertRowSorts(Ranked(before), last);
      InsertRowPermutes(Ranked(before), last);
      forall s: real ensures WithScore(Ranked(rows), s) == WithScore(rows, s) {
        InsertRowIsStable(Ranked(before), last, s);
        WithScoreAppend(before, last, s);
      }
    }
  }

  // Python's rows[:k].
  function Prefix(rows: seq<Row>, k: int): seq<Row> {
    if k >= |rows| then rows
    else if k >= 0 then rows[..k]
    else if |rows| + k > 0 then rows[..|rows| + k]
    else []
  }

  function RowOf(cs: seq<Contribution>, key: Key): Row {
    Row(key, BodyOf(cs, key), ScoreOf(cs, key), set leg | leg in LegsOf(cs, key))
  }

  // One row per key, in order of first appearance.
  function RowsOf(cs: seq<Contribution>): (rows: seq<Row>)
    ensures |rows| == |FirstKeys(cs)|
    ensures forall i :: 0 <= i < |rows| ==> rows[i] == RowOf(cs, FirstKeys(cs)[i])
  {
    var ks := FirstKeys(cs);
    seq(|ks|, i requires 0 <= i < |ks| => RowOf(cs, ks[i]))
  }

  datatype FusionKind = Rrf | Weighted
  datatype Fused = Rows(rows: seq<Row>) | ValueError

  // The contributions a fusion works from.
  function Contributions(legs: seq<Leg>, kind: FusionKind, weights: map<string, real>, rrfK: int): seq<Contribution>
    requires kind.Rrf? ==> rrfK >= 1
  {
    match kind
    case Rrf => RrfAll(legs, rrfK)
    case Weighted => WeightedAll(legs, weights)
  }

  // `fuse`: the k best rows of what the contributions add up to; an RRF constant
  // below 1 is an error.
  method Fuse(legs: seq<Leg>, k: int, kind: FusionKind, weights: map<string, real>, rrfK: int) returns (r: Fused)
    ensures r == if kind.Rrf? && rrfK < 1 then ValueError
                 else Rows(Prefix(Ranked(RowsOf(Contributions(legs, kind, weights, rrfK))), k))
  {
    hide *;
    var t: Table;
    if kind.Rrf? {
      if rrfK < 1 {
        return ValueError;
      }
      t := FuseRrf(legs, rrfK);
    } else {
      t := FuseWeighted(legs, weights);
    }
    ghost var cs := Contributions(legs, kind, weights, rrfK);
    ContributionsAre(legs, kind, weights, rrfK);
    assert Describes(t, cs);
    var out: seq<Row> := [];
    for i := 0 to |t.order|
      invariant |out| == i
      invariant forall j :: 0 <= j < i ==> out[j] == RowOf(cs, t.order[j])
    {
      DescribedRow(t, cs, i);
      var key := t.order[i];
      var e := t.entries[key];
      out := out + [Row(key, e.body, e.score, set leg | leg in e.legs)];
    }
    DescribedRows(t, cs, out);
    return Rows(Prefix(Ranked(out), k));
  }

  lemma ContributionsAre(legs: seq<Leg>, kind: FusionKind, weights: map<string, real>, rrfK: int)
    requires kind.Rrf? ==> rrfK >= 1
    ensures Contributions(legs, kind, weights, rrfK)
              == if kind.Rrf? then RrfAll(legs, rrfK) else WeightedAll(legs, weights)
  {
  }

  lemma DescribedRow(t: Table, cs: seq<Contribution>, i: nat)
    requires Describes(t, cs) && i < |t.order|
    ensures t.order[i] in t.entries
    ensures var e := t.entries[t.order[i]];
            RowOf(cs, t.order[i]) == Row(t.order[i], e.body, e.score, set leg | leg in e.legs)
  {
    hide ScoreOf, BodyOf, LegsOf, FirstKeys;
  }

  lemma DescribedRows(t: Table, cs: seq<Contribution>, out: seq<Row>)
    requires Describes(t, cs) && |out| == |t.order|
    requires forall j :: 0 <= j < |out| ==> out[j] == RowOf(cs, t.order[j])
    ensures out == RowsOf(cs)
  {
    hide RowOf, FirstKeys;
  }
}
