// What the impact query answers: reachability, shortest distance and confidence, in
// both directions.
module ImpactGuarantees {
  import opened Text
  import opened ImpactWalk

  // The query's walks that lead to a name, with n edges.
  ghost predicate Reaches(edges: seq<Edge>, q: Query, n: nat, fqn: Fqn) {
    exists path :: |path| == n && n >= 1 && IsPath(edges, q, q.fqn, path) && Next(q, path[n - 1]) == fqn
  }

  lemma ReachesByEdge(edges: seq<Edge>, q: Query, n: nat, fqn: Fqn)
    ensures Reaches(edges, q, n, fqn) <==> exists e :: EndsWith(edges, q, n, e) && Next(q, e) == fqn
  {
    hide IsPath;
    if Reaches(edges, q, n, fqn) {
      var path :| |path| == n && n >= 1 && IsPath(edges, q, q.fqn, path) && Next(q, path[n - 1]) == fqn;
      assert EndsWith(edges, q, n, path[n - 1]);
    }
  }

  // ---------- one hit ----------

  lemma WalkRow(edges: seq<Edge>, q: Query, depth: nat, r: Row)
    ensures r in Walk(edges, q, depth) <==> 1 <= r.hop <= depth && EndsWith(edges, q, r.hop, r.edge)
  {
    hide *;
    WalkIsWalks(edges, q, depth, r);
  }

  // The rows a hit takes its hop and its confidence from.
  lemma HitRows(edges: seq<Edge>, q: Query, hits: seq<Hit>, h: Hit) returns (low: Row, best: Row)
    requires MayReturn(edges, q, Hits(hits)) && h in hits
    ensures 1 <= low.hop <= q.depth && EndsWith(edges, q, low.hop, low.edge)
    ensures Next(q, low.edge) == h.fqn && low.hop == h.hop
    ensures 1 <= best.hop <= q.depth && EndsWith(edges, q, best.hop, best.edge) && Next(q, best.edge) == h.fqn
    ensures best.edge.confidence == h.confidence
  {
    hide Walk, EndsWith, InOrderOnce;
    var walk := Walk(edges, q, q.depth);
    assert Groups(q, walk, h);
    low :| low in walk && Named(q, low, h.fqn) && low.hop == h.hop;
    best :| best in walk && Named(q, best, h.fqn) && best.edge.confidence == h.confidence && best.edge.src == h.src;
    WalkRow(edges, q, q.depth, low);
    WalkRow(edges, q, q.depth, best);
  }

  // No walk to its name within the depth does better.
  lemma HitIsBest(edges: seq<Edge>, q: Query, hits: seq<Hit>, h: Hit, n: nat, e: Edge)
    requires MayReturn(edges, q, Hits(hits)) && h in hits
    requires 1 <= n <= q.depth && EndsWith(edges, q, n, e) && Next(q, e) == h.fqn
    ensures h.hop <= n && e.confidence <= h.confidence
  {
    hide Walk, EndsWith, InOrderOnce, HasHit;
    WalkRow(edges, q, q.depth, Row(e, n));
    assert Named(q, Row(e, n), h.fqn);
    assert Groups(q, Walk(edges, q, q.depth), h);
  }

  lemma WalkIsHit(edges: seq<Edge>, q: Query, hits: seq<Hit>, n: nat, e: Edge)
    requires MayReturn(edges, q, Hits(hits))
    requires 1 <= n <= q.depth && EndsWith(edges, q, n, e)
    ensures HasHit(hits, Next(q, e))
  {
    hide Walk, EndsWith, InOrderOnce, HasHit, Groups;
    WalkRow(edges, q, q.depth, Row(e, n));
  }

  // The answer names exactly what 1 to depth admissible edges reach.
  lemma NamesAreTheReached(edges: seq<Edge>, q: Query, hits: seq<Hit>, fqn: Fqn)
    requires MayReturn(edges, q, Hits(hits))
    ensures HasHit(hits, fqn) <==> exists n: nat :: 1 <= n <= q.depth && Reaches(edges, q, n, fqn)
  {
    hide MayReturn, EndsWith, Reaches;
    if HasHit(hits, fqn) {
      var h :| h in hits && h.fqn == fqn;
      var low, best := HitRows(edges, q, hits, h);
      ReachesByEdge(edges, q, low.hop, fqn);
    }
    if n: nat :| 1 <= n <= q.depth && Reaches(edges, q, n, fqn) {
      ReachesByEdge(edges, q, n, fqn);
      var e :| EndsWith(edges, q, n, e) && Next(q, e) == fqn;
      WalkIsHit(edges, q, hits, n, e);
    }
  }

  lemma EndsWithIsLong(edges: seq<Edge>, q: Query, n: nat, e: Edge)
    requires EndsWith(edges, q, n, e)
    ensures n >= 1
  {
  }

  // A hit's hop is the length of the shortest walk to its name, of any length.
  lemma HopIsShortest(edges: seq<Edge>, q: Query, hits: seq<Hit>, h: Hit)
    requires MayReturn(edges, q, Hits(hits)) && h in hits
    ensures Reaches(edges, q, h.hop, h.fqn) && 1 <= h.hop <= q.depth
    ensures forall n: nat :: Reaches(edges, q, n, h.fqn) ==> h.hop <= n
  {
    hide MayReturn, EndsWith, Reaches;
    var low, best := HitRows(edges, q, hits, h);
    ReachesByEdge(edges, q, low.hop, h.fqn);
    forall n: nat | Reaches(edges, q, n, h.fqn) ensures h.hop <= n {
      ReachesByEdge(edges, q, n, h.fqn);
      var e :| EndsWith(edges, q, n, e) && Next(q, e) == h.fqn;
      EndsWithIsLong(edges, q, n, e);
      if n <= q.depth {
        HitIsBest(edges, q, hits, h, n, e);
      }
    }
  }

  // A hit's confidence is the largest among the last edges of the walks to its name
  // within the depth.
  lemma ConfidenceIsLargest(edges: seq<Edge>, q: Query, hits: seq<Hit>, h: Hit)
    requires MayReturn(edges, q, Hits(hits)) && h in hits
    ensures exists n: nat, e ::
              1 <= n <= q.depth && EndsWith(edges, q, n, e) && Next(q, e) == h.fqn && e.confidence == h.confidence
    ensures forall n: nat, e ::
              1 <= n <= q.depth && EndsWith(edges, q, n, e) && Next(q, e) == h.fqn ==> e.confidence <= h.confidence
  {
    hide MayReturn, EndsWith;
    var low, best := HitRows(edges, q, hits, h);
    assert EndsWith(edges, q, best.hop, best.edge);
    forall n: nat, e | 1 <= n <= q.depth && EndsWith(edges, q, n, e) && Next(q, e) == h.fqn
      ensures e.confidence <= h.confidence
    {
      HitIsBest(edges, q, hits, h, n, e);
    }
  }

  // ---------- in terms of the table's columns ----------

  // An edge of the table that the query's filters let through.
  predicate PassesFilters(q: Query, e: Edge) {
    && e.project == q.project && e.edgeType == q.edgeType && e.confidence >= q.confidenceFloor
    && (q.kind == None || q.kind == Some(e.kind))
  }

  // One hop answers with the sources of the edges into the name, or with the
  // destinations of those out of it.
  lemma OneHopAnswers(edges: seq<Edge>, q: Query, hits: seq<Hit>, fqn: Fqn)
    requires q.depth == 1 && MayReturn(edges, q, Hits(hits))
    ensures q.direction.Callers? ==>
              (HasHit(hits, fqn) <==> exists e <- edges :: PassesFilters(q, e) && e.dst == q.fqn && e.src == fqn)
    ensures q.direction.Callees? ==>
              (HasHit(hits, fqn) <==> exists e <- edges :: PassesFilters(q, e) && e.src == q.fqn && e.dst == fqn)
  {
    hide MayReturn, EndsWith;
    if HasHit(hits, fqn) {
      var h :| h in hits && h.fqn == fqn;
      var low, best := HitRows(edges, q, hits, h);
      EndsWithOne(edges, q, low.edge);
      assert PassesFilters(q, low.edge);
    }
    if e :| e in edges && PassesFilters(q, e) && Anchor(q, e) == q.fqn && Next(q, e) == fqn {
      EndsWithOne(edges, q, e);
      WalkIsHit(edges, q, hits, 1, e);
    }
  }

  // A hit carries the ends of an edge of the table that passes the filters and leads
  // to its name, with the hit's confidence; nearer hits come first, and of equally
  // near ones the more confident.
  lemma HitsAreEdges(edges: seq<Edge>, q: Query, hits: seq<Hit>, i: nat)
    requires MayReturn(edges, q, Hits(hits)) && i < |hits|
    ensures exists e <- edges :: PassesFilters(q, e) && e.src == hits[i].src && e.confidence == hits[i].confidence
    ensures exists e <- edges :: PassesFilters(q, e) && e.dst == hits[i].dst && e.confidence == hits[i].confidence
    ensures hits[i].fqn == if q.direction.Callers? then hits[i].src else hits[i].dst
    ensures i > 0 ==>
              hits[i - 1].fqn != hits[i].fqn
              && (hits[i - 1].hop < hits[i].hop
                  || (hits[i - 1].hop == hits[i].hop && hits[i - 1].confidence >= hits[i].confidence))
  {
    hide Walk, EndsWith, HasHit;
    var walk, h := Walk(edges, q, q.depth), hits[i];
    assert h in hits && Groups(q, walk, h);
    var a :| a in walk && Named(q, a, h.fqn) && a.edge.confidence == h.confidence && a.edge.src == h.src;
    var b :| b in walk && Named(q, b, h.fqn) && b.edge.confidence == h.confidence && b.edge.dst == h.dst;
    WalkRow(edges, q, q.depth, a);
    WalkRow(edges, q, q.depth, b);
    EndsOnPassing(edges, q, a.hop, a.edge);
    EndsOnPassing(edges, q, b.hop, b.edge);
  }

  lemma EndsOnPassing(edges: seq<Edge>, q: Query, n: nat, e: Edge)
    requires EndsWith(edges, q, n, e)
    ensures e in edges && PassesFilters(q, e)
  {
    var path :| |path| == n && n >= 1 && IsPath(edges, q, q.fqn, path) && path[n - 1] == e;
    assert e in path;
  }

  // ---------- both directions ----------

  // The query from the other end.
  function Converse(q: Query, from: Fqn): Query {
    q.(fqn := from, direction := if q.direction.Callers? then Callees else Callers)
  }

  function Reversed(path: seq<Edge>): (r: seq<Edge>)
    ensures |r| == |path|
    ensures forall i :: 0 <= i < |path| ==> r[i] == path[|path| - 1 - i]
  {
    seq(|path|, i requires 0 <= i < |path| => path[|path| - 1 - i])
  }

  lemma ReversedIsPath(edges: seq<Edge>, q: Query, from: Fqn, path: seq<Edge>)
    requires path != [] && IsPath(edges, q, from, path)
    ensures var c := Converse(q, Next(q, path[|path| - 1]));
            IsPath(edges, c, c.fqn, Reversed(path)) && Next(c, Reversed(path)[|path| - 1]) == from
  {
    var c, r := Converse(q, Next(q, path[|path| - 1])), Reversed(path);
    forall i | 0 <= i < |r| - 1 ensures Next(c, r[i]) == Anchor(c, r[i + 1]) {
      var k := |path| - 2 - i;
      assert r[i] == path[k + 1] && r[i + 1] == path[k];
      assert Next(q, path[k]) == Anchor(q, path[k + 1]);
    }
    forall e <- r ensures e in edges && Admissible(c, e) {
      var i :| 0 <= i < |r| && r[i] == e;
      assert path[|path| - 1 - i] in path;
    }
  }

  lemma ReachesBack(edges: seq<Edge>, q: Query, n: nat, fqn: Fqn)
    requires Reaches(edges, q, n, fqn)
    ensures Reaches(edges, Converse(q, fqn), n, q.fqn)
  {
    hide IsPath;
    var path :| |path| == n && n >= 1 && IsPath(edges, q, q.fqn, path) && Next(q, path[n - 1]) == fqn;
    ReversedIsPath(edges, q, q.fqn, path);
    assert IsPath(edges, Converse(q, fqn), fqn, Reversed(path));
  }

  // Callers and callees are converse: fqn answers the query at a hop exactly when
  // the queried name answers the converse query from fqn at the same hop.
  lemma CallersAndCalleesAreConverse(edges: seq<Edge>, q: Query, fqn: Fqn, hits: seq<Hit>, back: seq<Hit>, hop: nat)
    requires MayReturn(edges, q, Hits(hits)) && MayReturn(edges, Converse(q, fqn), Hits(back))
    ensures (exists h <- hits :: h.fqn == fqn && h.hop == hop) <==> (exists h <- back :: h.fqn == q.fqn && h.hop == hop)
  {
    hide MayReturn, Reaches;
    assert Converse(Converse(q, fqn), q.fqn) == q;
    if h :| h in hits && h.fqn == fqn && h.hop == hop {
      HopComesBack(edges, q, fqn, hits, back, h);
    }
    if h :| h in back && h.fqn == q.fqn && h.hop == hop {
      HopComesBack(edges, Converse(q, fqn), q.fqn, back, hits, h);
    }
  }

  lemma HopComesBack(edges: seq<Edge>, q: Query, fqn: Fqn, hits: seq<Hit>, back: seq<Hit>, h: Hit)
    requires MayReturn(edges, q, Hits(hits)) && MayReturn(edges, Converse(q, fqn), Hits(back))
    requires h in hits && h.fqn == fqn
    ensures exists b <- back :: b.fqn == q.fqn && b.hop == h.hop
  {
    hide MayReturn, Reaches;
    var c := Converse(q, fqn);
    HopIsShortest(edges, q, hits, h);
    ReachesBack(edges, q, h.hop, fqn);
    NamesAreTheReached(edges, c, back, q.fqn);
    var b :| b in back && b.fqn == q.fqn;
    HopIsShortest(edges, c, back, b);
    assert Converse(c, q.fqn) == q;
    ReachesBack(edges, c, b.hop, q.fqn);
  }

  // A confidence found for a name from one end is found from the other.
  predicate HasConfidence(hits: seq<Hit>, fqn: Fqn, confidence: real) {
    exists h <- hits :: h.fqn == fqn && h.confidence == confidence
  }

  // Answers to a query and to its converse give the two names the same confidence.
  predicate AgreeOn(edges: seq<Edge>, q: Query, fqn: Fqn, hits: seq<Hit>, back: seq<Hit>, confidence: real) {
    MayReturn(edges, q, Hits(hits)) && MayReturn(edges, Converse(q, fqn), Hits(back)) ==>
      (HasConfidence(hits, fqn, confidence) <==> HasConfidence(back, q.fqn, confidence))
  }

  // Whatever the graph, the query and the answers, confidences at this depth are
  // converse.
  ghost predicate ConfidencesConverse(depth: int) {
    forall edges, q: Query, fqn, hits, back, confidence ::
      q.depth == depth ==> AgreeOn(edges, q, fqn, hits, back, confidence)
  }

  // Beyond one hop they are not: x calls a at 0.9 and a calls y at 0.5, so y finds
  // its caller x at 0.9, and x finds its callee y at 0.5.
  lemma ConfidenceIsNotConverse(depth: int)
    returns (edges: seq<Edge>, q: Query, fqn: Fqn, hits: seq<Hit>, back: seq<Hit>)
    requires 2 <= depth <= 10
    ensures q.depth == depth && MayReturn(edges, q, Hits(hits)) && MayReturn(edges, Converse(q, fqn), Hits(back))
    ensures HasConfidence(hits, fqn, 0.9) && !HasConfidence(back, q.fqn, 0.9)
  {
    hide MayReturn;
    var x, a, y := Fqn(0), Fqn(1), Fqn(2);
    var xa, ay := Edge(0, 0, 0, x, a, 0.9), Edge(0, 0, 0, a, y, 0.5);
    edges, fqn := [xa, ay], x;
    q := Query(y, Callers, depth, 0, 0, 0.0, None);
    var c := Converse(q, x);
    var answer := OutcomeExists(edges, q);
    var other := OutcomeExists(edges, c);
    hits, back := answer.hits, other.hits;
    LastOfTwo(edges, q, hits, ay, xa);
    LastOfTwo(edges, c, back, xa, ay);
  }

  // Among the depths that are answered, callers and callees are converse in their
  // confidences exactly at depth 1.
  lemma ConverseConfidencesExactly(depth: int)
    ensures 1 <= depth <= 10 ==> (ConfidencesConverse(depth) <==> depth == 1)
  {
    hide MayReturn, HasConfidence;
    if depth == 1 {
      forall edges, q: Query, fqn, hits, back, confidence | q.depth == depth
        ensures AgreeOn(edges, q, fqn, hits, back, confidence)
      {
        if MayReturn(edges, q, Hits(hits)) && MayReturn(edges, Converse(q, fqn), Hits(back)) {
          OneHopIsConverse(edges, q, fqn, hits, back, confidence);
        }
      }
    } else if 1 < depth <= MAX_DEPTH {
      var edges, q, fqn, hits, back := ConfidenceIsNotConverse(depth);
      assert !AgreeOn(edges, q, fqn, hits, back, 0.9);
    }
  }

  // Within one hop confidences are converse too.
  lemma OneHopIsConverse(edges: seq<Edge>, q: Query, fqn: Fqn, hits: seq<Hit>, back: seq<Hit>, confidence: real)
    requires q.depth == 1
    requires MayReturn(edges, q, Hits(hits)) && MayReturn(edges, Converse(q, fqn), Hits(back))
    ensures HasConfidence(hits, fqn, confidence) <==> HasConfidence(back, q.fqn, confidence)
  {
    hide MayReturn;
    assert Converse(Converse(q, fqn), q.fqn) == q;
    if h :| h in hits && h.fqn == fqn && h.confidence == confidence {
      OneHopComesBack(edges, q, fqn, hits, back, h);
    }
    if h :| h in back && h.fqn == q.fqn && h.confidence == confidence {
      OneHopComesBack(edges, Converse(q, fqn), q.fqn, back, hits, h);
    }
  }

  lemma OneHopComesBack(edges: seq<Edge>, q: Query, fqn: Fqn, hits: seq<Hit>, back: seq<Hit>, h: Hit)
    requires q.depth == 1
    requires MayReturn(edges, q, Hits(hits)) && MayReturn(edges, Converse(q, fqn), Hits(back))
    requires h in hits && h.fqn == fqn
    ensures exists b <- back :: b.fqn == q.fqn && b.confidence == h.confidence
  {
    hide MayReturn, EndsWith;
    var c := Converse(q, fqn);
    var low, best := HitRows(edges, q, hits, h);
    EndsWithOne(edges, q, best.edge);
    EndsWithOne(edges, c, best.edge);
    WalkIsHit(edges, c, back, 1, best.edge);
    var b :| b in back && b.fqn == q.fqn;
    HitIsBest(edges, c, back, b, 1, best.edge);
    var low2, best2 := HitRows(edges, c, back, b);
    EndsWithOne(edges, c, best2.edge);
    EndsWithOne(edges, q, best2.edge);
    HitIsBest(edges, q, hits, h, 1, best2.edge);
  }

  // Two edges that lead on one after the other and no further: the far end is two
  // steps away, so its confidence is the second edge's.
  lemma LastOfTwo(edges: seq<Edge>, q: Query, hits: seq<Hit>, e1: Edge, e2: Edge)
    requires MayReturn(edges, q, Hits(hits)) && q.depth >= 2
    requires edges == [e1, e2] || edges == [e2, e1]
    requires Admissible(q, e1) && Admissible(q, e2)
    requires Anchor(q, e1) == q.fqn && Anchor(q, e2) == Next(q, e1) != Next(q, e2)
    ensures forall confidence :: HasConfidence(hits, Next(q, e2), confidence) <==> confidence == e2.confidence
  {
    hide EndsWith, MayReturn;
    assert e1 in edges && e2 in edges && forall e <- edges :: e == e1 || e == e2;
    EndsWithOne(edges, q, e1);
    EndsWithMore(edges, q, 1, e2);
    WalkIsHit(edges, q, hits, 2, e2);
    forall h <- hits | h.fqn == Next(q, e2) ensures h.confidence == e2.confidence {
      var low, best := HitRows(edges, q, hits, h);
      EndsWithIn(edges, q, best.hop, best.edge);
    }
  }

  lemma EndsWithIn(edges: seq<Edge>, q: Query, n: nat, e: Edge)
    requires EndsWith(edges, q, n, e)
    ensures e in edges
  {
    var path :| |path| == n && n >= 1 && IsPath(edges, q, q.fqn, path) && path[n - 1] == e;
    assert e in path;
  }

  // ---------- deeper queries ----------

  // A deeper query finds every hit again, at the same hop and with at least the
  // same confidence.
  lemma DeeperKeepsHits(edges: seq<Edge>, q: Query, deeper: int, hits: seq<Hit>, more: seq<Hit>, h: Hit)
    requires deeper >= q.depth
    requires MayReturn(edges, q, Hits(hits)) && MayReturn(edges, q.(depth := deeper), Hits(more)) && h in hits
    ensures exists m <- more :: m.fqn == h.fqn && m.hop == h.hop && m.confidence >= h.confidence
  {
    var d := q.(depth := deeper);
    SameWalks(edges, q, d);
    hide MayReturn, Reaches, EndsWith;
    HopIsShortest(edges, q, hits, h);
    NamesAreTheReached(edges, d, more, h.fqn);
    var m :| m in more && m.fqn == h.fqn;
    HopIsShortest(edges, d, more, m);
    var low, best := HitRows(edges, q, hits, h);
    HitIsBest(edges, d, more, m, best.hop, best.edge);
  }

  lemma SameWalks(edges: seq<Edge>, q: Query, d: Query)
    requires d == q.(depth := d.depth)
    ensures forall n: nat, e :: EndsWith(edges, q, n, e) <==> EndsWith(edges, d, n, e)
    ensures forall n: nat, x :: Reaches(edges, q, n, x) <==> Reaches(edges, d, n, x)
  {
    assert forall from, path :: IsPath(edges, q, from, path) <==> IsPath(edges, d, from, path);
    hide IsPath;
  }

  // ---------- an answer exists ----------

  // The group of a name.
  lemma GroupExists(q: Query, walk: seq<Row>, fqn: Fqn) returns (h: Hit)
    requires exists r <- walk :: Named(q, r, fqn)
    ensures h.fqn == fqn && Groups(q, walk, h)
  {
    var low := LowestHop(q, walk, fqn);
    var best := MostConfident(q, walk, fqn);
    h := Hit(fqn, low.hop, best.edge.confidence, best.edge.src, best.edge.dst);
  }

  lemma {:induction false} LowestHop(q: Query, walk: seq<Row>, fqn: Fqn) returns (low: Row)
    requires exists r <- walk :: Named(q, r, fqn)
    ensures low in walk && Named(q, low, fqn) && forall r <- walk :: Named(q, r, fqn) ==> low.hop <= r.hop
  {
    assert walk == [walk[0]] + walk[1..];
    if exists r <- walk[1..] :: Named(q, r, fqn) {
      low := LowestHop(q, walk[1..], fqn);
      if Named(q, walk[0], fqn) && walk[0].hop < low.hop {
        low := walk[0];
      }
    } else {
      low := walk[0];
    }
  }

  lemma {:induction false} MostConfident(q: Query, walk: seq<Row>, fqn: Fqn) returns (best: Row)
    requires exists r <- walk :: Named(q, r, fqn)
    ensures best in walk && Named(q, best, fqn)
    ensures forall r <- walk :: Named(q, r, fqn) ==> r.edge.confidence <= best.edge.confidence
  {
    assert walk == [walk[0]] + walk[1..];
    if exists r <- walk[1..] :: Named(q, r, fqn) {
      best := MostConfident(q, walk[1..], fqn);
      if Named(q, walk[0], fqn) && walk[0].edge.confidence > best.edge.confidence {
        best := walk[0];
      }
    } else {
      best := walk[0];
    }
  }

  // A hit put in its place.
  function Placed(hits: seq<Hit>, h: Hit): seq<Hit> {
    if hits == [] || InOrder(h, hits[0]) then [h] + hits else [hits[0]] + Placed(hits[1..], h)
  }

  lemma {:induction false} PlacedIs(hits: seq<Hit>, h: Hit)
    requires InOrderOnce(hits) && !HasHit(hits, h.fqn)
    ensures InOrderOnce(Placed(hits, h))
    ensures forall x :: x in Placed(hits, h) <==> x in hits || x == h
  {
    if hits != [] && !InOrder(h, hits[0]) {
      assert hits == [hits[0]] + hits[1..];
      PlacedIs(hits[1..], h);
      assert forall x <- Placed(hits[1..], h) :: InOrder(hits[0], x) && hits[0].fqn != x.fqn;
    } else if hits != [] {
      assert forall x <- hits :: InOrder(hits[0], x);
    }
  }

  // Whatever the walk, the final SELECT has an answer.
  lemma {:induction false} AnswerExists(q: Query, walk: seq<Row>, n: nat) returns (hits: seq<Hit>)
    requires n <= |walk|
    ensures (forall h <- hits :: Groups(q, walk, h)) && InOrderOnce(hits)
    ensures forall i :: 0 <= i < n ==> HasHit(hits, Next(q, walk[i].edge))
    ensures n == |walk| ==> Answers(q, walk, hits)
  {
    hide Groups, InOrderOnce;
    if n == 0 {
      hits := NoHits();
    } else {
      hits := AnswerExists(q, walk, n - 1);
      var fqn := Next(q, walk[n - 1].edge);
      if !HasHit(hits, fqn) {
        assert walk[n - 1] in walk && Named(q, walk[n - 1], fqn);
        var h := GroupExists(q, walk, fqn);
        PlacedIs(hits, h);
        var before := hits;
        hits := Placed(hits, h);
        assert forall x: Fqn :: HasHit(before, x) ==> HasHit(hits, x);
        assert h in hits && HasHit(hits, fqn);
      }
    }
  }

  lemma NoHits() returns (hits: seq<Hit>)
    ensures hits == [] && InOrderOnce(hits)
  {
    hits := [];
  }

  // The query always has an outcome: hits for depths 1 to 10, cycles or not, and a
  // rejection otherwise.
  lemma OutcomeExists(edges: seq<Edge>, q: Query) returns (o: Outcome)
    ensures MayReturn(edges, q, o) && (o.Hits? <==> 1 <= q.depth <= 10)
  {
    if 1 <= q.depth <= MAX_DEPTH {
      var walk := Walk(edges, q, q.depth);
      var hits := AnswerExists(q, walk, |walk|);
      o := Hits(hits);
    } else {
      o := Rejected;
    }
  }
}
