// The impact query: a recursive walk over the call graph, cyclic or not, bounded in
// depth, grouped by name.
module ImpactWalk {
  import opened Text

  // A fully qualified name; only its identity matters.
  datatype Fqn = Fqn(id: nat)

  // One row of `code_edges`.
  datatype Edge = Edge(project: nat, edgeType: nat, kind: nat, src: Fqn, dst: Fqn, confidence: real)

  datatype Direction = Callers | Callees

  datatype Query = Query(
    fqn: Fqn, direction: Direction, depth: int, project: nat, edgeType: nat, confidenceFloor: real, kind: Option<nat>
  )

  const MAX_DEPTH: int := 10

  // The WHERE clause of both arms, but for the name.
  predicate Admissible(q: Query, e: Edge) {
    && e.project == q.project
    && e.edgeType == q.edgeType
    && e.confidence >= q.confidenceFloor
    && (q.kind.Some? ==> e.kind == q.kind.value)
  }

  // Where an edge is entered and where it leads.
  function Anchor(q: Query, e: Edge): Fqn {
    if q.direction.Callers? then e.dst else e.src
  }

  function Next(q: Query, e: Edge): Fqn {
    if q.direction.Callers? then e.src else e.dst
  }

  // A row of the walk: the edge last taken and how many were.
  datatype Row = Row(edge: Edge, hop: nat)

  // The admissible edges entered at a name, at a given hop.
  function Joined(edges: seq<Edge>, q: Query, at: Fqn, hop: nat): seq<Row> {
    if edges == [] then []
    else
      (if Admissible(q, edges[0]) && Anchor(q, edges[0]) == at then [Row(edges[0], hop)] else [])
      + Joined(edges[1..], q, at, hop)
  }

  // `FROM edges JOIN walk`: every row of one hop, continued.
  function Extended(edges: seq<Edge>, q: Query, rows: seq<Row>): seq<Row> {
    if rows == [] then []
    else Joined(edges, q, Next(q, rows[0].edge), rows[0].hop + 1) + Extended(edges, q, rows[1..])
  }

  // The rows the recursion adds in its n-th round.
  function Round(edges: seq<Edge>, q: Query, n: nat): seq<Row>
    requires n >= 1
  {
    if n == 1 then Joined(edges, q, q.fqn, 1) else Extended(edges, q, Round(edges, q, n - 1))
  }

  // `UNION ALL` of the rounds: a row at hop `depth` is not continued.
  function Walk(edges: seq<Edge>, q: Query, depth: nat): seq<Row> {
    if depth == 0 then [] else Walk(edges, q, depth - 1) + Round(edges, q, depth)
  }

  datatype Hit = Hit(fqn: Fqn, hop: nat, confidence: real, src: Fqn, dst: Fqn)

  datatype Outcome = Rejected | Hits(hits: seq<Hit>)

  // The rows of a name.
  predicate Named(q: Query, row: Row, fqn: Fqn) {
    Next(q, row.edge) == fqn
  }

  // `MIN(hop)`, `MAX(confidence)` and the end points of a most confident edge.
  predicate Groups(q: Query, walk: seq<Row>, h: Hit) {
    && (exists r <- walk :: Named(q, r, h.fqn) && r.hop == h.hop)
    && (forall r <- walk :: Named(q, r, h.fqn) ==> h.hop <= r.hop && r.edge.confidence <= h.confidence)
    && (exists r <- walk :: Named(q, r, h.fqn) && r.edge.confidence == h.confidence && r.edge.src == h.src)
    && (exists r <- walk :: Named(q, r, h.fqn) && r.edge.confidence == h.confidence && r.edge.dst == h.dst)
  }

  // `ORDER BY hop ASC, confidence DESC`.
  predicate InOrder(a: Hit, b: Hit) {
    a.hop < b.hop || (a.hop == b.hop && a.confidence >= b.confidence)
  }

  predicate InOrderOnce(hits: seq<Hit>) {
    forall i, j :: 0 <= i < j < |hits| ==> hits[i].fqn != hits[j].fqn && InOrder(hits[i], hits[j])
  }

  predicate HasHit(hits: seq<Hit>, fqn: Fqn) {
    exists h <- hits :: h.fqn == fqn
  }

  // An answer to the final SELECT: one hit per name of the walk, in order. Ties may
  // come in any order.
  predicate Answers(q: Query, walk: seq<Row>, hits: seq<Hit>) {
    && (forall h <- hits :: Groups(q, walk, h))
    && (forall r <- walk :: HasHit(hits, Next(q, r.edge)))
    && InOrderOnce(hits)
  }

  // What `_impact_query_one_direction` may return.
  predicate MayReturn(edges: seq<Edge>, q: Query, o: Outcome) {
    if 1 <= q.depth <= MAX_DEPTH then o.Hits? && Answers(q, Walk(edges, q, q.depth), o.hits) else o.Rejected?
  }

  // ---------- the rows are the walks ----------

  // A walk: admissible edges of the table, each entered where the one before leads,
  // from the queried name on.
  predicate IsPath(edges: seq<Edge>, q: Query, from: Fqn, path: seq<Edge>) {
    && (forall e <- path :: e in edges && Admissible(q, e))
    && (path != [] ==> Anchor(q, path[0]) == from)
    && (forall i :: 0 <= i < |path| - 1 ==> Next(q, path[i]) == Anchor(q, path[i + 1]))
  }

  // A walk of n edges from the queried name whose last edge is e.
  ghost predicate EndsWith(edges: seq<Edge>, q: Query, n: nat, e: Edge) {
    exists path :: |path| == n && n >= 1 && IsPath(edges, q, q.fqn, path) && path[n - 1] == e
  }

  lemma {:induction false} JoinedIs(edges: seq<Edge>, q: Query, at: Fqn, hop: nat, r: Row)
    ensures r in Joined(edges, q, at, hop)
        <==> r.hop == hop && r.edge in edges && Admissible(q, r.edge) && Anchor(q, r.edge) == at
  {
    if edges != [] {
      JoinedIs(edges[1..], q, at, hop, r);
      assert edges == [edges[0]] + edges[1..];
    }
  }

  lemma {:induction false} ExtendedIs(edges: seq<Edge>, q: Query, rows: seq<Row>, r: Row)
    ensures r in Extended(edges, q, rows)
        <==> exists w <- rows :: r in Joined(edges, q, Next(q, w.edge), w.hop + 1)
  {
    hide Joined;
    if rows != [] {
      ExtendedIs(edges, q, rows[1..], r);
      assert rows == [rows[0]] + rows[1..];
    }
  }

  lemma PathSnoc(edges: seq<Edge>, q: Query, from: Fqn, path: seq<Edge>, e: Edge)
    requires path != []
    ensures IsPath(edges, q, from, path + [e])
        <==> IsPath(edges, q, from, path) && e in edges && Admissible(q, e) && Anchor(q, e) == Next(q, path[|path| - 1])
  {
    var longer := path + [e];
    if IsPath(edges, q, from, longer) {
      assert forall i :: 0 <= i < |path| ==> longer[i] == path[i];
      assert forall x <- path :: x in longer;
      assert longer[|path|] == e && e in longer;
      assert Next(q, longer[|path| - 1]) == Anchor(q, longer[|path| - 1 + 1]);
    }
  }

  lemma EndsWithOne(edges: seq<Edge>, q: Query, e: Edge)
    ensures EndsWith(edges, q, 1, e) <==> e in edges && Admissible(q, e) && Anchor(q, e) == q.fqn
  {
    if EndsWith(edges, q, 1, e) {
      var path :| |path| == 1 && IsPath(edges, q, q.fqn, path) && path[0] == e;
      assert path[0] in path;
    } else {
      assert IsPath(edges, q, q.fqn, [e]) ==> [e][1 - 1] == e;
    }
  }

  lemma EndsWithMore(edges: seq<Edge>, q: Query, n: nat, e: Edge)
    requires n >= 1
    ensures EndsWith(edges, q, n + 1, e)
        <==> exists d :: EndsWith(edges, q, n, d) && e in edges && Admissible(q, e) && Anchor(q, e) == Next(q, d)
  {
    hide IsPath;
    if EndsWith(edges, q, n + 1, e) {
      var path :| |path| == n + 1 && IsPath(edges, q, q.fqn, path) && path[n] == e;
      assert path == path[..n] + [e];
      PathSnoc(edges, q, q.fqn, path[..n], e);
      assert EndsWith(edges, q, n, path[n - 1]);
    }
    if d :| EndsWith(edges, q, n, d) && e in edges && Admissible(q, e) && Anchor(q, e) == Next(q, d) {
      var path :| |path| == n && IsPath(edges, q, q.fqn, path) && path[n - 1] == d;
      PathSnoc(edges, q, q.fqn, path, e);
      assert (path + [e])[n + 1 - 1] == e;
    }
  }

  // The n-th round has a row exactly for the last edges of the walks of length n.
  lemma {:induction false} RoundIsWalks(edges: seq<Edge>, q: Query, n: nat, r: Row)
    requires n >= 1
    ensures r in Round(edges, q, n) <==> r.hop == n && EndsWith(edges, q, n, r.edge)
    decreases n
  {
    hide EndsWith, Extended, Joined;
    if n == 1 {
      JoinedIs(edges, q, q.fqn, 1, r);
      EndsWithOne(edges, q, r.edge);
    } else {
      ExtendedIs(edges, q, Round(edges, q, n - 1), r);
      EndsWithMore(edges, q, n - 1, r.edge);
      forall w ensures w in Round(edges, q, n - 1) <==> w.hop == n - 1 && EndsWith(edges, q, n - 1, w.edge) {
        RoundIsWalks(edges, q, n - 1, w);
      }
      forall w: Row ensures r in Joined(edges, q, Next(q, w.edge), w.hop + 1)
                     <==> r.hop == w.hop + 1 && r.edge in edges && Admissible(q, r.edge)
                          && Anchor(q, r.edge) == Next(q, w.edge)
      {
        JoinedIs(edges, q, Next(q, w.edge), w.hop + 1, r);
      }
      if d :| EndsWith(edges, q, n - 1, d) && r.edge in edges && Admissible(q, r.edge)
                && Anchor(q, r.edge) == Next(q, d)
      {
        assert Row(d, n - 1) in Round(edges, q, n - 1);
      }
    }
  }

  lemma {:induction false} WalkIsWalks(edges: seq<Edge>, q: Query, depth: nat, r: Row)
    ensures r in Walk(edges, q, depth) <==> 1 <= r.hop <= depth && EndsWith(edges, q, r.hop, r.edge)
  {
    hide EndsWith, Round;
    if depth > 0 {
      WalkIsWalks(edges, q, depth - 1, r);
      RoundIsWalks(edges, q, depth, r);
    }
  }
}
