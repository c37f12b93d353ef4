// One read is a run of the protocol in which only its caller steps.
module ReadPoolRefinement {
  import opened ReadPool
  import opened ReadPoolProtocol
  import opened Runs
  import opened Text

  predicate IsBy(c: CallerId, step: Step) {
    (step.Acquire? || step.Open? || step.Query? || step.Release?) && step.who == c
  }

  ghost predicate RunsTo(c: CallerId, s: State, x: State) {
    Reaches(Apply, step => IsBy(c, step), s, x)
  }

  lemma RunsItself(c: CallerId, s: State)
    ensures RunsTo(c, s, s)
  {
    ReachesItself(Apply, step => IsBy(c, step), s);
  }

  lemma RunsOneMore(c: CallerId, s: State, x: State, step: Step, y: State)
    requires RunsTo(c, s, x) && IsBy(c, step) && Apply(x, step) == Some(y)
    ensures RunsTo(c, s, y)
  {
    hide Apply;
    ReachesOneMore(Apply, step => IsBy(c, step), s, x, step, y);
  }

  // From x to y the caller's DSN gets the list `idle`, the connections `closed` are
  // closed besides, and the other callers and DSNs keep what they have.
  ghost predicate Becomes(x: State, y: State, c: CallerId, dsn: Dsn, idle: seq<Entry>, closed: set<ConnId>) {
    && (forall d :: IdleOf(y.pools, d) == if d == dsn then idle else IdleOf(x.pools, d))
    && y.broken == x.broken + closed && y.closed == x.closed + closed
    && (forall u: CallerId :: u != c ==> At(y, u) == At(x, u))
    && y.closing == x.closing && y.left == x.left
  }

  lemma BecomesTwice(x: State, y: State, z: State, c: CallerId, dsn: Dsn, idle: seq<Entry>, closed: set<ConnId>,
                     idle2: seq<Entry>, closed2: set<ConnId>)
    requires Becomes(x, y, c, dsn, idle, closed) && Becomes(y, z, c, dsn, idle2, closed2)
    ensures Becomes(x, z, c, dsn, idle2, closed + closed2)
  {
  }

  // The caller takes the last usable connection, or is about to open one.
  lemma Acquires(s: State, c: CallerId, dsn: Dsn, now: real) returns (x: State)
    requires (At(s, c).Resting? || At(s, c).Done?) && Distinct(IdleOf(s.pools, dsn))
    ensures RunsTo(c, s, x) && x.origin == s.origin && x.abandoned == s.abandoned
    ensures var idle := IdleOf(s.pools, dsn);
            var k, found := Kept(idle, now, s.broken), Found(idle, now, s.broken);
            && Becomes(s, x, c, dsn, idle[..k], Conns(idle[if found.Some? then k + 1 else 0..]))
            && At(x, c) == (if found.Some? then Running(dsn, found.value, true, []) else Opening(dsn, []))
            && (found.Some? ==> found.value !in x.broken && found.value !in Conns(idle[..k]))
  {
    RunsItself(c, s);
    var idle := IdleOf(s.pools, dsn);
    FoundIsLastUsable(idle, now, s.broken);
    hide RunsTo, Kept, Found;
    var k := Kept(idle, now, s.broken);
    x := Apply(s, Acquire(c, dsn, now)).value;
    assert idle[0..] == idle;
    RunsOneMore(c, s, s, Acquire(c, dsn, now), x);
  }

  // The caller opens the new connection `next`, or ends without one.
  lemma Opens(s: State, c: CallerId, x: State, opens: bool, next: ConnId) returns (y: State)
    requires RunsTo(c, s, x) && At(x, c).Opening? && next !in x.origin
    ensures RunsTo(c, s, y) && y.abandoned == x.abandoned
    ensures var pc := At(x, c);
            && Becomes(x, y, c, pc.dsn, IdleOf(x.pools, pc.dsn), {})
            && At(y, c) == (if opens then Running(pc.dsn, next, false, pc.log)
                            else Done(pc.log + [Attempt(false, ConnFails)]))
  {
    hide RunsTo;
    y := Apply(x, Open(c, if opens then Some(next) else None)).value;
    RunsOneMore(c, s, x, Open(c, if opens then Some(next) else None), y);
  }

  // A query with rows: the connection is listed again or closed.
  lemma QueriesRows(s: State, c: CallerId, x: State, now: real) returns (y: State)
    requires RunsTo(c, s, x) && At(x, c).Running? && At(x, c).conn !in x.broken
    requires At(x, c).conn !in Conns(IdleOf(x.pools, At(x, c).dsn))
    ensures RunsTo(c, s, y) && y.abandoned == x.abandoned
    ensures var pc := At(x, c);
            var idle := AfterRelease(IdleOf(x.pools, pc.dsn), pc.conn, true, now, {});
            && Becomes(x, y, c, pc.dsn, idle, ClosedOf([pc.conn], idle, false))
            && At(y, c) == Done(pc.log + [Attempt(pc.reused, Rows)])
  {
    hide RunsTo;
    var pc := At(x, c);
    var idle := IdleOf(x.pools, pc.dsn);
    var r := AfterRelease(idle, pc.conn, true, now, {});
    if |idle| < MAX_IDLE {
      assert r[|idle|] == Entry(pc.conn, now);
      assert pc.conn in Conns(r);
      assert ClosedOf([pc.conn], r, false) == {};
    } else {
      assert ClosedOf([pc.conn], r, false) == {pc.conn};
    }
    var m := Apply(x, Query(c, Rows)).value;
    RunsOneMore(c, s, x, Query(c, Rows), m);
    y := Apply(m, Release(c, now)).value;
    RunsOneMore(c, s, m, Release(c, now), y);
  }

  // A query without rows: the connection is closed unless its failure was the first
  // and another one, and the caller opens a new one when it was a reused one.
  lemma QueryFails(s: State, c: CallerId, x: State, outcome: Outcome) returns (y: State)
    requires RunsTo(c, s, x) && At(x, c).Running? && !outcome.Rows?
    ensures RunsTo(c, s, y) && y.origin == x.origin
    ensures var pc := At(x, c);
            var left := outcome.OtherFails? && pc.log == [];
            && Becomes(x, y, c, pc.dsn, IdleOf(x.pools, pc.dsn), if left then {} else {pc.conn})
            && y.abandoned == x.abandoned + (if left then {pc.conn} else {})
            && At(y, c) == (var log := pc.log + [Attempt(pc.reused, outcome)];
                            if !left && pc.reused then Opening(pc.dsn, log) else Done(log))
  {
    hide RunsTo;
    y := Apply(x, Query(c, outcome)).value;
    RunsOneMore(c, s, x, Query(c, outcome), y);
  }

  lemma ClosedOfOne(a: ConnId, listed: seq<Entry>)
    requires a !in Conns(listed)
    ensures ClosedOf([a], listed, false) == {a} && ClosedOf([a], listed, true) == {}
  {
  }

  lemma ClosedOfTwo(a: ConnId, b: ConnId, listed: seq<Entry>)
    requires a !in Conns(listed)
    ensures ClosedOf([a, b], listed, false) == {a} + ClosedOf([b], listed, false)
  {
  }

  lemma StillNotListed(idle: seq<Entry>, a: ConnId, b: ConnId, now: real)
    requires a !in Conns(idle) && a != b
    ensures a !in Conns(AfterRelease(idle, b, true, now, {}))
  {
  }

  // The query that ends the read failed before any other, and not for the connection.
  predicate LeavesItsConn(log: seq<Attempt>)
    requires log != []
  {
    |log| == 1 && Result(log).OtherFails?
  }

  // The list after a read on the connections `used` that left `kept` of it.
  function ListedAfter(kept: seq<Entry>, used: seq<ConnId>, log: seq<Attempt>, released: real): seq<Entry>
    requires log != []
  {
    if Result(log).Rows? then AfterRelease(kept, Last(used), true, released, {}) else kept
  }

  // From x to y the caller's read ended, and at most its last connection was abandoned.
  predicate Ends(x: State, y: State, c: CallerId, used: seq<ConnId>, log: seq<Attempt>)
    requires log != []
  {
    At(y, c) == Done(log) && y.abandoned == x.abandoned + if LeavesItsConn(log) then {Last(used)} else {}
  }

  // From x to y the caller made the attempts `log` on the connections `used`.
  ghost predicate Reads(x: State, y: State, c: CallerId, dsn: Dsn, kept: seq<Entry>, used: seq<ConnId>,
                        log: seq<Attempt>, released: real)
    requires log != []
  {
    var listed := ListedAfter(kept, used, log, released);
    Becomes(x, y, c, dsn, listed, ClosedOf(used, listed, LeavesItsConn(log))) && Ends(x, y, c, used, log)
  }

  // The list after the second query.
  function ListedAgain(idle: seq<Entry>, next: ConnId, w: World): seq<Entry> {
    if w.reopens && w.second.Rows? then AfterRelease(idle, next, true, w.released, {}) else idle
  }

  // The second query, on a new connection, after a reused one failed.
  lemma RunsAgain(s: State, c: CallerId, x: State, dsn: Dsn, next: ConnId, w: World) returns (y: State)
    requires RunsTo(c, s, x) && At(x, c) == Opening(dsn, [Attempt(true, ConnFails)]) && next !in x.origin
    requires next !in x.broken && next !in Conns(IdleOf(x.pools, dsn))
    ensures RunsTo(c, s, y) && y.abandoned == x.abandoned
    ensures var idle := ListedAgain(IdleOf(x.pools, dsn), next, w);
            Becomes(x, y, c, dsn, idle, if w.reopens then ClosedOf([next], idle, false) else {})
    ensures At(y, c) == Done([Attempt(true, ConnFails), Attempt(false, if w.reopens then w.second else ConnFails)])
  {
    hide RunsTo, AfterRelease, Conns, ClosedOf;
    ClosedOfOne(next, IdleOf(x.pools, dsn));
    y := Opens(s, c, x, w.reopens, next);
    if w.reopens {
      if w.second.Rows? {
        y := QueriesRows(s, c, y, w.released);
      } else {
        y := QueryFails(s, c, y, w.second);
      }
    }
  }

  // The same, together with the failed query before it.
  lemma Retries(s: State, c: CallerId, x: State, m: State, dsn: Dsn, conn: ConnId, next: ConnId, w: World)
    returns (y: State)
    requires RunsTo(c, s, m) && At(m, c) == Opening(dsn, [Attempt(true, ConnFails)]) && next !in m.origin
    requires Becomes(x, m, c, dsn, IdleOf(x.pools, dsn), {conn}) && m.abandoned == x.abandoned
    requires conn != next && next !in x.broken && w.first.ConnFails?
    requires next !in Conns(IdleOf(x.pools, dsn)) && conn !in Conns(IdleOf(x.pools, dsn))
    ensures RunsTo(c, s, y)
    ensures Reads(x, y, c, dsn, IdleOf(x.pools, dsn), if w.reopens then [conn, next] else [conn],
                  Attempts(true, w), w.released)
  {
    var idle := IdleOf(x.pools, dsn);
    assert IdleOf(m.pools, dsn) == idle && next !in m.broken;
    hide RunsTo, AfterRelease, Conns, ClosedOf, Becomes;
    y := RunsAgain(s, c, m, dsn, next, w);
    var idle2 := ListedAgain(idle, next, w);
    var closed := if w.reopens then ClosedOf([next], idle2, false) else {};
    BecomesTwice(x, m, y, c, dsn, idle, {conn}, idle2, closed);
    StillNotListed(idle, conn, next, w.released);
    ClosedOfOne(conn, idle2);
    ClosedOfTwo(conn, next, idle2);
  }

  // The query on an acquired connection, and the second one.
  lemma RunsOn(s: State, c: CallerId, x: State, dsn: Dsn, conn: ConnId, reused: bool, next: ConnId, w: World)
    returns (y: State)
    requires RunsTo(c, s, x) && At(x, c) == Running(dsn, conn, reused, []) && (reused || w.opens)
    requires conn !in x.broken && conn !in Conns(IdleOf(x.pools, dsn))
    requires reused ==> conn != next && next !in x.origin && next !in x.broken && next !in Conns(IdleOf(x.pools, dsn))
    ensures RunsTo(c, s, y)
    ensures Reads(x, y, c, dsn, IdleOf(x.pools, dsn),
                  if reused && w.first.ConnFails? && w.reopens then [conn, next] else [conn],
                  Attempts(reused, w), w.released)
  {
    hide RunsTo, AfterRelease, Conns, ClosedOf, Becomes;
    var idle := IdleOf(x.pools, dsn);
    ClosedOfOne(conn, idle);
    if w.first.Rows? {
      y := QueriesRows(s, c, x, w.released);
    } else {
      y := QueryFails(s, c, x, w.first);
      if reused && w.first.ConnFails? {
        y := Retries(s, c, x, y, dsn, conn, next, w);
      }
    }
  }

  // The read on a new connection, when it can be opened.
  lemma ReadsOnNew(s: State, c: CallerId, x: State, dsn: Dsn, next: ConnId, w: World) returns (y: State)
    requires RunsTo(c, s, x) && At(x, c) == Opening(dsn, []) && next !in x.origin
    requires next !in x.broken && next !in Conns(IdleOf(x.pools, dsn))
    ensures RunsTo(c, s, y)
    ensures Reads(x, y, c, dsn, IdleOf(x.pools, dsn), ConnsUsed(None, w, next), Attempts(false, w), w.released)
  {
    hide RunsTo, AfterRelease, Conns, ClosedOf;
    var idle := IdleOf(x.pools, dsn);
    y := Opens(s, c, x, w.opens, next);
    if w.opens {
      var m := y;
      y := RunsOn(s, c, m, dsn, next, false, next, w);
      ReadsAfterOpening(x, m, y, c, dsn, [next], Attempts(false, w), w.released);
    } else {
      NothingUsed(idle);
    }
  }

  lemma ReadsAfterOpening(x: State, m: State, y: State, c: CallerId, dsn: Dsn, used: seq<ConnId>, log: seq<Attempt>,
                          released: real)
    requires log != [] && Becomes(x, m, c, dsn, IdleOf(x.pools, dsn), {}) && m.abandoned == x.abandoned
    requires Reads(m, y, c, dsn, IdleOf(x.pools, dsn), used, log, released)
    ensures Reads(x, y, c, dsn, IdleOf(x.pools, dsn), used, log, released)
  {
    hide AfterRelease, Conns, ClosedOf;
  }

  // The same after an acquire: of the list, the connections `gone` were passed and
  // closed as well.
  ghost predicate Leaves(s: State, y: State, c: CallerId, dsn: Dsn, kept: seq<Entry>, gone: set<ConnId>,
                         used: seq<ConnId>, log: seq<Attempt>, released: real)
    requires log != []
  {
    var listed := ListedAfter(kept, used, log, released);
    Becomes(s, y, c, dsn, listed, gone + ClosedOf(used, listed, LeavesItsConn(log))) && Ends(s, y, c, used, log)
  }

  lemma ReadsAfterAcquire(s: State, x: State, y: State, c: CallerId, dsn: Dsn, idle: seq<Entry>, gone: set<ConnId>,
                          used: seq<ConnId>, log: seq<Attempt>, released: real)
    requires log != [] && Becomes(s, x, c, dsn, idle, gone) && x.abandoned == s.abandoned
    requires Reads(x, y, c, dsn, idle, used, log, released)
    ensures Leaves(s, y, c, dsn, idle, gone, used, log, released)
  {
    hide AfterRelease, Conns, ClosedOf;
  }

  // A new connection, and the caller in a state to ask for one.
  predicate CanRead(s: State, c: CallerId, dsn: Dsn, next: ConnId) {
    && (At(s, c).Resting? || At(s, c).Done?)
    && Distinct(IdleOf(s.pools, dsn)) && Below(IdleOf(s.pools, dsn), next)
    && next !in s.origin && next !in s.broken
  }

  // The entries of a list that looking for a usable connection takes off it.
  function Passed(idle: seq<Entry>, now: real, broken: set<ConnId>): seq<Entry> {
    idle[if Found(idle, now, broken).Some? then Kept(idle, now, broken) + 1 else 0..]
  }

  lemma Starts(s: State, c: CallerId, dsn: Dsn, now: real, next: ConnId) returns (x: State)
    requires CanRead(s, c, dsn, next)
    ensures RunsTo(c, s, x) && x.abandoned == s.abandoned
    ensures next !in x.origin && next !in x.broken
    ensures var idle := IdleOf(s.pools, dsn);
            var kept, found := idle[..Kept(idle, now, s.broken)], Found(idle, now, s.broken);
            && Becomes(s, x, c, dsn, kept, Conns(Passed(idle, now, s.broken)))
            && IdleOf(x.pools, dsn) == kept && next !in Conns(kept)
            && At(x, c) == (if found.Some? then Running(dsn, found.value, true, []) else Opening(dsn, []))
            && (found.Some? ==> found.value !in x.broken && found.value !in Conns(kept) && found.value != next)
  {
    var idle := IdleOf(s.pools, dsn);
    AcquiredIsNotListed(idle, now, s.broken, next);
    NewIsNotListed(idle, next);
    hide RunsTo, Kept, Found;
    x := Acquires(s, c, dsn, now);
    assert forall e <- Passed(idle, now, s.broken) :: e in idle;
  }

  // What `SearchPool.ExecuteRead` makes of its lists and its connections is what a
  // run of the protocol by one caller makes of them.
  lemma ReadIsAProtocolRun(s: State, c: CallerId, dsn: Dsn, w: World, next: ConnId)
    requires CanRead(s, c, dsn, next)
    ensures var idle := IdleOf(s.pools, dsn);
            var found := Found(idle, w.now, s.broken);
            exists y :: RunsTo(c, s, y)
              && Leaves(s, y, c, dsn, idle[..Kept(idle, w.now, s.broken)], Conns(Passed(idle, w.now, s.broken)),
                        ConnsUsed(found, w, next), Attempts(found.Some?, w), w.released)
  {
    hide RunsTo, Kept, Found, Conns, Becomes, Reads, Leaves, CanRead, Passed;
    var idle := IdleOf(s.pools, dsn);
    var found, kept := Found(idle, w.now, s.broken), idle[..Kept(idle, w.now, s.broken)];
    var gone := Conns(Passed(idle, w.now, s.broken));
    var x := Starts(s, c, dsn, w.now, next);
    var y: State;
    if found.Some? {
      y := RunsOn(s, c, x, dsn, found.value, true, next, w);
    } else {
      y := ReadsOnNew(s, c, x, dsn, next, w);
    }
    ReadsAfterAcquire(s, x, y, c, dsn, kept, gone, ConnsUsed(found, w, next), Attempts(found.Some?, w), w.released);
  }
}
