// The pool of idle read connections, one list per DSN, and the read that retries
// once when a reused connection turns out dead.
module ReadPool {
  import opened Text

  type ConnId = nat
  datatype Dsn = Dsn(id: nat)

  // An idle connection and when it was released.
  datatype Entry = Entry(conn: ConnId, since: real)
  type Pools = map<Dsn, seq<Entry>>

  const MAX_IDLE: nat := 8
  const MAX_AGE: real := 300.0

  function IdleOf(pools: Pools, dsn: Dsn): seq<Entry> {
    if dsn in pools then pools[dsn] else []
  }

  // Neither closed nor idle for too long.
  predicate Usable(e: Entry, now: real, broken: set<ConnId>) {
    e.conn !in broken && now - e.since <= MAX_AGE
  }

  // How many entries stay when the pool looks for a usable one from the end: up to
  // and without the one it hands out, or none.
  function Kept(idle: seq<Entry>, now: real, broken: set<ConnId>): (k: nat)
    ensures k <= |idle|
  {
    if idle == [] then 0
    else if Usable(idle[|idle| - 1], now, broken) then |idle| - 1
    else Kept(idle[..|idle| - 1], now, broken)
  }

  // The connection handed out: the last usable one.
  function Found(idle: seq<Entry>, now: real, broken: set<ConnId>): Option<ConnId> {
    if idle == [] then None
    else if Usable(idle[|idle| - 1], now, broken) then Some(idle[|idle| - 1].conn)
    else Found(idle[..|idle| - 1], now, broken)
  }

  function Conns(idle: seq<Entry>): set<ConnId> {
    set e <- idle :: e.conn
  }

  // The connection handed out is the most recently released usable one, everything
  // released after it was unusable and goes, everything before it stays; without a
  // usable one the list ends up empty.
  lemma {:induction false} FoundIsLastUsable(idle: seq<Entry>, now: real, broken: set<ConnId>)
    ensures var k := Kept(idle, now, broken);
            if Found(idle, now, broken).Some? then
              k < |idle| && Usable(idle[k], now, broken) && Found(idle, now, broken) == Some(idle[k].conn)
              && forall j :: k < j < |idle| ==> !Usable(idle[j], now, broken)
            else k == 0 && forall j :: 0 <= j < |idle| ==> !Usable(idle[j], now, broken)
  {
    if idle != [] && !Usable(idle[|idle| - 1], now, broken) {
      FoundIsLastUsable(idle[..|idle| - 1], now, broken);
    }
  }

  // What becomes of a released connection: a closed one is forgotten, a failed one
  // or one too many is closed, and the others are kept for the next caller.
  function AfterRelease(idle: seq<Entry>, conn: ConnId, ok: bool, now: real, broken: set<ConnId>): (r: seq<Entry>)
    ensures |idle| <= MAX_IDLE ==> |r| <= MAX_IDLE
    ensures r == idle || (conn !in broken && ok && r == idle + [Entry(conn, now)])
  {
    if conn in broken || !ok || |idle| >= MAX_IDLE then idle else idle + [Entry(conn, now)]
  }

  // A released connection is the next one handed out exactly when it is open, the
  // list had room, and it has not been idle too long.
  lemma ReleasedIsNextAcquired(idle: seq<Entry>, conn: ConnId, now: real, later: real, broken: set<ConnId>)
    requires conn !in Conns(idle)
    ensures Found(AfterRelease(idle, conn, true, now, broken), later, broken) == Some(conn)
        <==> conn !in broken && |idle| < 8 && later - now <= 300.0
  {
    var r := AfterRelease(idle, conn, true, now, broken);
    FoundIsLastUsable(idle, later, broken);
    FoundIsLastUsable(r, later, broken);
    if Found(idle, later, broken).Some? {
      assert idle[Kept(idle, later, broken)] in idle;
    }
    if r != idle {
      assert r[..|r| - 1] == idle;
    }
  }

  // How a query on a connection ends.
  datatype Outcome = Rows | ConnFails | OtherFails

  // One attempt at the query: on a reused connection or a fresh one. A connection
  // that could not be opened counts as a fresh one that failed.
  datatype Attempt = Attempt(reused: bool, outcome: Outcome)

  // Only a reused connection's failure is retried, once, on a fresh connection.
  predicate RetriedOnce(log: seq<Attempt>) {
    && 1 <= |log| <= 2
    && (|log| == 2 <==> log[0] == Attempt(true, ConnFails))
    && (|log| == 2 ==> !log[1].reused)
  }

  predicate FreshWorks(log: seq<Attempt>) {
    forall a <- log :: !a.reused ==> a.outcome.Rows?
  }

  function Result(log: seq<Attempt>): Outcome
    requires log != []
  {
    log[|log| - 1].outcome
  }

  // A caller whose fresh connections work gets its rows unless a reused connection
  // failed for another reason.
  lemma FreshIsEnough(log: seq<Attempt>)
    requires RetriedOnce(log) && FreshWorks(log)
    ensures Result(log).Rows? || log == [Attempt(true, OtherFails)]
  {
    assert log[0] in log && log[|log| - 1] in log;
  }

  // What the world does during one read: the clock, whether connections open, and
  // how the queries end.
  datatype World = World(now: real, released: real, opens: bool, first: Outcome, reopens: bool, second: Outcome)

  // The attempts a read makes, given whether it got a reused connection.
  function Attempts(reused: bool, w: World): seq<Attempt> {
    if !reused && !w.opens then [Attempt(false, ConnFails)]
    else if reused && w.first.ConnFails? then
      [Attempt(true, ConnFails), Attempt(false, if w.reopens then w.second else ConnFails)]
    else [Attempt(reused, w.first)]
  }

  lemma AttemptsRetryOnce(reused: bool, w: World)
    ensures RetriedOnce(Attempts(reused, w))
    ensures Attempts(reused, w)[0].reused == reused
    ensures !reused && w.opens ==> Result(Attempts(reused, w)) == w.first
  {
  }

  predicate Distinct(idle: seq<Entry>) {
    forall i, j :: 0 <= i < j < |idle| ==> idle[i].conn != idle[j].conn
  }

  predicate Below(idle: seq<Entry>, next: ConnId) {
    forall e <- idle :: e.conn < next
  }

  // The pop loop over `all` has come down to `idle`: nothing usable was passed, and
  // what was passed is closed.
  ghost predicate Popping(all: seq<Entry>, idle: seq<Entry>, was: set<ConnId>, closed: set<ConnId>, now: real) {
    && idle <= all && Distinct(all)
    && Kept(idle, now, was) == Kept(all, now, was)
    && Found(idle, now, was) == Found(all, now, was)
    && closed == was + Conns(all[|idle|..])
  }

  lemma PopStarts(all: seq<Entry>, was: set<ConnId>, now: real)
    requires Distinct(all)
    ensures Popping(all, all, was, was, now)
  {
    assert all[|all|..] == [];
  }

  lemma ConnsFrom(all: seq<Entry>, n: nat)
    requires Distinct(all) && n < |all|
    ensures Conns(all[n..]) == Conns(all[n + 1..]) + {all[n].conn}
    ensures all[n].conn !in Conns(all[n + 1..])
  {
    assert all[n..] == [all[n]] + all[n + 1..];
  }

  lemma KeptStep(idle: seq<Entry>, now: real, was: set<ConnId>)
    requires idle != []
    ensures var n := |idle| - 1;
            if Usable(idle[n], now, was) then Kept(idle, now, was) == n && Found(idle, now, was) == Some(idle[n].conn)
            else Kept(idle, now, was) == Kept(idle[..n], now, was)
                 && Found(idle, now, was) == Found(idle[..n], now, was)
  {
  }

  lemma PopPasses(all: seq<Entry>, idle: seq<Entry>, was: set<ConnId>, closed: set<ConnId>, now: real)
    requires Popping(all, idle, was, closed, now) && idle != []
    ensures var n := |idle| - 1;
            var last := idle[n];
            && idle[..n] == all[..n] && last == all[n] && Distinct(all[..n])
            && (Usable(last, now, closed) <==> last.conn !in closed && now - last.since <= MAX_AGE)
            && (!Usable(last, now, closed) ==> Popping(all, all[..n], was, closed + {last.conn}, now))
            && (Usable(last, now, closed) ==>
                  Found(all, now, was) == Some(last.conn) && Kept(all, now, was) == n
                    && closed == was + Conns(all[n + 1..]))
  {
    var n := |idle| - 1;
    assert idle == all[..n + 1] && idle[..n] == all[..n];
    ConnsFrom(all, n);
    KeptStep(idle, now, was);
    hide Kept, Found, Conns;
  }

  lemma PopEnds(all: seq<Entry>, was: set<ConnId>, closed: set<ConnId>, now: real)
    requires Popping(all, [], was, closed, now)
    ensures Found(all, now, was).None? && Kept(all, now, was) == 0 && closed == was + Conns(all[0..])
    ensures Distinct(all[..0])
  {
    assert all[0..] == all;
  }

  // The connection handed out is not in what stays of the list, nor is a new one.
  lemma AcquiredIsNotListed(idle: seq<Entry>, now: real, was: set<ConnId>, next: ConnId)
    requires Distinct(idle) && Below(idle, next)
    ensures var kept := idle[..Kept(idle, now, was)];
            && next !in Conns(kept) && Below(kept, next)
            && (Found(idle, now, was).Some? ==>
                  Found(idle, now, was).value < next && Found(idle, now, was).value !in Conns(kept))
  {
    FoundIsLastUsable(idle, now, was);
    hide Kept, Found;
    var k := Kept(idle, now, was);
    if k < |idle| {
      assert idle[k] in idle;
    }
    assert forall e <- idle[..k] :: e in idle;
  }

  // The connections a read runs on, given the reused one it got and the number of
  // the next new one.
  function ConnsUsed(reused: Option<ConnId>, w: World, next: ConnId): seq<ConnId> {
    if reused.None? then (if w.opens then [next] else [])
    else if w.first.ConnFails? && w.reopens then [reused.value, next]
    else [reused.value]
  }

  function Last(used: seq<ConnId>): ConnId {
    if used == [] then 0 else used[|used| - 1]
  }

  // Of the connections used, those closed: not the one listed again, nor the one
  // abandoned.
  function ClosedOf(used: seq<ConnId>, listed: seq<Entry>, abandoned: bool): set<ConnId> {
    if abandoned then {} else set c <- used | c !in Conns(listed)
  }

  lemma NothingUsed(listed: seq<Entry>)
    ensures ClosedOf([], listed, false) == {}
  {
  }

  lemma NewIsNotListed(idle: seq<Entry>, next: ConnId)
    requires Below(idle, next)
    ensures next !in Conns(idle)
  {
  }

  class SearchPool {
    var pools: Pools
    var closed: set<ConnId>
    var nextConn: ConnId

    // No list is longer than the limit, each connection is listed once, and new
    // connections are new.
    ghost predicate Valid()
      reads this
    {
      && (forall d: Dsn ::
            |IdleOf(pools, d)| <= MAX_IDLE && Distinct(IdleOf(pools, d)) && Below(IdleOf(pools, d), nextConn))
      && (forall c <- closed :: c < nextConn)
    }

    constructor ()
      ensures Valid() && pools == map[] && closed == {}
    {
      pools, closed, nextConn := map[], {}, 0;
    }

    // `_pool_acquire`: the last usable connection of the list, or a new one; those
    // passed on the way are closed.
    method Acquire(dsn: Dsn, now: real, opens: bool) returns (conn: Option<ConnId>, reused: bool)
      requires Valid()
      modifies this
      ensures Valid()
      ensures forall d :: d != dsn ==> IdleOf(pools, d) == IdleOf(old(pools), d)
      ensures var idle := IdleOf(old(pools), dsn);
              && reused == Found(idle, now, old(closed)).Some?
              && IdleOf(pools, dsn) == idle[..Kept(idle, now, old(closed))]
              && closed == old(closed) + Conns(idle[if reused then Kept(idle, now, old(closed)) + 1 else 0..])
              && (reused ==> conn == Found(idle, now, old(closed)) && conn.value !in closed)
      ensures !reused ==> conn == if opens then Some(old(nextConn)) else None
      ensures nextConn == if !reused && opens then old(nextConn) + 1 else old(nextConn)
    {
      hide Popping, Kept, Found, Conns, Distinct, Usable;
      var all := IdleOf(pools, dsn);
      var idle := all;
      ghost var was := closed;
      PopStarts(all, was, now);
      while idle != []
        invariant Popping(all, idle, was, closed, now) && idle <= all
        invariant nextConn == old(nextConn) && Below(idle, nextConn)
        invariant forall c <- closed :: c < nextConn
        invariant pools == if idle == all then old(pools) else old(pools)[dsn := idle]
        decreases |idle|
      {
        var last := idle[|idle| - 1];
        PopPasses(all, idle, was, closed, now);
        idle := idle[..|idle| - 1];
        pools := pools[dsn := idle];
        if last.conn !in closed {
          if now - last.since <= MAX_AGE {
            assert forall d :: d != dsn ==> IdleOf(pools, d) == IdleOf(old(pools), d);
            return Some(last.conn), true;
          }
          closed := closed + {last.conn};
        }
        assert closed == closed + {last.conn};
      }
      PopEnds(all, was, closed, now);
      assert forall d :: d != dsn ==> IdleOf(pools, d) == IdleOf(old(pools), d);
      reused := false;
      conn := None;
      if opens {
        conn := Some(nextConn);
        nextConn := nextConn + 1;
      }
    }

    // `_pool_release` of a connection no list holds.
    method Release(dsn: Dsn, conn: ConnId, ok: bool, now: real)
      requires Valid() && conn < nextConn && conn !in Conns(IdleOf(pools, dsn))
      modifies this
      ensures Valid()
      ensures forall d :: d != dsn ==> IdleOf(pools, d) == IdleOf(old(pools), d)
      ensures IdleOf(pools, dsn) == AfterRelease(IdleOf(old(pools), dsn), conn, ok, now, old(closed))
      ensures conn in closed || conn in Conns(IdleOf(pools, dsn))
      ensures closed == old(closed) + if conn in Conns(IdleOf(pools, dsn)) then {} else {conn}
      ensures nextConn == old(nextConn)
    {
      var idle := IdleOf(pools, dsn);
      if conn in closed {
        return;
      }
      if !ok {
        closed := closed + {conn};
        return;
      }
      if |idle| < MAX_IDLE {
        var kept := idle + [Entry(conn, now)];
        assert kept[|idle|] == Entry(conn, now);
        assert Entry(conn, now) in kept;
        pools := pools[dsn := kept];
        assert forall d :: d != dsn ==> IdleOf(pools, d) == IdleOf(old(pools), d);
        return;
      }
      closed := closed + {conn};
    }

    // `_execute_read`: the attempts are those of Attempts, and the result is the last
    // one's. `used` are the connections it ran on. After it, the last one is idle
    // again or closed when there are rows, every other one is closed - except the
    // one whose first query failed for another reason, which is neither. Besides
    // them only idle connections found unusable were closed.
    method ExecuteRead(dsn: Dsn, w: World) returns (r: Outcome, ghost used: seq<ConnId>)
      requires Valid()
      modifies this
      ensures Valid()
      ensures forall d :: d != dsn ==> IdleOf(pools, d) == IdleOf(old(pools), d)
      ensures var idle := IdleOf(old(pools), dsn);
              var k, found := Kept(idle, w.now, old(closed)), Found(idle, w.now, old(closed));
              var log := Attempts(found.Some?, w);
              && (found.Some? && w.first.ConnFails? && w.reopens ==> r == w.second)
              && (found.Some? && w.first.ConnFails? && !w.reopens ==> r == ConnFails)
              && (found.Some? && !w.first.ConnFails? ==> r == w.first)
              && (found.None? ==> r == if w.opens then w.first else ConnFails)
              && r == Result(log) && used == ConnsUsed(found, w, old(nextConn))
              && (r.Rows? ==> used != [])
              && IdleOf(pools, dsn)
                   == (if r.Rows? then AfterRelease(idle[..k], Last(used), true, w.released, {}) else idle[..k])
              && closed == old(closed) + Conns(idle[if found.Some? then k + 1 else 0..])
                           + ClosedOf(used, IdleOf(pools, dsn), |log| == 1 && r.OtherFails?)
              && (forall c <- used :: c !in closed && c !in Conns(IdleOf(pools, dsn)) <==> |log| == 1 && r.OtherFails?)
    {
      ghost var idle := IdleOf(pools, dsn);
      AcquiredIsNotListed(idle, w.now, closed, nextConn);
      hide Kept, Found, Distinct, Conns, AfterRelease, ClosedOf, Below;
      var conn, reused := Acquire(dsn, w.now, w.opens);
      if conn.None? {
        NothingUsed(IdleOf(pools, dsn));
        return ConnFails, [];
      }
      r, used := RunOn(dsn, conn.value, reused, w);
    }

    // The query on an acquired connection, and once more on a new one when a reused
    // connection fails.
    method RunOn(dsn: Dsn, conn: ConnId, reused: bool, w: World) returns (r: Outcome, ghost used: seq<ConnId>)
      requires Valid() && (reused || w.opens)
      requires conn < nextConn && conn !in closed && conn !in Conns(IdleOf(pools, dsn))
      modifies this
      ensures Valid()
      ensures forall d :: d != dsn ==> IdleOf(pools, d) == IdleOf(old(pools), d)
      ensures var idle := IdleOf(old(pools), dsn);
              var log := Attempts(reused, w);
              && r == (if !reused || !w.first.ConnFails? then w.first else if w.reopens then w.second else ConnFails)
              && r == Result(log)
              && used == (if reused && w.first.ConnFails? && w.reopens then [conn, old(nextConn)] else [conn])
              && IdleOf(pools, dsn) == (if r.Rows? then AfterRelease(idle, Last(used), true, w.released, {}) else idle)
              && closed == old(closed) + ClosedOf(used, IdleOf(pools, dsn), |log| == 1 && r.OtherFails?)
              && (forall c <- used :: c !in closed && c !in Conns(IdleOf(pools, dsn)) <==> |log| == 1 && r.OtherFails?)
    {
      NewIsNotListed(IdleOf(pools, dsn), nextConn);
      hide Conns, Below, Distinct;
      used := [conn];
      if w.first.Rows? {
        Release(dsn, conn, true, w.released);
        return Rows, used;
      }
      if w.first.OtherFails? {
        return OtherFails, used;
      }
      CloseQuietly(conn);
      if !reused {
        return ConnFails, used;
      }
      var second := OpenReadConn(w.reopens);
      if second.None? {
        return ConnFails, used;
      }
      used := [conn, second.value];
      if w.second.Rows? {
        Release(dsn, second.value, true, w.released);
        return Rows, used;
      }
      CloseQuietly(second.value);
      return w.second, used;
    }

    method CloseQuietly(conn: ConnId)
      requires Valid() && conn < nextConn
      modifies this`closed
      ensures Valid() && closed == old(closed) + {conn}
    {
      closed := closed + {conn};
    }

    // A new connection, when one can be opened.
    method OpenReadConn(opens: bool) returns (conn: Option<ConnId>)
      requires Valid()
      modifies this`nextConn
      ensures Valid()
      ensures conn == if opens then Some(old(nextConn)) else None
      ensures nextConn == if opens then old(nextConn) + 1 else old(nextConn)
    {
      conn := None;
      if opens {
        conn := Some(nextConn);
        nextConn := nextConn + 1;
      }
    }

    // `close_search_pool`: every idle connection is closed and the lists are gone.
    method ClosePool()
      requires Valid()
      modifies this
      ensures Valid() && pools == map[] && nextConn == old(nextConn)
      ensures closed == old(closed) + (set d <- old(pools).Keys, e <- old(pools)[d] :: e.conn)
    {
      var taken := pools;
      pools := map[];
      var left := taken.Keys;
      while left != {}
        invariant left <= taken.Keys && pools == map[] && nextConn == old(nextConn)
        invariant closed == old(closed) + (set d <- taken.Keys - left, e <- taken[d] :: e.conn)
        invariant forall c <- closed :: c < nextConn
        decreases left
      {
        var d :| d in left;
        assert Below(IdleOf(taken, d), nextConn);
        closed := closed + Conns(taken[d]);
        left := left - {d};
      }
    }

    // The reset after a fork: the lists are gone, and nothing is closed.
    method ResetAfterFork()
      requires Valid()
      modifies this`pools
      ensures Valid() && pools == map[]
    {
      pools := map[];
    }
  }
}
