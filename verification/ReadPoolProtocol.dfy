// Many callers reading through one pool: every interleaving of acquires, opens,
// queries, releases, pool closes, forks and connections breaking.
module ReadPoolProtocol {
  import opened ReadPool
  import opened Runs
  import opened Text

  type CallerId = nat

  // Where a caller is in its read. `log` are the attempts it made so far.
  datatype Caller =
    | Resting
    | Opening(dsn: Dsn, log: seq<Attempt>)
    | Running(dsn: Dsn, conn: ConnId, reused: bool, log: seq<Attempt>)
    | Releasing(dsn: Dsn, conn: ConnId, log: seq<Attempt>)
    | Done(log: seq<Attempt>)

  // `origin`: the DSN each connection was opened for. `broken`: connections whose
  // closed flag is set. `closing`: taken out of the pool to be closed. `left`:
  // connections of the parent process, from before a fork.
  datatype State = State(
    pools: Pools,
    origin: map<ConnId, Dsn>,
    callers: map<CallerId, Caller>,
    broken: set<ConnId>,
    closing: set<ConnId>,
    closed: set<ConnId>,
    abandoned: set<ConnId>,
    left: set<ConnId>
  )

  datatype Step =
    | Acquire(who: CallerId, dsn: Dsn, now: real)
    | Open(who: CallerId, got: Option<ConnId>)
    | Query(who: CallerId, outcome: Outcome)
    | Release(who: CallerId, now: real)
    | Break(conn: ConnId)
    | DrainPools
    | CloseOne(conn: ConnId)
    | Fork(who: CallerId)

  function At(s: State, c: CallerId): Caller {
    if c in s.callers then s.callers[c] else Resting
  }

  function Moved(s: State, c: CallerId, pc: Caller): State {
    s.(callers := s.callers[c := pc])
  }

  predicate Holds(pc: Caller, conn: ConnId) {
    (pc.Running? || pc.Releasing?) && pc.conn == conn
  }

  function AllIdle(pools: Pools): set<ConnId> {
    set d <- pools.Keys, e <- pools[d] :: e.conn
  }

  function AllHeld(callers: map<CallerId, Caller>): set<ConnId> {
    set c <- callers.Keys | callers[c].Running? || callers[c].Releasing? :: callers[c].conn
  }

  // One step. None means the step cannot be taken here. Acquiring holds the pool's
  // lock throughout, so it is one step; opening a connection is another.
  function Apply(s: State, step: Step): Option<State> {
    match step
    case Acquire(c, dsn, now) =>
      if !At(s, c).Resting? && !At(s, c).Done? then None
      else
        var idle := IdleOf(s.pools, dsn);
        var k, found := Kept(idle, now, s.broken), Found(idle, now, s.broken);
        var next := s.(pools := s.pools[dsn := idle[..k]]);
        if found.Some? && k < |idle| then
          var gone := Conns(idle[k + 1..]);
          var moved := Moved(next, c, Running(dsn, found.value, true, []));
          Some(moved.(closed := s.closed + gone, broken := s.broken + gone))
        else
          var gone := Conns(idle);
          Some(Moved(next, c, Opening(dsn, [])).(closed := s.closed + gone, broken := s.broken + gone))
    case Open(c, got) =>
      if !At(s, c).Opening? then None
      else
        var pc := At(s, c);
        if got.None? then Some(Moved(s, c, Done(pc.log + [Attempt(false, ConnFails)])))
        else if got.value in s.origin then None
        else Some(Moved(s, c, Running(pc.dsn, got.value, false, pc.log)).(origin := s.origin[got.value := pc.dsn]))
    case Query(c, outcome) =>
      if !At(s, c).Running? then None
      else
        var pc := At(s, c);
        var log := pc.log + [Attempt(pc.reused, outcome)];
        if outcome.Rows? then Some(Moved(s, c, Releasing(pc.dsn, pc.conn, log)))
        else if outcome.OtherFails? && pc.log == [] then
          Some(Moved(s, c, Done(log)).(abandoned := s.abandoned + {pc.conn}))
        else
          var after := if pc.reused then Opening(pc.dsn, log) else Done(log);
          Some(Moved(s, c, after).(closed := s.closed + {pc.conn}, broken := s.broken + {pc.conn}))
    case Release(c, now) =>
      if !At(s, c).Releasing? then None
      else
        var pc := At(s, c);
        var idle := IdleOf(s.pools, pc.dsn);
        var r := AfterRelease(idle, pc.conn, true, now, s.broken);
        if r == idle then
          Some(Moved(s, c, Done(pc.log)).(closed := s.closed + {pc.conn}, broken := s.broken + {pc.conn}))
        else Some(Moved(s, c, Done(pc.log)).(pools := s.pools[pc.dsn := r]))
    case Break(conn) =>
      if conn !in s.origin then None else Some(s.(broken := s.broken + {conn}))
    case DrainPools =>
      Some(s.(pools := map[], closing := s.closing + AllIdle(s.pools)))
    case CloseOne(conn) =>
      if conn !in s.closing then None
      else Some(s.(closing := s.closing - {conn}, closed := s.closed + {conn}, broken := s.broken + {conn}))
    case Fork(c) =>
      // In the child only the forking thread lives on; it is not inside a read.
      if !At(s, c).Resting? && !At(s, c).Done? then None
      else Some(s.(pools := map[], callers := map[], closing := {},
                   left := s.left + AllIdle(s.pools) + AllHeld(s.callers) + s.closing))
  }

  function Start(): State {
    State(map[], map[], map[], {}, {}, {}, {}, {})
  }

  function RunSteps(s: State, steps: seq<Step>): Option<State> {
    RunAll(Apply, s, steps)
  }

  // ---------- where a connection is ----------

  datatype Place = Idle(dsn: Dsn, k: nat) | Held(who: CallerId) | Closing | Closed | Abandoned | Parent

  predicate IsAt(s: State, x: ConnId, p: Place) {
    match p
    case Idle(d, k) => k < |IdleOf(s.pools, d)| && IdleOf(s.pools, d)[k].conn == x
    case Held(c) => Holds(At(s, c), x)
    case Closing => x in s.closing
    case Closed => x in s.closed
    case Abandoned => x in s.abandoned
    case Parent => x in s.left
  }

  // Every connection ever opened is in exactly one place.
  ghost predicate OnePlaceEach(s: State) {
    && (forall x, p, q :: IsAt(s, x, p) && IsAt(s, x, q) ==> p == q)
    && (forall x, p :: IsAt(s, x, p) ==> x in s.origin)
    && (forall x <- s.origin.Keys :: exists p :: IsAt(s, x, p))
  }

  // No list is too long, and idle and held connections were opened for the DSN they
  // serve.
  ghost predicate ServesItsDsn(s: State) {
    && (forall d :: |IdleOf(s.pools, d)| <= MAX_IDLE)
    && (forall d :: OpenedFor(s.origin, IdleOf(s.pools, d), d))
    && (forall c: CallerId :: CallerServed(s.origin, At(s, c)))
  }

  predicate CallerServed(origin: map<ConnId, Dsn>, pc: Caller) {
    pc.Running? || pc.Releasing? ==> pc.conn in origin && origin[pc.conn] == pc.dsn
  }

  predicate OpenedFor(origin: map<ConnId, Dsn>, idle: seq<Entry>, dsn: Dsn) {
    forall e <- idle :: e.conn in origin && origin[e.conn] == dsn
  }

  predicate FailedReused(log: seq<Attempt>) {
    log == [Attempt(true, ConnFails)]
  }

  // A caller's attempts so far: at most one failed reused connection, then a fresh
  // one.
  predicate LogOk(pc: Caller) {
    match pc
    case Resting => true
    case Opening(_, log) => log == [] || FailedReused(log)
    case Running(_, _, reused, log) => log == [] || (FailedReused(log) && !reused)
    case Releasing(_, _, log) => RetriedOnce(log) && Result(log).Rows?
    case Done(log) => RetriedOnce(log)
  }

  ghost predicate LogsOk(s: State) {
    forall c: CallerId :: LogOk(At(s, c))
  }

  lemma StepKeepsLogs(s: State, step: Step)
    requires LogsOk(s) && Apply(s, step).Some?
    ensures LogsOk(Apply(s, step).value)
  {
    hide Kept, Found, Conns, AllIdle, AllHeld, AfterRelease;
    var next := Apply(s, step).value;
    forall c: CallerId ensures LogOk(At(next, c)) {
      assert LogOk(At(s, c));
    }
  }

  lemma AcquireKeepsDsn(s: State, c: CallerId, dsn: Dsn, now: real)
    requires ServesItsDsn(s) && Apply(s, Acquire(c, dsn, now)).Some?
    ensures ServesItsDsn(Apply(s, Acquire(c, dsn, now)).value)
  {
    var next := Apply(s, Acquire(c, dsn, now)).value;
    var idle := IdleOf(s.pools, dsn);
    FoundIsLastUsable(idle, now, s.broken);
    hide Kept, Found, Conns;
    var k := Kept(idle, now, s.broken);
    assert OpenedFor(s.origin, idle, dsn);
    assert k < |idle| ==> idle[k] in idle;
    assert forall e <- idle[..k] :: e in idle;
    forall u: CallerId ensures CallerServed(next.origin, At(next, u)) {
      assert CallerServed(s.origin, At(s, u));
    }
    forall d ensures |IdleOf(next.pools, d)| <= MAX_IDLE && OpenedFor(next.origin, IdleOf(next.pools, d), d) {
      assert d != dsn ==> IdleOf(next.pools, d) == IdleOf(s.pools, d);
    }
  }

  lemma ReleaseKeepsDsn(s: State, c: CallerId, now: real)
    requires ServesItsDsn(s) && Apply(s, Release(c, now)).Some?
    ensures ServesItsDsn(Apply(s, Release(c, now)).value)
  {
    var next := Apply(s, Release(c, now)).value;
    var dsn := At(s, c).dsn;
    forall u: CallerId ensures CallerServed(next.origin, At(next, u)) {
      assert CallerServed(s.origin, At(s, u));
    }
    forall d ensures |IdleOf(next.pools, d)| <= MAX_IDLE && OpenedFor(next.origin, IdleOf(next.pools, d), d) {
      assert d != dsn ==> IdleOf(next.pools, d) == IdleOf(s.pools, d);
      assert OpenedFor(s.origin, IdleOf(s.pools, d), d);
    }
  }

  lemma StepKeepsDsn(s: State, step: Step)
    requires ServesItsDsn(s) && Apply(s, step).Some?
    ensures ServesItsDsn(Apply(s, step).value)
  {
    if step.Acquire? {
      AcquireKeepsDsn(s, step.who, step.dsn, step.now);
    } else if step.Release? {
      ReleaseKeepsDsn(s, step.who, step.now);
    } else {
      OtherKeepsDsn(s, step);
    }
  }

  lemma OtherKeepsDsn(s: State, step: Step)
    requires ServesItsDsn(s) && Apply(s, step).Some? && !step.Acquire? && !step.Release?
    ensures ServesItsDsn(Apply(s, step).value)
  {
    hide AllIdle, AllHeld, AfterRelease, Conns, Kept, Found;
    var next := Apply(s, step).value;
    forall u: CallerId ensures CallerServed(next.origin, At(next, u)) {
      assert CallerServed(s.origin, At(s, u));
    }
    forall d ensures |IdleOf(next.pools, d)| <= MAX_IDLE && OpenedFor(next.origin, IdleOf(next.pools, d), d) {
      assert OpenedFor(s.origin, IdleOf(s.pools, d), d);
    }
  }

  // ---------- every step keeps one place for each connection ----------

  // Connections outside `moved` are where they were; each one in it is in one place.
  lemma Relocated(s: State, next: State, moved: set<ConnId>)
    requires OnePlaceEach(s)
    requires forall x :: x in next.origin <==> x in s.origin || x in moved
    requires forall x, p :: x !in moved ==> (IsAt(s, x, p) <==> IsAt(next, x, p))
    requires forall x, p, q :: x in moved && IsAt(next, x, p) && IsAt(next, x, q) ==> p == q
    requires forall x <- moved :: exists p :: IsAt(next, x, p)
    ensures OnePlaceEach(next)
  {
    hide IsAt;
    forall x <- next.origin.Keys ensures exists p :: IsAt(next, x, p) {
      if x !in moved {
        assert x in s.origin.Keys;
        var p :| IsAt(s, x, p);
        assert IsAt(next, x, p);
      }
    }
  }

  // The list of dsn was cut to k, the entries from m on were closed, and the one
  // between, if any, went to c, which held nothing.
  ghost predicate Taken(s: State, next: State, c: CallerId, dsn: Dsn, k: nat, m: nat) {
    var idle := IdleOf(s.pools, dsn);
    && k <= m <= |idle| && m <= k + 1
    && next.origin == s.origin && next.closing == s.closing && next.abandoned == s.abandoned && next.left == s.left
    && next.closed == s.closed + Conns(idle[m..])
    && (forall d :: IdleOf(next.pools, d) == if d == dsn then idle[..k] else IdleOf(s.pools, d))
    && (forall x :: !Holds(At(s, c), x))
    && (forall x :: Holds(At(next, c), x) <==> k < m && x == idle[k].conn)
    && (forall u: CallerId :: u != c ==> At(next, u) == At(s, u))
  }

  lemma TakenElsewhere(s: State, next: State, c: CallerId, dsn: Dsn, k: nat, m: nat, x: ConnId, p: Place)
    requires Taken(s, next, c, dsn, k, m) && x !in Conns(IdleOf(s.pools, dsn)[k..])
    ensures IsAt(s, x, p) <==> IsAt(next, x, p)
  {
    var idle := IdleOf(s.pools, dsn);
    forall j | k <= j < |idle| ensures idle[j].conn != x {
      assert idle[k..][j - k] == idle[j];
      assert idle[j] in idle[k..];
    }
    forall e <- idle[m..] ensures e in idle[k..] {
      var j :| 0 <= j < |idle[m..]| && idle[m..][j] == e;
      assert idle[k..][m - k + j] == e;
    }
  }

  lemma TakenMoved(s: State, next: State, c: CallerId, dsn: Dsn, k: nat, m: nat, j: nat)
    requires OnePlaceEach(s) && Taken(s, next, c, dsn, k, m) && k <= j < |IdleOf(s.pools, dsn)|
    ensures var x := IdleOf(s.pools, dsn)[j].conn;
            forall p :: IsAt(next, x, p) <==> p == if j < m then Held(c) else Closed
  {
    var idle := IdleOf(s.pools, dsn);
    var x := idle[j].conn;
    assert IsAt(s, x, Idle(dsn, j));
    if j >= m {
      assert idle[m..][j - m] == idle[j];
      assert idle[j] in idle[m..];
    } else if x in Conns(idle[m..]) {
      var i :| 0 <= i < |idle[m..]| && idle[m..][i].conn == x;
      assert IsAt(s, x, Idle(dsn, m + i));
    }
    assert IsAt(next, x, if j < m then Held(c) else Closed);
    forall p | IsAt(next, x, p) ensures p == if j < m then Held(c) else Closed {
      match p
      case Closed => assert !IsAt(s, x, Closed);
      case Held(u) =>
        assert u != c ==> IsAt(s, x, Held(u));
        assert u == c ==> IsAt(s, x, Idle(dsn, k));
      case Idle(d, i) => assert IsAt(s, x, Idle(d, i));
      case _ => assert IsAt(s, x, p);
    }
  }

  lemma TakenKeeps(s: State, next: State, c: CallerId, dsn: Dsn, k: nat, m: nat)
    requires OnePlaceEach(s) && Taken(s, next, c, dsn, k, m)
    ensures OnePlaceEach(next)
  {
    var idle := IdleOf(s.pools, dsn);
    var moved := Conns(idle[k..]);
    forall x, p | x !in moved ensures IsAt(s, x, p) <==> IsAt(next, x, p) {
      TakenElsewhere(s, next, c, dsn, k, m, x, p);
    }
    forall x <- moved
      ensures x in s.origin
      ensures exists p :: IsAt(next, x, p)
      ensures forall p, q :: IsAt(next, x, p) && IsAt(next, x, q) ==> p == q
    {
      var i :| 0 <= i < |idle[k..]| && idle[k..][i].conn == x;
      assert idle[k + i].conn == x;
      assert IsAt(s, x, Idle(dsn, k + i));
      TakenMoved(s, next, c, dsn, k, m, k + i);
      assert IsAt(next, x, if k + i < m then Held(c) else Closed);
    }
    hide IsAt, Taken, Conns;
    Relocated(s, next, moved);
  }

  lemma KeptBounds(idle: seq<Entry>, now: real, broken: set<ConnId>)
    ensures var k, found := Kept(idle, now, broken), Found(idle, now, broken);
            if found.Some? then k < |idle| && found.value == idle[k].conn else k == 0
  {
    FoundIsLastUsable(idle, now, broken);
  }

  lemma AcquireTakes(s: State, c: CallerId, dsn: Dsn, now: real)
    requires Apply(s, Acquire(c, dsn, now)).Some?
    ensures var idle := IdleOf(s.pools, dsn);
            var k := Kept(idle, now, s.broken);
            var m := if Found(idle, now, s.broken).Some? then k + 1 else 0;
            Taken(s, Apply(s, Acquire(c, dsn, now)).value, c, dsn, k, m)
  {
    var idle := IdleOf(s.pools, dsn);
    KeptBounds(idle, now, s.broken);
    hide Kept, Found, Conns;
    assert idle[0..] == idle;
  }

  lemma AcquireKeeps(s: State, c: CallerId, dsn: Dsn, now: real)
    requires OnePlaceEach(s) && Apply(s, Acquire(c, dsn, now)).Some?
    ensures OnePlaceEach(Apply(s, Acquire(c, dsn, now)).value)
  {
    hide *;
    AcquireTakes(s, c, dsn, now);
    var idle := IdleOf(s.pools, dsn);
    var k := Kept(idle, now, s.broken);
    TakenKeeps(s, Apply(s, Acquire(c, dsn, now)).value, c, dsn, k,
               if Found(idle, now, s.broken).Some? then k + 1 else 0);
  }

  // One connection moved from one place to another, and nothing else did.
  lemma OneMoved(s: State, next: State, x: ConnId, was: Place, now: Place)
    requires OnePlaceEach(s) && next.origin == s.origin && IsAt(s, x, was)
    requires forall y, p :: IsAt(next, y, p) <==> if y == x then p == now else IsAt(s, y, p)
    ensures OnePlaceEach(next)
  {
    hide IsAt;
    assert IsAt(next, x, now);
    Relocated(s, next, {x});
  }

  lemma QueryKeeps(s: State, c: CallerId, outcome: Outcome)
    requires OnePlaceEach(s) && Apply(s, Query(c, outcome)).Some?
    ensures OnePlaceEach(Apply(s, Query(c, outcome)).value)
  {
    var next := Apply(s, Query(c, outcome)).value;
    var x := At(s, c).conn;
    var now := if outcome.Rows? then Held(c)
               else if outcome.OtherFails? && At(s, c).log == [] then Abandoned
               else Closed;
    assert IsAt(s, x, Held(c));
    forall y, p ensures IsAt(next, y, p) <==> if y == x then p == now else IsAt(s, y, p) {
      if y == x {
        assert p != Held(c) ==> !IsAt(s, x, p);
      }
    }
    OneMoved(s, next, x, Held(c), now);
  }

  lemma ReleaseKeeps(s: State, c: CallerId, at: real)
    requires OnePlaceEach(s) && Apply(s, Release(c, at)).Some?
    ensures OnePlaceEach(Apply(s, Release(c, at)).value)
  {
    var next := Apply(s, Release(c, at)).value;
    var pc := At(s, c);
    var x := pc.conn;
    var idle := IdleOf(s.pools, pc.dsn);
    var now := if IdleOf(next.pools, pc.dsn) == idle then Closed else Idle(pc.dsn, |idle|);
    assert IsAt(s, x, Held(c));
    hide OnePlaceEach;
    OnlyAt(s, x, Held(c));
    forall y, p ensures IsAt(next, y, p) <==> if y == x then p == now else IsAt(s, y, p) {
      assert y == x && p != Held(c) ==> !IsAt(s, x, p);
    }
    OneMoved(s, next, x, Held(c), now);
  }

  lemma OnlyAt(s: State, x: ConnId, p: Place)
    requires OnePlaceEach(s) && IsAt(s, x, p)
    ensures forall q :: q != p ==> !IsAt(s, x, q)
  {
    hide IsAt;
  }

  lemma CloseOneKeeps(s: State, x: ConnId)
    requires OnePlaceEach(s) && Apply(s, CloseOne(x)).Some?
    ensures OnePlaceEach(Apply(s, CloseOne(x)).value)
  {
    var next := Apply(s, CloseOne(x)).value;
    assert IsAt(s, x, Closing);
    OnlyAt(s, x, Closing);
    hide OnePlaceEach;
    forall y, p ensures IsAt(next, y, p) <==> if y == x then p == Closed else IsAt(s, y, p) {
      assert y == x && p != Closing ==> !IsAt(s, x, p);
    }
    OneMoved(s, next, x, Closing, Closed);
  }

  lemma OpenKeeps(s: State, c: CallerId, got: Option<ConnId>)
    requires OnePlaceEach(s) && Apply(s, Open(c, got)).Some?
    ensures OnePlaceEach(Apply(s, Open(c, got)).value)
  {
    var next := Apply(s, Open(c, got)).value;
    var moved := if got.Some? then {got.value} else {};
    forall y, p ensures IsAt(next, y, p) <==> if y in moved then p == Held(c) else IsAt(s, y, p) {
      assert y in moved ==> !IsAt(s, y, p);
    }
    assert got.Some? ==> IsAt(next, got.value, Held(c));
    hide IsAt;
    Relocated(s, next, moved);
  }

  // Everything idle, held or closing went to one of the places outside the pool.
  lemma SweptKeeps(s: State, next: State, swept: set<ConnId>, now: Place)
    requires OnePlaceEach(s) && next.origin == s.origin && swept <= s.origin.Keys
    requires forall x, p :: x in swept ==> (IsAt(next, x, p) <==> p == now)
    requires forall x, p :: x !in swept ==> (IsAt(next, x, p) <==> IsAt(s, x, p))
    ensures OnePlaceEach(next)
  {
    hide IsAt;
    forall x <- swept ensures exists p :: IsAt(next, x, p) {
      assert IsAt(next, x, now);
    }
    Relocated(s, next, swept);
  }

  lemma IdleIsAt(s: State)
    ensures forall x :: x in AllIdle(s.pools) <==> exists d, k: nat :: IsAt(s, x, Idle(d, k))
    ensures forall x :: x in AllHeld(s.callers) <==> exists c: CallerId :: IsAt(s, x, Held(c))
  {
    forall x ensures x in AllIdle(s.pools) <==> exists d, k: nat :: IsAt(s, x, Idle(d, k)) {
      if x in AllIdle(s.pools) {
        var d, e :| d in s.pools && e in s.pools[d] && e.conn == x;
        var k :| 0 <= k < |s.pools[d]| && s.pools[d][k] == e;
        assert IsAt(s, x, Idle(d, k));
      }
    }
    forall x ensures x in AllHeld(s.callers) <==> exists c: CallerId :: IsAt(s, x, Held(c)) {
      if x in AllHeld(s.callers) {
        var c :| c in s.callers && Holds(s.callers[c], x);
        assert IsAt(s, x, Held(c));
      }
    }
  }

  lemma DrainKeeps(s: State)
    requires OnePlaceEach(s)
    ensures OnePlaceEach(Apply(s, DrainPools).value)
  {
    var next := Apply(s, DrainPools).value;
    var swept := AllIdle(s.pools);
    IdleIsAt(s);
    hide AllIdle, AllHeld;
    forall x | x in swept
      ensures x in s.origin
      ensures forall p :: IsAt(next, x, p) <==> p == Closing
    {
      var d, k: nat :| IsAt(s, x, Idle(d, k));
      OnlyAt(s, x, Idle(d, k));
      forall p ensures IsAt(next, x, p) <==> p == Closing {
        assert p != Idle(d, k) ==> !IsAt(s, x, p);
      }
    }
    hide OnePlaceEach;
    forall x, p | x !in swept ensures IsAt(next, x, p) <==> IsAt(s, x, p) {
      assert p.Idle? ==> !IsAt(s, x, Idle(p.dsn, p.k));
    }
    SweptKeeps(s, next, swept, Closing);
  }

  lemma ForkKeeps(s: State, c: CallerId)
    requires OnePlaceEach(s) && Apply(s, Fork(c)).Some?
    ensures OnePlaceEach(Apply(s, Fork(c)).value)
  {
    var next := Apply(s, Fork(c)).value;
    var swept := AllIdle(s.pools) + AllHeld(s.callers) + s.closing;
    IdleIsAt(s);
    hide AllIdle, AllHeld;
    forall x | x in swept
      ensures x in s.origin
      ensures forall p :: IsAt(next, x, p) <==> p == Parent
    {
      var was: Place;
      if x in AllIdle(s.pools) {
        var d, k: nat :| IsAt(s, x, Idle(d, k));
        was := Idle(d, k);
      } else if x in AllHeld(s.callers) {
        var u: CallerId :| IsAt(s, x, Held(u));
        was := Held(u);
      } else {
        was := Closing;
      }
      assert IsAt(s, x, was);
      OnlyAt(s, x, was);
      forall p ensures IsAt(next, x, p) <==> p == Parent {
        assert p != was ==> !IsAt(s, x, p);
      }
    }
    hide OnePlaceEach;
    forall x, p | x !in swept ensures IsAt(next, x, p) <==> IsAt(s, x, p) {
      assert p.Idle? ==> !IsAt(s, x, Idle(p.dsn, p.k));
      assert p.Held? ==> !IsAt(s, x, Held(p.who));
    }
    SweptKeeps(s, next, swept, Parent);
  }

  lemma StepKeepsPlaces(s: State, step: Step)
    requires OnePlaceEach(s) && Apply(s, step).Some?
    ensures OnePlaceEach(Apply(s, step).value)
  {
    match step
    case Acquire(c, dsn, now) => AcquireKeeps(s, c, dsn, now);
    case Open(c, got) => OpenKeeps(s, c, got);
    case Query(c, outcome) => QueryKeeps(s, c, outcome);
    case Release(c, now) => ReleaseKeeps(s, c, now);
    case Break(conn) =>
      hide IsAt;
      assert forall x, p :: IsAt(Apply(s, step).value, x, p) == IsAt(s, x, p);
    case DrainPools => DrainKeeps(s);
    case CloseOne(conn) => CloseOneKeeps(s, conn);
    case Fork(c) => ForkKeeps(s, c);
  }

  // ---------- over every run ----------

  ghost predicate Inv(s: State) {
    OnePlaceEach(s) && ServesItsDsn(s) && LogsOk(s)
  }

  lemma {:induction false} RunKeeps(s: State, steps: seq<Step>)
    requires Inv(s) && RunSteps(s, steps).Some?
    ensures Inv(RunSteps(s, steps).value)
    decreases |steps|
  {
    hide OnePlaceEach, ServesItsDsn, LogsOk, Apply;
    if steps != [] {
      StepKeepsPlaces(s, steps[0]);
      StepKeepsDsn(s, steps[0]);
      StepKeepsLogs(s, steps[0]);
      RunKeeps(Apply(s, steps[0]).value, steps[1..]);
    }
  }

  ghost predicate Reachable(s: State) {
    exists steps :: RunSteps(Start(), steps) == Some(s)
  }

  // In every reachable state each connection ever opened is in exactly one place:
  // one entry of one list, one caller, being closed, closed, abandoned, or left to
  // the parent. So no two callers ever share a connection.
  lemma EachConnectionHasOnePlace(s: State)
    requires Reachable(s)
    ensures OnePlaceEach(s)
    ensures forall x, c: CallerId, u: CallerId :: Holds(At(s, c), x) && Holds(At(s, u), x) ==> c == u
  {
    var steps :| RunSteps(Start(), steps) == Some(s);
    hide RunSteps;
    RunKeeps(Start(), steps);
    forall x, c: CallerId, u: CallerId | Holds(At(s, c), x) && Holds(At(s, u), x) ensures c == u {
      assert IsAt(s, x, Held(c)) && IsAt(s, x, Held(u));
    }
  }

  // No list is longer than 8, and a caller only ever runs on a connection that was
  // opened for its DSN.
  lemma ListsAreBoundedAndServeTheirDsn(s: State)
    requires Reachable(s)
    ensures forall d :: |IdleOf(s.pools, d)| <= 8
    ensures forall c: CallerId :: At(s, c).Running? ==>
              At(s, c).conn in s.origin && s.origin[At(s, c).conn] == At(s, c).dsn
  {
    var steps :| RunSteps(Start(), steps) == Some(s);
    hide RunSteps, OnePlaceEach, LogsOk;
    RunKeeps(Start(), steps);
    assert forall c: CallerId :: CallerServed(s.origin, At(s, c));
  }

  // Only a failed reused connection is retried, and once; so a caller whose fresh
  // connections work gets its rows, whatever the idle ones do, unless the query on a
  // reused one fails for another reason.
  lemma FinishedCallersRetriedOnce(s: State, c: CallerId)
    requires Reachable(s) && At(s, c).Done?
    ensures RetriedOnce(At(s, c).log)
    ensures FreshWorks(At(s, c).log) ==> Result(At(s, c).log).Rows? || At(s, c).log == [Attempt(true, OtherFails)]
  {
    var steps :| RunSteps(Start(), steps) == Some(s);
    hide RunSteps, OnePlaceEach, ServesItsDsn, RetriedOnce, FreshWorks;
    RunKeeps(Start(), steps);
    assert LogOk(At(s, c));
    if FreshWorks(At(s, c).log) {
      FreshIsEnough(At(s, c).log);
    }
  }

  // ---------- connections that are gone ----------

  predicate Gone(p: Place) {
    p.Closed? || p.Abandoned? || p.Parent?
  }

  lemma StepKeepsGone(s: State, step: Step, x: ConnId, p: Place)
    requires Apply(s, step).Some? && Gone(p) && IsAt(s, x, p)
    ensures IsAt(Apply(s, step).value, x, p)
  {
    hide Kept, Found, Conns, AllIdle, AllHeld, AfterRelease;
  }

  // A connection that is closed, abandoned or the parent's stays that, so it is
  // never handed out or queried again.
  lemma {:induction false} GoneStaysGone(s: State, steps: seq<Step>, x: ConnId, p: Place)
    requires RunSteps(s, steps).Some? && Gone(p) && IsAt(s, x, p)
    ensures IsAt(RunSteps(s, steps).value, x, p)
    decreases |steps|
  {
    hide Apply, IsAt, Gone;
    if steps != [] {
      StepKeepsGone(s, steps[0], x, p);
      GoneStaysGone(Apply(s, steps[0]).value, steps[1..], x, p);
    }
  }

  // The step in which a caller's first query fails for another reason than its
  // connection.
  predicate FirstFailsOtherwise(s: State, step: Step) {
    step.Query? && step.outcome.OtherFails? && At(s, step.who).Running? && At(s, step.who).log == []
  }

  function FirstOtherFailures(s: State, steps: seq<Step>): nat
    decreases |steps|
  {
    if steps == [] || Apply(s, steps[0]).None? then 0
    else (if FirstFailsOtherwise(s, steps[0]) then 1 else 0) + FirstOtherFailures(Apply(s, steps[0]).value, steps[1..])
  }

  lemma OnlyQueriesAbandon(s: State, step: Step)
    requires Apply(s, step).Some? && !step.Query?
    ensures Apply(s, step).value.abandoned == s.abandoned
  {
    hide Kept, Found, Conns, AllIdle, AllHeld, AfterRelease;
  }

  lemma StepAbandons(s: State, step: Step)
    requires OnePlaceEach(s) && Apply(s, step).Some?
    ensures |Apply(s, step).value.abandoned| == |s.abandoned| + if FirstFailsOtherwise(s, step) then 1 else 0
  {
    if !step.Query? {
      OnlyQueriesAbandon(s, step);
      hide Apply;
    } else {
      var pc := At(s, step.who);
      assert IsAt(s, pc.conn, Held(step.who));
      OnlyAt(s, pc.conn, Held(step.who));
      assert !IsAt(s, pc.conn, Abandoned);
      hide OnePlaceEach;
    }
  }

  // As many connections are abandoned as first queries failed for another reason
  // than their connection: nothing else leaks one.
  lemma {:induction false} AbandonedAreFirstOtherFailures(s: State, steps: seq<Step>)
    requires Inv(s) && RunSteps(s, steps).Some?
    ensures |RunSteps(s, steps).value.abandoned| == |s.abandoned| + FirstOtherFailures(s, steps)
    decreases |steps|
  {
    hide OnePlaceEach, ServesItsDsn, LogsOk, Apply, FirstFailsOtherwise;
    if steps != [] {
      StepAbandons(s, steps[0]);
      StepKeepsPlaces(s, steps[0]);
      StepKeepsDsn(s, steps[0]);
      StepKeepsLogs(s, steps[0]);
      AbandonedAreFirstOtherFailures(Apply(s, steps[0]).value, steps[1..]);
    }
  }

  lemma StartIsOk()
    ensures Inv(Start())
  {
  }
}
