// A read never gets stuck and comes to its end, whatever other callers, pool closes,
// forks and breaking connections do meanwhile; and where closing the pool and
// forking move the connections.
module ReadPoolProgress {
  import opened ReadPool
  import opened ReadPoolProtocol
  import opened Runs
  import opened Text

  // The steps of c after it acquired.
  predicate IsOwn(c: CallerId, step: Step) {
    match step
    case Open(who, _) => who == c
    case Query(who, _) => who == c
    case Release(who, _) => who == c
    case _ => false
  }

  // ---------- never stuck ----------

  lemma {:induction false} FreshId(used: set<ConnId>) returns (x: ConnId)
    ensures forall y <- used :: y < x
  {
    if used == {} {
      x := 0;
    } else {
      var y :| y in used;
      var above := FreshId(used - {y});
      x := if above > y then above else y + 1;
      assert forall z <- used :: z == y || z in used - {y};
    }
  }

  // In every state a caller inside a read can take its next step, and one that opens
  // can get a connection nobody ever had.
  lemma CallerCanGoOn(s: State, c: CallerId, now: real) returns (step: Step)
    requires !At(s, c).Resting? && !At(s, c).Done?
    ensures IsOwn(c, step) && Apply(s, step).Some?
    ensures At(s, c).Opening? ==> step.Open? && step.got.Some? && step.got.value !in s.origin
    ensures At(s, c).Running? ==> step == Query(c, Rows)
  {
    hide AfterRelease;
    match At(s, c) {
      case Opening(_, _) =>
        var x := FreshId(s.origin.Keys);
        step := Open(c, Some(x));
      case Running(_, _, _, _) => step := Query(c, Rows);
      case Releasing(_, _, _) => step := Release(c, now);
    }
  }

  // ---------- it ends ----------

  // A bound on the steps left: a reused connection may still be followed by a fresh
  // one.
  function StepsLeft(pc: Caller): nat {
    match pc
    case Resting => 0
    case Opening(_, _) => 3
    case Running(_, _, reused, _) => if reused then 4 else 2
    case Releasing(_, _, _) => 1
    case Done(_) => 0
  }

  predicate NotAcquiring(c: CallerId, step: Step) {
    step.Acquire? ==> step.who != c
  }

  lemma StepCountsDown(s: State, c: CallerId, step: Step)
    requires NotAcquiring(c, step) && Apply(s, step).Some?
    ensures StepsLeft(At(Apply(s, step).value, c)) + (if IsOwn(c, step) then 1 else 0) <= StepsLeft(At(s, c))
  {
    hide Kept, Found, Conns, AllIdle, AllHeld, AfterRelease;
  }

  // After acquiring, a read takes at most four steps, whatever happens in between.
  lemma ReadEnds(s: State, c: CallerId, steps: seq<Step>)
    requires (forall step <- steps :: NotAcquiring(c, step)) && RunSteps(s, steps).Some?
    ensures Counted(step => IsOwn(c, step), steps) <= 4
  {
    var any := (x: State) => true;
    var left := (x: State) => StepsLeft(At(x, c));
    var own, allowed := step => IsOwn(c, step), step => NotAcquiring(c, step);
    forall x: State, t: Step | any(x) && allowed(t) && Apply(x, t).Some?
      ensures var next := Apply(x, t).value;
              any(next) && left(next) + (if own(t) then 1 else 0) <= left(x)
    {
      StepCountsDown(x, c, t);
    }
    StepsAreBounded(Apply, any, allowed, own, left, s, steps);
  }

  // ---------- breaking connections ----------

  // A connection may break at any moment, without a sign but its closed flag; once it
  // has, no acquire hands it out.
  lemma BrokenIsNotHandedOut(s: State, x: ConnId, c: CallerId, dsn: Dsn, now: real)
    requires x in s.origin
    ensures Apply(s, Break(x)) == Some(s.(broken := s.broken + {x}))
    ensures (At(s, c).Resting? || At(s, c).Done?) ==>
              var next := Apply(s, Break(x)).value;
              var taken := Apply(next, Acquire(c, dsn, now));
              && taken.Some?
              && var pc := At(taken.value, c); pc.Opening? || (pc.Running? && pc.conn != x)
  {
    var broken := s.broken + {x};
    FoundIsLastUsable(IdleOf(s.pools, dsn), now, broken);
    hide Kept, Found, Conns;
  }

  // ---------- closing the pool, and forking ----------

  // Closing the pool takes exactly the idle connections, to be closed; all others
  // stay where they are, and each of the taken ones can be closed.
  lemma ClosingTakesTheIdle(s: State, x: ConnId)
    requires Reachable(s)
    ensures Apply(s, DrainPools).Some?
    ensures var next := Apply(s, DrainPools).value;
            if x in AllIdle(s.pools) then
              && IsAt(next, x, Closing) && Apply(next, CloseOne(x)).Some?
              && IsAt(Apply(next, CloseOne(x)).value, x, Closed)
            else forall p :: IsAt(next, x, p) <==> IsAt(s, x, p)
  {
    EachConnectionHasOnePlace(s);
    IdleIsAt(s);
    hide AllIdle, OnePlaceEach, Reachable;
    var next := Apply(s, DrainPools).value;
    if x !in AllIdle(s.pools) {
      forall p ensures IsAt(next, x, p) <==> IsAt(s, x, p) {
        assert p.Idle? ==> !IsAt(s, x, Idle(p.dsn, p.k));
      }
    }
  }

  // A fork leaves every connection that is idle, held or about to be closed to the
  // parent, untouched; those already closed or abandoned stay so.
  lemma ForkingLeavesTheRest(s: State, c: CallerId, x: ConnId)
    requires Reachable(s) && (At(s, c).Resting? || At(s, c).Done?) && x in s.origin
    ensures Apply(s, Fork(c)).Some?
    ensures var next := Apply(s, Fork(c)).value;
            && (IsAt(next, x, Closed) <==> IsAt(s, x, Closed)) && (IsAt(next, x, Abandoned) <==> IsAt(s, x, Abandoned))
            && (IsAt(next, x, Parent) <==> !IsAt(s, x, Closed) && !IsAt(s, x, Abandoned))
            && next.pools == map[] && forall u: CallerId :: At(next, u).Resting?
  {
    EachConnectionHasOnePlace(s);
    IdleIsAt(s);
    var p :| IsAt(s, x, p);
    OnlyAt(s, x, p);
    hide AllIdle, AllHeld, OnePlaceEach, Reachable;
    if p.Idle? {
      assert IsAt(s, x, Idle(p.dsn, p.k)) && x in AllIdle(s.pools);
    } else if p.Held? {
      assert IsAt(s, x, Held(p.who)) && x in AllHeld(s.callers);
    }
    assert x in AllIdle(s.pools) <==> p.Idle?;
    assert x in AllHeld(s.callers) <==> p.Held?;
    assert IsAt(s, x, Closing) <==> p == Closing;
    assert IsAt(s, x, Closed) <==> p == Closed;
    assert IsAt(s, x, Abandoned) <==> p == Abandoned;
    assert IsAt(s, x, Parent) <==> p == Parent;
  }
}
