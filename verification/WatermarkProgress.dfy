// A wrapper that holds the lock never gets stuck and comes to its end, whatever the
// source and the other wrappers do meanwhile; and what dying at any point loses.
module WatermarkProgress {
  import opened Runs
  import opened Text
  import opened Watermark

  // The steps of w, but for taking the lock.
  predicate IsOwn(w: WrapperId, step: Step) {
    match step
    case ReadLastSeen(who) => who == w
    case ReadHighWater(who, _) => who == w
    case SelectWindow(who) => who == w
    case IngestRow(who, _) => who == w
    case IngestFails(who) => who == w
    case IngestSucceeds(who) => who == w
    case WriteCursor(who) => who == w
    case Unlock(who) => who == w
    case Crash(who) => who == w
    case _ => false
  }

  // Nothing went wrong in this step.
  predicate GoesWell(step: Step) {
    !step.IngestFails? && !step.Crash? && !step.LoseLock?
  }

  // ---------- never stuck ----------

  // Rows still to be ingested were selected.
  predicate Shaped(s: System) {
    forall w <- s.wrappers.Keys :: s.wrappers[w].Ingesting? ==> s.wrappers[w].left <= s.wrappers[w].snapshot.Keys
  }

  lemma StepKeepsShape(f: Faults, s: System, step: Step)
    requires Shaped(s) && Apply(f, s, step).Some?
    ensures Shaped(Apply(f, s, step).value)
  {
    hide IsHighWater, Selected, MaxSeen, LowerBound;
  }

  lemma {:induction false} RunKeepsShape(f: Faults, s: System, steps: seq<Step>)
    requires Shaped(s) && RunSteps(f, s, steps).Some?
    ensures Shaped(RunSteps(f, s, steps).value)
    decreases |steps|
  {
    hide Shaped, Apply;
    if steps != [] {
      StepKeepsShape(f, s, steps[0]);
      RunKeepsShape(f, Apply(f, s, steps[0]).value, steps[1..]);
    }
  }

  lemma ReachedIsShaped(f: Faults, s: System)
    requires Reachable(f, s)
    ensures Shaped(s)
  {
    var steps :| RunSteps(f, Start(), steps) == Some(s);
    RunKeepsShape(f, Start(), steps);
  }

  lemma {:induction false} SomeHighWater(rows: map<RowId, Row>) returns (high: Option<int>)
    ensures IsHighWater(rows, high)
    decreases |rows|
  {
    if rows == map[] {
      high := None;
    } else {
      var id :| id in rows;
      var others := rows - {id};
      var rest := SomeHighWater(others);
      high := if rest.Some? && rest.value > rows[id].stamp then rest else Some(rows[id].stamp);
      assert id in rows.Keys && forall x <- others.Keys :: x in rows.Keys && rows[x] == others[x];
      assert forall x <- rows.Keys :: x == id || x in others.Keys;
      assert rest.None? ==> others.Keys == {};
    }
  }

  // In every reachable state a wrapper that took the lock can go on, without anything
  // going wrong.
  lemma WrapperCanGoOn(f: Faults, s: System, w: WrapperId) returns (step: Step)
    requires Reachable(f, s) && !At(s, w).Away?
    ensures IsOwn(w, step) && GoesWell(step) && Apply(f, s, step).Some?
  {
    ReachedIsShaped(f, s);
    hide IsHighWater, Selected;
    match At(s, w) {
      case Locked => step := ReadLastSeen(w);
      case KnowsCursor(_) =>
        var high := SomeHighWater(s.rows);
        step := ReadHighWater(w, high);
      case Windowed(_) => step := SelectWindow(w);
      case Ingesting(_, snapshot, left) =>
        if left == {} {
          step := IngestSucceeds(w);
        } else {
          var id :| id in left;
          step := IngestRow(w, id);
        }
      case Ingested(_) => step := WriteCursor(w);
      case Finished => step := Unlock(w);
    }
  }

  // ---------- it ends ----------

  // A bound on the steps w still takes once its rows are selected.
  function StepsLeft(pc: Wrapper): nat {
    match pc
    case Ingesting(_, _, left) => |left| + 3
    case Ingested(_) => 2
    case Finished => 1
    case _ => 0
  }

  predicate HasSelected(pc: Wrapper) {
    pc.Away? || pc.Ingesting? || pc.Ingested? || pc.Finished?
  }

  predicate NotLocking(w: WrapperId, step: Step) {
    step != TryLock(w)
  }

  lemma OthersLeaveAlone(f: Faults, s: System, w: WrapperId, step: Step)
    requires NotLocking(w, step) && !IsOwn(w, step) && Apply(f, s, step).Some?
    ensures At(Apply(f, s, step).value, w) == At(s, w)
  {
    hide IsHighWater, Selected, MaxSeen, LowerBound;
  }

  lemma OwnCountsDown(f: Faults, s: System, w: WrapperId, step: Step)
    requires HasSelected(At(s, w)) && IsOwn(w, step) && Apply(f, s, step).Some?
    ensures var next := At(Apply(f, s, step).value, w);
            HasSelected(next) && StepsLeft(next) + 1 <= StepsLeft(At(s, w))
  {
    hide IsHighWater, Selected, MaxSeen, LowerBound;
  }

  // Once its n rows are selected, a wrapper takes at most n + 3 more steps before it
  // is out of the lock's block, whatever the others do in between.
  lemma WrapperEnds(f: Faults, s: System, w: WrapperId, steps: seq<Step>)
    requires At(s, w).Ingesting? && (forall step <- steps :: NotLocking(w, step)) && RunSteps(f, s, steps).Some?
    ensures Counted(step => IsOwn(w, step), steps) <= |At(s, w).left| + 3
  {
    var inv := (x: System) => HasSelected(At(x, w));
    var left := (x: System) => StepsLeft(At(x, w));
    var own, allowed := step => IsOwn(w, step), step => NotLocking(w, step);
    forall x: System, t: Step | inv(x) && allowed(t) && Stepper(f)(x, t).Some?
      ensures var next := Stepper(f)(x, t).value;
              inv(next) && left(next) + (if own(t) then 1 else 0) <= left(x)
    {
      if IsOwn(w, t) {
        OwnCountsDown(f, x, w, t);
      } else {
        OthersLeaveAlone(f, x, w, t);
      }
    }
    StepsAreBounded(Stepper(f), inv, allowed, own, left, s, steps);
  }

  // ---------- what dying loses ----------

  // A wrapper may die at any point, and so may its ingest: the lock it held is free,
  // and cursor, target and the other wrappers are as they were.
  lemma DyingFreesTheLock(f: Faults, s: System, w: WrapperId)
    requires !At(s, w).Away?
    ensures Apply(f, s, Crash(w)).Some?
    ensures var next := Apply(f, s, Crash(w)).value;
            && At(next, w).Away? && next.lock != Some(w) && (s.lock != Some(w) ==> next.lock == s.lock)
            && next.cursor == s.cursor && next.target == s.target && next.rows == s.rows
            && forall u: WrapperId :: u != w ==> At(next, u) == At(s, u)
    ensures At(s, w).Windowed? || At(s, w).Ingesting? ==> Apply(f, s, IngestFails(w)) == Apply(f, s, Crash(w))
  {
  }

  // Only writing it moves the cursor, to the end of a wrapper's window; only ingesting
  // a row touches the target, and only the source its rows. A lock that is taken went
  // to a wrapper that found it free.
  lemma OnlyWritingMovesTheCursor(f: Faults, s: System, step: Step)
    requires Apply(f, s, step).Some?
    ensures var next := Apply(f, s, step).value;
            && (!step.WriteCursor? ==> next.cursor == s.cursor)
            && (step.WriteCursor? ==> At(s, step.who).Ingested? && next.cursor == Some(At(s, step.who).window.hi))
            && (!step.IngestRow? ==> next.target == s.target)
            && (!step.SourceWrite? && !step.SourceRemove? ==> next.rows == s.rows)
            && (next.lock.Some? && next.lock != s.lock ==> s.lock.None? && step == TryLock(next.lock.value))
  {
    hide IsHighWater, Selected, MaxSeen, LowerBound;
  }
}
