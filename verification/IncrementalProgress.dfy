// An ingest run never gets stuck and comes to its end, whatever happens to the files
// meanwhile; and what its steps leave alone.
module IncrementalProgress {
  import opened Runs
  import opened Text
  import opened IncrementalRun
  import IncrementalGuarantees

  // The steps a run takes by itself once it has begun.
  predicate IsOwn(step: Step) {
    !step.Edit? && !step.Remove? && !step.Begin? && !step.Stop?
  }

  // ---------- never stuck ----------

  predicate Shaped(w: World) {
    && (w.run.Hashed? || w.run.Parsed? || w.run.Wrote? ==> w.run.todo != [])
    && (w.run.TempWritten? ==> w.temp == Full(w.run.newCursor))
  }

  lemma StepKeepsShape(st: Settings, w: World, step: Step)
    requires Shaped(w) && Apply(st, w, step).Some?
    ensures Shaped(Apply(st, w, step).value)
  {
    hide Put, Distinct;
  }

  lemma {:induction false} RunKeepsShape(st: Settings, w: World, steps: seq<Step>)
    requires Shaped(w) && RunSteps(st, w, steps).Some?
    ensures Shaped(RunSteps(st, w, steps).value)
    decreases |steps|
  {
    hide Shaped, Apply;
    if steps != [] {
      StepKeepsShape(st, w, steps[0]);
      RunKeepsShape(st, Apply(st, w, steps[0]).value, steps[1..]);
    }
  }

  lemma ReachedIsShaped(st: Settings, w: World)
    requires IncrementalGuarantees.Reaches(st, Start(), w)
    ensures Shaped(w)
  {
    var steps :| RunSteps(st, Start(), steps) == Some(w);
    RunKeepsShape(st, Start(), steps);
  }

  lemma {:induction false} SomeListing(ps: set<Path>) returns (paths: seq<Path>)
    ensures Distinct(paths) && (set p | p in paths) == ps
  {
    if ps == {} {
      paths := [];
    } else {
      var p :| p in ps;
      var rest := SomeListing(ps - {p});
      paths := [p] + rest;
      forall i, j | 0 <= i < j < |paths| ensures paths[i] != paths[j] {
        assert paths[j] == rest[j - 1] && rest[j - 1] in (set q | q in rest);
      }
      assert (set q | q in paths) == {p} + (set q | q in rest);
    }
  }

  // In every reachable state a run that has begun can take a step of its own.
  lemma RunCanGoOn(st: Settings, w: World) returns (step: Step)
    requires IncrementalGuarantees.Reaches(st, Start(), w) && !w.run.Idle?
    ensures IsOwn(step) && Apply(st, w, step).Some?
  {
    ReachedIsShaped(st, w);
    hide Put;
    match w.run {
      case Loaded(_) =>
        var paths := SomeListing(w.disk.Keys);
        step := Glob(paths);
      case Scanning(_, _, todo, _) => step := if todo == [] then EndScan else Look;
      case Hashed(_, _, _, _, _) => step := Parse;
      case Parsed(_, _, _, _, _, _) => step := Write;
      case Wrote(_, _, _, _, _) => step := Merge;
      case Pruning(_, _, gone) =>
        if gone == {} {
          step := Trim;
        } else {
          var p :| p in gone;
          step := DeleteOne(p);
        }
      case Saving(_, _) => step := WriteTemp;
      case TempWritten(_, _) => step := Replace;
    }
  }

  // ---------- it ends ----------

  // A bound on the steps of its own a run still takes once the files are listed.
  function StepsLeft(w: World): nat {
    match w.run
    case Idle => 0
    case Loaded(_) => 0
    case Scanning(loaded, _, todo, _) => 4 * |todo| + |loaded.Keys| + 4
    case Hashed(loaded, _, todo, _, _) => 4 * |todo| + |loaded.Keys| + 3
    case Parsed(loaded, _, todo, _, _, _) => 4 * |todo| + |loaded.Keys| + 2
    case Wrote(loaded, _, todo, _, _) => 4 * |todo| + |loaded.Keys| + 1
    case Pruning(_, _, gone) => |gone| + 3
    case Saving(_, _) => 2
    case TempWritten(_, _) => 1
  }

  // The files are listed.
  predicate HasListed(w: World) {
    !w.run.Loaded?
  }

  predicate NotBegin(step: Step) {
    !step.Begin?
  }

  lemma FewerGone(loaded: Cursor, disk: map<Path, Version>)
    ensures |loaded.Keys - disk.Keys| <= |loaded.Keys|
  {
    var gone := loaded.Keys - disk.Keys;
    assert loaded.Keys == gone + (loaded.Keys - gone) && gone !! (loaded.Keys - gone);
  }

  lemma FilesCountDown(st: Settings, w: World, step: Step)
    requires (step.Look? || step.Parse? || step.Write? || step.Merge?) && Apply(st, w, step).Some?
    ensures !Apply(st, w, step).value.run.Loaded? && StepsLeft(Apply(st, w, step).value) + 1 <= StepsLeft(w)
  {
    hide Put, LimitReached;
  }

  lemma EndScanIs(st: Settings, w: World)
    requires Apply(st, w, EndScan).Some?
    ensures w.run.Scanning?
    ensures var run := Apply(st, w, EndScan).value.run;
            run == Idle || run == Pruning(w.run.loaded, w.run.newCursor, w.run.loaded.Keys - w.disk.Keys)
  {
    hide LimitReached;
  }

  lemma EndScanCounts(st: Settings, w: World)
    requires Apply(st, w, EndScan).Some?
    ensures w.run.Scanning?
    ensures var run := Apply(st, w, EndScan).value.run;
            run.Idle? || (run.Pruning? && |run.gone| <= |w.run.loaded.Keys|)
  {
    EndScanIs(st, w);
    FewerGone(w.run.loaded, w.disk);
    hide *;
  }

  lemma DeleteOneIs(st: Settings, w: World, p: Path)
    requires Apply(st, w, DeleteOne(p)).Some?
    ensures w.run.Pruning? && p in w.run.gone
    ensures Apply(st, w, DeleteOne(p)).value.run == Pruning(w.run.loaded, w.run.newCursor, w.run.gone - {p})
  {
  }

  lemma DeleteOneCounts(st: Settings, w: World, p: Path)
    requires Apply(st, w, DeleteOne(p)).Some?
    ensures w.run.Pruning?
    ensures var run := Apply(st, w, DeleteOne(p)).value.run; run.Pruning? && |run.gone| + 1 == |w.run.gone|
  {
    DeleteOneIs(st, w, p);
    hide *;
  }

  lemma PruningCountsDown(st: Settings, w: World, step: Step)
    requires (step.EndScan? || step.DeleteOne?) && Apply(st, w, step).Some?
    ensures !Apply(st, w, step).value.run.Loaded? && StepsLeft(Apply(st, w, step).value) + 1 <= StepsLeft(w)
  {
    hide Apply;
    if step.EndScan? {
      EndScanCounts(st, w);
    } else {
      DeleteOneCounts(st, w, step.path);
    }
  }

  lemma SavingCountsDown(st: Settings, w: World, step: Step)
    requires (step.Trim? || step.WriteTemp? || step.Replace?) && Apply(st, w, step).Some?
    ensures !Apply(st, w, step).value.run.Loaded? && StepsLeft(Apply(st, w, step).value) + 1 <= StepsLeft(w)
  {
    var next := Apply(st, w, step).value.run;
    assert step.Trim? ==> w.run.Pruning? && next.Saving?;
    assert step.WriteTemp? ==> w.run.Saving? && next.TempWritten?;
    assert step.Replace? ==> w.run.TempWritten? && next.Idle?;
    hide Apply;
  }

  lemma StepCountsDown(st: Settings, w: World, step: Step)
    requires HasListed(w) && NotBegin(step) && Apply(st, w, step).Some?
    ensures var next := Apply(st, w, step).value;
            HasListed(next) && StepsLeft(next) + (if IsOwn(step) then 1 else 0) <= StepsLeft(w)
  {
    if step.Look? || step.Parse? || step.Write? || step.Merge? {
      FilesCountDown(st, w, step);
      hide Apply, StepsLeft;
    } else if step.EndScan? || step.DeleteOne? {
      PruningCountsDown(st, w, step);
      hide Apply, StepsLeft;
    } else if step.Trim? || step.WriteTemp? || step.Replace? {
      SavingCountsDown(st, w, step);
      hide Apply, StepsLeft;
    } else {
      var next := Apply(st, w, step).value;
      assert next.run == w.run || next.run.Idle?;
      hide Apply;
    }
  }

  // Once the n files are listed, with m entries in the cursor it loaded, a run takes
  // at most 4 n + m + 4 more steps of its own, however many edits come between them.
  lemma RunEnds(st: Settings, w: World, steps: seq<Step>)
    requires w.run.Scanning? && (forall step <- steps :: NotBegin(step)) && RunSteps(st, w, steps).Some?
    ensures Counted(IsOwn, steps) <= 4 * |w.run.todo| + |w.run.loaded.Keys| + 4
  {
    forall x: World, t: Step | HasListed(x) && NotBegin(t) && Stepper(st)(x, t).Some?
      ensures var next := Stepper(st)(x, t).value;
              HasListed(next) && StepsLeft(next) + (if IsOwn(t) then 1 else 0) <= StepsLeft(x)
    {
      StepCountsDown(st, x, t);
    }
    StepsAreBounded(Stepper(st), HasListed, NotBegin, IsOwn, StepsLeft, w, steps);
  }

  // ---------- what a step leaves alone ----------

  // A file that is gone when the run comes to it.
  predicate FileIsGone(w: World, step: Step) {
    && ((step.Look? && w.run.Scanning?) || (step.Parse? && w.run.Hashed?) || (step.Merge? && w.run.Wrote?))
    && w.run.todo != [] && w.run.todo[0] !in w.disk
  }

  predicate HitsLimit(st: Settings, w: World, step: Step) {
    && ((step.Write? && w.run.Parsed?) || (step.EndScan? && w.run.Scanning?))
    && LimitReached(st, w.run.docs)
  }

  // The cursor changes only when a complete run is saved, and then to what that run
  // found. A run ends there, at a file that is gone, at the limit, or by stopping,
  // and nowhere else. Only beginning, writing and pruning touch the sink, and only
  // edits the files.
  lemma OnlySavingMovesTheCursor(st: Settings, w: World, step: Step)
    requires IncrementalGuarantees.Reaches(st, Start(), w) && !w.run.Idle? && Apply(st, w, step).Some?
    ensures var next := Apply(st, w, step).value;
            && next.cursor == (if step.Replace? then w.run.newCursor else w.cursor)
            && (next.run.Idle? <==> step.Replace? || step.Stop? || FileIsGone(w, step) || HitsLimit(st, w, step))
            && (next.run.Idle? || !(step.Write? || step.DeleteOne?) ==> next.sink == w.sink)
            && (!step.Edit? && !step.Remove? ==> next.disk == w.disk)
  {
    ReachedIsShaped(st, w);
    hide Put, Distinct, LimitReached;
  }
}
