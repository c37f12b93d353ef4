// What the orchestrator keeps in every round and delivers at the end.
module OrchestrationGuarantees {
  import opened Text
  import opened Orchestration

  function RunningCells(running: seq<Handle>): seq<Cell> {
    seq(|running|, i requires 0 <= i < |running| => running[i].cell)
  }

  function EndedCells(done: seq<Ended>): seq<Cell> {
    seq(|done|, i requires 0 <= i < |done| => done[i].handle.cell)
  }

  // Pending, running and done together are the cells of the job, each once, and the
  // pending ones are those not started yet, in order.
  ghost predicate Accounted(job: Job, pending: seq<Cell>, running: seq<Handle>, done: seq<Ended>) {
    && |pending| <= |job.cells| && pending == job.cells[|job.cells| - |pending|..]
    && multiset(pending) + multiset(RunningCells(running)) + multiset(EndedCells(done)) == multiset(job.cells)
  }

  // At most `concurrency` cells run.
  predicate WithinPool(concurrency: int, running: seq<Handle>) {
    running == [] || |running| <= concurrency
  }

  // A running cell was polled in every round since it started, in vain.
  ghost predicate RunsOn(w: World, h: Handle, round: nat) {
    h.started <= round && forall r: nat :: h.started <= r < round ==> Exit(w, h, r).None?
  }

  // A cell ended in the first round its poll returned a code, with that code, or was
  // killed in the first round past the timeout before it returned one.
  ghost predicate EndedRightly(job: Job, w: World, e: Ended) {
    && RunsOn(w, e.handle, e.round)
    && if e.killed then e.rc == -1 && Exit(w, e.handle, e.round).None? && w.elapsed(e.round) > job.timeout as real
       else Exit(w, e.handle, e.round) == Some(e.rc)
  }

  function Handles(done: seq<Ended>): seq<Handle> {
    seq(|done|, i requires 0 <= i < |done| => done[i].handle)
  }

  // Cells start in the order of the list: those started are before those pending,
  // and none was started in a later round than one behind it.
  predicate StartedInOrder(started: seq<Handle>, next: int) {
    && (forall h <- started :: h.cell.id < next)
    && (forall a <- started :: forall b <- started :: a.cell.id < b.cell.id ==> a.started <= b.started)
  }

  // A checkpoint has fired exactly when some round so far reached it, and those that
  // fired are the first ones of the ascending list.
  ghost predicate FiredRightly(job: Job, w: World, fired: nat, round: nat) {
    && fired <= |job.checkpoints|
    && forall k :: 0 <= k < |job.checkpoints| ==> (k < fired <==> Reached(w, job.checkpoints[k], round))
  }

  ghost predicate Reached(w: World, checkpoint: int, round: nat) {
    exists r: nat :: r < round && w.elapsed(r) >= checkpoint as real
  }

  ghost predicate OnTime(job: Job, w: World, s: State) {
    if s.timedOut then
      s.round > 0 && w.elapsed(s.round - 1) > job.timeout as real
      && forall r: nat :: r < s.round - 1 ==> w.elapsed(r) <= job.timeout as real
    else forall r: nat :: r < s.round ==> w.elapsed(r) <= job.timeout as real
  }

  // Who is where.
  ghost predicate Places(job: Job, s: State) {
    && Accounted(job, s.pending, s.running, s.done)
    && WithinPool(job.concurrency, s.running)
    && StartedInOrder(s.running + Handles(s.done), |job.cells| - |s.pending|)
  }

  // How they got there.
  ghost predicate History(job: Job, w: World, s: State) {
    && (forall h <- s.running :: RunsOn(w, h, s.round))
    && (forall e <- s.done :: EndedRightly(job, w, e) && e.round < s.round)
    && FiredRightly(job, w, s.fired, s.round)
    && OnTime(job, w, s)
  }

  ghost predicate Inv(job: Job, w: World, s: State) {
    Places(job, s) && History(job, w, s)
  }

  predicate Numbered(job: Job) {
    forall i :: 0 <= i < |job.cells| ==> job.cells[i].id == i
  }

  // ---------- filling the pool ----------

  // Filling starts the next pending cells, and stops only when none is pending or
  // the pool is full.
  lemma {:induction false} FillStarts(concurrency: int, pending: seq<Cell>, running: seq<Handle>, round: nat)
    ensures var (rest, started) := Filled(concurrency, pending, running, round);
            var n := |pending| - |rest|;
            && 0 <= n && rest == pending[n..]
            && started == running + seq(n, i requires 0 <= i < n => Handle(pending[i], round))
            && (rest == [] || |started| >= concurrency)
            && (n > 0 ==> |started| <= concurrency)
    decreases |pending|
  {
    if pending != [] && |running| < concurrency {
      FillStarts(concurrency, pending[1..], running + [Handle(pending[0], round)], round);
      var (rest, started) := Filled(concurrency, pending, running, round);
      var n := |pending| - |rest|;
      assert pending[1..][n - 1..] == pending[n..];
      assert started == running + seq(n, i requires 0 <= i < n => Handle(pending[i], round));
    }
  }

  lemma {:induction false} FillAccounts(job: Job, concurrency: int, pending: seq<Cell>, running: seq<Handle>,
                                        done: seq<Ended>, round: nat)
    requires Accounted(job, pending, running, done)
    ensures var (rest, started) := Filled(concurrency, pending, running, round);
            Accounted(job, rest, started, done)
    decreases |pending|
  {
    if pending != [] && |running| < concurrency {
      var more := running + [Handle(pending[0], round)];
      assert pending == [pending[0]] + pending[1..];
      assert RunningCells(more) == RunningCells(running) + [pending[0]];
      FillAccounts(job, concurrency, pending[1..], more, done, round);
    }
  }

  // ---------- polling ----------

  lemma NoCells()
    ensures RunningCells([]) == [] && EndedCells([]) == []
  {
  }

  lemma RunningSnoc(running: seq<Handle>, h: Handle)
    ensures RunningCells(running + [h]) == RunningCells(running) + [h.cell]
  {
  }

  lemma EndedSnoc(done: seq<Ended>, e: Ended)
    ensures EndedCells(done + [e]) == EndedCells(done) + [e.handle.cell]
  {
  }

  // Polling splits the running cells.
  lemma {:induction false} PollSplits(w: World, running: seq<Handle>, round: nat)
    ensures multiset(RunningCells(running))
         == multiset(RunningCells(Still(w, running, round))) + multiset(EndedCells(Finished(w, running, round)))
    ensures |Still(w, running, round)| <= |running|
  {
    hide RunningCells, EndedCells, Exit;
    if running == [] {
      NoCells();
    } else {
      var n := |running| - 1;
      PollSplits(w, running[..n], round);
      var s, f := Still(w, running[..n], round), Finished(w, running[..n], round);
      var h := running[n];
      assert running == running[..n] + [h];
      assert running[..n + 1] == running;
      PollStep(w, running, round, n);
      hide Still, Finished;
      RunningSnoc(running[..n], h);
      var rc := Exit(w, h, round);
      if rc.None? {
        assert f + [] == f;
        RunningSnoc(s, h);
      } else {
        assert s + [] == s;
        EndedSnoc(f, Ended(h, rc.value, round, false));
      }
    }
  }

  lemma {:induction false} StillIs(w: World, running: seq<Handle>, round: nat, h: Handle)
    requires h in Still(w, running, round)
    ensures h in running && Exit(w, h, round).None?
  {
    hide Exit;
    var n := |running| - 1;
    if h in Still(w, running[..n], round) {
      StillIs(w, running[..n], round, h);
    }
  }

  lemma {:induction false} FinishedIs(w: World, running: seq<Handle>, round: nat, e: Ended)
    requires e in Finished(w, running, round)
    ensures e.handle in running && e.round == round && !e.killed && Exit(w, e.handle, round) == Some(e.rc)
  {
    hide Exit;
    var n := |running| - 1;
    if e in Finished(w, running[..n], round) {
      FinishedIs(w, running[..n], round, e);
    }
  }

  lemma {:induction false} KillEndsAll(running: seq<Handle>, round: nat)
    ensures |Killed(running, round)| == |running|
    ensures forall i :: 0 <= i < |running| ==> Killed(running, round)[i] == Ended(running[i], -1, round, true)
  {
    if running != [] {
      KillEndsAll(running[..|running| - 1], round);
    }
  }

  // ---------- checkpoints ----------

  lemma {:induction false} FiresReached(checkpoints: seq<int>, fired: nat, elapsed: real)
    requires Ascending(checkpoints) && fired <= |checkpoints|
    ensures var next := Fired(checkpoints, fired, elapsed);
            && fired <= next <= |checkpoints|
            && (forall k :: fired <= k < next ==> elapsed >= checkpoints[k] as real)
            && (forall k :: next <= k < |checkpoints| ==> elapsed < checkpoints[k] as real)
    decreases |checkpoints| - fired
  {
    if fired < |checkpoints| && elapsed >= checkpoints[fired] as real {
      FiresReached(checkpoints, fired + 1, elapsed);
    }
  }

  lemma FireKeeps(job: Job, w: World, fired: nat, round: nat)
    requires Ascending(job.checkpoints) && FiredRightly(job, w, fired, round)
    ensures FiredRightly(job, w, Fired(job.checkpoints, fired, w.elapsed(round)), round + 1)
  {
    FiresReached(job.checkpoints, fired, w.elapsed(round));
    hide Fired, Reached;
    forall k | 0 <= k < |job.checkpoints|
      ensures k < Fired(job.checkpoints, fired, w.elapsed(round)) <==> Reached(w, job.checkpoints[k], round + 1)
    {
      ReachedBy(w, job.checkpoints[k], round);
    }
  }

  lemma ReachedBy(w: World, checkpoint: int, round: nat)
    ensures Reached(w, checkpoint, round + 1)
            <==> Reached(w, checkpoint, round) || w.elapsed(round) >= checkpoint as real
  {
    if Reached(w, checkpoint, round) {
      var r: nat :| r < round && w.elapsed(r) >= checkpoint as real;
      assert r < round + 1;
    }
    if w.elapsed(round) >= checkpoint as real {
      assert round < round + 1;
    }
  }

  // ---------- one round ----------

  lemma AccountedMoves(job: Job, pending: seq<Cell>, running: seq<Handle>, done: seq<Ended>, still: seq<Handle>,
                       ended: seq<Ended>)
    requires Accounted(job, pending, running, done)
    requires multiset(RunningCells(running)) == multiset(RunningCells(still)) + multiset(EndedCells(ended))
    ensures Accounted(job, pending, still, done + ended)
  {
    assert EndedCells(done + ended) == EndedCells(done) + EndedCells(ended);
  }

  // The state after filling the pool keeps everything, and has no free slot while a
  // cell is pending.
  lemma FillKeeps(job: Job, w: World, s: State)
    requires Inv(job, w, s)
    ensures var (pending, started) := Filled(job.concurrency, s.pending, s.running, s.round);
            && Accounted(job, pending, started, s.done)
            && WithinPool(job.concurrency, started)
            && (pending == [] || |started| >= job.concurrency)
            && forall h <- started :: RunsOn(w, h, s.round)
  {
    FillAccounts(job, job.concurrency, s.pending, s.running, s.done, s.round);
    FillStarts(job.concurrency, s.pending, s.running, s.round);
    hide Accounted, Filled, FiredRightly, OnTime, EndedRightly, Exit;
  }

  lemma StartedBefore(job: Job, w: World, s: State)
    requires Inv(job, w, s)
    ensures forall h <- s.running + Handles(s.done) :: h.started <= s.round && h.cell.id < |job.cells| - |s.pending|
  {
    hide Exit, Accounted, FiredRightly, OnTime;
    forall h <- s.running + Handles(s.done) ensures h.started <= s.round {
      if h !in s.running {
        var i :| 0 <= i < |s.done| && Handles(s.done)[i] == h;
        assert EndedRightly(job, w, s.done[i]);
      }
    }
  }

  lemma PendingAre(job: Job, w: World, s: State)
    requires Inv(job, w, s) && Numbered(job)
    ensures |s.pending| <= |job.cells|
    ensures forall i :: 0 <= i < |s.pending| ==> s.pending[i].id == |job.cells| - |s.pending| + i
    ensures StartedInOrder(s.running + Handles(s.done), |job.cells| - |s.pending|)
  {
    hide History, WithinPool, StartedInOrder, Handles;
  }

  lemma FillOrders(job: Job, w: World, s: State)
    requires Inv(job, w, s) && Numbered(job)
    ensures var (pending, started) := Filled(job.concurrency, s.pending, s.running, s.round);
            StartedInOrder(started + Handles(s.done), |job.cells| - |pending|)
  {
    hide *;
    FillStarts(job.concurrency, s.pending, s.running, s.round);
    StartedBefore(job, w, s);
    PendingAre(job, w, s);
    var (pending, started) := Filled(job.concurrency, s.pending, s.running, s.round);
    var k, n := |job.cells| - |s.pending|, |s.pending| - |pending|;
    var added := seq(n, i requires 0 <= i < n => Handle(s.pending[i], s.round));
    forall h <- added ensures h.started == s.round && k <= h.cell.id < k + n {
      var i :| 0 <= i < n && added[i] == h;
    }
    OrderMerges(s.running + Handles(s.done), added, started + Handles(s.done), k, k + n, s.round);
  }

  // Later cells started later, in whatever sequence they are listed.
  lemma OrderMerges(before: seq<Handle>, added: seq<Handle>, all: seq<Handle>, k: int, next: int, round: nat)
    requires StartedInOrder(before, k) && k <= next
    requires forall h <- before :: h.started <= round
    requires forall h <- added :: h.started == round && k <= h.cell.id < next
    requires forall h <- all :: h in before || h in added
    ensures StartedInOrder(all, next)
  {
  }

  lemma OrderNarrows(before: seq<Handle>, all: seq<Handle>, next: int)
    requires StartedInOrder(before, next) && forall h <- all :: h in before
    ensures StartedInOrder(all, next)
  {
  }

  lemma PollOrders(w: World, started: seq<Handle>, done: seq<Ended>, round: nat, next: int)
    requires StartedInOrder(started + Handles(done), next)
    ensures var still, ended := Still(w, started, round), Finished(w, started, round);
            && StartedInOrder(still + Handles(done + ended), next)
            && StartedInOrder([] + Handles(done + ended + Killed(still, round)), next)
  {
    var still, ended := Still(w, started, round), Finished(w, started, round);
    var killed := Killed(still, round);
    KillEndsAll(still, round);
    forall h <- still ensures h in started {
      StillIs(w, started, round, h);
    }
    forall e <- ended ensures e.handle in started {
      FinishedIs(w, started, round, e);
    }
    hide Still, Finished, Killed, Exit, StartedInOrder;
    forall h <- Handles(done + ended + killed) ensures h in started + Handles(done) {
      var i :| 0 <= i < |done + ended + killed| && Handles(done + ended + killed)[i] == h;
      var e := (done + ended + killed)[i];
      if i < |done| {
        assert Handles(done)[i] == h;
      } else if i < |done| + |ended| {
        assert e == ended[i - |done|];
      } else {
        assert e == killed[i - |done| - |ended|];
        assert still[i - |done| - |ended|] in still;
      }
    }
    forall h <- Handles(done + ended) ensures h in Handles(done + ended + killed) {
      var i :| 0 <= i < |done + ended| && Handles(done + ended)[i] == h;
      assert Handles(done + ended + killed)[i] == h;
    }
    OrderNarrows(started + Handles(done), still + Handles(done + ended), next);
    OrderNarrows(started + Handles(done), [] + Handles(done + ended + killed), next);
  }

  lemma PollKeeps(job: Job, w: World, pending: seq<Cell>, started: seq<Handle>, done: seq<Ended>, round: nat)
    requires Accounted(job, pending, started, done) && WithinPool(job.concurrency, started)
    requires forall h <- started :: RunsOn(w, h, round)
    ensures var still, ended := Still(w, started, round), Finished(w, started, round);
            && Accounted(job, pending, still, done + ended)
            && WithinPool(job.concurrency, still)
            && (forall h <- still :: RunsOn(w, h, round) && Exit(w, h, round).None?)
            && (forall e <- ended :: EndedRightly(job, w, e) && e.round == round)
  {
    var still, ended := Still(w, started, round), Finished(w, started, round);
    PollSplits(w, started, round);
    AccountedMoves(job, pending, started, done, still, ended);
    hide Accounted, Still, Finished, RunsOn, Exit;
    forall h <- still ensures RunsOn(w, h, round) && Exit(w, h, round).None? {
      StillIs(w, started, round, h);
    }
    forall e <- ended ensures EndedRightly(job, w, e) && e.round == round {
      FinishedIs(w, started, round, e);
    }
  }

  lemma KillKeeps(job: Job, w: World, pending: seq<Cell>, running: seq<Handle>, done: seq<Ended>, round: nat)
    requires Accounted(job, pending, running, done) && w.elapsed(round) > job.timeout as real
    requires forall h <- running :: RunsOn(w, h, round) && Exit(w, h, round).None?
    ensures Accounted(job, pending, [], done + Killed(running, round))
    ensures forall e <- Killed(running, round) :: EndedRightly(job, w, e) && e.round == round
  {
    var killed := Killed(running, round);
    KillEndsAll(running, round);
    hide Killed, RunsOn, Exit;
    assert EndedCells(killed) == RunningCells(running);
    assert RunningCells([]) == [];
    AccountedMoves(job, pending, running, done, [], killed);
    forall e <- killed ensures EndedRightly(job, w, e) && e.round == round {
      var i :| 0 <= i < |killed| && killed[i] == e;
      assert running[i] in running;
    }
  }

  lemma RunOnLater(w: World, h: Handle, round: nat)
    requires RunsOn(w, h, round) && Exit(w, h, round).None?
    ensures RunsOn(w, h, round + 1)
  {
  }

  lemma RoundKeepsPlaces(job: Job, w: World, s: State)
    requires Numbered(job) && Inv(job, w, s)
    ensures Places(job, Round(job, w, s))
  {
    hide *;
    var (pending, started) := Filled(job.concurrency, s.pending, s.running, s.round);
    var still, done := Still(w, started, s.round), s.done + Finished(w, started, s.round);
    FillKeeps(job, w, s);
    FillOrders(job, w, s);
    PollKeeps(job, w, pending, started, s.done, s.round);
    PollOrders(w, started, s.done, s.round, |job.cells| - |pending|);
    if w.elapsed(s.round) > job.timeout as real {
      KillKeeps(job, w, pending, still, done, s.round);
    }
    RoundIs(job, w, s);
    PlacesIs(job, Round(job, w, s));
    NobodyRuns(job.concurrency);
  }

  lemma RoundIs(job: Job, w: World, s: State)
    ensures var (pending, started) := Filled(job.concurrency, s.pending, s.running, s.round);
            var still, done := Still(w, started, s.round), s.done + Finished(w, started, s.round);
            var next := Round(job, w, s);
            && next.pending == pending && next.round == s.round + 1
            && next.fired == Fired(job.checkpoints, s.fired, w.elapsed(s.round))
            && if w.elapsed(s.round) > job.timeout as real
               then next.timedOut && next.running == [] && next.done == done + Killed(still, s.round)
               else !next.timedOut && next.running == still && next.done == done
  {
  }

  lemma PlacesIs(job: Job, s: State)
    ensures Places(job, s) <==>
              && Accounted(job, s.pending, s.running, s.done)
              && WithinPool(job.concurrency, s.running)
              && StartedInOrder(s.running + Handles(s.done), |job.cells| - |s.pending|)
  {
  }

  lemma NobodyRuns(concurrency: int)
    ensures WithinPool(concurrency, [])
  {
  }

  lemma HistoryIs(job: Job, w: World, s: State)
    ensures History(job, w, s) <==>
              && (forall h <- s.running :: RunsOn(w, h, s.round))
              && (forall e <- s.done :: EndedRightly(job, w, e) && e.round < s.round)
              && FiredRightly(job, w, s.fired, s.round)
              && OnTime(job, w, s)
  {
  }

  lemma InvIs(job: Job, w: World, s: State)
    ensures Inv(job, w, s) <==> Places(job, s) && History(job, w, s)
  {
  }

  lemma EndedAppend(job: Job, w: World, a: seq<Ended>, b: seq<Ended>, round: nat)
    requires forall e <- a :: EndedRightly(job, w, e) && e.round <= round
    requires forall e <- b :: EndedRightly(job, w, e) && e.round == round
    ensures forall e <- a + b :: EndedRightly(job, w, e) && e.round <= round
  {
  }

  lemma OnTimeNext(job: Job, w: World, s: State, next: State)
    requires OnTime(job, w, s) && !s.timedOut && next.round == s.round + 1
    requires next.timedOut <==> w.elapsed(s.round) > job.timeout as real
    ensures OnTime(job, w, next)
  {
  }

  lemma RoundKeepsHistory(job: Job, w: World, s: State)
    requires Ascending(job.checkpoints) && Inv(job, w, s) && !s.timedOut
    ensures History(job, w, Round(job, w, s))
  {
    hide *;
    var (pending, started) := Filled(job.concurrency, s.pending, s.running, s.round);
    var still, ended := Still(w, started, s.round), Finished(w, started, s.round);
    var next := Round(job, w, s);
    InvIs(job, w, s);
    HistoryIs(job, w, s);
    FillKeeps(job, w, s);
    PollKeeps(job, w, pending, started, s.done, s.round);
    FireKeeps(job, w, s.fired, s.round);
    RoundIs(job, w, s);
    OnTimeNext(job, w, s, next);
    EndedAppend(job, w, s.done, ended, s.round);
    if w.elapsed(s.round) > job.timeout as real {
      KillKeeps(job, w, pending, still, s.done + ended, s.round);
      EndedAppend(job, w, s.done + ended, Killed(still, s.round), s.round);
    } else {
      forall h <- still ensures RunsOn(w, h, s.round + 1) {
        RunOnLater(w, h, s.round);
      }
    }
    HistoryIs(job, w, next);
  }

  lemma RoundKeeps(job: Job, w: World, s: State)
    requires Ascending(job.checkpoints) && Numbered(job) && Inv(job, w, s) && !s.timedOut
    ensures Inv(job, w, Round(job, w, s))
  {
    RoundKeepsPlaces(job, w, s);
    RoundKeepsHistory(job, w, s);
    hide Places, History, Round;
  }

  lemma StartIsOk(job: Job, w: World)
    ensures Inv(job, w, Start(job))
  {
    assert RunningCells([]) == [] && EndedCells([]) == [];
  }

  lemma {:induction false} LoopKeeps(job: Job, w: World, s: State)
    requires TimePasses(job, w) && (Over(s) || s.round <= w.horizon)
    requires Ascending(job.checkpoints) && Numbered(job) && Inv(job, w, s)
    ensures Inv(job, w, Loop(job, w, s)) && Over(Loop(job, w, s))
    decreases w.horizon + 1 - s.round
  {
    hide Inv, Round, Over, Loop;
    LoopStep(job, w, s);
    if !Over(s) {
      NotOver(s);
      RoundKeeps(job, w, s);
      RoundCounts(job, w, s);
      LoopKeeps(job, w, Round(job, w, s));
    }
  }

  lemma NotOver(s: State)
    requires !Over(s)
    ensures !s.timedOut
  {
  }

  lemma RoundCounts(job: Job, w: World, s: State)
    ensures Round(job, w, s).round == s.round + 1
  {
    hide Filled, Still, Finished, Killed, Fired;
  }

  // ---------- the end ----------

  // The loop ends with all cells done, or at the first poll past the timeout; then
  // total - succeeded - failed are the cells never started.
  lemma EndsDoneOrTimedOut(job: Job, w: World)
    requires TimePasses(job, w) && Ascending(job.checkpoints) && Numbered(job)
    ensures var e := Loop(job, w, Start(job));
            var r := Report(job, e);
            && Inv(job, w, e)
            && r.total - r.succeeded - r.failed == |e.pending|
            && (e.timedOut || (e.pending == [] && e.running == []))
            && (e.timedOut ==> e.running == [])
            && |r.cells| + |e.pending| == r.total
  {
    StartIsOk(job, w);
    LoopKeeps(job, w, Start(job));
    TimeoutEmpties(job, w, Start(job));
    hide Loop;
    var e := Loop(job, w, Start(job));
    assert |multiset(e.pending) + multiset(RunningCells(e.running)) + multiset(EndedCells(e.done))|
           == |multiset(job.cells)|;
  }

  lemma {:induction false} TimeoutEmpties(job: Job, w: World, s: State)
    requires TimePasses(job, w) && (Over(s) || s.round <= w.horizon) && (s.timedOut ==> s.running == [])
    ensures Loop(job, w, s).timedOut ==> Loop(job, w, s).running == []
    decreases w.horizon + 1 - s.round
  {
    hide Filled, Still, Finished, Killed, Fired, Loop;
    LoopStep(job, w, s);
    if !Over(s) {
      TimeoutEmpties(job, w, Round(job, w, s));
    }
  }

  // ---------- what a caller can rely on ----------

  lemma JobIsOrderly(configs: seq<nat>, concurrency: int, checkpoints: seq<int>, timeout: int)
    ensures var job := JobOf(configs, concurrency, checkpoints, timeout);
            Numbered(job) && Ascending(job.checkpoints) && |job.cells| == |configs|
  {
    SortedIsSorted(if checkpoints == [] then DEFAULT_CHECKPOINTS else checkpoints);
  }

  // The state after n rounds.
  function After(job: Job, w: World, n: nat): State {
    if n == 0 then Start(job)
    else if Over(After(job, w, n - 1)) then After(job, w, n - 1)
    else Round(job, w, After(job, w, n - 1))
  }

  // In every reachable state the cells are accounted for, the pool is within its
  // bound, cells started in order, codes are the processes' own, checkpoints fired
  // in order as they were reached, and no round past the timeout was passed over.
  lemma {:induction false} EveryRoundKeeps(job: Job, w: World, n: nat)
    requires Numbered(job) && Ascending(job.checkpoints)
    ensures Inv(job, w, After(job, w, n))
  {
    hide Inv, Round, Over;
    if n == 0 {
      StartIsOk(job, w);
    } else {
      EveryRoundKeeps(job, w, n - 1);
      if !Over(After(job, w, n - 1)) {
        NotOver(After(job, w, n - 1));
        RoundKeeps(job, w, After(job, w, n - 1));
      }
    }
  }

  lemma {:induction false} NumberedOnce(cells: seq<Cell>, i: nat)
    requires forall k, l :: 0 <= k < l < |cells| ==> cells[k] != cells[l]
    requires i < |cells|
    ensures multiset(cells)[cells[i]] == 1
  {
    var n := |cells| - 1;
    assert cells == cells[..n] + [cells[n]];
    if i < n {
      NumberedOnce(cells[..n], i);
    } else {
      assert cells[n] !in cells[..n];
    }
  }

  // Each cell is in exactly one of pending, running and done, once.
  lemma EachCellIsSomewhereOnce(job: Job, w: World, n: nat, i: nat)
    requires Numbered(job) && Ascending(job.checkpoints) && i < |job.cells|
    ensures var s, c := After(job, w, n), job.cells[i];
            multiset(s.pending)[c] + multiset(RunningCells(s.running))[c] + multiset(EndedCells(s.done))[c] == 1
  {
    EveryRoundKeeps(job, w, n);
    assert forall k, l :: 0 <= k < l < |job.cells| ==> job.cells[k].id != job.cells[l].id;
    NumberedOnce(job.cells, i);
    hide After, History, RunningCells, EndedCells, StartedInOrder;
    var s := After(job, w, n);
    assert (multiset(s.pending) + multiset(RunningCells(s.running)) + multiset(EndedCells(s.done)))[job.cells[i]] == 1;
  }

  // The report counts every cell exactly when every cell was started.
  lemma ReportIsCompleteExactly(configs: seq<nat>, concurrency: int, checkpoints: seq<int>, timeout: int, w: World)
    requires TimePasses(JobOf(configs, concurrency, checkpoints, timeout), w)
    ensures var job := JobOf(configs, concurrency, checkpoints, timeout);
            var e := Loop(job, w, Start(job));
            var r := Report(job, e);
            && r.total == |configs|
            && (r.succeeded + r.failed == r.total <==> e.pending == [])
            && (!e.timedOut ==> r.succeeded + r.failed == r.total)
  {
    hide Loop, JobOf, Report;
    var job := JobOf(configs, concurrency, checkpoints, timeout);
    JobIsOrderly(configs, concurrency, checkpoints, timeout);
    EndsDoneOrTimedOut(job, w);
    TotalIs(job, Loop(job, w, Start(job)));
  }

  // Each row of the report is a cell of the list with the code it ended with: what its
  // process returned, or, for a cell killed at the timeout, -1, which counts as failed.
  lemma RowsAreCells(job: Job, w: World, i: nat)
    requires TimePasses(job, w) && Ascending(job.checkpoints) && Numbered(job)
    requires i < |Loop(job, w, Start(job)).done|
    ensures var e := Loop(job, w, Start(job)).done[i];
            var row := Report(job, Loop(job, w, Start(job))).cells[i];
            && e.handle.cell in job.cells && row == (e.handle.cell.config, e.rc)
            && EndedRightly(job, w, e)
            && (e.killed ==> row.1 == -1 && w.elapsed(e.round) > job.timeout as real)
  {
    EndsDoneOrTimedOut(job, w);
    hide Loop, Exit, RunsOn, OnTime, FiredRightly, StartedInOrder;
    var end := Loop(job, w, Start(job));
    assert end.done[i] in end.done;
    assert EndedCells(end.done)[i] == end.done[i].handle.cell;
    assert end.done[i].handle.cell in multiset(EndedCells(end.done));
    assert end.done[i].handle.cell in multiset(job.cells);
  }

  lemma DefaultCheckpoints()
    ensures Sorted(DEFAULT_CHECKPOINTS) == [60, 120, 300, 600]
  {
    assert [300, 600][1..] == [600] && [600][1..] == [];
    assert [120, 300, 600][1..] == [300, 600];
    assert DEFAULT_CHECKPOINTS[1..] == [120, 300, 600];
    assert Sorted([600]) == [600] && Sorted([300, 600]) == [300, 600] && Sorted([120, 300, 600]) == [120, 300, 600];
  }

  // A job has the arguments of the call: its checkpoints come in ascending order,
  // and without any it reports after 1, 2, 5 and 10 minutes.
  lemma JobHasTheArguments(configs: seq<nat>, concurrency: int, checkpoints: seq<int>, timeout: int)
    ensures var job := JobOf(configs, concurrency, checkpoints, timeout);
            && job.concurrency == concurrency && job.timeout == timeout
            && |job.cells| == |configs| && (forall i :: 0 <= i < |configs| ==> job.cells[i] == Cell(i, configs[i]))
            && Ascending(job.checkpoints)
            && (checkpoints != [] ==> multiset(job.checkpoints) == multiset(checkpoints))
            && (checkpoints == [] ==> job.checkpoints == [60, 120, 300, 600])
  {
    hide Sorted;
    SortedIsSorted(checkpoints);
    DefaultCheckpoints();
  }

  lemma TotalIs(job: Job, s: State)
    ensures Report(job, s).total == |job.cells|
  {
  }

  // A pool without slots starts nothing: the loop only waits for the timeout.
  lemma {:induction false} NoSlotsStartNothing(job: Job, w: World, s: State)
    requires TimePasses(job, w) && (Over(s) || s.round <= w.horizon)
    requires job.concurrency <= 0 && s.running == [] && s.done == []
    ensures var e := Loop(job, w, s);
            e.pending == s.pending && e.done == [] && (s.pending != [] ==> e.timedOut)
    decreases w.horizon + 1 - s.round
  {
    LoopStep(job, w, s);
    hide Loop;
    if !Over(s) {
      FilledStep(job.concurrency, s.pending, [], s.round);
      NothingPolled(w, s.round);
      NothingKilled(s.round);
      hide Filled, Still, Finished, Killed, Fired;
      NoSlotsStartNothing(job, w, Round(job, w, s));
    }
  }

  // A round only ever adds to the cells that ended.
  lemma RoundEndsMore(job: Job, w: World, s: State)
    ensures |Round(job, w, s).pending| <= |s.pending|
    ensures s.pending != [] && |s.running| < job.concurrency ==> |Round(job, w, s).pending| < |s.pending|
  {
    FillStarts(job.concurrency, s.pending, s.running, s.round);
    FilledStep(job.concurrency, s.pending, s.running, s.round);
    if s.pending != [] && |s.running| < job.concurrency {
      FillStarts(job.concurrency, s.pending[1..], s.running + [Handle(s.pending[0], s.round)], s.round);
    }
    RoundIs(job, w, s);
    hide Filled, Still, Finished, Killed, Fired, Round;
  }

  lemma {:induction false} PendingOnlyShrinks(job: Job, w: World, s: State)
    requires TimePasses(job, w) && (Over(s) || s.round <= w.horizon)
    ensures |Loop(job, w, s).pending| <= |s.pending|
    decreases w.horizon + 1 - s.round
  {
    LoopStep(job, w, s);
    hide Loop, Round, Over;
    if !Over(s) {
      RoundEndsMore(job, w, s);
      RoundCounts(job, w, s);
      PendingOnlyShrinks(job, w, Round(job, w, s));
    }
  }

  // A job with cells starts one exactly when its concurrency is at least 1.
  lemma StartsExactlyWithSlots(job: Job, w: World)
    requires TimePasses(job, w) && job.cells != []
    ensures |Loop(job, w, Start(job)).pending| < |job.cells| <==> job.concurrency >= 1
  {
    var s := Start(job);
    if job.concurrency >= 1 {
      LoopStep(job, w, s);
      RoundEndsMore(job, w, s);
      PendingOnlyShrinks(job, w, Round(job, w, s));
    } else {
      NoSlotsStartNothing(job, w, s);
    }
    hide Loop, Round;
  }
}
