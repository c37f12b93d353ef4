// The parallel orchestrator: a pool of at most `concurrency` cells, polled in
// rounds, with checkpoints and an overall timeout.
module Orchestration {
  import opened Text

  // One config of the list, with its position.
  datatype Cell = Cell(id: nat, config: nat)

  // A started cell and the round it was started in.
  datatype Handle = Handle(cell: Cell, started: nat)

  // A cell that ended, with its return code and the round it was seen to end in.
  datatype Ended = Ended(handle: Handle, rc: int, round: nat, killed: bool)

  datatype Job = Job(cells: seq<Cell>, concurrency: int, checkpoints: seq<int>, timeout: int)

  // What the run meets: what polling a cell returns in a round, the seconds elapsed
  // at a round, and a round by which the timeout has passed.
  datatype World = World(exit: (nat, nat) -> Option<int>, elapsed: nat -> real, horizon: nat)

  datatype State = State(
    pending: seq<Cell>, running: seq<Handle>, done: seq<Ended>, fired: nat, round: nat, timedOut: bool
  )

  datatype Result = Result(total: nat, succeeded: nat, failed: nat, cells: seq<(nat, int)>)

  const DEFAULT_CHECKPOINTS := [60, 120, 300, 600]

  // ---------- sorting the checkpoints ----------

  function Inserted(xs: seq<int>, x: int): seq<int> {
    if xs == [] || x <= xs[0] then [x] + xs else [xs[0]] + Inserted(xs[1..], x)
  }

  function Sorted(xs: seq<int>): seq<int> {
    if xs == [] then [] else Inserted(Sorted(xs[1..]), xs[0])
  }

  predicate Ascending(xs: seq<int>) {
    forall i, j :: 0 <= i < j < |xs| ==> xs[i] <= xs[j]
  }

  lemma {:induction false} InsertedHas(xs: seq<int>, x: int)
    ensures multiset(Inserted(xs, x)) == multiset(xs) + multiset{x}
  {
    if xs != [] && x > xs[0] {
      assert xs == [xs[0]] + xs[1..];
      InsertedHas(xs[1..], x);
    }
  }

  lemma {:induction false} InsertedIsSorted(xs: seq<int>, x: int)
    requires Ascending(xs)
    ensures Ascending(Inserted(xs, x))
    ensures forall y <- Inserted(xs, x) :: y == x || y in xs
  {
    if xs != [] && x > xs[0] {
      InsertedIsSorted(xs[1..], x);
      var rest := Inserted(xs[1..], x);
      forall k | 0 <= k < |rest| ensures xs[0] <= rest[k] {
        assert rest[k] in rest;
      }
      assert Inserted(xs, x) == [xs[0]] + rest;
    }
  }

  lemma {:induction false} SortedIsSorted(xs: seq<int>)
    ensures Ascending(Sorted(xs)) && multiset(Sorted(xs)) == multiset(xs)
  {
    if xs != [] {
      assert xs == [xs[0]] + xs[1..];
      SortedIsSorted(xs[1..]);
      InsertedIsSorted(Sorted(xs[1..]), xs[0]);
      InsertedHas(Sorted(xs[1..]), xs[0]);
    }
  }

  // ---------- one round ----------

  // Start pending cells while there is a free slot.
  function Filled(concurrency: int, pending: seq<Cell>, running: seq<Handle>, round: nat): (seq<Cell>, seq<Handle>)
    decreases |pending|
  {
    if pending != [] && |running| < concurrency then
      Filled(concurrency, pending[1..], running + [Handle(pending[0], round)], round)
    else (pending, running)
  }

  function Exit(w: World, h: Handle, round: nat): Option<int> {
    w.exit(h.cell.id, round)
  }

  // The cells whose poll returns nothing yet.
  function Still(w: World, running: seq<Handle>, round: nat): seq<Handle> {
    if running == [] then []
    else
      var n := |running| - 1;
      Still(w, running[..n], round) + if Exit(w, running[n], round).None? then [running[n]] else []
  }

  // The cells whose poll returns a code.
  function Finished(w: World, running: seq<Handle>, round: nat): seq<Ended> {
    if running == [] then []
    else
      var n := |running| - 1;
      var rc := Exit(w, running[n], round);
      Finished(w, running[..n], round) + if rc.None? then [] else [Ended(running[n], rc.value, round, false)]
  }

  // How many checkpoints have fired once those reached have.
  function Fired(checkpoints: seq<int>, fired: nat, elapsed: real): nat
    decreases |checkpoints| - fired
  {
    if fired < |checkpoints| && elapsed >= checkpoints[fired] as real then Fired(checkpoints, fired + 1, elapsed)
    else fired
  }

  // The cells still running at the timeout are terminated and count as ended.
  function Killed(running: seq<Handle>, round: nat): seq<Ended> {
    if running == [] then []
    else
      var n := |running| - 1;
      Killed(running[..n], round) + [Ended(running[n], -1, round, true)]
  }

  // One turn of the loop: fill the pool, poll, report checkpoints, and on timeout
  // end what still runs.
  function Round(job: Job, w: World, s: State): State {
    var (pending, started) := Filled(job.concurrency, s.pending, s.running, s.round);
    var running, done := Still(w, started, s.round), s.done + Finished(w, started, s.round);
    var fired := Fired(job.checkpoints, s.fired, w.elapsed(s.round));
    if w.elapsed(s.round) > job.timeout as real then
      State(pending, [], done + Killed(running, s.round), fired, s.round + 1, true)
    else State(pending, running, done, fired, s.round + 1, false)
  }

  predicate Over(s: State) {
    (s.pending == [] && s.running == []) || s.timedOut
  }

  // The clock passes the timeout.
  predicate TimePasses(job: Job, w: World) {
    w.elapsed(w.horizon) > job.timeout as real
  }

  // The whole loop from a state on.
  function Loop(job: Job, w: World, s: State): State
    requires TimePasses(job, w) && (Over(s) || s.round <= w.horizon)
    decreases w.horizon + 1 - s.round
  {
    if Over(s) then s else Loop(job, w, Round(job, w, s))
  }

  function Cells(configs: seq<nat>): (cells: seq<Cell>)
    ensures |cells| == |configs| && forall i :: 0 <= i < |cells| ==> cells[i] == Cell(i, configs[i])
  {
    seq(|configs|, i requires 0 <= i < |configs| => Cell(i, configs[i]))
  }

  function JobOf(configs: seq<nat>, concurrency: int, checkpoints: seq<int>, timeout: int): Job {
    Job(Cells(configs), concurrency, Sorted(if checkpoints == [] then DEFAULT_CHECKPOINTS else checkpoints), timeout)
  }

  function Start(job: Job): State {
    State(job.cells, [], [], 0, 0, false)
  }

  function Succeeded(done: seq<Ended>): (n: nat)
    ensures n <= |done|
  {
    if done == [] then 0 else Succeeded(done[..|done| - 1]) + if done[|done| - 1].rc == 0 then 1 else 0
  }

  function Rows(done: seq<Ended>): (rows: seq<(nat, int)>)
    ensures |rows| == |done| && forall i :: 0 <= i < |rows| ==> rows[i] == (done[i].handle.cell.config, done[i].rc)
  {
    seq(|done|, i requires 0 <= i < |done| => (done[i].handle.cell.config, done[i].rc))
  }

  function Report(job: Job, s: State): Result {
    Result(|job.cells|, Succeeded(s.done), |s.done| - Succeeded(s.done), Rows(s.done))
  }

  // The rows with code 0, or with another.
  function RowsWith(rows: seq<(nat, int)>, ok: bool): set<nat> {
    set i | 0 <= i < |rows| && (rows[i].1 == 0 <==> ok)
  }

  lemma {:induction false} SucceededCounts(done: seq<Ended>)
    ensures Succeeded(done) == |RowsWith(Rows(done), true)|
  {
    if done != [] {
      var n := |done| - 1;
      SucceededCounts(done[..n]);
      var before, all := RowsWith(Rows(done[..n]), true), RowsWith(Rows(done), true);
      if done[n].rc == 0 {
        assert all == before + {n};
      } else {
        assert all == before;
      }
    }
  }

  lemma {:induction false} UpTo(n: nat) returns (all: set<nat>)
    ensures |all| == n && forall i: nat :: i in all <==> i < n
  {
    if n == 0 {
      all := {};
    } else {
      var before := UpTo(n - 1);
      all := before + {n - 1};
    }
  }

  // The report counts its rows with code 0 as succeeded and the others as failed.
  lemma ReportCounts(job: Job, s: State)
    ensures var r := Report(job, s);
            r.succeeded == |RowsWith(r.cells, true)| && r.failed == |RowsWith(r.cells, false)|
  {
    SucceededCounts(s.done);
    var rows := Rows(s.done);
    var all := UpTo(|rows|);
    assert RowsWith(rows, true) + RowsWith(rows, false) == all;
    assert RowsWith(rows, true) * RowsWith(rows, false) == {};
  }

  // ---------- the loop itself ----------

  lemma FilledStep(concurrency: int, pending: seq<Cell>, running: seq<Handle>, round: nat)
    ensures Filled(concurrency, pending, running, round) ==
              if pending != [] && |running| < concurrency
              then Filled(concurrency, pending[1..], running + [Handle(pending[0], round)], round)
              else (pending, running)
  {
  }

  lemma PollStep(w: World, running: seq<Handle>, round: nat, i: nat)
    requires i < |running|
    ensures var rc := Exit(w, running[i], round);
            && Still(w, running[..i + 1], round)
                 == Still(w, running[..i], round) + (if rc.None? then [running[i]] else [])
            && Finished(w, running[..i + 1], round)
               == Finished(w, running[..i], round)
                    + if rc.None? then [] else [Ended(running[i], rc.value, round, false)]
  {
    assert running[..i + 1][..i] == running[..i];
  }

  lemma KillStep(running: seq<Handle>, round: nat, i: nat)
    requires i < |running|
    ensures Killed(running[..i + 1], round) == Killed(running[..i], round) + [Ended(running[i], -1, round, true)]
  {
    assert running[..i + 1][..i] == running[..i];
  }

  lemma NothingPolled(w: World, round: nat)
    ensures Still(w, [], round) == [] && Finished(w, [], round) == []
  {
  }

  lemma NothingKilled(round: nat)
    ensures Killed([], round) == []
  {
  }

  lemma LoopStep(job: Job, w: World, s: State)
    requires TimePasses(job, w) && (Over(s) || s.round <= w.horizon)
    ensures if Over(s) then Loop(job, w, s) == s
            else var next := Round(job, w, s);
              (Over(next) || next.round <= w.horizon) && Loop(job, w, s) == Loop(job, w, next)
  {
  }

  method Fill(concurrency: int, pending0: seq<Cell>, running0: seq<Handle>, round: nat)
    returns (pending: seq<Cell>, running: seq<Handle>)
    ensures (pending, running) == Filled(concurrency, pending0, running0, round)
  {
    hide Filled;
    pending, running := pending0, running0;
    while pending != [] && |running| < concurrency
      invariant Filled(concurrency, pending, running, round) == Filled(concurrency, pending0, running0, round)
      decreases |pending|
    {
      FilledStep(concurrency, pending, running, round);
      running := running + [Handle(pending[0], round)];
      pending := pending[1..];
    }
    FilledStep(concurrency, pending, running, round);
  }

  method Poll(w: World, running: seq<Handle>, round: nat) returns (still: seq<Handle>, ended: seq<Ended>)
    ensures still == Still(w, running, round) && ended == Finished(w, running, round)
  {
    hide Still, Finished;
    still, ended := [], [];
    NothingPolled(w, round);
    assert running[..0] == [];
    for i := 0 to |running|
      invariant still == Still(w, running[..i], round) && ended == Finished(w, running[..i], round)
    {
      PollStep(w, running, round, i);
      var rc := Exit(w, running[i], round);
      if rc.None? {
        still := still + [running[i]];
      } else {
        ended := ended + [Ended(running[i], rc.value, round, false)];
      }
    }
    assert running[..|running|] == running;
  }

  method Fire(checkpoints: seq<int>, fired0: nat, elapsed: real) returns (fired: nat)
    ensures fired == Fired(checkpoints, fired0, elapsed)
  {
    fired := fired0;
    while fired < |checkpoints| && elapsed >= checkpoints[fired] as real
      invariant Fired(checkpoints, fired, elapsed) == Fired(checkpoints, fired0, elapsed)
    {
      fired := fired + 1;
    }
  }

  method Kill(running: seq<Handle>, round: nat) returns (killed: seq<Ended>)
    ensures killed == Killed(running, round)
  {
    hide Killed;
    killed := [];
    NothingKilled(round);
    assert running[..0] == [];
    for i := 0 to |running|
      invariant killed == Killed(running[..i], round)
    {
      KillStep(running, round, i);
      killed := killed + [Ended(running[i], -1, round, true)];
    }
    assert running[..|running|] == running;
  }

  // `orchestrate`.
  method Orchestrate(configs: seq<nat>, concurrency: int, checkpoints: seq<int>, timeout: int, w: World)
    returns (r: Result)
    requires TimePasses(JobOf(configs, concurrency, checkpoints, timeout), w)
    ensures var job := JobOf(configs, concurrency, checkpoints, timeout);
            r == Report(job, Loop(job, w, Start(job)))
    ensures r.succeeded == |set i | 0 <= i < |r.cells| && r.cells[i].1 == 0|
    ensures r.failed == |set i | 0 <= i < |r.cells| && r.cells[i].1 != 0|
  {
    hide Loop, Filled, Still, Finished, Killed, Sorted, Cells, Succeeded, Rows, Fired;
    var job := JobOf(configs, concurrency, checkpoints, timeout);
    var pending, running: seq<Handle>, done: seq<Ended> := job.cells, [], [];
    var fired, round, timedOut := 0, 0, false;
    while !timedOut && (pending != [] || running != [])
      invariant var s := State(pending, running, done, fired, round, timedOut);
                (Over(s) || round <= w.horizon) && Loop(job, w, Start(job)) == Loop(job, w, s)
      decreases w.horizon + 1 - round
    {
      ghost var before := State(pending, running, done, fired, round, false);
      LoopStep(job, w, before);
      pending, running := Fill(concurrency, pending, running, round);
      var ended: seq<Ended>;
      running, ended := Poll(w, running, round);
      done := done + ended;
      fired := Fire(job.checkpoints, fired, w.elapsed(round));
      if w.elapsed(round) > timeout as real {
        var killed := Kill(running, round);
        running, done, timedOut := [], done + killed, true;
      }
      round := round + 1;
      assert State(pending, running, done, fired, round, timedOut) == Round(job, w, before);
    }
    LoopStep(job, w, State(pending, running, done, fired, round, timedOut));
    r := Report(job, State(pending, running, done, fired, round, timedOut));
    ReportCounts(job, State(pending, running, done, fired, round, timedOut));
    assert RowsWith(r.cells, true) == set i | 0 <= i < |r.cells| && r.cells[i].1 == 0;
    assert RowsWith(r.cells, false) == set i | 0 <= i < |r.cells| && r.cells[i].1 != 0;
  }
}
