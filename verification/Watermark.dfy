// The watermark wrapper as a protocol: several wrappers share one cursor row under
// an advisory lock, while rows of the source keep changing and any wrapper or
// ingest may fail at any point.
module Watermark {
  import opened Runs
  import opened Text

  type RowId = nat
  type Version = nat
  type WrapperId = nat

  const EPOCH: int := 0

  // A source row: its content version and the value of its updated column.
  datatype Row = Row(version: Version, stamp: int)

  // The half-open window `updated > lo AND updated <= hi`.
  datatype Window = Window(lo: int, hi: int)

  // What may go wrong besides crashes. lateWrites: a source write may be stamped
  // at or below a maximum already read. lockLoss: the lock, bound to a connection,
  // may go while its wrapper or that wrapper's ingest lives on.
  datatype Faults = Faults(lateWrites: bool, lockLoss: bool)

  // Where a wrapper is. `left` are the selected rows still to be ingested.
  datatype Wrapper =
    | Away
    | Locked
    | KnowsCursor(last: Option<int>)
    | Windowed(window: Window)
    | Ingesting(window: Window, snapshot: map<RowId, Version>, left: set<RowId>)
    | Ingested(window: Window)
    | Finished

  // `seen` is the largest maximum read so far; `advanced` the windows that moved
  // the cursor, in order.
  datatype System = System(
    rows: map<RowId, Row>,
    seen: Option<int>,
    target: map<RowId, Version>,
    cursor: Option<int>,
    lock: Option<WrapperId>,
    wrappers: map<WrapperId, Wrapper>,
    advanced: seq<Window>
  )

  datatype Step =
    | SourceWrite(id: RowId, version: Version, stamp: int)
    | SourceRemove(id: RowId)
    | TryLock(who: WrapperId)
    | ReadLastSeen(who: WrapperId)
    | ReadHighWater(who: WrapperId, high: Option<int>)
    | SelectWindow(who: WrapperId)
    | IngestRow(who: WrapperId, id: RowId)
    | IngestFails(who: WrapperId)
    | IngestSucceeds(who: WrapperId)
    | WriteCursor(who: WrapperId)
    | Unlock(who: WrapperId)
    | Crash(who: WrapperId)
    | LoseLock(who: WrapperId)

  function At(s: System, w: WrapperId): Wrapper {
    if w in s.wrappers then s.wrappers[w] else Away
  }

  function Moved(s: System, w: WrapperId, pc: Wrapper): System {
    s.(wrappers := s.wrappers[w := pc])
  }

  // Leaving the lock's block, or dying: the lock goes too.
  function Left(s: System, w: WrapperId): System {
    s.(wrappers := s.wrappers[w := Away], lock := if s.lock == Some(w) then None else s.lock)
  }

  // `SELECT MAX(updated)`.
  predicate IsHighWater(rows: map<RowId, Row>, high: Option<int>) {
    match high
    case None => rows == map[]
    case Some(m) => (exists id <- rows.Keys :: rows[id].stamp == m) && (forall id <- rows.Keys :: rows[id].stamp <= m)
  }

  function MaxSeen(a: Option<int>, b: int): Option<int> {
    if a.Some? && a.value >= b then a else Some(b)
  }

  function LowerBound(last: Option<int>): int {
    if last.Some? then last.value else EPOCH
  }

  predicate InWindow(g: Window, stamp: int) {
    g.lo < stamp <= g.hi
  }

  function Selected(rows: map<RowId, Row>, g: Window): map<RowId, Version> {
    map id | id in rows && InWindow(g, rows[id].stamp) :: rows[id].version
  }

  // One step. None means the step cannot be taken here.
  function Apply(f: Faults, s: System, step: Step): Option<System> {
    match step
    case SourceWrite(id, v, stamp) =>
      if !f.lateWrites && s.seen.Some? && stamp <= s.seen.value then None
      else Some(s.(rows := s.rows[id := Row(v, stamp)]))
    case SourceRemove(id) =>
      Some(s.(rows := s.rows - {id}))
    case TryLock(w) =>
      if !At(s, w).Away? then None
      else if s.lock.Some? then Some(s)
      else Some(Moved(s, w, Locked).(lock := Some(w)))
    case ReadLastSeen(w) =>
      if !At(s, w).Locked? then None else Some(Moved(s, w, KnowsCursor(s.cursor)))
    case ReadHighWater(w, high) =>
      if !At(s, w).KnowsCursor? || !IsHighWater(s.rows, high) then None
      else if high.None? then Some(Left(s, w))
      else
        var last := At(s, w).last;
        var next := s.(seen := MaxSeen(s.seen, high.value));
        if last.Some? && high.value <= last.value then Some(Left(next, w))
        else Some(Moved(next, w, Windowed(Window(LowerBound(last), high.value))))
    case SelectWindow(w) =>
      if !At(s, w).Windowed? then None
      else
        var g := At(s, w).window;
        var snapshot := Selected(s.rows, g);
        Some(Moved(s, w, Ingesting(g, snapshot, snapshot.Keys)))
    case IngestRow(w, id) =>
      if !At(s, w).Ingesting? then None
      else
        var pc := At(s, w);
        if id !in pc.left || id !in pc.snapshot then None
        else Some(Moved(s, w, pc.(left := pc.left - {id})).(target := s.target[id := pc.snapshot[id]]))
    case IngestFails(w) =>
      if !At(s, w).Windowed? && !At(s, w).Ingesting? then None else Some(Left(s, w))
    case IngestSucceeds(w) =>
      if !At(s, w).Ingesting? || At(s, w).left != {} then None else Some(Moved(s, w, Ingested(At(s, w).window)))
    case WriteCursor(w) =>
      if !At(s, w).Ingested? then None
      else
        var g := At(s, w).window;
        Some(Moved(s, w, Finished).(cursor := Some(g.hi), advanced := s.advanced + [g]))
    case Unlock(w) =>
      if !At(s, w).Finished? then None else Some(Left(s, w))
    case Crash(w) =>
      if At(s, w).Away? then None else Some(Left(s, w))
    case LoseLock(w) =>
      if !f.lockLoss || s.lock != Some(w) then None else Some(s.(lock := None))
  }

  function Start(): System {
    System(map[], None, map[], None, None, map[], [])
  }

  function Stepper(f: Faults): (System, Step) -> Option<System> {
    (s, step) => Apply(f, s, step)
  }

  function RunSteps(f: Faults, s: System, steps: seq<Step>): Option<System> {
    RunAll(Stepper(f), s, steps)
  }

  // A row that the target holds in its current version.
  predicate Current(s: System, id: RowId) {
    id in s.rows && id in s.target && s.target[id] == s.rows[id].version
  }

  // Every row stamped after the epoch and up to the cursor has been ingested in
  // its current version.
  predicate NothingMissed(s: System) {
    forall id <- s.rows.Keys :: s.cursor.Some? && EPOCH < s.rows[id].stamp <= s.cursor.value ==> Current(s, id)
  }

  // How many of the windows contain a stamp.
  function Covering(gs: seq<Window>, stamp: int): (n: nat)
    ensures n <= |gs|
  {
    if gs == [] then 0 else Covering(gs[..|gs| - 1], stamp) + if InWindow(gs[|gs| - 1], stamp) then 1 else 0
  }

  // The windows so far cover exactly the stamps from the epoch to the cursor, each
  // once, and each one after the first moved the cursor up.
  predicate Tiled(s: System) {
    && (forall k :: 0 < k < |s.advanced| ==> s.advanced[k - 1].hi < s.advanced[k].hi)
    && (s.advanced != [] <==> s.cursor.Some?)
    && (s.advanced != [] ==> s.cursor.value == s.advanced[|s.advanced| - 1].hi)
  }

  ghost predicate CoveredOnce(s: System) {
    forall stamp: int :: stamp > EPOCH ==>
      Covering(s.advanced, stamp) == if s.cursor.Some? && stamp <= s.cursor.value then 1 else 0
  }

  // ---------- the lock part of the invariant ----------

  // What the wrapper that holds the lock knows about the cursor.
  predicate HolderOk(s: System, pc: Wrapper) {
    match pc
    case Away => true
    case Locked => true
    case Finished => true
    case KnowsCursor(last) => last == s.cursor
    case Windowed(g) => WindowOk(s, g)
    case Ingesting(g, _, _) => WindowOk(s, g)
    case Ingested(g) => WindowOk(s, g)
  }

  predicate WindowOk(s: System, g: Window) {
    && g.lo == LowerBound(s.cursor)
    && s.seen.Some? && g.hi <= s.seen.value
    && (s.cursor.Some? ==> g.lo < g.hi)
  }

  ghost predicate LockInv(s: System) {
    && (forall w: WrapperId :: !At(s, w).Away? ==> s.lock == Some(w))
    && (forall w: WrapperId :: HolderOk(s, At(s, w)))
    && (s.cursor.Some? ==> s.seen.Some? && s.cursor.value <= s.seen.value)
    && Tiled(s)
    && CoveredOnce(s)
  }

  lemma WrittenStaysTiled(s: System, g: Window)
    requires Tiled(s) && CoveredOnce(s) && WindowOk(s, g)
    ensures var next := s.(cursor := Some(g.hi), advanced := s.advanced + [g]);
            Tiled(next) && CoveredOnce(next)
  {
    var next := s.(cursor := Some(g.hi), advanced := s.advanced + [g]);
    assert next.advanced[..|s.advanced|] == s.advanced;
    assert next.advanced[|s.advanced|] == g;
    forall stamp: int | stamp > EPOCH
      ensures Covering(next.advanced, stamp) == if stamp <= g.hi then 1 else 0
    {
    }
  }

  lemma SameCursorStaysTiled(s: System, next: System)
    requires s.cursor == next.cursor && s.advanced == next.advanced
    ensures Tiled(s) == Tiled(next) && CoveredOnce(s) == CoveredOnce(next)
  {
  }

  lemma StepKeepsLock(f: Faults, s: System, step: Step)
    requires !f.lockLoss && LockInv(s) && Apply(f, s, step).Some?
    ensures LockInv(Apply(f, s, step).value)
  {
    hide Tiled, CoveredOnce, Selected, IsHighWater;
    var next := Apply(f, s, step).value;
    if step.WriteCursor? {
      var g := At(s, step.who).window;
      WrittenStaysTiled(s, g);
      SameCursorStaysTiled(s.(cursor := Some(g.hi), advanced := s.advanced + [g]), next);
    } else {
      SameCursorStaysTiled(s, next);
    }
    forall w: WrapperId ensures !At(next, w).Away? ==> next.lock == Some(w)
                        ensures HolderOk(next, At(next, w))
    {
      assert !At(s, w).Away? ==> s.lock == Some(w);
      assert HolderOk(s, At(s, w));
    }
  }

  // ---------- the data part of the invariant ----------

  // What the holder's ingest has done so far.
  ghost predicate IngestOk(s: System, pc: Wrapper) {
    match pc
    case Ingesting(g, snapshot, left) =>
      && left <= snapshot.Keys
      && (forall id <- snapshot.Keys :: g.lo < g.hi && (id in s.rows ==> s.rows[id].stamp > g.lo))
      && (forall id <- s.rows.Keys :: InWindow(g, s.rows[id].stamp) ==>
            id in snapshot && snapshot[id] == s.rows[id].version && (id !in left ==> Current(s, id)))
    case Ingested(g) =>
      forall id <- s.rows.Keys :: InWindow(g, s.rows[id].stamp) ==> Current(s, id)
    case _ => true
  }

  ghost predicate DataInv(s: System) {
    NothingMissed(s) && forall w: WrapperId :: IngestOk(s, At(s, w))
  }

  // No rows or target entries changed, and no cursor: only wrappers moved.
  lemma OnlyWrappersMoved(s: System, next: System)
    requires NothingMissed(s) && next.rows == s.rows && next.target == s.target && next.cursor == s.cursor
    ensures NothingMissed(next)
    ensures forall pc :: IngestOk(s, pc) <==> IngestOk(next, pc)
  {
  }

  lemma SourceWriteKeeps(s: System, id: RowId, v: Version, stamp: int)
    requires LockInv(s) && DataInv(s)
    requires s.seen.Some? ==> stamp > s.seen.value
    ensures DataInv(s.(rows := s.rows[id := Row(v, stamp)]))
  {
    hide Tiled, CoveredOnce;
    var next := s.(rows := s.rows[id := Row(v, stamp)]);
    forall w: WrapperId ensures IngestOk(next, At(next, w)) {
      assert IngestOk(s, At(s, w)) && HolderOk(s, At(s, w));
    }
  }

  lemma SourceRemoveKeeps(s: System, id: RowId)
    requires DataInv(s)
    ensures DataInv(s.(rows := s.rows - {id}))
  {
    var next := s.(rows := s.rows - {id});
    forall w: WrapperId ensures IngestOk(next, At(next, w)) {
      assert IngestOk(s, At(s, w));
    }
  }

  lemma IngestRowKeeps(f: Faults, s: System, w: WrapperId, id: RowId)
    requires LockInv(s) && DataInv(s) && Apply(f, s, IngestRow(w, id)).Some?
    ensures DataInv(Apply(f, s, IngestRow(w, id)).value)
  {
    hide Tiled, CoveredOnce;
    var next := Apply(f, s, IngestRow(w, id)).value;
    var pc := At(s, w);
    assert IngestOk(s, pc) && HolderOk(s, pc);
    assert forall k :: Current(s, k) && k != id ==> Current(next, k);
    forall u: WrapperId ensures IngestOk(next, At(next, u)) {
      assert u != w ==> At(s, u).Away?;
    }
  }

  lemma WriteCursorKeeps(f: Faults, s: System, w: WrapperId)
    requires LockInv(s) && DataInv(s) && Apply(f, s, WriteCursor(w)).Some?
    ensures DataInv(Apply(f, s, WriteCursor(w)).value)
  {
    hide Tiled, CoveredOnce;
    var next := Apply(f, s, WriteCursor(w)).value;
    var g := At(s, w).window;
    assert IngestOk(s, At(s, w)) && HolderOk(s, At(s, w));
    forall id <- next.rows.Keys | EPOCH < next.rows[id].stamp <= g.hi ensures Current(next, id) {
      assert InWindow(g, s.rows[id].stamp) || s.rows[id].stamp <= g.lo;
      assert Current(s, id);
    }
    forall u: WrapperId ensures IngestOk(next, At(next, u)) {
      assert u != w ==> At(s, u).Away?;
    }
  }

  lemma OtherStepKeeps(f: Faults, s: System, step: Step)
    requires DataInv(s) && Apply(f, s, step).Some?
    requires !step.SourceWrite? && !step.SourceRemove? && !step.IngestRow? && !step.WriteCursor?
    ensures DataInv(Apply(f, s, step).value)
  {
    hide IsHighWater;
    var next := Apply(f, s, step).value;
    OnlyWrappersMoved(s, next);
    forall w: WrapperId ensures IngestOk(next, At(next, w)) {
      assert IngestOk(s, At(s, w));
    }
  }

  lemma StepKeepsData(f: Faults, s: System, step: Step)
    requires !f.lateWrites && !f.lockLoss && LockInv(s) && DataInv(s) && Apply(f, s, step).Some?
    ensures DataInv(Apply(f, s, step).value)
  {
    hide LockInv, DataInv;
    match step
    case SourceWrite(id, v, stamp) => SourceWriteKeeps(s, id, v, stamp);
    case SourceRemove(id) => SourceRemoveKeeps(s, id);
    case IngestRow(w, id) => IngestRowKeeps(f, s, w, id);
    case WriteCursor(w) => WriteCursorKeeps(f, s, w);
    case _ => OtherStepKeeps(f, s, step);
  }

  // ---------- whole runs ----------

  lemma {:induction false} RunKeepsLock(f: Faults, s: System, steps: seq<Step>)
    requires !f.lockLoss && LockInv(s) && RunSteps(f, s, steps).Some?
    ensures LockInv(RunSteps(f, s, steps).value)
    decreases |steps|
  {
    hide LockInv, Apply;
    if steps != [] {
      StepKeepsLock(f, s, steps[0]);
      RunKeepsLock(f, Apply(f, s, steps[0]).value, steps[1..]);
    }
  }

  lemma {:induction false} RunKeepsData(f: Faults, s: System, steps: seq<Step>)
    requires !f.lateWrites && !f.lockLoss && LockInv(s) && DataInv(s) && RunSteps(f, s, steps).Some?
    ensures DataInv(RunSteps(f, s, steps).value)
    decreases |steps|
  {
    hide LockInv, DataInv, Apply;
    if steps != [] {
      StepKeepsLock(f, s, steps[0]);
      StepKeepsData(f, s, steps[0]);
      RunKeepsData(f, Apply(f, s, steps[0]).value, steps[1..]);
    }
  }

  // s2 can be reached from the start.
  ghost predicate Reachable(f: Faults, s: System) {
    exists steps :: RunSteps(f, Start(), steps) == Some(s)
  }

  // While the lock holds, the windows that moved the cursor cover every stamp from
  // the epoch to the cursor exactly once, and the cursor only goes up.
  lemma WindowsTile(f: Faults, s: System)
    requires !f.lockLoss && Reachable(f, s)
    ensures Tiled(s) && CoveredOnce(s)
  {
    var steps :| RunSteps(f, Start(), steps) == Some(s);
    hide RunSteps, Apply;
    RunKeepsLock(f, Start(), steps);
  }

  lemma NothingIsMissed(f: Faults, s: System)
    requires !f.lateWrites && !f.lockLoss && Reachable(f, s)
    ensures NothingMissed(s)
  {
    var steps :| RunSteps(f, Start(), steps) == Some(s);
    hide RunSteps, Apply;
    RunKeepsData(f, Start(), steps);
  }
}
