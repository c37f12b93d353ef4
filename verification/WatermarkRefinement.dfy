// One run of the wrapper is a run of the protocol in which only that wrapper steps.
module WatermarkRefinement {
  import opened Runs
  import opened Text
  import opened Watermark
  import opened WatermarkWrapper

  // A step of the wrapper w that is no crash.
  predicate IsBy(w: WrapperId, step: Step) {
    && (|| step.TryLock? || step.ReadLastSeen? || step.ReadHighWater? || step.SelectWindow? || step.IngestRow?
        || step.IngestFails? || step.IngestSucceeds? || step.WriteCursor? || step.Unlock?)
    && step.who == w
  }

  ghost predicate RunsTo(f: Faults, w: WrapperId, s: System, x: System) {
    Reaches(Stepper(f), step => IsBy(w, step), s, x)
  }

  lemma RunsItself(f: Faults, w: WrapperId, s: System)
    ensures RunsTo(f, w, s, s)
  {
    ReachesItself(Stepper(f), step => IsBy(w, step), s);
  }

  lemma RunsOneMore(f: Faults, w: WrapperId, s: System, x: System, step: Step, y: System)
    requires RunsTo(f, w, s, x) && IsBy(w, step) && Apply(f, x, step) == Some(y)
    ensures RunsTo(f, w, s, y)
  {
    hide Apply;
    ReachesOneMore(Stepper(f), step => IsBy(w, step), s, x, step, y);
  }

  // The system while w holds the lock, with nothing but `seen` changed.
  function Inside(s: System, w: WrapperId, pc: Wrapper, seen: Option<int>): System {
    Moved(s, w, pc).(lock := Some(w), seen := seen)
  }

  lemma MovedOn(s: System, w: WrapperId, pc: Wrapper, pc2: Wrapper)
    ensures s.wrappers[w := pc][w := pc2] == s.wrappers[w := pc2]
  {
  }

  lemma ReadsCursor(f: Faults, w: WrapperId, s: System)
    requires At(s, w).Away? && s.lock.None?
    ensures RunsTo(f, w, s, Inside(s, w, KnowsCursor(s.cursor), s.seen))
  {
    RunsItself(f, w, s);
    hide RunsTo;
    MovedOn(s, w, Locked, KnowsCursor(s.cursor));
    RunsOneMore(f, w, s, s, TryLock(w), Inside(s, w, Locked, s.seen));
    RunsOneMore(f, w, s, Inside(s, w, Locked, s.seen), ReadLastSeen(w), Inside(s, w, KnowsCursor(s.cursor), s.seen));
  }

  lemma {:induction false} HighWaterExists(rows: map<RowId, Row>) returns (high: Option<int>)
    ensures IsHighWater(rows, high)
    decreases |rows|
  {
    if rows == map[] {
      high := None;
    } else {
      var id :| id in rows;
      var rest := rows - {id};
      assert rows.Keys == rest.Keys + {id};
      assert |rest.Keys| < |rows.Keys|;
      assert |rest| == |rest.Keys| && |rows| == |rows.Keys|;
      var h := HighWaterExists(rest);
      high := MaxSeen(h, rows[id].stamp);
    }
  }

  // What the wrapper leaves: the cursor, the target and the windows so far; it is
  // away again, and the others are where they were.
  ghost predicate Becomes(s: System, x: System, last: Option<int>, target: map<RowId, Version>, advanced: seq<Window>) {
    && x.cursor == last && x.target == target && x.advanced == advanced
    && x.rows == s.rows && x.lock == s.lock
    && (forall u: WrapperId :: At(x, u) == At(s, u))
  }

  // Without a row newer than the cursor the wrapper leaves at once.
  lemma FindsNothing(f: Faults, w: WrapperId, s: System) returns (x: System)
    requires At(s, w).Away? && s.lock.None? && !HasNewRows(s.rows, s.cursor)
    ensures RunsTo(f, w, s, x) && Becomes(s, x, s.cursor, s.target, s.advanced)
  {
    ReadsCursor(f, w, s);
    var high := HighWaterExists(s.rows);
    hide RunsTo;
    var seen := if high.None? then s.seen else MaxSeen(s.seen, high.value);
    var y := Inside(s, w, KnowsCursor(s.cursor), s.seen);
    x := Left(y.(seen := seen), w);
    assert high.Some? ==> s.cursor.Some? && high.value <= s.cursor.value;
    RunsOneMore(f, w, s, y, ReadHighWater(w, high), x);
  }

  // With one it selects the window up to the maximum.
  lemma SelectsNewRows(f: Faults, w: WrapperId, s: System, high: int)
    requires At(s, w).Away? && s.lock.None? && HasNewRows(s.rows, s.cursor) && IsHighWater(s.rows, Some(high))
    ensures var g := Window(LowerBound(s.cursor), high);
            var snapshot := Selected(s.rows, g);
            RunsTo(f, w, s, Inside(s, w, Ingesting(g, snapshot, snapshot.Keys), MaxSeen(s.seen, high)))
  {
    ReadsCursor(f, w, s);
    hide RunsTo, Selected;
    var g, seen := Window(LowerBound(s.cursor), high), MaxSeen(s.seen, high);
    var snapshot := Selected(s.rows, g);
    var x, y := Inside(s, w, KnowsCursor(s.cursor), s.seen), Inside(s, w, Windowed(g), seen);
    MovedOn(s, w, KnowsCursor(s.cursor), Windowed(g));
    MovedOn(s, w, Windowed(g), Ingesting(g, snapshot, snapshot.Keys));
    RunsOneMore(f, w, s, x, ReadHighWater(w, Some(high)), y);
    RunsOneMore(f, w, s, y, SelectWindow(w), Inside(s, w, Ingesting(g, snapshot, snapshot.Keys), seen));
  }

  // The system when w has ingested the rows `ids` besides.
  function Stored(x: System, w: WrapperId, ids: set<RowId>): System
    requires At(x, w).Ingesting? && ids <= At(x, w).left <= At(x, w).snapshot.Keys
  {
    var pc := At(x, w);
    Moved(x, w, pc.(left := pc.left - ids)).(target := x.target + map id <- ids :: pc.snapshot[id])
  }

  lemma NothingStoredYet(x: System, w: WrapperId)
    requires At(x, w).Ingesting? && At(x, w).left <= At(x, w).snapshot.Keys
    ensures Stored(x, w, {}) == x
  {
    var pc := At(x, w);
    assert pc.(left := pc.left - {}) == pc;
    assert x.wrappers[w := pc] == x.wrappers;
    assert Stored(x, w, {}).target == x.target;
  }

  lemma StoredOneFirst(x: System, w: WrapperId, ids: set<RowId>, id: RowId)
    requires At(x, w).Ingesting? && id in ids && ids <= At(x, w).left <= At(x, w).snapshot.Keys
    ensures var pc := At(x, w);
            var y := Moved(x, w, pc.(left := pc.left - {id})).(target := x.target[id := pc.snapshot[id]]);
            At(y, w) == pc.(left := pc.left - {id}) && Stored(y, w, ids - {id}) == Stored(x, w, ids)
  {
    var pc := At(x, w);
    var pc2, target2 := pc.(left := pc.left - {id}), x.target[id := pc.snapshot[id]];
    assert pc2.left - (ids - {id}) == pc.left - ids;
    MovedOn(x, w, pc2, pc.(left := pc.left - ids));
    assert target2 + (map i <- ids - {id} :: pc.snapshot[i]) == x.target + map i <- ids :: pc.snapshot[i];
  }

  // Some of the selected rows are ingested, one by one.
  lemma {:induction false} Ingests(f: Faults, w: WrapperId, s: System, x: System, ids: set<RowId>)
    requires RunsTo(f, w, s, x) && At(x, w).Ingesting? && ids <= At(x, w).left <= At(x, w).snapshot.Keys
    ensures RunsTo(f, w, s, Stored(x, w, ids))
    decreases |ids|
  {
    hide RunsTo, Stored;
    if ids == {} {
      NothingStoredYet(x, w);
    } else {
      var id :| id in ids;
      var pc := At(x, w);
      var y := Moved(x, w, pc.(left := pc.left - {id})).(target := x.target[id := pc.snapshot[id]]);
      RunsOneMore(f, w, s, x, IngestRow(w, id), y);
      StoredOneFirst(x, w, ids, id);
      Ingests(f, w, s, y, ids - {id});
    }
  }

  // The ingest fails, and the cursor stays.
  lemma Fails(f: Faults, w: WrapperId, s: System, x: System)
    requires RunsTo(f, w, s, x) && At(s, w).Away? && s.lock.None?
    requires At(x, w).Ingesting? && x == Inside(s, w, At(x, w), x.seen).(target := x.target)
    ensures RunsTo(f, w, s, Left(x, w)) && Becomes(s, Left(x, w), s.cursor, x.target, s.advanced)
  {
    hide RunsTo;
    RunsOneMore(f, w, s, x, IngestFails(w), Left(x, w));
  }

  // The ingest succeeds, and the cursor moves to the end of the window.
  lemma Advances(f: Faults, w: WrapperId, s: System, x: System) returns (y: System)
    requires RunsTo(f, w, s, x) && At(s, w).Away? && s.lock.None?
    requires At(x, w).Ingesting? && At(x, w).left == {} && x == Inside(s, w, At(x, w), x.seen).(target := x.target)
    ensures RunsTo(f, w, s, y)
    ensures Becomes(s, y, Some(At(x, w).window.hi), x.target, s.advanced + [At(x, w).window])
  {
    hide RunsTo;
    var g := At(x, w).window;
    var x1 := Moved(x, w, Ingested(g));
    RunsOneMore(f, w, s, x, IngestSucceeds(w), x1);
    var x2 := Moved(x1, w, Finished).(cursor := Some(g.hi), advanced := s.advanced + [g]);
    RunsOneMore(f, w, s, x1, WriteCursor(w), x2);
    y := Left(x2, w);
    RunsOneMore(f, w, s, x2, Unlock(w), y);
  }

  // The rows a run stored.
  ghost function StoredOf(rows: map<RowId, Row>, last: Option<int>, was: map<RowId, Version>,
                          target: map<RowId, Version>, advanced: bool): set<RowId>
  {
    set id <- rows.Keys | IsNew(rows, last, id) && (advanced || !SameRow(target, was, id))
  }

  lemma StoredRowsMakeTarget(rows: map<RowId, Row>, last: Option<int>, was: map<RowId, Version>, rc: int,
                             advanced: bool, last2: Option<int>, target: map<RowId, Version>)
    requires Leaves(rows, false, last, was, rc, advanced, last2, target)
    ensures target == was + map id <- StoredOf(rows, last, was, target, advanced) :: rows[id].version
  {
    var ids := StoredOf(rows, last, was, target, advanced);
    var made := was + map id <- ids :: rows[id].version;
    forall id ensures id in target <==> id in made
              ensures id in target ==> target[id] == made[id] {
      assert SameRow(target, was, id) || (IsNew(rows, last, id) && Holds(target, rows, id));
    }
  }

  // The wrapper selects the new rows and ingests those that the run stored.
  lemma StoresNewRows(f: Faults, w: WrapperId, s: System, rc: int, advanced: bool, last: Option<int>,
                      target: map<RowId, Version>, high: int) returns (x: System)
    requires At(s, w).Away? && s.lock.None? && HasNewRows(s.rows, s.cursor) && IsHighWater(s.rows, Some(high))
    requires Leaves(s.rows, false, s.cursor, s.target, rc, advanced, last, target)
    ensures RunsTo(f, w, s, x) && At(x, w).Ingesting? && x == Inside(s, w, At(x, w), x.seen).(target := target)
    ensures At(x, w).window == Window(LowerBound(s.cursor), high) && (advanced ==> At(x, w).left == {})
  {
    hide RunsTo, InWindow, SameRow, Holds, Leaves;
    var g := Window(LowerBound(s.cursor), high);
    var snapshot := Selected(s.rows, g);
    SelectsNewRows(f, w, s, high);
    InTheWindow(s.rows, s.cursor, high);
    var y := Inside(s, w, Ingesting(g, snapshot, snapshot.Keys), MaxSeen(s.seen, high));
    var ids := StoredOf(s.rows, s.cursor, s.target, target, advanced);
    Ingests(f, w, s, y, ids);
    StoredRowsMakeTarget(s.rows, s.cursor, s.target, rc, advanced, last, target);
    x := Stored(y, w, ids);
    assert (map id <- ids :: snapshot[id]) == map id <- ids :: s.rows[id].version;
    MovedOn(s, w, At(y, w), At(x, w));
  }

  // What `CursorStore.RunWrapper` makes of its cursor and its target is what a run
  // of the protocol by one wrapper makes of them, and it moves the cursor by the
  // window from the old cursor to the new one.
  lemma WrapperRunIsAProtocolRun(f: Faults, w: WrapperId, s: System, rc: int, advanced: bool, last: Option<int>,
                                 target: map<RowId, Version>)
    requires At(s, w).Away? && Leaves(s.rows, s.lock.Some?, s.cursor, s.target, rc, advanced, last, target)
    ensures exists x :: RunsTo(f, w, s, x) && Becomes(s, x, last, target,
              s.advanced + if advanced then [Window(LowerBound(s.cursor), last.value)] else [])
  {
    hide RunsTo, IsNew, SameRow, Holds;
    if s.lock.Some? {
      RunsItself(f, w, s);
      RunsOneMore(f, w, s, s, TryLock(w), s);
      assert Becomes(s, s, last, target, s.advanced + []);
    } else if !HasNewRows(s.rows, s.cursor) {
      var x := FindsNothing(f, w, s);
      assert Becomes(s, x, last, target, s.advanced + []);
    } else {
      hide Becomes;
      var high := last;
      if !advanced {
        high := HighWaterExists(s.rows);
      }
      var x := StoresNewRows(f, w, s, rc, advanced, last, target, high.value);
      if advanced {
        var y := Advances(f, w, s, x);
      } else {
        Fails(f, w, s, x);
        assert s.advanced + [] == s.advanced;
      }
    }
  }
}
