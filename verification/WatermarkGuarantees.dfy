// Exactly which faults break the watermark wrapper.
module WatermarkGuarantees {
  import opened Runs
  import opened Text
  import opened Watermark

  // ---------- reaching states ----------

  lemma StartIsReachable(f: Faults)
    ensures Reachable(f, Start())
  {
    assert RunSteps(f, Start(), []) == Some(Start());
  }

  lemma ReachableThrough(f: Faults, s: System, step: Step, next: System)
    requires Reachable(f, s) && Apply(f, s, step) == Some(next)
    ensures Reachable(f, next)
  {
    hide Apply, Start;
    var steps :| RunSteps(f, Start(), steps) == Some(s);
    RunOneMore(Stepper(f), Start(), steps, s, step);
    assert RunSteps(f, Start(), steps + [step]) == Some(next);
  }

  lemma OneRowSelected(row: Row)
    requires row.stamp > EPOCH
    ensures var rows: map<RowId, Row> := map[0 := row];
            && IsHighWater(rows, Some(row.stamp))
            && Selected(rows, Window(EPOCH, row.stamp)) == map[0 := row.version]
            && Selected(rows, Window(EPOCH, row.stamp)).Keys == {0}
  {
    var rows: map<RowId, Row> := map[0 := row];
    assert 0 in rows.Keys;
    assert Selected(rows, Window(EPOCH, row.stamp)) == map[0 := row.version];
  }

  // A free wrapper takes the lock and selects the rows of a window when the source
  // holds the one row 0.
  lemma SelectsOneRow(f: Faults, s: System, w: WrapperId, row: Row) returns (next: System)
    requires Reachable(f, s) && s.rows == map[0 := row]
    requires At(s, w).Away? && s.lock.None? && s.cursor.None? && row.stamp > EPOCH
    ensures Reachable(f, next)
    ensures next == Moved(s, w, Ingesting(Window(EPOCH, row.stamp), map[0 := row.version], {0}))
                    .(lock := Some(w), seen := MaxSeen(s.seen, row.stamp))
  {
    hide Reachable, MaxSeen, IsHighWater, Selected;
    var g := Window(EPOCH, row.stamp);
    OneRowSelected(row);
    var s1 := Moved(s, w, Locked).(lock := Some(w));
    ReachableThrough(f, s, TryLock(w), s1);
    var s2 := Moved(s1, w, KnowsCursor(None));
    ReachableThrough(f, s1, ReadLastSeen(w), s2);
    var s3 := Moved(s2.(seen := MaxSeen(s.seen, row.stamp)), w, Windowed(g));
    ReachableThrough(f, s2, ReadHighWater(w, Some(row.stamp)), s3);
    var s4 := Moved(s3, w, Ingesting(g, map[0 := row.version], {0}));
    ReachableThrough(f, s3, SelectWindow(w), s4);
    next := Moved(s, w, Ingesting(g, map[0 := row.version], {0})).(lock := Some(w), seen := MaxSeen(s.seen, row.stamp));
    assert next.wrappers == s4.wrappers;
  }

  // It ingests that row and writes the cursor.
  lemma AdvancesOneRow(f: Faults, s: System, w: WrapperId, g: Window, v: Version) returns (next: System)
    requires Reachable(f, s) && At(s, w) == Ingesting(g, map[0 := v], {0})
    ensures Reachable(f, next)
    ensures next == Moved(s, w, Finished).(target := s.target[0 := v], cursor := Some(g.hi),
                                           advanced := s.advanced + [g])
  {
    hide Reachable;
    var s1 := Moved(s, w, Ingesting(g, map[0 := v], {})).(target := s.target[0 := v]);
    assert At(s, w).left - {0} == {};
    ReachableThrough(f, s, IngestRow(w, 0), s1);
    var s2 := Moved(s1, w, Ingested(g));
    ReachableThrough(f, s1, IngestSucceeds(w), s2);
    var s3 := Moved(s2, w, Finished).(cursor := Some(g.hi), advanced := s.advanced + [g]);
    ReachableThrough(f, s2, WriteCursor(w), s3);
    next := Moved(s, w, Finished).(target := s.target[0 := v], cursor := Some(g.hi), advanced := s.advanced + [g]);
    assert next.wrappers == s3.wrappers;
  }

  // ---------- what each fault breaks ----------

  // A row stamped at the maximum already read is never selected.
  lemma LateWriteIsMissed(f: Faults) returns (s: System)
    requires f.lateWrites
    ensures Reachable(f, s) && !NothingMissed(s)
  {
    hide Reachable;
    StartIsReachable(f);
    var s0 := Apply(f, Start(), SourceWrite(0, 1, 5)).value;
    ReachableThrough(f, Start(), SourceWrite(0, 1, 5), s0);
    var s1 := SelectsOneRow(f, s0, 0, Row(1, 5));
    var s2 := AdvancesOneRow(f, s1, 0, Window(EPOCH, 5), 1);
    s := s2.(rows := s2.rows[1 := Row(1, 5)]);
    ReachableThrough(f, s2, SourceWrite(1, 1, 5), s);
    assert 1 in s.rows.Keys && EPOCH < s.rows[1].stamp <= s.cursor.value && !Current(s, 1);
  }

  // Wrapper 0 loses the lock in the middle of its ingest, and wrapper 1 ingests a
  // later version of the same row.
  lemma TwoWrappers(f: Faults) returns (s: System)
    requires f.lockLoss
    ensures Reachable(f, s)
    ensures At(s, 0) == Ingesting(Window(EPOCH, 5), map[0 := 1], {0})
    ensures s.rows == map[0 := Row(2, 6)] && s.cursor == Some(6) && s.advanced == [Window(EPOCH, 6)]
  {
    hide Reachable;
    StartIsReachable(f);
    var s0 := Apply(f, Start(), SourceWrite(0, 1, 5)).value;
    ReachableThrough(f, Start(), SourceWrite(0, 1, 5), s0);
    var s1 := SelectsOneRow(f, s0, 0, Row(1, 5));
    var s2 := s1.(lock := None);
    ReachableThrough(f, s1, LoseLock(0), s2);
    var s3 := s2.(rows := map[0 := Row(2, 6)]);
    assert s2.rows[0 := Row(2, 6)] == s3.rows;
    ReachableThrough(f, s2, SourceWrite(0, 2, 6), s3);
    var s4 := SelectsOneRow(f, s3, 1, Row(2, 6));
    s := AdvancesOneRow(f, s4, 1, Window(EPOCH, 6), 2);
  }

  // Then the first ingest puts the old version back.
  lemma LostLockIsMissed(f: Faults) returns (s: System)
    requires f.lockLoss
    ensures Reachable(f, s) && !NothingMissed(s)
  {
    hide Reachable;
    var s1 := TwoWrappers(f);
    s := Moved(s1, 0, At(s1, 0).(left := {})).(target := s1.target[0 := 1]);
    assert At(s1, 0).left - {0} == {};
    ReachableThrough(f, s1, IngestRow(0, 0), s);
    assert 0 in s.rows.Keys && EPOCH < s.rows[0].stamp <= s.cursor.value && !Current(s, 0);
  }

  // And when it succeeds, the cursor goes back.
  lemma LostLockTurnsBack(f: Faults) returns (s: System)
    requires f.lockLoss
    ensures Reachable(f, s) && !Tiled(s) && !CoveredOnce(s)
  {
    hide Reachable;
    var s1 := TwoWrappers(f);
    s := AdvancesOneRow(f, s1, 0, Window(EPOCH, 5), 1);
    assert s.advanced == [Window(EPOCH, 6), Window(EPOCH, 5)];
    assert s.advanced[1 - 1].hi >= s.advanced[1].hi;
    assert s.advanced[..1] == [Window(EPOCH, 6)];
    assert Covering([Window(EPOCH, 6)], 1) == 1;
    assert Covering(s.advanced, 1) == 2;
  }

  // ---------- exactly when ----------

  // The windows tile the time up to the cursor, and the cursor only goes up, in
  // every reachable state exactly when the lock cannot be lost; late writes do
  // not matter.
  lemma TilesExactly(f: Faults)
    ensures (forall s :: Reachable(f, s) ==> Tiled(s) && CoveredOnce(s)) <==> !f.lockLoss
  {
    hide Reachable, Tiled, CoveredOnce;
    if f.lockLoss {
      var s := LostLockTurnsBack(f);
    } else {
      forall s | Reachable(f, s) ensures Tiled(s) && CoveredOnce(s) {
        WindowsTile(f, s);
      }
    }
  }

  // Every row stamped in (epoch, cursor] has been ingested in its current version,
  // in every reachable state, exactly when writes are stamped above every maximum
  // read and the lock cannot be lost.
  lemma NothingMissedExactly(f: Faults)
    ensures (forall s :: Reachable(f, s) ==> NothingMissed(s)) <==> !f.lateWrites && !f.lockLoss
  {
    hide Reachable, NothingMissed;
    if f.lateWrites {
      var s := LateWriteIsMissed(f);
    } else if f.lockLoss {
      var s := LostLockIsMissed(f);
    } else {
      forall s | Reachable(f, s) ensures NothingMissed(s) {
        NothingIsMissed(f, s);
      }
    }
  }
}
