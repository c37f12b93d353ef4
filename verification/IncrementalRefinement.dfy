// One run of the cell is a run of the protocol in which no file changes.
module IncrementalRefinement {
  import opened IncrementalCell
  import opened IncrementalRun
  import opened Runs
  import opened Text

  // Steps of a run that is not stopped, and no changes to files.
  predicate IsQuiet(step: Step) {
    !step.Edit? && !step.Remove? && !step.Stop?
  }

  ghost predicate RunsTo(st: Settings, w: World, w2: World) {
    Reaches(Stepper(st), IsQuiet, w, w2)
  }

  lemma RunsOneMore(st: Settings, w: World, x: World, step: Step, y: World)
    requires RunsTo(st, w, x) && IsQuiet(step) && Apply(st, x, step) == Some(y)
    ensures RunsTo(st, w, y)
  {
    hide Apply;
    ReachesOneMore(Stepper(st), IsQuiet, w, x, step, y);
  }

  // The world when the first i files have been looked at.
  function ScannedTo(st: Settings, w: World, paths: seq<Path>, i: nat): World
    requires i <= |paths|
  {
    var c := w.cursor;
    w.(touched := {},
       sink := Written(st, w.disk, c, if st.keepsRows then w.sink else map[], paths, i),
       run := Scanning(c, Merged(w.disk, c, paths, i), paths[i..], ChangedCount(w.disk, c, paths, i)))
  }

  lemma ScanStarts(st: Settings, w: World, paths: seq<Path>)
    requires w.run.Idle? && Listed(paths, w.disk)
    ensures RunsTo(st, w, ScannedTo(st, w, paths, 0))
  {
    ReachesItself(Stepper(st), IsQuiet, w);
    assert RunsTo(st, w, w);
    hide RunsTo, Distinct;
    var w1 := w.(touched := {}, sink := if st.keepsRows then w.sink else map[], run := Loaded(w.cursor));
    RunsOneMore(st, w, w, Begin, w1);
    assert paths[0..] == paths;
    RunsOneMore(st, w, w1, Glob(paths), ScannedTo(st, w, paths, 0));
  }

  lemma FirstOf(paths: seq<Path>, i: nat)
    requires i < |paths|
    ensures paths[i..] != [] && paths[i..][0] == paths[i] && paths[i..][1..] == paths[i + 1..]
  {
  }

  lemma ListedOnDisk(paths: seq<Path>, disk: map<Path, Version>, i: nat)
    requires Listed(paths, disk) && i < |paths|
    ensures paths[i] in disk
  {
    assert paths[i] in (set q | q in paths);
  }

  // An unchanged file is passed over.
  lemma PassesOver(st: Settings, w: World, paths: seq<Path>, i: nat)
    requires Listed(paths, w.disk) && i < |paths| && RunsTo(st, w, ScannedTo(st, w, paths, i))
    requires !IsChanged(w.disk, w.cursor, paths[i])
    ensures RunsTo(st, w, ScannedTo(st, w, paths, i + 1))
  {
    hide RunsTo, Listed, Written, Merged, ChangedCount;
    ListedOnDisk(paths, w.disk, i);
    FirstOf(paths, i);
    ScanStep(st, w.disk, w.cursor, if st.keepsRows then w.sink else map[], paths, i);
    RunsOneMore(st, w, ScannedTo(st, w, paths, i), Look, ScannedTo(st, w, paths, i + 1));
  }

  // The world when the i-th file, a changed one, has been read.
  function ReadAt(st: Settings, w: World, paths: seq<Path>, i: nat): World
    requires i < |paths| && paths[i] in w.disk
  {
    var x, v := ScannedTo(st, w, paths, i), w.disk[paths[i]];
    x.(run := Parsed(x.run.loaded, x.run.newCursor, x.run.todo, x.run.docs, v, v))
  }

  lemma ReadsChanged(st: Settings, w: World, paths: seq<Path>, i: nat)
    requires i < |paths| && RunsTo(st, w, ScannedTo(st, w, paths, i)) && IsChanged(w.disk, w.cursor, paths[i])
    ensures RunsTo(st, w, ReadAt(st, w, paths, i))
  {
    hide RunsTo, Written, Merged, ChangedCount;
    FirstOf(paths, i);
    var x, v := ScannedTo(st, w, paths, i), w.disk[paths[i]];
    var y := x.(run := Hashed(x.run.loaded, x.run.newCursor, x.run.todo, x.run.docs, v));
    RunsOneMore(st, w, x, Look, y);
    RunsOneMore(st, w, y, Parse, ReadAt(st, w, paths, i));
  }

  // The world when that file has been written.
  function WrittenAt(st: Settings, w: World, paths: seq<Path>, i: nat): World
    requires i < |paths| && paths[i] in w.disk
  {
    var x := ReadAt(st, w, paths, i);
    x.(sink := Put(st, x.sink, paths[i], x.run.content),
       run := Wrote(x.run.loaded, x.run.newCursor, x.run.todo, x.run.docs, x.run.hash))
  }

  lemma WritesChanged(st: Settings, w: World, paths: seq<Path>, i: nat)
    requires i < |paths| && paths[i] in w.disk && RunsTo(st, w, ReadAt(st, w, paths, i))
    requires !LimitReached(st, ChangedCount(w.disk, w.cursor, paths, i))
    ensures RunsTo(st, w, WrittenAt(st, w, paths, i))
  {
    hide RunsTo, Written, Merged, ChangedCount, Put, LimitReached;
    FirstOf(paths, i);
    RunsOneMore(st, w, ReadAt(st, w, paths, i), Write, WrittenAt(st, w, paths, i));
  }

  // A changed file is read, written and merged below the limit.
  lemma Rewrites(st: Settings, w: World, paths: seq<Path>, i: nat)
    requires i < |paths| && RunsTo(st, w, ScannedTo(st, w, paths, i)) && IsChanged(w.disk, w.cursor, paths[i])
    requires !LimitReached(st, ChangedCount(w.disk, w.cursor, paths, i))
    ensures RunsTo(st, w, ScannedTo(st, w, paths, i + 1))
  {
    ReadsChanged(st, w, paths, i);
    WritesChanged(st, w, paths, i);
    hide RunsTo, Written, Merged, ChangedCount, Put, LimitReached;
    FirstOf(paths, i);
    ScanStep(st, w.disk, w.cursor, if st.keepsRows then w.sink else map[], paths, i);
    RunsOneMore(st, w, WrittenAt(st, w, paths, i), Merge, ScannedTo(st, w, paths, i + 1));
  }

  lemma {:induction false} Scans(st: Settings, w: World, paths: seq<Path>, i: nat)
    requires w.run.Idle? && Listed(paths, w.disk) && i <= |paths|
    requires st.limit.Some? ==> ChangedCount(w.disk, w.cursor, paths, i) <= st.limit.value
    ensures RunsTo(st, w, ScannedTo(st, w, paths, i))
  {
    hide RunsTo, Written, Merged, ChangedCount, Listed;
    if i == 0 {
      ScanStarts(st, w, paths);
    } else {
      ScanStep(st, w.disk, w.cursor, map[], paths, i - 1);
      Scans(st, w, paths, i - 1);
      if IsChanged(w.disk, w.cursor, paths[i - 1]) {
        Rewrites(st, w, paths, i - 1);
      } else {
        PassesOver(st, w, paths, i - 1);
      }
    }
  }

  lemma NoWriteAtLimit(st: Settings, x: World)
    requires x.run.Parsed? && x.run.todo != [] && LimitReached(st, x.run.docs)
    ensures Apply(st, x, Write) == Some(x.(run := Idle))
  {
  }

  // A changed file that comes up at the limit is not written.
  lemma StopsBeforeWrite(st: Settings, w: World, paths: seq<Path>, i: nat)
    requires i < |paths| && RunsTo(st, w, ScannedTo(st, w, paths, i)) && IsChanged(w.disk, w.cursor, paths[i])
    requires LimitReached(st, ChangedCount(w.disk, w.cursor, paths, i))
    ensures RunsTo(st, w, ScannedTo(st, w, paths, i).(run := Idle))
  {
    ReadsChanged(st, w, paths, i);
    hide RunsTo, Written, Merged, ChangedCount, LimitReached, Apply;
    FirstOf(paths, i);
    NoWriteAtLimit(st, ReadAt(st, w, paths, i));
    RunsOneMore(st, w, ReadAt(st, w, paths, i), Write, ScannedTo(st, w, paths, i).(run := Idle));
  }

  lemma StopsAfterScan(st: Settings, w: World, paths: seq<Path>)
    requires RunsTo(st, w, ScannedTo(st, w, paths, |paths|))
    requires LimitReached(st, ChangedCount(w.disk, w.cursor, paths, |paths|))
    ensures RunsTo(st, w, ScannedTo(st, w, paths, |paths|).(run := Idle))
  {
    hide RunsTo, Written, Merged, ChangedCount, LimitReached;
    var x := ScannedTo(st, w, paths, |paths|);
    assert x.run.todo == [];
    RunsOneMore(st, w, x, EndScan, x.(run := Idle));
  }

  // The world after a run that stopped at the limit.
  lemma StopsAtLimit(st: Settings, w: World, paths: seq<Path>, seen: nat)
    requires w.run.Idle? && Listed(paths, w.disk) && GetsThrough(st, w.disk, w.cursor, paths, seen)
    requires LimitReached(st, ChangedCount(w.disk, w.cursor, paths, |paths|))
    ensures RunsTo(st, w, w.(touched := {}, sink := SinkLeft(st, w.disk, w.cursor, w.sink, paths, seen, false)))
  {
    hide RunsTo, Written, Merged, ChangedCount, Listed;
    Scans(st, w, paths, seen);
    if seen < |paths| {
      StopsBeforeWrite(st, w, paths, seen);
    } else {
      StopsAfterScan(st, w, paths);
    }
  }

  // The pruned documents are deleted one by one.
  lemma {:induction false} Deletes(st: Settings, w: World, x: World)
    requires RunsTo(st, w, x) && x.run.Pruning?
    ensures RunsTo(st, w, x.(sink := x.sink - DocsOf(st, x.run.gone), run := x.run.(gone := {})))
    decreases |x.run.gone|
  {
    hide RunsTo;
    var gone := x.run.gone;
    if gone == {} {
      assert x.sink - DocsOf(st, gone) == x.sink;
    } else {
      var p :| p in gone;
      var y := x.(sink := x.sink - {st.docOf(p)}, run := x.run.(gone := gone - {p}));
      RunsOneMore(st, w, x, DeleteOne(p), y);
      Deletes(st, w, y);
      assert DocsOf(st, gone) == {st.docOf(p)} + DocsOf(st, gone - {p});
      assert x.sink - {st.docOf(p)} - DocsOf(st, gone - {p}) == x.sink - DocsOf(st, gone);
    }
  }

  // With nothing left to prune, the next cursor is trimmed, written and swapped in.
  lemma Saves(st: Settings, w: World, x: World)
    requires RunsTo(st, w, x) && x.run.Pruning? && x.run.gone == {}
    ensures var n := x.run.newCursor;
            RunsTo(st, w, x.(cursor := map p | p in n && p in x.disk :: n[p], temp := Absent, run := Idle))
  {
    hide RunsTo;
    var c, n := x.run.loaded, map p | p in x.run.newCursor && p in x.disk :: x.run.newCursor[p];
    var x1 := x.(run := Saving(c, n));
    RunsOneMore(st, w, x, Trim, x1);
    var x2 := x.(temp := Full(n), run := TempWritten(c, n));
    RunsOneMore(st, w, x1, WriteTemp, x2);
    RunsOneMore(st, w, x2, Replace, x.(cursor := n, temp := Absent, run := Idle));
  }

  lemma EndsScan(st: Settings, w: World, paths: seq<Path>)
    requires RunsTo(st, w, ScannedTo(st, w, paths, |paths|))
    requires !LimitReached(st, ChangedCount(w.disk, w.cursor, paths, |paths|))
    ensures RunsTo(st, w, ScannedTo(st, w, paths, |paths|).(
              run := Pruning(w.cursor, Merged(w.disk, w.cursor, paths, |paths|), w.cursor.Keys - w.disk.Keys)))
  {
    hide RunsTo, Written, Merged, ChangedCount, LimitReached;
    var x := ScannedTo(st, w, paths, |paths|);
    assert x.run.todo == [];
    RunsOneMore(st, w, x, EndScan, x.(
      run := Pruning(w.cursor, Merged(w.disk, w.cursor, paths, |paths|), w.cursor.Keys - w.disk.Keys)));
  }

  // The world after a run that got through all files below the limit.
  lemma Completes(st: Settings, w: World, paths: seq<Path>)
    requires w.run.Idle? && Listed(paths, w.disk)
    requires st.limit.Some? ==> ChangedCount(w.disk, w.cursor, paths, |paths|) <= st.limit.value
    requires !LimitReached(st, ChangedCount(w.disk, w.cursor, paths, |paths|))
    ensures RunsTo(st, w, w.(touched := {}, sink := SinkLeft(st, w.disk, w.cursor, w.sink, paths, |paths|, true),
                             cursor := w.disk, temp := Absent))
  {
    hide RunsTo, Written, Merged, ChangedCount, Listed, DocsOf, LimitReached;
    Scans(st, w, paths, |paths|);
    EndsScan(st, w, paths);
    var x := ScannedTo(st, w, paths, |paths|).(
      run := Pruning(w.cursor, Merged(w.disk, w.cursor, paths, |paths|), w.cursor.Keys - w.disk.Keys));
    Deletes(st, w, x);
    MergedIsDisk(w.disk, w.cursor, paths);
    Saves(st, w, x.(sink := x.sink - DocsOf(st, x.run.gone), run := x.run.(gone := {})));
  }

  // What `Cell.RunCell` makes of its sink and its cursor is what a run of the
  // protocol, not stopped and with no file changing, makes of them.
  lemma CellRunIsAProtocolRun(st: Settings, w: World, paths: seq<Path>, seen: nat, completed: bool)
    requires w.run.Idle? && Listed(paths, w.disk) && GetsThrough(st, w.disk, w.cursor, paths, seen)
    requires completed == !LimitReached(st, ChangedCount(w.disk, w.cursor, paths, |paths|))
    requires completed ==> seen == |paths|
    ensures RunsTo(st, w, w.(touched := {},
                             sink := SinkLeft(st, w.disk, w.cursor, w.sink, paths, seen, completed),
                             cursor := if completed then w.disk else w.cursor,
                             temp := if completed then Absent else w.temp))
  {
    hide RunsTo, Listed, ChangedCount, Written, DocsOf;
    if completed {
      Completes(st, w, paths);
    } else {
      StopsAtLimit(st, w, paths, seen);
    }
  }
}
