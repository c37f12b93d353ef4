// What incremental ingest promises over every interleaving of edits, crashes,
// truncated runs and complete runs, and exactly when it does.
module IncrementalGuarantees {
  import opened Runs
  import opened Text
  import opened IncrementalRun

  // w2 can be reached from w.
  ghost predicate Reaches(st: Settings, w: World, w2: World) {
    exists steps :: RunSteps(st, w, steps) == Some(w2)
  }

  // ---------- safety ----------

  lemma StartIsOk(st: Settings)
    ensures Inv(st, Start())
  {
  }

  // Under faithful settings no stale file is ever skipped.
  lemma NeverSkipsStale(st: Settings, w: World)
    requires Faithful(st) && Reaches(st, Start(), w)
    ensures NoStaleSkip(st, w)
  {
    hide Faithful, Apply, RunOk, SinkHoldsVersions;
    var steps :| RunSteps(st, Start(), steps) == Some(w);
    StartIsOk(st);
    RunKeeps(st, Start(), steps);
  }

  // When a run completes, every file that did not change since it began is in the
  // sink in its current version and named by the saved cursor, and every document
  // of the loaded cursor whose file was gone is out of the sink.
  lemma CompleteRunIsCurrent(st: Settings, w: World, p: Path)
    requires Faithful(st) && Reaches(st, Start(), w)
    requires Apply(st, w, Replace).Some? && p !in w.touched
    ensures var next := Apply(st, w, Replace).value;
            && (p in w.disk ==> Names(next.cursor, next, p) && Stored(st, next, p) == st.chunksOf(next.disk[p]))
            && (p in w.cursor && p !in w.disk ==> st.docOf(p) !in next.sink)
  {
    hide Faithful, RunSteps, SinkHoldsVersions, AllUsed;
    var steps :| RunSteps(st, Start(), steps) == Some(w);
    StartIsOk(st);
    RunKeeps(st, Start(), steps);
  }

  // ---------- reaching worlds ----------

  lemma ReachesSelf(st: Settings, w: World)
    ensures Reaches(st, w, w)
  {
    assert RunSteps(st, w, []) == Some(w);
  }

  lemma ReachesThrough(st: Settings, w: World, x: World, step: Step, y: World)
    requires Reaches(st, w, x) && Apply(st, x, step) == Some(y)
    ensures Reaches(st, w, y)
  {
    hide Apply;
    var steps :| RunSteps(st, w, steps) == Some(x);
    RunOneMore(Stepper(st), w, steps, x, step);
    assert RunSteps(st, w, steps + [step]) == Some(y);
  }

  // A run begins and lists the files.
  lemma ScanBegins(st: Settings, w0: World, w: World, paths: seq<Path>) returns (next: World)
    requires Reaches(st, w0, w) && w.run.Idle? && Distinct(paths) && (set q | q in paths) == w.disk.Keys
    ensures Reaches(st, w0, next)
    ensures next == w.(touched := {}, sink := if st.keepsRows then w.sink else map[],
                       run := Scanning(w.cursor, w.cursor, paths, 0))
  {
    hide Reaches, Distinct;
    var w1 := w.(touched := {}, sink := if st.keepsRows then w.sink else map[], run := Loaded(w.cursor));
    ReachesThrough(st, w0, w, Begin, w1);
    next := w1.(run := Scanning(w.cursor, w.cursor, paths, 0));
    ReachesThrough(st, w0, w1, Glob(paths), next);
  }

  // It passes over an unchanged first file.
  lemma ScanPassesOver(st: Settings, w0: World, w: World, c: Cursor, first: seq<Path>, todo: seq<Path>)
    returns (next: World)
    requires Reaches(st, w0, w) && w.run == Scanning(c, c, first + todo, 0)
    requires |first| <= 1 && forall q <- first :: Names(c, w, q)
    ensures Reaches(st, w0, next) && next == w.(run := Scanning(c, c, todo, 0))
  {
    hide Reaches;
    next := w.(run := Scanning(c, c, todo, 0));
    if |first| == 1 {
      assert first[0] in first && (first + todo)[1..] == todo;
      ReachesThrough(st, w0, w, Look, next);
    } else {
      assert first + todo == todo;
    }
  }

  // A complete run over a disk on which only p, at version v, is new or changed.
  lemma OneChangeRun(st: Settings, w0: World, w: World, rest: seq<Path>, p: Path, v: Version) returns (next: World)
    requires Reaches(st, w0, w) && w.run.Idle? && p in w.disk && w.disk[p] == v
    requires |rest| <= 1 && p !in rest && (set q | q in rest) + {p} == w.disk.Keys
    requires forall q <- rest :: Names(w.cursor, w, q)
    requires w.cursor.Keys <= w.disk.Keys && !Names(w.cursor, w, p)
    requires st.limit.Some? ==> st.limit.value >= 2
    ensures Reaches(st, w0, next)
    ensures next == World(w.disk, w.used, {}, Put(st, if st.keepsRows then w.sink else map[], p, v),
                          w.cursor[p := v], Absent, Idle)
  {
    hide Reaches, Put;
    var c := w.cursor;
    assert (set q | q in rest + [p]) == w.disk.Keys;
    var w2 := ScanBegins(st, w0, w, rest + [p]);
    var w3 := ScanPassesOver(st, w0, w2, c, rest, [p]);
    next := ChangedFileRun(st, w0, w3, c, p, v);
  }

  lemma ChangedFileRun(st: Settings, w0: World, w3: World, c: Cursor, p: Path, v: Version) returns (next: World)
    requires Reaches(st, w0, w3) && p in w3.disk && w3.disk[p] == v && !Names(c, w3, p) && c.Keys <= w3.disk.Keys
    requires w3.run == Scanning(c, c, [p], 0)
    requires st.limit.Some? ==> st.limit.value >= 2
    ensures Reaches(st, w0, next)
    ensures next == World(w3.disk, w3.used, w3.touched, Put(st, w3.sink, p, v), c[p := v], Absent, Idle)
  {
    hide Reaches, RowsAfter;
    var w4 := w3.(run := Hashed(c, c, [p], 0, v));
    ReachesThrough(st, w0, w3, Look, w4);
    var w5 := w3.(run := Parsed(c, c, [p], 0, v, v));
    ReachesThrough(st, w0, w4, Parse, w5);
    var w6 := w3.(sink := Put(st, w3.sink, p, v), run := Wrote(c, c, [p], 0, v));
    ReachesThrough(st, w0, w5, Write, w6);
    assert [p][1..] == [];
    var w7 := w6.(run := Scanning(c, c[p := v], [], 1));
    ReachesThrough(st, w0, w6, Merge, w7);
    next := SavingRun(st, w0, w7, c, c[p := v]);
  }

  lemma SavingRun(st: Settings, w0: World, w: World, c: Cursor, n: Cursor) returns (next: World)
    requires Reaches(st, w0, w) && c.Keys <= w.disk.Keys && n.Keys <= w.disk.Keys
    requires w.run == Scanning(c, n, [], 1) && !LimitReached(st, 1)
    ensures Reaches(st, w0, next) && next == World(w.disk, w.used, w.touched, w.sink, n, Absent, Idle)
  {
    hide Reaches;
    assert c.Keys - w.disk.Keys == {};
    var w1 := w.(run := Pruning(c, n, {}));
    ReachesThrough(st, w0, w, EndScan, w1);
    var kept := map q | q in w1.run.newCursor && q in w1.disk :: w1.run.newCursor[q];
    assert kept == n;
    var w2 := w.(run := Saving(c, n));
    ReachesThrough(st, w0, w1, Trim, w2);
    next := SavedRun(st, w0, w2);
  }

  lemma SavedRun(st: Settings, w0: World, w: World) returns (next: World)
    requires Reaches(st, w0, w) && w.run.Saving?
    ensures Reaches(st, w0, next) && next == w.(cursor := w.run.newCursor, temp := Absent, run := Idle)
  {
    hide Reaches;
    var n := w.run.newCursor;
    var w1 := w.(temp := Full(n), run := TempWritten(w.run.loaded, n));
    ReachesThrough(st, w0, w, WriteTemp, w1);
    next := w.(cursor := n, temp := Absent, run := Idle);
    ReachesThrough(st, w0, w1, Replace, next);
  }

  // One file, ingested at version v.
  lemma FirstIngest(st: Settings, p: Path, v: Version) returns (w: World)
    requires st.limit.Some? ==> st.limit.value >= 2
    ensures Reaches(st, Start(), w)
    ensures w == World(map[p := v], {(p, v)}, {}, Put(st, map[], p, v), map[p := v], Absent, Idle)
  {
    hide Reaches, Put;
    ReachesSelf(st, Start());
    var w1 := Start().(disk := map[p := v], used := {(p, v)}, touched := {p});
    assert Start().disk[p := v] == w1.disk && Start().used + {(p, v)} == w1.used && Start().touched + {p} == w1.touched;
    ReachesThrough(st, Start(), Start(), Edit(p, v), w1);
    w := OneChangeRun(st, Start(), w1, [], p, v);
  }

  // The same file ingested at v, edited to u, and ingested again.
  lemma SecondIngest(st: Settings, p: Path, v: Version, u: Version) returns (w: World)
    requires st.keepsRows && u != v
    requires st.limit.Some? ==> st.limit.value >= 2
    ensures Reaches(st, Start(), w)
    ensures w.disk == w.cursor == map[p := u]
    ensures Stored(st, w, p) == if st.chunksOf(u) == [] then st.chunksOf(v)
                                else RowsAfter(st, st.chunksOf(v), st.chunksOf(u))
  {
    hide Reaches;
    var w1 := FirstIngest(st, p, v);
    var w2 := w1.(disk := map[p := u], used := {(p, v), (p, u)}, touched := {p});
    assert w1.disk[p := u] == w2.disk && w1.used + {(p, u)} == w2.used && {} + {p} == w2.touched;
    ReachesThrough(st, Start(), w1, Edit(p, u), w2);
    w := OneChangeRun(st, Start(), w2, [], p, u);
    assert map[p := v][p := u] == map[p := u];
  }

  // The cursor names p, whose file is gone: the next run deletes its document, and
  // has not saved yet.
  lemma DeletedUnsaved(st: Settings, w0: World, w: World, kept: seq<Path>, p: Path) returns (next: World)
    requires Reaches(st, w0, w) && w.run.Idle? && |kept| <= 1 && p !in kept
    requires w.disk.Keys == (set q | q in kept) && (forall q <- kept :: Names(w.cursor, w, q))
    requires w.cursor.Keys == w.disk.Keys + {p}
    requires st.limit.Some? ==> st.limit.value >= 2
    ensures Reaches(st, w0, next) && next.run.Pruning?
    ensures next.disk == w.disk && next.used == w.used && next.cursor == w.cursor && st.docOf(p) !in next.sink
  {
    hide Reaches;
    var c := w.cursor;
    var w2 := ScanBegins(st, w0, w, kept);
    assert kept + [] == kept;
    var w3 := ScanPassesOver(st, w0, w2, c, kept, []);
    assert c.Keys - w.disk.Keys == {p};
    var w4 := w2.(run := Pruning(c, c, {p}));
    ReachesThrough(st, w0, w3, EndScan, w4);
    assert w4.run.gone - {p} == {};
    next := w2.(sink := w2.sink - {st.docOf(p)}, run := Pruning(c, c, {}));
    ReachesThrough(st, w0, w4, DeleteOne(p), next);
  }

  // ---------- when the cursor or the sink stays empty ----------

  // A limit of 0 or 1 never lets a run that ingested something save.
  predicate SavesNothing(st: Settings) {
    st.limit.Some? && st.limit.value <= 1
  }

  predicate CursorEmpty(w: World) {
    && w.cursor == map[]
    && match w.run
       case Idle => true
       case Loaded(loaded) => loaded == map[]
       case Scanning(loaded, newCursor, _, docs) => loaded == map[] && (docs == 0 ==> newCursor == map[])
       case Hashed(loaded, newCursor, _, docs, _) => loaded == map[] && (docs == 0 ==> newCursor == map[])
       case Parsed(loaded, newCursor, _, docs, _, _) => loaded == map[] && (docs == 0 ==> newCursor == map[])
       case Wrote(loaded, newCursor, _, docs, _) => loaded == map[] && (docs == 0 ==> newCursor == map[])
       case Pruning(_, newCursor, _) => newCursor == map[]
       case Saving(_, newCursor) => newCursor == map[]
       case TempWritten(_, newCursor) => newCursor == map[] && w.temp == Full(map[])
  }

  lemma SmallLimitStep(st: Settings, w: World, step: Step)
    requires SavesNothing(st) && CursorEmpty(w) && Apply(st, w, step).Some?
    ensures CursorEmpty(Apply(st, w, step).value)
  {
    hide RowsAfter, Stored, Distinct;
  }

  lemma {:induction false} SmallLimitRun(st: Settings, w: World, steps: seq<Step>)
    requires SavesNothing(st) && CursorEmpty(w) && RunSteps(st, w, steps).Some?
    ensures CursorEmpty(RunSteps(st, w, steps).value)
    decreases |steps|
  {
    hide CursorEmpty, Apply;
    if steps != [] {
      SmallLimitStep(st, w, steps[0]);
      SmallLimitRun(st, Apply(st, w, steps[0]).value, steps[1..]);
    }
  }

  lemma NoChunksStep(st: Settings, w: World, step: Step)
    requires AllEmpty(st) && w.sink == map[] && Apply(st, w, step).Some?
    ensures Apply(st, w, step).value.sink == map[]
  {
    hide RowsAfter, Stored, Distinct;
  }

  lemma {:induction false} NoChunksRun(st: Settings, w: World, steps: seq<Step>)
    requires AllEmpty(st) && w.sink == map[] && RunSteps(st, w, steps).Some?
    ensures RunSteps(st, w, steps).value.sink == map[]
    decreases |steps|
  {
    hide AllEmpty, Apply;
    if steps != [] {
      NoChunksStep(st, w, steps[0]);
      NoChunksRun(st, Apply(st, w, steps[0]).value, steps[1..]);
    }
  }

  // ---------- exactly when ----------

  ghost predicate AlwaysSafe(st: Settings) {
    forall w :: Reaches(st, Start(), w) ==> NoStaleSkip(st, w)
  }

  // Settings a caller can check beforehand.
  ghost predicate SafeSettings(st: Settings) {
    SavesNothing(st) || AllEmpty(st) || Faithful(st)
  }

  lemma SafeSettingsAreSafe(st: Settings, w: World)
    requires SafeSettings(st) && Reaches(st, Start(), w)
    ensures NoStaleSkip(st, w)
  {
    hide Faithful, Apply;
    if Faithful(st) {
      NeverSkipsStale(st, w);
    } else {
      var steps :| RunSteps(st, Start(), steps) == Some(w);
      if SavesNothing(st) {
        SmallLimitRun(st, Start(), steps);
      } else {
        NoChunksRun(st, Start(), steps);
      }
    }
  }

  const ONE := Path(0, 0)

  // Overwriting the target: after one complete run, the next run drops the rows
  // while the cursor still names the file.
  lemma OverwriteSkipsStale(st: Settings, v: Version) returns (w: World)
    requires !st.keepsRows && st.chunksOf(v) != [] && !SavesNothing(st)
    ensures Reaches(st, Start(), w) && !NoStaleSkip(st, w)
  {
    hide Reaches, Put;
    var w1 := FirstIngest(st, ONE, v);
    w := w1.(touched := {}, sink := map[], run := Loaded(w1.cursor));
    ReachesThrough(st, Start(), w1, Begin, w);
    assert ONE in w.cursor && ONE in w.disk && Stored(st, w, ONE) == [];
  }

  // A version without chunks leaves the rows of the one before.
  lemma EmptyVersionSkipsStale(st: Settings, v: Version, u: Version) returns (w: World)
    requires st.keepsRows && !SavesNothing(st)
    requires st.chunksOf(v) != [] && st.chunksOf(u) == []
    ensures Reaches(st, Start(), w) && !NoStaleSkip(st, w)
  {
    hide Reaches;
    w := SecondIngest(st, ONE, v, u);
    assert ONE in w.cursor && ONE in w.disk && w.disk[ONE] == u;
  }

  // A version with fewer chunks keeps the tail of the one before when orphans
  // stay.
  lemma OrphansSkipStale(st: Settings, v: Version, u: Version) returns (w: World)
    requires st.keepsRows && !SavesNothing(st) && !st.deleteOrphans
    requires |st.chunksOf(v)| > |st.chunksOf(u)| > 0
    ensures Reaches(st, Start(), w) && !NoStaleSkip(st, w)
  {
    hide Reaches;
    w := SecondIngest(st, ONE, v, u);
    assert ONE in w.cursor && ONE in w.disk && w.disk[ONE] == u;
    assert |Stored(st, w, ONE)| > |st.chunksOf(u)|;
  }

  // Two paths with one document id: both are ingested, one is removed, and the next
  // run deletes the document the other still needs.
  lemma SharedIdsSkipStale(st: Settings, p: Path, q: Path, v: Version) returns (w: World)
    requires p != q && st.docOf(p) == st.docOf(q) && st.chunksOf(v) != [] && !SavesNothing(st)
    ensures Reaches(st, Start(), w) && !NoStaleSkip(st, w)
  {
    hide Reaches, Put;
    var w1 := FirstIngest(st, p, v);
    var w2 := w1.(disk := map[p := v, q := v], used := {(p, v), (q, v)}, touched := {q});
    assert w1.disk[q := v] == w2.disk && w1.used + {(q, v)} == w2.used && {} + {q} == w2.touched;
    ReachesThrough(st, Start(), w1, Edit(q, v), w2);
    assert (set x | x in [p]) + {q} == w2.disk.Keys;
    var w3 := OneChangeRun(st, Start(), w2, [p], q, v);
    var w4 := w3.(disk := map[p := v], touched := {q});
    assert w3.disk - {q} == w4.disk && w3.touched + {q} == w4.touched;
    ReachesThrough(st, Start(), w3, Remove(q), w4);
    assert w4.disk.Keys == (set x | x in [p]);
    w := DeletedUnsaved(st, Start(), w4, [p], q);
    assert p in w.cursor && p in w.disk && w.cursor[p] == w.disk[p] == v && Stored(st, w, p) == [];
  }

  // A file that comes back as it was: it is ingested and removed, its document is
  // deleted, the run stops before saving, and the file returns.
  lemma RevisitSkipsStale(st: Settings, v: Version) returns (w: World)
    requires st.revisits && st.chunksOf(v) != [] && !SavesNothing(st)
    ensures Reaches(st, Start(), w) && !NoStaleSkip(st, w)
  {
    hide Reaches, Put;
    var w1 := FirstIngest(st, ONE, v);
    var w2 := w1.(disk := map[], touched := {ONE});
    assert w1.disk - {ONE} == w2.disk && w1.touched + {ONE} == w2.touched;
    ReachesThrough(st, Start(), w1, Remove(ONE), w2);
    var w3 := DeletedUnsaved(st, Start(), w2, [], ONE);
    var w4 := w3.(run := Idle);
    ReachesThrough(st, Start(), w3, Stop(w3.temp), w4);
    w := Apply(st, w4, Edit(ONE, v)).value;
    ReachesThrough(st, Start(), w4, Edit(ONE, v), w);
    assert ONE in w.cursor && ONE in w.disk && w.cursor[ONE] == w.disk[ONE] == v && Stored(st, w, ONE) == [];
  }

  lemma UnsafeSettingsFail(st: Settings) returns (w: World)
    requires !SafeSettings(st)
    ensures Reaches(st, Start(), w) && !NoStaleSkip(st, w)
  {
    hide Reaches, NoStaleSkip;
    var full: Version :| st.chunksOf(full) != [];
    if !st.keepsRows {
      w := OverwriteSkipsStale(st, full);
    } else if !OwnDocs(st) {
      var p, q :| st.docOf(p) == st.docOf(q) && p != q;
      w := SharedIdsSkipStale(st, p, q, full);
    } else if st.revisits {
      w := RevisitSkipsStale(st, full);
    } else if !NoneEmpty(st) {
      var empty: Version :| st.chunksOf(empty) == [];
      w := EmptyVersionSkipsStale(st, full, empty);
    } else {
      var v: Version, u: Version :| |st.chunksOf(v)| != |st.chunksOf(u)|;
      if |st.chunksOf(v)| > |st.chunksOf(u)| {
        w := OrphansSkipStale(st, v, u);
      } else {
        w := OrphansSkipStale(st, u, v);
      }
    }
  }

  // No stale file is ever skipped, over every interleaving, exactly when the
  // target keeps its rows, no two paths share a document id, files do not return to
  // old content, every version has chunks, and orphans are deleted or cannot arise -
  // or when nothing is ever saved or ever stored.
  lemma SafeExactly(st: Settings)
    ensures AlwaysSafe(st) <==> SafeSettings(st)
  {
    hide Reaches, NoStaleSkip, SafeSettings;
    if SafeSettings(st) {
      forall w | Reaches(st, Start(), w) ensures NoStaleSkip(st, w) {
        SafeSettingsAreSafe(st, w);
      }
    } else {
      var w := UnsafeSettingsFail(st);
    }
  }

  // `id_from: stem`, the default: a file's document id is its name without the
  // extension, so ingest is unsafe unless nothing is ever saved or ever stored.
  lemma StemIdsAreUnsafe(st: Settings)
    requires forall p :: st.docOf(p) == Doc(p.stem)
    ensures AlwaysSafe(st) <==> SavesNothing(st) || AllEmpty(st)
  {
    hide Reaches, NoStaleSkip, AlwaysSafe;
    SafeExactly(st);
    assert st.docOf(Path(0, 0)) == st.docOf(Path(1, 0));
  }
}
