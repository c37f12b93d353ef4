// Incremental ingest of local files as a protocol: files change at any moment, a
// run reads, writes and saves step by step, and may stop anywhere. One run at a
// time works on a cursor. Content hashes identify versions.
module IncrementalRun {
  import opened Runs
  import opened Text

  // A file path: its name without the extension, and everything else.
  datatype Path = Path(elsewhere: nat, stem: nat)
  datatype Doc = Doc(id: nat)
  type Version = nat
  type Cursor = map<Path, Version>
  type Sink = map<Doc, seq<string>>

  // keepsRows: `create_table` leaves existing rows (target mode append or
  // create_if_missing, not overwrite). docOf: the document id of a path.
  // chunksOf: the chunks of a version. revisits: a file may return to content it
  // had before.
  datatype Settings = Settings(
    keepsRows: bool, deleteOrphans: bool, limit: Option<nat>, docOf: Path -> Doc, chunksOf: Version -> seq<string>,
    revisits: bool
  )

  // The temp file the cursor is first written to.
  datatype TempFile = Absent | Partial | Full(cursor: Cursor)

  // Where the run is. `loaded` is the cursor it read, `newCursor` the next one.
  datatype Run =
    | Idle
    | Loaded(loaded: Cursor)
    | Scanning(loaded: Cursor, newCursor: Cursor, todo: seq<Path>, docs: nat)
    | Hashed(loaded: Cursor, newCursor: Cursor, todo: seq<Path>, docs: nat, hash: Version)
    | Parsed(loaded: Cursor, newCursor: Cursor, todo: seq<Path>, docs: nat, hash: Version, content: Version)
    | Wrote(loaded: Cursor, newCursor: Cursor, todo: seq<Path>, docs: nat, hash: Version)
    | Pruning(loaded: Cursor, newCursor: Cursor, gone: set<Path>)
    | Saving(loaded: Cursor, newCursor: Cursor)
    | TempWritten(loaded: Cursor, newCursor: Cursor)

  // `used`: the versions each path ever had. `touched`: paths changed since the
  // current run began.
  datatype World = World(
    disk: map<Path, Version>,
    used: set<(Path, Version)>,
    touched: set<Path>,
    sink: Sink,
    cursor: Cursor,
    temp: TempFile,
    run: Run
  )

  datatype Step =
    | Edit(path: Path, version: Version)
    | Remove(path: Path)
    | Begin
    | Glob(paths: seq<Path>)
    | Look
    | Parse
    | Write
    | Merge
    | EndScan
    | DeleteOne(path: Path)
    | Trim
    | WriteTemp
    | Replace
    | Stop(temp: TempFile)

  predicate Distinct(ps: seq<Path>) {
    forall i, j :: 0 <= i < j < |ps| ==> ps[i] != ps[j]
  }

  function Rows(sink: Sink, d: Doc): seq<string> {
    if d in sink then sink[d] else []
  }

  // The rows stored for a path's document.
  function Stored(st: Settings, w: World, p: Path): seq<string> {
    Rows(w.sink, st.docOf(p))
  }

  // A document's rows after `write_document`: rows are upserted by number, and a
  // longer old list keeps its tail unless orphans are deleted.
  function RowsAfter(st: Settings, old0: seq<string>, chunks: seq<string>): seq<string> {
    if st.deleteOrphans || |old0| <= |chunks| then chunks else chunks + old0[|chunks|..]
  }

  // `write_document`; a document without chunks is not written.
  function Put(st: Settings, sink: Sink, p: Path, v: Version): Sink {
    var d, chunks := st.docOf(p), st.chunksOf(v);
    if chunks == [] then sink else sink[d := RowsAfter(st, Rows(sink, d), chunks)]
  }

  predicate LimitReached(st: Settings, docs: nat) {
    st.limit.Some? && docs >= st.limit.value
  }

  // One step. None means the step cannot be taken here. A run whose file
  // vanished raises and stops.
  function Apply(st: Settings, w: World, step: Step): Option<World> {
    match step
    case Edit(p, v) =>
      if !st.revisits && (p, v) in w.used then None
      else Some(w.(disk := w.disk[p := v], used := w.used + {(p, v)}, touched := w.touched + {p}))
    case Remove(p) =>
      Some(w.(disk := w.disk - {p}, touched := w.touched + {p}))
    case Begin =>
      if !w.run.Idle? then None
      else Some(w.(touched := {}, sink := if st.keepsRows then w.sink else map[], run := Loaded(w.cursor)))
    case Glob(paths) =>
      if !w.run.Loaded? || !Distinct(paths) || (set p | p in paths) != w.disk.Keys then None
      else Some(w.(run := Scanning(w.run.loaded, w.run.loaded, paths, 0)))
    case Look =>
      if !w.run.Scanning? || w.run.todo == [] then None
      else
        var p := w.run.todo[0];
        if p !in w.disk then Some(w.(run := Idle))
        else if p in w.run.loaded && w.run.loaded[p] == w.disk[p] then
          Some(w.(run := Scanning(w.run.loaded, w.run.newCursor, w.run.todo[1..], w.run.docs)))
        else
          Some(w.(run := Hashed(w.run.loaded, w.run.newCursor, w.run.todo, w.run.docs, w.disk[p])))
    case Parse =>
      if !w.run.Hashed? || w.run.todo == [] then None
      else
        var p := w.run.todo[0];
        if p !in w.disk then Some(w.(run := Idle))
        else Some(w.(run := Parsed(w.run.loaded, w.run.newCursor, w.run.todo, w.run.docs, w.run.hash, w.disk[p])))
    case Write =>
      if !w.run.Parsed? || w.run.todo == [] then None
      else if LimitReached(st, w.run.docs) then Some(w.(run := Idle))
      else
        var wrote := Wrote(w.run.loaded, w.run.newCursor, w.run.todo, w.run.docs, w.run.hash);
        Some(w.(sink := Put(st, w.sink, w.run.todo[0], w.run.content), run := wrote))
    case Merge =>
      if !w.run.Wrote? || w.run.todo == [] then None
      else
        var p := w.run.todo[0];
        if p !in w.disk then Some(w.(run := Idle))
        else Some(w.(run := Scanning(w.run.loaded, w.run.newCursor[p := w.run.hash], w.run.todo[1..], w.run.docs + 1)))
    case EndScan =>
      if !w.run.Scanning? || w.run.todo != [] then None
      else if LimitReached(st, w.run.docs) then Some(w.(run := Idle))
      else Some(w.(run := Pruning(w.run.loaded, w.run.newCursor, w.run.loaded.Keys - w.disk.Keys)))
    case DeleteOne(p) =>
      if !w.run.Pruning? || p !in w.run.gone then None
      else Some(w.(sink := w.sink - {st.docOf(p)}, run := Pruning(w.run.loaded, w.run.newCursor, w.run.gone - {p})))
    case Trim =>
      if !w.run.Pruning? || w.run.gone != {} then None
      else Some(w.(run := Saving(w.run.loaded, map p | p in w.run.newCursor && p in w.disk :: w.run.newCursor[p])))
    case WriteTemp =>
      if !w.run.Saving? then None
      else Some(w.(temp := Full(w.run.newCursor), run := TempWritten(w.run.loaded, w.run.newCursor)))
    case Replace =>
      if !w.run.TempWritten? || !w.temp.Full? then None
      else Some(w.(cursor := w.temp.cursor, temp := Absent, run := Idle))
    case Stop(temp) =>
      // A crash or an exception; only a run that was writing the temp file can
      // leave it changed, and then any way.
      if w.run.Idle? || (!w.run.Saving? && temp != w.temp) then None
      else Some(w.(temp := temp, run := Idle))
  }

  function Start(): World {
    World(map[], {}, {}, map[], map[], Absent, Idle)
  }

  function Stepper(st: Settings): (World, Step) -> Option<World> {
    (w, step) => Apply(st, w, step)
  }

  // The world after a list of steps.
  function RunSteps(st: Settings, w: World, steps: seq<Step>): Option<World> {
    RunAll(Stepper(st), w, steps)
  }

  // No stale file is skipped: when the saved cursor names the version on disk,
  // the sink holds exactly that version.
  predicate NoStaleSkip(st: Settings, w: World) {
    forall p :: p in w.cursor && p in w.disk && w.cursor[p] == w.disk[p] ==> Stored(st, w, p) == st.chunksOf(w.disk[p])
  }

  // ---------- what a sink write does to a document's rows ----------

  ghost predicate NoneEmpty(st: Settings) {
    forall v: Version :: st.chunksOf(v) != []
  }

  ghost predicate AllEmpty(st: Settings) {
    forall v: Version :: st.chunksOf(v) == []
  }

  ghost predicate SameCounts(st: Settings) {
    forall v: Version, u: Version :: |st.chunksOf(v)| == |st.chunksOf(u)|
  }

  // No two paths share a document id.
  ghost predicate OwnDocs(st: Settings) {
    forall p, q :: st.docOf(p) == st.docOf(q) ==> p == q
  }

  // The target keeps its rows, paths have documents of their own, files do not
  // return to old content, no version is without chunks, and a rewrite leaves no
  // old rows behind.
  ghost predicate Faithful(st: Settings) {
    st.keepsRows && OwnDocs(st) && !st.revisits && NoneEmpty(st) && (st.deleteOrphans || SameCounts(st))
  }

  // ---------- the invariant under faithful settings ----------

  // When c names the version on disk, the sink holds it.
  predicate Tracks(st: Settings, w: World, c: Cursor) {
    forall p :: p in c && p in w.disk && c[p] == w.disk[p] ==> Stored(st, w, p) == st.chunksOf(w.disk[p])
  }

  predicate Names(c: Cursor, w: World, p: Path) {
    p in c && p in w.disk && c[p] == w.disk[p]
  }

  predicate AllUsed(c: Cursor, w: World) {
    forall p <- c.Keys :: (p, c[p]) in w.used
  }

  predicate SameAt(a: Cursor, b: Cursor, p: Path) {
    if p in a then p in b && b[p] == a[p] else p !in b
  }

  // Rows in the sink are the rows of some version.
  ghost predicate SinkHoldsVersions(st: Settings, w: World) {
    forall d <- w.sink.Keys :: exists v: Version :: w.sink[d] == st.chunksOf(v)
  }

  ghost predicate WorldOk(st: Settings, w: World) {
    && (forall p <- w.disk.Keys :: (p, w.disk[p]) in w.used)
    && AllUsed(w.cursor, w)
    && Tracks(st, w, w.cursor)
    && SinkHoldsVersions(st, w)
  }

  // The run's own cursors describe the sink.
  ghost predicate CursorsOk(st: Settings, w: World, loaded: Cursor, newCursor: Cursor) {
    && loaded == w.cursor
    && AllUsed(newCursor, w)
    && Tracks(st, w, newCursor)
  }

  // Files still to visit have their loaded entry; the others are named by the
  // next cursor unless they changed meanwhile.
  predicate Visiting(w: World, newCursor: Cursor, loaded: Cursor, todo: seq<Path>) {
    && Distinct(todo)
    && (forall p <- todo :: SameAt(loaded, newCursor, p))
    && (forall p <- w.disk.Keys :: p !in w.touched && p !in todo ==> Names(newCursor, w, p))
  }

  // The file being processed differs from the loaded cursor, and its hash is its
  // version unless it changed meanwhile.
  predicate Processing(w: World, loaded: Cursor, todo: seq<Path>, hash: Version) {
    && todo != []
    && (todo[0], hash) in w.used
    && !Names(loaded, w, todo[0])
    && (todo[0] !in w.touched ==> todo[0] in w.disk && w.disk[todo[0]] == hash)
  }

  // Untouched files on disk are named by the next cursor.
  predicate UntouchedNamed(w: World, newCursor: Cursor) {
    forall p <- w.disk.Keys :: p !in w.touched ==> Names(newCursor, w, p)
  }

  ghost predicate RunOk(st: Settings, w: World) {
    match w.run
    case Idle => true
    case Loaded(loaded) => loaded == w.cursor
    case Scanning(loaded, newCursor, todo, _) =>
      CursorsOk(st, w, loaded, newCursor) && Visiting(w, newCursor, loaded, todo)
    case Hashed(loaded, newCursor, todo, _, hash) =>
      CursorsOk(st, w, loaded, newCursor) && Visiting(w, newCursor, loaded, todo) && Processing(w, loaded, todo, hash)
    case Parsed(loaded, newCursor, todo, _, hash, content) =>
      && CursorsOk(st, w, loaded, newCursor) && Visiting(w, newCursor, loaded, todo)
      && Processing(w, loaded, todo, hash)
      && (todo[0] in w.disk && w.disk[todo[0]] == hash ==> content == hash)
    case Wrote(loaded, newCursor, todo, _, hash) =>
      && CursorsOk(st, w, loaded, newCursor) && Visiting(w, newCursor, loaded, todo)
      && Processing(w, loaded, todo, hash)
      && (todo[0] in w.disk && w.disk[todo[0]] == hash ==> Stored(st, w, todo[0]) == st.chunksOf(hash))
    case Pruning(loaded, newCursor, gone) =>
      && CursorsOk(st, w, loaded, newCursor) && UntouchedNamed(w, newCursor)
      && (forall p <- gone :: !Names(loaded, w, p) && !Names(newCursor, w, p))
      && (forall p <- loaded.Keys :: p !in w.disk && p !in w.touched && p !in gone ==> st.docOf(p) !in w.sink)
    case Saving(loaded, newCursor) =>
      && CursorsOk(st, w, loaded, newCursor) && UntouchedNamed(w, newCursor)
      && (forall p <- loaded.Keys :: p !in w.disk && p !in w.touched ==> st.docOf(p) !in w.sink)
    case TempWritten(loaded, newCursor) =>
      && CursorsOk(st, w, loaded, newCursor) && UntouchedNamed(w, newCursor) && w.temp == Full(newCursor)
      && (forall p <- loaded.Keys :: p !in w.disk && p !in w.touched ==> st.docOf(p) !in w.sink)
  }

  ghost predicate Inv(st: Settings, w: World) {
    WorldOk(st, w) && RunOk(st, w)
  }

  // ---------- every step keeps the invariant ----------

  // w2 is w after a change to the file p: it is gone, or has an unused version.
  ghost predicate Moved(w: World, w2: World, p: Path) {
    && w2 == w.(disk := w2.disk, used := w2.used, touched := w.touched + {p})
    && w.used <= w2.used
    && (forall q :: q != p ==> (q in w.disk <==> q in w2.disk))
    && (forall q :: q != p && q in w.disk ==> w2.disk[q] == w.disk[q])
    && (p in w2.disk ==> (p, w2.disk[p]) !in w.used && (p, w2.disk[p]) in w2.used)
  }

  // Cursors name nothing new after a change.
  lemma MovedCursor(st: Settings, w: World, w2: World, p: Path, c: Cursor)
    requires Moved(w, w2, p) && AllUsed(c, w)
    ensures AllUsed(c, w2)
    ensures forall q :: Names(c, w2, q) <==> q != p && Names(c, w, q)
    ensures Tracks(st, w, c) ==> Tracks(st, w2, c)
  {
  }

  lemma MovedWorld(st: Settings, w: World, w2: World, p: Path)
    requires Moved(w, w2, p) && WorldOk(st, w)
    ensures WorldOk(st, w2)
  {
    MovedCursor(st, w, w2, p, w.cursor);
    hide Tracks, AllUsed;
    forall q <- w2.disk.Keys ensures (q, w2.disk[q]) in w2.used {
      assert q != p ==> q in w.disk;
    }
  }

  lemma MovedScan(w: World, w2: World, p: Path, newCursor: Cursor, loaded: Cursor, todo: seq<Path>)
    requires Moved(w, w2, p) && Visiting(w, newCursor, loaded, todo)
    ensures Visiting(w2, newCursor, loaded, todo)
  {
  }

  lemma MovedProcessing(w: World, w2: World, p: Path, loaded: Cursor, todo: seq<Path>, hash: Version)
    requires Moved(w, w2, p) && Processing(w, loaded, todo, hash) && AllUsed(loaded, w)
    ensures Processing(w2, loaded, todo, hash)
    ensures todo[0] in w2.disk && w2.disk[todo[0]] == hash ==> todo[0] in w.disk && w.disk[todo[0]] == hash
  {
  }

  lemma MovedKeeps(st: Settings, w: World, w2: World, p: Path)
    requires Moved(w, w2, p) && Inv(st, w)
    ensures Inv(st, w2)
  {
    MovedWorld(st, w, w2, p);
    if !w.run.Idle? && !w.run.Loaded? {
      var loaded, newCursor := w.run.loaded, w.run.newCursor;
      MovedCursor(st, w, w2, p, newCursor);
      MovedCursor(st, w, w2, p, loaded);
      if w.run.Scanning? || w.run.Hashed? || w.run.Parsed? || w.run.Wrote? {
        MovedScan(w, w2, p, newCursor, loaded, w.run.todo);
        if !w.run.Scanning? {
          MovedProcessing(w, w2, p, loaded, w.run.todo, w.run.hash);
        }
      }
    }
    hide Tracks, AllUsed, Visiting, Processing, Names, WorldOk;
  }

  lemma EditKeeps(st: Settings, w: World, p: Path, v: Version)
    requires Inv(st, w) && (p, v) !in w.used
    ensures Inv(st, Apply(st, w, Edit(p, v)).value)
  {
    hide Inv;
    MovedKeeps(st, w, Apply(st, w, Edit(p, v)).value, p);
  }

  lemma RemoveKeeps(st: Settings, w: World, p: Path)
    requires Inv(st, w)
    ensures Inv(st, Apply(st, w, Remove(p)).value)
  {
    hide Inv;
    MovedKeeps(st, w, Apply(st, w, Remove(p)).value, p);
  }

  lemma BeginKeeps(st: Settings, w: World)
    requires Faithful(st) && Inv(st, w) && w.run.Idle?
    ensures Inv(st, Apply(st, w, Begin).value)
  {
  }

  lemma GlobKeeps(st: Settings, w: World, paths: seq<Path>)
    requires Inv(st, w) && Apply(st, w, Glob(paths)).Some?
    ensures Inv(st, Apply(st, w, Glob(paths)).value)
  {
    forall p <- w.disk.Keys ensures p in paths {
      assert p in (set q | q in paths);
    }
  }

  // WorldOk does not look at the run or the temp file.
  lemma OnlyRunChanged(st: Settings, w: World, w2: World)
    requires WorldOk(st, w) && w2 == w.(run := w2.run, temp := w2.temp)
    ensures WorldOk(st, w2)
    ensures forall c :: Tracks(st, w, c) <==> Tracks(st, w2, c)
  {
  }

  lemma TodoSplits(todo: seq<Path>)
    requires todo != [] && Distinct(todo)
    ensures forall p :: p in todo <==> p == todo[0] || p in todo[1..]
    ensures todo[0] !in todo[1..] && Distinct(todo[1..])
  {
    assert todo == [todo[0]] + todo[1..];
  }

  lemma LookKeeps(st: Settings, w: World)
    requires Inv(st, w) && Apply(st, w, Look).Some?
    ensures Inv(st, Apply(st, w, Look).value)
  {
    var next := Apply(st, w, Look).value;
    OnlyRunChanged(st, w, next);
    TodoSplits(w.run.todo);
    hide WorldOk, Tracks, Distinct;
    assert w.run.todo[0] in w.run.todo;
  }

  lemma ParseKeeps(st: Settings, w: World)
    requires Inv(st, w) && Apply(st, w, Parse).Some?
    ensures Inv(st, Apply(st, w, Parse).value)
  {
    OnlyRunChanged(st, w, Apply(st, w, Parse).value);
    hide WorldOk, Tracks, Distinct, AllUsed;
  }

  lemma RewriteIsExact(st: Settings, w: World, p: Path, v: Version)
    requires Faithful(st) && SinkHoldsVersions(st, w)
    ensures RowsAfter(st, Stored(st, w, p), st.chunksOf(v)) == st.chunksOf(v)
  {
    if !st.deleteOrphans && st.docOf(p) in w.sink {
      var u: Version :| w.sink[st.docOf(p)] == st.chunksOf(u);
      assert |st.chunksOf(u)| == |st.chunksOf(v)|;
    }
  }

  // Storing a version of a file that no cursor names.
  lemma StoredKeepsTracks(st: Settings, w: World, w2: World, p: Path, v: Version, c: Cursor)
    requires OwnDocs(st) && w2 == w.(sink := w.sink[st.docOf(p) := st.chunksOf(v)], run := w2.run)
    requires Tracks(st, w, c) && !Names(c, w, p)
    ensures Tracks(st, w2, c)
  {
  }

  lemma StoredKeepsWorld(st: Settings, w: World, w2: World, p: Path, v: Version)
    requires OwnDocs(st) && WorldOk(st, w) && !Names(w.cursor, w, p)
    requires w2 == w.(sink := w.sink[st.docOf(p) := st.chunksOf(v)], run := w2.run)
    ensures WorldOk(st, w2)
  {
    StoredKeepsTracks(st, w, w2, p, v, w.cursor);
    hide Tracks;
  }

  lemma WriteKeeps(st: Settings, w: World)
    requires Faithful(st) && Inv(st, w) && Apply(st, w, Write).Some?
    ensures Inv(st, Apply(st, w, Write).value)
  {
    var next := Apply(st, w, Write).value;
    if LimitReached(st, w.run.docs) {
      OnlyRunChanged(st, w, next);
    } else {
      var p, v := w.run.todo[0], w.run.content;
      RewriteIsExact(st, w, p, v);
      assert SameAt(w.run.loaded, w.run.newCursor, p);
      StoredKeepsWorld(st, w, next, p, v);
      StoredKeepsTracks(st, w, next, p, v, w.run.newCursor);
    }
    hide WorldOk, Tracks, AllUsed, Distinct, Faithful, RowsAfter;
  }

  lemma MergeKeeps(st: Settings, w: World)
    requires Inv(st, w) && Apply(st, w, Merge).Some?
    ensures Inv(st, Apply(st, w, Merge).value)
  {
    var next := Apply(st, w, Merge).value;
    OnlyRunChanged(st, w, next);
    if next.run.Scanning? {
      MergedVisiting(w, w.run.newCursor, w.run.loaded, w.run.todo, w.run.hash);
      assert CursorsOk(st, next, next.run.loaded, next.run.newCursor);
      assert next.disk == w.disk && next.touched == w.touched;
    }
    hide WorldOk, Tracks, AllUsed, Distinct;
  }

  lemma MergedVisiting(w: World, newCursor: Cursor, loaded: Cursor, todo: seq<Path>, hash: Version)
    requires Visiting(w, newCursor, loaded, todo) && Processing(w, loaded, todo, hash)
    ensures Visiting(w, newCursor[todo[0] := hash], loaded, todo[1..])
  {
    TodoSplits(todo);
  }

  lemma EndScanKeeps(st: Settings, w: World)
    requires Inv(st, w) && Apply(st, w, EndScan).Some?
    ensures Inv(st, Apply(st, w, EndScan).value)
  {
    OnlyRunChanged(st, w, Apply(st, w, EndScan).value);
    hide WorldOk, Tracks, AllUsed, Distinct;
  }

  lemma DeletedKeepsTracks(st: Settings, w: World, w2: World, p: Path, c: Cursor)
    requires OwnDocs(st) && w2 == w.(sink := w.sink - {st.docOf(p)}, run := w2.run)
    requires Tracks(st, w, c) && !Names(c, w, p)
    ensures Tracks(st, w2, c)
  {
  }

  lemma DeleteOneKeeps(st: Settings, w: World, p: Path)
    requires OwnDocs(st) && Inv(st, w) && Apply(st, w, DeleteOne(p)).Some?
    ensures Inv(st, Apply(st, w, DeleteOne(p)).value)
  {
    var next := Apply(st, w, DeleteOne(p)).value;
    DeletedKeepsTracks(st, w, next, p, w.cursor);
    DeletedKeepsTracks(st, w, next, p, w.run.newCursor);
    hide Tracks, AllUsed;
  }

  lemma TrimKeeps(st: Settings, w: World)
    requires Inv(st, w) && Apply(st, w, Trim).Some?
    ensures Inv(st, Apply(st, w, Trim).value)
  {
    OnlyRunChanged(st, w, Apply(st, w, Trim).value);
    hide WorldOk;
  }

  lemma SaveKeeps(st: Settings, w: World, step: Step)
    requires Inv(st, w) && Apply(st, w, step).Some?
    requires step.WriteTemp? || step.Replace? || step.Stop?
    ensures Inv(st, Apply(st, w, step).value)
  {
    var next := Apply(st, w, step).value;
    if step.Replace? {
      assert next == w.(cursor := w.run.newCursor, temp := Absent, run := Idle);
      assert Tracks(st, next, next.cursor);
    } else {
      OnlyRunChanged(st, w, next);
    }
    hide Tracks, AllUsed;
  }

  lemma FaithfulMeans(st: Settings)
    requires Faithful(st)
    ensures OwnDocs(st) && !st.revisits
  {
  }

  lemma StepKeeps(st: Settings, w: World, step: Step)
    requires Faithful(st) && Inv(st, w) && Apply(st, w, step).Some?
    ensures Inv(st, Apply(st, w, step).value)
  {
    FaithfulMeans(st);
    hide Inv, Faithful, OwnDocs;
    match step
    case Edit(p, v) => EditKeeps(st, w, p, v);
    case Remove(p) => RemoveKeeps(st, w, p);
    case Begin => BeginKeeps(st, w);
    case Glob(paths) => GlobKeeps(st, w, paths);
    case Look => LookKeeps(st, w);
    case Parse => ParseKeeps(st, w);
    case Write => WriteKeeps(st, w);
    case Merge => MergeKeeps(st, w);
    case EndScan => EndScanKeeps(st, w);
    case DeleteOne(p) => DeleteOneKeeps(st, w, p);
    case Trim => TrimKeeps(st, w);
    case _ => SaveKeeps(st, w, step);
  }

  lemma {:induction false} RunKeeps(st: Settings, w: World, steps: seq<Step>)
    requires Faithful(st) && Inv(st, w) && RunSteps(st, w, steps).Some?
    ensures Inv(st, RunSteps(st, w, steps).value)
    decreases |steps|
  {
    hide Inv, Faithful, Apply;
    if steps != [] {
      StepKeeps(st, w, steps[0]);
      RunKeeps(st, Apply(st, w, steps[0]).value, steps[1..]);
    }
  }
}
