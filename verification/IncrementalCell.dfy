// The incremental path of `run_cell`, start to end, while no file changes.
module IncrementalCell {
  import opened Text
  import opened IncrementalRun

  // The files whose version differs from the cursor's.
  predicate IsChanged(disk: map<Path, Version>, cursor: Cursor, p: Path) {
    p in disk && !(p in cursor && cursor[p] == disk[p])
  }

  // How many of the first n paths changed.
  function ChangedCount(disk: map<Path, Version>, cursor: Cursor, paths: seq<Path>, n: nat): (c: nat)
    requires n <= |paths|
    ensures c <= n
  {
    if n == 0 then 0
    else ChangedCount(disk, cursor, paths, n - 1) + if IsChanged(disk, cursor, paths[n - 1]) then 1 else 0
  }

  lemma {:induction false} ChangedCountGrows(disk: map<Path, Version>, cursor: Cursor, paths: seq<Path>, m: nat, n: nat)
    requires m <= n <= |paths|
    ensures ChangedCount(disk, cursor, paths, m) <= ChangedCount(disk, cursor, paths, n)
  {
    if m < n {
      ChangedCountGrows(disk, cursor, paths, m, n - 1);
    }
  }

  // The sink once the changed files among the first n have been written.
  function Written(st: Settings, disk: map<Path, Version>, cursor: Cursor, base: Sink, paths: seq<Path>, n: nat): Sink
    requires n <= |paths|
  {
    if n == 0 then base
    else
      var before, p := Written(st, disk, cursor, base, paths, n - 1), paths[n - 1];
      if IsChanged(disk, cursor, p) then Put(st, before, p, disk[p]) else before
  }

  // The next cursor once the first n files have been looked at.
  function Merged(disk: map<Path, Version>, cursor: Cursor, paths: seq<Path>, n: nat): Cursor
    requires n <= |paths|
  {
    if n == 0 then cursor
    else
      var before, p := Merged(disk, cursor, paths, n - 1), paths[n - 1];
      if IsChanged(disk, cursor, p) then before[p := disk[p]] else before
  }

  predicate Listed(paths: seq<Path>, disk: map<Path, Version>) {
    Distinct(paths) && (set p | p in paths) == disk.Keys
  }

  function DocsOf(st: Settings, gone: set<Path>): set<Doc> {
    set p <- gone :: st.docOf(p)
  }

  // ---------- the cursor ----------

  lemma {:induction false} MergedNames(disk: map<Path, Version>, cursor: Cursor, paths: seq<Path>, n: nat)
    requires n <= |paths| && forall p <- paths :: p in disk
    ensures var merged := Merged(disk, cursor, paths, n);
            forall k :: 0 <= k < n ==> paths[k] in merged && merged[paths[k]] == disk[paths[k]]
    ensures forall p <- cursor.Keys :: p !in disk || !IsChanged(disk, cursor, p) ==>
              p in Merged(disk, cursor, paths, n) && Merged(disk, cursor, paths, n)[p] == cursor[p]
  {
    if n > 0 {
      MergedNames(disk, cursor, paths, n - 1);
      assert paths[n - 1] in paths;
    }
  }

  // After all files the next cursor, trimmed to the disk, is the disk.
  lemma MergedIsDisk(disk: map<Path, Version>, cursor: Cursor, paths: seq<Path>)
    requires Listed(paths, disk)
    ensures var n := Merged(disk, cursor, paths, |paths|);
            (map p | p in n && p in disk :: n[p]) == disk
  {
    forall p <- paths ensures p in disk {
      assert p in (set q | q in paths);
    }
    MergedNames(disk, cursor, paths, |paths|);
    forall p <- disk.Keys ensures exists k :: 0 <= k < |paths| && paths[k] == p {
      assert p in (set q | q in paths);
    }
  }

  lemma ScanStep(st: Settings, disk: map<Path, Version>, cursor: Cursor, base: Sink, paths: seq<Path>, i: nat)
    requires i < |paths|
    ensures ChangedCount(disk, cursor, paths, 0) == 0
    ensures Written(st, disk, cursor, base, paths, 0) == base && Merged(disk, cursor, paths, 0) == cursor
    ensures var p, changed := paths[i], IsChanged(disk, cursor, paths[i]);
            && (changed ==> p in disk)
            && ChangedCount(disk, cursor, paths, i + 1)
                 == ChangedCount(disk, cursor, paths, i) + (if changed then 1 else 0)
            && Written(st, disk, cursor, base, paths, i + 1) ==
                 (if changed then Put(st, Written(st, disk, cursor, base, paths, i), p, disk[p])
                  else Written(st, disk, cursor, base, paths, i))
            && Merged(disk, cursor, paths, i + 1) ==
                 (if changed then Merged(disk, cursor, paths, i)[p := disk[p]] else Merged(disk, cursor, paths, i))
  {
  }

  lemma NothingScanned(st: Settings, disk: map<Path, Version>, cursor: Cursor, base: Sink, paths: seq<Path>)
    ensures ChangedCount(disk, cursor, paths, 0) == 0
    ensures Written(st, disk, cursor, base, paths, 0) == base && Merged(disk, cursor, paths, 0) == cursor
  {
  }

  // The sink a run over `sink` leaves behind that got through the first `seen` files.
  function SinkLeft(st: Settings, disk: map<Path, Version>, cursor: Cursor, sink: Sink, paths: seq<Path>, seen: nat,
                    completed: bool): Sink
    requires seen <= |paths|
  {
    var written := Written(st, disk, cursor, if st.keepsRows then sink else map[], paths, seen);
    if completed then written - DocsOf(st, cursor.Keys - disk.Keys) else written
  }

  // How far a run gets: through all files, or up to a changed one that comes up when
  // the limit is reached.
  predicate GetsThrough(st: Settings, disk: map<Path, Version>, cursor: Cursor, paths: seq<Path>, seen: nat) {
    && seen <= |paths|
    && var docs := ChangedCount(disk, cursor, paths, seen);
       && (seen < |paths| ==> IsChanged(disk, cursor, paths[seen]) && st.limit == Some(docs))
       && (st.limit.Some? ==> docs <= st.limit.value)
  }

  class Cell {
    var sink: Sink
    var cursorFile: Cursor

    constructor ()
      ensures sink == map[] && cursorFile == map[]
    {
      sink, cursorFile := map[], map[];
    }

    // One run over the files on disk, listed in `paths`, of which it gets through
    // the first `seen`. It completes exactly when fewer files changed than the limit.
    // Then the documents of the cursor's vanished files are deleted and the cursor
    // becomes the disk; otherwise it stays.
    method RunCell(st: Settings, disk: map<Path, Version>, paths: seq<Path>)
      returns (docs: nat, completed: bool, ghost seen: nat)
      requires Listed(paths, disk)
      modifies this
      ensures GetsThrough(st, disk, old(cursorFile), paths, seen)
      ensures docs == ChangedCount(disk, old(cursorFile), paths, seen)
      ensures completed == !LimitReached(st, ChangedCount(disk, old(cursorFile), paths, |paths|))
      ensures completed ==> seen == |paths|
      ensures cursorFile == if completed then disk else old(cursorFile)
      ensures sink == SinkLeft(st, disk, old(cursorFile), old(sink), paths, seen, completed)
    {
      hide Written, Merged, ChangedCount, DocsOf;
      var cursor := cursorFile;
      if !st.keepsRows {
        sink := map[];
      }
      var newCursor: Cursor;
      docs, newCursor, seen := Scan(st, disk, paths, cursor);
      completed := !LimitReached(st, docs);
      ChangedCountGrows(disk, cursor, paths, seen, |paths|);
      if completed {
        DeleteGone(st, disk, cursor);
        MergedIsDisk(disk, cursor, paths);
        cursorFile := map p | p in newCursor && p in disk :: newCursor[p];
      }
    }

    // The loop over the changed files. It stops early when another changed file
    // comes up at the limit.
    method Scan(st: Settings, disk: map<Path, Version>, paths: seq<Path>, cursor: Cursor)
      returns (docs: nat, newCursor: Cursor, ghost seen: nat)
      modifies this`sink
      ensures GetsThrough(st, disk, cursor, paths, seen) && docs == ChangedCount(disk, cursor, paths, seen)
      ensures sink == Written(st, disk, cursor, old(sink), paths, seen)
              && newCursor == Merged(disk, cursor, paths, seen)
    {
      hide Written, Merged, ChangedCount;
      newCursor, docs := cursor, 0;
      var i := 0;
      NothingScanned(st, disk, cursor, sink, paths);
      while i < |paths|
        invariant i <= |paths| && docs == ChangedCount(disk, cursor, paths, i)
        invariant st.limit.Some? ==> docs <= st.limit.value
        invariant sink == Written(st, disk, cursor, old(sink), paths, i) && newCursor == Merged(disk, cursor, paths, i)
      {
        var p := paths[i];
        ScanStep(st, disk, cursor, old(sink), paths, i);
        if IsChanged(disk, cursor, p) {
          if st.limit.Some? && docs >= st.limit.value {
            seen := i;
            return;
          }
          sink := Put(st, sink, p, disk[p]);
          docs := docs + 1;
          newCursor := newCursor[p := disk[p]];
        }
        i := i + 1;
      }
      seen := i;
    }

    // The documents of the cursor's vanished files are deleted one by one.
    method DeleteGone(st: Settings, disk: map<Path, Version>, cursor: Cursor)
      modifies this`sink
      ensures sink == old(sink) - DocsOf(st, cursor.Keys - disk.Keys)
    {
      var all := cursor.Keys - disk.Keys;
      var gone := all;
      while gone != {}
        invariant gone <= all && sink == old(sink) - DocsOf(st, all - gone)
      {
        var p :| p in gone;
        assert all - (gone - {p}) == (all - gone) + {p};
        assert DocsOf(st, all - (gone - {p})) == DocsOf(st, all - gone) + {st.docOf(p)};
        sink := sink - {st.docOf(p)};
        gone := gone - {p};
      }
      assert all - gone == all;
    }
  }

  // ---------- what the rows become ----------

  // The rows of p once its current version has been written over `before`.
  function Rewritten(st: Settings, disk: map<Path, Version>, before: seq<string>, p: Path): seq<string>
    requires p in disk
  {
    if st.chunksOf(disk[p]) == [] then before else RowsAfter(st, before, st.chunksOf(disk[p]))
  }

  // A rewrite upserts by row number: the new chunks come first, and of a longer old
  // list the rest stays as it was unless orphans are deleted.
  lemma RewriteUpserts(st: Settings, before: seq<string>, chunks: seq<string>)
    ensures var after := RowsAfter(st, before, chunks);
            && |after| >= |chunks| && after[..|chunks|] == chunks
            && (st.deleteOrphans ==> |after| == |chunks|)
            && (!st.deleteOrphans ==> |after| == if |before| > |chunks| then |before| else |chunks|)
            && (forall k :: |chunks| <= k < |after| ==> after[k] == before[k])
  {
  }

  lemma PutRows(st: Settings, disk: map<Path, Version>, sink: Sink, p: Path, d: Doc)
    requires p in disk
    ensures Rows(Put(st, sink, p, disk[p]), d)
              == if d == st.docOf(p) then Rewritten(st, disk, Rows(sink, d), p) else Rows(sink, d)
  {
    hide RowsAfter;
  }

  // When no two paths share a document id, each changed file among the first n has
  // its current version written over its rows, and the other files keep theirs.
  lemma {:induction false} WrittenRows(st: Settings, disk: map<Path, Version>, cursor: Cursor, base: Sink,
                                       paths: seq<Path>, n: nat, p: Path)
    requires OwnDocs(st) && Distinct(paths) && n <= |paths|
    ensures Rows(Written(st, disk, cursor, base, paths, n), st.docOf(p)) ==
              if p in paths[..n] && IsChanged(disk, cursor, p) then Rewritten(st, disk, Rows(base, st.docOf(p)), p)
              else Rows(base, st.docOf(p))
  {
    if n > 0 {
      WrittenRows(st, disk, cursor, base, paths, n - 1, p);
      var q := paths[n - 1];
      assert paths[..n] == paths[..n - 1] + [q];
      if q in disk {
        PutRows(st, disk, Written(st, disk, cursor, base, paths, n - 1), q, st.docOf(p));
      }
      hide Put, Rewritten, Rows;
    }
  }

  // After a complete run with document ids of their own: changed files are
  // rewritten, documents of vanished files are gone, and the rest is kept.
  lemma CompleteRunRows(st: Settings, disk: map<Path, Version>, cursor: Cursor, base: Sink, paths: seq<Path>, p: Path)
    requires OwnDocs(st) && Listed(paths, disk)
    ensures Rows(Written(st, disk, cursor, base, paths, |paths|) - DocsOf(st, cursor.Keys - disk.Keys), st.docOf(p)) ==
              if IsChanged(disk, cursor, p) then Rewritten(st, disk, Rows(base, st.docOf(p)), p)
              else if p in cursor && p !in disk then []
              else Rows(base, st.docOf(p))
  {
    WrittenRows(st, disk, cursor, base, paths, |paths|, p);
    assert paths[..|paths|] == paths;
    assert p in paths <==> p in (set q | q in paths);
    assert st.docOf(p) in DocsOf(st, cursor.Keys - disk.Keys) <==> p in cursor.Keys - disk.Keys;
    hide Written, Rewritten;
  }

  // When paths share a document id, the last changed file written wins.
  lemma {:induction false} LastWriterWins(st: Settings, disk: map<Path, Version>, cursor: Cursor, base: Sink,
                                          paths: seq<Path>, n: nat, i: nat)
    requires i < n <= |paths| && IsChanged(disk, cursor, paths[i])
    requires st.deleteOrphans && st.chunksOf(disk[paths[i]]) != []
    requires forall k :: i < k < n && IsChanged(disk, cursor, paths[k]) ==> st.docOf(paths[k]) != st.docOf(paths[i])
    ensures Rows(Written(st, disk, cursor, base, paths, n), st.docOf(paths[i])) == st.chunksOf(disk[paths[i]])
  {
    var q := paths[n - 1];
    if i < n - 1 {
      LastWriterWins(st, disk, cursor, base, paths, n - 1, i);
    }
    if q in disk {
      PutRows(st, disk, Written(st, disk, cursor, base, paths, n - 1), q, st.docOf(paths[i]));
    }
    hide Put, Rows;
  }
}
