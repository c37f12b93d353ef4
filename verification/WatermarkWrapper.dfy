// One run of the watermark wrapper, start to end, while the source does not change.
module WatermarkWrapper {
  import opened Text
  import opened Watermark

  // Some row is stamped after what was last seen.
  predicate HasNewRows(rows: map<RowId, Row>, last: Option<int>) {
    exists id <- rows.Keys :: last.Some? ==> rows[id].stamp > last.value
  }

  predicate IsNew(rows: map<RowId, Row>, last: Option<int>, id: RowId) {
    id in rows && LowerBound(last) < rows[id].stamp
  }

  predicate Holds(target: map<RowId, Version>, rows: map<RowId, Row>, id: RowId) {
    id in rows && id in target && target[id] == rows[id].version
  }

  predicate SameRow(a: map<RowId, Version>, b: map<RowId, Version>, id: RowId) {
    (id in a <==> id in b) && (id in a ==> a[id] == b[id])
  }

  // Every row stamped in (epoch, last] is in the target in its current version.
  predicate CaughtUp(rows: map<RowId, Row>, last: Option<int>, target: map<RowId, Version>) {
    forall id <- rows.Keys :: last.Some? && EPOCH < rows[id].stamp <= last.value ==> Holds(target, rows, id)
  }

  // What one run makes of the cursor and the target. It advances exactly when the
  // lock was free, a row is newer than the cursor and the ingest succeeds; then the
  // cursor is the source's maximum and every new row is held. Otherwise the cursor
  // stays, and at most new rows changed.
  ghost predicate Leaves(rows: map<RowId, Row>, locked: bool, last: Option<int>, target: map<RowId, Version>, rc: int,
                         advanced: bool, last2: Option<int>, target2: map<RowId, Version>)
  {
    && (advanced <==> !locked && HasNewRows(rows, last) && rc == 0)
    && (if advanced then last2.Some? && IsHighWater(rows, last2) else last2 == last)
    && (locked || !HasNewRows(rows, last) ==> target2 == target)
    && (forall id :: SameRow(target2, target, id) || (IsNew(rows, last, id) && Holds(target2, rows, id)))
    && (advanced ==> forall id :: IsNew(rows, last, id) ==> Holds(target2, rows, id))
  }

  method HighWater(rows: map<RowId, Row>) returns (high: Option<int>)
    ensures IsHighWater(rows, high)
  {
    high := None;
    var left := rows.Keys;
    while left != {}
      invariant left <= rows.Keys
      invariant high.None? ==> left == rows.Keys
      invariant high.Some? ==> exists id <- rows.Keys :: rows[id].stamp == high.value
      invariant high.Some? ==> forall id <- rows.Keys - left :: rows[id].stamp <= high.value
    {
      var id :| id in left;
      high := MaxSeen(high, rows[id].stamp);
      left := left - {id};
    }
  }

  // The selected rows outside `left` are stored, and nothing else changed.
  ghost predicate PartlyStored(rows: map<RowId, Row>, g: Window, was: map<RowId, Version>, target: map<RowId, Version>,
                               left: set<RowId>)
  {
    && (forall id: RowId :: SameRow(target, was, id) || id in rows)
    && (forall id <- rows.Keys ::
          if InWindow(g, rows[id].stamp) && id !in left then Holds(target, rows, id) else SameRow(target, was, id))
  }

  lemma StoringOne(rows: map<RowId, Row>, g: Window, was: map<RowId, Version>, target: map<RowId, Version>,
                   left: set<RowId>, id: RowId)
    requires PartlyStored(rows, g, was, target, left)
    requires id in left && id in rows && InWindow(g, rows[id].stamp)
    ensures PartlyStored(rows, g, was, target[id := rows[id].version], left - {id})
  {
    hide InWindow;
  }

  lemma NothingStored(rows: map<RowId, Row>, g: Window, was: map<RowId, Version>)
    ensures PartlyStored(rows, g, was, was, Selected(rows, g).Keys)
  {
    hide InWindow;
  }

  lemma StoredRows(rows: map<RowId, Row>, g: Window, was: map<RowId, Version>, target: map<RowId, Version>,
                   left: set<RowId>)
    requires PartlyStored(rows, g, was, target, left)
    ensures forall id ::
              SameRow(target, was, id) || (id in rows && InWindow(g, rows[id].stamp) && Holds(target, rows, id))
    ensures left == {} ==> forall id <- rows.Keys :: InWindow(g, rows[id].stamp) ==> Holds(target, rows, id)
  {
    hide InWindow;
    forall id
      ensures SameRow(target, was, id) || (id in rows && InWindow(g, rows[id].stamp) && Holds(target, rows, id))
    {
      if id !in rows {
        assert SameRow(target, was, id);
      }
    }
  }

  class CursorStore {
    var locked: bool
    var lastSeen: Option<int>
    var target: map<RowId, Version>

    constructor ()
      ensures !locked && lastSeen == None && target == map[]
    {
      locked, lastSeen, target := false, None, map[];
    }

    // `main`: the ingest returns rc, and when that is not 0 it stored only the
    // first `stored` rows it came to. A cursor that advances moves up, and with
    // everything before it caught up, every row stamped after the epoch is.
    method RunWrapper(rows: map<RowId, Row>, rc: int, stored: nat) returns (code: int, advanced: bool)
      modifies this
      ensures locked == old(locked)
      ensures Leaves(rows, old(locked), old(lastSeen), old(target), rc, advanced, lastSeen, target)
      ensures code == if old(locked) || !HasNewRows(rows, old(lastSeen)) then 0 else rc
      ensures advanced && old(lastSeen).Some? ==> lastSeen.value > old(lastSeen).value
      ensures CaughtUp(rows, old(lastSeen), old(target)) ==> CaughtUp(rows, lastSeen, target)
    {
      hide InWindow;
      if locked {
        return 0, false;
      }
      locked := true;
      var last := lastSeen;
      var high := HighWater(rows);
      if high.None? || (last.Some? && high.value <= last.value) {
        locked := false;
        return 0, false;
      }
      assert HasNewRows(rows, last);
      var g := Window(LowerBound(last), high.value);
      Ingest(rows, g, rc, stored);
      InTheWindow(rows, last, high.value);
      if rc != 0 {
        locked := false;
        return rc, false;
      }
      lastSeen := high;
      locked := false;
      return 0, true;
    }

    // The ingest subprocess over the selected rows.
    method Ingest(rows: map<RowId, Row>, g: Window, rc: int, stored: nat)
      modifies this`target
      ensures forall id ::
                || SameRow(target, old(target), id)
                || (id in rows && InWindow(g, rows[id].stamp) && Holds(target, rows, id))
      ensures rc == 0 ==> forall id <- rows.Keys :: InWindow(g, rows[id].stamp) ==> Holds(target, rows, id)
    {
      hide InWindow, SameRow, Holds, PartlyStored;
      var snapshot := Selected(rows, g);
      var left, done := snapshot.Keys, 0;
      NothingStored(rows, g, target);
      while left != {} && (rc == 0 || done < stored)
        invariant left <= snapshot.Keys
        invariant PartlyStored(rows, g, old(target), target, left)
        decreases left
      {
        var id :| id in left;
        StoringOne(rows, g, old(target), target, left, id);
        target := target[id := snapshot[id]];
        left := left - {id};
        done := done + 1;
      }
      StoredRows(rows, g, old(target), target, left);
    }
  }

  // Up to the maximum, the rows of the window are the new ones.
  lemma InTheWindow(rows: map<RowId, Row>, last: Option<int>, high: int)
    requires IsHighWater(rows, Some(high))
    ensures forall id <- rows.Keys ::
              InWindow(Window(LowerBound(last), high), rows[id].stamp) <==> IsNew(rows, last, id)
  {
  }
}
