// The loops of the wrapper chunkers, proved to compute the chunk lists that
// Chunking defines.
module ChunkLoops {
  import opened Text
  import opened Splitting
  import opened Chunking

  // The first and the last position within `window` of i.
  function From(i: nat, window: nat): (lo: nat)
    ensures lo <= i <= lo + window && (lo > 0 ==> lo + window == i)
  {
    if i >= window then i - window else 0
  }

  function To(i: nat, window: nat, n: nat): (hi: nat)
    requires i < n
    ensures i <= hi < n && hi <= i + window && (hi + 1 < n ==> hi == i + window)
  {
    if i + window < n then i + window else n - 1
  }

  // c is the base chunk but for its embedded text, which joins the embedded texts
  // of the chunks at most `window` away, and a note of the window.
  predicate IsExpanded(base: seq<Chunk>, window: nat, i: nat, c: Chunk)
    requires i < |base|
  {
    && c.docId == base[i].docId && c.seqNum == base[i].seqNum && c.original == base[i].original
    && c.embedded == Join(Embeddeds(base)[From(i, window)..To(i, window, |base|) + 1], BLANK_LINE)
    && c.meta == base[i].meta["neighbor_expand_window" := Num(window)]
  }

  lemma ExpandedIsNeighborChunk(base: seq<Chunk>, window: nat, i: nat, c: Chunk)
    requires i < |base| && IsExpanded(base, window, i, c)
    ensures c == NeighborChunk(base, window, i)
  {
    hide Join;
    var lo, hi := From(i, window), To(i, window, |base|);
    assert Embeddeds(base[lo..hi + 1]) == Embeddeds(base)[lo..hi + 1];
  }

  // The texts lo to hi, joined.
  method JoinNeighbors(base: seq<Chunk>, lo: nat, hi: nat) returns (joined: string)
    requires lo <= hi < |base|
    ensures joined == Join(Embeddeds(base)[lo..hi + 1], BLANK_LINE)
  {
    hide Join;
    var parts: seq<string> := [];
    for j := lo to hi + 1
      invariant parts == Embeddeds(base)[lo..j]
    {
      parts := parts + [base[j].embedded];
    }
    joined := Join(parts, BLANK_LINE);
  }

  // `neighbor_expand`: one chunk per base chunk, expanded, with its number, document
  // and original text kept.
  method NeighborExpandLoop(base: seq<Chunk>, window: nat) returns (out: seq<Chunk>)
    ensures |out| == |base| && forall i :: 0 <= i < |base| ==> IsExpanded(base, window, i, out[i])
    ensures out == NeighborChunks(base, window)
  {
    hide Join, Embeddeds, NeighborChunk;
    out := [];
    for i := 0 to |base|
      invariant |out| == i
      invariant forall k :: 0 <= k < i ==> IsExpanded(base, window, k, out[k])
    {
      var joined := JoinNeighbors(base, From(i, window), To(i, window, |base|));
      out := out + [base[i].(embedded := joined, meta := base[i].meta["neighbor_expand_window" := Num(window)])];
      hide IsExpanded;
    }
    forall i | 0 <= i < |base| ensures out[i] == NeighborChunk(base, window, i) {
      ExpandedIsNeighborChunk(base, window, i, out[i]);
    }
  }

  lemma {:induction false} JoinHolds(parts: seq<string>, sep: string, k: nat) returns (before: string, after: string)
    requires k < |parts|
    ensures Join(parts, sep) == before + parts[k] + after
  {
    if |parts| == 1 {
      before, after := "", "";
    } else if k == 0 {
      before, after := "", sep + Join(parts[1..], sep);
      assert parts[0] + sep + Join(parts[1..], sep) == before + parts[0] + after;
    } else {
      var b, a := JoinHolds(parts[1..], sep, k - 1);
      before, after := parts[0] + sep + b, a;
      assert parts[0] + sep + (b + parts[k] + a) == before + parts[k] + after;
    }
  }

  // The embedded text of every chunk at most `window` away is in the expanded one
  // verbatim; a window of 0 leaves the embedded text as it was.
  lemma NeighborsAreEmbedded(base: seq<Chunk>, window: nat, i: nat, k: nat) returns (before: string, after: string)
    requires i < |base| && k < |base| && i <= k + window && k <= i + window
    ensures NeighborChunks(base, window)[i].embedded == before + base[k].embedded + after
    ensures window == 0 ==> NeighborChunks(base, window)[i].embedded == base[i].embedded
  {
    var lo, hi := From(i, window), To(i, window, |base|);
    before, after := JoinHolds(Embeddeds(base[lo..hi + 1]), BLANK_LINE, k - lo);
  }

  // What SummaryChunks makes of the rest once `out` is done.
  lemma SummaryChunksStep(base: seq<Chunk>, i: nat, s: nat, sv: Services, doc: Document, out: seq<Chunk>)
    requires i < |base|
    ensures var summary := sv.summarize(s, base[i].original, doc.meta);
            var rest := SummaryChunks(base[i..], s, sv, doc);
            if summary.None? then rest.None?
            else
              var meta := base[i].meta["summarizer" := Str(sv.summarizerMode(s))];
              var c := base[i].(embedded := summary.value, meta := meta);
              var next := SummaryChunks(base[i + 1..], s, sv, doc);
              (rest.Some? <==> next.Some?) && (rest.Some? ==> out + rest.value == (out + [c]) + next.value)
  {
    assert base[i..][1..] == base[i + 1..] && base[i..][0] == base[i];
  }

  // c is the base chunk `was` but for its embedded text, which is the summary of the
  // original text, and a note of the summarizer.
  predicate IsSummarized(was: Chunk, c: Chunk, s: nat, sv: Services, doc: Document) {
    && c.docId == was.docId && c.seqNum == was.seqNum && c.original == was.original
    && Some(c.embedded) == sv.summarize(s, was.original, doc.meta)
    && c.meta == was.meta["summarizer" := Str(sv.summarizerMode(s))]
  }

  // There are chunks exactly when every summary succeeds: the base chunks, summarized.
  lemma {:induction false} SummariesAreEmbedded(base: seq<Chunk>, s: nat, sv: Services, doc: Document)
    ensures var r := SummaryChunks(base, s, sv, doc);
            && (r.Some? <==> forall c <- base :: sv.summarize(s, c.original, doc.meta).Some?)
            && (r.Some? ==> |r.value| == |base|)
            && (r.Some? ==> forall i :: 0 <= i < |base| ==> IsSummarized(base[i], r.value[i], s, sv, doc))
  {
    if base != [] {
      SummariesAreEmbedded(base[1..], s, sv, doc);
      assert base == [base[0]] + base[1..];
      var r, rest := SummaryChunks(base, s, sv, doc), SummaryChunks(base[1..], s, sv, doc);
      if r.Some? {
        hide IsSummarized;
        forall i | 1 <= i < |base| ensures IsSummarized(base[i], r.value[i], s, sv, doc) {
          assert base[i] == base[1..][i - 1] && r.value[i] == rest.value[i - 1];
        }
      }
    }
  }

  // `summary_embed`: the base chunks, summarized; gives up with no chunks when a
  // summary fails.
  method SummaryEmbedLoop(base: seq<Chunk>, s: nat, sv: Services, doc: Document) returns (out: seq<Chunk>)
    ensures if forall c <- base :: sv.summarize(s, c.original, doc.meta).Some?
            then |out| == |base| && forall i :: 0 <= i < |base| ==> IsSummarized(base[i], out[i], s, sv, doc)
            else out == []
    ensures var r := SummaryChunks(base, s, sv, doc); out == if r.Some? then r.value else []
  {
    SummariesAreEmbedded(base, s, sv, doc);
    hide SummaryChunks, IsSummarized;
    out := [];
    assert base[0..] == base;
    ghost var all := SummaryChunks(base, s, sv, doc);
    for i := 0 to |base|
      invariant var rest := SummaryChunks(base[i..], s, sv, doc);
                (all.Some? <==> rest.Some?) && (all.Some? ==> all.value == out + rest.value)
    {
      SummaryChunksStep(base, i, s, sv, doc, out);
      var summary := sv.summarize(s, base[i].original, doc.meta);
      if summary.None? {
        return [];
      }
      var meta := base[i].meta["summarizer" := Str(sv.summarizerMode(s))];
      out := out + [base[i].(embedded := summary.value, meta := meta)];
    }
    SummaryChunksEnd(base, s, sv, doc);
  }

  lemma SummaryChunksEnd(base: seq<Chunk>, s: nat, sv: Services, doc: Document)
    ensures SummaryChunks(base[|base|..], s, sv, doc) == Some([])
  {
  }

  lemma SummaryRowsStep(groups: seq<seq<Chunk>>, k: nat, s: nat, sv: Services, doc: Document, out: seq<Chunk>)
    requires k < |groups|
    ensures var summary := sv.summarize(s, Join(Originals(groups[k]), BLANK_LINE), doc.meta);
            var rest := SummaryRows(groups[k..], k, s, sv, doc, |out|);
            if summary.None? then rest.None?
            else
              var rows := GroupRows(groups[k], k, summary.value, sv.summarizerMode(s), doc, |out|);
              var next := SummaryRows(groups[k + 1..], k + 1, s, sv, doc, |out + rows|);
              (rest.Some? <==> next.Some?) && (rest.Some? ==> out + rest.value == (out + rows) + next.value)
  {
    hide GroupRows, Join, Originals;
    assert groups[k..][1..] == groups[k + 1..] && groups[k..][0] == groups[k];
  }

  lemma SummaryRowsEnd(groups: seq<seq<Chunk>>, s: nat, sv: Services, doc: Document, seqNum: nat)
    ensures SummaryRows(groups[|groups|..], |groups|, s, sv, doc, seqNum) == Some([])
  {
  }

  // `hierarchical_summary`: per group its fine rows, then one coarse row; gives
  // up with no chunks when a summary fails.
  method HierarchicalSummaryLoop(groups: seq<seq<Chunk>>, s: nat, sv: Services, doc: Document) returns (out: seq<Chunk>)
    ensures var r := SummaryRows(groups, 0, s, sv, doc, 0); out == if r.Some? then r.value else []
  {
    hide SummaryRows, GroupRows, FineChunk, CoarseChunk, GroupId, Join, Originals;
    out := [];
    var seqNum := 0;
    assert groups[0..] == groups;
    ghost var all := SummaryRows(groups, 0, s, sv, doc, 0);
    for k := 0 to |groups|
      invariant seqNum == |out|
      invariant var rest := SummaryRows(groups[k..], k, s, sv, doc, seqNum);
                (all.Some? <==> rest.Some?) && (all.Some? ==> all.value == out + rest.value)
    {
      SummaryRowsStep(groups, k, s, sv, doc, out);
      ghost var before := out;
      var group, id, mode := groups[k], GroupId(doc.id, k), sv.summarizerMode(s);
      for i := 0 to |group|
        invariant seqNum == |out| == |before| + i
        invariant out[..|before|] == before
        invariant forall j :: 0 <= j < i ==> out[|before| + j] == FineChunk(group[j], id, mode, |before| + j)
      {
        out := out + [FineChunk(group[i], id, mode, seqNum)];
        seqNum := seqNum + 1;
      }
      var joined := Join(Originals(group), BLANK_LINE);
      var summary := sv.summarize(s, joined, doc.meta);
      if summary.None? {
        return [];
      }
      out := out + [CoarseChunk(doc.id, group, summary.value, id, mode, seqNum)];
      seqNum := seqNum + 1;
      GroupRowsAre(group, k, summary.value, mode, doc, |before|, out[|before|..]);
      assert out == before + out[|before|..];
    }
    SummaryRowsEnd(groups, s, sv, doc, seqNum);
  }

  lemma GroupRowsAre(group: seq<Chunk>, k: nat, summary: string, mode: string, doc: Document, seqNum: nat,
                     rows: seq<Chunk>)
    requires |rows| == |group| + 1
    requires forall j :: 0 <= j < |group| ==> rows[j] == FineChunk(group[j], GroupId(doc.id, k), mode, seqNum + j)
    requires rows[|group|] == CoarseChunk(doc.id, group, summary, GroupId(doc.id, k), mode, seqNum + |group|)
    ensures rows == GroupRows(group, k, summary, mode, doc, seqNum)
  {
    hide FineChunk, CoarseChunk, GroupId;
  }

  // `consolidation`: stamp the episodes in place, then one chunk per fact; a failing
  // consolidator leaves the episodes only, marked with its message.
  method ConsolidationLoop(base: seq<Chunk>, consolidator: nat, maxChars: nat, sv: Services, doc: Document)
    returns (out: seq<Chunk>)
    ensures out == ConsolidationChunks(base, consolidator, maxChars, sv, doc)
  {
    hide Episode, WithError, FactMeta, FactText, Truncated;
    var mode := sv.consolidatorMode(consolidator);
    out := StampEpisodes(base, mode, doc);
    var nextSeq := |out|;
    var result := sv.consolidate(consolidator, doc);
    if result.ConsolidatorError? {
      for i := 0 to |out|
        invariant |out| == nextSeq
        invariant forall k :: 0 <= k < i ==> out[k] == WithError(Episodes(base, mode, doc)[k], result.message)
        invariant forall k :: i <= k < |out| ==> out[k] == Episodes(base, mode, doc)[k]
      {
        out := out[i := WithError(out[i], result.message)];
      }
      return;
    }
    for i := 0 to |result.facts|
      invariant |out| == nextSeq + i && out[..nextSeq] == Episodes(base, mode, doc)
      invariant forall k :: 0 <= k < i ==>
                  out[nextSeq + k] == FactChunk(result.facts[k], k, mode, maxChars, doc, nextSeq)
    {
      var f := result.facts[i];
      var text := Truncated(FactText(f), maxChars);
      out := out + [Chunk(doc.id, nextSeq + i, text, text, FactMeta(f, i, mode, maxChars, doc))];
    }
  }

  // The first loop of `consolidation`, key by key.
  method StampEpisodes(base: seq<Chunk>, mode: string, doc: Document) returns (out: seq<Chunk>)
    ensures out == Episodes(base, mode, doc)
  {
    out := base;
    for i := 0 to |out|
      invariant |out| == |base|
      invariant forall k :: 0 <= k < i ==> out[k] == Episode(base[k], mode, doc)
      invariant forall k :: i <= k < |out| ==> out[k] == base[k]
    {
      var m := out[i].meta["kind" := Str("episode")]["extractor" := Str(mode)];
      if "session_id" !in m && "session_id" in doc.meta {
        m := m["session_id" := doc.meta["session_id"]];
      }
      out := out[i := out[i].(meta := m["episode_end_ts" := Real(EndTime(doc))])];
    }
  }

  lemma PackSentencesStep(sents: seq<string>, i: nat, cur: string, maxChars: nat, out: seq<string>)
    requires maxChars > 0 && i < |sents|
    ensures var candidate := if cur == "" then sents[i] else Trim(cur + " " + sents[i]);
            out + PackSentences(sents[i..], cur, maxChars) ==
            if |candidate| > maxChars && cur != "" then
              (out + [Trim(cur)]) + PackSentences(sents[i + 1..], sents[i], maxChars)
            else out + PackSentences(sents[i + 1..], candidate, maxChars)
  {
    hide Trim;
    assert sents[i..][1..] == sents[i + 1..] && sents[i..][0] == sents[i];
  }

  lemma PackSentencesEnd(sents: seq<string>, cur: string, maxChars: nat)
    requires maxChars > 0
    ensures PackSentences(sents[|sents|..], cur, maxChars) ==
            if cur == "" then [] else if |cur| > maxChars then CharSlices(cur, maxChars) else [Trim(cur)]
  {
    hide Trim, CharSlices;
  }

  // The packing loop of `split_if_too_large`.
  method PackSentencesLoop(sents: seq<string>, maxChars: nat) returns (out: seq<string>)
    requires maxChars > 0
    ensures out == PackSentences(sents, "", maxChars)
  {
    hide *;
    out := [];
    var cur := "";
    assert sents[0..] == sents;
    assert [] + PackSentences(sents, "", maxChars) == PackSentences(sents, "", maxChars);
    for i := 0 to |sents|
      invariant PackSentences(sents, "", maxChars) == out + PackSentences(sents[i..], cur, maxChars)
    {
      PackSentencesStep(sents, i, cur, maxChars, out);
      var s := sents[i];
      var candidate := if cur == "" then s else Trim(cur + " " + s);
      if |candidate| > maxChars && cur != "" {
        out := out + [Trim(cur)];
        cur := s;
      } else {
        cur := candidate;
      }
    }
    PackSentencesEnd(sents, cur, maxChars);
    if cur != "" {
      if |cur| > maxChars {
        out := out + CharSlices(cur, maxChars);
      } else {
        out := out + [Trim(cur)];
      }
    }
  }

  // ---------- what the packed sentences keep ----------

  // What the sentence splitter returns: nonempty texts without surrounding
  // whitespace.
  predicate AreSentences(sents: seq<string>) {
    forall s <- sents :: s != "" && Trimmed(s)
  }

  // A sentence other than the last is over the cap.
  predicate HasLongSentence(sents: seq<string>, maxChars: nat) {
    exists i :: 0 <= i < |sents| - 1 && |sents[i]| > maxChars
  }

  predicate HasLongPiece(pieces: seq<string>, maxChars: nat) {
    exists p <- pieces :: |p| > maxChars
  }

  lemma LongSentenceSplits(sents: seq<string>, maxChars: nat)
    requires sents != []
    ensures HasLongSentence(sents, maxChars)
            <==> (|sents| > 1 && |sents[0]| > maxChars) || HasLongSentence(sents[1..], maxChars)
  {
    if i :| 0 <= i < |sents| - 1 && |sents[i]| > maxChars && i > 0 {
      assert sents[1..][i - 1] == sents[i];
    }
    if i :| 0 <= i < |sents[1..]| - 1 && |sents[1..][i]| > maxChars {
      assert sents[i + 1] == sents[1..][i];
    }
  }

  lemma LongPieceSplits(p: string, pieces: seq<string>, maxChars: nat)
    ensures HasLongPiece([p] + pieces, maxChars) <==> |p| > maxChars || HasLongPiece(pieces, maxChars)
  {
    assert p in [p] + pieces;
    assert forall q <- pieces :: q in [p] + pieces;
  }

  lemma SpacedIsTrimmed(a: string, b: string)
    requires a != "" && b != "" && Trimmed(a) && Trimmed(b)
    ensures Trimmed(a + " " + b) && Trim(a + " " + b) == a + " " + b
  {
    TrimmedIsFixed(a + " " + b);
  }

  lemma {:induction false} PackOverflows(sents: seq<string>, cur: string, maxChars: nat)
    requires maxChars > 0 && AreSentences(sents) && Trimmed(cur)
    ensures HasLongPiece(PackSentences(sents, cur, maxChars), maxChars)
       <==> (|cur| > maxChars && sents != []) || HasLongSentence(sents, maxChars)
    decreases |sents|
  {
    hide Trim, HasLongSentence, HasLongPiece;
    TrimmedIsFixed(cur);
    if sents == [] {
      EndingIsShort(cur, maxChars);
      NoLongSentence(sents, maxChars);
    } else {
      var s, rest := sents[0], sents[1..];
      assert s in sents && forall t <- rest :: t in sents;
      LongSentenceSplits(sents, maxChars);
      if rest == [] {
        NoLongSentence(rest, maxChars);
      }
      var candidate := if cur == "" then s else Trim(cur + " " + s);
      if cur != "" {
        SpacedIsTrimmed(cur, s);
      }
      if |candidate| > maxChars && cur != "" {
        PackOverflows(rest, s, maxChars);
        LongPieceSplits(cur, PackSentences(rest, s, maxChars), maxChars);
      } else {
        PackOverflows(rest, candidate, maxChars);
      }
    }
  }

  lemma EndingIsShort(cur: string, maxChars: nat)
    requires maxChars > 0
    ensures !HasLongPiece(PackSentences([], cur, maxChars), maxChars)
  {
    CharSlicesKeepText(cur, maxChars);
    hide CharSlices, Trim;
  }

  lemma NoLongSentence(sents: seq<string>, maxChars: nat)
    requires sents == []
    ensures !HasLongSentence(sents, maxChars)
  {
  }

  // The pieces of an over-long semantic span exceed the cap exactly when one of its
  // sentences other than the last does.
  lemma PackedOverflowsExactly(sents: seq<string>, maxChars: nat)
    requires maxChars > 0 && AreSentences(sents)
    ensures HasLongPiece(PackSentences(sents, "", maxChars), maxChars) <==> HasLongSentence(sents, maxChars)
  {
    PackOverflows(sents, "", maxChars);
  }

  // As in "aaa" before "b" with a cap of 2.
  lemma LongSentenceComesOutWhole()
    ensures HasLongPiece(PackSentences(["aaa", "b"], "", 2), 2)
  {
    assert HasLongSentence(["aaa", "b"], 2) by {
      assert |["aaa", "b"][0]| > 2;
    }
    PackedOverflowsExactly(["aaa", "b"], 2);
  }

  // No character but whitespace is lost, and their order is kept.
  lemma {:induction false} PackedKeepsContent(sents: seq<string>, cur: string, maxChars: nat)
    requires maxChars > 0
    ensures NonSpace(Concat(PackSentences(sents, cur, maxChars))) == NonSpace(cur) + NonSpace(Concat(sents))
    decreases |sents|
  {
    hide Trim, NonSpace, CharSlices;
    if sents == [] {
      EndingKeepsContent(cur, maxChars);
    } else {
      var s, rest := sents[0], sents[1..];
      var spaced := cur + " " + s;
      var candidate := if cur == "" then s else Trim(spaced);
      BlankHasNoContent("");
      BlankHasNoContent(" ");
      TrimContent(spaced);
      NonSpaceConcat(cur + " ", s);
      NonSpaceConcat(cur, " ");
      NonSpaceConcat(s, Concat(rest));
      if |candidate| > maxChars && cur != "" {
        PackedKeepsContent(rest, s, maxChars);
        TrimContent(cur);
        var pieces := PackSentences(rest, s, maxChars);
        assert ([Trim(cur)] + pieces)[1..] == pieces;
        NonSpaceConcat(Trim(cur), Concat(pieces));
      } else {
        PackedKeepsContent(rest, candidate, maxChars);
      }
    }
  }

  lemma EndingKeepsContent(cur: string, maxChars: nat)
    requires maxChars > 0
    ensures NonSpace(Concat(PackSentences([], cur, maxChars))) == NonSpace(cur) + NonSpace(Concat([]))
  {
    CharSlicesKeepText(cur, maxChars);
    TrimContent(cur);
    BlankHasNoContent("");
    hide CharSlices, Trim, NonSpace;
    assert NonSpace("") == "" && Concat([]) == "";
    assert [Trim(cur)][1..] == [] && Concat([Trim(cur)]) == Trim(cur) + "" == Trim(cur);
    assert NonSpace(cur) + "" == NonSpace(cur);
    if cur == "" {
      assert PackSentences([], cur, maxChars) == [];
    }
  }
}
