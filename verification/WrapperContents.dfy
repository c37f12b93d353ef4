// What the rows of the wrapping chunkers hold: summaries, groups, facts.
module WrapperContents {
  import opened Text
  import opened Packing
  import opened Splitting
  import opened WordWindows
  import opened Grouping
  import opened ChunkerConfigs
  import opened Chunking
  import opened ChunkLoops
  import opened FallbackContents

  // ---------- group ids ----------

  function DigitOf(c: char): nat
    requires '0' <= c <= '9'
  {
    c as nat - '0' as nat
  }

  predicate IsNumeral(s: string) {
    forall i :: 0 <= i < |s| ==> '0' <= s[i] <= '9'
  }

  function Parsed(s: string): nat
    requires IsNumeral(s)
  {
    if s == "" then 0 else 10 * Parsed(s[..|s| - 1]) + DigitOf(s[|s| - 1])
  }

  // Reading a number's decimal form gives the number back.
  lemma {:induction false} DecimalReadsBack(n: nat)
    ensures Decimal(n) != "" && IsNumeral(Decimal(n)) && Parsed(Decimal(n)) == n
  {
    DigitReadsBack(n % 10);
    var last := ["0123456789"[n % 10]];
    if n >= 10 {
      DecimalReadsBack(n / 10);
      assert Decimal(n)[..|Decimal(n)| - 1] == Decimal(n / 10);
      assert Decimal(n)[|Decimal(n)| - 1] == last[0];
    } else {
      assert Decimal(n)[..0] == "";
    }
  }

  lemma DigitReadsBack(d: nat)
    requires d < 10
    ensures var c := "0123456789"[d]; '0' <= c <= '9' && DigitOf(c) == d
  {
    var digits := "0123456789";
    assert digits[0] == '0' && digits[1] == '1' && digits[2] == '2' && digits[3] == '3' && digits[4] == '4';
    assert digits[5] == '5' && digits[6] == '6' && digits[7] == '7' && digits[8] == '8' && digits[9] == '9';
  }

  // Two groups of a document never share an id.
  lemma GroupIdsDiffer(docId: string, a: nat, b: nat)
    ensures GroupId(docId, a) == GroupId(docId, b) <==> a == b
  {
    DecimalReadsBack(a);
    DecimalReadsBack(b);
    hide Decimal;
    var head := docId + "::g";
    if GroupId(docId, a) == GroupId(docId, b) {
      assert (head + Decimal(a))[|head|..] == Decimal(a) && (head + Decimal(b))[|head|..] == Decimal(b);
    }
  }

  // ---------- the rows of a hierarchical summary ----------

  // A base chunk with its texts kept, a new number, and the group it is in.
  predicate IsFineRow(row: Chunk, was: Chunk, id: string, mode: string, seqNum: nat) {
    && row.docId == was.docId && row.seqNum == seqNum
    && row.original == was.original && row.embedded == was.embedded
    && row.meta == was.meta["granularity" := Str("fine")]["group_id" := Str(id)]["summarizer" := Str(mode)]
  }

  // A row of its own for the group: its texts joined by blank lines, embedded as
  // their summary.
  predicate IsCoarseRow(row: Chunk, group: seq<Chunk>, id: string, s: nat, sv: Services, doc: Document, seqNum: nat) {
    && row.docId == doc.id && row.seqNum == seqNum
    && row.original == Join(Originals(group), "\n\n")
    && Some(row.embedded) == sv.summarize(s, row.original, doc.meta)
    && row.meta == map["granularity" := Str("coarse"), "group_id" := Str(id), "summarizer" := Str(sv.summarizerMode(s)),
                       "strategy" := Str("hierarchical_summary")]
  }

  // The fine rows of a group from `at` on, then its coarse row.
  predicate AreGroupRows(rows: seq<Chunk>, at: nat, group: seq<Chunk>, id: string, s: nat, sv: Services, doc: Document,
                         seqNum: nat)
  {
    && at + |group| < |rows|
    && (forall k :: 0 <= k < |group| ==>
          IsFineRow(rows[at + k], group[k], id, sv.summarizerMode(s), seqNum + k))
    && IsCoarseRow(rows[at + |group|], group, id, s, sv, doc, seqNum + |group|)
  }

  // How many rows the first g groups make.
  function RowsBefore(groups: seq<seq<Chunk>>, g: nat): nat
    requires g <= |groups|
  {
    if g == 0 then 0 else RowsBefore(groups, g - 1) + |groups[g - 1]| + 1
  }

  lemma {:induction false} RowsBeforeTail(groups: seq<seq<Chunk>>, g: nat)
    requires 0 < g <= |groups|
    ensures RowsBefore(groups, g) == |groups[0]| + 1 + RowsBefore(groups[1..], g - 1)
  {
    if g > 1 {
      RowsBeforeTail(groups, g - 1);
    }
  }

  lemma GroupRowsHold(group: seq<Chunk>, groupIdx: nat, summary: string, s: nat, sv: Services, doc: Document,
                      seqNum: nat, rest: seq<Chunk>)
    requires sv.summarize(s, Join(Originals(group), BLANK_LINE), doc.meta) == Some(summary)
    ensures var rows := GroupRows(group, groupIdx, summary, sv.summarizerMode(s), doc, seqNum);
            && |rows| == |group| + 1
            && AreGroupRows(rows + rest, 0, group, doc.id + "::g" + Decimal(groupIdx), s, sv, doc, seqNum)
  {
    hide Join, Originals, Decimal;
    assert BLANK_LINE == "\n\n";
  }

  lemma RowsLater(rows: seq<Chunk>, rest: seq<Chunk>, at: nat, group: seq<Chunk>, id: string, s: nat, sv: Services,
                  doc: Document, seqNum: nat)
    requires AreGroupRows(rest, at, group, id, s, sv, doc, seqNum)
    ensures AreGroupRows(rows + rest, |rows| + at, group, id, s, sv, doc, seqNum)
  {
    hide IsFineRow, IsCoarseRow;
    assert forall i :: 0 <= i < |rest| ==> rest[i] == (rows + rest)[|rows| + i];
    forall k | 0 <= k < |group|
      ensures IsFineRow((rows + rest)[|rows| + at + k], group[k], id, sv.summarizerMode(s), seqNum + k)
    {
      assert rest[at + k] == (rows + rest)[|rows| + (at + k)];
    }
  }

  // The rows of the g-th group stand after those of the groups before it: its base
  // chunks, then the one row with their summary, all under the group's own id.
  lemma {:induction false} SummaryRowsAre(groups: seq<seq<Chunk>>, groupIdx: nat, s: nat, sv: Services, doc: Document,
                                          seqNum: nat, g: nat)
    requires g < |groups| && SummaryRows(groups, groupIdx, s, sv, doc, seqNum).Some?
    ensures var rows, at := SummaryRows(groups, groupIdx, s, sv, doc, seqNum).value, RowsBefore(groups, g);
            AreGroupRows(rows, at, groups[g], doc.id + "::g" + Decimal(groupIdx + g), s, sv, doc, seqNum + at)
    decreases |groups|
  {
    hide GroupRows, Join, Originals, AreGroupRows, Decimal;
    var summary := sv.summarize(s, Join(Originals(groups[0]), BLANK_LINE), doc.meta).value;
    var first := GroupRows(groups[0], groupIdx, summary, sv.summarizerMode(s), doc, seqNum);
    var rest := SummaryRows(groups[1..], groupIdx + 1, s, sv, doc, seqNum + |first|).value;
    GroupRowsHold(groups[0], groupIdx, summary, s, sv, doc, seqNum, rest);
    if g > 0 {
      SummaryRowsAre(groups[1..], groupIdx + 1, s, sv, doc, seqNum + |first|, g - 1);
      RowsBeforeTail(groups, g);
      RowsLater(first, rest, RowsBefore(groups[1..], g - 1), groups[g], doc.id + "::g" + Decimal(groupIdx + g), s, sv,
                doc, seqNum + RowsBefore(groups, g));
    }
  }

  // ---------- which chunks are grouped ----------

  // Words of the original texts.
  function WordsIn(group: seq<Chunk>): nat {
    if group == [] then 0 else WordsIn(group[..|group| - 1]) + |Words(group[|group| - 1].original, 0)|
  }

  lemma {:induction false} WordsInSlice(cs: seq<Chunk>, w: seq<nat>, lo: nat, hi: nat)
    requires lo <= hi <= |cs| == |w| && forall i :: 0 <= i < |cs| ==> w[i] == |Words(cs[i].original, 0)|
    ensures WordsIn(cs[lo..hi]) == Weight(w, lo, hi)
  {
    hide Words;
    if lo < hi {
      WordsInSlice(cs, w, lo, hi - 1);
      assert cs[lo..hi][..hi - lo - 1] == cs[lo..hi - 1];
    }
  }

  lemma BudgetGroupFits(cs: seq<Chunk>, w: seq<nat>, maxWords: nat, g: Span)
    requires |w| == |cs| && forall i :: 0 <= i < |cs| ==> w[i] == |Words(cs[i].original, 0)|
    requires g.lo < g.hi <= |cs| && Fits(w, maxWords, g)
    ensures |SliceOf(cs, g)| == 1 || WordsIn(SliceOf(cs, g)) <= maxWords
  {
    hide Words, WordsIn;
    WordsInSlice(cs, w, g.lo, g.hi);
  }

  lemma {:induction false} BudgetGroupsFit(cs: seq<Chunk>, w: seq<nat>, maxWords: nat, gs: seq<Span>)
    requires |w| == |cs| && forall i :: 0 <= i < |cs| ==> w[i] == |Words(cs[i].original, 0)|
    requires forall g <- gs :: g.lo < g.hi <= |cs| && Fits(w, maxWords, g)
    ensures forall g <- Slices(cs, gs) :: |g| == 1 || WordsIn(g) <= maxWords
    decreases |gs|
  {
    hide Words, WordsIn, Fits, SliceOf;
    if gs != [] {
      assert gs[0] in gs && forall g <- gs[1..] :: g in gs;
      BudgetGroupFits(cs, w, maxWords, gs[0]);
      BudgetGroupsFit(cs, w, maxWords, gs[1..]);
      assert Slices(cs, gs) == [SliceOf(cs, gs[0])] + Slices(cs, gs[1..]);
    }
  }

  // By word budget: a group of several chunks is within the budget of words, and a
  // chunk over it is alone.
  lemma BudgetGroups(cs: seq<Chunk>, maxWords: nat)
    ensures var groups := Grouped(cs, WordBudget(maxWords));
            && Flatten(groups) == cs
            && (forall g <- groups :: |g| == 1 || WordsIn(g) <= maxWords)
            && (forall i :: 0 <= i < |cs| && |Words(cs[i].original, 0)| > maxWords ==> [cs[i]] in groups)
  {
    var w := seq(|cs|, i requires 0 <= i < |cs| => |Words(cs[i].original, 0)|);
    assert Grouped(cs, WordBudget(maxWords)) == WordBudgetGroups(cs, w, maxWords);
    assert WordBudgetGroups(cs, w, maxWords) == Slices(cs, Greedy(w, maxWords, 0, 0));
    hide *;
    GreedyPacks(w, maxWords);
    WordBudgetGroupsAreOptimal(cs, w, maxWords, Greedy(w, maxWords, 0, 0));
    BudgetGroupsFit(cs, w, maxWords, Greedy(w, maxWords, 0, 0));
    forall i | 0 <= i < |cs| && |Words(cs[i].original, 0)| > maxWords
      ensures [cs[i]] in Grouped(cs, WordBudget(maxWords))
    {
      assert w[i] > maxWords;
    }
  }

  lemma GreedyPacks(w: seq<nat>, budget: nat)
    ensures Tiles(Greedy(w, budget, 0, 0), 0, |w|) && AllFit(w, budget, Greedy(w, budget, 0, 0))
    ensures forall g <- Greedy(w, budget, 0, 0) :: g.lo < g.hi <= |w| && Fits(w, budget, g)
  {
    hide Greedy, Fits;
    GreedyIsPacking(w, budget, 0, 0);
  }

  predicate HasHeading(c: Chunk) {
    "heading" in c.meta && c.meta["heading"].Str?
  }

  // The metadata of both names the same heading, or of neither names one.
  predicate SameHeading(a: Chunk, b: Chunk) {
    if HasHeading(a) then HasHeading(b) && b.meta["heading"] == a.meta["heading"] else !HasHeading(b)
  }

  lemma SameHeadingIsSameKey(a: Chunk, b: Chunk)
    ensures SameHeading(a, b) <==> HeadingKey(a) == HeadingKey(b)
  {
  }

  predicate OneHeading(group: seq<Chunk>) {
    group != [] && forall i :: 0 <= i < |group| ==> SameHeading(group[i], group[0])
  }

  lemma OneHeadingIn(cs: seq<Chunk>, keys: seq<Option<string>>, gs: seq<Span>, k: nat)
    requires |keys| == |cs| && forall i :: 0 <= i < |cs| ==> keys[i] == HeadingKey(cs[i])
    requires k < |gs| && OneKeyEach(keys, gs)
    ensures gs[k].lo < gs[k].hi <= |cs| && OneHeading(cs[gs[k].lo..gs[k].hi])
  {
    hide HeadingKey, SameHeading;
    var g := gs[k];
    assert g in gs;
    var group := cs[g.lo..g.hi];
    forall i | 0 <= i < |group| ensures SameHeading(group[i], group[0]) {
      SameHeadingIsSameKey(group[i], group[0]);
      assert group[i] == cs[g.lo + i] && keys[g.lo + i] == keys[g.lo];
    }
  }

  predicate HeadingsDiffer(a: seq<Chunk>, b: seq<Chunk>) {
    a != [] && b != [] && !SameHeading(a[0], b[0])
  }

  lemma SectionGroupAt(cs: seq<Chunk>, keys: seq<Option<string>>, k: nat)
    requires cs != [] && |keys| == |cs| && forall i :: 0 <= i < |cs| ==> keys[i] == HeadingKey(cs[i])
    requires k < |SectionGroups(cs, keys)|
    ensures OneHeading(SectionGroups(cs, keys)[k])
    ensures k > 0 ==> HeadingsDiffer(SectionGroups(cs, keys)[k - 1], SectionGroups(cs, keys)[k])
  {
    var gs := Runs(keys, 0, 1);
    hide *;
    SectionGroupsAreTheRuns(cs, keys);
    OneHeadingIn(cs, keys, gs, k);
    if k > 0 {
      HeadingChanges(cs, keys, gs, k - 1);
      Differ(cs, gs[k - 1], gs[k]);
    }
  }

  lemma Differ(cs: seq<Chunk>, a: Span, b: Span)
    requires a.lo < a.hi <= |cs| && b.lo < b.hi <= |cs| && !SameHeading(cs[a.lo], cs[b.lo])
    ensures HeadingsDiffer(cs[a.lo..a.hi], cs[b.lo..b.hi])
  {
    hide SameHeading;
  }

  // By section: one heading a group, and another in the next.
  lemma SectionedGroups(cs: seq<Chunk>)
    requires cs != []
    ensures var groups := Grouped(cs, SectionAware);
            && Flatten(groups) == cs
            && (forall k :: 0 <= k < |groups| ==> OneHeading(groups[k]))
            && (forall k :: 0 < k < |groups| ==> HeadingsDiffer(groups[k - 1], groups[k]))
  {
    var keys := seq(|cs|, i requires 0 <= i < |cs| => HeadingKey(cs[i]));
    assert Grouped(cs, SectionAware) == SectionGroups(cs, keys);
    hide *;
    SectionGroupsAreTheRuns(cs, keys);
    forall k | 0 <= k < |Grouped(cs, SectionAware)| ensures OneHeading(Grouped(cs, SectionAware)[k]) {
      SectionGroupAt(cs, keys, k);
    }
    forall k | 0 < k < |Grouped(cs, SectionAware)|
      ensures HeadingsDiffer(Grouped(cs, SectionAware)[k - 1], Grouped(cs, SectionAware)[k])
    {
      SectionGroupAt(cs, keys, k);
    }
  }

  lemma HeadingChanges(cs: seq<Chunk>, keys: seq<Option<string>>, gs: seq<Span>, k: nat)
    requires |keys| == |cs| && forall i :: 0 <= i < |cs| ==> keys[i] == HeadingKey(cs[i])
    requires k + 1 < |gs| && OneKeyEach(keys, gs) && KeysChangeBetween(keys, gs)
    ensures gs[k].lo < gs[k].hi == gs[k + 1].lo < gs[k + 1].hi <= |cs|
    ensures !SameHeading(cs[gs[k].lo], cs[gs[k + 1].lo])
  {
    SameHeadingIsSameKey(cs[gs[k].lo], cs[gs[k + 1].lo]);
    hide HeadingKey, SameHeading;
    assert gs[k] in gs && gs[k + 1] in gs;
    assert keys[gs[k].hi - 1] == keys[gs[k].lo];
  }

  // ---------- episodes and facts ----------

  // The number in the document's metadata, and 0 when there is none.
  predicate IsEndTime(v: Value, doc: Document) {
    var there := "episode_end_ts" in doc.meta;
    && (there && doc.meta["episode_end_ts"].Real? ==> v == doc.meta["episode_end_ts"])
    && (there && doc.meta["episode_end_ts"].Num? ==> v == Real(doc.meta["episode_end_ts"].n as real))
    && (!there || doc.meta["episode_end_ts"].Str? ==> v == Real(0.0))
  }

  lemma EndTimeIs(doc: Document)
    ensures IsEndTime(Real(EndTime(doc)), doc)
  {
  }

  // A base chunk stamped as an episode: texts and number kept, and every key of its
  // metadata but the stamped ones.
  predicate IsEpisode(row: Chunk, was: Chunk, mode: string, doc: Document) {
    && row == was.(meta := row.meta)
    && row.meta.Keys == was.meta.Keys + {"kind", "extractor", "episode_end_ts"}
         + (if "session_id" in doc.meta then {"session_id"} else {})
    && row.meta["kind"] == Str("episode") && row.meta["extractor"] == Str(mode)
    && IsEndTime(row.meta["episode_end_ts"], doc)
    && ("session_id" in row.meta ==>
          row.meta["session_id"] == if "session_id" in was.meta then was.meta["session_id"] else doc.meta["session_id"])
    && (forall k <- was.meta.Keys :: k !in {"kind", "extractor", "episode_end_ts"} ==> row.meta[k] == was.meta[k])
  }

  // An episode with the consolidator's message.
  ghost predicate IsMarked(row: Chunk, was: Chunk, message: string, mode: string, doc: Document) {
    exists e: Chunk :: IsEpisode(e, was, mode, doc) && row == e.(meta := e.meta["consolidation_error" := Str(message)])
  }

  // The row of a fact: its three parts with a space between them, cut at max, in both
  // texts, with the parts, the support and the confidence in the metadata.
  predicate IsFact(row: Chunk, f: Fact, i: nat, mode: string, max: nat, doc: Document) {
    var text := Trim(f.subject) + " " + Trim(f.relation) + " " + Trim(f.target);
    && row.docId == doc.id && row.original == row.embedded
    && row.original <= text && |row.original| == (if |text| <= max then |text| else max)
    && {"kind", "extractor", "subject", "predicate", "object", "source_chunk_seq", "episode_end_ts"} <= row.meta.Keys
    && row.meta["kind"] == Str("fact") && row.meta["extractor"] == Str(mode)
    && row.meta["subject"] == Str(f.subject) && row.meta["predicate"] == Str(f.relation)
    && row.meta["object"] == Str(f.target) && row.meta["source_chunk_seq"] == Num(i)
    && IsEndTime(row.meta["episode_end_ts"], doc)
    && ("confidence" in row.meta <==> f.confidence.Some?)
    && (f.confidence.Some? ==> row.meta["confidence"] == Real(f.confidence.value))
    && ("support_span" in row.meta <==> f.support.Some? && f.support.value != "" && max > 0)
    && ("support_span" in row.meta ==>
          row.meta["support_span"] == Str(if |f.support.value| <= max then f.support.value else f.support.value[..max]))
    && ("session_id" in row.meta <==> "session_id" in doc.meta)
    && ("session_id" in row.meta ==> row.meta["session_id"] == doc.meta["session_id"])
  }

  lemma EpisodeIs(was: Chunk, mode: string, doc: Document)
    ensures IsEpisode(Episode(was, mode, doc), was, mode, doc)
  {
    EndTimeIs(doc);
    hide EndTime, IsEndTime;
  }

  lemma FactIs(f: Fact, i: nat, mode: string, max: nat, doc: Document, episodes: nat)
    ensures IsFact(FactChunk(f, i, mode, max, doc, episodes), f, i, mode, max, doc)
  {
    EndTimeIs(doc);
    hide EndTime, IsEndTime, Trim;
  }

  // Consolidation returns the base chunks as episodes, then one row a fact; when the
  // consolidator fails, the episodes alone, with its message.
  lemma ConsolidationRowsAre(base: seq<Chunk>, consolidator: nat, max: nat, sv: Services, doc: Document)
    ensures var rows, mode := ConsolidationChunks(base, consolidator, max, sv, doc), sv.consolidatorMode(consolidator);
            match sv.consolidate(consolidator, doc)
            case Facts(facts) =>
              && |rows| == |base| + |facts|
              && (forall i :: 0 <= i < |base| ==> IsEpisode(rows[i], base[i], mode, doc))
              && (forall i :: 0 <= i < |facts| ==> IsFact(rows[|base| + i], facts[i], i, mode, max, doc))
            case ConsolidatorError(message) =>
              && |rows| == |base|
              && (forall i :: 0 <= i < |base| ==> IsMarked(rows[i], base[i], message, mode, doc))
  {
    var rows, mode := ConsolidationChunks(base, consolidator, max, sv, doc), sv.consolidatorMode(consolidator);
    hide IsEpisode, IsFact, Episode, FactMeta, FactText, Truncated;
    forall i | 0 <= i < |base| ensures IsEpisode(Episode(base[i], mode, doc), base[i], mode, doc) {
      EpisodeIs(base[i], mode, doc);
    }
    match sv.consolidate(consolidator, doc)
    case ConsolidatorError(message) =>
      forall i | 0 <= i < |base| ensures IsMarked(rows[i], base[i], message, mode, doc) {
        assert rows[i] == WithError(Episode(base[i], mode, doc), message);
      }
    case Facts(facts) =>
      forall i | 0 <= i < |facts| ensures IsFact(rows[|base| + i], facts[i], i, mode, max, doc) {
        FactIs(facts[i], i, mode, max, doc, |base|);
        assert rows[|base| + i] == FactChunk(facts[i], i, mode, max, doc, |base|);
      }
  }

  // ---------- wrappers without a fallback work on all that their base returns ----------

  lemma WrappersWorkOnTheBase(base: ChunkerConfig, k: nat, sv: Services, doc: Document)
    requires Buildable(base, sv) && Chunked(base, sv, doc).Done?
    ensures var cs, r := Chunked(base, sv, doc).chunks, Chunked(NeighborExpand(base, k, None, None), sv, doc);
            r.Done? && |r.chunks| == |cs| && forall i :: 0 <= i < |cs| ==> IsExpanded(cs, k, i, r.chunks[i])
    ensures sv.summarizerBuilds(k) ==>
              var cs, r := Chunked(base, sv, doc).chunks, Chunked(SummaryEmbed(base, k, None, None), sv, doc);
              && r.Done?
              && if forall c <- cs :: sv.summarize(k, c.original, doc.meta).Some?
                 then |r.chunks| == |cs| && forall i :: 0 <= i < |cs| ==> IsSummarized(cs[i], r.chunks[i], k, sv, doc)
                 else r.chunks == []
  {
    var cs := Chunked(base, sv, doc).chunks;
    NeighborRaw(base, k, sv, doc);
    SummaryRaw(base, k, sv, doc);
    hide *;
    WithoutFallbackHere(NeighborExpand(base, k, None, None), sv, doc);
    ExpandedAll(cs, k);
    if sv.summarizerBuilds(k) {
      WithoutFallbackHere(SummaryEmbed(base, k, None, None), sv, doc);
      SummariesAreEmbedded(cs, k, sv, doc);
    }
  }

  lemma WithoutFallbackHere(cfg: ChunkerConfig, sv: Services, doc: Document)
    requires Buildable(cfg, sv) && cfg.ifOversize == None
    ensures Chunked(cfg, sv, doc) == Raw(cfg, sv, doc)
  {
    hide Buildable, Chunked, Raw;
    WithoutFallback(cfg, sv, doc);
  }

  lemma NeighborRaw(base: ChunkerConfig, k: nat, sv: Services, doc: Document)
    requires Buildable(base, sv) && Chunked(base, sv, doc).Done?
    ensures var cfg := NeighborExpand(base, k, None, None);
            && cfg.ifOversize == None && Buildable(cfg, sv)
            && Raw(cfg, sv, doc) == Done(NeighborChunks(Chunked(base, sv, doc).chunks, k))
  {
    hide Chunked, NeighborChunks;
  }

  lemma SummaryRaw(base: ChunkerConfig, k: nat, sv: Services, doc: Document)
    requires Buildable(base, sv) && Chunked(base, sv, doc).Done?
    ensures sv.summarizerBuilds(k) ==>
              var cfg, r := SummaryEmbed(base, k, None, None), SummaryChunks(Chunked(base, sv, doc).chunks, k, sv, doc);
              && cfg.ifOversize == None && Buildable(cfg, sv)
              && Raw(cfg, sv, doc) == Done(if r.Some? then r.value else [])
  {
    hide Chunked, SummaryChunks;
  }

  lemma ExpandedAll(cs: seq<Chunk>, k: nat)
    ensures var r := NeighborChunks(cs, k);
            |r| == |cs| && forall i :: 0 <= i < |cs| ==> IsExpanded(cs, k, i, r[i])
  {
    forall i | 0 <= i < |cs| ensures IsExpanded(cs, k, i, NeighborChunks(cs, k)[i]) {
      hide Join;
      var lo, hi := From(i, k), To(i, k, |cs|);
      assert Embeddeds(cs[lo..hi + 1]) == Embeddeds(cs)[lo..hi + 1];
    }
  }

  lemma GroupsRaw(base: ChunkerConfig, k: nat, grouping: GroupingConfig, sv: Services, doc: Document)
    requires Buildable(base, sv) && Chunked(base, sv, doc).Done? && sv.summarizerBuilds(k)
    ensures var cfg := HierarchicalSummary(base, k, grouping, None, None);
            && cfg.ifOversize == None && Buildable(cfg, sv)
            && Raw(cfg, sv, doc) == Done(HierarchicalSummaryChunks(Chunked(base, sv, doc).chunks, k, grouping, sv, doc))
  {
    hide Chunked, HierarchicalSummaryChunks;
  }

  // A hierarchical summary without a fallback groups all that its base returns, and
  // holds the rows of each group.
  lemma GroupsComeFromTheBase(base: ChunkerConfig, k: nat, grouping: GroupingConfig, sv: Services, doc: Document,
                              g: nat)
    requires Buildable(base, sv) && Chunked(base, sv, doc).Done? && sv.summarizerBuilds(k)
    ensures var cs := Chunked(base, sv, doc).chunks;
            var groups := Grouped(cs, grouping);
            var r := Chunked(HierarchicalSummary(base, k, grouping, None, None), sv, doc);
            && r.Done?
            && (cs == [] ==> r.chunks == [])
            && (r.chunks != [] && g < |groups| ==>
                  AreGroupRows(r.chunks, RowsBefore(groups, g), groups[g], doc.id + "::g" + Decimal(g), k, sv, doc,
                               RowsBefore(groups, g)))
  {
    GroupsRaw(base, k, grouping, sv, doc);
    hide *;
    WithoutFallbackHere(HierarchicalSummary(base, k, grouping, None, None), sv, doc);
    GroupedRowsAre(Chunked(base, sv, doc).chunks, k, grouping, sv, doc, g);
  }

  lemma GroupedRowsAre(cs: seq<Chunk>, k: nat, grouping: GroupingConfig, sv: Services, doc: Document, g: nat)
    ensures var rows, groups := HierarchicalSummaryChunks(cs, k, grouping, sv, doc), Grouped(cs, grouping);
            && (cs == [] ==> rows == [])
            && (rows != [] && g < |groups| ==>
                  AreGroupRows(rows, RowsBefore(groups, g), groups[g], doc.id + "::g" + Decimal(g), k, sv, doc,
                               RowsBefore(groups, g)))
  {
    hide Grouped, AreGroupRows, Decimal, SummaryRows;
    var groups := Grouped(cs, grouping);
    if HierarchicalSummaryChunks(cs, k, grouping, sv, doc) != [] && g < |groups| {
      SummaryRowsAre(groups, 0, k, sv, doc, 0, g);
    }
  }

  // Consolidation works on all that its base returns.
  lemma FactsComeWithTheBase(base: ChunkerConfig, k: nat, max: nat, sv: Services, doc: Document)
    requires Buildable(base, sv) && Chunked(base, sv, doc).Done?
    ensures Chunked(Consolidation(base, k, max, None, None), sv, doc)
         == Done(ConsolidationChunks(Chunked(base, sv, doc).chunks, k, max, sv, doc))
  {
    var cfg := Consolidation(base, k, max, None, None);
    assert Raw(cfg, sv, doc) == Done(ConsolidationChunks(Chunked(base, sv, doc).chunks, k, max, sv, doc));
    hide Chunked, Raw, ConsolidationChunks;
    WithoutFallbackHere(cfg, sv, doc);
  }
}
