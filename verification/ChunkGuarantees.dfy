// What holds for every composition of chunkers: numbering, the outer ceiling,
// and when the recursion guard can fire.
module ChunkGuarantees {
  import opened Text
  import opened Packing
  import opened Splitting
  import opened SplitGuarantees
  import opened WordWindows
  import opened Grouping
  import opened ChunkerConfigs
  import opened Chunking

  // ---------- numbering ----------

  // The i-th chunk has number from + i, and all belong to one document.
  predicate Numbered(cs: seq<Chunk>, docId: string, from: nat) {
    forall i :: 0 <= i < |cs| ==> cs[i].seqNum == from + i && cs[i].docId == docId
  }

  predicate AllOf(cs: seq<Chunk>, docId: string) {
    forall i :: 0 <= i < |cs| ==> cs[i].docId == docId
  }

  lemma SectionIsNumbered(docId: string, sec: Section, prefix: bool, maxChars: nat, startSeq: nat)
    ensures Numbered(EmitSection(docId, sec, prefix, maxChars, startSeq), docId, startSeq)
  {
    hide SectionParts;
    var parts := SectionParts(sec.body, maxChars);
    forall i | 0 <= i < |parts|
      ensures SectionChunk(docId, sec.heading, prefix, parts[i], i, startSeq + i).seqNum == startSeq + i
    {
    }
  }

  lemma {:induction false} SectionsAreNumbered(docId: string, secs: seq<Section>, prefix: bool, maxChars: nat,
                                               startSeq: nat)
    ensures Numbered(EmitSections(docId, secs, prefix, maxChars, startSeq), docId, startSeq)
  {
    hide EmitSection;
    if secs != [] {
      var first := EmitSection(docId, secs[0], prefix, maxChars, startSeq);
      SectionIsNumbered(docId, secs[0], prefix, maxChars, startSeq);
      SectionsAreNumbered(docId, secs[1..], prefix, maxChars, startSeq + |first|);
    }
  }

  lemma HierarchyIsNumbered(pattern: nat, prefix: bool, minChars: nat, maxChars: nat, sv: Services, doc: Document)
    ensures var r := HierarchyChunks(pattern, prefix, minChars, maxChars, sv, doc);
            r.Done? ==> Numbered(r.chunks, doc.id, 0)
  {
    hide HierarchySections, EmitSections;
    SectionsAreNumbered(doc.id, HierarchySections(pattern, minChars, sv, doc), prefix, maxChars, 0);
  }

  lemma SentenceAwareIsNumbered(code: bool, maxChars: nat, minChars: nat, sv: Services, doc: Document)
    ensures var r := SentenceAwareChunks(code, maxChars, minChars, sv, doc);
            r.Done? ==> Numbered(r.chunks, doc.id, 0)
  {
  }

  lemma FixedOverlapIsNumbered(window: nat, step: nat, doc: Document)
    requires window > 0 && step > 0
    ensures Numbered(FixedOverlapChunks(window, step, doc), doc.id, 0)
  {
    hide Words, Windows, InText, WindowText;
  }

  lemma SemanticIsNumbered(p: nat, minSentences: nat, maxChars: nat, sv: Services, doc: Document)
    requires p <= 100 && maxChars > 0
    ensures Numbered(SemanticChunks(p, minSentences, maxChars, sv, doc), doc.id, 0)
  {
    hide SpanTexts, SplitIfTooLarge;
  }

  lemma NeighborsAreNumbered(base: seq<Chunk>, window: nat, docId: string)
    requires Numbered(base, docId, 0)
    ensures Numbered(NeighborChunks(base, window), docId, 0)
  {
    hide Embeddeds, Join;
  }

  lemma {:induction false} SummariesAreNumbered(base: seq<Chunk>, s: nat, sv: Services, doc: Document, docId: string,
                                                from: nat)
    requires Numbered(base, docId, from)
    ensures var r := SummaryChunks(base, s, sv, doc); r.Some? ==> Numbered(r.value, docId, from)
  {
    if base != [] {
      SummariesAreNumbered(base[1..], s, sv, doc, docId, from + 1);
    }
  }

  lemma GroupRowsAreNumbered(group: seq<Chunk>, groupIdx: nat, summary: string, mode: string, doc: Document,
                             seqNum: nat)
    requires AllOf(group, doc.id)
    ensures Numbered(GroupRows(group, groupIdx, summary, mode, doc, seqNum), doc.id, seqNum)
  {
    hide GroupId, Originals, Join;
  }

  predicate GroupsOf(groups: seq<seq<Chunk>>, docId: string) {
    forall k :: 0 <= k < |groups| ==> AllOf(groups[k], docId)
  }

  lemma {:induction false} SummaryRowsAreNumbered(groups: seq<seq<Chunk>>, groupIdx: nat, s: nat, sv: Services,
                                                  doc: Document, seqNum: nat)
    requires GroupsOf(groups, doc.id)
    ensures var r := SummaryRows(groups, groupIdx, s, sv, doc, seqNum); r.Some? ==> Numbered(r.value, doc.id, seqNum)
    decreases |groups|
  {
    hide GroupRows, AllOf;
    if groups != [] {
      var summary := sv.summarize(s, Join(Originals(groups[0]), BLANK_LINE), doc.meta);
      if summary.Some? {
        var rows := GroupRows(groups[0], groupIdx, summary.value, sv.summarizerMode(s), doc, seqNum);
        GroupRowsAreNumbered(groups[0], groupIdx, summary.value, sv.summarizerMode(s), doc, seqNum);
        SummaryRowsAreNumbered(groups[1..], groupIdx + 1, s, sv, doc, seqNum + |rows|);
      }
    }
  }

  lemma {:induction false} SlicesAreFrom(items: seq<Chunk>, gs: seq<Span>, docId: string)
    requires AllOf(items, docId)
    ensures GroupsOf(Slices(items, gs), docId)
  {
    if gs != [] {
      SlicesAreFrom(items, gs[1..], docId);
      assert Slices(items, gs) == [SliceOf(items, gs[0])] + Slices(items, gs[1..]);
    }
  }

  lemma GroupedAreFrom(cs: seq<Chunk>, grouping: GroupingConfig, docId: string)
    requires AllOf(cs, docId) && cs != []
    ensures GroupsOf(Grouped(cs, grouping), docId)
  {
    hide Slices, AllOf, Words;
    match grouping
    case FixedN(n) =>
      SlicesAreFrom(cs, Greedy(Ones(|cs|), n, 0, 0), docId);
    case WordBudget(m) =>
      var w := seq(|cs|, i requires 0 <= i < |cs| => |Words(cs[i].original, 0)|);
      SlicesAreFrom(cs, Greedy(w, m, 0, 0), docId);
    case SectionAware =>
      SlicesAreFrom(cs, Runs(seq(|cs|, i requires 0 <= i < |cs| => HeadingKey(cs[i])), 0, 1), docId);
  }

  lemma HierarchicalSummaryIsNumbered(base: seq<Chunk>, s: nat, grouping: GroupingConfig, sv: Services, doc: Document)
    requires Numbered(base, doc.id, 0)
    ensures Numbered(HierarchicalSummaryChunks(base, s, grouping, sv, doc), doc.id, 0)
  {
    hide Grouped, SummaryRows, GroupsOf;
    if base != [] {
      GroupedAreFrom(base, grouping, doc.id);
      SummaryRowsAreNumbered(Grouped(base, grouping), 0, s, sv, doc, 0);
    }
  }

  lemma ConsolidationIsNumbered(base: seq<Chunk>, consolidator: nat, factMaxChars: nat, sv: Services, doc: Document)
    requires Numbered(base, doc.id, 0)
    ensures Numbered(ConsolidationChunks(base, consolidator, factMaxChars, sv, doc), doc.id, 0)
  {
  }

  lemma ReplacedIsOf(c: Chunk, ceiling: nat, link: Option<ChunkerConfig>, sv: Services, doc: Document, depth: nat,
                     skipCoarse: bool)
    ensures var r := Replaced(c, ceiling, link, sv, doc, depth, skipCoarse); r.Done? ==> AllOf(r.chunks, c.docId)
  {
    hide *;
    ReplacedIs(c, ceiling, link, sv, doc, depth, skipCoarse);
    var r := Replaced(c, ceiling, link, sv, doc, depth, skipCoarse);
    if r.Done? {
      forall i | 0 <= i < |r.chunks| ensures r.chunks[i].docId == c.docId {
      }
      AllOfHolds(r.chunks, c.docId);
    }
  }

  lemma AllOfHolds(cs: seq<Chunk>, docId: string)
    requires forall i :: 0 <= i < |cs| ==> cs[i].docId == docId
    ensures AllOf(cs, docId)
  {
  }

  lemma {:induction false} ReplacedAllIsNumbered(cs: seq<Chunk>, ceiling: nat, link: Option<ChunkerConfig>,
                                                 sv: Services, doc: Document, depth: nat, skipCoarse: bool, seqNum: nat,
                                                 docId: string)
    requires AllOf(cs, docId)
    ensures var r := ReplacedAll(cs, ceiling, link, sv, doc, depth, skipCoarse, seqNum);
            r.Done? ==> Numbered(r.chunks, docId, seqNum)
    decreases |cs|
  {
    hide Replaced;
    if cs != [] {
      var r := Replaced(cs[0], ceiling, link, sv, doc, depth, skipCoarse);
      ReplacedIsOf(cs[0], ceiling, link, sv, doc, depth, skipCoarse);
      if r.Done? {
        ReplacedAllIsNumbered(cs[1..], ceiling, link, sv, doc, depth, skipCoarse, seqNum + |r.chunks|, docId);
      }
    }
  }

  lemma AppliedIsNumbered(cs: seq<Chunk>, ceiling: Option<nat>, link: Option<ChunkerConfig>, sv: Services,
                          doc: Document, depth: nat, skipCoarse: bool, docId: string)
    requires Numbered(cs, docId, 0)
    ensures var r := Applied(cs, ceiling, link, sv, doc, depth, skipCoarse); r.Done? ==> Numbered(r.chunks, docId, 0)
  {
    hide ReplacedAll;
    if ceiling.Some? {
      ReplacedAllIsNumbered(cs, ceiling.value, link, sv, doc, depth, skipCoarse, 0, docId);
    }
  }

  lemma ChunkedIs(cfg: ChunkerConfig, sv: Services, doc: Document)
    requires Buildable(cfg, sv)
    ensures var raw := Raw(cfg, sv, doc);
            Chunked(cfg, sv, doc) ==
            if !raw.Done? || cfg.Consolidation? then raw
            else
              var r := Applied(raw.chunks, cfg.Effective(), cfg.ifOversize, sv, doc, 0, cfg.HierarchicalSummary?);
              if r.Done? then r else Panicked
  {
  }

  // For every composition of chunkers, wrappers and fallbacks, the i-th chunk of
  // a document has number i, so doc_id::seq_num names one chunk.
  lemma {:induction false} ChunksAreNumbered(cfg: ChunkerConfig, sv: Services, doc: Document)
    requires Buildable(cfg, sv)
    ensures var r := Chunked(cfg, sv, doc); r.Done? ==> Numbered(r.chunks, doc.id, 0)
    decreases cfg.Size()
  {
    RawIsNumbered(cfg, sv, doc);
    hide *;
    ChunkedIs(cfg, sv, doc);
    var raw := Raw(cfg, sv, doc);
    if raw.Done? {
      AppliedIsNumbered(raw.chunks, cfg.Effective(), cfg.ifOversize, sv, doc, 0, cfg.HierarchicalSummary?, doc.id);
    }
  }

  lemma {:induction false} RawIsNumbered(cfg: ChunkerConfig, sv: Services, doc: Document)
    requires Buildable(cfg, sv)
    ensures var r := Raw(cfg, sv, doc); r.Done? ==> Numbered(r.chunks, doc.id, 0)
    decreases cfg.Size(), 0
  {
    hide Chunked, Numbered;
    if cfg.IsWrapper() {
      ChunksAreNumbered(cfg.base, sv, doc);
    }
    match cfg
    case SentenceAware(code, maxChars, minChars, _) => SentenceAwareIsNumbered(code, maxChars, minChars, sv, doc);
    case Hierarchy(pattern, prefix, minChars, maxChars, _) =>
      HierarchyIsNumbered(pattern, prefix, minChars, maxChars, sv, doc);
    case FixedOverlap(window, step, _, _) => FixedOverlapIsNumbered(window, step, doc);
    case Semantic(p, minSentences, maxChars, _, _) => SemanticIsNumbered(p, minSentences, maxChars, sv, doc);
    case NeighborExpand(base, window, _, _) =>
      if Chunked(base, sv, doc).Done? {
        NeighborsAreNumbered(Chunked(base, sv, doc).chunks, window, doc.id);
      }
    case SummaryEmbed(base, s, _, _) =>
      if Chunked(base, sv, doc).Done? {
        SummariesAreNumbered(Chunked(base, sv, doc).chunks, s, sv, doc, doc.id, 0);
        NumberedEmpty(doc.id);
      }
    case HierarchicalSummary(base, s, grouping, _, _) =>
      if Chunked(base, sv, doc).Done? {
        HierarchicalSummaryIsNumbered(Chunked(base, sv, doc).chunks, s, grouping, sv, doc);
      }
    case Consolidation(base, consolidator, factMaxChars, _, _) =>
      if Chunked(base, sv, doc).Done? {
        ConsolidationIsNumbered(Chunked(base, sv, doc).chunks, consolidator, factMaxChars, sv, doc);
      }
  }

  lemma NumberedEmpty(docId: string)
    ensures Numbered([], docId, 0)
  {
  }

  // ---------- the outer ceiling ----------

  predicate Within(c: Chunk, limit: nat) {
    |c.original| <= limit && |c.embedded| <= limit
  }

  predicate AllWithin(cs: seq<Chunk>, limit: nat) {
    forall i :: 0 <= i < |cs| ==> Within(cs[i], limit)
  }

  // c is a coarse chunk of cs that `skip_check` passed over: the same but for its
  // number.
  predicate PassedOver(cs: seq<Chunk>, c: Chunk) {
    exists j :: 0 <= j < |cs| && IsCoarse(cs[j]) && c == cs[j].(seqNum := c.seqNum)
  }

  // Every chunk is within the limit or, when coarse chunks are skipped, one of
  // those of cs.
  predicate WithinOrPassed(rs: seq<Chunk>, limit: nat, skipCoarse: bool, cs: seq<Chunk>) {
    forall i :: 0 <= i < |rs| ==> Within(rs[i], limit) || (skipCoarse && PassedOver(cs, rs[i]))
  }

  // Ceilings along the chain stay within the limit, and the last link is
  // sentence_aware in code mode.
  predicate EndsInCode(link: ChunkerConfig, limit: nat) {
    && link.Effective().Some? && link.Effective().value <= limit
    && (match link.ifOversize
        case None => link.SentenceAware? && link.code
        case Some(next) => EndsInCode(next, limit))
  }

  lemma ReplacedAllStep(cs: seq<Chunk>, ceiling: nat, link: Option<ChunkerConfig>, sv: Services, doc: Document,
                        depth: nat, skipCoarse: bool, seqNum: nat, r: seq<Chunk>, rest: seq<Chunk>)
    requires cs != [] && Replaced(cs[0], ceiling, link, sv, doc, depth, skipCoarse) == Done(r)
    requires ReplacedAll(cs[1..], ceiling, link, sv, doc, depth, skipCoarse, seqNum + |r|) == Done(rest)
    ensures ReplacedAll(cs, ceiling, link, sv, doc, depth, skipCoarse, seqNum) == Done(Renumbered(r, seqNum) + rest)
  {
    hide Replaced, Renumbered;
  }

  lemma ReplacedAllOfNone(ceiling: nat, link: Option<ChunkerConfig>, sv: Services, doc: Document, depth: nat,
                          skipCoarse: bool, seqNum: nat)
    ensures ReplacedAll([], ceiling, link, sv, doc, depth, skipCoarse, seqNum) == Done([])
  {
  }

  // Without a fallback nothing but the numbers changes.
  lemma {:induction false} NoFallbackKeepsChunks(cs: seq<Chunk>, ceiling: nat, sv: Services, doc: Document, depth: nat,
                                                 skipCoarse: bool, seqNum: nat)
    ensures ReplacedAll(cs, ceiling, None, sv, doc, depth, skipCoarse, seqNum) == Done(Renumbered(cs, seqNum))
    decreases |cs|
  {
    hide *;
    if cs != [] {
      ReplacedIs(cs[0], ceiling, None, sv, doc, depth, skipCoarse);
      NoFallbackKeepsChunks(cs[1..], ceiling, sv, doc, depth, skipCoarse, seqNum + 1);
      ReplacedAllStep(cs, ceiling, None, sv, doc, depth, skipCoarse, seqNum, [cs[0]], Renumbered(cs[1..], seqNum + 1));
      assert Renumbered([cs[0]], seqNum) + Renumbered(cs[1..], seqNum + 1) == Renumbered(cs, seqNum);
    } else {
      ReplacedAllOfNone(ceiling, None, sv, doc, depth, skipCoarse, seqNum);
      assert Renumbered(cs, seqNum) == [];
    }
  }

  lemma CodeChunksFit(maxChars: nat, minChars: nat, sv: Services, doc: Document, limit: nat)
    requires maxChars <= limit
    ensures var r := SentenceAwareChunks(true, maxChars, minChars, sv, doc); r.Done? ==> AllWithin(r.chunks, limit)
  {
    hide PlainPieces;
    if maxChars > 0 {
      PlainPiecesFit(doc.content, maxChars);
      var texts := PlainPieces(doc.content, maxChars);
      assert forall i :: 0 <= i < |texts| ==> texts[i] in texts;
    }
  }

  lemma RawOfSentenceAware(cfg: ChunkerConfig, sv: Services, doc: Document)
    requires cfg.SentenceAware?
    ensures Buildable(cfg, sv)
    ensures Raw(cfg, sv, doc) == SentenceAwareChunks(cfg.code, cfg.maxChars, cfg.minChars, sv, doc)
    ensures cfg.Effective() == Some(cfg.maxChars)
  {
  }

  lemma LastLinkFits(link: ChunkerConfig, sv: Services, doc: Document, limit: nat)
    requires EndsInCode(link, limit) && link.ifOversize.None?
    requires Buildable(link, sv)
    ensures var r := Chunked(link, sv, doc); r.Done? ==> AllWithin(r.chunks, limit)
  {
    RawOfSentenceAware(link, sv, doc);
    CodeChunksFit(link.maxChars, link.minChars, sv, doc, limit);
    hide Raw, Applied, ReplacedAll, Chunked, SentenceAwareChunks;
    ChunkedIs(link, sv, doc);
    var raw := Raw(link, sv, doc);
    if raw.Done? {
      NoFallbackKeepsChunks(raw.chunks, link.maxChars, sv, doc, 0, false, 0);
      AppliedIs(raw.chunks, link.Effective(), None, sv, doc, 0, false);
    }
  }

  // However the fallbacks are nested, `apply_if_oversize` with a chain that ends
  // in code-mode sentence_aware leaves no chunk over the limit but the coarse ones
  // it was given and told to skip.
  lemma {:induction false} FallbackKeepsCeiling(cs: seq<Chunk>, ceiling: nat, link: ChunkerConfig, sv: Services,
                                                doc: Document, depth: nat, skipCoarse: bool, limit: nat)
    requires ceiling <= limit && EndsInCode(link, limit)
    ensures var r := Applied(cs, Some(ceiling), Some(link), sv, doc, depth, skipCoarse);
            r.Done? ==> WithinOrPassed(r.chunks, limit, skipCoarse, cs)
    decreases link.Size(), 3, 0
  {
    hide ReplacedAll, EndsInCode, WithinOrPassed;
    ReplacedAllFits(cs, ceiling, link, sv, doc, depth, skipCoarse, limit, 0);
  }

  lemma {:induction false} ReplacedAllFits(cs: seq<Chunk>, ceiling: nat, link: ChunkerConfig, sv: Services,
                                           doc: Document, depth: nat, skipCoarse: bool, limit: nat, seqNum: nat)
    requires ceiling <= limit && EndsInCode(link, limit)
    ensures var r := ReplacedAll(cs, ceiling, Some(link), sv, doc, depth, skipCoarse, seqNum);
            r.Done? ==> WithinOrPassed(r.chunks, limit, skipCoarse, cs)
    decreases link.Size(), 2, |cs|
  {
    hide Replaced, EndsInCode, WithinOrPassed, Renumbered;
    if cs == [] {
      NoneToFit(limit, skipCoarse, cs);
    } else {
      ReplacedFits(cs[0], ceiling, link, sv, doc, depth, skipCoarse, limit);
      var r := Replaced(cs[0], ceiling, Some(link), sv, doc, depth, skipCoarse);
      if r.Done? {
        ReplacedAllFits(cs[1..], ceiling, link, sv, doc, depth, skipCoarse, limit, seqNum + |r.chunks|);
        var rest := ReplacedAll(cs[1..], ceiling, Some(link), sv, doc, depth, skipCoarse, seqNum + |r.chunks|);
        if rest.Done? {
          FirstAndRestFit(cs, r.chunks, seqNum, rest.chunks, limit, skipCoarse);
        }
      }
    }
  }

  lemma NoneToFit(limit: nat, skipCoarse: bool, cs: seq<Chunk>)
    ensures WithinOrPassed([], limit, skipCoarse, cs)
  {
  }

  // What the first chunk became fits, and so does what the others became.
  lemma FirstAndRestFit(cs: seq<Chunk>, first: seq<Chunk>, seqNum: nat, rest: seq<Chunk>, limit: nat, skipCoarse: bool)
    requires cs != [] && WithinOrPassed(rest, limit, skipCoarse, cs[1..])
    requires AllWithin(first, limit) || (skipCoarse && IsCoarse(cs[0]) && first == [cs[0]])
    ensures WithinOrPassed(Renumbered(first, seqNum) + rest, limit, skipCoarse, cs)
  {
    hide IsCoarse;
    var all := Renumbered(first, seqNum) + rest;
    forall i | 0 <= i < |all| ensures Within(all[i], limit) || (skipCoarse && PassedOver(cs, all[i])) {
      if i >= |first| {
        PassedOverRest(cs, rest[i - |first|]);
      }
    }
  }

  lemma PassedOverRest(cs: seq<Chunk>, c: Chunk)
    requires cs != []
    ensures PassedOver(cs[1..], c) ==> PassedOver(cs, c)
  {
    hide IsCoarse;
    if j :| 0 <= j < |cs[1..]| && IsCoarse(cs[1..][j]) && c == cs[1..][j].(seqNum := c.seqNum) {
      assert cs[1..][j] == cs[j + 1];
    }
  }

  lemma ReplacementsFit(c: Chunk, sub: seq<Chunk>, limit: nat)
    requires AllWithin(sub, limit)
    ensures AllWithin(Replacements(c, sub), limit)
  {
  }

  lemma {:induction false} ReplacedFits(c: Chunk, ceiling: nat, link: ChunkerConfig, sv: Services, doc: Document,
                                        depth: nat, skipCoarse: bool, limit: nat)
    requires ceiling <= limit && EndsInCode(link, limit)
    ensures var r := Replaced(c, ceiling, Some(link), sv, doc, depth, skipCoarse);
            r.Done? ==> AllWithin(r.chunks, limit) || (skipCoarse && IsCoarse(c) && r.chunks == [c])
    decreases link.Size(), 1, 0
  {
    hide Replaced, Applied, Chunked, Buildable, Replacements, IsCoarse;
    ReplacedIs(c, ceiling, Some(link), sv, doc, depth, skipCoarse);
    if (skipCoarse && IsCoarse(c)) || !Oversize(c, ceiling) {
    } else if Buildable(link, sv) {
      var synth := SynthDoc(c, doc);
      var raw := Chunked(link, sv, synth);
      if raw.Done? {
        SubChunksFit(raw.chunks, link, sv, synth, depth + 1, limit);
        var sub := Applied(raw.chunks, link.Effective(), link.ifOversize, sv, synth, depth + 1, false);
        if sub.Done? {
          ReplacementsFit(c, sub.chunks, limit);
        }
      }
    }
  }

  lemma {:induction false} SubChunksFit(raw: seq<Chunk>, link: ChunkerConfig, sv: Services, doc: Document, depth: nat,
                                        limit: nat)
    requires EndsInCode(link, limit) && Buildable(link, sv)
    requires Chunked(link, sv, doc) == Done(raw)
    ensures var sub := Applied(raw, link.Effective(), link.ifOversize, sv, doc, depth, false);
            sub.Done? ==> AllWithin(sub.chunks, limit)
    decreases link.Size(), 0, 0
  {
    hide Chunked, Buildable, ReplacedAll, Applied;
    match link.ifOversize
    case Some(next) =>
      SizeOfLink(link);
      FallbackKeepsCeiling(raw, link.Effective().value, next, sv, doc, depth, false, limit);
    case None =>
      LastLinkFits(link, sv, doc, limit);
      NoFallbackKeepsChunks(raw, link.Effective().value, sv, doc, depth, false, 0);
      AppliedIs(raw, link.Effective(), None, sv, doc, depth, false);
  }

  // The result for whole chunkers: the chunker's own ceiling bounds every chunk it
  // returns but the coarse rows that a hierarchical summary itself made.
  lemma ChunkedKeepsCeiling(cfg: ChunkerConfig, sv: Services, doc: Document)
    requires Buildable(cfg, sv) && !cfg.Consolidation?
    requires cfg.Effective().Some? && cfg.ifOversize.Some?
    requires EndsInCode(cfg.ifOversize.value, cfg.Effective().value)
    ensures var r := Chunked(cfg, sv, doc);
            r.Done? ==> Raw(cfg, sv, doc).Done?
                        && WithinOrPassed(r.chunks, cfg.Effective().value, cfg.HierarchicalSummary?,
                                          Raw(cfg, sv, doc).chunks)
  {
    hide *;
    ChunkedIs(cfg, sv, doc);
    var raw, limit := Raw(cfg, sv, doc), cfg.Effective().value;
    if raw.Done? {
      assert cfg.Effective() == Some(limit) && cfg.ifOversize == Some(cfg.ifOversize.value);
      FallbackKeepsCeiling(raw.chunks, limit, cfg.ifOversize.value, sv, doc, 0, cfg.HierarchicalSummary?, limit);
    }
  }

  // ---------- the recursion guard ----------

  // Every configuration in the tree can be built, has a positive limit, and
  // starts a fallback chain of at most five links.
  predicate Sound(cfg: ChunkerConfig, sv: Services) {
    && Buildable(cfg, sv)
    && (cfg.SentenceAware? || cfg.Hierarchy? ==> cfg.maxChars > 0)
    && cfg.Links() <= MAX_RECURSION_DEPTH
    && (cfg.ifOversize.Some? ==> Sound(cfg.ifOversize.value, sv))
    && (cfg.IsWrapper() ==> Sound(cfg.base, sv))
  }

  function LinksOf(link: Option<ChunkerConfig>): nat {
    match link
    case None => 0
    case Some(c) => 1 + c.Links()
  }

  predicate SoundLink(link: Option<ChunkerConfig>, sv: Services) {
    link.Some? ==> Sound(link.value, sv)
  }

  lemma {:induction false} RawSucceeds(cfg: ChunkerConfig, sv: Services, doc: Document)
    requires Sound(cfg, sv)
    ensures Raw(cfg, sv, doc).Done?
    decreases cfg.Size(), 0, 0
  {
    if cfg.IsWrapper() {
      ChunkedSucceeds(cfg.base, sv, doc);
    }
    hide Chunked, HierarchySections, EmitSections;
  }

  // Chunking never panics and never meets the recursion error when every
  // fallback chain has at most five links and everything can be built, although
  // nested chunkers start counting depth at 0 again.
  lemma {:induction false} ChunkedSucceeds(cfg: ChunkerConfig, sv: Services, doc: Document)
    requires Sound(cfg, sv)
    ensures Chunked(cfg, sv, doc).Done?
    decreases cfg.Size(), 1, 0
  {
    RawSucceeds(cfg, sv, doc);
    hide Raw, Applied, Chunked, Buildable;
    ChunkedIs(cfg, sv, doc);
    if !cfg.Consolidation? {
      AppliedSucceeds(Raw(cfg, sv, doc).chunks, cfg.Effective(), cfg.ifOversize, sv, doc, 0, cfg.HierarchicalSummary?);
    }
  }

  lemma {:induction false} AppliedSucceeds(cs: seq<Chunk>, ceiling: Option<nat>, link: Option<ChunkerConfig>,
                                           sv: Services, doc: Document, depth: nat, skipCoarse: bool)
    requires SoundLink(link, sv) && depth + LinksOf(link) <= MAX_RECURSION_DEPTH
    ensures Applied(cs, ceiling, link, sv, doc, depth, skipCoarse).Done?
    decreases SizeOf(link), 4, 0
  {
    if ceiling.Some? {
      ReplacedAllSucceeds(cs, ceiling.value, link, sv, doc, depth, skipCoarse, 0);
    }
  }

  lemma {:induction false} ReplacedAllSucceeds(cs: seq<Chunk>, ceiling: nat, link: Option<ChunkerConfig>, sv: Services,
                                               doc: Document, depth: nat, skipCoarse: bool, seqNum: nat)
    requires SoundLink(link, sv) && depth + LinksOf(link) <= MAX_RECURSION_DEPTH
    ensures ReplacedAll(cs, ceiling, link, sv, doc, depth, skipCoarse, seqNum).Done?
    decreases SizeOf(link), 3, |cs|
  {
    hide Replaced, SoundLink;
    if cs != [] {
      ReplacedSucceeds(cs[0], ceiling, link, sv, doc, depth, skipCoarse);
      var r := Replaced(cs[0], ceiling, link, sv, doc, depth, skipCoarse);
      ReplacedAllSucceeds(cs[1..], ceiling, link, sv, doc, depth, skipCoarse, seqNum + |r.chunks|);
    }
  }

  lemma {:induction false} ReplacedSucceeds(c: Chunk, ceiling: nat, link: Option<ChunkerConfig>, sv: Services,
                                            doc: Document, depth: nat, skipCoarse: bool)
    requires SoundLink(link, sv) && depth + LinksOf(link) <= MAX_RECURSION_DEPTH
    ensures Replaced(c, ceiling, link, sv, doc, depth, skipCoarse).Done?
    decreases SizeOf(link), 2, 0
  {
    hide Replaced, Applied, Chunked, Buildable;
    ReplacedIs(c, ceiling, link, sv, doc, depth, skipCoarse);
    if link.Some? {
      var synth := SynthDoc(c, doc);
      ChunkedSucceeds(link.value, sv, synth);
      var raw := Chunked(link.value, sv, synth);
      AppliedSucceeds(raw.chunks, link.value.Effective(), link.value.ifOversize, sv, synth, depth + 1, false);
    }
  }

  // A limit of 0 passes both validations, and makes sentence_aware panic on every
  // document that is not blank.
  lemma ZeroLimitPanicsExactly(code: bool, minChars: nat, sv: Services, doc: Document)
    ensures var cfg := SentenceAware(code, 0, minChars, None);
            && cfg.RustValid() && cfg.PythonValid() && Buildable(cfg, sv)
            && Chunked(cfg, sv, doc) == if Blank(doc.content) then Done([]) else Panicked
  {
    ReplacedAllOfNone(0, None, sv, doc, 0, false, 0);
    AppliedIs([], Some(0), None, sv, doc, 0, false);
    hide Applied;
  }

  // Word-window chunkers nested n deep, all with ceiling 1.
  function Nested(n: nat): ChunkerConfig {
    FixedOverlap(1, 1, Some(1), if n == 0 then None else Some(Nested(n - 1)))
  }

  predicate IsWholeWord(c: Chunk) {
    c.original == "ab" && c.embedded == "ab"
  }

  lemma NestedRaw(n: nat, sv: Services, doc: Document)
    requires doc.content == "ab"
    ensures Buildable(Nested(n), sv)
    ensures var r := Raw(Nested(n), sv, doc); r.Done? && |r.chunks| == 1 && IsWholeWord(r.chunks[0])
  {
    var words := Words("ab", 0);
    assert SpaceEnd("ab", 0) == 0;
    assert WordEnd("ab", 0) == WordEnd("ab", 1) == 2;
    assert Words("ab", 2) == [];
    assert words == [Span(0, 2)];
    assert Windows(1, 1, 1, 0) == [Span(0, 1)];
    assert "ab"[0..2] == "ab";
  }

  lemma {:induction false} NestedChunks(n: nat, sv: Services, doc: Document)
    requires doc.content == "ab"
    ensures Buildable(Nested(n), sv)
    ensures var r := Chunked(Nested(n), sv, doc);
            && (r.Done? <==> n <= MAX_RECURSION_DEPTH)
            && (r.Done? ==> |r.chunks| == 1 && IsWholeWord(r.chunks[0]))
    decreases n, 1
  {
    NestedRaw(n, sv, doc);
    var raw := Raw(Nested(n), sv, doc);
    hide Raw, Applied, Chunked, Buildable, IsWholeWord;
    ChunkedIs(Nested(n), sv, doc);
    NestedApplying(n, raw.chunks[0], sv, doc, 0);
    assert raw.chunks == [raw.chunks[0]];
  }

  lemma {:induction false} NestedApplying(n: nat, c: Chunk, sv: Services, doc: Document, depth: nat)
    requires IsWholeWord(c)
    ensures var r := Applied([c], Some(1), Nested(n).ifOversize, sv, doc, depth, false);
            && (r.Done? <==> depth + n <= MAX_RECURSION_DEPTH)
            && (r.Done? ==> |r.chunks| == 1 && IsWholeWord(r.chunks[0]))
    decreases n, 0
  {
    hide Raw, Applied, ReplacedAll, Replaced, Chunked, Buildable;
    var link := Nested(n).ifOversize;
    AppliedIs([c], Some(1), link, sv, doc, depth, false);
    ReplacedAllOfOne(c, 1, link, sv, doc, depth, false);
    ReplacedIs(c, 1, link, sv, doc, depth, false);
    if n > 0 {
      var synth := SynthDoc(c, doc);
      NestedChunks(n - 1, sv, synth);
      var raw := Chunked(Nested(n - 1), sv, synth);
      if raw.Done? {
        assert raw.chunks == [raw.chunks[0]];
        NestedApplying(n - 1, raw.chunks[0], sv, synth, depth + 1);
      }
    }
  }

  lemma ReplacedAllOfOne(c: Chunk, ceiling: nat, link: Option<ChunkerConfig>, sv: Services, doc: Document, depth: nat,
                         skipCoarse: bool)
    ensures var r := Replaced(c, ceiling, link, sv, doc, depth, skipCoarse);
            ReplacedAll([c], ceiling, link, sv, doc, depth, skipCoarse, 0) ==
            if r.Done? then Done(Renumbered(r.chunks, 0)) else r
  {
    hide Replaced;
    var r := Replaced(c, ceiling, link, sv, doc, depth, skipCoarse);
    assert [c][1..] == [];
    if r.Done? {
      assert ReplacedAll([], ceiling, link, sv, doc, depth, skipCoarse, |r.chunks|) == Done([]);
      assert Renumbered(r.chunks, 0) + [] == Renumbered(r.chunks, 0);
    }
  }

  lemma {:induction false} NestedLinks(n: nat)
    ensures Nested(n).Links() == n
  {
    if n > 0 {
      NestedLinks(n - 1);
    }
  }

  // Five links is the limit: a fallback chain of n word-window chunkers chunks a
  // two-letter word exactly when n <= 5.
  lemma NestedChunking(n: nat, sv: Services, doc: Document)
    requires doc.content == "ab"
    ensures Nested(n).Links() == n && Buildable(Nested(n), sv)
    ensures Chunked(Nested(n), sv, doc).Done? <==> n <= 5
    ensures n <= 5 ==>
              var r := Chunked(Nested(n), sv, doc); |r.chunks| == 1 && IsWholeWord(r.chunks[0])
  {
    assert MAX_RECURSION_DEPTH == 5;
    hide *;
    NestedLinks(n);
    NestedChunks(n, sv, doc);
  }

  // ---------- hierarchical summaries ----------

  // The rows that are not coarse.
  function FineRows(rows: seq<Chunk>): seq<Chunk> {
    if rows == [] then []
    else (if IsCoarse(rows[0]) then [] else [rows[0]]) + FineRows(rows[1..])
  }

  // Same texts, chunk by chunk.
  predicate SameTexts(a: seq<Chunk>, b: seq<Chunk>) {
    && |a| == |b|
    && forall i :: 0 <= i < |a| ==> a[i].original == b[i].original && a[i].embedded == b[i].embedded
  }

  lemma {:induction false} FineRowsAppend(a: seq<Chunk>, b: seq<Chunk>)
    ensures FineRows(a + b) == FineRows(a) + FineRows(b)
  {
    hide IsCoarse;
    if a == [] {
      assert a + b == b;
    } else {
      assert (a + b)[1..] == a[1..] + b;
      FineRowsAppend(a[1..], b);
    }
  }

  lemma {:induction false} AllFine(rows: seq<Chunk>)
    requires forall i :: 0 <= i < |rows| ==> !IsCoarse(rows[i])
    ensures FineRows(rows) == rows
  {
    hide IsCoarse;
    if rows != [] {
      AllFine(rows[1..]);
    }
  }

  lemma FineAndCoarse(c: Chunk, group: seq<Chunk>, groupId: string, summary: string, mode: string, docId: string,
                      seqNum: nat)
    ensures !IsCoarse(FineChunk(c, groupId, mode, seqNum))
    ensures IsCoarse(CoarseChunk(docId, group, summary, groupId, mode, seqNum))
    ensures FineChunk(c, groupId, mode, seqNum).original == c.original
    ensures FineChunk(c, groupId, mode, seqNum).embedded == c.embedded
  {
    hide Join, Originals;
  }

  // The fine rows of a group are its chunks; its one coarse row is the last.
  lemma GroupRowsKeepGroup(group: seq<Chunk>, groupIdx: nat, summary: string, mode: string, doc: Document, seqNum: nat)
    ensures var rows := GroupRows(group, groupIdx, summary, mode, doc, seqNum);
            && |rows| == |group| + 1
            && IsCoarse(rows[|group|])
            && rows[|group|].original == Join(Originals(group), BLANK_LINE)
            && SameTexts(FineRows(rows), group)
  {
    var id := GroupId(doc.id, groupIdx);
    var rows := GroupRows(group, groupIdx, summary, mode, doc, seqNum);
    var fine := rows[..|group|];
    hide GroupId, Join, Originals, IsCoarse;
    forall i | 0 <= i < |group|
      ensures !IsCoarse(fine[i]) && fine[i].original == group[i].original && fine[i].embedded == group[i].embedded
    {
      FineAndCoarse(group[i], group, id, summary, mode, doc.id, seqNum + i);
    }
    var last := rows[|group|];
    if group == [] {
      FineAndCoarse(last, group, id, summary, mode, doc.id, seqNum + |group|);
    } else {
      FineAndCoarse(group[0], group, id, summary, mode, doc.id, seqNum + |group|);
    }
    AllFine(fine);
    FineRowsAppend(fine, [last]);
    assert FineRows([last]) == [] by {
      assert [last][1..] == [];
    }
    assert rows == fine + [last];
  }

  // The summarizer succeeds on every group's joined text.
  predicate AllSummarized(groups: seq<seq<Chunk>>, s: nat, sv: Services, doc: Document) {
    forall g <- groups :: sv.summarize(s, Join(Originals(g), BLANK_LINE), doc.meta).Some?
  }

  lemma AllSummarizedSplits(groups: seq<seq<Chunk>>, s: nat, sv: Services, doc: Document)
    requires groups != []
    ensures AllSummarized(groups, s, sv, doc)
       <==> sv.summarize(s, Join(Originals(groups[0]), BLANK_LINE), doc.meta).Some?
            && AllSummarized(groups[1..], s, sv, doc)
  {
    hide Join, Originals;
    assert groups == [groups[0]] + groups[1..];
  }

  lemma {:induction false} SummaryRowsKeepGroups(groups: seq<seq<Chunk>>, groupIdx: nat, s: nat, sv: Services,
                                                 doc: Document, seqNum: nat)
    ensures var r := SummaryRows(groups, groupIdx, s, sv, doc, seqNum);
            && (r.Some? <==> AllSummarized(groups, s, sv, doc))
            && (r.Some? ==> SameTexts(FineRows(r.value), Flatten(groups)) && |r.value| == |Flatten(groups)| + |groups|)
    decreases |groups|
  {
    hide GroupRows, FineRows, Join, Originals;
    if groups == [] {
      AllFine([]);
    } else {
      var summary := sv.summarize(s, Join(Originals(groups[0]), BLANK_LINE), doc.meta);
      AllSummarizedSplits(groups, s, sv, doc);
      hide AllSummarized;
      if summary.Some? {
        var rows := GroupRows(groups[0], groupIdx, summary.value, sv.summarizerMode(s), doc, seqNum);
        GroupRowsKeepGroup(groups[0], groupIdx, summary.value, sv.summarizerMode(s), doc, seqNum);
        SummaryRowsKeepGroups(groups[1..], groupIdx + 1, s, sv, doc, seqNum + |rows|);
        var rest := SummaryRows(groups[1..], groupIdx + 1, s, sv, doc, seqNum + |rows|);
        if rest.Some? {
          FineRowsAppend(rows, rest.value);
        }
      }
    }
  }

  lemma GroupedFlattens(cs: seq<Chunk>, grouping: GroupingConfig)
    requires cs != []
    ensures Flatten(Grouped(cs, grouping)) == cs
  {
    hide Slices, Words, Flatten;
    assert cs[0..] == cs;
    match grouping
    case FixedN(n) =>
      if n == 0 {
        FlattenOfOne(cs);
      } else {
        assert Weight(Ones(|cs|), 0, 0) == 0;
        GreedyIsPacking(Ones(|cs|), n, 0, 0);
        SlicesFlatten(cs, Greedy(Ones(|cs|), n, 0, 0), 0);
      }
    case WordBudget(m) =>
      var w := seq(|cs|, i requires 0 <= i < |cs| => |Words(cs[i].original, 0)|);
      GreedyIsPacking(w, m, 0, 0);
      SlicesFlatten(cs, Greedy(w, m, 0, 0), 0);
    case SectionAware =>
      SectionGroupsAreTheRuns(cs, seq(|cs|, i requires 0 <= i < |cs| => HeadingKey(cs[i])));
  }

  lemma FlattenOfOne(cs: seq<Chunk>)
    ensures Flatten([cs]) == cs
  {
    assert [cs][1..] == [];
    assert Flatten([cs]) == cs + Flatten([cs][1..]);
  }

  // Before the oversize pass, the fine rows of a hierarchical summary are the
  // base chunks in order, with one coarse row more per group; there are no rows
  // exactly when there are no base chunks or the summarizer fails on some group.
  lemma HierarchicalSummaryKeepsBase(base: seq<Chunk>, s: nat, grouping: GroupingConfig, sv: Services, doc: Document)
    ensures var rows, groups := HierarchicalSummaryChunks(base, s, grouping, sv, doc), Grouped(base, grouping);
            && (rows == [] <==> base == [] || !AllSummarized(groups, s, sv, doc))
            && (rows != [] ==> SameTexts(FineRows(rows), base) && |rows| == |base| + |groups|)
  {
    hide Grouped, SummaryRows, FineRows, Flatten, AllSummarized;
    if base != [] {
      GroupedFlattens(base, grouping);
      SummaryRowsKeepGroups(Grouped(base, grouping), 0, s, sv, doc, 0);
    }
  }
}
