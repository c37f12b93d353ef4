// What the oversize fallback makes of a chunk, and what it leaves alone.
module FallbackContents {
  import opened Text
  import opened Splitting
  import opened SplitGuarantees
  import opened ChunkerConfigs
  import opened Chunking
  import opened ChunkGuarantees

  predicate TooLong(c: Chunk, ceiling: nat) {
    |c.embedded| > ceiling || |c.original| > ceiling
  }

  lemma RenumberedFromZero(cs: seq<Chunk>, docId: string)
    requires Numbered(cs, docId, 0)
    ensures Renumbered(cs, 0) == cs
  {
  }

  // A chunker without a fallback returns what it made.
  lemma WithoutFallback(cfg: ChunkerConfig, sv: Services, doc: Document)
    requires Buildable(cfg, sv) && cfg.ifOversize.None?
    ensures Chunked(cfg, sv, doc) == Raw(cfg, sv, doc)
  {
    assert MAX_RECURSION_DEPTH >= 0;
    RawIsNumbered(cfg, sv, doc);
    hide *;
    ChunkedIs(cfg, sv, doc);
    var raw := Raw(cfg, sv, doc);
    if raw.Done? && !cfg.Consolidation? {
      AppliedIs(raw.chunks, cfg.Effective(), None, sv, doc, 0, cfg.HierarchicalSummary?);
      if cfg.Effective().Some? {
        NoFallbackKeepsChunks(raw.chunks, cfg.Effective().value, sv, doc, 0, cfg.HierarchicalSummary?, 0);
        RenumberedFromZero(raw.chunks, doc.id);
      }
    }
  }

  // ---------- what it works on ----------

  // r replaces c: the texts are sub's original ones, in both fields, and sub's metadata
  // goes over c's.
  predicate Replaces(c: Chunk, sub: seq<Chunk>, r: seq<Chunk>) {
    && |r| == |sub|
    && forall i :: 0 <= i < |sub| ==>
         && r[i].docId == c.docId && r[i].original == sub[i].original == r[i].embedded
         && r[i].meta.Keys == c.meta.Keys + sub[i].meta.Keys
         && (forall k <- r[i].meta.Keys :: r[i].meta[k] == if k in sub[i].meta then sub[i].meta[k] else c.meta[k])
  }

  lemma ReplacementsReplace(c: Chunk, sub: seq<Chunk>, raw: seq<Chunk>)
    requires sub == Renumbered(raw, 0) || sub == raw
    ensures Replaces(c, raw, Replacements(c, sub))
  {
  }

  // A fallback with none of its own chunks the original text, under the document's
  // title and metadata.
  lemma FallbackChunksOriginal(c: Chunk, ceiling: nat, link: ChunkerConfig, sv: Services, doc: Document, depth: nat)
    requires TooLong(c, ceiling) && link.ifOversize.None? && Buildable(link, sv) && depth < 5
    requires Chunked(link, sv, Document(c.docId, c.original, doc.title, doc.meta)).Done?
    ensures var sub := Chunked(link, sv, Document(c.docId, c.original, doc.title, doc.meta));
            var r := Replaced(c, ceiling, Some(link), sv, doc, depth, false);
            r.Done? && Replaces(c, sub.chunks, r.chunks)
  {
    var synth := Document(c.docId, c.original, doc.title, doc.meta);
    assert SynthDoc(c, doc) == synth && Oversize(c, ceiling) && MAX_RECURSION_DEPTH == 5;
    hide *;
    ReplacedIs(c, ceiling, Some(link), sv, doc, depth, false);
    var raw := Chunked(link, sv, synth).chunks;
    AppliedIs(raw, link.Effective(), None, sv, synth, depth + 1, false);
    if link.Effective().Some? {
      NoFallbackKeepsChunks(raw, link.Effective().value, sv, synth, depth + 1, false, 0);
    }
    ReplacementsReplace(c, Applied(raw, link.Effective(), None, sv, synth, depth + 1, false).chunks, raw);
  }

  // Two chunks that differ in their embedded texts only become the same.
  lemma EmbeddedTextIsDropped(c: Chunk, d: Chunk, ceiling: nat, link: ChunkerConfig, sv: Services, doc: Document,
                              depth: nat, skipCoarse: bool)
    requires d == c.(embedded := d.embedded) && TooLong(c, ceiling) && TooLong(d, ceiling)
    requires skipCoarse ==> !IsCoarse(c)
    ensures Replaced(c, ceiling, Some(link), sv, doc, depth, skipCoarse)
         == Replaced(d, ceiling, Some(link), sv, doc, depth, skipCoarse)
  {
    assert SynthDoc(c, doc) == SynthDoc(d, doc) && IsCoarse(c) == IsCoarse(d);
    assert Oversize(c, ceiling) && Oversize(d, ceiling);
    hide *;
    ReplacedIs(c, ceiling, Some(link), sv, doc, depth, skipCoarse);
    ReplacedIs(d, ceiling, Some(link), sv, doc, depth, skipCoarse);
    forall sub: seq<Chunk> ensures Replacements(c, sub) == Replacements(d, sub) {
    }
  }

  // ---------- what it keeps ----------

  // Code-mode sentence_aware without a fallback of its own.
  predicate IsCodeLink(link: ChunkerConfig) {
    link.SentenceAware? && link.code && link.ifOversize.None?
  }

  // The content of the texts of chunks.
  function Content(cs: seq<Chunk>): string {
    NonSpace(Concat(Originals(cs)))
  }

  lemma ContentAppend(a: seq<Chunk>, b: seq<Chunk>)
    ensures Content(a + b) == Content(a) + Content(b)
  {
    assert Originals(a + b) == Originals(a) + Originals(b);
    ConcatAppend(Originals(a), Originals(b));
    NonSpaceConcat(Concat(Originals(a)), Concat(Originals(b)));
  }

  lemma ContentOfSame(a: seq<Chunk>, b: seq<Chunk>)
    requires |a| == |b| && forall i :: 0 <= i < |a| ==> a[i].original == b[i].original
    ensures Content(a) == Content(b)
  {
    assert Originals(a) == Originals(b);
  }

  predicate AreCodeTexts(cs: seq<Chunk>) {
    forall i :: 0 <= i < |cs| ==>
      cs[i].embedded == cs[i].original && cs[i].meta == map["strategy" := Str("sentence_aware")]
  }

  lemma CodeChunksKeepContent(maxChars: nat, minChars: nat, sv: Services, doc: Document)
    ensures var r := SentenceAwareChunks(true, maxChars, minChars, sv, doc);
            && (r.Done? <==> maxChars > 0 || Blank(doc.content))
            && (r.Done? ==> Content(r.chunks) == NonSpace(doc.content))
            && (r.Done? ==> AreCodeTexts(r.chunks))
  {
    assert Originals([]) == [] && Concat([]) == "" && NonSpace("") == "";
    hide PlainPieces, NonSpace, Concat, Blank;
    if maxChars == 0 {
      BlankHasNoContent(doc.content);
    } else {
      PlainPiecesKeepContent(doc.content, maxChars);
      var texts := PlainPieces(doc.content, maxChars);
      assert Originals(PlainChunks(doc.id, texts, map["strategy" := Str("sentence_aware")], 0)) == texts;
    }
  }

  lemma CodeLinkKeepsContent(link: ChunkerConfig, sv: Services, doc: Document)
    requires IsCodeLink(link)
    ensures Buildable(link, sv)
    ensures var r := Chunked(link, sv, doc);
            && (r.Done? <==> link.maxChars > 0 || Blank(doc.content))
            && (r.Done? ==> Content(r.chunks) == NonSpace(doc.content))
            && (r.Done? ==> AreCodeTexts(r.chunks))
  {
    RawOfSentenceAware(link, sv, doc);
    hide Content, Blank, Chunked, Raw, SentenceAwareChunks, NonSpace;
    WithoutFallback(link, sv, doc);
    CodeChunksKeepContent(link.maxChars, link.minChars, sv, doc);
  }

  // The texts are within max, in both fields, and c's metadata is kept but for the
  // strategy.
  predicate AreCodeReplacements(c: Chunk, r: seq<Chunk>, max: nat) {
    forall i :: 0 <= i < |r| ==>
      && r[i].docId == c.docId && r[i].embedded == r[i].original && |r[i].original| <= max
      && r[i].meta == c.meta["strategy" := Str("sentence_aware")]
  }

  lemma CodeReplacements(c: Chunk, sub: seq<Chunk>, r: seq<Chunk>, max: nat)
    requires Replaces(c, sub, r) && AreCodeTexts(sub) && AllWithin(sub, max)
    ensures AreCodeReplacements(c, r, max) && Content(r) == Content(sub)
  {
    ContentOfSame(r, sub);
    hide Content;
  }

  // What code-mode sentence_aware makes of a chunk that is too long: the content of
  // its original text, in texts within max, under the parent's metadata.
  lemma CodeFallbackReplaces(c: Chunk, ceiling: nat, link: ChunkerConfig, sv: Services, doc: Document, depth: nat)
    requires TooLong(c, ceiling) && IsCodeLink(link) && link.maxChars > 0 && depth < 5
    ensures var r := Replaced(c, ceiling, Some(link), sv, doc, depth, false);
            r.Done? && Content(r.chunks) == NonSpace(c.original) && AreCodeReplacements(c, r.chunks, link.maxChars)
  {
    var synth := Document(c.docId, c.original, doc.title, doc.meta);
    CodeLinkKeepsContent(link, sv, synth);
    FallbackChunksOriginal(c, ceiling, link, sv, doc, depth);
    LastLinkFits(link, sv, synth, link.maxChars);
    hide *;
    var sub := Chunked(link, sv, synth).chunks;
    CodeReplacements(c, sub, Replaced(c, ceiling, Some(link), sv, doc, depth, false).chunks, link.maxChars);
  }

  lemma ContentOfOne(c: Chunk)
    ensures Content([c]) == NonSpace(c.original)
  {
    hide NonSpace;
    assert Originals([c]) == [c.original];
    ConcatOfOne(c.original);
  }

  // A coarse row that is skipped, a chunk that fits, and one that does not.
  lemma ReplacedCases(c: Chunk, ceiling: nat, link: ChunkerConfig, sv: Services, doc: Document, depth: nat,
                      skipCoarse: bool)
    ensures var r := Replaced(c, ceiling, Some(link), sv, doc, depth, skipCoarse);
            && ((skipCoarse && IsCoarse(c)) || !TooLong(c, ceiling) ==> r == Done([c]))
            && (!(skipCoarse && IsCoarse(c)) ==> r == Replaced(c, ceiling, Some(link), sv, doc, depth, false))
            && (r.Done? ==> (skipCoarse && IsCoarse(c)) || !TooLong(c, ceiling) || depth < 5)
            && (r.Done? && !(skipCoarse && IsCoarse(c)) && TooLong(c, ceiling) && Buildable(link, sv) ==>
                  Chunked(link, sv, Document(c.docId, c.original, doc.title, doc.meta)).Done?)
  {
    assert SynthDoc(c, doc) == Document(c.docId, c.original, doc.title, doc.meta) && MAX_RECURSION_DEPTH == 5;
    assert Oversize(c, ceiling) == TooLong(c, ceiling);
    hide *;
    ReplacedIs(c, ceiling, Some(link), sv, doc, depth, skipCoarse);
    ReplacedIs(c, ceiling, Some(link), sv, doc, depth, false);
    var raw := if Buildable(link, sv) then Chunked(link, sv, SynthDoc(c, doc)) else RecursionError;
    if raw.Done? {
      AppliedIs(raw.chunks, link.Effective(), link.ifOversize, sv, SynthDoc(c, doc), depth + 1, false);
    }
  }

  lemma ReplacedKeepsContent(c: Chunk, ceiling: nat, link: ChunkerConfig, sv: Services, doc: Document, depth: nat,
                             skipCoarse: bool)
    requires IsCodeLink(link)
    ensures var r := Replaced(c, ceiling, Some(link), sv, doc, depth, skipCoarse);
            r.Done? ==> Content(r.chunks) == NonSpace(c.original)
  {
    var synth := Document(c.docId, c.original, doc.title, doc.meta);
    assert link.ifOversize.None?;
    CodeLinkKeepsContent(link, sv, synth);
    ReplacedCases(c, ceiling, link, sv, doc, depth, skipCoarse);
    ContentOfOne(c);
    hide *;
    var r := Replaced(c, ceiling, Some(link), sv, doc, depth, skipCoarse);
    if r.Done? && !(skipCoarse && IsCoarse(c)) && TooLong(c, ceiling) {
      FallbackChunksOriginal(c, ceiling, link, sv, doc, depth);
      ReplacedContent(c, Chunked(link, sv, synth).chunks, r.chunks);
    }
  }

  lemma ReplacedContent(c: Chunk, sub: seq<Chunk>, r: seq<Chunk>)
    requires Replaces(c, sub, r)
    ensures Content(r) == Content(sub)
  {
    ContentOfSame(r, sub);
    hide Content;
  }

  lemma {:induction false} ReplacedAllKeepsContent(cs: seq<Chunk>, ceiling: nat, link: ChunkerConfig, sv: Services,
                                                   doc: Document, depth: nat, skipCoarse: bool, seqNum: nat)
    requires IsCodeLink(link)
    ensures var r := ReplacedAll(cs, ceiling, Some(link), sv, doc, depth, skipCoarse, seqNum);
            r.Done? ==> Content(r.chunks) == Content(cs)
    decreases |cs|
  {
    hide *;
    if cs == [] {
      NoneReplaced(ceiling, link, sv, doc, depth, skipCoarse, seqNum);
    } else if ReplacedAll(cs, ceiling, Some(link), sv, doc, depth, skipCoarse, seqNum).Done? {
      var first, rest := ReplacedAllParts(cs, ceiling, link, sv, doc, depth, skipCoarse, seqNum);
      ReplacedKeepsContent(cs[0], ceiling, link, sv, doc, depth, skipCoarse);
      ReplacedAllKeepsContent(cs[1..], ceiling, link, sv, doc, depth, skipCoarse, seqNum + |first|);
      ContentAppend(Renumbered(first, seqNum), rest);
      ContentOfSame(Renumbered(first, seqNum), first);
      ContentAppend([cs[0]], cs[1..]);
      ContentOfOne(cs[0]);
      assert cs == [cs[0]] + cs[1..];
    }
  }

  // With code-mode sentence_aware as fallback, `apply_if_oversize` keeps every
  // character of the original texts that is not whitespace, in order.
  lemma FallbackKeepsContent(cs: seq<Chunk>, ceiling: Option<nat>, link: ChunkerConfig, sv: Services, doc: Document,
                             depth: nat, skipCoarse: bool)
    requires IsCodeLink(link)
    ensures var r := Applied(cs, ceiling, Some(link), sv, doc, depth, skipCoarse);
            r.Done? ==> Content(r.chunks) == Content(cs)
  {
    hide *;
    AppliedIs(cs, ceiling, Some(link), sv, doc, depth, skipCoarse);
    if ceiling.Some? {
      ReplacedAllKeepsContent(cs, ceiling.value, link, sv, doc, depth, skipCoarse, 0);
    }
  }

  // ---------- what it leaves alone ----------

  lemma {:induction false} FittingAllStay(cs: seq<Chunk>, ceiling: nat, link: ChunkerConfig, sv: Services,
                                          doc: Document, depth: nat, skipCoarse: bool, seqNum: nat)
    requires forall i :: 0 <= i < |cs| ==> !TooLong(cs[i], ceiling) || (skipCoarse && IsCoarse(cs[i]))
    ensures ReplacedAll(cs, ceiling, Some(link), sv, doc, depth, skipCoarse, seqNum) == Done(Renumbered(cs, seqNum))
    decreases |cs|
  {
    hide *;
    if cs == [] {
      NoneReplaced(ceiling, link, sv, doc, depth, skipCoarse, seqNum);
      assert Renumbered(cs, seqNum) == [];
    } else {
      ReplacedCases(cs[0], ceiling, link, sv, doc, depth, skipCoarse);
      FittingAllStay(cs[1..], ceiling, link, sv, doc, depth, skipCoarse, seqNum + 1);
      var rest := Renumbered(cs[1..], seqNum + 1);
      ReplacedAllStep(cs, ceiling, Some(link), sv, doc, depth, skipCoarse, seqNum, [cs[0]], rest);
      assert Renumbered([cs[0]], seqNum) + rest == Renumbered(cs, seqNum);
    }
  }

  lemma NoneReplaced(ceiling: nat, link: ChunkerConfig, sv: Services, doc: Document, depth: nat, skipCoarse: bool,
                     seqNum: nat)
    ensures ReplacedAll([], ceiling, Some(link), sv, doc, depth, skipCoarse, seqNum) == Done([])
  {
  }

  // Chunks that fit, and coarse rows that are skipped, come out as they are.
  lemma FittingChunksStay(cs: seq<Chunk>, ceiling: nat, link: ChunkerConfig, sv: Services, doc: Document, depth: nat,
                          skipCoarse: bool)
    requires depth <= 5
    requires forall i :: 0 <= i < |cs| ==>
               (|cs[i].original| <= ceiling && |cs[i].embedded| <= ceiling) || (skipCoarse && IsCoarse(cs[i]))
    ensures var r := Applied(cs, Some(ceiling), Some(link), sv, doc, depth, skipCoarse);
            r.Done? && |r.chunks| == |cs|
            && forall i :: 0 <= i < |cs| ==> r.chunks[i] == cs[i].(seqNum := i)
  {
    assert forall i :: 0 <= i < |cs| ==>
             (|cs[i].original| <= ceiling && |cs[i].embedded| <= ceiling <==> !TooLong(cs[i], ceiling));
    assert MAX_RECURSION_DEPTH == 5;
    hide *;
    AppliedIs(cs, Some(ceiling), Some(link), sv, doc, depth, skipCoarse);
    FittingAllStay(cs, ceiling, link, sv, doc, depth, skipCoarse, 0);
  }

  // ---------- a fallback that cannot be built ----------

  predicate Passes(c: Chunk, ceiling: nat, skipCoarse: bool) {
    !TooLong(c, ceiling) || (skipCoarse && IsCoarse(c))
  }

  lemma UnbuildableOne(c: Chunk, ceiling: nat, link: ChunkerConfig, sv: Services, doc: Document, depth: nat,
                       skipCoarse: bool)
    requires !Buildable(link, sv)
    ensures Replaced(c, ceiling, Some(link), sv, doc, depth, skipCoarse)
         == if Passes(c, ceiling, skipCoarse) then Done([c]) else RecursionError
  {
    assert Oversize(c, ceiling) == TooLong(c, ceiling);
    assert Passes(c, ceiling, skipCoarse) <==> !TooLong(c, ceiling) || (skipCoarse && IsCoarse(c));
    hide *;
    ReplacedIs(c, ceiling, Some(link), sv, doc, depth, skipCoarse);
  }

  lemma {:induction false} UnbuildableAll(cs: seq<Chunk>, ceiling: nat, link: ChunkerConfig, sv: Services,
                                          doc: Document, depth: nat, skipCoarse: bool, seqNum: nat)
    requires !Buildable(link, sv)
    ensures var r := ReplacedAll(cs, ceiling, Some(link), sv, doc, depth, skipCoarse, seqNum);
            && (r.Done? <==> forall c <- cs :: Passes(c, ceiling, skipCoarse))
            && (r.Done? || r.RecursionError?)
    decreases |cs|
  {
    hide Replaced, Passes, Buildable;
    if cs != [] {
      assert cs == [cs[0]] + cs[1..];
      UnbuildableOne(cs[0], ceiling, link, sv, doc, depth, skipCoarse);
      UnbuildableAll(cs[1..], ceiling, link, sv, doc, depth, skipCoarse, seqNum + 1);
    }
  }

  // A fallback that cannot be built is only found out by the first chunk that needs
  // it: then there is a recursion error, and until then nothing goes wrong.
  lemma UnbuildableFallback(cs: seq<Chunk>, ceiling: nat, link: ChunkerConfig, sv: Services, doc: Document, depth: nat,
                            skipCoarse: bool)
    requires !Buildable(link, sv) && depth <= 5
    ensures var r := Applied(cs, Some(ceiling), Some(link), sv, doc, depth, skipCoarse);
            && (r.RecursionError? <==>
                  exists c <- cs :: (|c.original| > ceiling || |c.embedded| > ceiling) && !(skipCoarse && IsCoarse(c)))
            && (r.Done? || r.RecursionError?)
  {
    assert MAX_RECURSION_DEPTH == 5;
    assert forall c <- cs :: Passes(c, ceiling, skipCoarse) <==>
             !((|c.original| > ceiling || |c.embedded| > ceiling) && !(skipCoarse && IsCoarse(c)));
    hide *;
    AppliedIs(cs, Some(ceiling), Some(link), sv, doc, depth, skipCoarse);
    UnbuildableAll(cs, ceiling, link, sv, doc, depth, skipCoarse, 0);
  }

  predicate HasButNumber(cs: seq<Chunk>, c: Chunk) {
    exists i :: 0 <= i < |cs| && cs[i] == c.(seqNum := cs[i].seqNum)
  }

  lemma HasInParts(a: seq<Chunk>, b: seq<Chunk>, c: Chunk)
    requires HasButNumber(a, c) || HasButNumber(b, c)
    ensures HasButNumber(a + b, c)
  {
    if i :| 0 <= i < |a| && a[i] == c.(seqNum := a[i].seqNum) {
      assert (a + b)[i] == a[i];
    } else {
      var i :| 0 <= i < |b| && b[i] == c.(seqNum := b[i].seqNum);
      assert (a + b)[|a| + i] == b[i];
    }
  }

  lemma ReplacedAllParts(cs: seq<Chunk>, ceiling: nat, link: ChunkerConfig, sv: Services, doc: Document, depth: nat,
                         skipCoarse: bool, seqNum: nat) returns (first: seq<Chunk>, rest: seq<Chunk>)
    requires cs != [] && ReplacedAll(cs, ceiling, Some(link), sv, doc, depth, skipCoarse, seqNum).Done?
    ensures Replaced(cs[0], ceiling, Some(link), sv, doc, depth, skipCoarse) == Done(first)
    ensures ReplacedAll(cs[1..], ceiling, Some(link), sv, doc, depth, skipCoarse, seqNum + |first|) == Done(rest)
    ensures ReplacedAll(cs, ceiling, Some(link), sv, doc, depth, skipCoarse, seqNum)
         == Done(Renumbered(first, seqNum) + rest)
  {
    hide Replaced, Renumbered;
    first := Replaced(cs[0], ceiling, Some(link), sv, doc, depth, skipCoarse).chunks;
    rest := ReplacedAll(cs[1..], ceiling, Some(link), sv, doc, depth, skipCoarse, seqNum + |first|).chunks;
  }

  lemma {:induction false} SkippedRowStays(cs: seq<Chunk>, ceiling: nat, link: ChunkerConfig, sv: Services,
                                           doc: Document, depth: nat, seqNum: nat, i: nat)
    requires i < |cs| && IsCoarse(cs[i])
    ensures var r := ReplacedAll(cs, ceiling, Some(link), sv, doc, depth, true, seqNum);
            r.Done? ==> HasButNumber(r.chunks, cs[i])
    decreases |cs|
  {
    hide *;
    if ReplacedAll(cs, ceiling, Some(link), sv, doc, depth, true, seqNum).Done? {
      var first, rest := ReplacedAllParts(cs, ceiling, link, sv, doc, depth, true, seqNum);
      if i == 0 {
        ReplacedCases(cs[0], ceiling, link, sv, doc, depth, true);
        OneButNumber(cs[0], seqNum);
      } else {
        SkippedRowStays(cs[1..], ceiling, link, sv, doc, depth, seqNum + |first|, i - 1);
      }
      HasInParts(Renumbered(first, seqNum), rest, cs[i]);
    }
  }

  lemma OneButNumber(c: Chunk, seqNum: nat)
    ensures HasButNumber(Renumbered([c], seqNum), c)
  {
    assert Renumbered([c], seqNum)[0] == c.(seqNum := seqNum);
  }

  // Every coarse row of a hierarchical summary, however long, comes out of its
  // oversize pass as it went in.
  lemma CoarseRowsStay(cfg: ChunkerConfig, sv: Services, doc: Document, i: nat)
    requires cfg.HierarchicalSummary? && Buildable(cfg, sv) && Raw(cfg, sv, doc).Done?
    requires i < |Raw(cfg, sv, doc).chunks| && IsCoarse(Raw(cfg, sv, doc).chunks[i])
    ensures var r := Chunked(cfg, sv, doc); r.Done? ==> HasButNumber(r.chunks, Raw(cfg, sv, doc).chunks[i])
  {
    hide *;
    ChunkedIs(cfg, sv, doc);
    var raw := Raw(cfg, sv, doc).chunks;
    AppliedIs(raw, cfg.Effective(), cfg.ifOversize, sv, doc, 0, true);
    if cfg.ifOversize.None? {
      WithoutFallback(cfg, sv, doc);
      ItselfButNumber(raw, i);
    } else if cfg.Effective().Some? {
      assert cfg.ifOversize == Some(cfg.ifOversize.value);
      SkippedRowStays(raw, cfg.Effective().value, cfg.ifOversize.value, sv, doc, 0, 0, i);
    } else {
      ItselfButNumber(raw, i);
    }
  }

  lemma ItselfButNumber(cs: seq<Chunk>, i: nat)
    requires i < |cs|
    ensures HasButNumber(cs, cs[i])
  {
  }

  // ---------- which ceiling, which fallback ----------

  // A wrapper's own ceiling bounds what it returns, and without one its base's does.
  lemma WrapperCeiling(cfg: ChunkerConfig, sv: Services, doc: Document)
    requires Buildable(cfg, sv) && (cfg.NeighborExpand? || cfg.SummaryEmbed?) && cfg.ifOversize.Some?
    ensures cfg.ceiling.Some? && EndsInCode(cfg.ifOversize.value, cfg.ceiling.value) ==>
              var r := Chunked(cfg, sv, doc); r.Done? ==> AllWithin(r.chunks, cfg.ceiling.value)
    ensures cfg.ceiling.None? && cfg.base.SentenceAware? && EndsInCode(cfg.ifOversize.value, cfg.base.maxChars) ==>
              var r := Chunked(cfg, sv, doc); r.Done? ==> AllWithin(r.chunks, cfg.base.maxChars)
  {
    assert cfg.ceiling.Some? ==> cfg.Effective() == cfg.ceiling;
    assert cfg.ceiling.None? && cfg.base.SentenceAware? ==> cfg.Effective() == Some(cfg.base.maxChars);
    hide Buildable, Chunked, Raw, EndsInCode;
    if cfg.Effective().Some? && EndsInCode(cfg.ifOversize.value, cfg.Effective().value) {
      ChunkedKeepsCeiling(cfg, sv, doc);
    }
  }

  // Consolidation has no oversize pass: its ceiling and its fallback change nothing.
  lemma ConsolidationIgnoresFallback(base: ChunkerConfig, k: nat, max: nat, ceiling: Option<nat>,
                                     link: Option<ChunkerConfig>, sv: Services, doc: Document)
    requires Buildable(base, sv)
    ensures Chunked(Consolidation(base, k, max, ceiling, link), sv, doc)
         == Chunked(Consolidation(base, k, max, None, None), sv, doc)
  {
    var a, b := Consolidation(base, k, max, ceiling, link), Consolidation(base, k, max, None, None);
    assert Raw(a, sv, doc) == Raw(b, sv, doc);
    hide *;
    ChunkedIs(a, sv, doc);
    ChunkedIs(b, sv, doc);
  }
}
