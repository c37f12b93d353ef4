// What the chunks of each chunker hold.
module ChunkContents {
  import opened Text
  import opened Packing
  import opened Splitting
  import opened SplitGuarantees
  import opened Prose
  import opened WordWindows
  import opened SemanticSpans
  import opened Grouping
  import opened ChunkerConfigs
  import opened Chunking
  import Buffering
  import ChunkLoops
  import opened FallbackContents

  // ---------- what can be built ----------

  // A configuration and the bases under it.
  function Spine(cfg: ChunkerConfig): seq<ChunkerConfig> {
    if cfg.IsWrapper() then [cfg] + Spine(cfg.base) else [cfg]
  }

  predicate BuildsAlone(node: ChunkerConfig, sv: Services) {
    && (node.Hierarchy? ==> sv.patternCompiles(node.pattern))
    && (node.FixedOverlap? ==> node.windowWords > 0 && node.stepWords > 0)
    && (node.Semantic? ==> node.naive)
    && (node.SummaryEmbed? || node.HierarchicalSummary? ==> sv.summarizerBuilds(node.summarizer))
  }

  predicate BuildsHere(node: ChunkerConfig, sv: Services) {
    BuildsAlone(node, sv) && (node.Semantic? ==> node.FieldsInRange())
  }

  lemma BuildsStep(cfg: ChunkerConfig, sv: Services)
    ensures cfg.IsWrapper() ==> (Buildable(cfg, sv) <==> BuildsHere(cfg, sv) && Buildable(cfg.base, sv))
    ensures !cfg.IsWrapper() ==> (Buildable(cfg, sv) <==> BuildsHere(cfg, sv))
  {
  }

  lemma {:induction false} LoadedInRange(cfg: ChunkerConfig)
    requires cfg.PythonValid()
    ensures forall node <- Spine(cfg) :: node.FieldsInRange()
    decreases cfg
  {
    if cfg.IsWrapper() {
      LoadedInRange(cfg.base);
    }
  }

  lemma {:induction false} BuildsDownTheSpine(cfg: ChunkerConfig, sv: Services)
    ensures Buildable(cfg, sv) <==> forall node <- Spine(cfg) :: BuildsHere(node, sv)
    decreases cfg
  {
    BuildsStep(cfg, sv);
    hide Buildable, BuildsHere;
    if cfg.IsWrapper() {
      BuildsDownTheSpine(cfg.base, sv);
      assert Spine(cfg) == [cfg] + Spine(cfg.base);
      assert forall node <- Spine(cfg) :: node == cfg || node in Spine(cfg.base);
      assert cfg in Spine(cfg) && forall node <- Spine(cfg.base) :: node in Spine(cfg);
    } else {
      assert Spine(cfg) == [cfg] && cfg in Spine(cfg);
    }
  }

  // What still fails to build once a configuration is loaded: a pattern that does not
  // compile, a window or step of 0, a splitter other than the naive one, a summarizer
  // that does not build, anywhere in its bases. Its fallbacks are not looked at. The
  // ranges a semantic chunker is built in are those it is loaded with.
  lemma {:induction false} BuildsExactly(cfg: ChunkerConfig, sv: Services)
    ensures Buildable(cfg, sv) <==>
              forall node <- Spine(cfg) :: BuildsAlone(node, sv) && (node.Semantic? ==> node.FieldsInRange())
    ensures cfg.PythonValid() ==> (Buildable(cfg, sv) <==> forall node <- Spine(cfg) :: BuildsAlone(node, sv))
  {
    BuildsDownTheSpine(cfg, sv);
    if cfg.PythonValid() {
      LoadedInRange(cfg);
    }
    hide Buildable, Spine, BuildsAlone;
  }

  // ---------- sentence_aware ----------

  // In prose mode a text longer than max with headings keeps exactly the pieces of at
  // least min characters; a text without headings, or one that fits, keeps all of its
  // content.
  lemma ProseChunksAreLongEnough(maxChars: nat, minChars: nat, sv: Services, doc: Document)
    requires maxChars > 0 && HeadingStarts(sv.proseHeadings(doc.content), doc.content)
    ensures var r, starts := SentenceAwareChunks(false, maxChars, minChars, sv, doc), sv.proseHeadings(doc.content);
            && r.Done?
            && (forall c <- r.chunks :: c.embedded == c.original && c.meta == map["strategy" := Str("sentence_aware")])
            && (starts == [] || |doc.content| <= maxChars ==> Content(r.chunks) == NonSpace(doc.content))
            && (starts != [] && |doc.content| > maxChars ==>
                  forall p :: p in Originals(r.chunks) <==>
                    p in AllPieces(doc.content, starts, maxChars) && |p| >= minChars)
  {
    var starts := sv.proseHeadings(doc.content);
    hide ProsePieces, AllPieces, HeadingStarts, NonSpace, Concat;
    var texts := ProsePieces(doc.content, starts, maxChars, minChars);
    var cs := PlainChunks(doc.id, texts, map["strategy" := Str("sentence_aware")], 0);
    assert Originals(cs) == texts;
    ProseKeepsContentExactly(doc.content, starts, maxChars, minChars);
    if starts != [] && |doc.content| > maxChars {
      ProseDropsExactlyShortPieces(doc.content, starts, maxChars, minChars);
    }
  }

  // ---------- fixed_overlap ----------

  lemma ChunkAtWindow(window: nat, step: nat, doc: Document, k: nat)
    requires window > 0 && step > 0 && k < |FixedOverlapChunks(window, step, doc)|
    ensures var words := Words(doc.content, 0);
            var gs := Windows(|words|, window, step, 0);
            && k < |gs| && gs[k].lo < gs[k].hi <= |words| && InText(words, doc.content)
            && FixedOverlapChunks(window, step, doc)[k] == WindowChunkAt(doc, words, gs[k], k)
  {
    var words := Words(doc.content, 0);
    var gs := Windows(|words|, window, step, 0);
    WordsAreInText(doc.content, 0);
    WindowsAreInRange(|words|, window, step, 0);
    hide Words, Windows, InText, WindowChunkAt;
    assert gs[k] in gs;
  }

  // The k-th chunk is the verbatim text of the words from k * step on, window of them
  // or as many as are left.
  lemma FixedOverlapChunkIs(window: nat, step: nat, doc: Document, k: nat)
    requires window > 0 && step > 0 && k < |FixedOverlapChunks(window, step, doc)|
    ensures var c, words := FixedOverlapChunks(window, step, doc)[k], Words(doc.content, 0);
            var first := k * step;
            var n := if first + window < |words| then window else |words| - first;
            && n > 0 && first + n <= |words|
            && words[first].lo <= words[first + n - 1].hi <= |doc.content|
            && c.original == c.embedded == doc.content[words[first].lo..words[first + n - 1].hi]
            && c.docId == doc.id && c.seqNum == k
            && c.meta == map["strategy" := Str("fixed_overlap"), "start_word" := Num(first), "n_words" := Num(n)]
  {
    hide Words, Windows, FixedOverlapChunks;
    ChunkAtWindow(window, step, doc, k);
    WindowAt(|Words(doc.content, 0)|, window, step, 0, k);
  }

  // How many there are.
  lemma FixedOverlapCount(window: nat, step: nat, doc: Document)
    requires window > 0 && step > 0
    ensures var n, m := |Words(doc.content, 0)|, |FixedOverlapChunks(window, step, doc)|;
            && (n == 0 ==> m == 0)
            && (0 < n <= window ==> m == 1)
            && (n > window && step <= window ==> (m - 2) * step < n - window <= (m - 1) * step)
            && (n > window && step > window ==> (m - 1) * step < n <= m * step)
  {
    hide Words, CeilDiv;
    WindowCount(|Words(doc.content, 0)|, window, step, 0);
    hide Windows;
  }

  // ---------- semantic ----------

  function SpacedEmit(sents: seq<string>): Span -> seq<string> {
    g => [Join(SliceOf(sents, g), " ")]
  }

  lemma SpacedEmits(sents: seq<string>, lo: nat, i: nat)
    requires lo <= i <= |sents|
    ensures SpacedEmit(sents)(Span(lo, i)) == [Join(sents[lo..i], " ")]
  {
  }

  lemma PackStep(sents: seq<string>, i: nat, cur: string, maxChars: nat)
    requires maxChars > 0 && i < |sents|
    ensures var candidate := if cur == "" then sents[i] else Trim(cur + " " + sents[i]);
            PackSentences(sents[i..], cur, maxChars) ==
            if |candidate| > maxChars && cur != "" then [Trim(cur)] + PackSentences(sents[i + 1..], sents[i], maxChars)
            else PackSentences(sents[i + 1..], candidate, maxChars)
  {
    hide Trim;
    assert sents[i..][1..] == sents[i + 1..] && sents[i..][0] == sents[i];
  }

  // `cur` holds the sentences lo..i, which fit.
  predicate Holds(sents: seq<string>, lo: nat, i: nat, cur: string, maxChars: nat) {
    && lo <= i <= |sents| && cur == Join(sents[lo..i], " ") && (cur == "" <==> lo == i)
    && Trimmed(cur) && |cur| <= maxChars
  }

  predicate Fitting(sents: seq<string>, maxChars: nat) {
    ChunkLoops.AreSentences(sents) && forall s <- sents :: |s| <= maxChars
  }

  // The pieces still to come from the i-th sentence on.
  function PackedFrom(sents: seq<string>, i: nat, cur: string, maxChars: nat): seq<string>
    requires maxChars > 0 && i <= |sents|
  {
    PackSentences(sents[i..], cur, maxChars)
  }

  function GroupsFrom(sents: seq<string>, lo: nat, i: nat, maxChars: nat): seq<string>
    requires lo <= i <= |sents|
  {
    Buffering.Remaining(sents, " ", maxChars, SpacedEmit(sents), lo, i)
  }

  function Longer(cur: string, s: string): string {
    if cur == "" then s else cur + " " + s
  }

  lemma PackEnds(sents: seq<string>, lo: nat, cur: string, maxChars: nat)
    requires maxChars > 0 && Holds(sents, lo, |sents|, cur, maxChars)
    ensures PackedFrom(sents, |sents|, cur, maxChars) == GroupsFrom(sents, lo, |sents|, maxChars)
  {
    var emit := SpacedEmit(sents);
    var all := Buffering.Remaining(sents, " ", maxChars, emit, lo, |sents|);
    TrimmedIsFixed(cur);
    SpacedEmits(sents, lo, |sents|);
    ChunkLoops.PackSentencesEnd(sents, cur, maxChars);
    hide Trim, Trimmed, Join, Buffering.Remaining, PackSentences, SpacedEmit;
    assert Buffering.Buffered(sents, " ", maxChars, emit, all, [], cur, lo, |sents|);
    Buffering.End(sents, " ", maxChars, emit, all, [], cur, lo);
  }

  lemma HoldsOne(sents: seq<string>, i: nat, maxChars: nat)
    requires Fitting(sents, maxChars) && i < |sents|
    ensures Holds(sents, i, i + 1, sents[i], maxChars) && sents[i] != "" && Trimmed(sents[i])
  {
    assert sents[i] in sents;
    Buffering.JoinGrows(sents, " ", i, i);
    hide Join;
  }

  lemma PackFlushes(sents: seq<string>, lo: nat, i: nat, cur: string, maxChars: nat)
    requires maxChars > 0 && Fitting(sents, maxChars) && Holds(sents, lo, i, cur, maxChars)
    requires i < |sents| && cur != "" && |Longer(cur, sents[i])| > maxChars
    ensures PackedFrom(sents, i, cur, maxChars) == [cur] + PackedFrom(sents, i + 1, sents[i], maxChars)
    ensures GroupsFrom(sents, lo, i, maxChars) == [cur] + GroupsFrom(sents, i, i + 1, maxChars)
  {
    var emit := SpacedEmit(sents);
    var all := Buffering.Remaining(sents, " ", maxChars, emit, lo, i);
    HoldsOne(sents, i, maxChars);
    ChunkLoops.SpacedIsTrimmed(cur, sents[i]);
    TrimmedIsFixed(cur);
    SpacedEmits(sents, lo, i);
    PackStep(sents, i, cur, maxChars);
    hide Trim, Trimmed, Buffering.Remaining, PackSentences, SpacedEmit, Fitting;
    assert Join(sents[i..i], " ") == "";
    hide Join;
    assert Buffering.Buffered(sents, " ", maxChars, emit, all, [], cur, lo, i);
    Buffering.Flush(sents, " ", maxChars, emit, all, [], cur, lo, i);
    FlushedIs(sents, maxChars, emit, all, cur, lo, i);
    RemainingTakes(sents, maxChars, emit, "", i, i);
  }

  lemma PackTakes(sents: seq<string>, lo: nat, i: nat, cur: string, maxChars: nat)
    requires maxChars > 0 && Fitting(sents, maxChars) && Holds(sents, lo, i, cur, maxChars)
    requires i < |sents| && (cur == "" || |Longer(cur, sents[i])| <= maxChars)
    ensures PackedFrom(sents, i, cur, maxChars) == PackedFrom(sents, i + 1, Longer(cur, sents[i]), maxChars)
    ensures GroupsFrom(sents, lo, i, maxChars) == GroupsFrom(sents, lo, i + 1, maxChars)
    ensures Holds(sents, lo, i + 1, Longer(cur, sents[i]), maxChars)
  {
    HoldsOne(sents, i, maxChars);
    if cur != "" {
      ChunkLoops.SpacedIsTrimmed(cur, sents[i]);
    }
    PackStep(sents, i, cur, maxChars);
    Buffering.JoinGrows(sents, " ", lo, i);
    hide Trim, Trimmed, Buffering.Remaining, PackSentences, SpacedEmit, Fitting, Join;
    RemainingTakes(sents, maxChars, SpacedEmit(sents), cur, lo, i);
  }

  // What is still to come when the sentences lo..i are in `cur`.
  lemma {:induction false} PackIsGreedy(sents: seq<string>, lo: nat, i: nat, cur: string, maxChars: nat)
    requires lo <= i <= |sents| && maxChars > 0 && Fitting(sents, maxChars) && Holds(sents, lo, i, cur, maxChars)
    ensures PackedFrom(sents, i, cur, maxChars) == GroupsFrom(sents, lo, i, maxChars)
    decreases |sents| - i
  {
    hide *;
    if i == |sents| {
      PackEnds(sents, lo, cur, maxChars);
    } else if cur != "" && |Longer(cur, sents[i])| > maxChars {
      PackFlushes(sents, lo, i, cur, maxChars);
      HoldsOne(sents, i, maxChars);
      PackIsGreedy(sents, i, i + 1, sents[i], maxChars);
    } else {
      PackTakes(sents, lo, i, cur, maxChars);
      PackIsGreedy(sents, lo, i + 1, Longer(cur, sents[i]), maxChars);
    }
  }

  // When every sentence fits, the pieces of a span that is too long are consecutive
  // sentences joined by spaces, within max, and no such joining has fewer pieces.
  lemma PackedIsFewestJoins(sents: seq<string>, maxChars: nat, spans: seq<Span>)
    requires maxChars > 0 && Fitting(sents, maxChars) && Tiles(spans, 0, |sents|)
    requires forall g <- spans :: g.lo < g.hi <= |sents| && |Join(sents[g.lo..g.hi], " ")| <= maxChars
    ensures var pieces := PackSentences(sents, "", maxChars);
            && |pieces| <= |spans|
            && forall p <- pieces :: |p| <= maxChars && exists g: Span ::
                 g.lo < g.hi <= |sents| && p == Join(sents[g.lo..g.hi], " ")
  {
    var emit, pieces := SpacedEmit(sents), PackSentences(sents, "", maxChars);
    assert sents[0..] == sents && Holds(sents, 0, 0, "", maxChars);
    PackIsGreedy(sents, 0, 0, "", maxChars);
    assert pieces == PackedFrom(sents, 0, "", maxChars) && GroupsFrom(sents, 0, 0, maxChars)
        == Buffering.PackedText(sents, " ", maxChars, emit);
    hide PackSentences, Join, Buffering.PackedText;
    Buffering.PackedIsFewest(sents, " ", maxChars, emit, spans);
    forall p <- pieces
      ensures |p| <= maxChars && exists g: Span :: g.lo < g.hi <= |sents| && p == Join(sents[g.lo..g.hi], " ")
    {
      var g := Buffering.ComesFromGroup(sents, " ", maxChars, emit, p);
      assert p == Join(sents[g.lo..g.hi], " ");
      if g.hi == g.lo + 1 {
        Buffering.JoinGrows(sents, " ", g.lo, g.lo);
        assert sents[g.lo] in sents;
      }
    }
  }

  // A span that fits is one piece. Of one that is too long, some piece exceeds max
  // exactly when a sentence other than the last does; one without sentences is cut
  // at max.
  lemma SpanPiecesFitExactly(body: string, maxChars: nat, sv: Services)
    requires maxChars > 0 && ChunkLoops.AreSentences(sv.sentences(body))
    ensures var sents, pieces := sv.sentences(body), SplitIfTooLarge(body, maxChars, sv);
            && (|body| <= maxChars ==> pieces == [body])
            && (|body| > maxChars && sents == [] ==>
                  Concat(pieces) == body && forall i :: 0 <= i < |pieces| - 1 ==> |pieces[i]| == maxChars)
            && ((exists p <- pieces :: |p| > maxChars) <==>
                  |body| > maxChars && exists i :: 0 <= i < |sents| - 1 && |sents[i]| > maxChars)
  {
    var sents := sv.sentences(body);
    CharSlicesKeepText(body, maxChars);
    if sents != [] {
      ChunkLoops.PackedOverflowsExactly(sents, maxChars);
    }
    hide CharSlices, PackSentences, Concat;
  }

  lemma RemainingTakes(sents: seq<string>, maxChars: nat, emit: Span -> seq<string>, cur: string, lo: nat, i: nat)
    requires lo <= i < |sents| && cur == Join(sents[lo..i], " ") && (cur == "" <==> lo == i) && sents[i] != ""
    requires cur == "" || |cur| + 1 + |sents[i]| <= maxChars
    ensures Buffering.Remaining(sents, " ", maxChars, emit, lo, i)
         == Buffering.Remaining(sents, " ", maxChars, emit, lo, i + 1)
  {
    var all := Buffering.Remaining(sents, " ", maxChars, emit, lo, i);
    hide Join, Buffering.Remaining;
    Buffering.Take(sents, " ", maxChars, emit, all, [], cur, lo, i);
    assert [] + Buffering.Remaining(sents, " ", maxChars, emit, lo, i + 1)
        == Buffering.Remaining(sents, " ", maxChars, emit, lo, i + 1);
  }

  lemma FlushedIs(sents: seq<string>, maxChars: nat, emit: Span -> seq<string>, all: seq<string>, cur: string, lo: nat,
                  i: nat)
    requires Buffering.Buffered(sents, " ", maxChars, emit, all, [] + emit(Span(lo, i)), "", i, i)
    ensures all == emit(Span(lo, i)) + Buffering.Remaining(sents, " ", maxChars, emit, i, i)
  {
    assert [] + emit(Span(lo, i)) == emit(Span(lo, i));
  }

  // Sentence splitting that loses whitespace only.
  ghost predicate SentencesKeepContent(sv: Services) {
    forall text :: NonSpace(Concat(sv.sentences(text))) == NonSpace(text)
  }

  lemma SplitKeepsContent(body: string, maxChars: nat, sv: Services)
    requires maxChars > 0 && SentencesKeepContent(sv)
    ensures NonSpace(Concat(SplitIfTooLarge(body, maxChars, sv))) == NonSpace(body)
  {
    ConcatOfOne(body);
    CharSlicesKeepText(body, maxChars);
    var empty := NonSpace("");
    assert empty == "" && "" + NonSpace(Concat(sv.sentences(body))) == NonSpace(Concat(sv.sentences(body)));
    hide NonSpace, Concat, CharSlices, PackSentences;
    ChunkLoops.PackedKeepsContent(sv.sentences(body), "", maxChars);
  }

  // The text of a span of sentences.
  function SpanBody(sents: seq<string>, g: Span): string {
    Trim(Join(SliceOf(sents, g), " "))
  }

  lemma SpanTextsStep(sents: seq<string>, spans: seq<Span>, maxChars: nat, sv: Services)
    requires maxChars > 0
    ensures SpanTexts(sents, [], maxChars, sv) == []
    ensures spans != [] ==>
              var body := SpanBody(sents, spans[0]);
              SpanTexts(sents, spans, maxChars, sv)
                == (if body == "" then [] else SplitIfTooLarge(body, maxChars, sv))
                   + SpanTexts(sents, spans[1..], maxChars, sv)
  {
    hide Trim, Join, SplitIfTooLarge, SliceOf;
  }

  lemma NoContent()
    ensures NonSpace("") == "" && Concat([]) == ""
  {
  }

  lemma {:induction false} SpanTextsKeepContent(sents: seq<string>, spans: seq<Span>, maxChars: nat, sv: Services,
                                                lo: nat)
    requires maxChars > 0 && SentencesKeepContent(sv) && lo <= |sents| && Tiles(spans, lo, |sents|)
    ensures NonSpace(Concat(SpanTexts(sents, spans, maxChars, sv))) == NonSpace(Concat(sents[lo..]))
    decreases |spans|
  {
    hide NonSpace, Concat, SpanTexts, SpanBody, SentencesKeepContent, SplitIfTooLarge;
    SpanTextsStep(sents, spans, maxChars, sv);
    if spans == [] {
      assert sents[lo..] == [];
      NoContent();
    } else {
      var g := spans[0];
      var part, rest, body := sents[lo..g.hi], SpanTexts(sents, spans[1..], maxChars, sv), SpanBody(sents, g);
      SpanTextsKeepContent(sents, spans[1..], maxChars, sv, g.hi);
      assert sents[lo..] == part + sents[g.hi..];
      SpanContent(sents, g, maxChars, sv);
      ContentOfParts(if body == "" then [] else SplitIfTooLarge(body, maxChars, sv), rest, Concat(part),
                     Concat(sents[g.hi..]));
      ConcatAppend(part, sents[g.hi..]);
    }
  }

  lemma SpanContent(sents: seq<string>, g: Span, maxChars: nat, sv: Services)
    requires maxChars > 0 && SentencesKeepContent(sv) && g.lo <= g.hi <= |sents|
    ensures var body := SpanBody(sents, g);
            NonSpace(Concat(if body == "" then [] else SplitIfTooLarge(body, maxChars, sv)))
              == NonSpace(Concat(sents[g.lo..g.hi]))
  {
    var part, body := sents[g.lo..g.hi], SpanBody(sents, g);
    TrimContent(Join(part, " "));
    assert Blank(" ");
    JoinContent(part, " ");
    SplitKeepsContent(body, maxChars, sv);
    NoContent();
    hide NonSpace, Concat, SplitIfTooLarge, Trim, Join;
  }

  // The content of the sentences of a text, and of no chunks.
  lemma SentencesContent(text: string, sv: Services)
    requires SentencesKeepContent(sv)
    ensures NonSpace(Concat(sv.sentences(text))) == NonSpace(text)
    ensures Blank(text) || sv.sentences(text) == [] ==> NonSpace(text) == ""
    ensures Content([]) == ""
  {
    BlankHasNoContent(text);
    assert Originals([]) == [] && Concat([]) == "" && NonSpace("") == "";
  }

  // The semantic chunker keeps every character that is not whitespace, in order,
  // wherever the distances tell it to cut.
  lemma SemanticKeepsContent(p: nat, minSentences: nat, maxChars: nat, sv: Services, doc: Document)
    requires p <= 100 && maxChars > 0 && SentencesKeepContent(sv)
    ensures Content(SemanticChunks(p, minSentences, maxChars, sv, doc)) == NonSpace(doc.content)
  {
    hide NonSpace, Concat, CutSpans, SpanTexts, SplitIfTooLarge, Blank, SentencesKeepContent, PlainChunks, Originals;
    var sents := sv.sentences(doc.content);
    SentencesContent(doc.content, sv);
    if Blank(doc.content) || sents == [] {
    } else if |sents| == 1 {
      SplitKeepsContent(sents[0], maxChars, sv);
      ConcatOfOne(sents[0]);
      assert sents == [sents[0]];
      PlainContent(doc.id, SplitIfTooLarge(sents[0], maxChars, sv));
    } else if !sv.embeds(sents) {
      ConcatOfOne(doc.content);
      PlainContent(doc.id, [doc.content]);
    } else {
      var distances := seq(|sents| - 1, i requires 0 <= i < |sents| - 1 => sv.distance(sents, i));
      CutSpansPartition(distances, p, minSentences);
      SpanTextsKeepContent(sents, CutSpans(distances, p, minSentences), maxChars, sv, 0);
      assert sents[0..] == sents;
      PlainContent(doc.id, SpanTexts(sents, CutSpans(distances, p, minSentences), maxChars, sv));
    }
  }

  lemma PlainContent(docId: string, texts: seq<string>)
    ensures Content(PlainChunks(docId, texts, map["strategy" := Str("semantic")], 0)) == NonSpace(Concat(texts))
  {
    assert Originals(PlainChunks(docId, texts, map["strategy" := Str("semantic")], 0)) == texts;
  }

  lemma {:induction false} SpanTextsAre(sents: seq<string>, spans: seq<Span>, maxChars: nat, sv: Services)
    requires maxChars > 0 && forall g <- spans :: 0 < |SpanBody(sents, g)| <= maxChars
    ensures var texts := SpanTexts(sents, spans, maxChars, sv);
            |texts| == |spans| && forall k :: 0 <= k < |spans| ==> texts[k] == SpanBody(sents, spans[k])
    decreases |spans|
  {
    hide SpanTexts, SpanBody;
    SpanTextsStep(sents, spans, maxChars, sv);
    if spans != [] {
      assert spans[0] in spans && forall g <- spans[1..] :: g in spans;
      SpanTextsAre(sents, spans[1..], maxChars, sv);
    }
  }

  // Where the distances between neighbouring sentences tell the chunker to cut.
  function SpansOf(p: nat, minSentences: nat, sv: Services, sents: seq<string>): seq<Span>
    requires p <= 100 && |sents| > 1
  {
    CutSpans(seq(|sents| - 1, i requires 0 <= i < |sents| - 1 => sv.distance(sents, i)), p, minSentences)
  }

  lemma SemanticTexts(p: nat, minSentences: nat, maxChars: nat, sv: Services, doc: Document)
    requires p <= 100 && maxChars > 0 && !Blank(doc.content)
    requires |sv.sentences(doc.content)| > 1 && sv.embeds(sv.sentences(doc.content))
    ensures var sents, cs := sv.sentences(doc.content), SemanticChunks(p, minSentences, maxChars, sv, doc);
            var texts := SpanTexts(sents, SpansOf(p, minSentences, sv, sents), maxChars, sv);
            |cs| == |texts| && forall k :: 0 <= k < |cs| ==> cs[k].original == cs[k].embedded == texts[k]
  {
    hide CutSpans, SpanTexts, Blank;
  }

  // When every span's text fits, the chunks are the spans: one each, its sentences
  // joined by spaces.
  lemma SemanticChunksAreSpans(p: nat, minSentences: nat, maxChars: nat, sv: Services, doc: Document)
    requires p <= 100 && maxChars > 0 && !Blank(doc.content)
    requires |sv.sentences(doc.content)| > 1 && sv.embeds(sv.sentences(doc.content))
    requires var sents := sv.sentences(doc.content);
             forall g <- SpansOf(p, minSentences, sv, sents) :: 0 < |SpanBody(sents, g)| <= maxChars
    ensures var sents, cs := sv.sentences(doc.content), SemanticChunks(p, minSentences, maxChars, sv, doc);
            var spans := SpansOf(p, minSentences, sv, sents);
            && |cs| == |spans|
            && forall k :: 0 <= k < |spans| ==> cs[k].original == cs[k].embedded == SpanBody(sents, spans[k])
  {
    hide *;
    SemanticTexts(p, minSentences, maxChars, sv, doc);
    var sents := sv.sentences(doc.content);
    SpanTextsAre(sents, SpansOf(p, minSentences, sv, sents), maxChars, sv);
  }

  // A text of one sentence that fits is one chunk, and so is a text whose embedding
  // fails.
  lemma SemanticFallsBack(p: nat, minSentences: nat, maxChars: nat, sv: Services, doc: Document)
    requires p <= 100 && maxChars > 0 && !Blank(doc.content)
    ensures var sents, cs := sv.sentences(doc.content), SemanticChunks(p, minSentences, maxChars, sv, doc);
            && (|sents| == 1 && |sents[0]| <= maxChars ==> Originals(cs) == [sents[0]])
            && (|sents| > 1 && !sv.embeds(sents) ==> Originals(cs) == [doc.content])
  {
  }
}
