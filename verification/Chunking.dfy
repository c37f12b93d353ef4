// Documents to chunks: every chunker, the wrappers around it, and the oversize
// fallback that re-chunks what came out too long.
module Chunking {
  import opened Text
  import opened Packing
  import opened Splitting
  import opened Prose
  import opened WordWindows
  import opened SemanticSpans
  import opened Grouping
  import opened ChunkerConfigs

  // ---------- data ----------

  datatype Value = Str(s: string) | Num(n: nat) | Real(r: real)
  type Meta = map<string, Value>

  datatype Document = Document(id: string, content: string, title: Option<string>, meta: Meta)
  datatype Chunk = Chunk(docId: string, seqNum: nat, original: string, embedded: string, meta: Meta)
  datatype Heading = Heading(start: nat, end: nat, text: string)

  // The result of chunking. RecursionError is what `apply_if_oversize` returns;
  // `chunk` turns it into a panic.
  datatype Outcome = Done(chunks: seq<Chunk>) | RecursionError | Panicked

  // A triple a consolidator extracts, and what it returns for an episode.
  datatype Fact = Fact(subject: string, relation: string, target: string, support: Option<string>,
                       confidence: Option<real>)
  datatype Consolidated = Facts(facts: seq<Fact>) | ConsolidatorError(message: string)

  // What lives outside the model: regexes, sentence splitting, embeddings,
  // summarizers and consolidators.
  datatype Services = Services(
    proseHeadings: string -> seq<nat>,
    headings: (nat, string) -> seq<Heading>,
    patternCompiles: nat -> bool,
    sentences: string -> seq<string>,
    embeds: seq<string> -> bool,
    distance: (seq<string>, nat) -> real,
    summarizerBuilds: nat -> bool,
    summarize: (nat, string, Meta) -> Option<string>,
    summarizerMode: nat -> string,
    consolidatorMode: nat -> string,
    consolidate: (nat, Document) -> Consolidated
  )

  const MAX_RECURSION_DEPTH: nat := 5

  // ---------- building ----------

  // `build_chunker` succeeds.
  predicate Buildable(cfg: ChunkerConfig, sv: Services) {
    match cfg
    case SentenceAware(_, _, _, _) => true
    case Hierarchy(pattern, _, _, _, _) => sv.patternCompiles(pattern)
    case FixedOverlap(window, step, _, _) => window > 0 && step > 0
    case Semantic(p, minSentences, maxChars, naive, _) => naive && 1 <= p <= 99 && minSentences >= 1 && maxChars >= 100
    case NeighborExpand(base, _, _, _) => Buildable(base, sv)
    case SummaryEmbed(base, s, _, _) => Buildable(base, sv) && sv.summarizerBuilds(s)
    case HierarchicalSummary(base, s, _, _, _) => Buildable(base, sv) && sv.summarizerBuilds(s)
    case Consolidation(base, _, _, _, _) => Buildable(base, sv)
  }

  // ---------- chunk lists from texts ----------

  // One chunk per text, numbered from `seqNum`, both texts the same.
  function PlainChunks(docId: string, texts: seq<string>, meta: Meta, seqNum: nat): (cs: seq<Chunk>)
    ensures |cs| == |texts|
    ensures forall i :: 0 <= i < |cs| ==> cs[i] == Chunk(docId, seqNum + i, texts[i], texts[i], meta)
  {
    seq(|texts|, i requires 0 <= i < |texts| => Chunk(docId, seqNum + i, texts[i], texts[i], meta))
  }

  // ---------- sentence_aware ----------

  // Ordered matches of the heading regex; anything else counts as no match.
  function StartsIn(sv: Services, text: string): (starts: seq<nat>)
    ensures HeadingStarts(starts, text)
  {
    if HeadingStarts(sv.proseHeadings(text), text) then sv.proseHeadings(text) else []
  }

  // With max_chars 0 any text that is not blank reaches the assertion in
  // `split_to_max_chars`.
  function SentenceAwareChunks(code: bool, maxChars: nat, minChars: nat, sv: Services, doc: Document): Outcome {
    var meta := map["strategy" := Str("sentence_aware")];
    if maxChars == 0 then
      if Blank(doc.content) then Done([]) else Panicked
    else
      var texts := if code then PlainPieces(doc.content, maxChars)
                   else ProsePieces(doc.content, StartsIn(sv, doc.content), maxChars, minChars);
      Done(PlainChunks(doc.id, texts, meta, 0))
  }

  // ---------- hierarchy ----------

  predicate OrderedHeadings(hs: seq<Heading>, text: string) {
    && (forall i :: 0 <= i < |hs| ==> hs[i].start <= hs[i].end <= |text|)
    && (forall i :: 0 <= i < |hs| - 1 ==> hs[i].end <= hs[i + 1].start)
  }

  function HeadingsIn(sv: Services, pattern: nat, text: string): (hs: seq<Heading>)
    ensures OrderedHeadings(hs, text)
  {
    if OrderedHeadings(sv.headings(pattern, text), text) then sv.headings(pattern, text) else []
  }

  datatype Section = Section(heading: string, body: string)

  function TitleOf(doc: Document): string {
    if doc.title.Some? then doc.title.value else ""
  }

  // The sections from the i-th heading on that are long enough.
  function SectionsAfter(hs: seq<Heading>, text: string, minChars: nat, i: nat): seq<Section>
    requires OrderedHeadings(hs, text) && i <= |hs|
    decreases |hs| - i
  {
    if i == |hs| then []
    else
      var to := if i + 1 < |hs| then hs[i + 1].start else |text|;
      var body := Trim(text[hs[i].end..to]);
      (if |body| < minChars then [] else [Section(hs[i].text, body)]) + SectionsAfter(hs, text, minChars, i + 1)
  }

  function HierarchySections(pattern: nat, minChars: nat, sv: Services, doc: Document): seq<Section> {
    var hs := HeadingsIn(sv, pattern, doc.content);
    if hs == [] then
      var body := Trim(doc.content);
      if body == "" then [] else [Section(TitleOf(doc), body)]
    else
      var before := Trim(doc.content[..hs[0].start]);
      (if hs[0].start > 0 && |before| >= minChars then [Section(TitleOf(doc), before)] else [])
      + SectionsAfter(hs, doc.content, minChars, 0)
  }

  function SectionParts(body: string, maxChars: nat): seq<string> {
    if |body| > maxChars && maxChars > 0 then CappedPieces(body, maxChars) else [body]
  }

  function SectionChunk(docId: string, heading: string, prefix: bool, part: string, partNo: nat, seqNum: nat): Chunk {
    var embedded := if heading != "" && prefix then heading + BLANK_LINE + part else part;
    Chunk(docId, seqNum, part, embedded,
          map["strategy" := Str("hierarchy"), "heading" := Str(heading), "section_part" := Num(partNo)])
  }

  // `emit_section_chunks`.
  function EmitSection(docId: string, sec: Section, prefix: bool, maxChars: nat, startSeq: nat): seq<Chunk> {
    var parts := SectionParts(sec.body, maxChars);
    seq(|parts|, i requires 0 <= i < |parts| => SectionChunk(docId, sec.heading, prefix, parts[i], i, startSeq + i))
  }

  function EmitSections(docId: string, secs: seq<Section>, prefix: bool, maxChars: nat, startSeq: nat): seq<Chunk> {
    if secs == [] then []
    else
      var first := EmitSection(docId, secs[0], prefix, maxChars, startSeq);
      first + EmitSections(docId, secs[1..], prefix, maxChars, startSeq + |first|)
  }

  function HierarchyChunks(pattern: nat, prefix: bool, minChars: nat, maxChars: nat, sv: Services,
                           doc: Document): Outcome
  {
    var secs := HierarchySections(pattern, minChars, sv, doc);
    if maxChars == 0 && exists sec <- secs :: sec.body != "" then Panicked
    else Done(EmitSections(doc.id, secs, prefix, maxChars, 0))
  }

  // ---------- fixed_overlap ----------

  function WindowChunkAt(doc: Document, words: seq<Span>, g: Span, seqNum: nat): Chunk
    requires g.lo < g.hi <= |words| && InText(words, doc.content)
  {
    var text := WindowText(doc.content, words, g);
    Chunk(doc.id, seqNum, text, text,
          map["strategy" := Str("fixed_overlap"), "start_word" := Num(g.lo), "n_words" := Num(g.hi - g.lo)])
  }

  function FixedOverlapChunks(window: nat, step: nat, doc: Document): seq<Chunk>
    requires window > 0 && step > 0
  {
    var words := Words(doc.content, 0);
    var gs := Windows(|words|, window, step, 0);
    WordsAreInText(doc.content, 0);
    WindowsAreInRange(|words|, window, step, 0);
    seq(|gs|, i requires 0 <= i < |gs| => assert gs[i] in gs; WindowChunkAt(doc, words, gs[i], i))
  }

  // ---------- semantic ----------

  // The packing loop of `split_if_too_large`; `cur` is the piece being filled.
  function PackSentences(sents: seq<string>, cur: string, maxChars: nat): seq<string>
    requires maxChars > 0
  {
    if sents == [] then
      if cur == "" then []
      else if |cur| > maxChars then CharSlices(cur, maxChars)
      else [Trim(cur)]
    else
      var candidate := if cur == "" then sents[0] else Trim(cur + " " + sents[0]);
      if |candidate| > maxChars && cur != "" then [Trim(cur)] + PackSentences(sents[1..], sents[0], maxChars)
      else PackSentences(sents[1..], candidate, maxChars)
  }

  function SplitIfTooLarge(body: string, maxChars: nat, sv: Services): seq<string>
    requires maxChars > 0
  {
    if |body| <= maxChars then [body]
    else if sv.sentences(body) == [] then CharSlices(body, maxChars)
    else PackSentences(sv.sentences(body), "", maxChars)
  }

  function SpanTexts(sents: seq<string>, spans: seq<Span>, maxChars: nat, sv: Services): seq<string>
    requires maxChars > 0
  {
    if spans == [] then []
    else
      var body := Trim(Join(SliceOf(sents, spans[0]), " "));
      (if body == "" then [] else SplitIfTooLarge(body, maxChars, sv)) + SpanTexts(sents, spans[1..], maxChars, sv)
  }

  function SemanticChunks(p: nat, minSentences: nat, maxChars: nat, sv: Services, doc: Document): seq<Chunk>
    requires p <= 100 && maxChars > 0
  {
    var meta := map["strategy" := Str("semantic")];
    var sents := sv.sentences(doc.content);
    if Blank(doc.content) || sents == [] then []
    else if |sents| == 1 then PlainChunks(doc.id, SplitIfTooLarge(sents[0], maxChars, sv), meta, 0)
    else if !sv.embeds(sents) then PlainChunks(doc.id, [doc.content], meta, 0)
    else
      var distances := seq(|sents| - 1, i requires 0 <= i < |sents| - 1 => sv.distance(sents, i));
      PlainChunks(doc.id, SpanTexts(sents, CutSpans(distances, p, minSentences), maxChars, sv), meta, 0)
  }

  // ---------- wrappers ----------

  function Embeddeds(cs: seq<Chunk>): seq<string> {
    seq(|cs|, i requires 0 <= i < |cs| => cs[i].embedded)
  }

  function Originals(cs: seq<Chunk>): seq<string> {
    seq(|cs|, i requires 0 <= i < |cs| => cs[i].original)
  }

  // The i-th base chunk, embedded with its neighbours up to `window` away.
  function NeighborChunk(base: seq<Chunk>, window: nat, i: nat): Chunk
    requires i < |base|
  {
    var lo := if i >= window then i - window else 0;
    var hi := if i + window < |base| then i + window else |base| - 1;
    base[i].(embedded := Join(Embeddeds(base[lo..hi + 1]), BLANK_LINE),
             meta := base[i].meta["neighbor_expand_window" := Num(window)])
  }

  function NeighborChunks(base: seq<Chunk>, window: nat): seq<Chunk> {
    seq(|base|, i requires 0 <= i < |base| => NeighborChunk(base, window, i))
  }

  // None when a summary fails.
  function SummaryChunks(base: seq<Chunk>, s: nat, sv: Services, doc: Document): Option<seq<Chunk>> {
    if base == [] then Some([])
    else
      var summary := sv.summarize(s, base[0].original, doc.meta);
      var rest := SummaryChunks(base[1..], s, sv, doc);
      if summary.None? || rest.None? then None
      else
        var c := base[0].(embedded := summary.value, meta := base[0].meta["summarizer" := Str(sv.summarizerMode(s))]);
        Some([c] + rest.value)
  }

  function HeadingKey(c: Chunk): Option<string> {
    if "heading" in c.meta && c.meta["heading"].Str? then Some(c.meta["heading"].s) else None
  }

  function Grouped(cs: seq<Chunk>, grouping: GroupingConfig): seq<seq<Chunk>> {
    match grouping
    case FixedN(n) => FixedNGroups(cs, n)
    case WordBudget(m) =>
      WordBudgetGroups(cs, seq(|cs|, i requires 0 <= i < |cs| => |Words(cs[i].original, 0)|), m)
    case SectionAware => SectionGroups(cs, seq(|cs|, i requires 0 <= i < |cs| => HeadingKey(cs[i])))
  }

  function Decimal(n: nat): string {
    if n < 10 then ["0123456789"[n]] else Decimal(n / 10) + ["0123456789"[n % 10]]
  }

  function GroupId(docId: string, group: nat): string {
    docId + "::g" + Decimal(group)
  }

  function FineChunk(c: Chunk, groupId: string, mode: string, seqNum: nat): Chunk {
    c.(seqNum := seqNum,
       meta := c.meta["granularity" := Str("fine")]["group_id" := Str(groupId)]["summarizer" := Str(mode)])
  }

  function CoarseChunk(docId: string, group: seq<Chunk>, summary: string, groupId: string, mode: string,
                       seqNum: nat): Chunk
  {
    Chunk(docId, seqNum, Join(Originals(group), BLANK_LINE), summary,
          map["granularity" := Str("coarse"), "group_id" := Str(groupId),
              "summarizer" := Str(mode), "strategy" := Str("hierarchical_summary")])
  }

  function IsCoarse(c: Chunk): bool {
    "granularity" in c.meta && c.meta["granularity"] == Str("coarse")
  }

  // The rows of one group: its fine rows, then its coarse row.
  function GroupRows(group: seq<Chunk>, groupIdx: nat, summary: string, mode: string, doc: Document,
                     seqNum: nat): seq<Chunk>
  {
    var id := GroupId(doc.id, groupIdx);
    seq(|group|, i requires 0 <= i < |group| => FineChunk(group[i], id, mode, seqNum + i))
    + [CoarseChunk(doc.id, group, summary, id, mode, seqNum + |group|)]
  }

  // None when a summary fails.
  function SummaryRows(groups: seq<seq<Chunk>>, groupIdx: nat, s: nat, sv: Services, doc: Document,
                       seqNum: nat): Option<seq<Chunk>>
    decreases |groups|
  {
    if groups == [] then Some([])
    else
      var summary := sv.summarize(s, Join(Originals(groups[0]), BLANK_LINE), doc.meta);
      if summary.None? then None
      else
        var rows := GroupRows(groups[0], groupIdx, summary.value, sv.summarizerMode(s), doc, seqNum);
        var rest := SummaryRows(groups[1..], groupIdx + 1, s, sv, doc, seqNum + |rows|);
        if rest.None? then None else Some(rows + rest.value)
  }

  function HierarchicalSummaryChunks(base: seq<Chunk>, s: nat, grouping: GroupingConfig, sv: Services,
                                     doc: Document): seq<Chunk>
  {
    if base == [] then []
    else
      match SummaryRows(Grouped(base, grouping), 0, s, sv, doc, 0)
      case None => []
      case Some(rows) => rows
  }

  function Truncated(text: string, n: nat): string {
    if |text| <= n then text else text[..n]
  }

  // A document's session, unless the metadata names one already.
  function WithSession(m: Meta, doc: Document): Meta {
    if "session_id" in doc.meta && "session_id" !in m then m["session_id" := doc.meta["session_id"]] else m
  }

  function EndTime(doc: Document): real {
    if "episode_end_ts" !in doc.meta then 0.0
    else
      match doc.meta["episode_end_ts"]
      case Num(n) => n as real
      case Real(r) => r
      case Str(_) => 0.0
  }

  function Episode(c: Chunk, mode: string, doc: Document): Chunk {
    var m := WithSession(c.meta["kind" := Str("episode")]["extractor" := Str(mode)], doc);
    c.(meta := m["episode_end_ts" := Real(EndTime(doc))])
  }

  function Episodes(base: seq<Chunk>, mode: string, doc: Document): (cs: seq<Chunk>)
    ensures |cs| == |base|
    ensures forall i :: 0 <= i < |cs| ==> cs[i] == Episode(base[i], mode, doc)
  {
    seq(|base|, i requires 0 <= i < |base| => Episode(base[i], mode, doc))
  }

  function WithError(c: Chunk, message: string): Chunk {
    c.(meta := c.meta["consolidation_error" := Str(message)])
  }

  function FactText(f: Fact): string {
    Trim(f.subject) + " " + Trim(f.relation) + " " + Trim(f.target)
  }

  function FactMeta(f: Fact, i: nat, mode: string, maxChars: nat, doc: Document): Meta {
    var named := WithSession(map["kind" := Str("fact"), "extractor" := Str(mode)], doc)
                   ["subject" := Str(f.subject)]["predicate" := Str(f.relation)]["object" := Str(f.target)];
    var support := if f.support.Some? then Truncated(f.support.value, maxChars) else "";
    var backed := if support != "" then named["support_span" := Str(support)] else named;
    var rated := if f.confidence.Some? then backed["confidence" := Real(f.confidence.value)] else backed;
    rated["source_chunk_seq" := Num(i)]["episode_end_ts" := Real(EndTime(doc))]
  }

  // The i-th fact's chunk, after `episodes` episode chunks.
  function FactChunk(f: Fact, i: nat, mode: string, maxChars: nat, doc: Document, episodes: nat): Chunk {
    var text := Truncated(FactText(f), maxChars);
    Chunk(doc.id, episodes + i, text, text, FactMeta(f, i, mode, maxChars, doc))
  }

  // Episode chunks, then one chunk per fact; only the episodes, marked, when the
  // consolidator fails.
  function ConsolidationChunks(base: seq<Chunk>, consolidator: nat, maxChars: nat, sv: Services,
                               doc: Document): seq<Chunk>
  {
    var mode := sv.consolidatorMode(consolidator);
    var episodes := Episodes(base, mode, doc);
    match sv.consolidate(consolidator, doc)
    case ConsolidatorError(message) =>
      seq(|episodes|, i requires 0 <= i < |episodes| => WithError(episodes[i], message))
    case Facts(facts) =>
      episodes + seq(|facts|, i requires 0 <= i < |facts| => FactChunk(facts[i], i, mode, maxChars, doc, |episodes|))
  }

  // ---------- the oversize fallback ----------

  predicate Oversize(c: Chunk, ceiling: nat) {
    |c.embedded| > ceiling || |c.original| > ceiling
  }

  function Renumbered(cs: seq<Chunk>, seqNum: nat): (r: seq<Chunk>)
    ensures |r| == |cs|
    ensures forall i :: 0 <= i < |cs| ==> r[i] == cs[i].(seqNum := seqNum + i)
  {
    seq(|cs|, i requires 0 <= i < |cs| => cs[i].(seqNum := seqNum + i))
  }

  // A replacement chunk: the fallback's text in both fields, the parent's
  // metadata under the fallback's.
  function Replacements(c: Chunk, sub: seq<Chunk>): (r: seq<Chunk>)
    ensures |r| == |sub|
    ensures forall i :: 0 <= i < |sub| ==>
              r[i] == Chunk(c.docId, 0, sub[i].original, sub[i].original, c.meta + sub[i].meta)
  {
    seq(|sub|, i requires 0 <= i < |sub| => Chunk(c.docId, 0, sub[i].original, sub[i].original, c.meta + sub[i].meta))
  }

  function SynthDoc(c: Chunk, doc: Document): Document {
    Document(c.docId, c.original, doc.title, doc.meta)
  }

  // What one chunk becomes, before numbering.
  function Replaced(c: Chunk, ceiling: nat, link: Option<ChunkerConfig>, sv: Services, doc: Document, depth: nat,
                    skipCoarse: bool): Outcome
    decreases SizeOf(link), 2, 0
  {
    if (skipCoarse && IsCoarse(c)) || !Oversize(c, ceiling) || link.None? then Done([c])
    else if !Buildable(link.value, sv) then RecursionError
    else
      var synth := SynthDoc(c, doc);
      match Chunked(link.value, sv, synth)
      case Done(raw) =>
        (match Applied(raw, link.value.Effective(), link.value.ifOversize, sv, synth, depth + 1, false)
         case Done(sub) => Done(Replacements(c, sub))
         case failure => failure)
      case failure => failure
  }

  // All chunks replaced in order and renumbered from seqNum on.
  function ReplacedAll(cs: seq<Chunk>, ceiling: nat, link: Option<ChunkerConfig>, sv: Services, doc: Document,
                       depth: nat, skipCoarse: bool, seqNum: nat): Outcome
    decreases SizeOf(link), 3, |cs|
  {
    if cs == [] then Done([])
    else
      match Replaced(cs[0], ceiling, link, sv, doc, depth, skipCoarse)
      case Done(r) =>
        (match ReplacedAll(cs[1..], ceiling, link, sv, doc, depth, skipCoarse, seqNum + |r|)
         case Done(rest) => Done(Renumbered(r, seqNum) + rest)
         case failure => failure)
      case failure => failure
  }

  // `apply_if_oversize`.
  function Applied(cs: seq<Chunk>, ceiling: Option<nat>, link: Option<ChunkerConfig>, sv: Services, doc: Document,
                   depth: nat, skipCoarse: bool): Outcome
    decreases SizeOf(link), 4, 0
  {
    if depth > MAX_RECURSION_DEPTH then RecursionError
    else if ceiling.None? then Done(cs)
    else ReplacedAll(cs, ceiling.value, link, sv, doc, depth, skipCoarse, 0)
  }

  // ---------- chunking ----------

  // What a chunker produces before its oversize pass.
  function Raw(cfg: ChunkerConfig, sv: Services, doc: Document): Outcome
    requires Buildable(cfg, sv)
    decreases cfg.Size(), 0, 0
  {
    match cfg
    case SentenceAware(code, maxChars, minChars, _) => SentenceAwareChunks(code, maxChars, minChars, sv, doc)
    case Hierarchy(pattern, prefix, minChars, maxChars, _) =>
      HierarchyChunks(pattern, prefix, minChars, maxChars, sv, doc)
    case FixedOverlap(window, step, _, _) => Done(FixedOverlapChunks(window, step, doc))
    case Semantic(p, minSentences, maxChars, _, _) => Done(SemanticChunks(p, minSentences, maxChars, sv, doc))
    case NeighborExpand(base, window, _, _) =>
      (match Chunked(base, sv, doc)
       case Done(cs) => Done(NeighborChunks(cs, window))
       case failure => failure)
    case SummaryEmbed(base, s, _, _) =>
      (match Chunked(base, sv, doc)
       case Done(cs) =>
         var r := SummaryChunks(cs, s, sv, doc);
         Done(if r.Some? then r.value else [])
       case failure => failure)
    case HierarchicalSummary(base, s, grouping, _, _) =>
      (match Chunked(base, sv, doc)
       case Done(cs) => Done(HierarchicalSummaryChunks(cs, s, grouping, sv, doc))
       case failure => failure)
    case Consolidation(base, consolidator, factMaxChars, _, _) =>
      (match Chunked(base, sv, doc)
       case Done(cs) => Done(ConsolidationChunks(cs, consolidator, factMaxChars, sv, doc))
       case failure => failure)
  }

  // `chunk` of the chunker built from cfg. Consolidation has no oversize pass; a
  // recursion error panics.
  function Chunked(cfg: ChunkerConfig, sv: Services, doc: Document): Outcome
    requires Buildable(cfg, sv)
    decreases cfg.Size(), 1, 0
  {
    match Raw(cfg, sv, doc)
    case Done(raw) =>
      if cfg.Consolidation? then Done(raw)
      else
        (match Applied(raw, cfg.Effective(), cfg.ifOversize, sv, doc, 0, cfg.HierarchicalSummary?)
         case Done(cs) => Done(cs)
         case failure => Panicked)
    case failure => failure
  }

  // ---------- the loop of `apply_if_oversize` ----------

  function Prepended(out: seq<Chunk>, o: Outcome): Outcome {
    if o.Done? then Done(out + o.chunks) else o
  }

  // What the loop still has to add from the i-th chunk on.
  function ReplacedFrom(cs: seq<Chunk>, ceiling: nat, link: Option<ChunkerConfig>, sv: Services, doc: Document,
                        depth: nat, skipCoarse: bool, out: seq<Chunk>, i: nat): Outcome
    requires i <= |cs|
  {
    Prepended(out, ReplacedAll(cs[i..], ceiling, link, sv, doc, depth, skipCoarse, |out|))
  }

  lemma ReplacedFromStep(cs: seq<Chunk>, ceiling: nat, link: Option<ChunkerConfig>, sv: Services, doc: Document,
                         depth: nat, skipCoarse: bool, out: seq<Chunk>, i: nat)
    requires i < |cs|
    ensures var r := Replaced(cs[i], ceiling, link, sv, doc, depth, skipCoarse);
            ReplacedFrom(cs, ceiling, link, sv, doc, depth, skipCoarse, out, i) ==
            if r.Done? then
              ReplacedFrom(cs, ceiling, link, sv, doc, depth, skipCoarse, out + Renumbered(r.chunks, |out|), i + 1)
            else r
  {
    hide Replaced;
    assert cs[i..][0] == cs[i] && cs[i..][1..] == cs[i + 1..];
    var r := Replaced(cs[i], ceiling, link, sv, doc, depth, skipCoarse);
    if r.Done? {
      var n := Renumbered(r.chunks, |out|);
      var rest := ReplacedAll(cs[i + 1..], ceiling, link, sv, doc, depth, skipCoarse, |out| + |r.chunks|);
      if rest.Done? {
        assert out + (n + rest.chunks) == (out + n) + rest.chunks;
      }
    }
  }

  lemma ReplacedFromEnds(cs: seq<Chunk>, ceiling: nat, link: Option<ChunkerConfig>, sv: Services, doc: Document,
                         depth: nat, skipCoarse: bool, out: seq<Chunk>)
    ensures ReplacedFrom(cs, ceiling, link, sv, doc, depth, skipCoarse, out, |cs|) == Done(out)
    ensures ReplacedFrom(cs, ceiling, link, sv, doc, depth, skipCoarse, [], 0)
         == ReplacedAll(cs, ceiling, link, sv, doc, depth, skipCoarse, 0)
  {
    assert cs[|cs|..] == [] && cs[0..] == cs;
    var o := ReplacedAll(cs, ceiling, link, sv, doc, depth, skipCoarse, 0);
    assert o.Done? ==> [] + o.chunks == o.chunks;
    assert out + [] == out;
  }

  lemma AppliedIs(cs: seq<Chunk>, ceiling: Option<nat>, link: Option<ChunkerConfig>, sv: Services, doc: Document,
                  depth: nat, skipCoarse: bool)
    ensures Applied(cs, ceiling, link, sv, doc, depth, skipCoarse) ==
            if depth > MAX_RECURSION_DEPTH then RecursionError
            else if ceiling.None? then Done(cs)
            else ReplacedAll(cs, ceiling.value, link, sv, doc, depth, skipCoarse, 0)
  {
  }

  lemma ReplacedIs(c: Chunk, ceiling: nat, link: Option<ChunkerConfig>, sv: Services, doc: Document, depth: nat,
                   skipCoarse: bool)
    ensures Replaced(c, ceiling, link, sv, doc, depth, skipCoarse) ==
            if (skipCoarse && IsCoarse(c)) || !Oversize(c, ceiling) || link.None? then Done([c])
            else if !Buildable(link.value, sv) then RecursionError
            else
              var synth := SynthDoc(c, doc);
              match Chunked(link.value, sv, synth)
              case Done(raw) =>
                (match Applied(raw, link.value.Effective(), link.value.ifOversize, sv, synth, depth + 1, false)
                 case Done(sub) => Done(Replacements(c, sub))
                 case failure => failure)
              case failure => failure
  {
  }

  lemma SizeOfLink(c: ChunkerConfig)
    ensures SizeOf(c.ifOversize) < SizeOf(Some(c))
  {
  }

  method ApplyIfOversize(cs: seq<Chunk>, ceiling: Option<nat>, link: Option<ChunkerConfig>, sv: Services, doc: Document,
                         depth: nat, skipCoarse: bool) returns (r: Outcome)
    ensures r == Applied(cs, ceiling, link, sv, doc, depth, skipCoarse)
    decreases SizeOf(link)
  {
    hide *;
    AppliedIs(cs, ceiling, link, sv, doc, depth, skipCoarse);
    if depth > MAX_RECURSION_DEPTH {
      return RecursionError;
    }
    if ceiling.None? {
      return Done(cs);
    }
    var out: seq<Chunk> := [];
    var i := 0;
    ReplacedFromEnds(cs, ceiling.value, link, sv, doc, depth, skipCoarse, out);
    while i < |cs|
      invariant i <= |cs|
      invariant ReplacedFrom(cs, ceiling.value, link, sv, doc, depth, skipCoarse, out, i)
             == ReplacedAll(cs, ceiling.value, link, sv, doc, depth, skipCoarse, 0)
    {
      var c := cs[i];
      ReplacedFromStep(cs, ceiling.value, link, sv, doc, depth, skipCoarse, out, i);
      ReplacedIs(c, ceiling.value, link, sv, doc, depth, skipCoarse);
      if (skipCoarse && IsCoarse(c)) || !Oversize(c, ceiling.value) || link.None? {
        assert Renumbered([c], |out|) == [c.(seqNum := |out|)];
        out := out + [c.(seqNum := |out|)];
      } else if !Buildable(link.value, sv) {
        return RecursionError;
      } else {
        var synth := SynthDoc(c, doc);
        var raw := Chunked(link.value, sv, synth);
        if !raw.Done? {
          return raw;
        }
        assert link == Some(link.value);
        SizeOfLink(link.value);
        var inner := link.value;
        var sub := ApplyIfOversize(raw.chunks, inner.Effective(), inner.ifOversize, sv, synth, depth + 1, false);
        if !sub.Done? {
          return sub;
        }
        var j := 0;
        ghost var before := out;
        while j < |sub.chunks|
          invariant j <= |sub.chunks| && |out| == |before| + j
          invariant out == before + Renumbered(Replacements(c, sub.chunks), |before|)[..j]
        {
          var sc := sub.chunks[j];
          out := out + [Chunk(c.docId, |out|, sc.original, sc.original, c.meta + sc.meta)];
          j := j + 1;
        }
        assert out == before + Renumbered(Replacements(c, sub.chunks), |before|);
      }
      i := i + 1;
    }
    ReplacedFromEnds(cs, ceiling.value, link, sv, doc, depth, skipCoarse, out);
    return Done(out);
  }
}
