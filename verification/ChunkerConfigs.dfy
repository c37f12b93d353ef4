// The tree of chunker configurations: its ceilings, its validation in the two
// implementations, and what can be built from it.
module ChunkerConfigs {
  import opened Text

  datatype GroupingConfig = FixedN(n: nat) | WordBudget(maxWords: nat) | SectionAware

  // `maxChars` is a chunker's own limit; `ceiling` an optional override. Heading
  // patterns, summarizers and consolidators are known by number.
  datatype ChunkerConfig =
    | SentenceAware(code: bool, maxChars: nat, minChars: nat, ifOversize: Option<ChunkerConfig>)
    | Hierarchy(pattern: nat, prefixHeading: bool, minSectionChars: nat, maxChars: nat,
                ifOversize: Option<ChunkerConfig>)
    | FixedOverlap(windowWords: nat, stepWords: nat, ceiling: Option<nat>, ifOversize: Option<ChunkerConfig>)
    | Semantic(percentile: nat, minSentences: nat, maxChars: nat, naive: bool, ifOversize: Option<ChunkerConfig>)
    | NeighborExpand(base: ChunkerConfig, window: nat, ceiling: Option<nat>, ifOversize: Option<ChunkerConfig>)
    | SummaryEmbed(base: ChunkerConfig, summarizer: nat, ceiling: Option<nat>, ifOversize: Option<ChunkerConfig>)
    | HierarchicalSummary(base: ChunkerConfig, summarizer: nat, grouping: GroupingConfig, ceiling: Option<nat>,
                          ifOversize: Option<ChunkerConfig>)
    | Consolidation(base: ChunkerConfig, consolidator: nat, factMaxChars: nat, ceiling: Option<nat>,
                    ifOversize: Option<ChunkerConfig>)
  {
    predicate IsWrapper() {
      NeighborExpand? || SummaryEmbed? || HierarchicalSummary? || Consolidation?
    }

    // `effective_max_chars`.
    function Effective(): Option<nat> {
      if IsWrapper() then (if ceiling.Some? then ceiling else base.Effective())
      else if FixedOverlap? then ceiling
      else Some(maxChars)
    }

    // Number of configurations in the tree.
    function Size(): (n: nat)
      ensures n > 0
    {
      1 + (if IsWrapper() then base.Size() else 0) + SizeOf(ifOversize)
    }

    // Links in the fallback chain that starts here.
    function Links(): nat {
      match ifOversize
      case None => 0
      case Some(c) => 1 + c.Links()
    }

    // The rule both validators share: a fallback needs a ceiling to trigger it.
    predicate FallbackHasCeiling() {
      ifOversize.Some? ==> Effective().Some?
    }

    predicate SectionAwareOverHierarchy() {
      HierarchicalSummary? && grouping.SectionAware? ==> base.Hierarchy?
    }

    // The Rust consolidation config has no ceiling, and unknown fields are refused.
    predicate RustFields() {
      && (Consolidation? ==> ceiling.None?)
      && (ifOversize.Some? ==> ifOversize.value.RustFields())
      && (IsWrapper() ==> base.RustFields())
    }

    // Loads and passes `validate_chunker_config` in Rust.
    predicate RustValid() {
      && (Consolidation? ==> ceiling.None?)
      && FallbackHasCeiling()
      && (ifOversize.Some? ==> ifOversize.value.RustValid())
      && SectionAwareOverHierarchy()
      && (IsWrapper() ==> base.RustValid())
    }

    // Bounds pydantic puts on single fields.
    predicate FieldsInRange() {
      && (Semantic? ==> 1 <= percentile <= 99 && minSentences >= 1 && maxChars >= 100)
      && (HierarchicalSummary? && grouping.FixedN? ==> grouping.n >= 1)
      && (HierarchicalSummary? && grouping.WordBudget? ==> grouping.maxWords >= 50)
      && (Consolidation? ==> factMaxChars >= 1)
    }

    // The pydantic models: only the chunkers whose ceiling is optional check for
    // one, and consolidation takes no fallback at all.
    predicate PythonValid() {
      && FieldsInRange()
      && (FixedOverlap? || NeighborExpand? || SummaryEmbed? || HierarchicalSummary? ==> FallbackHasCeiling())
      && (Consolidation? ==> ifOversize.None?)
      && SectionAwareOverHierarchy()
      && (ifOversize.Some? ==> ifOversize.value.PythonValid())
      && (IsWrapper() ==> base.PythonValid())
    }

    // What Python asks for beyond the Rust rule, at every node.
    predicate PythonExtras() {
      && FieldsInRange()
      && (Consolidation? ==> ifOversize.None?)
      && (ifOversize.Some? ==> ifOversize.value.PythonExtras())
      && (IsWrapper() ==> base.PythonExtras())
    }

    // Every configuration in the tree that carries a fallback has a ceiling.
    predicate CeilingsEverywhere() {
      && FallbackHasCeiling()
      && (ifOversize.Some? ==> ifOversize.value.CeilingsEverywhere())
      && (IsWrapper() ==> base.CeilingsEverywhere())
    }
  }

  function SizeOf(link: Option<ChunkerConfig>): nat {
    match link
    case None => 0
    case Some(c) => c.Size()
  }

  // The configurations valid in Rust that keep their fields in range and put no
  // fallback on consolidation are exactly those valid in Python that Rust's fields
  // can express.
  lemma {:induction false} PythonValidIsRustValidAndMore(c: ChunkerConfig)
    ensures c.PythonValid() && c.RustFields() <==> c.RustValid() && c.PythonExtras()
  {
    if c.ifOversize.Some? {
      PythonValidIsRustValidAndMore(c.ifOversize.value);
    }
    if c.IsWrapper() {
      PythonValidIsRustValidAndMore(c.base);
    }
  }

  // Every validated configuration that carries a fallback has an effective
  // ceiling, whichever implementation validated it.
  lemma {:induction false} ValidatedFallbacksHaveCeilings(c: ChunkerConfig)
    requires c.PythonValid() || c.RustValid()
    ensures c.CeilingsEverywhere()
  {
    if c.ifOversize.Some? {
      ValidatedFallbacksHaveCeilings(c.ifOversize.value);
    }
    if c.IsWrapper() {
      ValidatedFallbacksHaveCeilings(c.base);
    }
  }

  const PROSE: ChunkerConfig := SentenceAware(false, 1500, 50, None)
  const WORDS: ChunkerConfig := FixedOverlap(200, 160, None, None)

  // The bounds pydantic has and Rust has not, each at its edge.
  lemma PythonBounds(n: nat, p: nat, min: nat, max: nat)
    ensures HierarchicalSummary(PROSE, 0, FixedN(n), None, None).PythonValid() <==> n >= 1
    ensures HierarchicalSummary(PROSE, 0, WordBudget(n), None, None).PythonValid() <==> n >= 50
    ensures Consolidation(PROSE, 0, n, None, None).PythonValid() <==> n >= 1
    ensures Semantic(p, min, max, true, None).PythonValid() <==> 1 <= p <= 99 && min >= 1 && max >= 100
    ensures HierarchicalSummary(PROSE, 0, FixedN(n), None, None).RustValid()
    ensures HierarchicalSummary(PROSE, 0, WordBudget(n), None, None).RustValid()
    ensures Consolidation(PROSE, 0, n, None, None).RustValid() && Semantic(p, min, max, true, None).RustValid()
  {
  }

  // A fallback that nothing can trigger is refused by both, a ceiling of the base
  // counts, and section-aware grouping goes with a hierarchy base only.
  lemma FallbackNeedsCeiling(ceiling: nat, heading: nat)
    ensures var f := Some(PROSE);
            && !FixedOverlap(200, 160, None, f).PythonValid() && !FixedOverlap(200, 160, None, f).RustValid()
            && FixedOverlap(200, 160, Some(ceiling), f).PythonValid()
            && FixedOverlap(200, 160, Some(ceiling), f).RustValid()
            && !NeighborExpand(WORDS, 1, None, f).PythonValid() && !NeighborExpand(WORDS, 1, None, f).RustValid()
            && NeighborExpand(PROSE, 1, None, f).PythonValid() && NeighborExpand(PROSE, 1, None, f).RustValid()
            && NeighborExpand(WORDS, 1, Some(ceiling), f).PythonValid()
            && NeighborExpand(WORDS, 1, Some(ceiling), f).RustValid()
    ensures !HierarchicalSummary(PROSE, 0, SectionAware, None, None).PythonValid()
    ensures !HierarchicalSummary(PROSE, 0, SectionAware, None, None).RustValid()
    ensures var base := Hierarchy(heading, true, 0, 1500, None);
            HierarchicalSummary(base, 0, SectionAware, None, None).PythonValid()
            && HierarchicalSummary(base, 0, SectionAware, None, None).RustValid()
  {
  }
}
