// Which stretch of the text, and which heading, each chunk of the hierarchy chunker
// comes from, and when all of the text between headings is kept.
module HierarchyContents {
  import opened Text
  import opened Splitting
  import opened SplitGuarantees
  import opened Prose
  import opened Chunking
  import opened FallbackContents

  // ---------- the text between headings ----------

  // The k-th stretch: before the first heading, then after each one.
  function Stretch(hs: seq<Heading>, text: string, k: nat): string
    requires OrderedHeadings(hs, text) && k <= |hs|
  {
    var from := if k == 0 then 0 else hs[k - 1].end;
    var to := if k < |hs| then hs[k].start else |text|;
    assert 0 < k < |hs| ==> hs[k - 1].end <= hs[k - 1 + 1].start;
    text[from..to]
  }

  // What is above it: the title, or its heading.
  function HeadingOf(hs: seq<Heading>, doc: Document, k: nat): string
    requires k <= |hs|
  {
    if k > 0 then hs[k - 1].text else if doc.title.Some? then doc.title.value else ""
  }

  function SectionAt(hs: seq<Heading>, doc: Document, k: nat): Section
    requires OrderedHeadings(hs, doc.content) && k <= |hs|
  {
    Chunking.Section(HeadingOf(hs, doc, k), Trim(Stretch(hs, doc.content, k)))
  }

  lemma SectionsAfterStep(hs: seq<Heading>, text: string, minChars: nat, i: nat)
    requires OrderedHeadings(hs, text) && i < |hs|
    ensures var body := Trim(Stretch(hs, text, i + 1));
            SectionsAfter(hs, text, minChars, i)
              == (if |body| < minChars then [] else [Chunking.Section(hs[i].text, body)])
                 + SectionsAfter(hs, text, minChars, i + 1)
  {
    hide Trim;
  }

  // ---------- the sections ----------

  // The sections from the k-th stretch on are those of at least min characters.
  lemma {:induction false} SectionsAfterAre(hs: seq<Heading>, doc: Document, minChars: nat, i: nat, sec: Section)
    requires OrderedHeadings(hs, doc.content) && i <= |hs|
    ensures sec in SectionsAfter(hs, doc.content, minChars, i)
       <==> exists k: nat :: i < k <= |hs| && sec == SectionAt(hs, doc, k) && |sec.body| >= minChars
    decreases |hs| - i
  {
    if i < |hs| {
      SectionsAfterStep(hs, doc.content, minChars, i);
      SectionsAfterAre(hs, doc, minChars, i + 1, sec);
      hide SectionsAfter, Stretch, Trim, OrderedHeadings;
      var body := Trim(Stretch(hs, doc.content, i + 1));
      assert SectionAt(hs, doc, i + 1) == Chunking.Section(hs[i].text, body);
    }
  }

  lemma HierarchySectionsIs(pattern: nat, minChars: nat, sv: Services, doc: Document)
    requires OrderedHeadings(sv.headings(pattern, doc.content), doc.content) && sv.headings(pattern, doc.content) != []
    ensures var hs := sv.headings(pattern, doc.content);
            HierarchySections(pattern, minChars, sv, doc)
              == (if hs[0].start > 0 && |SectionAt(hs, doc, 0).body| >= minChars then [SectionAt(hs, doc, 0)] else [])
                 + SectionsAfter(hs, doc.content, minChars, 0)
  {
    hide SectionsAfter, Trim;
    var first := sv.headings(pattern, doc.content)[0].start;
    assert doc.content[0..first] == doc.content[..first];
  }

  // A section is a trimmed stretch of at least min characters with the heading above
  // it; the stretch before the first heading counts when there is one.
  lemma SectionsAreStretches(pattern: nat, minChars: nat, sv: Services, doc: Document, sec: Section)
    requires OrderedHeadings(sv.headings(pattern, doc.content), doc.content) && sv.headings(pattern, doc.content) != []
    ensures var hs := sv.headings(pattern, doc.content);
            sec in HierarchySections(pattern, minChars, sv, doc) <==>
              exists k: nat ::
                k <= |hs| && sec == SectionAt(hs, doc, k) && |sec.body| >= minChars && (k == 0 ==> hs[0].start > 0)
  {
    HierarchySectionsIs(pattern, minChars, sv, doc);
    var hs := sv.headings(pattern, doc.content);
    SectionsAfterAre(hs, doc, minChars, 0, sec);
    hide SectionsAfter, HierarchySections, SectionAt, OrderedHeadings;
  }

  // ---------- the chunks of a section ----------

  // c is the j-th part of a section: the body itself or, when it is too long, one of
  // its pieces, embedded below the heading when that is asked for.
  predicate IsPart(c: Chunk, docId: string, sec: Section, prefix: bool, maxChars: nat, j: nat)
    requires maxChars > 0
  {
    var parts := if |sec.body| <= maxChars then [sec.body] else CappedPieces(sec.body, maxChars);
    && j < |parts| && c.original == parts[j] && c.docId == docId
    && c.embedded == (if prefix && sec.heading != "" then sec.heading + "\n\n" + parts[j] else parts[j])
    && c.meta == map["strategy" := Str("hierarchy"), "heading" := Str(sec.heading), "section_part" := Num(j)]
  }

  lemma EmitSectionIs(docId: string, sec: Section, prefix: bool, maxChars: nat, startSeq: nat)
    requires maxChars > 0
    ensures var cs := EmitSection(docId, sec, prefix, maxChars, startSeq);
            && (forall j :: 0 <= j < |cs| ==> IsPart(cs[j], docId, sec, prefix, maxChars, j))
            && (|sec.body| <= maxChars ==> |cs| == 1)
  {
    hide CappedPieces;
  }

  lemma EmittedContent(docId: string, sec: Section, prefix: bool, maxChars: nat, startSeq: nat)
    requires maxChars > 0
    ensures Content(EmitSection(docId, sec, prefix, maxChars, startSeq)) == NonSpace(sec.body)
  {
    var cs, parts := EmitSection(docId, sec, prefix, maxChars, startSeq), SectionParts(sec.body, maxChars);
    hide CappedPieces, NonSpace, Concat;
    CappedPiecesKeepContent(sec.body, maxChars);
    ConcatOfOne(sec.body);
    assert Originals(cs) == parts;
  }

  // Every chunk is a part of some section.
  lemma {:induction false} ChunksAreParts(docId: string, secs: seq<Section>, prefix: bool, maxChars: nat, startSeq: nat,
                                          c: Chunk)
    requires maxChars > 0 && c in EmitSections(docId, secs, prefix, maxChars, startSeq)
    ensures exists sec: Section, j: nat :: sec in secs && IsPart(c, docId, sec, prefix, maxChars, j)
    decreases |secs|
  {
    hide EmitSection, IsPart;
    var first := EmitSection(docId, secs[0], prefix, maxChars, startSeq);
    EmitSectionIs(docId, secs[0], prefix, maxChars, startSeq);
    if c in first {
      var j :| 0 <= j < |first| && first[j] == c;
      assert secs[0] in secs && IsPart(c, docId, secs[0], prefix, maxChars, j);
    } else {
      ChunksAreParts(docId, secs[1..], prefix, maxChars, startSeq + |first|, c);
      var sec: Section, j: nat :| sec in secs[1..] && IsPart(c, docId, sec, prefix, maxChars, j);
      assert sec in secs;
    }
  }

  // A section that fits is one chunk.
  lemma {:induction false} ShortSectionIsAChunk(docId: string, secs: seq<Section>, prefix: bool, maxChars: nat,
                                                startSeq: nat, sec: Section)
    requires maxChars > 0 && sec in secs && |sec.body| <= maxChars
    ensures exists c :: c in EmitSections(docId, secs, prefix, maxChars, startSeq)
                        && IsPart(c, docId, sec, prefix, maxChars, 0)
    decreases |secs|
  {
    hide EmitSection, IsPart;
    var first := EmitSection(docId, secs[0], prefix, maxChars, startSeq);
    if sec == secs[0] {
      EmitSectionIs(docId, secs[0], prefix, maxChars, startSeq);
      assert first[0] in EmitSections(docId, secs, prefix, maxChars, startSeq);
    } else {
      ShortSectionIsAChunk(docId, secs[1..], prefix, maxChars, startSeq + |first|, sec);
    }
  }

  function Bodies(secs: seq<Section>): (r: seq<string>)
    ensures |r| == |secs|
  {
    seq(|secs|, i requires 0 <= i < |secs| => secs[i].body)
  }

  lemma ContentOfNothing()
    ensures Content([]) == "" && NonSpace(Concat([])) == "" && Bodies([]) == []
  {
    assert Originals([]) == [];
  }

  lemma EmitSectionsStep(docId: string, secs: seq<Section>, prefix: bool, maxChars: nat, startSeq: nat)
    ensures secs == [] ==> EmitSections(docId, secs, prefix, maxChars, startSeq) == []
    ensures secs != [] ==>
              var first := EmitSection(docId, secs[0], prefix, maxChars, startSeq);
              EmitSections(docId, secs, prefix, maxChars, startSeq)
                == first + EmitSections(docId, secs[1..], prefix, maxChars, startSeq + |first|)
  {
    hide EmitSection;
  }

  lemma BodiesStep(secs: seq<Section>)
    requires secs != []
    ensures NonSpace(Concat(Bodies(secs))) == NonSpace(secs[0].body) + NonSpace(Concat(Bodies(secs[1..])))
  {
    assert Bodies(secs)[1..] == Bodies(secs[1..]);
    hide NonSpace;
    NonSpaceConcat(secs[0].body, Concat(Bodies(secs[1..])));
  }

  // The chunks keep the content of the sections.
  lemma {:induction false} SectionsContent(docId: string, secs: seq<Section>, prefix: bool, maxChars: nat,
                                           startSeq: nat)
    requires maxChars > 0
    ensures Content(EmitSections(docId, secs, prefix, maxChars, startSeq)) == NonSpace(Concat(Bodies(secs)))
    decreases |secs|
  {
    hide *;
    EmitSectionsStep(docId, secs, prefix, maxChars, startSeq);
    ContentOfNothing();
    if secs != [] {
      var first := EmitSection(docId, secs[0], prefix, maxChars, startSeq);
      EmittedContent(docId, secs[0], prefix, maxChars, startSeq);
      SectionsContent(docId, secs[1..], prefix, maxChars, startSeq + |first|);
      ContentAppend(first, EmitSections(docId, secs[1..], prefix, maxChars, startSeq + |first|));
      BodiesStep(secs);
    }
  }

  // ---------- what the hierarchy chunker keeps ----------

  // The stretches from the k-th on.
  function Stretches(hs: seq<Heading>, text: string, k: nat): seq<string>
    requires OrderedHeadings(hs, text)
    decreases |hs| + 1 - k
  {
    if k > |hs| then [] else [Stretch(hs, text, k)] + Stretches(hs, text, k + 1)
  }

  function Trimmeds(ss: seq<string>): seq<string> {
    if ss == [] then [] else [Trim(ss[0])] + Trimmeds(ss[1..])
  }

  lemma TrimmedStep(hs: seq<Heading>, text: string, k: nat)
    requires OrderedHeadings(hs, text)
    ensures k > |hs| ==> Trimmeds(Stretches(hs, text, k)) == []
    ensures k <= |hs| ==>
              Trimmeds(Stretches(hs, text, k)) == [Trim(Stretch(hs, text, k))] + Trimmeds(Stretches(hs, text, k + 1))
    ensures k <= |hs| ==>
              Concat(Stretches(hs, text, k)) == Stretch(hs, text, k) + Concat(Stretches(hs, text, k + 1))
  {
    hide Trim, Stretch;
    if k <= |hs| {
      assert Stretches(hs, text, k)[1..] == Stretches(hs, text, k + 1);
    }
  }

  lemma {:induction false} TrimmedContent(ss: seq<string>)
    ensures NonSpace(Concat(Trimmeds(ss))) == NonSpace(Concat(ss))
  {
    hide NonSpace, Trim;
    if ss != [] {
      TrimmedContent(ss[1..]);
      assert Trimmeds(ss)[1..] == Trimmeds(ss[1..]);
      TrimContent(ss[0]);
      NonSpaceConcat(ss[0], Concat(ss[1..]));
      NonSpaceConcat(Trim(ss[0]), Concat(Trimmeds(ss[1..])));
    }
  }

  lemma AtLeastStep(p: string, rest: seq<string>, min: nat)
    ensures AtLeast([], min) == []
    ensures AtLeast([p] + rest, min) == (if |p| >= min then [p] else []) + AtLeast(rest, min)
  {
    assert ([p] + rest)[1..] == rest;
  }

  lemma BodiesCons(first: seq<Section>, rest: seq<Section>)
    requires |first| <= 1
    ensures Bodies(first + rest) == (if first == [] then [] else [first[0].body]) + Bodies(rest)
  {
  }

  lemma {:induction false} BodiesAfter(hs: seq<Heading>, text: string, minChars: nat, i: nat)
    requires OrderedHeadings(hs, text) && i <= |hs|
    ensures Bodies(SectionsAfter(hs, text, minChars, i)) == AtLeast(Trimmeds(Stretches(hs, text, i + 1)), minChars)
    decreases |hs| - i
  {
    TrimmedStep(hs, text, i + 1);
    if i < |hs| {
      SectionsAfterStep(hs, text, minChars, i);
      BodiesAfter(hs, text, minChars, i + 1);
      hide *;
      var body := Trim(Stretch(hs, text, i + 1));
      AtLeastStep(body, Trimmeds(Stretches(hs, text, i + 2)), minChars);
      BodiesCons(if |body| < minChars then [] else [Chunking.Section(hs[i].text, body)],
                 SectionsAfter(hs, text, minChars, i + 1));
    } else {
      hide Trimmeds, Stretches;
    }
  }

  // Whether the stretch before the first heading may be a section.
  function FirstStretch(hs: seq<Heading>): nat
    requires hs != []
  {
    if hs[0].start > 0 then 0 else 1
  }

  lemma BodiesAre(pattern: nat, minChars: nat, sv: Services, doc: Document)
    requires OrderedHeadings(sv.headings(pattern, doc.content), doc.content) && sv.headings(pattern, doc.content) != []
    ensures var hs := sv.headings(pattern, doc.content);
            Bodies(HierarchySections(pattern, minChars, sv, doc))
              == AtLeast(Trimmeds(Stretches(hs, doc.content, FirstStretch(hs))), minChars)
  {
    var hs := sv.headings(pattern, doc.content);
    HierarchySectionsIs(pattern, minChars, sv, doc);
    BodiesAfter(hs, doc.content, minChars, 0);
    TrimmedStep(hs, doc.content, 0);
    assert SectionAt(hs, doc, 0).body == Trim(Stretch(hs, doc.content, 0));
    assert FirstStretch(hs) == if hs[0].start > 0 then 0 else 1;
    hide Trim, Stretch, SectionAt, HierarchySections, OrderedHeadings, FirstStretch;
    var sec, after := SectionAt(hs, doc, 0), SectionsAfter(hs, doc.content, minChars, 0);
    AtLeastStep(sec.body, Trimmeds(Stretches(hs, doc.content, 1)), minChars);
    BodiesCons(if hs[0].start > 0 && |sec.body| >= minChars then [sec] else [], after);
  }

  lemma FirstIsEmpty(hs: seq<Heading>, text: string)
    requires OrderedHeadings(hs, text) && hs != []
    ensures Concat(Stretches(hs, text, FirstStretch(hs))) == Concat(Stretches(hs, text, 0))
    ensures FirstStretch(hs) == 1 ==> Stretch(hs, text, 0) == ""
  {
    TrimmedStep(hs, text, 0);
    hide Stretches, Concat;
    if hs[0].start == 0 {
      assert Stretch(hs, text, 0) == "";
      assert "" + Concat(Stretches(hs, text, 1)) == Concat(Stretches(hs, text, 1));
    }
  }

  // The chunks keep the content of the text between the headings, in order, exactly
  // when every stretch that trims to fewer than min characters is blank.
  lemma HierarchyKeepsContentExactly(pattern: nat, prefix: bool, minChars: nat, maxChars: nat, sv: Services,
                                     doc: Document)
    requires OrderedHeadings(sv.headings(pattern, doc.content), doc.content) && sv.headings(pattern, doc.content) != []
    requires maxChars > 0
    ensures var hs := sv.headings(pattern, doc.content);
            var r := HierarchyChunks(pattern, prefix, minChars, maxChars, sv, doc);
            && r.Done?
            && (Content(r.chunks) == NonSpace(Concat(Stretches(hs, doc.content, 0))) <==>
                  forall k: nat :: k <= |hs| && |Trim(Stretch(hs, doc.content, k))| < minChars ==>
                    Blank(Stretch(hs, doc.content, k)))
  {
    hide *;
    var hs, text := sv.headings(pattern, doc.content), doc.content;
    var secs := HierarchySections(pattern, minChars, sv, doc);
    HierarchyChunksAre(pattern, prefix, minChars, maxChars, sv, doc);
    SectionsContent(doc.id, secs, prefix, maxChars, 0);
    BodiesContent(pattern, minChars, sv, doc);
    ShortAreBlank(hs, text, FirstStretch(hs), minChars);
  }

  lemma BodiesContent(pattern: nat, minChars: nat, sv: Services, doc: Document)
    requires OrderedHeadings(sv.headings(pattern, doc.content), doc.content) && sv.headings(pattern, doc.content) != []
    ensures var hs := sv.headings(pattern, doc.content);
            NonSpace(Concat(Bodies(HierarchySections(pattern, minChars, sv, doc))))
              == NonSpace(Concat(Stretches(hs, doc.content, 0)))
            <==> (forall p <- Trimmeds(Stretches(hs, doc.content, FirstStretch(hs))) :: |p| < minChars ==> Blank(p))
  {
    hide *;
    var hs := sv.headings(pattern, doc.content);
    var ss := Stretches(hs, doc.content, FirstStretch(hs));
    BodiesAre(pattern, minChars, sv, doc);
    DroppingShortPieces(Trimmeds(ss), minChars);
    TrimmedContent(ss);
    FirstIsEmpty(hs, doc.content);
  }

  lemma HierarchyChunksAre(pattern: nat, prefix: bool, minChars: nat, maxChars: nat, sv: Services, doc: Document)
    requires maxChars > 0
    ensures HierarchyChunks(pattern, prefix, minChars, maxChars, sv, doc)
         == Done(EmitSections(doc.id, HierarchySections(pattern, minChars, sv, doc), prefix, maxChars, 0))
  {
    hide HierarchySections, EmitSections;
  }

  lemma BlankTrims(s: string)
    ensures Blank(Trim(s)) <==> Blank(s)
  {
    TrimContent(s);
    BlankHasNoContent(s);
    BlankHasNoContent(Trim(s));
  }

  lemma {:induction false} TrimmedsAre(hs: seq<Heading>, text: string, from: nat, p: string)
    requires OrderedHeadings(hs, text)
    ensures p in Trimmeds(Stretches(hs, text, from))
       <==> exists k: nat :: from <= k <= |hs| && p == Trim(Stretch(hs, text, k))
    decreases |hs| + 1 - from
  {
    hide *;
    TrimmedStep(hs, text, from);
    var ts := Trimmeds(Stretches(hs, text, from));
    if from <= |hs| {
      TrimmedsAre(hs, text, from + 1, p);
      if p in ts && p != Trim(Stretch(hs, text, from)) {
        var k: nat :| from + 1 <= k <= |hs| && p == Trim(Stretch(hs, text, k));
      }
      if k: nat :| from <= k <= |hs| && p == Trim(Stretch(hs, text, k)) && k > from {
        assert p in Trimmeds(Stretches(hs, text, from + 1));
      }
    }
  }

  lemma ShortAreBlank(hs: seq<Heading>, text: string, from: nat, minChars: nat)
    requires OrderedHeadings(hs, text) && hs != [] && from == FirstStretch(hs)
    ensures (forall p <- Trimmeds(Stretches(hs, text, from)) :: |p| < minChars ==> Blank(p))
       <==> (forall k: nat :: k <= |hs| && |Trim(Stretch(hs, text, k))| < minChars ==> Blank(Stretch(hs, text, k)))
  {
    FirstIsEmpty(hs, text);
    assert Blank("");
    hide *;
    var ts := Trimmeds(Stretches(hs, text, from));
    forall p ensures p in ts <==> exists k: nat :: from <= k <= |hs| && p == Trim(Stretch(hs, text, k)) {
      TrimmedsAre(hs, text, from, p);
    }
    forall k: nat | k <= |hs| ensures Blank(Trim(Stretch(hs, text, k))) <==> Blank(Stretch(hs, text, k)) {
      BlankTrims(Stretch(hs, text, k));
    }
    if forall p <- ts :: |p| < minChars ==> Blank(p) {
      forall k: nat | k <= |hs| && |Trim(Stretch(hs, text, k))| < minChars ensures Blank(Stretch(hs, text, k)) {
        if k >= from {
          assert Trim(Stretch(hs, text, k)) in ts;
        } else {
          assert from == 1 by {
            FirstIsOneOrNone(hs);
          }
        }
      }
    }
  }

  lemma FirstIsOneOrNone(hs: seq<Heading>)
    requires hs != []
    ensures FirstStretch(hs) <= 1
  {
  }

  // Every chunk is a part of a stretch of at least min characters, under the heading
  // above it; and a stretch of min to max characters is a chunk.
  lemma HierarchyChunksAreStretches(pattern: nat, prefix: bool, minChars: nat, maxChars: nat, sv: Services,
                                    doc: Document)
    requires OrderedHeadings(sv.headings(pattern, doc.content), doc.content) && sv.headings(pattern, doc.content) != []
    requires maxChars > 0
    ensures var hs := sv.headings(pattern, doc.content);
            var r := HierarchyChunks(pattern, prefix, minChars, maxChars, sv, doc);
            && r.Done?
            && (forall c <- r.chunks :: exists k: nat, j: nat ::
                  k <= |hs| && |SectionAt(hs, doc, k).body| >= minChars
                  && IsPart(c, doc.id, SectionAt(hs, doc, k), prefix, maxChars, j))
            && (forall k: nat :: 0 < k <= |hs| && minChars <= |SectionAt(hs, doc, k).body| <= maxChars ==>
                  exists c <- r.chunks :: IsPart(c, doc.id, SectionAt(hs, doc, k), prefix, maxChars, 0))
  {
    var hs := sv.headings(pattern, doc.content);
    var secs := HierarchySections(pattern, minChars, sv, doc);
    hide *;
    HierarchyChunksAre(pattern, prefix, minChars, maxChars, sv, doc);
    forall c <- EmitSections(doc.id, secs, prefix, maxChars, 0)
      ensures exists k: nat, j: nat ::
                k <= |hs| && |SectionAt(hs, doc, k).body| >= minChars
                && IsPart(c, doc.id, SectionAt(hs, doc, k), prefix, maxChars, j)
    {
      ChunksAreParts(doc.id, secs, prefix, maxChars, 0, c);
      var sec: Section, j: nat :| sec in secs && IsPart(c, doc.id, sec, prefix, maxChars, j);
      SectionsAreStretches(pattern, minChars, sv, doc, sec);
      var k: nat :| k <= |hs| && sec == SectionAt(hs, doc, k) && |sec.body| >= minChars;
    }
    forall k: nat | 0 < k <= |hs| && minChars <= |SectionAt(hs, doc, k).body| <= maxChars
      ensures exists c <- EmitSections(doc.id, secs, prefix, maxChars, 0) ::
                IsPart(c, doc.id, SectionAt(hs, doc, k), prefix, maxChars, 0)
    {
      SectionsAreStretches(pattern, minChars, sv, doc, SectionAt(hs, doc, k));
      ShortSectionIsAChunk(doc.id, secs, prefix, maxChars, 0, SectionAt(hs, doc, k));
    }
  }

  lemma PanicsOnBodies(pattern: nat, prefix: bool, minChars: nat, sv: Services, doc: Document)
    ensures var r := HierarchyChunks(pattern, prefix, minChars, 0, sv, doc);
            && (r.Done? || r.Panicked?)
            && (r.Panicked? <==> exists p <- Bodies(HierarchySections(pattern, minChars, sv, doc)) :: p != "")
  {
    var secs := HierarchySections(pattern, minChars, sv, doc);
    hide HierarchySections, EmitSections;
    forall sec <- secs ensures sec.body in Bodies(secs) {
      var i :| 0 <= i < |secs| && secs[i] == sec;
      assert Bodies(secs)[i] == sec.body;
    }
    assert forall i :: 0 <= i < |secs| ==> secs[i] in secs && Bodies(secs)[i] == secs[i].body;
  }

  lemma BlankIsTrimmedAway(s: string)
    ensures Trim(s) == "" <==> Blank(s)
  {
    BlankTrims(s);
    if Trim(s) != "" {
      assert !IsSpace(Trim(s)[0]);
    }
  }

  // With a limit of 0 it panics exactly when some stretch of at least min characters
  // is not blank.
  lemma ZeroLimitHierarchy(pattern: nat, prefix: bool, minChars: nat, sv: Services, doc: Document)
    requires OrderedHeadings(sv.headings(pattern, doc.content), doc.content) && sv.headings(pattern, doc.content) != []
    ensures var hs, r := sv.headings(pattern, doc.content), HierarchyChunks(pattern, prefix, minChars, 0, sv, doc);
            && (r.Done? || r.Panicked?)
            && (r.Panicked? <==> exists k: nat ::
                  k <= |hs| && |Trim(Stretch(hs, doc.content, k))| >= minChars && !Blank(Stretch(hs, doc.content, k)))
  {
    var hs, text := sv.headings(pattern, doc.content), doc.content;
    var from := FirstStretch(hs);
    assert Blank("") && from <= 1;
    hide *;
    PanicsOnBodies(pattern, prefix, minChars, sv, doc);
    BodiesAre(pattern, minChars, sv, doc);
    FirstIsEmpty(hs, text);
    var ts := Trimmeds(Stretches(hs, text, from));
    AtLeastIsFilter(ts, minChars);
    forall p ensures p in ts <==> exists k: nat :: from <= k <= |hs| && p == Trim(Stretch(hs, text, k)) {
      TrimmedsAre(hs, text, from, p);
    }
    forall k: nat | k <= |hs| ensures Trim(Stretch(hs, text, k)) == "" <==> Blank(Stretch(hs, text, k)) {
      BlankIsTrimmedAway(Stretch(hs, text, k));
    }
  }

  // Without headings the whole text is one section under the document's title.
  lemma WithoutHeadings(pattern: nat, prefix: bool, minChars: nat, maxChars: nat, sv: Services, doc: Document)
    requires sv.headings(pattern, doc.content) == [] && maxChars > 0
    ensures var r := HierarchyChunks(pattern, prefix, minChars, maxChars, sv, doc);
            && r.Done? && Content(r.chunks) == NonSpace(doc.content)
            && (forall c <- r.chunks :: exists j: nat ::
                  IsPart(c, doc.id, Chunking.Section(HeadingOf([], doc, 0), Trim(doc.content)), prefix, maxChars, j))
  {
    var sec := Chunking.Section(HeadingOf([], doc, 0), Trim(doc.content));
    var secs := HierarchySections(pattern, minChars, sv, doc);
    assert secs == if sec.body == "" then [] else [sec];
    hide *;
    HierarchyChunksAre(pattern, prefix, minChars, maxChars, sv, doc);
    TrimContent(doc.content);
    SectionsContent(doc.id, secs, prefix, maxChars, 0);
    ContentOfNothing();
    OneBody(sec);
    forall c <- EmitSections(doc.id, secs, prefix, maxChars, 0)
      ensures exists j: nat :: IsPart(c, doc.id, sec, prefix, maxChars, j)
    {
      ChunksAreParts(doc.id, secs, prefix, maxChars, 0, c);
    }
  }

  lemma OneBody(sec: Section)
    ensures Concat(Bodies([sec])) == sec.body && (sec.body == "" ==> NonSpace(sec.body) == "")
  {
    assert Bodies([sec]) == [sec.body];
    ConcatOfOne(sec.body);
  }
}
