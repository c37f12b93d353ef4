// What the splitters promise: pieces within the limit, nothing lost, and as few
// pieces as possible.
module SplitGuarantees {
  import opened Text
  import opened Packing
  import opened Boundaries
  import opened Buffering
  import opened Splitting

  // ---------- sentences ----------

  lemma {:induction false} JoinIsConcat(ts: seq<string>)
    ensures Join(ts, "") == Concat(ts)
  {
    if |ts| == 1 {
      assert ts[0] + Concat([]) == ts[0];
      assert ts[1..] == [];
    } else if |ts| > 1 {
      JoinIsConcat(ts[1..]);
      assert ts[0] + "" + Join(ts[1..], "") == ts[0] + Join(ts[1..], "");
    }
  }

  lemma ConcatOfOne(p: string)
    ensures Concat([p]) == p
  {
    assert p + Concat([]) == p;
  }

  lemma SentenceGroupKeepsText(ts: seq<string>, max: nat, g: Span)
    requires max > 0 && g.lo < g.hi <= |ts|
    ensures Concat(SentenceEmit(ts, max)(g)) == Concat(ts[g.lo..g.hi])
  {
    hide *;
    SentenceEmits(ts, max, g.lo, g.hi);
    assert g == Span(g.lo, g.hi);
    JoinIsConcat(ts[g.lo..g.hi]);
    ConcatOfOne(Join(ts[g.lo..g.hi], ""));
    if g.lo + 1 == g.hi {
      JoinOfOne(ts, g.lo, "");
      CharSlicesKeepText(ts[g.lo], max);
    }
  }

  lemma {:induction false} SentenceGroupsKeepText(ts: seq<string>, max: nat, gs: seq<Span>, lo: nat)
    requires max > 0 && lo <= |ts| && Tiles(gs, lo, |ts|)
    ensures Concat(Emitted(gs, SentenceEmit(ts, max))) == Concat(ts[lo..])
  {
    hide Concat, SentenceEmit;
    var emit := SentenceEmit(ts, max);
    if gs == [] {
      assert ts[lo..] == [];
    } else {
      var mid := gs[0].hi;
      SentenceGroupsKeepText(ts, max, gs[1..], mid);
      SentenceGroupKeepsText(ts, max, gs[0]);
      assert ts[lo..] == ts[lo..mid] + ts[mid..];
      ConcatAppend(ts[lo..mid], ts[mid..]);
      ConcatAppend(emit(gs[0]), Emitted(gs[1..], emit));
    }
  }

  // Sentence pieces concatenate to the input exactly.
  lemma SentencePiecesKeepText(text: string, max: nat)
    requires max > 0
    ensures Concat(SentencePieces(text, max)) == text
  {
    hide Concat, SentenceEmit, Tokens;
    var ts := Tokens(text, 0);
    GreedyIsPacking(Weights(ts, ""), max, 0, 0);
    SentenceGroupsKeepText(ts, max, Greedy(Weights(ts, ""), max, 0, 0), 0);
    assert ts[0..] == ts;
    TokensConcat(text, 0);
    assert text[0..] == text;
  }

  // No sentence piece is longer than max, or empty.
  lemma SentencePiecesFit(text: string, max: nat)
    requires max > 0
    ensures forall p <- SentencePieces(text, max) :: 0 < |p| <= max
  {
    var ts := Tokens(text, 0);
    hide *;
    forall p <- SentencePieces(text, max) ensures 0 < |p| <= max {
      SentencePieceFits(text, max, p);
    }
  }

  lemma JoinNonEmpty(items: seq<string>, sep: string, lo: nat, i: nat)
    requires lo < i <= |items| && items[lo] != ""
    ensures Join(items[lo..i], sep) != ""
  {
  }

  lemma SentencePieceFits(text: string, max: nat, p: string)
    requires max > 0 && p in SentencePieces(text, max)
    ensures 0 < |p| <= max
  {
    var ts := Tokens(text, 0);
    hide Tokens, Concat, Join, Greedy, CharSlices;
    var g := ComesFromGroup(ts, "", max, SentenceEmit(ts, max), p);
    SentenceEmits(ts, max, g.lo, g.hi);
    assert ts[g.lo] in ts;
    JoinNonEmpty(ts, "", g.lo, g.hi);
    JoinOfOne(ts, g.lo, "");
    CharSlicesKeepText(ts[g.lo], max);
  }

  // When every sentence token fits, no packing of consecutive tokens into pieces
  // of at most max characters has fewer pieces.
  lemma SentencePiecesAreFewest(text: string, max: nat, spans: seq<Span>)
    requires max > 0
    requires forall t <- Tokens(text, 0) :: |t| <= max
    requires var ts := Tokens(text, 0);
             && Tiles(spans, 0, |ts|)
             && forall g <- spans :: g.lo < g.hi <= |ts| && |Concat(ts[g.lo..g.hi])| <= max
    ensures |SentencePieces(text, max)| <= |spans|
  {
    var ts := Tokens(text, 0);
    var emit := SentenceEmit(ts, max);
    forall g: Span | g.lo < g.hi <= |ts| ensures |emit(g)| == 1 {
      SentenceEmits(ts, max, g.lo, g.hi);
      assert ts[g.lo] in ts;
    }
    forall g <- spans ensures |Join(ts[g.lo..g.hi], "")| <= max {
      JoinIsConcat(ts[g.lo..g.hi]);
    }
    PackedIsFewest(ts, "", max, emit, spans);
  }

  // A sentence token within max is never cut: a piece joins consecutive tokens, or
  // is a slice of a longer token.
  lemma SentencePiecesKeepTokens(text: string, max: nat, p: string)
    requires max > 0 && p in SentencePieces(text, max)
    ensures var ts := Tokens(text, 0);
            || (exists lo, hi :: 0 <= lo < hi <= |ts| && p == Concat(ts[lo..hi]))
            || (exists t <- ts :: |t| > max && p in CharSlices(t, max))
  {
    hide *;
    var ts := Tokens(text, 0);
    SentenceTextIs(text, max);
    var g := ComesFromGroup(ts, "", max, SentenceEmit(ts, max), p);
    SentenceEmits(ts, max, g.lo, g.hi);
    assert g == Span(g.lo, g.hi);
    JoinIsConcat(ts[g.lo..g.hi]);
    assert ts[g.lo] in ts;
  }

  lemma SentenceTextIs(text: string, max: nat)
    requires max > 0
    ensures var ts := Tokens(text, 0);
            SentencePieces(text, max) == PackedText(ts, "", max, SentenceEmit(ts, max))
  {
  }

  // ---------- paragraphs ----------

  // Some paragraph that is not the last is exactly max characters long.
  ghost predicate HasFullParagraph(ps: seq<string>, max: nat) {
    exists i :: 0 <= i < |ps| - 1 && |ps[i]| == max
  }

  // A capped piece exceeds max only as a full paragraph with its newline.
  lemma CappedPieceSize(text: string, max: nat, p: string)
    requires max > 0 && p in CappedPieces(text, max)
    ensures |p| <= max + 1
    ensures |p| > max ==> |text| > max && HasFullParagraph(Paragraphs(text, 0), max)
  {
    hide *;
    CappedTextIs(text, max);
    if |text| > max {
      var ps := Paragraphs(text, 0);
      BlankLineLength();
      var g := ComesFromGroup(ps, BLANK_LINE, max - 1, CappedEmit(ps, max), p);
      CappedEmits(ps, max, g.lo, g.hi);
      JoinOfOne(ps, g.lo, BLANK_LINE);
      SentencePiecesFit(ps[g.lo], max);
      assert g == Span(g.lo, g.hi);
      if g.hi < |ps| {
        FullParagraphAt(ps, max, g.lo);
      }
    }
  }

  lemma FullParagraphAt(ps: seq<string>, max: nat, i: nat)
    requires i + 1 < |ps|
    ensures |ps[i]| == max ==> HasFullParagraph(ps, max)
  {
  }

  // A full paragraph that is not the last does come out one character too long.
  lemma FullParagraphOverflows(text: string, max: nat, i: nat)
    requires max > 0 && |text| > max
    requires i + 1 < |Paragraphs(text, 0)| && |Paragraphs(text, 0)[i]| == max
    ensures Paragraphs(text, 0)[i] + "\n" in CappedPieces(text, max)
  {
    hide *;
    var ps := Paragraphs(text, 0);
    var w, budget, emit := Weights(ps, BLANK_LINE), max - 1 + |BLANK_LINE|, CappedEmit(ps, max);
    CappedTextIs(text, max);
    PackedTextIs(ps, BLANK_LINE, max - 1, emit);
    OverBudgetIsAlone(w, budget, 0, 0, i);
    CappedEmits(ps, max, i, i + 1);
    JoinOfOne(ps, i, BLANK_LINE);
    EmittedHolds(Greedy(w, budget, 0, 0), emit, Span(i, i + 1), ps[i] + "\n");
  }

  lemma FullParagraphOf(ps: seq<string>, max: nat) returns (i: nat)
    requires HasFullParagraph(ps, max)
    ensures i + 1 < |ps| && |ps[i]| == max
  {
    i :| i + 1 < |ps| && |ps[i]| == max;
  }

  // `split_to_max_chars` may return a piece longer than max, by one character,
  // exactly when the text is longer than max and a paragraph other than the last
  // is exactly max characters long.
  lemma CappedOverflowsExactly(text: string, max: nat)
    requires max > 0
    ensures (exists p :: p in CappedPieces(text, max) && |p| > max)
       <==> |text| > max && HasFullParagraph(Paragraphs(text, 0), max)
  {
    hide *;
    if p :| p in CappedPieces(text, max) && |p| > max {
      CappedPieceSize(text, max, p);
    }
    if |text| > max && HasFullParagraph(Paragraphs(text, 0), max) {
      var i := FullParagraphOf(Paragraphs(text, 0), max);
      FullParagraphOverflows(text, max, i);
      assert |Paragraphs(text, 0)[i] + "\n"| > max;
    }
  }

  // As in "a", a blank line, "b", with a limit of 1.
  lemma FullParagraphOverflowsHere()
    ensures Paragraphs("a\n\nb", 0) == ["a", "b"] && "a\n" in CappedPieces("a\n\nb", 1)
  {
    var s := "a\n\nb";
    assert NextBreak(s, 0) == Some(Span(1, 3)) by {
      assert SpaceEnd(s, 2) == 3 && LastNewline(s, 2, 3) == Some(2);
    }
    assert s[0..1] == "a" && s[3..] == "b";
    assert Trim("a") == "a" && Trim("b") == "b" by {
      TrimmedIsFixed("a");
      TrimmedIsFixed("b");
    }
    assert NextBreak(s, 3) == None;
    FullParagraphOverflows(s, 1, 0);
    assert Paragraphs(s, 0)[0] + "\n" == "a\n";
  }

  // When every paragraph fits, no way of joining consecutive paragraphs within
  // max - 1 characters, a paragraph of its own aside, has fewer pieces.
  lemma CappedPiecesAreFewest(text: string, max: nat, spans: seq<Span>)
    requires max > 0 && |text| > max
    requires forall p <- Paragraphs(text, 0) :: |p| <= max
    requires var ps := Paragraphs(text, 0);
             && Tiles(spans, 0, |ps|)
             && forall g <- spans ::
                  g.lo < g.hi <= |ps| && (g.hi == g.lo + 1 || |Join(ps[g.lo..g.hi], BLANK_LINE)| <= max - 1)
    ensures |CappedPieces(text, max)| <= |spans|
  {
    hide *;
    CappedTextIs(text, max);
    var ps := Paragraphs(text, 0);
    forall g: Span | g.lo < g.hi <= |ps| ensures |CappedEmit(ps, max)(g)| == 1 {
      assert g == Span(g.lo, g.hi);
      CappedEmits(ps, max, g.lo, g.hi);
      assert ps[g.lo] in ps;
    }
    PackedIsFewest(ps, BLANK_LINE, max - 1, CappedEmit(ps, max), spans);
  }

  lemma NewlineIsBlank()
    ensures Blank("\n") && Blank(BLANK_LINE)
  {
  }

  lemma CappedGroupKeepsContent(ps: seq<string>, max: nat, g: Span)
    requires max > 0 && g.lo < g.hi <= |ps|
    ensures NonSpace(Concat(CappedEmit(ps, max)(g))) == NonSpace(Concat(ps[g.lo..g.hi]))
  {
    hide *;
    assert g == Span(g.lo, g.hi);
    var joined := Join(ps[g.lo..g.hi], BLANK_LINE);
    CappedEmits(ps, max, g.lo, g.hi);
    NewlineIsBlank();
    JoinContent(ps[g.lo..g.hi], BLANK_LINE);
    ConcatOfOne(joined);
    ConcatOfOne(joined + "\n");
    NonSpaceConcat(joined, "\n");
    BlankHasNoContent("\n");
    assert NonSpace(joined) + "" == NonSpace(joined);
    if g.lo + 1 == g.hi {
      JoinOfOne(ps, g.lo, BLANK_LINE);
      SentencePiecesKeepText(ps[g.lo], max);
    }
  }

  lemma CappedTextIs(text: string, max: nat)
    requires max > 0
    ensures var ps := Paragraphs(text, 0);
            CappedPieces(text, max) ==
            if |text| <= max then [text] else PackedText(ps, BLANK_LINE, max - 1, CappedEmit(ps, max))
  {
  }

  // `split_to_max_chars` keeps every character that is not whitespace, in order.
  lemma CappedPiecesKeepContent(text: string, max: nat)
    requires max > 0
    ensures NonSpace(Concat(CappedPieces(text, max))) == NonSpace(text)
  {
    hide *;
    CappedTextIs(text, max);
    if |text| <= max {
      ConcatOfOne(text);
    } else {
      var ps := Paragraphs(text, 0);
      forall g: Span | g.lo < g.hi <= |ps|
        ensures NonSpace(Concat(CappedEmit(ps, max)(g))) == NonSpace(Concat(ps[g.lo..g.hi]))
      {
        CappedGroupKeepsContent(ps, max, g);
      }
      PackedContent(ps, BLANK_LINE, max - 1, CappedEmit(ps, max));
      ParagraphsKeepContent(text, 0);
      assert text[0..] == text;
    }
  }

  // A paragraph over max is cut at sentences: splitting it into paragraphs again
  // finds only itself.
  lemma LongParagraphIsCutAtSentences(p: string, max: nat)
    requires max > 0 && |p| > max && IsParagraph(p)
    ensures CappedPieces(p, max) == SentencePieces(p, max)
  {
    ParagraphIsItsOnlyParagraph(p);
    var ps, budget := [p], max - 1 + |BLANK_LINE|;
    var w := Weights(ps, BLANK_LINE);
    hide Paragraphs, SentencePieces, NoBreak;
    OverBudgetCloses(w, budget, 0);
    var gs := Greedy(w, budget, 0, 0);
    assert gs == [Span(0, 1)] && gs[1..] == [];
    CappedEmits(ps, max, 0, 1);
    assert Emitted(gs, CappedEmit(ps, max)) == SentencePieces(p, max) + [];
  }

  lemma PlainPieceFits(text: string, max: nat, p: string)
    requires max > 0 && p in PlainPieces(text, max)
    ensures |p| <= max
  {
    var ps := Paragraphs(text, 0);
    ParagraphsHaveNoBreak(text, 0);
    hide Paragraphs, Join, Greedy, CappedPieces, SentencePieces, IsParagraph;
    var g := ComesFromGroup(ps, BLANK_LINE, max, PlainEmit(ps, max), p);
    PlainEmits(ps, max, g.lo, g.hi);
    JoinOfOne(ps, g.lo, BLANK_LINE);
    assert ps[g.lo] in ps;
    if g.hi == g.lo + 1 && |ps[g.lo]| > max {
      LongParagraphIsCutAtSentences(ps[g.lo], max);
      SentencePiecesFit(ps[g.lo], max);
    }
  }

  // `split_plain` never returns a piece longer than max.
  lemma PlainPiecesFit(text: string, max: nat)
    requires max > 0
    ensures forall p <- PlainPieces(text, max) :: |p| <= max
  {
    hide *;
    forall p <- PlainPieces(text, max) ensures |p| <= max {
      PlainPieceFits(text, max, p);
    }
  }

  lemma PlainGroupKeepsContent(ps: seq<string>, max: nat, g: Span)
    requires max > 0 && g.lo < g.hi <= |ps|
    ensures NonSpace(Concat(PlainEmit(ps, max)(g))) == NonSpace(Concat(ps[g.lo..g.hi]))
  {
    hide *;
    assert g == Span(g.lo, g.hi);
    var joined := Join(ps[g.lo..g.hi], BLANK_LINE);
    PlainEmits(ps, max, g.lo, g.hi);
    NewlineIsBlank();
    JoinContent(ps[g.lo..g.hi], BLANK_LINE);
    ConcatOfOne(Trim(joined));
    TrimContent(joined);
    if g.lo + 1 == g.hi {
      JoinOfOne(ps, g.lo, BLANK_LINE);
      CappedPiecesKeepContent(ps[g.lo], max);
    }
  }

  lemma PlainTextIs(text: string, max: nat)
    requires max > 0
    ensures var ps := Paragraphs(text, 0);
            PlainPieces(text, max) == PackedText(ps, BLANK_LINE, max, PlainEmit(ps, max))
  {
  }

  // `split_plain` keeps every character that is not whitespace, in order.
  lemma PlainPiecesKeepContent(text: string, max: nat)
    requires max > 0
    ensures NonSpace(Concat(PlainPieces(text, max))) == NonSpace(text)
  {
    hide *;
    PlainTextIs(text, max);
    var ps := Paragraphs(text, 0);
    forall g: Span | g.lo < g.hi <= |ps|
      ensures NonSpace(Concat(PlainEmit(ps, max)(g))) == NonSpace(Concat(ps[g.lo..g.hi]))
    {
      PlainGroupKeepsContent(ps, max, g);
    }
    PackedContent(ps, BLANK_LINE, max, PlainEmit(ps, max));
    ParagraphsKeepContent(text, 0);
    assert text[0..] == text;
  }

  // When every paragraph fits, no way of joining consecutive paragraphs within
  // max characters has fewer pieces.
  lemma PlainPiecesAreFewest(text: string, max: nat, spans: seq<Span>)
    requires max > 0
    requires forall p <- Paragraphs(text, 0) :: |p| <= max
    requires var ps := Paragraphs(text, 0);
             && Tiles(spans, 0, |ps|)
             && forall g <- spans :: g.lo < g.hi <= |ps| && |Join(ps[g.lo..g.hi], BLANK_LINE)| <= max
    ensures |PlainPieces(text, max)| <= |spans|
  {
    hide *;
    PlainTextIs(text, max);
    var ps := Paragraphs(text, 0);
    forall g: Span | g.lo < g.hi <= |ps| ensures |PlainEmit(ps, max)(g)| == 1 {
      assert g == Span(g.lo, g.hi);
      PlainEmits(ps, max, g.lo, g.hi);
      assert ps[g.lo] in ps;
    }
    PackedIsFewest(ps, BLANK_LINE, max, PlainEmit(ps, max), spans);
  }

  // ---------- paragraphs come back ----------

  // The paragraphs of every piece, in order.
  function AllParagraphs(pieces: seq<string>): seq<string> {
    if pieces == [] then [] else Paragraphs(pieces[0], 0) + AllParagraphs(pieces[1..])
  }

  lemma {:induction false} AllParagraphsAppend(a: seq<string>, b: seq<string>)
    ensures AllParagraphs(a + b) == AllParagraphs(a) + AllParagraphs(b)
  {
    hide Paragraphs;
    if a == [] {
      assert a + b == b;
    } else {
      assert (a + b)[1..] == a[1..] + b;
      AllParagraphsAppend(a[1..], b);
    }
  }

  lemma AllParagraphsOfOne(p: string)
    ensures AllParagraphs([p]) == Paragraphs(p, 0)
  {
    hide Paragraphs;
    assert [p][1..] == [] && AllParagraphs([]) == [];
    assert Paragraphs(p, 0) + [] == Paragraphs(p, 0);
  }

  lemma {:induction false} EmittedParagraphs(ps: seq<string>, gs: seq<Span>, emit: Span -> seq<string>, lo: nat)
    requires lo <= |ps| && Tiles(gs, lo, |ps|)
    requires forall g: Span :: g.lo < g.hi <= |ps| ==> AllParagraphs(emit(g)) == ps[g.lo..g.hi]
    ensures AllParagraphs(Emitted(gs, emit)) == ps[lo..]
    decreases |gs|
  {
    if gs == [] {
      assert ps[lo..] == [];
    } else {
      var g := gs[0];
      assert g.lo == lo < g.hi <= |ps| && Tiles(gs[1..], g.hi, |ps|);
      hide Paragraphs;
      EmittedParagraphs(ps, gs[1..], emit, g.hi);
      AllParagraphsAppend(emit(g), Emitted(gs[1..], emit));
      assert ps[lo..] == ps[g.lo..g.hi] + ps[g.hi..];
    }
  }

  // One group of paragraphs, joined by a blank line, holds those paragraphs, also
  // with a newline after it.
  lemma JoinedGroup(ps: seq<string>, lo: nat, hi: nat)
    requires lo < hi <= |ps| && forall p <- ps :: IsParagraph(p)
    ensures var joined := Join(ps[lo..hi], BLANK_LINE);
            && Paragraphs(joined, 0) == ps[lo..hi] && Paragraphs(joined + "\n", 0) == ps[lo..hi]
            && Trim(joined) == joined
  {
    hide IsParagraph, Join, Paragraphs, Trim;
    var joined := Join(ps[lo..hi], BLANK_LINE);
    assert joined[0..] == joined + "" && (joined + "\n")[0..] == joined + "\n";
    forall i | 0 <= i < hi - lo ensures IsParagraph(ps[lo..hi][i]) {
      assert ps[lo + i] in ps;
    }
    JoinedParagraphs(joined, 0, ps[lo..hi], "");
    JoinedParagraphs(joined + "\n", 0, ps[lo..hi], "\n");
    JoinedIsTrimmed(ps[lo..hi]);
    TrimmedIsFixed(joined);
  }

  lemma {:induction false} JoinedIsTrimmed(ps: seq<string>)
    requires ps != [] && forall i :: 0 <= i < |ps| ==> IsParagraph(ps[i])
    ensures Join(ps, BLANK_LINE) != "" && Trimmed(Join(ps, BLANK_LINE))
  {
    hide IsParagraph;
    ParagraphIsText(ps[0]);
    if |ps| > 1 {
      JoinedIsTrimmed(ps[1..]);
    }
  }

  lemma PlainGroupParagraphs(ps: seq<string>, max: nat, g: Span)
    requires max > 0 && g.lo < g.hi <= |ps| && forall p <- ps :: IsParagraph(p) && |p| <= max
    ensures AllParagraphs(PlainEmit(ps, max)(g)) == ps[g.lo..g.hi]
  {
    hide *;
    assert g == Span(g.lo, g.hi) && ps[g.lo] in ps;
    PlainEmits(ps, max, g.lo, g.hi);
    JoinedGroup(ps, g.lo, g.hi);
    AllParagraphsOfOne(Join(ps[g.lo..g.hi], BLANK_LINE));
  }

  // When every paragraph fits, the pieces of `split_plain` hold the paragraphs of
  // the text, each whole and in order.
  lemma PlainPiecesKeepParagraphs(text: string, max: nat)
    requires max > 0 && forall p <- Paragraphs(text, 0) :: |p| <= max
    ensures AllParagraphs(PlainPieces(text, max)) == Paragraphs(text, 0)
  {
    hide *;
    var ps := Paragraphs(text, 0);
    PlainTextIs(text, max);
    ParagraphsHaveNoBreak(text, 0);
    forall g: Span | g.lo < g.hi <= |ps| ensures AllParagraphs(PlainEmit(ps, max)(g)) == ps[g.lo..g.hi] {
      PlainGroupParagraphs(ps, max, g);
    }
    PackedParagraphs(ps, max, PlainEmit(ps, max));
  }

  lemma PackedParagraphs(ps: seq<string>, cap: nat, emit: Span -> seq<string>)
    requires forall g: Span :: g.lo < g.hi <= |ps| ==> AllParagraphs(emit(g)) == ps[g.lo..g.hi]
    ensures AllParagraphs(PackedText(ps, BLANK_LINE, cap, emit)) == ps
  {
    hide *;
    var w := Weights(ps, BLANK_LINE);
    PackedTextIs(ps, BLANK_LINE, cap, emit);
    GreedyIsPacking(w, cap + |BLANK_LINE|, 0, 0);
    EmittedParagraphs(ps, Greedy(w, cap + |BLANK_LINE|, 0, 0), emit, 0);
    assert ps[0..] == ps;
  }

  lemma CappedGroupParagraphs(ps: seq<string>, max: nat, g: Span)
    requires max > 0 && g.lo < g.hi <= |ps| && forall p <- ps :: IsParagraph(p) && |p| <= max
    ensures AllParagraphs(CappedEmit(ps, max)(g)) == ps[g.lo..g.hi]
  {
    hide *;
    assert g == Span(g.lo, g.hi) && ps[g.lo] in ps;
    CappedEmits(ps, max, g.lo, g.hi);
    JoinedGroup(ps, g.lo, g.hi);
    AllParagraphsOfOne(Join(ps[g.lo..g.hi], BLANK_LINE));
    AllParagraphsOfOne(Join(ps[g.lo..g.hi], BLANK_LINE) + "\n");
  }

  // The same of `split_to_max_chars`.
  lemma CappedPiecesKeepParagraphs(text: string, max: nat)
    requires max > 0 && forall p <- Paragraphs(text, 0) :: |p| <= max
    ensures AllParagraphs(CappedPieces(text, max)) == Paragraphs(text, 0)
  {
    hide *;
    var ps := Paragraphs(text, 0);
    CappedTextIs(text, max);
    if |text| <= max {
      AllParagraphsOfOne(text);
    } else {
      ParagraphsHaveNoBreak(text, 0);
      forall g: Span | g.lo < g.hi <= |ps| ensures AllParagraphs(CappedEmit(ps, max)(g)) == ps[g.lo..g.hi] {
        CappedGroupParagraphs(ps, max, g);
      }
      PackedParagraphs(ps, max - 1, CappedEmit(ps, max));
    }
  }
}
