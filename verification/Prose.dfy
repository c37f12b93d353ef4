// Splitting prose at its headings. The heading regex stays outside the model: its
// matches arrive as the positions where headings start.
module Prose {
  import opened Text
  import opened Boundaries
  import opened Splitting
  import opened SplitGuarantees

  // Start positions of heading matches: ascending, inside the text.
  predicate HeadingStarts(starts: seq<nat>, text: string) {
    && (forall i :: 0 <= i < |starts| ==> starts[i] < |text|)
    && (forall i :: 0 <= i < |starts| - 1 ==> starts[i] < starts[i + 1])
  }

  function SectionEnd(starts: seq<nat>, i: nat, n: nat): nat {
    if i + 1 < |starts| then starts[i + 1] else n
  }

  // The text from a heading to the next one, trimmed.
  function Section(text: string, starts: seq<nat>, i: nat): string
    requires HeadingStarts(starts, text) && i < |starts|
  {
    Trim(text[starts[i]..SectionEnd(starts, i, |text|)])
  }

  // The text before the first heading, trimmed.
  function Prefix(text: string, starts: seq<nat>): string
    requires HeadingStarts(starts, text) && starts != []
  {
    Trim(text[..starts[0]])
  }

  function SectionPieces(section: string, max: nat): seq<string>
    requires max > 0
  {
    if section == "" then [] else CappedPieces(section, max)
  }

  // The pieces of the sections from the i-th heading on.
  function SectionsFrom(text: string, starts: seq<nat>, max: nat, i: nat): seq<string>
    requires max > 0 && HeadingStarts(starts, text) && i <= |starts|
    decreases |starts| - i
  {
    if i == |starts| then []
    else
      SectionPieces(Section(text, starts, i), max)
      + SectionsFrom(text, starts, max, i + 1)
  }

  // All pieces, before short ones are dropped.
  function AllPieces(text: string, starts: seq<nat>, max: nat): seq<string>
    requires max > 0 && HeadingStarts(starts, text)
  {
    if starts == [] then PlainPieces(text, max)
    else
      (if starts[0] > 0 then SectionPieces(Prefix(text, starts), max) else [])
      + SectionsFrom(text, starts, max, 0)
  }

  function AtLeast(pieces: seq<string>, min: nat): seq<string> {
    if pieces == [] then []
    else (if |pieces[0]| >= min then [pieces[0]] else []) + AtLeast(pieces[1..], min)
  }

  // `split_prose`: pieces shorter than min are dropped when there are headings
  // and the text is longer than max.
  function ProsePieces(text: string, starts: seq<nat>, max: nat, min: nat): seq<string>
    requires max > 0 && HeadingStarts(starts, text)
  {
    var all := AllPieces(text, starts, max);
    if starts == [] then all
    else if |text| <= max then AtLeast(all, 1)
    else AtLeast(all, min)
  }

  lemma SectionsStep(text: string, starts: seq<nat>, max: nat, i: nat)
    requires max > 0 && HeadingStarts(starts, text) && i < |starts|
    ensures SectionsFrom(text, starts, max, i)
         == SectionPieces(Section(text, starts, i), max) + SectionsFrom(text, starts, max, i + 1)
    ensures i + 1 == |starts| ==> SectionsFrom(text, starts, max, i + 1) == []
  {
  }

  lemma SectionPiecesAre(section: string, max: nat)
    requires max > 0
    ensures SectionPieces(section, max) == if section == "" then [] else CappedPieces(section, max)
  {
  }

  lemma ProsePiecesAre(text: string, starts: seq<nat>, max: nat, min: nat)
    requires max > 0 && HeadingStarts(starts, text)
    ensures ProsePieces(text, starts, max, min)
         == if starts == [] then PlainPieces(text, max)
            else AtLeast((if starts[0] > 0 then SectionPieces(Prefix(text, starts), max) else [])
                         + SectionsFrom(text, starts, max, 0),
                         if |text| <= max then 1 else min)
  {
  }

  method SplitProse(text: string, starts: seq<nat>, max: nat, min: nat) returns (result: seq<string>)
    requires max > 0 && HeadingStarts(starts, text)
    ensures result == ProsePieces(text, starts, max, min)
  {
    hide *;
    ProsePiecesAre(text, starts, max, min);
    if starts == [] {
      result := SplitPlain(text, max);
      return;
    }
    result := [];
    var i := 0;
    while i < |starts|
      invariant i <= |starts|
      invariant i < |starts| ==> SectionsFrom(text, starts, max, 0) == result + SectionsFrom(text, starts, max, i)
      invariant i == |starts| ==> SectionsFrom(text, starts, max, 0) == result
    {
      var section := Section(text, starts, i);
      SectionsStep(text, starts, max, i);
      SectionPiecesAre(section, max);
      if section != "" {
        var pieces := SplitToMaxChars(section, max);
        result := result + pieces;
      }
      i := i + 1;
    }
    if starts[0] > 0 {
      var prefix := Prefix(text, starts);
      SectionPiecesAre(prefix, max);
      if prefix != "" {
        var pre := SplitToMaxChars(prefix, max);
        result := pre + result;
      }
    }
    result := AtLeast(result, if |text| <= max then 1 else min);
  }

  // ---------- what prose splitting keeps ----------

  lemma SectionContent(part: string, max: nat)
    requires max > 0
    ensures NonSpace(Concat(SectionPieces(Trim(part), max))) == NonSpace(part)
  {
    hide Trim, CappedPieces, NonSpace;
    TrimContent(part);
    if Trim(part) != "" {
      CappedPiecesKeepContent(Trim(part), max);
    }
  }

  lemma ContentOfParts(a: seq<string>, b: seq<string>, s: string, t: string)
    requires NonSpace(Concat(a)) == NonSpace(s) && NonSpace(Concat(b)) == NonSpace(t)
    ensures NonSpace(Concat(a + b)) == NonSpace(s + t)
  {
    hide *;
    ConcatAppend(a, b);
    NonSpaceConcat(Concat(a), Concat(b));
    NonSpaceConcat(s, t);
  }

  lemma {:induction false} SectionsContent(text: string, starts: seq<nat>, max: nat, i: nat)
    requires max > 0 && HeadingStarts(starts, text) && i < |starts|
    ensures NonSpace(Concat(SectionsFrom(text, starts, max, i))) == NonSpace(text[starts[i]..])
    decreases |starts| - i
  {
    hide NonSpace, Concat, SectionPieces, Trim;
    var to := SectionEnd(starts, i, |text|);
    var part := text[starts[i]..to];
    SectionContent(part, max);
    if i + 1 < |starts| {
      SectionsContent(text, starts, max, i + 1);
      assert text[starts[i]..] == part + text[to..];
      ContentOfParts(SectionPieces(Trim(part), max), SectionsFrom(text, starts, max, i + 1), part, text[to..]);
    } else {
      assert SectionsFrom(text, starts, max, i) == SectionPieces(Trim(part), max);
      assert part == text[starts[i]..];
    }
  }

  // Before anything is dropped, every character that is not whitespace is kept.
  lemma AllPiecesKeepContent(text: string, starts: seq<nat>, max: nat)
    requires max > 0 && HeadingStarts(starts, text)
    ensures NonSpace(Concat(AllPieces(text, starts, max))) == NonSpace(text)
  {
    hide NonSpace, Concat, SectionPieces, SectionsFrom, Trim, PlainPieces;
    if starts == [] {
      PlainPiecesKeepContent(text, max);
    } else {
      var rest := SectionsFrom(text, starts, max, 0);
      SectionsContent(text, starts, max, 0);
      if starts[0] > 0 {
        var prefix := text[..starts[0]];
        SectionContent(prefix, max);
        ContentOfParts(SectionPieces(Trim(prefix), max), rest, prefix, text[starts[0]..]);
        assert prefix + text[starts[0]..] == text;
      } else {
        assert text[starts[0]..] == text;
        assert [] + rest == rest;
      }
    }
  }

  // Dropping the pieces shorter than min keeps all the content exactly when they
  // are blank.
  lemma {:induction false} DroppingShortPieces(pieces: seq<string>, min: nat)
    ensures |NonSpace(Concat(AtLeast(pieces, min)))| <= |NonSpace(Concat(pieces))|
    ensures NonSpace(Concat(AtLeast(pieces, min))) == NonSpace(Concat(pieces))
       <==> forall p <- pieces :: |p| < min ==> Blank(p)
  {
    hide NonSpace, Concat, Blank;
    if pieces != [] {
      var p, rest := pieces[0], pieces[1..];
      assert pieces == [p] + rest;
      DroppingShortPieces(rest, min);
      ConcatAppend([p], rest);
      ConcatOfOne(p);
      NonSpaceConcat(p, Concat(rest));
      BlankHasNoContent(p);
      if |p| >= min {
        assert AtLeast(pieces, min) == [p] + AtLeast(rest, min);
        ConcatAppend([p], AtLeast(rest, min));
        NonSpaceConcat(p, Concat(AtLeast(rest, min)));
        KeepsPrefix(NonSpace(p), NonSpace(Concat(AtLeast(rest, min))), NonSpace(Concat(rest)));
      } else {
        assert AtLeast(pieces, min) == AtLeast(rest, min);
      }
    } else {
      assert AtLeast(pieces, min) == pieces;
    }
  }

  lemma KeepsPrefix(p: string, a: string, b: string)
    ensures p + a == p + b <==> a == b
  {
    if p + a == p + b {
      assert a == (p + a)[|p|..] == (p + b)[|p|..] == b;
    }
  }

  lemma {:induction false} AtLeastIsFilter(pieces: seq<string>, min: nat)
    ensures forall p :: p in AtLeast(pieces, min) <==> p in pieces && |p| >= min
  {
    if pieces != [] {
      AtLeastIsFilter(pieces[1..], min);
      assert pieces == [pieces[0]] + pieces[1..];
    }
  }

  // `split_prose` keeps every character that is not whitespace, in order, exactly
  // when there are no headings, or the text fits in max, or every piece shorter
  // than min is blank.
  lemma ProseKeepsContentExactly(text: string, starts: seq<nat>, max: nat, min: nat)
    requires max > 0 && HeadingStarts(starts, text)
    ensures NonSpace(Concat(ProsePieces(text, starts, max, min))) == NonSpace(text)
       <==> || starts == []
            || |text| <= max
            || forall p <- AllPieces(text, starts, max) :: |p| < min ==> Blank(p)
  {
    hide AllPieces, AtLeast, Concat, NonSpace, HeadingStarts;
    var all := AllPieces(text, starts, max);
    AllPiecesKeepContent(text, starts, max);
    if starts != [] {
      DroppingShortPieces(all, if |text| <= max then 1 else min);
    }
  }

  // What is lost is exactly the pieces shorter than min.
  lemma ProseDropsExactlyShortPieces(text: string, starts: seq<nat>, max: nat, min: nat)
    requires max > 0 && HeadingStarts(starts, text) && starts != [] && |text| > max
    ensures forall p :: p in ProsePieces(text, starts, max, min) <==> p in AllPieces(text, starts, max) && |p| >= min
  {
    hide AllPieces, AtLeast, HeadingStarts;
    AtLeastIsFilter(AllPieces(text, starts, max), min);
  }

  // The texts between headings, and before the first one, that are not empty.
  ghost predicate IsSection(text: string, starts: seq<nat>, p: string)
    requires HeadingStarts(starts, text) && starts != []
  {
    p != "" && (p == Prefix(text, starts) || exists i: nat :: i < |starts| && p == Section(text, starts, i))
  }

  // A section is the verbatim text from its heading on, up to the whitespace before
  // the next heading or the end.
  lemma SectionStartsAtHeading(text: string, starts: seq<nat>, i: nat)
    requires HeadingStarts(starts, text) && i < |starts| && !IsSpace(text[starts[i]])
    ensures var n := |Section(text, starts, i)|;
            var next := if i + 1 < |starts| then starts[i + 1] else |text|;
            && starts[i] + n <= next && Section(text, starts, i) == text[starts[i]..starts[i] + n]
            && Blank(text[starts[i] + n..next])
  {
    var from, to := starts[i], SectionEnd(starts, i, |text|);
    hide IsSpace;
    var a, b := TrimmedPart(text, from, to);
    assert a == from;
  }

  lemma ShortSectionIsItself(section: string, max: nat, p: string)
    requires max > 0 && |section| <= max
    ensures p in SectionPieces(section, max) <==> section != "" && p == section
  {
    if section != "" {
      CappedShort(section, max);
    }
  }

  lemma {:induction false} SectionsFromAre(text: string, starts: seq<nat>, max: nat, i: nat, p: string)
    requires max > 0 && HeadingStarts(starts, text) && i <= |starts|
    requires forall k: nat :: i <= k < |starts| ==> |Section(text, starts, k)| <= max
    ensures p in SectionsFrom(text, starts, max, i)
       <==> p != "" && exists k: nat :: i <= k < |starts| && p == Section(text, starts, k)
    decreases |starts| - i
  {
    hide SectionPieces, Section;
    if i < |starts| {
      ShortSectionIsItself(Section(text, starts, i), max, p);
      SectionsFromAre(text, starts, max, i + 1, p);
    }
  }

  lemma SectionsAreThePieces(text: string, starts: seq<nat>, max: nat, p: string)
    requires max > 0 && HeadingStarts(starts, text) && starts != []
    requires forall q :: IsSection(text, starts, q) ==> |q| <= max
    ensures p in AllPieces(text, starts, max) <==> IsSection(text, starts, p)
  {
    hide SectionPieces, Section, SectionsFrom, Trim;
    forall k: nat | k < |starts| ensures |Section(text, starts, k)| <= max {
      assert Section(text, starts, k) != "" ==> IsSection(text, starts, Section(text, starts, k));
    }
    SectionsFromAre(text, starts, max, 0, p);
    var prefix := Prefix(text, starts);
    assert prefix != "" ==> IsSection(text, starts, prefix);
    ShortSectionIsItself(prefix, max, p);
    if starts[0] == 0 {
      assert text[..0] == "" && Trim("") == "" by {
        TrimmedIsFixed("");
      }
    }
  }

  // With headings and sections of at most max characters, a text longer than max
  // keeps all its content exactly when each section has at least min characters.
  lemma ShortSectionsKeepContentExactly(text: string, starts: seq<nat>, max: nat, min: nat)
    requires max > 0 && HeadingStarts(starts, text) && starts != [] && |text| > max
    requires forall p :: IsSection(text, starts, p) ==> |p| <= max
    ensures NonSpace(Concat(ProsePieces(text, starts, max, min))) == NonSpace(text)
       <==> forall p :: IsSection(text, starts, p) ==> |p| >= min
  {
    ProseKeepsContentExactly(text, starts, max, min);
    hide AllPieces, ProsePieces, NonSpace, Concat, HeadingStarts, IsSection, Blank;
    var all := AllPieces(text, starts, max);
    forall p ensures p in all <==> IsSection(text, starts, p) {
      SectionsAreThePieces(text, starts, max, p);
    }
    forall p | IsSection(text, starts, p) ensures !Blank(p) {
      SectionIsNotBlank(text, starts, p);
    }
  }

  lemma SectionIsNotBlank(text: string, starts: seq<nat>, p: string)
    requires HeadingStarts(starts, text) && starts != [] && IsSection(text, starts, p)
    ensures !Blank(p)
  {
    hide IsSpace;
    assert !IsSpace(p[0]);
  }

  const SHORT_FIRST := "# H\n# abcd"

  lemma ShortFirstSections()
    ensures HeadingStarts([0, 4], SHORT_FIRST)
    ensures Section(SHORT_FIRST, [0, 4], 0) == "# H" && |Section(SHORT_FIRST, [0, 4], 1)| <= 6
    ensures |Prefix(SHORT_FIRST, [0, 4])| == 0
  {
    var text := SHORT_FIRST;
    assert text[0..4] == "# H\n" && text[4..10] == "# abcd" && text[..0] == "";
    assert SpaceEnd("# H\n", 0) == 0 && TrimmedEnd("# H\n") == 3;
    assert "# H\n"[0..3] == "# H";
  }

  // As in the heading "# H" alone before a longer section, with limits of 6 and 4:
  // it is lost.
  lemma ShortSectionIsLost()
    ensures HeadingStarts([0, 4], SHORT_FIRST)
    ensures NonSpace(Concat(ProsePieces(SHORT_FIRST, [0, 4], 6, 4))) != NonSpace(SHORT_FIRST)
  {
    ShortFirstSections();
    hide Section, Prefix, HeadingStarts, ProsePieces, NonSpace, Concat;
    assert IsSection(SHORT_FIRST, [0, 4], "# H");
    assert |SHORT_FIRST| == 10;
    ShortSectionsKeepContentExactly(SHORT_FIRST, [0, 4], 6, 4);
  }
}
