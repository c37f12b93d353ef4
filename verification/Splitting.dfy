// The text splitters: characters, sentences, paragraphs. Each loop of the source
// is a method proved equal to a function; what the pieces are good for (size,
// nothing lost, as few as possible) is proved about the function.
module Splitting {
  import opened Text
  import opened Packing
  import opened Boundaries
  import opened Buffering

  // ---------- hard slices ----------

  // `chars.chunks(max)`.
  function CharSlices(s: string, max: nat): (r: seq<string>)
    requires max > 0
    decreases |s|
  {
    if s == "" then []
    else if |s| <= max then [s]
    else [s[..max]] + CharSlices(s[max..], max)
  }

  lemma {:induction false} CharSlicesKeepText(s: string, max: nat)
    requires max > 0
    ensures Concat(CharSlices(s, max)) == s
    ensures forall p <- CharSlices(s, max) :: 0 < |p| <= max
    ensures forall i :: 0 <= i < |CharSlices(s, max)| - 1 ==> |CharSlices(s, max)[i]| == max
    decreases |s|
  {
    if s == "" {
    } else if |s| <= max {
      assert s + Concat([]) == s;
    } else {
      CharSlicesKeepText(s[max..], max);
      assert s == s[..max] + s[max..];
    }
  }

  // ---------- sentences ----------

  // What a group of sentence tokens becomes: one piece, or slices when it is a
  // single token over max. Spans outside the list emit nothing.
  function SentenceGroup(ts: seq<string>, max: nat, g: Span): seq<string>
    requires max > 0
  {
    if !(g.lo < g.hi <= |ts|) then []
    else if g.hi == g.lo + 1 && |ts[g.lo]| > max then CharSlices(ts[g.lo], max)
    else [Join(ts[g.lo..g.hi], "")]
  }

  function SentenceEmit(ts: seq<string>, max: nat): Span -> seq<string>
    requires max > 0
  {
    g => SentenceGroup(ts, max, g)
  }

  // `split_sentences`: sentence tokens packed greedily into at most max
  // characters, a longer token sliced.
  function SentencePieces(text: string, max: nat): seq<string>
    requires max > 0
  {
    var ts := Tokens(text, 0);
    PackedText(ts, "", max, SentenceEmit(ts, max))
  }

  lemma SentenceEmits(ts: seq<string>, max: nat, lo: nat, i: nat)
    requires max > 0 && lo < i <= |ts|
    ensures var emit := SentenceEmit(ts, max);
            if lo + 1 == i && |ts[lo]| > max then emit(Span(lo, i)) == CharSlices(ts[lo], max)
            else emit(Span(lo, i)) == [Join(ts[lo..i], "")]
  {
  }

  lemma SentenceStart(text: string, max: nat)
    requires max > 0
    ensures var ts := Tokens(text, 0);
            Buffered(ts, "", max, SentenceEmit(ts, max), SentencePieces(text, max), [], "", 0, 0)
  {
    Start(Tokens(text, 0), "", max, SentenceEmit(Tokens(text, 0), max));
  }

  lemma JoinOfOne(items: seq<string>, lo: nat, sep: string)
    requires lo < |items|
    ensures Join(items[lo..lo + 1], sep) == items[lo]
  {
  }

  method SplitSentences(text: string, max: nat) returns (out: seq<string>)
    requires max > 0
    ensures out == SentencePieces(text, max)
  {
    hide *;
    var tokens := SentenceTokens(text);
    out := [];
    var buf := "";
    ghost var emit, all, lo := SentenceEmit(tokens, max), SentencePieces(text, max), 0;
    var i := 0;
    SentenceStart(text, max);
    while i < |tokens|
      invariant i <= |tokens| && |buf| <= max
      invariant Buffered(tokens, "", max, emit, all, out, buf, lo, i)
    {
      var s := tokens[i];
      assert s in tokens;
      Facts(tokens, "", max, emit, all, out, buf, lo, i);
      if lo < i {
        JoinOfOne(tokens, lo, "");
        SentenceEmits(tokens, max, lo, i);
      }
      if |s| > max {
        if buf != "" {
          Flush(tokens, "", max, emit, all, out, buf, lo, i);
          out := out + [buf];
          buf := "";
        }
        Alone(tokens, "", max, emit, all, out, i);
        SentenceEmits(tokens, max, i, i + 1);
        out := out + CharSlices(s, max);
        lo := i + 1;
      } else {
        var candidate := if buf == "" then s else buf + s;
        if |candidate| > max {
          if buf != "" {
            Flush(tokens, "", max, emit, all, out, buf, lo, i);
            out := out + [buf];
          }
          Take(tokens, "", max, emit, all, out, "", i, i);
          buf := s;
          lo := i;
        } else {
          Take(tokens, "", max, emit, all, out, buf, lo, i);
          assert buf + "" + s == buf + s;
          buf := candidate;
        }
      }
      i := i + 1;
    }
    Facts(tokens, "", max, emit, all, out, buf, lo, i);
    End(tokens, "", max, emit, all, out, buf, lo);
    if buf != "" {
      JoinOfOne(tokens, lo, "");
      SentenceEmits(tokens, max, lo, |tokens|);
      out := out + [buf];
    }
  }

  // ---------- paragraphs, capped at max ----------

  const BLANK_LINE: string := "\n\n"

  // What a group of paragraphs becomes: one piece, marked with a newline when
  // more follows, or the sentence pieces of a single paragraph over max.
  function CappedGroup(ps: seq<string>, max: nat, g: Span): seq<string>
    requires max > 0
  {
    if !(g.lo < g.hi <= |ps|) then []
    else if g.hi == g.lo + 1 && |ps[g.lo]| > max then SentencePieces(ps[g.lo], max)
    else [Join(ps[g.lo..g.hi], BLANK_LINE) + if g.hi == |ps| then "" else "\n"]
  }

  function CappedEmit(ps: seq<string>, max: nat): Span -> seq<string>
    requires max > 0
  {
    g => CappedGroup(ps, max, g)
  }

  // `split_to_max_chars`: text that fits is one piece; longer text is cut into
  // paragraphs packed into at most max - 1 characters.
  function CappedPieces(text: string, max: nat): seq<string>
    requires max > 0
  {
    if |text| <= max then [text]
    else
      var ps := Paragraphs(text, 0);
      PackedText(ps, BLANK_LINE, max - 1, CappedEmit(ps, max))
  }

  lemma CappedEmits(ps: seq<string>, max: nat, lo: nat, i: nat)
    requires max > 0 && lo < i <= |ps|
    ensures var emit := CappedEmit(ps, max);
            if lo + 1 == i && |ps[lo]| > max then emit(Span(lo, i)) == SentencePieces(ps[lo], max)
            else if i == |ps| then emit(Span(lo, i)) == [Join(ps[lo..i], BLANK_LINE)]
            else emit(Span(lo, i)) == [Join(ps[lo..i], BLANK_LINE) + "\n"]
  {
    assert Join(ps[lo..i], BLANK_LINE) + "" == Join(ps[lo..i], BLANK_LINE);
  }

  lemma CappedShort(text: string, max: nat)
    requires |text| <= max && max > 0
    ensures CappedPieces(text, max) == [text]
  {
  }

  lemma CappedStart(text: string, max: nat)
    requires max > 0 && |text| > max
    ensures var ps := Paragraphs(text, 0);
            Buffered(ps, BLANK_LINE, max - 1, CappedEmit(ps, max), CappedPieces(text, max), [], "", 0, 0)
  {
    Start(Paragraphs(text, 0), BLANK_LINE, max - 1, CappedEmit(Paragraphs(text, 0), max));
  }

  lemma ParagraphsAreNonEmpty(text: string)
    ensures forall p <- Paragraphs(text, 0) :: p != ""
  {
    ParagraphsHaveNoBreak(text, 0);
  }

  method SplitToMaxChars(text: string, max: nat) returns (out: seq<string>)
    requires max > 0
    ensures out == CappedPieces(text, max)
  {
    hide *;
    if |text| <= max {
      CappedShort(text, max);
      return [text];
    }
    var paragraphs := Paragraphs(text, 0);
    out := [];
    var buf := "";
    ghost var emit, all, lo := CappedEmit(paragraphs, max), CappedPieces(text, max), 0;
    var i := 0;
    CappedStart(text, max);
    ParagraphsAreNonEmpty(text);
    while i < |paragraphs|
      invariant i <= |paragraphs| && |buf| <= max
      invariant Buffered(paragraphs, BLANK_LINE, max - 1, emit, all, out, buf, lo, i)
    {
      var para := paragraphs[i];
      assert para in paragraphs;
      Facts(paragraphs, BLANK_LINE, max - 1, emit, all, out, buf, lo, i);
      if lo < i {
        JoinOfOne(paragraphs, lo, BLANK_LINE);
        CappedEmits(paragraphs, max, lo, i);
      }
      if |para| > max {
        if buf != "" {
          Flush(paragraphs, BLANK_LINE, max - 1, emit, all, out, buf, lo, i);
          out := out + [buf + "\n"];
          buf := "";
        }
        Alone(paragraphs, BLANK_LINE, max - 1, emit, all, out, i);
        CappedEmits(paragraphs, max, i, i + 1);
        var pieces := SplitSentences(para, max);
        out := out + pieces;
        lo := i + 1;
      } else {
        var budget := max - 1;
        var candidate := if buf == "" then para else buf + BLANK_LINE + para;
        if |candidate| > budget {
          if buf != "" {
            Flush(paragraphs, BLANK_LINE, max - 1, emit, all, out, buf, lo, i);
            out := out + [buf + "\n"];
          }
          Take(paragraphs, BLANK_LINE, max - 1, emit, all, out, "", i, i);
          buf := para;
          lo := i;
        } else {
          Take(paragraphs, BLANK_LINE, max - 1, emit, all, out, buf, lo, i);
          buf := candidate;
        }
      }
      i := i + 1;
    }
    Facts(paragraphs, BLANK_LINE, max - 1, emit, all, out, buf, lo, i);
    End(paragraphs, BLANK_LINE, max - 1, emit, all, out, buf, lo);
    if buf != "" {
      JoinOfOne(paragraphs, lo, BLANK_LINE);
      CappedEmits(paragraphs, max, lo, |paragraphs|);
      out := out + [buf];
    }
  }

  // ---------- paragraphs, packed plainly ----------

  function PlainGroup(ps: seq<string>, max: nat, g: Span): seq<string>
    requires max > 0
  {
    if !(g.lo < g.hi <= |ps|) then []
    else if g.hi == g.lo + 1 && |ps[g.lo]| > max then CappedPieces(ps[g.lo], max)
    else [Trim(Join(ps[g.lo..g.hi], BLANK_LINE))]
  }

  function PlainEmit(ps: seq<string>, max: nat): Span -> seq<string>
    requires max > 0
  {
    g => PlainGroup(ps, max, g)
  }

  // `split_plain`: paragraphs packed into at most max characters.
  function PlainPieces(text: string, max: nat): seq<string>
    requires max > 0
  {
    var ps := Paragraphs(text, 0);
    PackedText(ps, BLANK_LINE, max, PlainEmit(ps, max))
  }

  lemma PlainEmits(ps: seq<string>, max: nat, lo: nat, i: nat)
    requires max > 0 && lo < i <= |ps|
    ensures var emit := PlainEmit(ps, max);
            if lo + 1 == i && |ps[lo]| > max then emit(Span(lo, i)) == CappedPieces(ps[lo], max)
            else emit(Span(lo, i)) == [Trim(Join(ps[lo..i], BLANK_LINE))]
  {
  }

  lemma PlainStart(text: string, max: nat)
    requires max > 0
    ensures var ps := Paragraphs(text, 0);
            Buffered(ps, BLANK_LINE, max, PlainEmit(ps, max), PlainPieces(text, max), [], "", 0, 0)
  {
    Start(Paragraphs(text, 0), BLANK_LINE, max, PlainEmit(Paragraphs(text, 0), max));
  }

  lemma BlankLineLength()
    ensures |BLANK_LINE| == 2
  {
  }

  method SplitPlain(text: string, max: nat) returns (result: seq<string>)
    requires max > 0
    ensures result == PlainPieces(text, max)
  {
    hide *;
    var paragraphs := Paragraphs(text, 0);
    result := [];
    var buffer := "";
    ghost var emit, all, lo := PlainEmit(paragraphs, max), PlainPieces(text, max), 0;
    var i := 0;
    PlainStart(text, max);
    ParagraphsAreNonEmpty(text);
    BlankLineLength();
    while i < |paragraphs|
      invariant i <= |paragraphs| && |buffer| <= max
      invariant Buffered(paragraphs, BLANK_LINE, max, emit, all, result, buffer, lo, i)
    {
      var para := paragraphs[i];
      assert para in paragraphs;
      Facts(paragraphs, BLANK_LINE, max, emit, all, result, buffer, lo, i);
      if lo < i {
        JoinOfOne(paragraphs, lo, BLANK_LINE);
        PlainEmits(paragraphs, max, lo, i);
      }
      if |para| > max {
        if buffer != "" {
          Flush(paragraphs, BLANK_LINE, max, emit, all, result, buffer, lo, i);
          result := result + [Trim(buffer)];
          buffer := "";
        }
        Alone(paragraphs, BLANK_LINE, max, emit, all, result, i);
        PlainEmits(paragraphs, max, i, i + 1);
        var pieces := SplitToMaxChars(para, max);
        result := result + pieces;
        lo := i + 1;
      } else if buffer != "" && |buffer| + |para| + 2 > max {
        Flush(paragraphs, BLANK_LINE, max, emit, all, result, buffer, lo, i);
        result := result + [Trim(buffer)];
        Take(paragraphs, BLANK_LINE, max, emit, all, result, "", i, i);
        buffer := para;
        lo := i;
      } else {
        Take(paragraphs, BLANK_LINE, max, emit, all, result, buffer, lo, i);
        buffer := if buffer == "" then para else buffer + BLANK_LINE + para;
      }
      i := i + 1;
    }
    Facts(paragraphs, BLANK_LINE, max, emit, all, result, buffer, lo, i);
    End(paragraphs, BLANK_LINE, max, emit, all, result, buffer, lo);
    if buffer != "" {
      JoinOfOne(paragraphs, lo, BLANK_LINE);
      PlainEmits(paragraphs, max, lo, |paragraphs|);
      result := result + [Trim(buffer)];
    }
  }
}
