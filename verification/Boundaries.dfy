// The two regular expressions the splitters scan for, matched the way a regex
// engine does: leftmost first, then as long as possible.
module Boundaries {
  import opened Text
  import opened Packing

  // ---------- paragraph breaks: `\n\s*\n` ----------

  // A paragraph break can start at i: a newline, whitespace, another newline.
  ghost predicate BreakStarts(s: string, i: nat) {
    && i < |s| && s[i] == '\n'
    && exists j :: i < j < |s| && s[j] == '\n' && forall k :: i < k < j ==> IsSpace(s[k])
  }

  ghost predicate NoBreak(s: string) {
    forall i: nat :: !BreakStarts(s, i)
  }

  function LastNewline(s: string, i: nat, e: nat): (r: Option<nat>)
    requires i <= e <= |s|
    ensures r.Some? ==> i <= r.value < e && s[r.value] == '\n'
    ensures r.None? ==> forall k :: i <= k < e ==> s[k] != '\n'
  {
    if i == e then None
    else if s[e - 1] == '\n' then Some(e - 1)
    else LastNewline(s, i, e - 1)
  }

  function NextBreak(s: string, from: nat): (r: Option<Span>)
    requires from <= |s|
    ensures r.Some? ==> from <= r.value.lo < r.value.hi <= |s|
    ensures r.Some? ==> forall k :: r.value.lo <= k < r.value.hi ==> IsSpace(s[k])
    decreases |s| - from
  {
    if from == |s| then None
    else if s[from] != '\n' then NextBreak(s, from + 1)
    else
      match LastNewline(s, from + 1, SpaceEnd(s, from + 1))
      case Some(j) => Some(Span(from, j + 1))
      case None => NextBreak(s, from + 1)
  }

  // The newline found is the last one.
  lemma {:induction false} LastNewlineIsLast(s: string, i: nat, e: nat)
    requires i <= e <= |s| && LastNewline(s, i, e).Some?
    ensures forall k :: LastNewline(s, i, e).value < k < e ==> s[k] != '\n'
  {
    if s[e - 1] != '\n' {
      LastNewlineIsLast(s, i, e - 1);
    }
  }

  // The match ends with a newline, and no later newline could end it.
  ghost predicate EndsAtLast(s: string, m: Span) {
    && m.lo < m.hi <= |s| && s[m.hi - 1] == '\n'
    && forall k :: m.hi <= k < SpaceEnd(s, m.lo + 1) ==> s[k] != '\n'
  }

  lemma {:induction false} NextBreakIsLongest(s: string, from: nat)
    requires from <= |s| && NextBreak(s, from).Some?
    ensures EndsAtLast(s, NextBreak(s, from).value)
    decreases |s| - from
  {
    if s[from] == '\n' && LastNewline(s, from + 1, SpaceEnd(s, from + 1)).Some? {
      LastNewlineIsLast(s, from + 1, SpaceEnd(s, from + 1));
      hide LastNewline;
    } else {
      hide EndsAtLast;
      NextBreakIsLongest(s, from + 1);
    }
  }

  // The match found is the leftmost one, as long as possible, and no match is
  // missed.
  lemma {:induction false} NextBreakIsLeftmost(s: string, from: nat)
    requires from <= |s|
    ensures var r := NextBreak(s, from);
            && (r.Some? ==> BreakStarts(s, r.value.lo) && EndsAtLast(s, r.value))
            && forall i: nat :: from <= i < (if r.Some? then r.value.lo else |s|) ==> !BreakStarts(s, i)
    decreases |s| - from
  {
    if NextBreak(s, from).Some? {
      NextBreakIsLongest(s, from);
    }
    hide EndsAtLast, IsSpace;
    if from < |s| {
      if s[from] != '\n' {
        NextBreakIsLeftmost(s, from + 1);
      } else {
        BreakStartsHere(s, from);
        if LastNewline(s, from + 1, SpaceEnd(s, from + 1)).None? {
          NextBreakIsLeftmost(s, from + 1);
        }
        hide BreakStarts;
      }
    }
  }

  lemma BreakStartsHere(s: string, i: nat)
    requires i < |s| && s[i] == '\n'
    ensures BreakStarts(s, i) <==> LastNewline(s, i + 1, SpaceEnd(s, i + 1)).Some?
  {
    hide IsSpace;
    var e := SpaceEnd(s, i + 1);
    match LastNewline(s, i + 1, e)
    case Some(j) => assert s[j] == '\n';
    case None =>
      if j :| i < j < |s| && s[j] == '\n' && forall k :: i < k < j ==> IsSpace(s[k]) {
        NewlineInRun(s, i, j);
      }
  }

  // A newline after whitespace only is in the run of whitespace.
  lemma NewlineInRun(s: string, i: nat, j: nat)
    requires i < j < |s| && s[j] == '\n' && forall k :: i < k < j ==> IsSpace(s[k])
    ensures j < SpaceEnd(s, i + 1)
  {
    assert IsSpace(s[j]);
    hide IsSpace;
  }

  // Split at every break, trim each part, drop the empty ones.
  function Paragraphs(s: string, from: nat): seq<string>
    requires from <= |s|
    decreases |s| - from
  {
    match NextBreak(s, from)
    case None => NonEmpty(Trim(s[from..]))
    case Some(m) => NonEmpty(Trim(s[from..m.lo])) + Paragraphs(s, m.hi)
  }

  function NonEmpty(p: string): seq<string> {
    if p == "" then [] else [p]
  }

  ghost predicate IsParagraph(p: string) {
    p != "" && Trimmed(p) && NoBreak(p)
  }

  lemma BreakInSlice(s: string, lo: nat, hi: nat, i: nat)
    requires lo <= hi <= |s| && BreakStarts(s[lo..hi], i)
    ensures BreakStarts(s, lo + i)
  {
    var p := s[lo..hi];
    var j :| i < j < |p| && p[j] == '\n' && forall k :: i < k < j ==> IsSpace(p[k]);
    assert s[lo + j] == '\n';
    assert forall k :: lo + i < k < lo + j ==> s[k] == p[k - lo];
  }

  // A stretch of s in which no break of s starts holds no break itself.
  lemma SliceHasNoBreak(s: string, lo: nat, hi: nat)
    requires lo <= hi <= |s|
    requires forall i: nat :: lo <= i < hi ==> !BreakStarts(s, i)
    ensures NoBreak(s[lo..hi])
  {
    forall i: nat ensures !BreakStarts(s[lo..hi], i) {
      if BreakStarts(s[lo..hi], i) {
        BreakInSlice(s, lo, hi, i);
      }
    }
  }

  lemma SliceOfSlice(s: string, from: nat, to: nat, a: nat, b: nat)
    requires from <= to <= |s| && a <= b <= to - from
    ensures s[from..to][a..b] == s[from + a..from + b]
  {
    var t := s[from..to];
    assert |t[a..b]| == b - a == |s[from + a..from + b]|;
    assert forall k :: 0 <= k < b - a ==> t[a..b][k] == t[a + k] == s[from + (a + k)] == s[from + a..from + b][k];
  }

  // Trimming it cannot create one.
  lemma TrimKeepsNoBreak(s: string, from: nat, to: nat)
    requires from <= to <= |s|
    requires forall i: nat :: from <= i < to ==> !BreakStarts(s, i)
    ensures NoBreak(Trim(s[from..to]))
  {
    hide IsSpace, BreakStarts, NoBreak, SpaceEnd, TrimmedEnd;
    var a, b := SpaceEnd(s[from..to], 0), TrimmedEnd(s[from..to]);
    if a < b {
      SliceOfSlice(s, from, to, a, b);
      SliceHasNoBreak(s, from + a, from + b);
    } else {
      assert s[from..from] == "";
      SliceHasNoBreak(s, from, from);
    }
  }

  lemma {:induction false} ParagraphsHaveNoBreak(s: string, from: nat)
    requires from <= |s|
    ensures forall p <- Paragraphs(s, from) :: IsParagraph(p)
    decreases |s| - from
  {
    NextBreakIsLeftmost(s, from);
    hide Trim, NextBreak, IsParagraph, BreakStarts;
    match NextBreak(s, from)
    case None =>
      TrimKeepsNoBreak(s, from, |s|);
      assert s[from..|s|] == s[from..];
    case Some(m) =>
      TrimKeepsNoBreak(s, from, m.lo);
      ParagraphsHaveNoBreak(s, m.hi);
  }

  predicate SpacesIn(s: string, a: nat, b: nat) {
    a <= b <= |s| && forall k :: a <= k < b ==> IsSpace(s[k])
  }

  // Whitespace with two newlines in it.
  ghost predicate IsGap(s: string, a: nat, b: nat) {
    SpacesIn(s, a, b) && exists i, j :: a <= i < j < b && s[i] == '\n' && s[j] == '\n'
  }

  lemma TrimIsSlice(s: string) returns (a: nat, b: nat)
    ensures a <= b <= |s| && Trim(s) == s[a..b] && SpacesIn(s, 0, a) && SpacesIn(s, b, |s|)
  {
    hide IsSpace;
    a, b := SpaceEnd(s, 0), TrimmedEnd(s);
    if b <= a {
      b := a;
      assert s[a..a] == "";
    }
  }

  // The nonempty spans lie in s from position `from` on, with gaps between them and
  // whitespace before the first and after the last.
  ghost predicate Gapped(s: string, from: nat, spans: seq<Span>) {
    && from <= |s|
    && (forall i :: 0 <= i < |spans| ==> from <= spans[i].lo < spans[i].hi <= |s|)
    && (forall i :: 0 < i < |spans| ==> IsGap(s, spans[i - 1].hi, spans[i].lo))
    && SpacesIn(s, from, if spans == [] then |s| else spans[0].lo)
    && (spans != [] ==> SpacesIn(s, spans[|spans| - 1].hi, |s|))
  }

  lemma GapAcross(s: string, a: nat, m: Span, b: nat)
    requires m.lo < m.hi <= |s| && m.hi <= b && s[m.lo] == '\n' && s[m.hi - 1] == '\n' && m.lo + 1 < m.hi
    requires SpacesIn(s, a, m.lo) && SpacesIn(s, m.lo, m.hi) && SpacesIn(s, m.hi, b)
    ensures IsGap(s, a, b)
  {
    hide IsSpace;
  }

  lemma TrimmedPart(s: string, from: nat, to: nat) returns (a: nat, b: nat)
    requires from <= to <= |s|
    ensures from <= a <= b <= to && Trim(s[from..to]) == s[a..b] && SpacesIn(s, from, a) && SpacesIn(s, b, to)
  {
    hide IsSpace;
    var x, y := TrimIsSlice(s[from..to]);
    a, b := from + x, from + y;
    SliceOfSlice(s, from, to, x, y);
    forall k | from <= k < a ensures IsSpace(s[k]) {
      assert IsSpace(s[from..to][k - from]);
    }
    forall k | b <= k < to ensures IsSpace(s[k]) {
      assert IsSpace(s[from..to][k - from]);
    }
  }

  lemma BreakMatch(s: string, from: nat)
    requires from <= |s| && NextBreak(s, from).Some?
    ensures var m := NextBreak(s, from).value;
            s[m.lo] == '\n' && s[m.hi - 1] == '\n' && m.lo + 1 < m.hi && SpacesIn(s, m.lo, m.hi)
    decreases |s| - from
  {
    hide IsSpace;
    if s[from] != '\n' || LastNewline(s, from + 1, SpaceEnd(s, from + 1)).None? {
      BreakMatch(s, from + 1);
    }
  }

  // A part a..b with whitespace around it, a break m after it, and what follows.
  lemma GappedMore(s: string, from: nat, a: nat, b: nat, m: Span, rest: seq<Span>)
    requires from <= a <= b <= m.lo && SpacesIn(s, from, a) && SpacesIn(s, b, m.lo)
    requires m.lo + 1 < m.hi <= |s| && s[m.lo] == '\n' && s[m.hi - 1] == '\n' && SpacesIn(s, m.lo, m.hi)
    requires Gapped(s, m.hi, rest)
    ensures Gapped(s, from, if a < b then [Span(a, b)] + rest else rest)
  {
    hide IsSpace, IsGap;
    if a < b {
      if rest != [] {
        GapAcross(s, b, m, rest[0].lo);
      }
      var spans := [Span(a, b)] + rest;
      forall i | 0 < i < |spans| ensures IsGap(s, spans[i - 1].hi, spans[i].lo) {
        if i > 1 {
          assert IsGap(s, rest[i - 1 - 1].hi, rest[i - 1].lo);
        }
      }
    }
  }

  lemma GappedLast(s: string, from: nat, a: nat, b: nat)
    requires from <= a <= b <= |s| && SpacesIn(s, from, a) && SpacesIn(s, b, |s|)
    ensures Gapped(s, from, if a < b then [Span(a, b)] else [])
  {
    hide IsSpace;
  }

  lemma ParagraphsStep(s: string, from: nat)
    requires from <= |s|
    ensures match NextBreak(s, from)
            case None => Paragraphs(s, from) == NonEmpty(Trim(s[from..|s|]))
            case Some(m) => Paragraphs(s, from) == NonEmpty(Trim(s[from..m.lo])) + Paragraphs(s, m.hi)
  {
    hide NextBreak, Trim;
    assert s[from..|s|] == s[from..];
  }

  predicate AreAt(ps: seq<string>, s: string, spans: seq<Span>) {
    && |ps| == |spans|
    && forall i :: 0 <= i < |spans| ==> spans[i].lo <= spans[i].hi <= |s| && ps[i] == s[spans[i].lo..spans[i].hi]
  }

  lemma OneMoreAt(ps: seq<string>, s: string, spans: seq<Span>, a: nat, b: nat)
    requires AreAt(ps, s, spans) && a <= b <= |s|
    ensures AreAt(NonEmpty(s[a..b]) + ps, s, if a < b then [Span(a, b)] + spans else spans)
  {
    if a == b {
      assert s[a..b] == "" && [] + ps == ps;
    }
  }

  // The paragraphs are what lies between gaps of whitespace that hold two newlines.
  lemma {:induction false} ParagraphsLieBetweenGaps(s: string, from: nat) returns (spans: seq<Span>)
    requires from <= |s|
    ensures Gapped(s, from, spans) && AreAt(Paragraphs(s, from), s, spans)
    decreases |s| - from
  {
    hide *;
    ParagraphsStep(s, from);
    match NextBreak(s, from)
    case None =>
      var a, b := TrimmedPart(s, from, |s|);
      GappedLast(s, from, a, b);
      NoneAt(s);
      OneMoreAt([], s, [], a, b);
      spans := if a < b then [Span(a, b)] + [] else [];
      assert NonEmpty(s[a..b]) + [] == NonEmpty(s[a..b]);
      assert [Span(a, b)] + [] == [Span(a, b)];
    case Some(m) =>
      var a, b := TrimmedPart(s, from, m.lo);
      var rest := ParagraphsLieBetweenGaps(s, m.hi);
      BreakMatch(s, from);
      GappedMore(s, from, a, b, m, rest);
      OneMoreAt(Paragraphs(s, m.hi), s, rest, a, b);
      spans := if a < b then [Span(a, b)] + rest else rest;
  }

  lemma NoneAt(s: string)
    ensures AreAt([], s, [])
  {
  }

  // Splitting a paragraph again gives it back whole.
  lemma ParagraphIsItsOnlyParagraph(p: string)
    requires IsParagraph(p)
    ensures Paragraphs(p, 0) == [p]
  {
    NextBreakIsLeftmost(p, 0);
    TrimmedIsFixed(p);
    assert p[0..] == p;
  }

  lemma BreakStaysInside(s: string, from: nat, to: nat, i: nat)
    requires from <= i < to <= |s| && !IsSpace(s[to - 1]) && BreakStarts(s, i)
    ensures BreakStarts(s[from..to], i - from)
  {
    var p := s[from..to];
    var j :| i < j < |s| && s[j] == '\n' && forall k :: i < k < j ==> IsSpace(s[k]);
    assert i < to - 1 && j < to;
    assert p[i - from] == s[i] && p[j - from] == s[j];
    assert forall k :: i - from < k < j - from ==> p[k] == s[k + from];
  }

  // No break starts inside a paragraph, wherever it stands.
  lemma NoBreakInside(s: string, from: nat, to: nat)
    requires from < to <= |s| && IsParagraph(s[from..to])
    ensures forall i: nat :: from <= i < to ==> !BreakStarts(s, i)
    ensures !IsSpace(s[from]) && !IsSpace(s[to - 1])
  {
    var p := s[from..to];
    assert p[0] == s[from] && p[|p| - 1] == s[to - 1];
    forall i: nat | from <= i < to ensures !BreakStarts(s, i) {
      if BreakStarts(s, i) {
        BreakStaysInside(s, from, to, i);
      }
    }
  }

  // A paragraph with two newlines and more text behind it.
  lemma BreakAfter(s: string, from: nat, to: nat)
    requires from < to && to + 2 < |s| && IsParagraph(s[from..to])
    requires s[to] == '\n' && s[to + 1] == '\n' && !IsSpace(s[to + 2])
    ensures NextBreak(s, from) == Some(Span(to, to + 2))
  {
    NoBreakInside(s, from, to);
    NextBreakIsLeftmost(s, from);
    assert BreakStarts(s, to);
    hide IsParagraph, NextBreak, BreakStarts;
    var m := NextBreak(s, from).value;
    assert m.lo == to;
    assert SpaceEnd(s, to + 1) == to + 2;
  }

  // A paragraph with at most one newline behind it.
  lemma NoBreakAfter(s: string, from: nat, to: nat)
    requires from < to && |s| <= to + 1 && to <= |s| && IsParagraph(s[from..to])
    ensures NextBreak(s, from).None?
  {
    NoBreakInside(s, from, to);
    NextBreakIsLeftmost(s, from);
    hide IsParagraph, NextBreak;
  }

  lemma TrimOfOne(p: string, tail: string)
    requires Trimmed(p) && p != "" && (tail == "" || tail == "\n")
    ensures Trim(p + tail) == p
  {
    var s := p + tail;
    assert s[0] == p[0] && s[|p| - 1] == p[|p| - 1];
    assert SpaceEnd(s, 0) == 0;
    assert TrimmedEnd(s) == |p| by {
      if tail != "" {
        assert s[..|s| - 1] == p && IsSpace('\n');
      }
    }
    assert s[0..|p|] == p;
  }

  // From `from` on, s is `more`.
  predicate EndsIn(s: string, from: nat, more: string) {
    from <= |s| && s[from..] == more
  }

  lemma PartsAt(s: string, from: nat, p: string, between: string, more: string)
    requires EndsIn(s, from, p + between + more)
    ensures var to := from + |p|;
            && to + |between| + |more| == |s| && s[from..to] == p && EndsIn(s, to + |between|, more)
            && (forall i :: 0 <= i < |between| ==> s[to + i] == between[i])
  {
    var to := from + |p|;
    forall i | 0 <= i < |between| ensures s[to + i] == between[i] {
      assert s[from..][|p| + i] == between[i];
    }
  }

  lemma GapAt(s: string, from: nat, p: string, more: string)
    requires EndsIn(s, from, p + "\n\n" + more) && more != ""
    ensures var to := from + |p|;
            && to + 2 < |s| && s[from..to] == p && EndsIn(s, to + 2, more)
            && s[to] == '\n' && s[to + 1] == '\n' && s[to + 2] == more[0]
  {
    var to := from + |p|;
    PartsAt(s, from, p, "\n\n", more);
    assert s[to + 2..][0] == more[0];
  }

  lemma LastParagraph(s: string, from: nat, p: string, tail: string)
    requires EndsIn(s, from, p + tail) && IsParagraph(p) && (tail == "" || tail == "\n")
    ensures Paragraphs(s, from) == [p]
  {
    ParagraphIsText(p);
    assert p + tail == p + tail + "";
    PartsAt(s, from, p, tail, "");
    NoBreakAfter(s, from, from + |p|);
    TrimOfOne(p, tail);
    hide Trim, NextBreak, IsParagraph;
  }

  lemma FirstParagraph(s: string, from: nat, p: string, more: string)
    requires EndsIn(s, from, p + "\n\n" + more) && IsParagraph(p) && more != "" && !IsSpace(more[0])
    ensures from + |p| + 2 <= |s| && EndsIn(s, from + |p| + 2, more)
    ensures Paragraphs(s, from) == [p] + Paragraphs(s, from + |p| + 2)
  {
    ParagraphIsText(p);
    GapAt(s, from, p, more);
    BreakAfter(s, from, from + |p|);
    TrimmedIsFixed(p);
    hide Trim, NextBreak, IsParagraph, IsSpace;
  }

  // From `from` on, s is the paragraphs joined by blank lines, and `tail`.
  predicate IsJoined(s: string, from: nat, ps: seq<string>, tail: string) {
    EndsIn(s, from, Join(ps, "\n\n") + tail)
  }

  lemma JoinStep(s: string, from: nat, ps: seq<string>, tail: string)
    requires IsJoined(s, from, ps, tail) && |ps| > 1 && IsParagraph(ps[1])
    ensures var more := Join(ps[1..], "\n\n") + tail;
            EndsIn(s, from, ps[0] + "\n\n" + more) && more != "" && !IsSpace(more[0])
  {
    var rest := Join(ps[1..], "\n\n");
    assert rest != "" && rest[0] == ps[1][0];
    assert Join(ps, "\n\n") + tail == ps[0] + "\n\n" + (rest + tail);
  }

  // Paragraphs joined by blank lines, and perhaps a newline behind them, are the
  // paragraphs of the joined text.
  lemma {:induction false} JoinedParagraphs(s: string, from: nat, ps: seq<string>, tail: string)
    requires from <= |s| && IsJoined(s, from, ps, tail) && ps != [] && (tail == "" || tail == "\n")
    requires forall i :: 0 <= i < |ps| ==> IsParagraph(ps[i])
    ensures Paragraphs(s, from) == ps
    decreases |ps|
  {
    hide Trim, NextBreak, IsParagraph, IsSpace, EndsIn;
    if |ps| == 1 {
      assert ps == [ps[0]] && Join(ps, "\n\n") == ps[0];
      LastParagraph(s, from, ps[0], tail);
    } else {
      JoinStep(s, from, ps, tail);
      FirstParagraph(s, from, ps[0], Join(ps[1..], "\n\n") + tail);
      JoinedParagraphs(s, from + |ps[0]| + 2, ps[1..], tail);
    }
  }

  lemma ParagraphIsText(p: string)
    requires IsParagraph(p)
    ensures p != "" && Trimmed(p) && !IsSpace(p[0])
  {
  }

  lemma ConcatNonEmpty(p: string, rest: seq<string>)
    ensures Concat(NonEmpty(p) + rest) == p + Concat(rest)
  {
    if p == "" {
      assert NonEmpty(p) + rest == rest;
    } else {
      assert (NonEmpty(p) + rest)[1..] == rest;
    }
  }

  lemma ContentAroundGap(part: string, gap: string, rest: string)
    requires Blank(gap)
    ensures NonSpace(part + gap + rest) == NonSpace(Trim(part)) + NonSpace(rest)
  {
    hide *;
    TrimContent(part);
    BlankHasNoContent(gap);
    NonSpaceConcat(part + gap, rest);
    NonSpaceConcat(part, gap);
  }

  lemma FirstPartKeepsContent(part: string, gap: string, rest: string, ps: seq<string>)
    requires Blank(gap)
    requires NonSpace(Concat(ps)) == NonSpace(rest)
    ensures NonSpace(Concat(NonEmpty(Trim(part)) + ps)) == NonSpace(part + gap + rest)
  {
    hide *;
    ConcatNonEmpty(Trim(part), ps);
    NonSpaceConcat(Trim(part), Concat(ps));
    ContentAroundGap(part, gap, rest);
  }

  // Splitting into paragraphs loses whitespace only.
  lemma {:induction false} ParagraphsKeepContent(s: string, from: nat)
    requires from <= |s|
    ensures NonSpace(Concat(Paragraphs(s, from))) == NonSpace(s[from..])
    decreases |s| - from
  {
    match NextBreak(s, from)
    case None =>
      FirstPartKeepsContent(s[from..], "", "", []);
      assert s[from..] + "" + "" == s[from..];
      assert NonEmpty(Trim(s[from..])) + [] == NonEmpty(Trim(s[from..]));
    case Some(m) =>
      ParagraphsKeepContent(s, m.hi);
      FirstPartKeepsContent(s[from..m.lo], s[m.lo..m.hi], s[m.hi..], Paragraphs(s, m.hi));
      SliceInThree(s, from, m.lo, m.hi);
  }

  lemma SliceInThree(s: string, a: nat, b: nat, c: nat)
    requires a <= b <= c <= |s|
    ensures s[a..] == s[a..b] + s[b..c] + s[c..]
  {
  }

  // ---------- sentence boundaries: `[.!?]\s+` ----------

  predicate IsTerminator(c: char) {
    c == '.' || c == '!' || c == '?'
  }

  // A terminator with whitespace after it.
  predicate SentenceEnds(s: string, i: nat) {
    i + 1 < |s| && IsTerminator(s[i]) && IsSpace(s[i + 1])
  }

  function NextSentenceEnd(s: string, from: nat): (r: Option<Span>)
    requires from <= |s|
    ensures r.Some? ==> from <= r.value.lo && r.value.lo + 1 < r.value.hi <= |s|
    decreases |s| - from
  {
    if from == |s| then None
    else if SentenceEnds(s, from) then Some(Span(from, SpaceEnd(s, from + 1)))
    else NextSentenceEnd(s, from + 1)
  }

  // The boundary found is the leftmost one, its whitespace is taken whole, and
  // no boundary is missed.
  lemma {:induction false} NextSentenceEndIsLeftmost(s: string, from: nat)
    requires from <= |s|
    ensures var r := NextSentenceEnd(s, from);
            && (r.Some? ==> SentenceEnds(s, r.value.lo))
            && (r.Some? ==> forall k :: r.value.lo < k < r.value.hi ==> IsSpace(s[k]))
            && (r.Some? && r.value.hi < |s| ==> !IsSpace(s[r.value.hi]))
            && forall i :: from <= i < (if r.Some? then r.value.lo else |s|) ==> !SentenceEnds(s, i)
    decreases |s| - from
  {
    if from < |s| && !SentenceEnds(s, from) {
      NextSentenceEndIsLeftmost(s, from + 1);
    }
  }

  // The text cut after every sentence boundary, nothing dropped.
  function Tokens(s: string, from: nat): (ts: seq<string>)
    requires from <= |s|
    ensures forall t <- ts :: t != ""
    decreases |s| - from
  {
    match NextSentenceEnd(s, from)
    case None => NonEmpty(s[from..])
    case Some(m) => [s[from..m.hi]] + Tokens(s, m.hi)
  }

  // Joining the tokens reproduces the input.
  lemma {:induction false} TokensConcat(s: string, from: nat)
    requires from <= |s|
    ensures Concat(Tokens(s, from)) == s[from..]
    decreases |s| - from
  {
    match NextSentenceEnd(s, from)
    case None =>
      assert s[from..] + "" == s[from..];
    case Some(m) =>
      TokensConcat(s, m.hi);
      assert s[from..] == s[from..m.hi] + s[m.hi..];
  }

  // ---------- what sentence tokens are ----------

  // A full stop, an exclamation or a question mark, and whitespace after it.
  predicate StopsAt(t: string, k: nat) {
    k + 1 < |t| && (t[k] == '.' || t[k] == '!' || t[k] == '?') && IsSpace(t[k + 1])
  }

  // The whitespace after a stop runs to the end of t.
  predicate EndsAt(t: string, k: nat) {
    StopsAt(t, k) && forall j :: k < j < |t| ==> IsSpace(t[j])
  }

  ghost predicate IsWholeSentence(t: string) {
    exists k: nat :: EndsAt(t, k)
  }

  ghost predicate NoInnerStop(t: string) {
    forall k: nat :: StopsAt(t, k) ==> EndsAt(t, k)
  }

  predicate StartsInText(t: string) {
    t != "" && !IsSpace(t[0])
  }

  // Nonempty texts, of which each but the last ends with a stop and all the
  // whitespace after it, and none holds such a stop with more text behind it.
  ghost predicate CutAtSentences(ts: seq<string>) {
    && (forall i :: 0 <= i < |ts| ==> ts[i] != "" && NoInnerStop(ts[i]))
    && (forall i :: 0 <= i < |ts| - 1 ==> IsWholeSentence(ts[i]))
    && (forall i :: 0 < i < |ts| ==> StartsInText(ts[i]))
  }

  lemma StopsAreEnds(s: string, i: nat)
    ensures StopsAt(s, i) <==> SentenceEnds(s, i)
    ensures StopsAt(s, i) ==> !IsSpace(s[i])
  {
  }

  // The first token holds no stop but the one it ends with.
  lemma FirstTokenIsWhole(s: string, from: nat)
    requires from <= |s| && NextSentenceEnd(s, from).Some?
    ensures var m := NextSentenceEnd(s, from).value;
            IsWholeSentence(s[from..m.hi]) && NoInnerStop(s[from..m.hi])
  {
    var m := NextSentenceEnd(s, from).value;
    NextSentenceEndIsLeftmost(s, from);
    var t := s[from..m.hi];
    StopsAreEnds(s, m.lo);
    hide IsSpace, SentenceEnds, NextSentenceEnd;
    assert EndsAt(t, m.lo - from);
    forall k: nat | StopsAt(t, k) ensures EndsAt(t, k) {
      assert StopsAt(s, from + k);
      StopsAreEnds(s, from + k);
    }
  }

  lemma RestHasNoStop(s: string, from: nat)
    requires from <= |s| && NextSentenceEnd(s, from).None?
    ensures NoInnerStop(s[from..])
  {
    NextSentenceEndIsLeftmost(s, from);
    hide IsSpace, SentenceEnds, NextSentenceEnd;
    forall k: nat ensures !StopsAt(s[from..], k) {
      if StopsAt(s[from..], k) {
        assert StopsAt(s, from + k);
        StopsAreEnds(s, from + k);
      }
    }
  }

  lemma {:induction false} TokensAreCut(s: string, from: nat)
    requires from <= |s|
    ensures CutAtSentences(Tokens(s, from))
    ensures if from < |s| then Tokens(s, from) != [] && Tokens(s, from)[0] != "" && Tokens(s, from)[0][0] == s[from]
            else Tokens(s, from) == []
    decreases |s| - from
  {
    NextSentenceEndIsLeftmost(s, from);
    match NextSentenceEnd(s, from)
    case None =>
      RestHasNoStop(s, from);
    case Some(m) =>
      FirstTokenIsWhole(s, from);
      TokensAreCut(s, m.hi);
      hide IsWholeSentence, NoInnerStop, IsSpace, SentenceEnds, NextSentenceEnd;
      var rest := Tokens(s, m.hi);
      assert Tokens(s, from) == [s[from..m.hi]] + rest;
  }

  lemma FirstOfCut(s: string, from: nat, ts: seq<string>)
    requires from <= |s| && CutAtSentences(ts) && ts != [] && Concat(ts) == s[from..]
    ensures var n := from + |ts[0]|;
            && n <= |s| && s[from..n] == ts[0] && s[n..] == Concat(ts[1..]) && CutAtSentences(ts[1..])
            && (n < |s| <==> ts[1..] != []) && (n < |s| ==> !IsSpace(s[n]) && IsWholeSentence(ts[0]))
            && (ts[1..] == [] ==> [ts[0]] == ts)
  {
    hide IsSpace, IsWholeSentence, NoInnerStop;
    var t, rest := ts[0], ts[1..];
    assert s[from..] == t + Concat(rest);
    assert s[from..][..|t|] == t && s[from..][|t|..] == Concat(rest);
    if rest != [] {
      assert rest[0] == ts[1] && StartsInText(ts[1]);
      assert Concat(rest)[0] == rest[0][0];
      assert s[from + |t|..][0] == s[from + |t|];
    }
    forall i | 0 <= i < |rest| ensures rest[i] == ts[i + 1] {
    }
  }

  // A stretch that holds no stop but its own end, before the end of the text or a
  // character that is no whitespace, is the first token.
  lemma FirstCutIsFirstToken(s: string, from: nat, n: nat)
    requires from < n <= |s| && NoInnerStop(s[from..n])
    requires n < |s| ==> !IsSpace(s[n]) && IsWholeSentence(s[from..n])
    ensures Tokens(s, from) == [s[from..n]] + Tokens(s, n)
  {
    NextSentenceEndIsLeftmost(s, from);
    hide IsSpace, SentenceEnds, NextSentenceEnd;
    var t := s[from..n];
    if n < |s| {
      var k: nat :| EndsAt(t, k);
      assert StopsAt(s, from + k);
      StopsAreEnds(s, from + k);
    }
    match NextSentenceEnd(s, from)
    case None =>
      assert n == |s| && t == s[from..];
    case Some(m) =>
      StopsAreEnds(s, m.lo);
      assert StopsAt(t, m.lo - from);
      assert EndsAt(t, m.lo - from);
      assert forall j :: m.lo < j < n ==> s[j] == t[j - from];
      assert m.hi == n;
  }

  lemma {:induction false} CutIsTokens(s: string, from: nat, ts: seq<string>)
    requires from <= |s| && CutAtSentences(ts) && Concat(ts) == s[from..]
    ensures ts == Tokens(s, from)
    decreases |ts|
  {
    hide IsSpace, IsWholeSentence, NoInnerStop, Tokens;
    if ts == [] {
      assert |s[from..]| == 0;
      TokensAreCut(s, from);
    } else {
      FirstOfCut(s, from, ts);
      var n := from + |ts[0]|;
      FirstCutIsFirstToken(s, from, n);
      CutIsTokens(s, n, ts[1..]);
      assert ts == [ts[0]] + ts[1..];
    }
  }

  // The tokens are the only way of cutting the text at its sentences.
  lemma TokensExactly(text: string, ts: seq<string>)
    ensures ts == Tokens(text, 0) <==> Concat(ts) == text && CutAtSentences(ts)
  {
    hide *;
    assert text[0..] == text;
    TokensConcat(text, 0);
    TokensAreCut(text, 0);
    if Concat(ts) == text && CutAtSentences(ts) {
      CutIsTokens(text, 0, ts);
    }
  }

  // Parts alternate body, separator, body, ...; the token at an even i is the
  // body there with the separator that follows it.
  function TokenAt(parts: seq<string>, i: nat): string
    requires i < |parts|
  {
    parts[i] + if i + 1 < |parts| then parts[i + 1] else ""
  }

  // The nonempty tokens from i on.
  function Paired(parts: seq<string>, i: nat): seq<string>
    decreases |parts| - i
  {
    if i >= |parts| then [] else NonEmpty(TokenAt(parts, i)) + Paired(parts, i + 2)
  }

  lemma PairedStep(parts: seq<string>, i: nat, done: seq<string>)
    requires i < |parts|
    ensures done + Paired(parts, i) == (done + NonEmpty(TokenAt(parts, i))) + Paired(parts, i + 2)
  {
  }

  // The second loop of `sentence_tokens`: pair the parts up.
  method PairUp(parts: seq<string>) returns (tokens: seq<string>)
    ensures tokens == Paired(parts, 0)
  {
    tokens := [];
    var i := 0;
    while i < |parts|
      invariant 0 <= i
      invariant Paired(parts, 0) == tokens + Paired(parts, i)
    {
      var token := TokenAt(parts, i);
      PairedStep(parts, i, tokens);
      if token != "" {
        tokens := tokens + [token];
      } else {
        assert tokens + NonEmpty(token) == tokens;
      }
      i := i + 2;
    }
  }

  // The parts the first loop collects from a position on.
  function PartsFrom(s: string, from: nat): seq<string>
    requires from <= |s|
    decreases |s| - from
  {
    match NextSentenceEnd(s, from)
    case None => [s[from..]]
    case Some(m) => [s[from..m.lo], s[m.lo..m.hi]] + PartsFrom(s, m.hi)
  }

  lemma {:induction false} PairedShift(parts: seq<string>, rest: seq<string>, i: nat)
    requires |parts| == |rest| + 2
    requires forall k :: 0 <= k < |rest| ==> parts[k + 2] == rest[k]
    ensures Paired(parts, i + 2) == Paired(rest, i)
    decreases |rest| - i
  {
    hide TokenAt, NonEmpty;
    if i < |rest| {
      TokenShift(parts, rest, i);
      PairedShift(parts, rest, i + 2);
    }
  }

  lemma TokenShift(parts: seq<string>, rest: seq<string>, i: nat)
    requires |parts| == |rest| + 2 && i < |rest|
    requires forall k :: 0 <= k < |rest| ==> parts[k + 2] == rest[k]
    ensures TokenAt(parts, i + 2) == TokenAt(rest, i)
  {
    assert parts[i + 2] == rest[i];
    assert i + 1 < |rest| ==> parts[i + 1 + 2] == rest[i + 1];
  }

  // Pairing the parts gives the text cut after every boundary.
  lemma {:induction false} PartsPairToTokens(s: string, from: nat)
    requires from <= |s|
    ensures Paired(PartsFrom(s, from), 0) == Tokens(s, from)
    decreases |s| - from
  {
    match NextSentenceEnd(s, from)
    case None =>
      assert s[from..] + "" == s[from..];
    case Some(m) =>
      PartsPairToTokens(s, m.hi);
      var body, sep, rest := s[from..m.lo], s[m.lo..m.hi], PartsFrom(s, m.hi);
      PairedShift([body, sep] + rest, rest, 0);
      assert body + sep == s[from..m.hi];
      assert TokenAt([body, sep] + rest, 0) == s[from..m.hi];
  }

  method SentenceTokens(text: string) returns (tokens: seq<string>)
    ensures tokens == Tokens(text, 0)
    ensures Concat(tokens) == text && CutAtSentences(tokens)
  {
    TokensAreCut(text, 0);
    hide CutAtSentences;
    var parts: seq<string> := [];
    var last := 0;
    var m := NextSentenceEnd(text, 0);
    while m.Some?
      invariant last <= |text| && m == NextSentenceEnd(text, last)
      invariant PartsFrom(text, 0) == parts + PartsFrom(text, last)
      decreases |text| - last
    {
      parts := parts + [text[last..m.value.lo], text[m.value.lo..m.value.hi]];
      last := m.value.hi;
      m := NextSentenceEnd(text, last);
    }
    parts := parts + [text[last..]];
    PartsPairToTokens(text, 0);
    tokens := PairUp(parts);
    TokensConcat(text, 0);
    assert text[0..] == text;
  }
}
