// The sliding word window of the fixed-overlap chunker: words are located in the
// text, and every window is a verbatim slice from its first word to its last.
module WordWindows {
  import opened Text
  import opened Packing

  // ---------- words ----------

  // lo..hi is a run of non-space characters that cannot be extended.
  predicate IsWord(s: string, lo: nat, hi: nat) {
    && lo < hi <= |s|
    && (forall k :: lo <= k < hi ==> !IsSpace(s[k]))
    && (lo > 0 ==> IsSpace(s[lo - 1]))
    && (hi < |s| ==> IsSpace(s[hi]))
  }

  // The first position at or after i that is whitespace or the end.
  function WordEnd(s: string, i: nat): (e: nat)
    requires i <= |s|
    ensures i <= e <= |s|
    ensures forall k :: i <= k < e ==> !IsSpace(s[k])
    ensures e < |s| ==> IsSpace(s[e])
    decreases |s| - i
  {
    if i < |s| && !IsSpace(s[i]) then WordEnd(s, i + 1) else i
  }

  // The words from position i on.
  function Words(s: string, i: nat): seq<Span>
    requires i <= |s|
    decreases |s| - i
  {
    var lo := SpaceEnd(s, i);
    if lo == |s| then []
    else
      var hi := WordEnd(s, lo);
      [Span(lo, hi)] + Words(s, hi)
  }

  // The words start at or after i and are separated.
  predicate Separated(words: seq<Span>, i: nat) {
    && (words != [] ==> i <= words[0].lo)
    && forall k :: 0 <= k < |words| - 1 ==> words[k].hi < words[k + 1].lo
  }

  // Words(s, i) lists exactly the words that start at or after i, from left to
  // right, provided i does not split a word.
  lemma {:induction false} WordsAreTheWords(s: string, i: nat)
    requires i <= |s|
    requires i == 0 || i == |s| || IsSpace(s[i - 1]) || IsSpace(s[i])
    ensures Separated(Words(s, i), i)
    ensures forall lo, hi :: Span(lo, hi) in Words(s, i) <==> i <= lo && IsWord(s, lo, hi)
    decreases |s| - i
  {
    hide IsSpace;
    var lo := SpaceEnd(s, i);
    if lo < |s| {
      var hi := WordEnd(s, lo);
      var rest := Words(s, hi);
      WordsAreTheWords(s, hi);
      assert IsWord(s, lo, hi);
      forall x, y ensures Span(x, y) in Words(s, i) <==> i <= x && IsWord(s, x, y) {
        if i <= x && IsWord(s, x, y) {
          WordStartsAfterSpace(s, i, x, y);
          if x < hi {
            WordIsMaximal(s, lo, hi, x, y);
          }
        }
        assert Span(x, y) in Words(s, i) <==> (x == lo && y == hi) || Span(x, y) in rest;
      }
    } else {
      forall x, y | i <= x && IsWord(s, x, y) ensures false {
        WordStartsAfterSpace(s, i, x, y);
      }
    }
  }

  lemma WordStartsAfterSpace(s: string, i: nat, x: nat, y: nat)
    requires i <= x && IsWord(s, x, y)
    ensures SpaceEnd(s, i) <= x
  {
    hide IsSpace;
    assert !IsSpace(s[x]);
  }

  lemma WordIsMaximal(s: string, lo: nat, hi: nat, x: nat, y: nat)
    requires IsWord(s, lo, hi) && IsWord(s, x, y) && lo <= x < hi
    ensures x == lo && y == hi
  {
  }

  lemma WordsStep(s: string, i: nat)
    requires i <= |s| && SpaceEnd(s, i) < |s|
    ensures Words(s, i) == [Span(SpaceEnd(s, i), WordEnd(s, SpaceEnd(s, i)))] + Words(s, WordEnd(s, SpaceEnd(s, i)))
  {
    hide IsSpace;
  }

  // One round of the scan, seen from the words still to be found.
  lemma ScanStep(s: string, idx: nat)
    requires idx < |s|
    ensures IsSpace(s[idx]) ==> WordEnd(s, idx) == idx && Words(s, idx) == Words(s, idx + 1)
    ensures !IsSpace(s[idx]) ==> WordEnd(s, idx) == WordEnd(s, idx + 1)
    ensures !IsSpace(s[idx]) ==>
              Words(s, idx) == [Span(idx, WordEnd(s, idx + 1))] + Words(s, WordEnd(s, idx + 1))
  {
    hide IsSpace;
  }

  lemma ScanEnd(s: string)
    ensures WordEnd(s, |s|) == |s| && Words(s, |s|) == []
  {
  }

  // The scan of the source: character by character, remembering an open word.
  method ScanWords(content: string) returns (spans: seq<Span>)
    ensures spans == Words(content, 0)
  {
    hide *;
    spans := [];
    var start: Option<nat> := None;
    for idx := 0 to |content|
      invariant start.None? ==> Words(content, 0) == spans + Words(content, idx)
      invariant start.Some? ==> start.value < idx
      invariant start.Some? ==>
                  Words(content, 0)
                    == spans + [Span(start.value, WordEnd(content, idx))] + Words(content, WordEnd(content, idx))
    {
      ScanStep(content, idx);
      if IsSpace(content[idx]) {
        if start.Some? {
          spans := spans + [Span(start.value, idx)];
          start := None;
        }
      } else if start.None? {
        start := Some(idx);
      }
    }
    ScanEnd(content);
    if start.Some? {
      spans := spans + [Span(start.value, |content|)];
    }
  }

  // ---------- windows ----------

  // The windows over n words, as ranges of word numbers.
  function Windows(n: nat, window: nat, step: nat, i: nat): seq<Span>
    requires window > 0 && step > 0
    decreases n - i
  {
    if i >= n then []
    else if i + window >= n then [Span(i, n)]
    else [Span(i, i + window)] + Windows(n, window, step, i + step)
  }

  datatype WindowChunk = WindowChunk(text: string, startWord: nat, nWords: nat)

  // The text from the first word of a window to its last.
  function WindowText(content: string, words: seq<Span>, g: Span): string
    requires g.lo < g.hi <= |words| && words[g.lo].lo <= words[g.hi - 1].hi <= |content|
  {
    content[words[g.lo].lo..words[g.hi - 1].hi]
  }

  // Word positions are ordered and inside the text.
  predicate InText(words: seq<Span>, content: string) {
    && (forall k :: 0 <= k < |words| ==> words[k].lo < words[k].hi <= |content|)
    && forall j, k :: 0 <= j < k < |words| ==> words[j].hi <= words[k].lo
  }

  lemma {:induction false} WordsAreInText(s: string, i: nat)
    requires i <= |s|
    ensures InText(Words(s, i), s)
    ensures forall w <- Words(s, i) :: i <= w.lo
    decreases |s| - i
  {
    hide IsSpace;
    var lo := SpaceEnd(s, i);
    if lo < |s| {
      WordsAreInText(s, WordEnd(s, lo));
    }
  }

  function ChunkOf(content: string, words: seq<Span>, g: Span): WindowChunk
    requires g.lo < g.hi <= |words| && InText(words, content)
  {
    WindowChunk(WindowText(content, words, g), g.lo, g.hi - g.lo)
  }

  lemma {:induction false} WindowsAreInRange(n: nat, window: nat, step: nat, i: nat)
    requires window > 0 && step > 0
    ensures forall g <- Windows(n, window, step, i) :: g.lo < g.hi <= n
    decreases n - i
  {
    if i < n && i + window < n {
      WindowsAreInRange(n, window, step, i + step);
    }
  }

  // The loop of the fixed-overlap chunker: the k-th chunk is the k-th window,
  // verbatim.
  method WordWindowChunks(content: string, window: nat, step: nat) returns (chunks: seq<WindowChunk>)
    requires window > 0 && step > 0
    ensures var words := Words(content, 0);
            var gs := Windows(|words|, window, step, 0);
            && InText(words, content)
            && |chunks| == |gs|
            && forall k :: 0 <= k < |gs| ==>
                 gs[k].lo < gs[k].hi <= |words| && chunks[k] == ChunkOf(content, words, gs[k])
  {
    var spans := ScanWords(content);
    hide Words, WindowText;
    ghost var all := Windows(|spans|, window, step, 0);
    WordsAreInText(content, 0);
    WindowsAreInRange(|spans|, window, step, 0);
    chunks := [];
    var i := 0;
    while i < |spans|
      invariant |chunks| <= |all| && all[|chunks|..] == Windows(|spans|, window, step, i)
      invariant forall k :: 0 <= k < |chunks| ==>
                  all[k] in all && chunks[k] == ChunkOf(content, spans, all[k])
      decreases |spans| - i
    {
      var end := if i + window < |spans| then i + window else |spans|;
      ghost var g := all[|chunks|];
      assert g == all[|chunks|..][0] == Span(i, end);
      chunks := chunks + [WindowChunk(WindowText(content, spans, Span(i, end)), i, end - i)];
      assert all[|chunks|..] == all[|chunks| - 1..][1..];
      if i + window >= |spans| {
        break;
      }
      i := i + step;
    }
  }

  // ---------- what the windows cover ----------

  // a / b rounded up.
  function CeilDiv(a: nat, b: nat): (q: nat)
    requires b > 0
    ensures a <= q * b && (q > 0 ==> (q - 1) * b < a)
  {
    if a == 0 then 0
    else if a <= b then 1
    else
      var q := CeilDiv(a - b, b) + 1;
      assert (q - 1) * b + b == q * b;
      assert q > 1 ==> (q - 2) * b + b == (q - 1) * b;
      q
  }

  // The k-th window starts at word k * step, and is full unless it reaches the end.
  lemma {:induction false} WindowAt(n: nat, window: nat, step: nat, i: nat, k: nat)
    requires window > 0 && step > 0 && k < |Windows(n, window, step, i)|
    ensures var at := i + k * step;
            at < n && Windows(n, window, step, i)[k] == Span(at, if at + window < n then at + window else n)
    ensures k + 1 < |Windows(n, window, step, i)| ==> i + k * step + window < n
    decreases k
  {
    if k > 0 {
      WindowAt(n, window, step, i + step, k - 1);
      assert i + step + (k - 1) * step == i + k * step;
    }
  }

  // How many windows there are.
  lemma {:induction false} WindowCount(n: nat, window: nat, step: nat, i: nat)
    requires window > 0 && step > 0
    ensures |Windows(n, window, step, i)| ==
              if i >= n then 0
              else if n - i <= window then 1
              else if step <= window then CeilDiv(n - i - window, step) + 1
              else CeilDiv(n - i, step)
    decreases n - i
  {
    if i < n && n - i > window {
      WindowCount(n, window, step, i + step);
    }
  }

  // With step <= window the last window ends at the last word.
  lemma {:induction false} LastWindowReachesEnd(n: nat, window: nat, step: nat, i: nat)
    requires 0 < step <= window && i < n
    ensures var gs := Windows(n, window, step, i); gs != [] && gs[|gs| - 1].hi == n
    decreases n - i
  {
    if i + window < n {
      LastWindowReachesEnd(n, window, step, i + step);
    }
  }

  // Neighbouring windows share exactly window - step words.
  lemma NeighboursOverlap(n: nat, window: nat, step: nat, k: nat)
    requires 0 < step <= window && k + 1 < |Windows(n, window, step, 0)|
    ensures var gs := Windows(n, window, step, 0);
            gs[k + 1].lo <= gs[k].hi && gs[k].hi - gs[k + 1].lo == window - step
  {
    WindowAt(n, window, step, 0, k);
    WindowAt(n, window, step, 0, k + 1);
    assert (k + 1) * step == k * step + step;
  }

  ghost predicate Covered(gs: seq<Span>, word: nat) {
    exists g :: g in gs && g.lo <= word < g.hi
  }

  lemma {:induction false} WindowsCover(n: nat, window: nat, step: nat, i: nat, word: nat)
    requires 0 < step && 0 < window && i <= word < n
    requires step <= window || n - i <= window
    ensures Covered(Windows(n, window, step, i), word)
    decreases n - i
  {
    var gs := Windows(n, window, step, i);
    if i + window >= n || word < i + window {
      assert gs[0] in gs;
    } else {
      WindowsCover(n, window, step, i + step, word);
      var g :| g in Windows(n, window, step, i + step) && g.lo <= word < g.hi;
      assert g in gs;
    }
  }

  lemma {:induction false} WindowsStartAt(n: nat, window: nat, step: nat, i: nat)
    requires 0 < step && 0 < window
    ensures forall g <- Windows(n, window, step, i) :: i <= g.lo
    decreases n - i
  {
    if i < n && i + window < n {
      WindowsStartAt(n, window, step, i + step);
    }
  }

  // Every word is in some window exactly when step <= window or one window is
  // enough.
  lemma EveryWordCoveredExactly(n: nat, window: nat, step: nat)
    requires 0 < step && 0 < window
    ensures (forall word: nat :: word < n ==> Covered(Windows(n, window, step, 0), word))
       <==> step <= window || n <= window
  {
    if step <= window || n <= window {
      forall word: nat | word < n ensures Covered(Windows(n, window, step, 0), word) {
        WindowsCover(n, window, step, 0, word);
      }
    } else {
      WindowsStartAt(n, window, step, step);
      assert !Covered(Windows(n, window, step, 0), window);
    }
  }

  // ---------- a window holds its words and nothing else ----------

  function Shifted(words: seq<Span>, offset: nat): seq<Span> {
    seq(|words|, k requires 0 <= k < |words| => Span(words[k].lo + offset, words[k].hi + offset))
  }

  lemma {:induction false} SpaceEndInSlice(s: string, a: nat, b: nat, i: nat)
    requires a <= i <= b <= |s|
    ensures var e := SpaceEnd(s, i); SpaceEnd(s[a..b], i - a) == if e < b then e - a else b - a
    decreases b - i
  {
    hide IsSpace;
    if i < b && IsSpace(s[i]) {
      SpaceEndInSlice(s, a, b, i + 1);
    }
  }

  lemma {:induction false} WordEndInSlice(s: string, a: nat, b: nat, i: nat)
    requires a <= i <= b <= |s|
    ensures var e := WordEnd(s, i); WordEnd(s[a..b], i - a) == if e < b then e - a else b - a
    decreases b - i
  {
    hide IsSpace;
    if i < b && !IsSpace(s[i]) {
      WordEndInSlice(s, a, b, i + 1);
    }
  }

  lemma {:induction false} WordsSkipSpace(s: string, i: nat, j: nat)
    requires i <= |s| && i <= j <= SpaceEnd(s, i)
    ensures Words(s, i) == Words(s, j)
    decreases j - i
  {
    hide IsSpace;
    if i < j {
      WordsSkipSpace(s, i + 1, j);
    }
  }

  // Cutting the text at a place that does not split a word splits its words.
  lemma {:induction false} WordsOfSlice(s: string, a: nat, b: nat, i: nat)
    requires a <= i <= b <= |s| && (b == |s| || IsSpace(s[b]))
    ensures Words(s, i) == Shifted(Words(s[a..b], i - a), a) + Words(s, b)
    decreases b - i
  {
    hide *;
    var lo := SpaceEnd(s, i);
    SpaceEndInSlice(s, a, b, i);
    if lo >= b {
      WordsSkipSpace(s, i, b);
      NoWords(s[a..b], i - a);
      assert Words(s, i) == [] + Words(s, b);
    } else {
      WordEndInSlice(s, a, b, lo);
      FirstWordEnds(s, b, i);
      WordsOfSlice(s, a, b, WordEnd(s, lo));
      WordsOfSliceStep(s, a, b, i);
    }
  }

  lemma NoWords(s: string, i: nat)
    requires i <= |s| && SpaceEnd(s, i) == |s|
    ensures Words(s, i) == [] && Shifted([], i) == []
    ensures forall offset: nat :: Shifted(Words(s, i), offset) == []
  {
  }

  lemma FirstWordEnds(s: string, b: nat, i: nat)
    requires i <= b <= |s| && SpaceEnd(s, i) < b && (b == |s| || IsSpace(s[b]))
    ensures i < WordEnd(s, SpaceEnd(s, i)) <= b
  {
    hide IsSpace;
  }

  lemma ShiftedStep(w: Span, rest: seq<Span>, offset: nat)
    ensures Shifted([w] + rest, offset) == [Span(w.lo + offset, w.hi + offset)] + Shifted(rest, offset)
  {
  }

  lemma WordsOfSliceStep(s: string, a: nat, b: nat, i: nat)
    requires a <= i <= b <= |s| && SpaceEnd(s, i) < b && WordEnd(s, SpaceEnd(s, i)) <= b
    requires SpaceEnd(s[a..b], i - a) == SpaceEnd(s, i) - a
    requires WordEnd(s[a..b], SpaceEnd(s, i) - a) == WordEnd(s, SpaceEnd(s, i)) - a
    ensures var t, lo := s[a..b], SpaceEnd(s, i);
            var hi := WordEnd(s, lo);
            && Words(s, i) == [Span(lo, hi)] + Words(s, hi)
            && Shifted(Words(t, i - a), a) == [Span(lo, hi)] + Shifted(Words(t, hi - a), a)
  {
    hide *;
    var t, lo := s[a..b], SpaceEnd(s, i);
    var hi := WordEnd(s, lo);
    WordsStep(s, i);
    WordsStep(t, i - a);
    ShiftedStep(Span(lo - a, hi - a), Words(t, hi - a), a);
  }

  lemma {:induction false} WordsFromWord(s: string, i: nat, k: nat)
    requires i <= |s| && k < |Words(s, i)|
    ensures var w := Words(s, i);
            && w[k].hi <= |s| && w[k].lo < w[k].hi
            && Words(s, w[k].lo) == w[k..] && Words(s, w[k].hi) == w[k + 1..]
            && (w[k].hi < |s| ==> IsSpace(s[w[k].hi]))
    decreases k
  {
    hide IsSpace;
    var lo := SpaceEnd(s, i);
    var hi := WordEnd(s, lo);
    if k == 0 {
      WordsSkipSpace(s, i, lo);
    } else {
      WordsFromWord(s, hi, k - 1);
      assert Words(s, i)[k..] == Words(s, hi)[k - 1..];
      assert Words(s, i)[k + 1..] == Words(s, hi)[k..];
    }
  }

  // The words of a window's text are exactly the words of that window.
  lemma WindowTextHasItsWords(content: string, g: Span)
    requires var w := Words(content, 0); g.lo < g.hi <= |w| && InText(w, content)
    ensures var w := Words(content, 0);
            Shifted(Words(WindowText(content, w, g), 0), w[g.lo].lo) == w[g.lo..g.hi]
  {
    hide IsSpace, Words;
    var w := Words(content, 0);
    var a, b := w[g.lo].lo, w[g.hi - 1].hi;
    WordsFromWord(content, 0, g.lo);
    WordsFromWord(content, 0, g.hi - 1);
    WordsOfSlice(content, a, b, a);
    var inner := Shifted(Words(content[a..b], 0), a);
    assert w[g.lo..] == inner + w[g.hi..];
    assert w[g.lo..] == w[g.lo..g.hi] + w[g.hi..];
    assert |inner| == g.hi - g.lo;
    assert inner == w[g.lo..][..|inner|];
  }
}
