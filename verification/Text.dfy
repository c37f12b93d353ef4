// Strings as sequences of characters, with the text operations the splitters
// share. Lengths are counts of characters, as `chars().count()` is.
module Text {

  datatype Option<+T> = None | Some(value: T)

  // The Unicode White_Space property: `char::is_whitespace` and the regex
  // class `\s` are both this set.
  predicate IsSpace(c: char) {
    || '\t' <= c <= '\r'
    || c == ' '
    || c == '\U{85}'
    || c == '\U{A0}'
    || c == '\U{1680}'
    || '\U{2000}' <= c <= '\U{200A}'
    || c == '\U{2028}'
    || c == '\U{2029}'
    || c == '\U{202F}'
    || c == '\U{205F}'
    || c == '\U{3000}'
  }

  const SPACES: string :=
    "\t\n\U{0B}\U{0C}\r \U{85}\U{A0}\U{1680}\U{2000}\U{2001}\U{2002}\U{2003}\U{2004}\U{2005}\U{2006}\U{2007}"
    + "\U{2008}\U{2009}\U{200A}\U{2028}\U{2029}\U{202F}\U{205F}\U{3000}"

  // One by one, the 25 characters of the property.
  lemma SpacesAre(c: char)
    ensures |SPACES| == 25 && (IsSpace(c) <==> c in SPACES)
  {
    var s := SPACES;
    assert s[9..20] == "\U{2000}\U{2001}\U{2002}\U{2003}\U{2004}\U{2005}\U{2006}\U{2007}\U{2008}\U{2009}\U{200A}";
    assert s[..9] == "\t\n\U{0B}\U{0C}\r \U{85}\U{A0}\U{1680}";
  }

  predicate Blank(s: string) {
    forall i :: 0 <= i < |s| ==> IsSpace(s[i])
  }

  // The characters of s that carry content.
  function NonSpace(s: string): string {
    if s == "" then ""
    else (if IsSpace(s[0]) then "" else [s[0]]) + NonSpace(s[1..])
  }

  lemma {:induction false} NonSpaceConcat(a: string, b: string)
    ensures NonSpace(a + b) == NonSpace(a) + NonSpace(b)
  {
    if a == "" {
      assert a + b == b;
    } else {
      assert (a + b)[1..] == a[1..] + b;
      NonSpaceConcat(a[1..], b);
    }
  }

  lemma {:induction false} BlankHasNoContent(s: string)
    ensures Blank(s) <==> NonSpace(s) == ""
  {
    if s != "" {
      BlankHasNoContent(s[1..]);
      assert s == [s[0]] + s[1..];
    }
  }

  function Concat(pieces: seq<string>): string {
    if pieces == [] then "" else pieces[0] + Concat(pieces[1..])
  }

  lemma {:induction false} ConcatAppend(a: seq<string>, b: seq<string>)
    ensures Concat(a + b) == Concat(a) + Concat(b)
  {
    if a == [] {
      assert a + b == b;
    } else {
      assert (a + b)[1..] == a[1..] + b;
      ConcatAppend(a[1..], b);
    }
  }

  // `parts.join(sep)`.
  function Join(parts: seq<string>, sep: string): string {
    if parts == [] then ""
    else if |parts| == 1 then parts[0]
    else parts[0] + sep + Join(parts[1..], sep)
  }

  lemma {:induction false} JoinSnoc(parts: seq<string>, last: string, sep: string)
    requires parts != []
    ensures Join(parts + [last], sep) == Join(parts, sep) + sep + last
  {
    assert (parts + [last])[1..] == parts[1..] + [last];
    if |parts| > 1 {
      JoinSnoc(parts[1..], last, sep);
    } else {
      assert parts[1..] + [last] == [last];
    }
  }

  lemma {:induction false} JoinContent(parts: seq<string>, sep: string)
    requires Blank(sep)
    ensures NonSpace(Join(parts, sep)) == NonSpace(Concat(parts))
  {
    if |parts| == 1 {
      assert parts[1..] == [];
      assert parts[0] + "" == parts[0];
    } else if |parts| > 1 {
      JoinContent(parts[1..], sep);
      BlankHasNoContent(sep);
      NonSpaceConcat(parts[0] + sep, Join(parts[1..], sep));
      NonSpaceConcat(parts[0], sep);
      NonSpaceConcat(parts[0], Concat(parts[1..]));
    }
  }

  // The first position at or after i that is not whitespace.
  function SpaceEnd(s: string, i: nat): (e: nat)
    requires i <= |s|
    ensures i <= e <= |s|
    ensures forall k :: i <= k < e ==> IsSpace(s[k])
    ensures e < |s| ==> !IsSpace(s[e])
    decreases |s| - i
  {
    if i < |s| && IsSpace(s[i]) then SpaceEnd(s, i + 1) else i
  }

  // The end of s once its trailing whitespace is gone.
  function TrimmedEnd(s: string): (e: nat)
    ensures e <= |s|
    ensures forall k :: e <= k < |s| ==> IsSpace(s[k])
    ensures e > 0 ==> !IsSpace(s[e - 1])
  {
    if s != "" && IsSpace(s[|s| - 1]) then TrimmedEnd(s[..|s| - 1]) else |s|
  }

  // `str::trim`.
  function Trim(s: string): (t: string)
    ensures |t| <= |s|
    ensures t != "" ==> !IsSpace(t[0]) && !IsSpace(t[|t| - 1])
  {
    var a := SpaceEnd(s, 0);
    var b := TrimmedEnd(s);
    if a < b then s[a..b] else ""
  }

  lemma ContentOfThree(a: string, b: string, c: string)
    requires Blank(a) && Blank(c)
    ensures NonSpace(a + b + c) == NonSpace(b)
  {
    hide *;
    BlankHasNoContent(a);
    BlankHasNoContent(c);
    NonSpaceConcat(a + b, c);
    NonSpaceConcat(a, b);
  }

  lemma TrimContent(s: string)
    ensures NonSpace(Trim(s)) == NonSpace(s)
  {
    hide IsSpace, NonSpace;
    var a, b := SpaceEnd(s, 0), TrimmedEnd(s);
    if a < b {
      assert s == s[..a] + s[a..b] + s[b..];
      ContentOfThree(s[..a], s[a..b], s[b..]);
    } else {
      assert Blank(s);
      BlankHasNoContent(s);
      BlankHasNoContent("");
    }
  }

  // Trimmed text: what `trim` leaves alone.
  predicate Trimmed(s: string) {
    s != "" ==> !IsSpace(s[0]) && !IsSpace(s[|s| - 1])
  }

  lemma TrimmedIsFixed(s: string)
    requires Trimmed(s)
    ensures Trim(s) == s
  {
    if s != "" {
      assert TrimmedEnd(s) == |s|;
      assert s[0..|s|] == s;
    }
  }
}
