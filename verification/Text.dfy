/** Strings as the org_mapping code sees them: sequences of bytes, one `char` a byte.
    This module holds the parts of Go's `strings` package that the code relies on. */
module Text {

  // ---------------------------------------------------------------- Split and Join

  /** `strings.Split` with a one-byte separator. */
  function SplitOn(s: string, sep: char): (pieces: seq<string>)
    ensures |pieces| >= 1
  {
    if s == "" then [""]
    else
      var rest := SplitOn(s[1..], sep);
      if s[0] == sep then [""] + rest else [[s[0]] + rest[0]] + rest[1..]
  }

  /** `strings.Join` with a one-byte separator. */
  function Join(pieces: seq<string>, sep: char): string {
    if pieces == [] then ""
    else if |pieces| == 1 then pieces[0]
    else pieces[0] + [sep] + Join(pieces[1..], sep)
  }

  /** Splitting distributes over a separator, whatever the two sides hold. */
  lemma {:induction false} SplitOnConcat(a: string, sep: char, b: string)
    ensures SplitOn(a + [sep] + b, sep) == SplitOn(a, sep) + SplitOn(b, sep)
  {
    if a == "" {
      assert a + [sep] + b == [sep] + b;
    } else {
      assert (a + [sep] + b)[1..] == a[1..] + [sep] + b;
      SplitOnConcat(a[1..], sep, b);
    }
  }

  lemma {:induction false} SplitOnFree(s: string, sep: char)
    requires sep !in s
    ensures SplitOn(s, sep) == [s]
  {
    if s == "" {
    } else {
      SplitOnFree(s[1..], sep);
      assert [s[0]] + s[1..] == s;
    }
  }

  lemma {:induction false} PiecesAreFree(s: string, sep: char)
    ensures forall p | p in SplitOn(s, sep) :: sep !in p
  {
    if s == "" {
    } else {
      PiecesAreFree(s[1..], sep);
      assert SplitOn(s[1..], sep)[0] in SplitOn(s[1..], sep);
    }
  }

  lemma {:induction false} SplitOnJoin(pieces: seq<string>, sep: char)
    requires pieces != []
    requires forall p | p in pieces :: sep !in p
    ensures SplitOn(Join(pieces, sep), sep) == pieces
  {
    SplitOnFree(pieces[0], sep);
    if |pieces| > 1 {
      SplitOnConcat(pieces[0], sep, Join(pieces[1..], sep));
      SplitOnJoin(pieces[1..], sep);
    }
  }

  /** Joining undoes splitting, for every text; joining nothing gives nothing. */
  lemma {:induction false} JoinOfSplit(s: string, sep: char)
    ensures Join(SplitOn(s, sep), sep) == s
    ensures Join([], sep) == ""
  {
    if s == "" {
    } else {
      var rest := SplitOn(s[1..], sep);
      JoinOfSplit(s[1..], sep);
      assert s == [s[0]] + s[1..];
      if s[0] == sep {
        assert ([""] + rest)[1..] == rest;
      } else {
        assert ([[s[0]] + rest[0]] + rest[1..])[1..] == rest[1..];
        assert [s[0]] + rest[0] + [sep] + Join(rest[1..], sep) == [s[0]] + (rest[0] + [sep] + Join(rest[1..], sep));
      }
    }
  }

  // ---------------------------------------------------------------- Contains

  ghost predicate OccursAt(s: string, t: string, i: nat) {
    i + |t| <= |s| && s[i..i + |t|] == t
  }

  /** `strings.Contains(s, t)`. */
  ghost predicate HasSubstring(s: string, t: string) {
    exists i: nat :: OccursAt(s, t, i)
  }

  lemma SliceOfSlice(s: string, lo: nat, hi: nat, i: nat, j: nat)
    requires lo <= hi <= |s| && i <= j <= hi - lo
    ensures s[lo..hi][i..j] == s[lo + i..lo + j]
  {
    forall k | 0 <= k < j - i ensures s[lo..hi][i..j][k] == s[lo + i..lo + j][k] {}
  }

  lemma SubstringInContext(pre: string, t: string, post: string)
    ensures HasSubstring(pre + t + post, t)
  {
    assert OccursAt(pre + t + post, t, |pre|);
  }

  /** The same for a text between two delimiters. */
  lemma DelimitedInContext(pre: string, t: string, post: string)
    ensures HasSubstring(pre + ":" + (t + ":" + post), ":" + t + ":")
  {
    SubstringInContext(pre, ":" + t + ":", post);
    assert pre + (":" + t + ":") + post == pre + ":" + (t + ":" + post);
  }

  /** Run-time search, one offset after the other. */
  method Contains(s: string, t: string) returns (found: bool)
    ensures found <==> HasSubstring(s, t)
  {
    var i := 0;
    while i + |t| <= |s|
      invariant forall j: nat | j < i :: !OccursAt(s, t, j)
    {
      if s[i..i + |t|] == t {
        assert OccursAt(s, t, i);
        return true;
      }
      i := i + 1;
    }
    return false;
  }

  // ---------------------------------------------------------------- TrimSpace

  /** White space of one, two and three bytes: the UTF-8 encodings of what `unicode.IsSpace` accepts, namely
      six ASCII characters; U+0085, U+00A0; U+1680, U+2000..U+200A, U+2028, U+2029, U+202F, U+205F, U+3000. */
  predicate IsSpace1(a: char) {
    a == ' ' || a == '\t' || a == '\n' || a == '\r' || a == '\U{0B}' || a == '\U{0C}'
  }

  predicate IsSpace2(a: char, b: char) {
    a == '\U{C2}' && (b == '\U{85}' || b == '\U{A0}')
  }

  predicate IsSpace3(a: char, b: char, c: char) {
    || (a == '\U{E1}' && b == '\U{9A}' && c == '\U{80}')
    || (a == '\U{E2}' && b == '\U{80}'
        && ('\U{80}' <= c <= '\U{8A}' || c == '\U{A8}' || c == '\U{A9}' || c == '\U{AF}'))
    || (a == '\U{E2}' && b == '\U{81}' && c == '\U{9F}')
    || (a == '\U{E3}' && b == '\U{80}' && c == '\U{80}')
  }

  /** Bytes that occur in no white-space character, among them all that the mapping format gives a meaning to. */
  predicate IsMark(c: char) {
    c == ':' || c == ',' || c == '\\' || 'A' <= c <= 'Z' || 'a' <= c <= 'z'
  }

  /** No marked byte in s[lo..hi]. */
  ghost predicate Unmarked(s: string, lo: nat, hi: nat)
    requires lo <= hi <= |s|
  {
    forall i | lo <= i < hi :: !IsMark(s[i])
  }

  /** Width of the white-space character that begins at i, 0 when there is none. */
  function SpaceAt(s: string, i: nat): (w: nat)
    requires i <= |s|
    ensures i + w <= |s| && Unmarked(s, i, i + w)
  {
    if i + 1 <= |s| && IsSpace1(s[i]) then 1
    else if i + 2 <= |s| && IsSpace2(s[i], s[i + 1]) then 2
    else if i + 3 <= |s| && IsSpace3(s[i], s[i + 1], s[i + 2]) then 3
    else 0
  }

  /** Width of the white-space character that ends at j, and begins no earlier than at lo; 0 when there is none. */
  function SpaceBefore(s: string, lo: nat, j: nat): (w: nat)
    requires lo <= j <= |s|
    ensures lo + w <= j && Unmarked(s, j - w, j)
  {
    if lo + 1 <= j && IsSpace1(s[j - 1]) then 1
    else if lo + 2 <= j && IsSpace2(s[j - 2], s[j - 1]) then 2
    else if lo + 3 <= j && IsSpace3(s[j - 3], s[j - 2], s[j - 1]) then 3
    else 0
  }

  /** Where the white space that begins at i ends. */
  function SkipSpace(s: string, i: nat): (start: nat)
    requires i <= |s|
    ensures i <= start <= |s| && Unmarked(s, i, start) && SpaceAt(s, start) == 0
    decreases |s| - i
  {
    var w := SpaceAt(s, i);
    if w == 0 then i else SkipSpace(s, i + w)
  }

  /** Where the white space that ends at j begins. */
  function DropSpace(s: string, lo: nat, j: nat): (stop: nat)
    requires lo <= j <= |s|
    ensures lo <= stop <= j && Unmarked(s, stop, j)
    decreases j
  {
    var w := SpaceBefore(s, lo, j);
    if w == 0 then j else DropSpace(s, lo, j - w)
  }

  /** `strings.TrimSpace`. */
  function Trim(s: string): string {
    var start := SkipSpace(s, 0);
    s[start..DropSpace(s, start, |s|)]
  }

  /** Width of the white-space character that s begins with. */
  function LeadingSpace(s: string): nat {
    SpaceAt(s, 0)
  }

  /** Trimming takes a prefix and a suffix off, and neither holds a byte with a meaning in the format. */
  lemma TrimRemoves(s: string) returns (lo: nat, hi: nat)
    ensures lo <= hi <= |s| && Trim(s) == s[lo..hi]
    ensures Unmarked(s, 0, lo) && Unmarked(s, hi, |s|)
    ensures lo == 0 <==> LeadingSpace(s) == 0
  {
    lo := SkipSpace(s, 0);
    hi := DropSpace(s, lo, |s|);
  }

  /** A text with a marked byte (a letter, say) at its end loses white space in front and nothing else. */
  lemma TrimOfMarkedEnd(s: string) returns (lo: nat)
    requires s != "" && IsMark(s[|s| - 1])
    ensures lo < |s| && Trim(s) == s[lo..] && LeadingSpace(Trim(s)) == 0
    ensures lo == 0 <==> LeadingSpace(s) == 0
  {
    lo := SkipSpace(s, 0);
    var hi := DropSpace(s, lo, |s|);
    assert hi == |s|;
    assert SpaceAt(s, lo) == 0;
  }

  /** An occurrence that begins and ends with a marked byte lies between unmarked ends. */
  lemma DelimitedInside(s: string, lo: nat, hi: nat, t: string)
    requires lo <= hi <= |s| && Unmarked(s, 0, lo) && Unmarked(s, hi, |s|)
    requires t != "" && IsMark(t[0]) && IsMark(t[|t| - 1])
    ensures HasSubstring(s[lo..hi], t) <==> HasSubstring(s, t)
  {
    var mid := s[lo..hi];
    forall i: nat | OccursAt(mid, t, i) ensures OccursAt(s, t, lo + i) {
      SliceOfSlice(s, lo, hi, i, i + |t|);
    }
    forall i: nat | OccursAt(s, t, i) ensures i >= lo && OccursAt(mid, t, i - lo) {
      assert s[i] == s[i..i + |t|][0] && s[i + |t| - 1] == s[i..i + |t|][|t| - 1];
      SliceOfSlice(s, lo, hi, i - lo, i - lo + |t|);
    }
    if i: nat :| OccursAt(s, t, i) {
      assert OccursAt(mid, t, i - lo);
    }
  }

  /** Looking for `:o:` before or after trimming makes no difference. */
  lemma TrimKeepsDelimited(s: string, o: string)
    ensures HasSubstring(Trim(s), ":" + o + ":") <==> HasSubstring(s, ":" + o + ":")
  {
    var lo, hi := TrimRemoves(s);
    DelimitedInside(s, lo, hi, ":" + o + ":");
  }
}
