/** The group patterns of org_mapping: `*` is any text, `?` is any one byte, every other byte is itself. */
module Glob {

  // ---------------------------------------------------------------- the language, without a matcher

  /** Whether a piece of text is what one pattern byte stands for. */
  predicate Fits(c: char, piece: string) {
    if c == '*' then true
    else if c == '?' then |piece| == 1
    else piece == [c]
  }

  function Flatten(cut: seq<string>): string {
    if cut == [] then "" else cut[0] + Flatten(cut[1..])
  }

  /** A cut of s into consecutive pieces, one for each pattern byte, each of which fits its byte. */
  ghost predicate IsCut(p: string, s: string, cut: seq<string>) {
    && |cut| == |p|
    && Flatten(cut) == s
    && forall i | 0 <= i < |p| :: Fits(p[i], cut[i])
  }

  ghost predicate Matches(p: string, s: string) {
    exists cut :: IsCut(p, s, cut)
  }

  // ---------------------------------------------------------------- one step of a match

  lemma ConsCut(c: char, p: string, piece: string, s: string)
    requires Fits(c, piece) && Matches(p, s)
    ensures Matches([c] + p, piece + s)
  {
    var cut :| IsCut(p, s, cut);
    assert IsCut([c] + p, piece + s, [piece] + cut);
  }

  lemma UnconsCut(p: string, s: string) returns (i: nat)
    requires p != "" && Matches(p, s)
    ensures i <= |s| && Fits(p[0], s[..i]) && Matches(p[1..], s[i..])
  {
    var cut :| IsCut(p, s, cut);
    i := |cut[0]|;
    assert s[..i] == cut[0] && s[i..] == Flatten(cut[1..]);
    assert IsCut(p[1..], s[i..], cut[1..]);
  }

  lemma EmptyPattern(s: string)
    ensures Matches("", s) <==> s == ""
  {
    assert IsCut("", "", []);
  }

  lemma StarStep(p: string, s: string)
    requires p != "" && p[0] == '*'
    ensures Matches(p, s) <==> exists i: nat :: i <= |s| && Matches(p[1..], s[i..])
  {
    assert p == ['*'] + p[1..];
    if Matches(p, s) {
      var i := UnconsCut(p, s);
    }
    if i: nat :| i <= |s| && Matches(p[1..], s[i..]) {
      assert s == s[..i] + s[i..];
      ConsCut('*', p[1..], s[..i], s[i..]);
    }
  }

  lemma ByteStep(p: string, s: string)
    requires p != "" && p[0] != '*'
    ensures Matches(p, s) <==> s != "" && (p[0] == '?' || p[0] == s[0]) && Matches(p[1..], s[1..])
  {
    assert p == [p[0]] + p[1..];
    if Matches(p, s) {
      var i := UnconsCut(p, s);
      assert i == 1;
    }
    if s != "" && (p[0] == '?' || p[0] == s[0]) && Matches(p[1..], s[1..]) {
      assert s == [s[0]] + s[1..];
      ConsCut(p[0], p[1..], [s[0]], s[1..]);
    }
  }

  // ---------------------------------------------------------------- the matcher

  /** `globMatchBytes`: backtracks by recursion at each star, and walks both texts otherwise. */
  method GlobMatch(pattern: string, text: string) returns (matched: bool)
    ensures matched <==> Matches(pattern, text)
    decreases |pattern|
  {
    var p, s := pattern, text;
    while |p| > 0
      invariant |p| <= |pattern|
      invariant Matches(p, s) <==> Matches(pattern, text)
      decreases |p|
    {
      if p[0] == '*' {
        StarStep(p, s);
        if |p| == 1 {
          assert p[1..] == "";
          EmptyPattern(s[|s|..]);
          return true;
        }
        var i := 0;
        while i <= |s|
          invariant 0 <= i <= |s| + 1
          invariant forall j: nat | j < i :: !Matches(p[1..], s[j..])
        {
          var rest := GlobMatch(p[1..], s[i..]);
          if rest {
            return true;
          }
          i := i + 1;
        }
        return false;
      } else if p[0] == '?' {
        ByteStep(p, s);
        if |s| == 0 {
          return false;
        }
        p, s := p[1..], s[1..];
      } else {
        ByteStep(p, s);
        if |s| == 0 || p[0] != s[0] {
          return false;
        }
        p, s := p[1..], s[1..];
      }
    }
    EmptyPattern(s);
    return |s| == 0;
  }

  // ---------------------------------------------------------------- algebra

  lemma {:induction false} FlattenConcat(a: seq<string>, b: seq<string>)
    ensures Flatten(a + b) == Flatten(a) + Flatten(b)
  {
    if a == [] {
      assert a + b == b;
    } else {
      assert (a + b)[1..] == a[1..] + b;
      FlattenConcat(a[1..], b);
    }
  }

  /** A pattern in two parts matches exactly the texts that have a cut into matches of the parts. */
  lemma ConcatPattern(p: string, q: string, s: string)
    ensures Matches(p + q, s) <==> exists i: nat :: i <= |s| && Matches(p, s[..i]) && Matches(q, s[i..])
  {
    if Matches(p + q, s) {
      var cut :| IsCut(p + q, s, cut);
      var a, b := cut[..|p|], cut[|p|..];
      FlattenConcat(a, b);
      assert cut == a + b;
      var i := |Flatten(a)|;
      assert s[..i] == Flatten(a) && s[i..] == Flatten(b);
      assert forall k | 0 <= k < |q| :: (p + q)[|p| + k] == q[k] && cut[|p| + k] == b[k];
      assert IsCut(p, s[..i], a) && IsCut(q, s[i..], b);
    }
    if i: nat :| i <= |s| && Matches(p, s[..i]) && Matches(q, s[i..]) {
      var a :| IsCut(p, s[..i], a);
      var b :| IsCut(q, s[i..], b);
      FlattenConcat(a, b);
      assert s == s[..i] + s[i..];
      assert IsCut(p + q, s, a + b);
    }
  }

  /** Two stars are one star, between any two patterns. */
  lemma DoubleStar(p: string, q: string, s: string)
    ensures Matches(p + "**" + q, s) <==> Matches(p + "*" + q, s)
  {
    assert p + "**" + q == p + ("**" + q) && p + "*" + q == p + ("*" + q);
    ConcatPattern(p, "**" + q, s);
    ConcatPattern(p, "*" + q, s);
    forall i: nat | i <= |s| ensures Matches("**" + q, s[i..]) <==> Matches("*" + q, s[i..]) {
      DoubleStarFront(q, s[i..]);
    }
  }

  lemma DoubleStarFront(q: string, s: string)
    ensures Matches("**" + q, s) <==> Matches("*" + q, s)
  {
    assert ("**" + q)[1..] == "*" + q && ("*" + q)[1..] == q;
    StarStep("**" + q, s);
    StarStep("*" + q, s);
    if Matches("**" + q, s) {
      var i: nat :| i <= |s| && Matches("*" + q, s[i..]);
      StarStep("*" + q, s[i..]);
      var j: nat :| j <= |s[i..]| && Matches(q, s[i..][j..]);
      assert s[i..][j..] == s[i + j..];
    }
    if Matches("*" + q, s) {
      assert s[0..] == s;
    }
  }

  function Singletons(s: string): seq<string> {
    seq(|s|, i requires 0 <= i < |s| => [s[i]])
  }

  lemma {:induction false} FlattenSingletons(s: string)
    ensures Flatten(Singletons(s)) == s
  {
    if s == "" {
    } else {
      assert Singletons(s)[1..] == Singletons(s[1..]);
      FlattenSingletons(s[1..]);
    }
  }

  lemma MatchesItself(p: string)
    ensures Matches(p, p)
  {
    FlattenSingletons(p);
    assert IsCut(p, p, Singletons(p));
  }

  /** A pattern without wildcards is the name of one group. */
  lemma LiteralPattern(p: string, s: string)
    requires '*' !in p && '?' !in p
    ensures Matches(p, s) <==> s == p
  {
    MatchesItself(p);
    if Matches(p, s) {
      var cut :| IsCut(p, s, cut);
      assert cut == Singletons(p);
      FlattenSingletons(p);
    }
  }

  /** A star at the end matches any continuation, at the front any beginning. */
  lemma PrefixPattern(p: string, s: string)
    requires '*' !in p && '?' !in p
    ensures Matches(p + "*", s) <==> p <= s
    ensures Matches("*" + p, s) <==> |p| <= |s| && s[|s| - |p|..] == p
  {
    ConcatPattern(p, "*", s);
    ConcatPattern("*", p, s);
    forall i: nat | i <= |s|
      ensures Matches("*", s[i..]) && Matches("*", s[..i])
      ensures (Matches(p, s[..i]) <==> s[..i] == p) && (Matches(p, s[i..]) <==> s[i..] == p)
    {
      StarMatchesAll(s[i..]);
      StarMatchesAll(s[..i]);
      LiteralPattern(p, s[..i]);
      LiteralPattern(p, s[i..]);
    }
    if p <= s {
      assert s[..|p|] == p;
    }
  }

  lemma StarMatchesAll(s: string)
    ensures Matches("*", s)
  {
    assert IsCut("*", s, [s]);
  }

  /** A question mark matches one byte, whichever it is, and no less or more. */
  lemma OneByteBetween(p: string, q: string, s: string)
    requires '*' !in p && '?' !in p && '*' !in q && '?' !in q
    ensures Matches(p + "?" + q, s) <==> |s| == |p| + 1 + |q| && s[..|p|] == p && s[|p| + 1..] == q
  {
    assert p + "?" + q == p + ("?" + q);
    ConcatPattern(p, "?" + q, s);
    forall i: nat | i <= |s|
      ensures Matches(p, s[..i]) <==> s[..i] == p
      ensures Matches("?" + q, s[i..]) <==> i < |s| && s[i + 1..] == q
    {
      LiteralPattern(p, s[..i]);
      ByteStep("?" + q, s[i..]);
      assert ("?" + q)[1..] == q && (i < |s| ==> s[i..][1..] == s[i + 1..]);
      if i < |s| {
        LiteralPattern(q, s[i + 1..]);
      }
    }
    if i: nat :| i <= |s| && Matches(p, s[..i]) && Matches("?" + q, s[i..]) {
      assert s[..i] == p && |s[i + 1..]| == |q|;
    }
    if |s| == |p| + 1 + |q| && s[..|p|] == p && s[|p| + 1..] == q {
      assert Matches(p, s[..|p|]) && Matches("?" + q, s[|p|..]);
    }
  }

  /** q is p with some bytes turned into wildcards that allow more. */
  ghost predicate Generalizes(q: string, p: string) {
    && |q| == |p|
    && forall i | 0 <= i < |p| :: q[i] == p[i] || q[i] == '*' || (q[i] == '?' && p[i] != '*')
  }

  lemma GeneralizedMatchesMore(p: string, q: string, s: string)
    requires Generalizes(q, p) && Matches(p, s)
    ensures Matches(q, s)
  {
    var cut :| IsCut(p, s, cut);
    assert IsCut(q, s, cut);
  }
}
