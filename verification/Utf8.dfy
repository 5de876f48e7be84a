/** The matcher works on bytes. Here a text is a sequence of characters, and its bytes are those of UTF-8. */
module Utf8 {
  import opened Glob

  predicate IsAscii(c: char) {
    c as int < 0x80
  }

  ghost predicate Ascii(s: string) {
    forall i | 0 <= i < |s| :: IsAscii(s[i])
  }

  /** The byte with the given value. */
  function Byte(n: int): (b: char)
    requires 0 <= n < 0x100
    ensures b as int == n
  {
    n as char
  }

  /** The bytes of one character (section 3 of RFC 3629). */
  function EncodeChar(c: char): (bytes: string)
    ensures IsAscii(c) ==> bytes == [c]
    ensures !IsAscii(c) ==> |bytes| >= 2 && forall i | 0 <= i < |bytes| :: !IsAscii(bytes[i])
  {
    var n := c as int;
    if n < 0x80 then [c]
    else if n < 0x800 then [Byte(0xC0 + n / 0x40), Byte(0x80 + n % 0x40)]
    else if n < 0x10000 then [Byte(0xE0 + n / 0x1000), Byte(0x80 + n / 0x40 % 0x40), Byte(0x80 + n % 0x40)]
    else [Byte(0xF0 + n / 0x40000), Byte(0x80 + n / 0x1000 % 0x40), Byte(0x80 + n / 0x40 % 0x40), Byte(0x80 + n % 0x40)]
  }

  /** What `[]byte(s)` gives. */
  function Encode(s: string): string {
    if s == "" then "" else EncodeChar(s[0]) + Encode(s[1..])
  }

  lemma {:induction false} EncodeAscii(s: string)
    requires Ascii(s)
    ensures Encode(s) == s
  {
    if s == "" {
    } else {
      EncodeAscii(s[1..]);
      assert s == [s[0]] + s[1..];
    }
  }

  lemma {:induction false} EncodeLength(s: string)
    ensures |Encode(s)| >= |s|
    ensures !Ascii(s) ==> |Encode(s)| > |s|
  {
    if s == "" {
    } else {
      EncodeLength(s[1..]);
      if IsAscii(s[0]) && Ascii(s[1..]) {
        assert forall i | 1 <= i < |s| :: s[i] == s[1..][i - 1];
      }
    }
  }

  lemma {:induction false} EncodeNonAscii(s: string)
    requires !Ascii(s)
    ensures exists i :: 0 <= i < |Encode(s)| && !IsAscii(Encode(s)[i])
  {
    if IsAscii(s[0]) {
      assert !Ascii(s[1..]) by {
        var i :| 0 <= i < |s| && !IsAscii(s[i]);
        assert s[1..][i - 1] == s[i];
      }
      EncodeNonAscii(s[1..]);
      var i :| 0 <= i < |Encode(s[1..])| && !IsAscii(Encode(s[1..])[i]);
      assert Encode(s)[i + 1] == Encode(s[1..])[i];
    } else {
      assert Encode(s)[0] == EncodeChar(s[0])[0];
    }
  }

  /** Every byte of a pattern that is no wildcard stands in each text that the pattern matches. */
  lemma {:induction false} LiteralStandsInText(p: string, s: string, i: nat)
    requires Matches(p, s) && i < |p| && p[i] != '*' && p[i] != '?'
    ensures p[i] in s
    decreases |p|
  {
    var j := UnconsCut(p, s);
    if i == 0 {
      assert s[..j][0] == p[0];
    } else {
      LiteralStandsInText(p[1..], s[j..], i - 1);
    }
  }

  lemma NonAsciiPattern(p: string, s: string)
    requires !Ascii(p) && Ascii(s)
    ensures !Matches(p, s)
  {
    var i :| 0 <= i < |p| && !IsAscii(p[i]);
    if Matches(p, s) {
      LiteralStandsInText(p, s, i);
    }
  }

  function Questions(n: nat): (p: string)
    ensures |p| == n && forall i | 0 <= i < n :: p[i] == '?'
  {
    seq(n, _ => '?')
  }

  lemma {:induction false} QuestionsMatchLength(n: nat, s: string)
    ensures Matches(Questions(n), s) <==> |s| == n
    decreases n
  {
    if n == 0 {
      EmptyPattern(s);
      assert Questions(0) == "";
    } else {
      assert Questions(n)[1..] == Questions(n - 1);
      ByteStep(Questions(n), s);
      if s != "" {
        QuestionsMatchLength(n - 1, s[1..]);
      }
    }
  }

  /** Matching bytes and matching characters is the same, for every pattern, exactly if the text is ASCII. */
  lemma BytesMatchLikeCharacters(s: string)
    ensures (forall p :: Matches(Encode(p), Encode(s)) <==> Matches(p, s)) <==> Ascii(s)
  {
    if Ascii(s) {
      EncodeAscii(s);
      forall p ensures Matches(Encode(p), s) <==> Matches(p, s) {
        if Ascii(p) {
          EncodeAscii(p);
        } else {
          EncodeNonAscii(p);
          NonAsciiPattern(p, s);
          NonAsciiPattern(Encode(p), s);
        }
      }
    } else {
      var p := Questions(|s|);
      EncodeAscii(p);
      EncodeLength(s);
      QuestionsMatchLength(|s|, s);
      QuestionsMatchLength(|s|, Encode(s));
      assert !(Matches(Encode(p), Encode(s)) <==> Matches(p, s));
    }
  }

  /** One `?` matches the character e with an acute accent, but not its two bytes C3 A9; two do. */
  lemma OneCharacterTwoBytes()
    ensures Encode("\U{E9}") == "\U{C3}\U{A9}"
    ensures Matches("?", "\U{E9}") && !Matches("?", Encode("\U{E9}")) && Matches("??", Encode("\U{E9}"))
  {
    assert Encode("\U{E9}") == EncodeChar('\U{E9}') + "";
    assert Questions(1) == "?" && Questions(2) == "??";
    QuestionsMatchLength(1, "\U{E9}");
    QuestionsMatchLength(1, Encode("\U{E9}"));
    QuestionsMatchLength(2, Encode("\U{E9}"));
  }

  // ---------------------------------------------------------------- patterns without `?`

  /** A byte that begins no character. */
  predicate Continues(b: char) {
    0x80 <= b as int < 0xC0
  }

  /** A reader finds its way: the first byte of a character is told from the others. */
  lemma CharBytes(c: char)
    ensures var e := EncodeChar(c);
            e != "" && !Continues(e[0]) && forall i | 1 <= i < |e| :: Continues(e[i])
    ensures c != '*' && c != '?' ==> forall b | b in EncodeChar(c) :: b != '*' && b != '?'
  {}

  function Value(bytes: string): int
    requires bytes != ""
  {
    var b := bytes[0] as int;
    if |bytes| == 1 then b
    else if |bytes| == 2 then (b - 0xC0) * 0x40 + (bytes[1] as int - 0x80)
    else if |bytes| == 3 then (b - 0xE0) * 0x1000 + (bytes[1] as int - 0x80) * 0x40 + (bytes[2] as int - 0x80)
    else if |bytes| == 4 then
      (b - 0xF0) * 0x40000 + (bytes[1] as int - 0x80) * 0x1000
      + (bytes[2] as int - 0x80) * 0x40 + (bytes[3] as int - 0x80)
    else b
  }

  lemma Digits(n: nat)
    ensures n == n / 0x40 * 0x40 + n % 0x40
    ensures n == n / 0x1000 * 0x1000 + n / 0x40 % 0x40 * 0x40 + n % 0x40
    ensures n == n / 0x40000 * 0x40000 + n / 0x1000 % 0x40 * 0x1000 + n / 0x40 % 0x40 * 0x40 + n % 0x40
  {
    TwoDigits(n);
    TwoDigits(n / 0x40);
  }

  lemma TwoDigits(n: nat)
    ensures n / 0x1000 == n / 0x40 / 0x40 && n / 0x40000 == n / 0x1000 / 0x40
    ensures n == n / 0x40 * 0x40 + n % 0x40
  {}

  lemma ValueOfChar(c: char)
    ensures Value(EncodeChar(c)) == c as int
  {
    var n, e := c as int, EncodeChar(c);
    Digits(n);
    if 0x80 <= n < 0x800 {
      assert e == [Byte(0xC0 + n / 0x40), Byte(0x80 + n % 0x40)];
    } else if 0x800 <= n < 0x10000 {
      assert e == [Byte(0xE0 + n / 0x1000), Byte(0x80 + n / 0x40 % 0x40), Byte(0x80 + n % 0x40)];
    }
  }

  lemma FirstByteTellsLength(c: char, d: char)
    requires EncodeChar(c)[0] == EncodeChar(d)[0]
    ensures |EncodeChar(c)| == |EncodeChar(d)|
  {}

  /** No character is the beginning of another. */
  lemma FirstChar(c: char, s: string)
    ensures EncodeChar(c) <= Encode(s) <==> s != "" && s[0] == c
  {
    CharBytes(c);
    if s != "" && EncodeChar(c) <= Encode(s) {
      var e, d := EncodeChar(c), EncodeChar(s[0]);
      assert Encode(s)[0] == d[0];
      FirstByteTellsLength(c, s[0]);
      assert e == Encode(s)[..|e|] == d;
      ValueOfChar(c);
      ValueOfChar(s[0]);
    }
  }

  lemma {:induction false} EncodeConcat(a: string, b: string)
    ensures Encode(a + b) == Encode(a) + Encode(b)
  {
    if a == "" {
      assert a + b == b;
    } else {
      assert (a + b)[1..] == a[1..] + b;
      EncodeConcat(a[1..], b);
    }
  }

  lemma EncodeAt(s: string, m: nat)
    requires m <= |s|
    ensures var k := |Encode(s[..m])|; k <= |Encode(s)| && Encode(s)[k..] == Encode(s[m..])
  {
    assert s == s[..m] + s[m..];
    EncodeConcat(s[..m], s[m..]);
  }

  /** The last character boundary up to byte j; beyond it there are continuation bytes only. */
  lemma {:induction false} Boundary(s: string, j: nat) returns (m: nat)
    requires j <= |Encode(s)|
    ensures m <= |s| && |Encode(s[..m])| <= j
    ensures |Encode(s[..m])| == j || (j < |Encode(s)| && Continues(Encode(s)[j]))
  {
    if s == "" || j == 0 {
      m := 0;
    } else {
      var e := EncodeChar(s[0]);
      CharBytes(s[0]);
      if j < |e| {
        m := 0;
      } else {
        var m' := Boundary(s[1..], j - |e|);
        m := m' + 1;
        assert s[..m] == [s[0]] + s[1..][..m'];
      }
    }
  }

  lemma LiteralBlock(e: string, q: string, b: string)
    requires '*' !in e && '?' !in e
    ensures Matches(e + q, b) <==> e <= b && Matches(q, b[|e|..])
  {
    ConcatPattern(e, q, b);
    if i: nat :| i <= |b| && Matches(e, b[..i]) && Matches(q, b[i..]) {
      LiteralPattern(e, b[..i]);
    }
    if e <= b {
      LiteralPattern(e, b[..|e|]);
    }
  }

  /** A star that matches from byte j on matches from any earlier byte on. */
  lemma StarReachesBack(q: string, b: string, k: nat, j: nat)
    requires k <= j <= |b| && q != "" && q[0] == '*' && Matches(q, b[j..])
    ensures Matches(q, b[k..])
  {
    StarStep(q, b[j..]);
    var i: nat :| i <= |b[j..]| && Matches(q[1..], b[j..][i..]);
    assert b[j..][i..] == b[k..][j - k + i..];
    StarStep(q, b[k..]);
  }

  /** A match that begins inside a character can as well begin at its first byte. */
  lemma MoveToBoundary(q: string, s: string, j: nat) returns (m: nat)
    requires '?' !in q && j <= |Encode(s)| && Matches(Encode(q), Encode(s)[j..])
    ensures m <= |s| && Matches(Encode(q), Encode(s[m..]))
  {
    var b := Encode(s);
    m := Boundary(s, j);
    EncodeAt(s, m);
    var k := |Encode(s[..m])|;
    if k != j {
      EmptyPattern(b[j..]);
      CharBytes(q[0]);
      if q[0] == '*' {
        StarReachesBack(Encode(q), b, k, j);
      } else {
        ByteStep(Encode(q), b[j..]);
        assert false;
      }
    }
  }

  /** A pattern without `?` matches the bytes of a text exactly if it matches its characters, on every text. */
  lemma {:induction false} WithoutQuestionMark(p: string, s: string)
    requires '?' !in p
    ensures Matches(Encode(p), Encode(s)) <==> Matches(p, s)
    decreases |p|, 1
  {
    if p == "" {
      EmptyPattern(s);
      EmptyPattern(Encode(s));
    } else if p[0] == '*' {
      StarOnBytes(p, s);
    } else {
      var e := EncodeChar(p[0]);
      CharBytes(p[0]);
      LiteralBlock(e, Encode(p[1..]), Encode(s));
      FirstChar(p[0], s);
      ByteStep(p, s);
      if s != "" && s[0] == p[0] {
        assert Encode(s)[|e|..] == Encode(s[1..]);
        WithoutQuestionMark(p[1..], s[1..]);
      }
    }
  }

  lemma {:induction false} StarOnBytes(p: string, s: string)
    requires p != "" && p[0] == '*' && '?' !in p
    ensures Matches(Encode(p), Encode(s)) <==> Matches(p, s)
    decreases |p|, 0
  {
    var q := p[1..];
    assert Encode(p) == "*" + Encode(q) && Encode(p)[1..] == Encode(q);
    StarStep(p, s);
    StarStep(Encode(p), Encode(s));
    if Matches(p, s) {
      var i: nat :| i <= |s| && Matches(q, s[i..]);
      WithoutQuestionMark(q, s[i..]);
      EncodeAt(s, i);
    }
    if Matches(Encode(p), Encode(s)) {
      var j: nat :| j <= |Encode(s)| && Matches(Encode(q), Encode(s)[j..]);
      var m := MoveToBoundary(q, s, j);
      WithoutQuestionMark(q, s[m..]);
    }
  }
}
