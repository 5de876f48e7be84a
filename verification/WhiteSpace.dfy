/** `strings.TrimSpace` on bytes against trimming of characters. */
module WhiteSpace {
  import opened Text
  import opened Utf8

  /** `unicode.IsSpace`, by code point. */
  predicate IsWhite(c: char) {
    || '\U{09}' <= c <= '\U{0D}' || c == ' ' || c == '\U{85}' || c == '\U{A0}' || c == '\U{1680}'
    || '\U{2000}' <= c <= '\U{200A}' || c == '\U{2028}' || c == '\U{2029}' || c == '\U{202F}'
    || c == '\U{205F}' || c == '\U{3000}'
  }

  /** White space in front and at the end taken off, character by character. */
  function TrimCharacters(s: string): string
    decreases |s|
  {
    if s != "" && IsWhite(s[0]) then TrimCharacters(s[1..])
    else if s != "" && IsWhite(s[|s| - 1]) then TrimCharacters(s[..|s| - 1])
    else s
  }

  // ---------------------------------------------------------------- one character

  lemma WhiteIsShort(c: char)
    ensures IsWhite(c) ==> 1 <= |EncodeChar(c)| <= 3
    ensures |EncodeChar(c)| == 1 ==> (IsWhite(c) <==> IsSpace1(c))
  {}

  lemma WhiteOfTwo(c: char)
    requires |EncodeChar(c)| == 2
    ensures var e := EncodeChar(c); IsWhite(c) <==> IsSpace2(e[0], e[1])
  {
    ValueOfChar(c);
    CharBytes(c);
  }

  lemma WhiteOfThree(c: char)
    requires |EncodeChar(c)| == 3
    ensures var e := EncodeChar(c); IsWhite(c) <==> IsSpace3(e[0], e[1], e[2])
  {
    ValueOfChar(c);
    CharBytes(c);
  }

  lemma LeadByte(c: char)
    ensures var e := EncodeChar(c);
            && (|e| == 1 ==> e[0] as int < 0x80) && (|e| == 2 ==> 0xC0 <= e[0] as int < 0xE0)
            && (|e| == 3 ==> 0xE0 <= e[0] as int < 0xF0) && (|e| == 4 ==> 0xF0 <= e[0] as int)
            && 1 <= |e| <= 4
  {}

  /** Bytes of another character do not make white space of this one, in front. */
  lemma SpaceOfChar(c: char, b: string)
    ensures SpaceAt(EncodeChar(c) + b, 0) == if IsWhite(c) then |EncodeChar(c)| else 0
  {
    var e := EncodeChar(c);
    var s := e + b;
    assert s[..|e|] == e && forall i | 0 <= i < |e| :: s[i] == e[i];
    LeadByte(c);
    WhiteIsShort(c);
    if |e| == 2 {
      WhiteOfTwo(c);
    } else if |e| == 3 {
      WhiteOfThree(c);
    }
  }

  /** Nor at the end. */
  lemma SpaceBeforeChar(b: string, c: char, lo: nat)
    requires lo <= |b|
    ensures SpaceBefore(b + EncodeChar(c), lo, |b| + |EncodeChar(c)|) == if IsWhite(c) then |EncodeChar(c)| else 0
  {
    var e := EncodeChar(c);
    var s := b + e;
    assert forall i | 0 <= i < |e| :: s[|b| + i] == e[i];
    LeadByte(c);
    CharBytes(c);
    WhiteIsShort(c);
    if |e| == 2 {
      WhiteOfTwo(c);
    } else if |e| == 3 {
      WhiteOfThree(c);
    }
  }

  // ---------------------------------------------------------------- white space in front

  lemma {:induction false} SkipShift(w: string, b: string, i: nat)
    requires i <= |b|
    ensures SkipSpace(w + b, |w| + i) == |w| + SkipSpace(b, i)
    decreases |b| - i
  {
    var s := w + b;
    assert forall j | 0 <= j < |b| :: s[|w| + j] == b[j];
    assert SpaceAt(s, |w| + i) == SpaceAt(b, i);
    if SpaceAt(b, i) > 0 {
      SkipShift(w, b, i + SpaceAt(b, i));
    }
  }

  lemma {:induction false} DropShift(w: string, b: string, lo: nat, j: nat)
    requires lo <= j <= |b|
    ensures DropSpace(w + b, |w| + lo, |w| + j) == |w| + DropSpace(b, lo, j)
    decreases j
  {
    var s := w + b;
    assert forall k | 0 <= k < |b| :: s[|w| + k] == b[k];
    assert SpaceBefore(s, |w| + lo, |w| + j) == SpaceBefore(b, lo, j);
    if SpaceBefore(b, lo, j) > 0 {
      DropShift(w, b, lo, j - SpaceBefore(b, lo, j));
    }
  }

  /** Between lo and hi is what trimming leaves. */
  ghost predicate CutAt(s: string, lo: nat, hi: nat) {
    lo <= hi <= |s| && SkipSpace(s, 0) == lo && DropSpace(s, lo, |s|) == hi
  }

  lemma IsCutAt(s: string) returns (lo: nat, hi: nat)
    ensures CutAt(s, lo, hi) && lo == SkipSpace(s, 0)
  {
    lo := SkipSpace(s, 0);
    hi := DropSpace(s, lo, |s|);
  }

  lemma TrimAtCut(s: string, lo: nat, hi: nat)
    requires CutAt(s, lo, hi)
    ensures Trim(s) == s[lo..hi]
  {}

  lemma SkipOne(s: string, i: nat)
    requires i <= |s| && SpaceAt(s, i) > 0
    ensures SkipSpace(s, i) == SkipSpace(s, i + SpaceAt(s, i))
  {}

  lemma DropOne(s: string, lo: nat, j: nat)
    requires lo <= j <= |s| && SpaceBefore(s, lo, j) > 0
    ensures DropSpace(s, lo, j) == DropSpace(s, lo, j - SpaceBefore(s, lo, j))
  {}

  lemma SliceBeside(w: string, b: string, lo: nat, hi: nat)
    requires lo <= hi <= |b|
    ensures (w + b)[|w| + lo..|w| + hi] == b[lo..hi] && (b + w)[lo..hi] == b[lo..hi]
  {
    assert (w + b)[|w|..|w| + |b|] == b && (b + w)[0..|b|] == b;
    SliceOfSlice(w + b, |w|, |w| + |b|, lo, hi);
    SliceOfSlice(b + w, 0, |b|, lo, hi);
  }

  lemma FrontIsCut(w: string, b: string, lo: nat, hi: nat)
    requires CutAt(b, lo, hi) && SkipSpace(w + b, 0) == |w| + lo
    ensures CutAt(w + b, |w| + lo, |w| + hi)
  {
    var n := |w + b|;
    assert n == |w| + |b|;
    DropShift(w, b, lo, |b|);
  }

  lemma SkipFront(c: char, b: string)
    requires IsWhite(c)
    ensures SkipSpace(EncodeChar(c) + b, 0) == |EncodeChar(c)| + SkipSpace(b, 0)
  {
    SpaceOfChar(c, b);
    CharBytes(c);
    SkipOne(EncodeChar(c) + b, 0);
    SkipShift(EncodeChar(c), b, 0);
  }

  /** One white character in front of any bytes is taken off. */
  lemma TrimFront(c: char, b: string)
    requires IsWhite(c)
    ensures Trim(EncodeChar(c) + b) == Trim(b)
  {
    SkipFront(c, b);
    FrontIsGone(EncodeChar(c), b);
  }

  lemma FrontIsGone(w: string, b: string)
    requires SkipSpace(w + b, 0) == |w| + SkipSpace(b, 0)
    ensures Trim(w + b) == Trim(b)
  {
    var lo, hi := IsCutAt(b);
    FrontIsCut(w, b, lo, hi);
    TrimAtCut(b, lo, hi);
    TrimAtCut(w + b, |w| + lo, |w| + hi);
    SliceBeside(w, b, lo, hi);
  }

  // ---------------------------------------------------------------- white space at the end

  lemma NoSpaceAcross(b: string, e: string, i: nat)
    requires i < |b| && e != "" && !Continues(e[0])
    ensures SpaceAt(b + e, i) == SpaceAt(b, i)
  {
    var s := b + e;
    assert s[..|b|] == b && s[|b|] == e[0];
    assert forall j | 0 <= j < |b| :: s[j] == b[j];
  }

  /** Two texts with the same white space up to n, when the shorter one ends there. */
  lemma {:induction false} SkipAlike(s: string, b: string, i: nat, n: nat)
    requires i <= |b| <= |s| && SkipSpace(s, |b|) == n
    requires forall k | 0 <= k < |b| :: SpaceAt(s, k) == SpaceAt(b, k)
    ensures SkipSpace(s, i) == if SkipSpace(b, i) < |b| then SkipSpace(b, i) else n
    decreases |b| - i
  {
    if i < |b| && SpaceAt(b, i) > 0 {
      SkipAlike(s, b, i + SpaceAt(b, i), n);
    }
  }

  lemma SkipBefore(b: string, e: string)
    requires e != "" && !Continues(e[0]) && SkipSpace(e, 0) == |e|
    ensures SkipSpace(b + e, 0) == if SkipSpace(b, 0) < |b| then SkipSpace(b, 0) else |b| + |e|
  {
    forall k | 0 <= k < |b| ensures SpaceAt(b + e, k) == SpaceAt(b, k) {
      NoSpaceAcross(b, e, k);
    }
    SkipShift(b, e, 0);
    SkipAlike(b + e, b, 0, |b| + |e|);
  }

  lemma {:induction false} DropSame(b: string, e: string, lo: nat, j: nat)
    requires lo <= j <= |b|
    ensures DropSpace(b + e, lo, j) == DropSpace(b, lo, j)
    decreases j
  {
    assert forall k | 0 <= k < |b| :: (b + e)[k] == b[k];
    assert SpaceBefore(b + e, lo, j) == SpaceBefore(b, lo, j);
    if SpaceBefore(b, lo, j) > 0 {
      DropSame(b, e, lo, j - SpaceBefore(b, lo, j));
    }
  }

  lemma BackIsCut(b: string, e: string, lo: nat, hi: nat)
    requires CutAt(b, lo, hi) && SkipSpace(b + e, 0) == lo
    requires SpaceBefore(b + e, lo, |b| + |e|) == |e| > 0
    ensures CutAt(b + e, lo, hi)
  {
    var n := |b + e|;
    assert n == |b| + |e|;
    DropOne(b + e, lo, n);
    DropSame(b, e, lo, |b|);
  }

  lemma AllIsCut(b: string, e: string)
    requires SkipSpace(b, 0) == |b| && SkipSpace(b + e, 0) == |b| + |e|
    ensures Trim(b + e) == Trim(b)
  {
    assert (b + e)[|b| + |e|..] == "" == b[|b|..];
  }

  lemma SkipBack(b: string, c: char)
    requires IsWhite(c)
    ensures SkipSpace(b + EncodeChar(c), 0) == if SkipSpace(b, 0) < |b| then SkipSpace(b, 0) else |b| + |EncodeChar(c)|
  {
    CharBytes(c);
    SkipFront(c, "");
    assert EncodeChar(c) + "" == EncodeChar(c);
    SkipBefore(b, EncodeChar(c));
  }

  /** One white character at the end of any bytes is taken off. */
  lemma TrimBack(b: string, c: char)
    requires IsWhite(c)
    ensures Trim(b + EncodeChar(c)) == Trim(b)
  {
    var e := EncodeChar(c);
    var lo, hi := IsCutAt(b);
    SkipBack(b, c);
    CharBytes(c);
    if lo < |b| {
      SpaceBeforeChar(b, c, lo);
      BackIsCut(b, e, lo, hi);
      TrimAtCut(b, lo, hi);
      TrimAtCut(b + e, lo, hi);
      SliceBeside(e, b, lo, hi);
    } else {
      AllIsCut(b, e);
    }
  }

  // ---------------------------------------------------------------- whole texts

  lemma EncodeSplit(s: string)
    requires s != ""
    ensures Encode(s) == EncodeChar(s[0]) + Encode(s[1..])
    ensures Encode(s) == Encode(s[..|s| - 1]) + EncodeChar(s[|s| - 1])
  {
    var last := s[|s| - 1];
    assert s == s[..|s| - 1] + [last];
    EncodeConcat(s[..|s| - 1], [last]);
    assert Encode([last]) == EncodeChar(last) + Encode("") == EncodeChar(last);
  }

  /** Trimming the UTF-8 bytes of a text is trimming its characters, on every text. */
  lemma {:induction false} TrimOfCharacters(s: string)
    ensures Trim(Encode(s)) == Encode(TrimCharacters(s))
    decreases |s|
  {
    if s == "" {
    } else {
      EncodeSplit(s);
      var front, last := s[..|s| - 1], s[|s| - 1];
      if IsWhite(s[0]) {
        TrimFront(s[0], Encode(s[1..]));
        TrimOfCharacters(s[1..]);
      } else if IsWhite(last) {
        TrimBack(Encode(front), last);
        TrimOfCharacters(front);
      } else {
        SpaceOfChar(s[0], Encode(s[1..]));
        SpaceBeforeChar(Encode(front), last, 0);
      }
    }
  }

  /** In particular the blanks that people write behind commas do not count. */
  lemma BlankIsTrimmed(s: string)
    ensures Trim(" " + s) == Trim(s) && Trim(s + " ") == Trim(s)
  {
    TrimFront(' ', s);
    TrimBack(s, ' ');
    assert EncodeChar(' ') == " ";
  }
}
