/** The substring test `OrgMappingContains` against what the mapping really says. */
module Shortcut {
  import opened Text
  import opened Fields
  import opened OrgMapping
  import opened RoundTrip

  // ---------------------------------------------------------------- where `:o:` can occur in a text

  /** The pieces begin with those of os, and go on. */
  ghost predicate HeadRun(ps: seq<string>, os: seq<string>) {
    |ps| > |os| && forall i | 0 <= i < |os| :: ps[i] == os[i]
  }

  lemma HeadRunStep(ps: seq<string>, os: seq<string>, d: char, c: char)
    requires ps != [] && os != []
    ensures HeadRun([""] + ps, [""] + os) <==> HeadRun(ps, os)
    ensures HeadRun([[d] + ps[0]] + ps[1..], [[c] + os[0]] + os[1..]) <==> d == c && HeadRun(ps, os)
  {
    var ps', os' := [""] + ps, [""] + os;
    assert forall i | 0 <= i < |os| :: os'[i + 1] == os[i];
    assert forall i | 0 <= i < |ps| :: ps'[i + 1] == ps[i];
    var qs, rs := [[d] + ps[0]] + ps[1..], [[c] + os[0]] + os[1..];
    assert qs[0][0] == d && rs[0][0] == c && qs[0][1..] == ps[0] && rs[0][1..] == os[0];
    assert forall i | 1 <= i < |os| :: rs[i] == os[i];
    assert forall i | 1 <= i < |ps| :: qs[i] == ps[i];
  }

  /** `o:` stands at the front of s exactly when the pieces of o are the first of s, and not all. */
  lemma {:induction false} FrontOccurrence(s: string, o: string)
    ensures OccursAt(s, o + ":", 0) <==> HeadRun(SplitOn(s, ':'), SplitOn(o, ':'))
    decreases |o|
  {
    if s == "" {
      assert |SplitOn(s, ':')| == 1;
    } else if o == "" {
      assert o + ":" == [':'] + "";
      OccursAfterFirst(s, ':', "");
      assert OccursAt(s[1..], "", 0);
      assert SplitOn(o, ':') == [""];
      assert SplitOn(s, ':')[0] == "" <==> s[0] == ':';
    } else {
      FrontOccurrence(s[1..], o[1..]);
      assert o + ":" == [o[0]] + (o[1..] + ":");
      OccursAfterFirst(s, o[0], o[1..] + ":");
      FrontSplit(s, o);
    }
  }

  lemma FrontSplit(s: string, o: string)
    requires s != "" && o != ""
    ensures HeadRun(SplitOn(s, ':'), SplitOn(o, ':')) <==>
            s[0] == o[0] && HeadRun(SplitOn(s[1..], ':'), SplitOn(o[1..], ':'))
  {
    var ps, os := SplitOn(s[1..], ':'), SplitOn(o[1..], ':');
    HeadRunStep(ps, os, s[0], o[0]);
    assert SplitOn(s, ':')[0] == if s[0] == ':' then "" else [s[0]] + ps[0];
    assert SplitOn(o, ':')[0] == if o[0] == ':' then "" else [o[0]] + os[0];
  }

  lemma OccursAfterFirst(s: string, c: char, t: string)
    requires s != ""
    ensures OccursAt(s, [c] + t, 0) <==> s[0] == c && OccursAt(s[1..], t, 0)
  {
    var ct := [c] + t;
    if |ct| <= |s| {
      assert s[0..|ct|] == [s[0]] + s[1..][0..|t|];
      assert s[0..|ct|][1..] == s[1..][0..|t|] && ct[1..] == t;
    }
  }

  /** An occurrence is at the front, or it is one of the rest. */
  lemma SubstringCons(s: string, t: string)
    requires s != "" && t != ""
    ensures HasSubstring(s, t) <==> OccursAt(s, t, 0) || HasSubstring(s[1..], t)
  {
    forall i: nat ensures OccursAt(s, t, i + 1) <==> OccursAt(s[1..], t, i) {
      if i + 1 + |t| <= |s| {
        SliceOfSlice(s, 1, |s|, i, i + |t|);
      }
    }
    if i: nat :| OccursAt(s, t, i) {
      assert i > 0 ==> OccursAt(s[1..], t, i - 1);
    }
    if i: nat :| OccursAt(s[1..], t, i) {
      assert OccursAt(s, t, i + 1);
    }
  }

  /** os stands among the pieces at k, with a piece before it and a piece behind it. */
  ghost predicate InnerRunAt(ps: seq<string>, os: seq<string>, k: nat) {
    1 <= k <= |ps| && HeadRun(ps[k..], os)
  }

  ghost predicate InnerRun(ps: seq<string>, os: seq<string>) {
    exists k: nat :: InnerRunAt(ps, os, k)
  }

  lemma InnerRunStep(ps: seq<string>, os: seq<string>, c: char)
    requires ps != [] && os != []
    ensures InnerRun([""] + ps, os) <==> HeadRun(ps, os) || InnerRun(ps, os)
    ensures InnerRun([[c] + ps[0]] + ps[1..], os) <==> InnerRun(ps, os)
  {
    var ps', qs := [""] + ps, [[c] + ps[0]] + ps[1..];
    forall k: nat | k <= |ps|
      ensures InnerRunAt(ps', os, k + 1) <==> HeadRun(ps[k..], os)
      ensures k > 0 ==> (InnerRunAt(qs, os, k) <==> HeadRun(ps[k..], os))
    {
      assert ps'[k + 1..] == ps[k..];
      assert k > 0 ==> qs[k..] == ps[k..];
    }
    assert ps[0..] == ps;
    if k: nat :| InnerRunAt(ps', os, k) {
      assert InnerRunAt(ps', os, (k - 1) + 1);
      assert k - 1 > 0 ==> InnerRunAt(ps, os, k - 1);
    }
    if k: nat :| InnerRunAt(ps, os, k) {
      assert InnerRunAt(ps', os, k + 1) && InnerRunAt(qs, os, k);
    }
    if HeadRun(ps, os) {
      assert InnerRunAt(ps', os, 0 + 1);
    }
    if k: nat :| InnerRunAt(qs, os, k) {
      assert InnerRunAt(ps, os, k);
    }
  }

  /** `:o:` occurs exactly when the pieces of o stand in one run between the first and the last piece. */
  lemma {:induction false} InnerOccurrence(s: string, o: string)
    ensures HasSubstring(s, ":" + o + ":") <==> InnerRun(SplitOn(s, ':'), SplitOn(o, ':'))
  {
    var t := ":" + o + ":";
    if s == "" {
      assert |SplitOn(s, ':')| == 1;
    } else {
      InnerOccurrence(s[1..], o);
      FrontOccurrence(s[1..], o);
      SubstringCons(s, t);
      assert t == [':'] + (o + ":");
      OccursAfterFirst(s, ':', o + ":");
      InnerRunStep(SplitOn(s[1..], ':'), SplitOn(o, ':'), s[0]);
    }
  }

  /** o is one of the pieces, and neither the first nor the last. */
  ghost predicate IsInner(pieces: seq<string>, o: string) {
    exists k :: 1 <= k < |pieces| - 1 && pieces[k] == o
  }

  lemma InnerPiece(ps: seq<string>, o: string)
    requires ':' !in o
    ensures InnerRun(ps, SplitOn(o, ':')) <==> IsInner(ps, o)
  {
    SplitOnFree(o, ':');
    if k :| 1 <= k < |ps| - 1 && ps[k] == o {
      assert InnerRunAt(ps, [o], k);
    }
    if k: nat :| InnerRunAt(ps, [o], k) {
      assert ps[k..][0] == ps[k] == o;
    }
  }

  /** The text after the last colon of g, if it has a colon, is o. */
  ghost predicate ColonTail(g: string, o: string) {
    exists i :: 0 <= i < |g| && g[i] == ':' && g[i + 1..] == o
  }

  lemma {:induction false} LastPiece(g: string, o: string)
    requires ':' !in o
    ensures var ps := SplitOn(g, ':'); ColonTail(g, o) <==> |ps| >= 2 && ps[|ps| - 1] == o
  {
    if g == "" {
    } else {
      var g' := g[1..];
      LastPiece(g', o);
      assert g[0] == ':' && g' == o ==> SplitOn(g', ':') == [o] by {
        SplitOnFree(o, ':');
      }
      if g[0] == ':' && |SplitOn(g', ':')| == 1 {
        OnePiece(g');
      }
      if i :| 0 <= i < |g'| && g'[i] == ':' && g'[i + 1..] == o {
        assert g[i + 1] == ':' && g[i + 1 + 1..] == o;
      }
      if i :| 0 <= i < |g| && g[i] == ':' && g[i + 1..] == o {
        if i > 0 {
          assert g'[i - 1] == ':' && g'[i - 1 + 1..] == o;
        }
      }
    }
  }

  lemma {:induction false} OnePiece(s: string)
    requires |SplitOn(s, ':')| == 1
    ensures SplitOn(s, ':') == [s]
  {
    if s == "" {
    } else {
      OnePiece(s[1..]);
      assert s == [s[0]] + s[1..];
    }
  }

  /** A backslash behind every piece but the last. */
  function Backslashed(pieces: seq<string>): (qs: seq<string>)
    requires pieces != []
    ensures |qs| == |pieces| && qs[|qs| - 1] == pieces[|qs| - 1]
    ensures forall i | 0 <= i < |qs| - 1 :: qs[i] == pieces[i] + "\\"
  {
    seq(|pieces|, i requires 0 <= i < |pieces| => if i < |pieces| - 1 then pieces[i] + "\\" else pieces[i])
  }

  /** What escaping does to the text between the colons. */
  lemma {:induction false} EscapedPieces(g: string)
    ensures SplitOn(Escape(g), ':') == Backslashed(SplitOn(g, ':'))
  {
    if g == "" {
    } else {
      EscapedPieces(g[1..]);
      if g[0] == ':' {
        BackslashColon(Escape(g[1..]), SplitOn(g[1..], ':'));
      } else {
        PlainByte(g[0], Escape(g[1..]), SplitOn(g[1..], ':'));
      }
    }
  }

  lemma BackslashedCons(p: string, ps: seq<string>)
    requires ps != []
    ensures Backslashed([p] + ps) == [p + "\\"] + Backslashed(ps)
  {}

  lemma BackslashColon(e: string, ps: seq<string>)
    requires ps != [] && SplitOn(e, ':') == Backslashed(ps)
    ensures SplitOn("\\:" + e, ':') == Backslashed([""] + ps)
  {
    var b := "\\";
    assert "\\:" + e == b + [':'] + e;
    SplitOnFree(b, ':');
    SplitOnConcat(b, ':', e);
    BackslashedCons("", ps);
    assert "" + b == b;
  }

  lemma PlainByte(c: char, e: string, ps: seq<string>)
    requires c != ':' && ps != [] && SplitOn(e, ':') == Backslashed(ps)
    ensures SplitOn([c] + e, ':') == Backslashed([[c] + ps[0]] + ps[1..])
  {
    assert ([c] + e)[1..] == e;
    assert |ps| > 1 ==> [c] + ps[0] + "\\" == [c] + (ps[0] + "\\");
  }

  // ---------------------------------------------------------------- a text and its pieces

  lemma {:induction false} FirstPieceIsPrefix(s: string, sep: char)
    ensures var p := SplitOn(s, sep)[0];
            p <= s && sep !in p && (|p| < |s| ==> s[|p|] == sep)
  {
    if s != "" && s[0] != sep {
      FirstPieceIsPrefix(s[1..], sep);
      assert s == [s[0]] + s[1..];
    }
  }

  ghost predicate SomePieceHolds(pieces: seq<string>, t: string) {
    exists k :: 0 <= k < |pieces| && HasSubstring(pieces[k], t)
  }

  lemma SomeOfTwo(a: seq<string>, b: seq<string>, t: string)
    ensures SomePieceHolds(a + b, t) <==> SomePieceHolds(a, t) || SomePieceHolds(b, t)
  {
    if k :| 0 <= k < |a| && HasSubstring(a[k], t) {
      assert (a + b)[k] == a[k];
    }
    if k :| 0 <= k < |b| && HasSubstring(b[k], t) {
      assert (a + b)[|a| + k] == b[k];
    }
  }

  /** Cutting at commas destroys no occurrence of a text without commas. */
  lemma {:induction false} SubstringOfAPiece(s: string, t: string)
    requires ',' !in t && t != ""
    ensures HasSubstring(s, t) <==> SomePieceHolds(SplitOn(s, ','), t)
  {
    if s == "" {
      assert SplitOn(s, ',')[0] == s;
    } else {
      var rest := SplitOn(s[1..], ',');
      SubstringOfAPiece(s[1..], t);
      SubstringCons(s, t);
      SomeOfTwo([rest[0]], rest[1..], t);
      assert [rest[0]] + rest[1..] == rest;
      assert [rest[0]][0] == rest[0];
      if s[0] == ',' {
        SomeOfTwo([""], rest, t);
        assert |t| <= |s| ==> s[0..|t|][0] == ',';
      } else {
        var first := [s[0]] + rest[0];
        SomeOfTwo([first], rest[1..], t);
        assert [first][0] == first;
        SubstringCons(first, t);
        assert first[1..] == rest[0];
        FirstPieceIsPrefix(s, ',');
        SamePrefix(s, first, t);
      }
    }
  }

  lemma SamePrefix(s: string, first: string, t: string)
    requires first <= s && (|first| < |s| ==> s[|first|] == ',')
    requires ',' !in t
    ensures OccursAt(s, t, 0) <==> OccursAt(first, t, 0)
  {}

  lemma {:induction false} SubstringOfAnEntry(es: seq<string>, t: string)
    requires ',' !in t && t != ""
    ensures SomePieceHolds(SplitOn(Join(es, ','), ','), t) <==> SomePieceHolds(es, t)
  {
    if es == [] {
      SubstringOfAPiece("", t);
    } else {
      SubstringOfAPiece(es[0], t);
      SomeOfTwo([es[0]], es[1..], t);
      assert [es[0]] + es[1..] == es && [es[0]][0] == es[0];
      if |es| > 1 {
        SubstringOfAnEntry(es[1..], t);
        SplitOnConcat(es[0], ',', Join(es[1..], ','));
        SomeOfTwo(SplitOn(es[0], ','), SplitOn(Join(es[1..], ','), ','), t);
      }
    }
  }

  /** An org with a comma is found in no text at all. */
  lemma OrgWithCommaIsNeverFound(text: string, o: string)
    requires ',' in o
    ensures !ContainsOrg(text, o)
  {
    var t := ":" + o + ":";
    assert ',' in t;
    PiecesAreFree(text, ',');
    forall part | part in SplitOn(text, ',') ensures !HasSubstring(Trim(part), t) {
      TrimKeepsDelimited(part, o);
      forall i: nat ensures !OccursAt(part, t, i) {
        assert i + |t| <= |part| ==> ',' !in part[i..i + |t|];
      }
    }
  }

  /** Any other org is found in a printed mapping exactly if some entry, taken by itself, holds it. */
  lemma ContainsAnEntry(ts: seq<Triple>, o: string)
    requires ',' !in o
    ensures ContainsOrg(Join(EntryTexts(ts), ','), o) <==>
            exists tr :: tr in ts && HasSubstring(EntryText(tr), ":" + o + ":")
  {
    var t := ":" + o + ":";
    var ps := SplitOn(Join(EntryTexts(ts), ','), ',');
    SubstringOfAnEntry(EntryTexts(ts), t);
    forall k | 0 <= k < |ps| ensures HasSubstring(Trim(ps[k]), t) <==> HasSubstring(ps[k], t) {
      TrimKeepsDelimited(ps[k], o);
    }
    if tr :| tr in ts && HasSubstring(EntryText(tr), t) {
      var i :| 0 <= i < |ts| && ts[i] == tr;
      assert HasSubstring(EntryTexts(ts)[i], t);
    }
  }

  // ---------------------------------------------------------------- the exact meaning

  /** In some piece between commas, trimmed, the colon-separated pieces of o stand in one run between others. */
  ghost predicate Displays(text: string, o: string) {
    exists part :: part in SplitOn(text, ',') && InnerRun(SplitOn(Trim(part), ':'), SplitOn(o, ':'))
  }

  /** The exact meaning of the shortcut, on every text, for every query. */
  lemma ContainsOnText(text: string, o: string)
    ensures ContainsOrg(text, o) <==> Displays(text, o)
  {
    forall part | part in SplitOn(text, ',')
      ensures HasSubstring(Trim(part), ":" + o + ":") <==> InnerRun(SplitOn(Trim(part), ':'), SplitOn(o, ':'))
    {
      InnerOccurrence(Trim(part), o);
    }
  }

  /** A printed triple between its colons: the pieces of the group, all but the last with a backslash,
      the pieces of the org, the role. */
  function PiecesOf(t: Triple): seq<string> {
    Backslashed(SplitOn(t.group, ':')) + SplitOn(t.orgID, ':') + [t.role]
  }

  /** All ways a printed triple can hold `:o:` when o has no colon: o is the org, or stands between colons of the
      org; the group has a colon and o behind its last one;
      or o is what the group has between two colons, with the backslash that escaping put behind it. */
  ghost predicate Shows(t: Triple, o: string) {
    || o in SplitOn(t.orgID, ':')
    || ColonTail(t.group, o)
    || (EndsInBackslash(o) && HasSubstring(t.group, ":" + o[..|o| - 1] + ":"))
  }

  lemma EntryPieces(t: Triple)
    requires ':' !in t.role
    ensures SplitOn(EntryText(t), ':') == PiecesOf(t)
  {
    EscapedPieces(t.group);
    var rest := t.orgID + [':'] + t.role;
    assert EntryText(t) == Escape(t.group) + [':'] + rest;
    SplitOnFree(t.role, ':');
    SplitOnConcat(t.orgID, ':', t.role);
    SplitOnConcat(Escape(t.group), ':', rest);
  }

  lemma InnerEscaped(gs: seq<string>, o: string)
    requires gs != []
    ensures IsInner(Backslashed(gs), o) <==> EndsInBackslash(o) && IsInner(gs, o[..|o| - 1])
  {}

  /** The inner pieces of a list in three parts, the last part being one piece. */
  lemma InnerOfThree(qs: seq<string>, os: seq<string>, role: string, o: string)
    requires qs != []
    ensures IsInner(qs + os + [role], o) <==> IsInner(qs, o) || (|qs| >= 2 && qs[|qs| - 1] == o) || o in os
  {
    var ps := qs + os + [role];
    if k :| 1 <= k < |ps| - 1 && ps[k] == o {
      assert k >= |qs| ==> os[k - |qs|] == o;
    }
    if k :| 1 <= k < |qs| - 1 && qs[k] == o {
      assert ps[k] == o;
    }
    if |qs| >= 2 && qs[|qs| - 1] == o {
      assert ps[|qs| - 1] == o;
    }
    if o in os {
      var k :| 0 <= k < |os| && os[k] == o;
      assert ps[|qs| + k] == o;
    }
  }

  /** The three ways, for a query without a colon. */
  lemma ShowsMeaning(t: Triple, o: string)
    requires ':' !in o
    ensures InnerRun(PiecesOf(t), SplitOn(o, ':')) <==> Shows(t, o)
  {
    var gs := SplitOn(t.group, ':');
    InnerPiece(PiecesOf(t), o);
    InnerOfThree(Backslashed(gs), SplitOn(t.orgID, ':'), t.role, o);
    LastPiece(t.group, o);
    InnerEscaped(gs, o);
    if EndsInBackslash(o) {
      var x := o[..|o| - 1];
      InnerOccurrence(t.group, x);
      InnerPiece(gs, x);
    }
  }

  /** On every printed mapping, in terms of the tenants, for every query: it has no comma, and its
      pieces are a run inside some printed triple. */
  lemma ContainsMeaning(tenants: seq<TenantMapping>, o: string)
    ensures ContainsOrg(Mapping(tenants), o) <==>
            ',' !in o && exists tr :: tr in Triples(tenants) && InnerRun(PiecesOf(tr), SplitOn(o, ':'))
  {
    if ',' in o {
      OrgWithCommaIsNeverFound(Mapping(tenants), o);
    } else {
      ContainsAnEntry(Triples(tenants), o);
      forall tr | tr in Triples(tenants)
        ensures HasSubstring(EntryText(tr), ":" + o + ":") <==> InnerRun(PiecesOf(tr), SplitOn(o, ':'))
      {
        var t := TripleHasTenant(tenants, tr);
        RoleFacts(tr.role);
        EntryPieces(tr);
        InnerOccurrence(EntryText(tr), o);
      }
    }
  }

  /** The same for a query without a colon, way by way. */
  lemma ContainsColonFree(tenants: seq<TenantMapping>, o: string)
    requires ':' !in o
    ensures ContainsOrg(Mapping(tenants), o) <==> ',' !in o && exists tr :: tr in Triples(tenants) && Shows(tr, o)
  {
    ContainsMeaning(tenants, o);
    forall tr | tr in Triples(tenants) ensures InnerRun(PiecesOf(tr), SplitOn(o, ':')) <==> Shows(tr, o) {
      ShowsMeaning(tr, o);
    }
  }

  /** Some entry that the parser reads has o as its org. */
  ghost predicate ParserFinds(text: string, o: string) {
    exists tr :: tr in Parse(text) && tr.orgID == o
  }

  /** o stands behind the last colon of some printed group. */
  ghost predicate BehindAColon(tenants: seq<TenantMapping>, o: string) {
    exists tr :: tr in Triples(tenants) && ColonTail(tr.group, o)
  }

  /** On well-formed tenants the shortcut finds what the parser finds and, besides, what stands behind the last
      colon of a group; so the two agree exactly unless the second happens without the first. */
  lemma ContainsAgainstParser(tenants: seq<TenantMapping>, o: string)
    requires AllWellFormed(tenants)
    requires OrgSurvives(o)
    ensures ParserFinds(Mapping(tenants), o) <==> exists tr :: tr in Triples(tenants) && tr.orgID == o
    ensures ContainsOrg(Mapping(tenants), o) <==> ParserFinds(Mapping(tenants), o) || BehindAColon(tenants, o)
  {
    MappingRoundTrip(tenants);
    WellFormedTenantsPrintWell(tenants);
    ContainsColonFree(tenants, o);
    forall tr | tr in Triples(tenants)
      ensures tr.orgID == o || ColonTail(tr.group, o) <==> Shows(tr, o)
      ensures ',' in o ==> tr.orgID != o && !ColonTail(tr.group, o)
    {
      assert WellFormedTriple(tr);
      SplitOnFree(tr.orgID, ':');
    }
  }

  /** A tenant with a group and a comma-free org is found in every mapping printed with it,
      whatever bytes groups and other tenants hold. */
  lemma PrintedOrgIsFound(tenants: seq<TenantMapping>, t: TenantMapping, g: string)
    requires t in tenants && HasGroup(t, g) && ',' !in t.orgID
    ensures ContainsOrg(Mapping(tenants), t.orgID)
  {
    var tr := GroupHasTriple(tenants, t, g);
    DelimitedInContext(Escape(tr.group), tr.orgID, tr.role);
    assert EntryText(tr) == Escape(tr.group) + ":" + (tr.orgID + ":" + tr.role);
    ContainsAnEntry(Triples(tenants), t.orgID);
  }
}
