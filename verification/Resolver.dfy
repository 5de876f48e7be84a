/** Which orgs a mapping text gives to a set of claims. */
module Resolver {
  import opened Text
  import opened Fields
  import opened Glob
  import opened Ordering
  import opened OrgMapping
  import opened RoundTrip

  // ---------------------------------------------------------------- the resolver

  ghost predicate Claimed(pattern: string, claims: seq<string>) {
    exists g :: g in claims && Matches(pattern, g)
  }

  /** The orgs of the entries whose group pattern matches a claim. */
  ghost function Granted(entries: seq<Triple>, claims: seq<string>): set<string> {
    set t | t in entries && Claimed(t.group, claims) :: t.orgID
  }

  /** What the resolver ought to return. */
  ghost function Resolve(text: string, claims: seq<string>): seq<string> {
    Sorted(Granted(Parse(text), claims))
  }

  lemma GrantedConcat(a: seq<Triple>, b: seq<Triple>, claims: seq<string>)
    ensures Granted(a + b, claims) == Granted(a, claims) + Granted(b, claims)
  {}

  /** What is granted: the org of each entry whose group, as a pattern, matches some claim, as a text. */
  lemma ResolveMeaning(text: string, claims: seq<string>)
    ensures forall o :: o in Resolve(text, claims) <==>
              exists tr, c :: tr in Parse(text) && tr.orgID == o && c in claims && Matches(tr.group, c)
    ensures var orgs := Resolve(text, claims);
            forall i, j | 0 <= i < j < |orgs| :: Precedes(orgs[i], orgs[j])
  {
    SortedAscends(Resolve(text, claims));
    forall o ensures o in Resolve(text, claims) <==>
                       exists tr, c :: tr in Parse(text) && tr.orgID == o && c in claims && Matches(tr.group, c)
    {
      assert o in Resolve(text, claims) <==> o in Elems(Resolve(text, claims));
      if tr, c :| tr in Parse(text) && tr.orgID == o && c in claims && Matches(tr.group, c) {
        assert Claimed(tr.group, claims);
      }
    }
  }

  lemma NothingToResolve(text: string, claims: seq<string>)
    requires text == "" || claims == []
    ensures Resolve(text, claims) == []
  {
    assert text == "" ==> Parse(text) == [];
    assert Granted(Parse(text), claims) == {};
    SortedListingIsUnique([], Sorted({}));
  }

  /** What one more piece of text adds to the orgs granted so far. */
  lemma GrantedByOneMore(entries: seq<string>, i: nat, claims: seq<string>)
    requires i < |entries|
    ensures Granted(ParseEntries(entries[..i + 1]), claims)
            == Granted(ParseEntries(entries[..i]), claims) + Granted(ParseEntry(entries[i]), claims)
  {
    assert entries[..i + 1] == entries[..i] + [entries[i]];
    ParseEntriesConcat(entries[..i], [entries[i]]);
    assert ParseEntries([entries[i]]) == ParseEntry(entries[i]);
    GrantedConcat(ParseEntries(entries[..i]), ParseEntry(entries[i]), claims);
  }

  /** The inner loop: whether some claim matches, stopping at the first. */
  method AnyMatch(pattern: string, claims: seq<string>) returns (hit: bool)
    ensures hit <==> Claimed(pattern, claims)
  {
    for j := 0 to |claims|
      invariant forall k | 0 <= k < j :: !Matches(pattern, claims[k])
    {
      var m := GlobMatch(pattern, claims[j]);
      if m {
        return true;
      }
    }
    return false;
  }

  /** The body of the outer loop: one piece of text. */
  method AddEntry(seen: map<string, bool>, orgIDs: seq<string>, entry: string, claims: seq<string>)
    returns (seen': map<string, bool>, orgIDs': seq<string>)
    requires seen.Keys == Elems(orgIDs) && Distinct(orgIDs)
    ensures seen'.Keys == Elems(orgIDs') && Distinct(orgIDs')
    ensures Elems(orgIDs') == Elems(orgIDs) + Granted(ParseEntry(entry), claims)
  {
    seen', orgIDs' := seen, orgIDs;
    var fields := SplitUnescapedColon(Trim(entry));
    if |fields| != 3 {
      return;
    }
    var pattern, orgID := fields[0], fields[1];
    var hit := AnyMatch(pattern, claims);
    assert Granted(ParseEntry(entry), claims) == if hit then {orgID} else {};
    if hit && orgID !in seen {
      AppendKeepsDistinct(orgIDs, orgID);
      seen' := seen[orgID := true];
      orgIDs' := orgIDs + [orgID];
    }
  }

  /** `ResolveOrgIDs`: collects each granted org once, then sorts. */
  method ResolveOrgIDs(orgMapping: string, claimGroups: seq<string>) returns (orgIDs: seq<string>)
    ensures orgIDs == Resolve(orgMapping, claimGroups)
    ensures forall o :: o in orgIDs <==>
              exists tr, c :: tr in Parse(orgMapping) && tr.orgID == o && c in claimGroups && Matches(tr.group, c)
    ensures forall i, j | 0 <= i < j < |orgIDs| :: Precedes(orgIDs[i], orgIDs[j])
  {
    ResolveMeaning(orgMapping, claimGroups);
    if orgMapping == "" || |claimGroups| == 0 {
      NothingToResolve(orgMapping, claimGroups);
      return [];
    }
    var seen: map<string, bool> := map[];
    orgIDs := [];
    var entries := SplitOn(orgMapping, ',');
    for i := 0 to |entries|
      invariant seen.Keys == Elems(orgIDs) && Distinct(orgIDs)
      invariant Elems(orgIDs) == Granted(ParseEntries(entries[..i]), claimGroups)
    {
      GrantedByOneMore(entries, i, claimGroups);
      seen, orgIDs := AddEntry(seen, orgIDs, entries[i], claimGroups);
    }
    assert entries[..|entries|] == entries;
    orgIDs := SortStrings(orgIDs);
  }

  // ---------------------------------------------------------------- union, dependence, monotonicity

  /** Resolving two mappings joined by a comma is the sorted union, for all texts. */
  lemma ResolveUnionOfMappings(m1: string, m2: string, claims: seq<string>)
    ensures Resolve(m1 + "," + m2, claims) == Sorted(Elems(Resolve(m1, claims)) + Elems(Resolve(m2, claims)))
  {
    ParseConcat(m1, m2);
    GrantedConcat(Parse(m1), Parse(m2), claims);
  }

  /** So is resolving for two lists of claims together. */
  lemma ResolveUnionOfClaims(m: string, c1: seq<string>, c2: seq<string>)
    ensures Resolve(m, c1 + c2) == Sorted(Elems(Resolve(m, c1)) + Elems(Resolve(m, c2)))
  {
    forall p ensures Claimed(p, c1 + c2) <==> Claimed(p, c1) || Claimed(p, c2) {
      if g :| g in c1 + c2 && Matches(p, g) {
        assert g in c1 || g in c2;
      }
      if g :| g in c1 && Matches(p, g) {
        assert g in c1 + c2;
      }
      if g :| g in c2 && Matches(p, g) {
        assert g in c1 + c2;
      }
    }
    assert Granted(Parse(m), c1 + c2) == Granted(Parse(m), c1) + Granted(Parse(m), c2);
  }

  /** More pieces of text and more claims never take an org away. */
  lemma ResolveIsMonotone(m1: string, m2: string, c1: seq<string>, c2: seq<string>)
    requires Elems(SplitOn(m1, ',')) <= Elems(SplitOn(m2, ','))
    requires Elems(c1) <= Elems(c2)
    ensures Elems(Resolve(m1, c1)) <= Elems(Resolve(m2, c2))
  {
    forall o | o in Granted(Parse(m1), c1) ensures o in Granted(Parse(m2), c2) {
      var t :| t in Parse(m1) && Claimed(t.group, c1) && t.orgID == o;
      var g :| g in c1 && Matches(t.group, g);
      assert g in Elems(c2);
      var e := ParsedHasEntry(SplitOn(m1, ','), t);
      assert e in Elems(SplitOn(m1, ','));
      EntryIsParsed(SplitOn(m2, ','), e, t);
    }
  }

  /** The result depends on the set of pieces and the set of claims alone: order and repetition do not matter. */
  lemma ResolveDependsOnSets(m1: string, m2: string, c1: seq<string>, c2: seq<string>)
    requires Elems(SplitOn(m1, ',')) == Elems(SplitOn(m2, ','))
    requires Elems(c1) == Elems(c2)
    ensures Resolve(m1, c1) == Resolve(m2, c2)
  {
    ResolveIsMonotone(m1, m2, c1, c2);
    ResolveIsMonotone(m2, m1, c2, c1);
    SortedListingIsUnique(Resolve(m1, c1), Resolve(m2, c2));
  }

  // ---------------------------------------------------------------- resolver and substring test

  /** On every text, well formed or not, the substring test finds each colon-free org that resolves. */
  lemma ResolvedOrgIsContained(m: string, claims: seq<string>, o: string)
    requires o in Resolve(m, claims) && ':' !in o
    ensures ContainsOrg(m, o)
  {
    assert o in Elems(Resolve(m, claims));
    var t :| t in Parse(m) && Claimed(t.group, claims) && t.orgID == o;
    ParsedOrgShows(m, t);
  }

  lemma ParsedOrgShows(m: string, t: Triple)
    requires t in Parse(m) && ':' !in t.orgID
    ensures ContainsOrg(m, t.orgID)
  {
    var e := ParsedHasEntry(SplitOn(m, ','), t);
    MiddleFieldShows(Trim(e), t.group, t.orgID, t.role);
  }

  /** Ties a parsed field back to the raw text. */
  lemma MiddleFieldShows(s: string, a: string, b: string, c: string)
    requires Split(s) == [a, b, c] && ':' !in b
    ensures HasSubstring(s, ":" + b + ":")
  {
    PrintAfterParse(s);
    JoinThree(a, b, c);
    EscapeFree(b);
    DelimitedInContext(Escape(a), b, Escape(c));
  }

  // ---------------------------------------------------------------- end to end

  /** The orgs that the tenants themselves mean to grant: those of tenants with a group that matches a claim. */
  ghost function Entitled(tenants: seq<TenantMapping>, claims: seq<string>): set<string> {
    set t | t in tenants && (exists g :: HasGroup(t, g) && Claimed(g, claims)) :: t.orgID
  }

  lemma GrantedIsEntitled(tenants: seq<TenantMapping>, claims: seq<string>)
    ensures Granted(Triples(tenants), claims) == Entitled(tenants, claims)
  {
    forall o | o in Granted(Triples(tenants), claims) ensures o in Entitled(tenants, claims) {
      var tr :| tr in Triples(tenants) && Claimed(tr.group, claims) && tr.orgID == o;
      var t := TripleHasTenant(tenants, tr);
    }
    forall o | o in Entitled(tenants, claims) ensures o in Granted(Triples(tenants), claims) {
      var t :| t in tenants && (exists g :: HasGroup(t, g) && Claimed(g, claims)) && t.orgID == o;
      var g :| HasGroup(t, g) && Claimed(g, claims);
      var tr := GroupHasTriple(tenants, t, g);
    }
  }

  /** Printing the tenants and resolving against the text gives exactly the orgs that the tenants grant, sorted. */
  lemma ResolvePrintedMapping(tenants: seq<TenantMapping>, claims: seq<string>)
    requires AllWellFormed(tenants)
    ensures Resolve(Mapping(tenants), claims) == Sorted(Entitled(tenants, claims))
  {
    MappingRoundTrip(tenants);
    GrantedIsEntitled(tenants, claims);
  }

  /** Who is let in: an org resolves exactly if some tenant of the org has some group, in whatever role, that as a
      pattern cuts some claim into fitting pieces. */
  lemma ResolvesForMembers(tenants: seq<TenantMapping>, claims: seq<string>, o: string)
    requires AllWellFormed(tenants)
    ensures o in Resolve(Mapping(tenants), claims) <==>
            exists t, g, c, cut ::
              && t in tenants && t.orgID == o && (g in t.viewerGroups || g in t.editorGroups || g in t.adminGroups)
              && c in claims && IsCut(g, c, cut)
  {
    ResolvePrintedMapping(tenants, claims);
    assert o in Resolve(Mapping(tenants), claims) <==> o in Elems(Resolve(Mapping(tenants), claims));
    if o in Entitled(tenants, claims) {
      var t :| t in tenants && (exists g :: HasGroup(t, g) && Claimed(g, claims)) && t.orgID == o;
      var g :| HasGroup(t, g) && Claimed(g, claims);
      var c :| c in claims && Matches(g, c);
      var cut :| IsCut(g, c, cut);
    }
    if t, g, c, cut :|
      && t in tenants && t.orgID == o && (g in t.viewerGroups || g in t.editorGroups || g in t.adminGroups)
      && c in claims && IsCut(g, c, cut)
    {
      assert HasGroup(t, g) && Matches(g, c) && Claimed(g, claims);
    }
  }

  /** An entry for `p*` lets in exactly the claims that begin with p. */
  lemma PrefixGroupGrants(p: string, o: string, role: string, claim: string)
    requires '*' !in p && '?' !in p
    requires WellFormedTriple(Triple(p + "*", o, role))
    ensures Resolve(EntryText(Triple(p + "*", o, role)), [claim]) == if p <= claim then [o] else []
  {
    var tr := Triple(p + "*", o, role);
    var text := EntryText(tr);
    assert EntryTexts([tr]) == [text];
    ParsePrintedTriples([tr]);
    PrefixPattern(p, claim);
    assert Claimed(tr.group, [claim]) <==> Matches(tr.group, claim);
    assert Granted(Parse(text), [claim]) == if p <= claim then {o} else {};
    SortedListingIsUnique(if p <= claim then [o] else [], Resolve(text, [claim]));
  }
}
