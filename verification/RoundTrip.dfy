/** What survives printing and reading back: one entry, a whole mapping. */
module RoundTrip {
  import opened Text
  import opened Fields
  import opened OrgMapping

  // ---------------------------------------------------------------- one entry

  /** Up to its first marked byte a printed group is the group, and they have that byte in the same place. */
  lemma {:induction false} SameUpToMark(g: string, rest: string, k: nat)
    requires var e := Escape(g) + ":" + rest;
             (k <= |e| && Unmarked(e, 0, k)) || (k <= |g| && Unmarked(g, 0, k))
    ensures var e := Escape(g) + ":" + rest;
            k <= |e| && k <= |g| && e[..k] == g[..k]
    decreases k
  {
    var e := Escape(g) + ":" + rest;
    if k > 0 {
      assert e[0] == if g == "" then ':' else EscapeByte(g[0])[0];
      var e' := Escape(g[1..]) + ":" + rest;
      assert e == EscapeByte(g[0]) + e';
      assert e[1..] == e';
      assert forall i | 0 <= i < k - 1 && i + 1 < |e| :: e'[i] == e[i + 1];
      assert forall i | 0 <= i < k - 1 && i + 1 < |g| :: g[1..][i] == g[i + 1];
      SameUpToMark(g[1..], rest, k - 1);
      assert e[..k] == [e[0]] + e'[..k - 1] && g[..k] == [g[0]] + g[1..][..k - 1];
    }
  }

  lemma PrefixDecidesSpace(s: string, t: string)
    requires LeadingSpace(s) <= |t| && s[..LeadingSpace(s)] == t[..LeadingSpace(s)]
    ensures LeadingSpace(s) > 0 ==> LeadingSpace(t) == LeadingSpace(s)
  {}

  /** An entry begins with white space exactly when its group does. */
  lemma LeadingSpaceOfEntry(g: string, rest: string)
    ensures LeadingSpace(Escape(g) + ":" + rest) == LeadingSpace(g)
  {
    var e := Escape(g) + ":" + rest;
    SameUpToMark(g, rest, LeadingSpace(e));
    SameUpToMark(g, rest, LeadingSpace(g));
    PrefixDecidesSpace(e, g);
    PrefixDecidesSpace(g, e);
  }

  ghost predicate GroupSurvives(g: string) {
    LeadingSpace(g) == 0 && !EndsInBackslash(g)
  }

  ghost predicate OrgSurvives(o: string) {
    ':' !in o && !EndsInBackslash(o)
  }

  lemma RoleFacts(role: string)
    requires IsRole(role)
    ensures role != "" && IsMark(role[|role| - 1])
    ensures ':' !in role && ',' !in role
  {}

  lemma EntryAgainstPrintedFields(t: Triple)
    requires ':' !in t.role
    ensures ':' !in t.orgID ==> EntryText(t) == JoinEscaped(FieldsOf(t))
    ensures ':' in t.orgID ==> |EntryText(t)| < |JoinEscaped(FieldsOf(t))|
  {
    EscapeFree(t.orgID);
    EscapeFree(t.role);
    JoinThree(t.group, t.orgID, t.role);
    assert EntryText(t) == Escape(t.group) + ":" + (t.orgID + ":" + t.role);
  }

  lemma TrimEntry(t: Triple)
    requires IsRole(t.role)
    ensures |Trim(EntryText(t))| <= |EntryText(t)|
    ensures Trim(EntryText(t)) == EntryText(t) <==> LeadingSpace(t.group) == 0
    ensures LeadingSpace(t.group) > 0 ==> |Trim(EntryText(t))| < |EntryText(t)|
  {
    var e := EntryText(t);
    RoleFacts(t.role);
    assert e == Escape(t.group) + ":" + (t.orgID + ":" + t.role);
    assert e[|e| - 1] == t.role[|t.role| - 1];
    LeadingSpaceOfEntry(t.group, t.orgID + ":" + t.role);
    var lo := TrimOfMarkedEnd(e);
  }

  /** Trimming and splitting a printed entry gives its fields back exactly when
      the group has no white space in front, neither field ends in a backslash, and the org has no colon. */
  lemma EntryRoundTrip(t: Triple)
    requires IsRole(t.role)
    ensures Split(Trim(EntryText(t))) == FieldsOf(t) <==> GroupSurvives(t.group) && OrgSurvives(t.orgID)
  {
    RoleFacts(t.role);
    TrimEntry(t);
    EntryAgainstPrintedFields(t);
    ParseAfterPrint(FieldsOf(t));
    PrintAfterParse(Trim(EntryText(t)));
    assert FieldsOf(t)[0] == t.group && FieldsOf(t)[1] == t.orgID;
  }

  // ---------------------------------------------------------------- a whole mapping

  /** A triple that comes back from a mapping: it survives as an entry, and no comma cuts it. */
  ghost predicate WellFormedTriple(t: Triple) {
    && GroupSurvives(t.group) && OrgSurvives(t.orgID) && IsRole(t.role)
    && ',' !in t.group && ',' !in t.orgID
  }

  ghost predicate WellFormedTriples(ts: seq<Triple>) {
    forall t | t in ts :: WellFormedTriple(t)
  }

  ghost predicate WellFormedGroup(g: string) {
    GroupSurvives(g) && ',' !in g
  }

  ghost predicate WellFormed(t: TenantMapping) {
    && OrgSurvives(t.orgID) && ',' !in t.orgID
    && forall g | HasGroup(t, g) :: WellFormedGroup(g)
  }

  ghost predicate AllWellFormed(tenants: seq<TenantMapping>) {
    forall t | t in tenants :: WellFormed(t)
  }

  lemma WellFormedTenantsPrintWell(tenants: seq<TenantMapping>)
    requires AllWellFormed(tenants)
    ensures WellFormedTriples(Triples(tenants))
  {
    forall tr | tr in Triples(tenants) ensures WellFormedTriple(tr) {
      var t := TripleHasTenant(tenants, tr);
      assert WellFormed(t);
      assert WellFormedGroup(tr.group);
    }
  }

  lemma EntryHasNoComma(t: Triple)
    requires ',' !in t.group && ',' !in t.orgID && IsRole(t.role)
    ensures ',' !in EntryText(t)
  {
    EscapeKeepsOut(t.group, ',');
    RoleFacts(t.role);
  }

  lemma {:induction false} ParseEntriesOfTriples(ts: seq<Triple>)
    requires WellFormedTriples(ts)
    ensures ParseEntries(EntryTexts(ts)) == ts
  {
    if ts == [] {
    } else {
      assert EntryTexts(ts)[1..] == EntryTexts(ts[1..]);
      assert WellFormedTriple(ts[0]);
      EntryRoundTrip(ts[0]);
      ParseEntriesOfTriples(ts[1..]);
    }
  }

  /** Reading a printed list of well-formed triples gives exactly that list, in order. */
  lemma ParsePrintedTriples(ts: seq<Triple>)
    requires WellFormedTriples(ts)
    ensures Parse(Join(EntryTexts(ts), ',')) == ts
  {
    if ts == [] {
      assert ParseEntry("") == [];
    } else {
      forall e | e in EntryTexts(ts) ensures ',' !in e {
        var i :| 0 <= i < |ts| && EntryTexts(ts)[i] == e;
        assert WellFormedTriple(ts[i]);
        EntryHasNoComma(ts[i]);
      }
      SplitOnJoin(EntryTexts(ts), ',');
      ParseEntriesOfTriples(ts);
    }
  }

  /** The mapping of well-formed tenants reads back as their triples: tenants in order,
      viewers before editors before admins. */
  lemma MappingRoundTrip(tenants: seq<TenantMapping>)
    requires AllWellFormed(tenants)
    ensures Parse(Mapping(tenants)) == Triples(tenants)
  {
    WellFormedTenantsPrintWell(tenants);
    ParsePrintedTriples(Triples(tenants));
  }

  /** Reading back keeps the order: tenants one after the other; of each its viewers, its editors, its admins. */
  lemma ReadBackInOrder(a: seq<TenantMapping>, t: TenantMapping, b: seq<TenantMapping>)
    requires AllWellFormed(a) && WellFormed(t) && AllWellFormed(b)
    ensures Parse(Mapping(a + [t] + b)) == Parse(Mapping(a)) + Parse(Mapping([t])) + Parse(Mapping(b))
    ensures |Parse(Mapping([t]))| == |t.viewerGroups| + |t.editorGroups| + |t.adminGroups|
    ensures var v, e := |t.viewerGroups|, |t.editorGroups|;
            forall k | 0 <= k < |Parse(Mapping([t]))| ::
              Parse(Mapping([t]))[k] == if k < v then Triple(t.viewerGroups[k], t.orgID, "Viewer")
                                        else if k < v + e then Triple(t.editorGroups[k - v], t.orgID, "Editor")
                                        else Triple(t.adminGroups[k - v - e], t.orgID, "Admin")
  {
    MappingRoundTrip(a);
    MappingRoundTrip([t]);
    MappingRoundTrip(b);
    MappingRoundTrip(a + [t] + b);
    TriplesAround(a, t, b);
    TriplesInOrder(t);
  }

  /** Different triples, different text. */
  lemma MappingIsInjective(a: seq<TenantMapping>, b: seq<TenantMapping>)
    requires AllWellFormed(a) && AllWellFormed(b)
    requires Mapping(a) == Mapping(b)
    ensures Triples(a) == Triples(b)
  {
    MappingRoundTrip(a);
    MappingRoundTrip(b);
  }
}
