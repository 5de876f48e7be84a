/** What the drift check says of a tenant, against what the mapping in Grafana says of it. */
module Drift {
  import opened Text
  import opened Fields
  import opened OrgMapping
  import opened RoundTrip
  import opened Shortcut
  import opened Resolver
  import opened Sso
  import opened Reconciler
  import opened Convergence

  /** Grafana holds the mapping of ts. */
  ghost predicate Holds(s: Settings, ts: seq<TenantMapping>) {
    s.Present? && MappingText(s.entries) == Mapping(ts)
  }

  /** The tenants that were printed have groups for this org. */
  ghost predicate Shared(ts: seq<TenantMapping>, o: string) {
    exists m, g :: m in ts && m.orgID == o && HasGroup(m, g)
  }

  // ---------------------------------------------------------------- the verdict

  /** The mapping that Grafana holds, whoever wrote it; none is the empty one. */
  ghost function TextOf(s: Settings): string {
    if s.Present? then MappingText(s.entries) else ""
  }

  lemma NothingInEmpty(o: string)
    ensures !Displays("", o) && Parse("") == []
  {
    SplitOnFree("", ',');
    TrimKeepsDelimited("", o);
    ContainsOnText("", o);
    assert Trim("") == "";
    assert ParseEntry("") == [];
  }

  /** The exact verdict in every state of Grafana, for every tenant. */
  lemma DriftMeaning(t: Tenant, s: Settings)
    ensures Drifted(t, s) <==> HasGroups(t) && !Displays(TextOf(s), t.spec.orgID)
  {
    ContainsOnText(TextOf(s), t.spec.orgID);
    NothingInEmpty(t.spec.orgID);
  }

  /** Without a text under the key, a tenant is drifted exactly if it has a group in some role. */
  lemma DriftWithoutText(t: Tenant, s: Settings)
    requires s.Present? ==> "orgMapping" !in s.entries || s.entries["orgMapping"].NonStr?
    ensures Drifted(t, s) <==>
            exists g :: g in t.spec.viewerGroups || g in t.spec.editorGroups || g in t.spec.adminGroups
  {
    DriftMeaning(t, s);
    NothingInEmpty(t.spec.orgID);
    var m := t.spec;
    assert m.viewerGroups != [] ==> m.viewerGroups[0] in m.viewerGroups;
    assert m.editorGroups != [] ==> m.editorGroups[0] in m.editorGroups;
    assert m.adminGroups != [] ==> m.adminGroups[0] in m.adminGroups;
  }

  /** The same on a mapping that was printed, whatever bytes any field holds. */
  lemma DriftOnPrinted(ts: seq<TenantMapping>, t: Tenant, s: Settings)
    requires Holds(s, ts)
    ensures var o := t.spec.orgID;
            Drifted(t, s) <==>
              HasGroups(t) && (',' in o || forall tr | tr in Triples(ts) :: !InnerRun(PiecesOf(tr), SplitOn(o, ':')))
  {
    ContainsMeaning(ts, t.spec.orgID);
  }

  lemma SharedMeaning(ts: seq<TenantMapping>, o: string)
    ensures Shared(ts, o) <==> exists tr :: tr in Triples(ts) && tr.orgID == o
  {
    if tr :| tr in Triples(ts) && tr.orgID == o {
      var m := TripleHasTenant(ts, tr);
    }
    if m, g :| m in ts && m.orgID == o && HasGroup(m, g) {
      var tr := GroupHasTriple(ts, m, g);
    }
  }

  /** On well-formed tenants: drifted exactly if no printed tenant has groups for the org and the org stands
      behind no group's last colon. Which groups the tenant itself has does not matter. */
  lemma DriftOnWellFormed(ts: seq<TenantMapping>, t: Tenant, s: Settings)
    requires Holds(s, ts) && AllWellFormed(ts) && OrgSurvives(t.spec.orgID)
    ensures Drifted(t, s) <==> HasGroups(t) && !Shared(ts, t.spec.orgID) && !BehindAColon(ts, t.spec.orgID)
  {
    ContainsAgainstParser(ts, t.spec.orgID);
    SharedMeaning(ts, t.spec.orgID);
  }

  // ---------------------------------------------------------------- missing tenants

  /** An entry that the tenant asks for cannot be read from the text. */
  ghost predicate MissesEntry(text: string, t: Tenant) {
    exists g, role :: GivesRole(MappingOf(t), g, role) && Triple(g, t.spec.orgID, role) !in Parse(text)
  }

  /** The tenant asks for entries, and none of them can be read from the text. */
  ghost predicate MissesAll(text: string, t: Tenant) {
    && HasGroups(t)
    && forall g, role | GivesRole(MappingOf(t), g, role) :: Triple(g, t.spec.orgID, role) !in Parse(text)
  }

  lemma SomeRole(t: Tenant)
    requires HasGroups(t)
    ensures exists g, role :: GivesRole(MappingOf(t), g, role)
  {
    var m := MappingOf(t);
    if m.viewerGroups != [] {
      assert GivesRole(m, m.viewerGroups[0], "Viewer");
    } else if m.editorGroups != [] {
      assert GivesRole(m, m.editorGroups[0], "Editor");
    } else {
      assert GivesRole(m, m.adminGroups[0], "Admin");
    }
  }

  /** One direction of the comment holds, for every text: who is reported has no entry at all. */
  lemma ReportedIsMissing(t: Tenant, s: Settings)
    requires ':' !in t.spec.orgID
    ensures Drifted(t, s) ==> MissesAll(TextOf(s), t) && MissesEntry(TextOf(s), t)
  {
    var text := TextOf(s);
    NothingInEmpty(t.spec.orgID);
    forall tr | tr in Parse(text) && tr.orgID == t.spec.orgID ensures s.Present? && ContainsOrg(text, t.spec.orgID) {
      ParsedOrgShows(text, tr);
    }
    if Drifted(t, s) {
      SomeRole(t);
    }
  }

  /** The other does not. A tenant with a missing entry is reported exactly if the text does not display its org,
      whoever wrote the text; and, unless the org has a colon, the comment is right about all others. */
  lemma MissingIsReportedIff(t: Tenant, s: Settings)
    ensures MissesEntry(TextOf(s), t) ==> (Drifted(t, s) <==> !Displays(TextOf(s), t.spec.orgID))
    ensures ':' !in t.spec.orgID && !MissesEntry(TextOf(s), t) ==> !Drifted(t, s)
    ensures ':' !in t.spec.orgID ==>
              ((Drifted(t, s) <==> MissesEntry(TextOf(s), t)) <==>
               !(MissesEntry(TextOf(s), t) && Displays(TextOf(s), t.spec.orgID)))
  {
    DriftMeaning(t, s);
    if ':' !in t.spec.orgID {
      ReportedIsMissing(t, s);
    }
  }

  /** On well-formed tenants there are two ways to be displayed without being there. */
  lemma DisplayedOnWellFormed(ts: seq<TenantMapping>, o: string)
    requires AllWellFormed(ts) && OrgSurvives(o)
    ensures Displays(Mapping(ts), o) <==> Shared(ts, o) || BehindAColon(ts, o)
  {
    ContainsOnText(Mapping(ts), o);
    ContainsAgainstParser(ts, o);
    SharedMeaning(ts, o);
  }

  /** What follows for the reconciler: after an Update whose sync failed the tenant counts as settled, with its
      entries missing, exactly if the text displays its org or it has no groups; if then the others are at rest,
      there is silence. */
  lemma FailedUpdateIsForgotten(c: Cluster, u: Uid, io: Io)
    requires ValidStore(c.store) && u in c.store
    requires c.store[u].externalName != "" && !c.store[u].deleting
    requires !UpToDate(c.store[u]) && !SyncSucceeds(c.settings, io)
    ensures var t, c' := c.store[u], Reconcile(c, u, io).cluster;
            && c'.settings == c.settings && u in c'.store && c'.store[u].spec == t.spec
            && (Settled(c'.store[u], c'.settings) <==> !HasGroups(t) || Displays(TextOf(c.settings), t.spec.orgID))
            && ((forall v | v in c'.store :: Settled(c'.store[v], c'.settings)) ==> Silent(c'))
  {
    var c' := Reconcile(c, u, io).cluster;
    DriftMeaning(c'.store[u], c'.settings);
    if forall v | v in c'.store :: Settled(c'.store[v], c'.settings) {
      QuiescentMeansSilent(c');
    }
  }

  // ---------------------------------------------------------------- tenants that are not reported

  function Viewers(o: string, g: string): TenantMapping {
    TenantMapping(o, [g], [], [])
  }

  lemma TriplesOfOne(o: string, g: string)
    ensures Triples([Viewers(o, g)]) == [Triple(g, o, "Viewer")]
  {
    assert Triples([Viewers(o, g)]) == TenantTriples(Viewers(o, g)) + Triples([]);
  }

  lemma PrintsWell(o: string, g: string)
    requires WellFormedGroup(g) && OrgSurvives(o) && ',' !in o
    ensures AllWellFormed([Viewers(o, g)]) && Parse(Mapping([Viewers(o, g)])) == [Triple(g, o, "Viewer")]
  {
    var ts := [Viewers(o, g)];
    assert WellFormed(ts[0]);
    TriplesOfOne(o, g);
    MappingRoundTrip(ts);
  }

  lemma BehindAColonOfOne(o: string, g: string, i: nat)
    requires i < |g| && g[i] == ':'
    ensures BehindAColon([Viewers(o, g)], g[i + 1..])
  {
    TriplesOfOne(o, g);
    assert ColonTail(g, g[i + 1..]);
    assert Triple(g, o, "Viewer") in Triples([Viewers(o, g)]);
  }

  lemma OpsIsBehindAColon()
    ensures WellFormedGroup("team:ops") && BehindAColon([Viewers("dev", "team:ops")], "ops")
  {
    var g := "team:ops";
    BehindAColonOfOne("dev", g, 4);
    assert g[5..] == "ops";
  }

  lemma NotReported(o: string, g: string, t: Tenant, s: Settings)
    requires WellFormedGroup(g) && OrgSurvives(o) && ',' !in o && OrgSurvives(t.spec.orgID)
    requires Holds(s, [Viewers(o, g)]) && HasGroups(t)
    requires t.spec.orgID == o || BehindAColon([Viewers(o, g)], t.spec.orgID)
    requires t.spec.orgID != o || g !in t.spec.viewerGroups
    ensures MissesAll(TextOf(s), t) && !Drifted(t, s)
  {
    PrintsWell(o, g);
    assert HasGroup(Viewers(o, g), g);
    DriftOnWellFormed([Viewers(o, g)], t, s);
  }

  lemma DevAndOps()
    ensures OrgSurvives("dev") && ',' !in "dev" && OrgSurvives("ops") && "ops" != "dev"
  {}

  /** Behind a colon: the group `team:ops` of the org `dev` hides that the org `ops` is missing. */
  lemma HiddenBehindAColon(t: Tenant, s: Settings)
    requires Holds(s, [Viewers("dev", "team:ops")]) && t.spec.orgID == "ops" && HasGroups(t)
    ensures MissesAll(TextOf(s), t) && !Drifted(t, s)
  {
    OpsIsBehindAColon();
    DevAndOps();
    NotReported("dev", "team:ops", t, s);
  }

  /** A shared org: the group `a` of the org `dev` hides that all groups of another tenant of `dev` are missing. */
  lemma HiddenByASharedOrg(t: Tenant, s: Settings)
    requires Holds(s, [Viewers("dev", "a")]) && t.spec.orgID == "dev" && HasGroups(t) && "a" !in t.spec.viewerGroups
    ensures MissesAll(TextOf(s), t) && !Drifted(t, s)
  {
    NotReported("dev", "a", t, s);
  }

  ghost predicate Plain(s: string) {
    ':' !in s && ',' !in s && '\\' !in s && LeadingSpace(s) == 0
  }

  /** An entry whose org has a colon is printed, but not read back; and the search finds the parts of its org. */
  lemma OrgOfTwoPieces(g: string, p: string, o: string)
    requires Plain(g) && Plain(p) && Plain(o)
    ensures var ts := [Viewers(p + ":" + o, g)];
            && Parse(Mapping(ts)) == [] && Displays(Mapping(ts), o)
            && !Shared(ts, o) && !BehindAColon(ts, o)
  {
    MappingOfOne(p + ":" + o, g);
    NotReadBack(g, p, o);
    LastPart(p, o);
    PieceOfOrg(p + ":" + o, g, o);
    NeitherWay(p + ":" + o, g, o);
  }

  lemma MappingOfOne(q: string, g: string)
    ensures Mapping([Viewers(q, g)]) == EntryText(Triple(g, q, "Viewer"))
  {
    var tr := Triple(g, q, "Viewer");
    TriplesOfOne(q, g);
    assert EntryTexts([tr]) == [EntryText(tr)];
  }

  lemma PieceOfOrg(q: string, g: string, o: string)
    requires ':' !in o && ',' !in o && o in SplitOn(q, ':')
    ensures Displays(Mapping([Viewers(q, g)]), o)
  {
    var ts := [Viewers(q, g)];
    TriplesOfOne(q, g);
    assert Triple(g, q, "Viewer") in Triples(ts) && Shows(Triple(g, q, "Viewer"), o);
    ContainsColonFree(ts, o);
    ContainsOnText(Mapping(ts), o);
  }

  lemma NeitherWay(q: string, g: string, o: string)
    requires q != o && ':' !in g
    ensures !Shared([Viewers(q, g)], o) && !BehindAColon([Viewers(q, g)], o)
  {
    TriplesOfOne(q, g);
  }

  lemma LastPart(p: string, o: string)
    requires ':' !in o
    ensures o in SplitOn(p + ":" + o, ':')
  {
    SplitOnConcat(p, ':', o);
    SplitOnFree(o, ':');
    assert p + [':'] + o == p + ":" + o;
  }

  lemma NotReadBack(g: string, p: string, o: string)
    requires Plain(g) && Plain(p) && Plain(o)
    ensures Parse(EntryText(Triple(g, p + ":" + o, "Viewer"))) == []
  {
    var tr := Triple(g, p + ":" + o, "Viewer");
    RoleFacts(tr.role);
    EntryHasNoComma(tr);
    TrimEntry(tr);
    FourFields(g, p, o, tr.role);
    NotAnEntry(EntryText(tr));
  }

  lemma NotAnEntry(e: string)
    requires ',' !in e && |Split(Trim(e))| != 3
    ensures Parse(e) == []
  {
    SplitOnFree(e, ',');
    assert ParseEntries([e]) == ParseEntry(e) + ParseEntries([]);
  }

  lemma FourFields(g: string, p: string, o: string, role: string)
    requires '\\' !in g && '\\' !in p && '\\' !in o
    requires ':' !in p && ':' !in o && ':' !in role
    ensures |Split(EntryText(Triple(g, p + ":" + o, role)))| == 4
  {
    EscapeFree(p);
    EscapeFree(o);
    EscapeFree(role);
    JoinThree(p, o, role);
    var fields := [g, p, o, role];
    assert fields[1..] == [p, o, role];
    assert JoinEscaped(fields) == Escape(g) + ":" + (p + ":" + (o + ":" + role));
    assert EntryText(Triple(g, p + ":" + o, role)) == JoinEscaped(fields);
    ParseAfterPrint(fields);
  }

  /** Inside an org: the org `b:dev` of another tenant hides that the org `dev` is missing. Neither of the two ways
      above is at work. */
  lemma HiddenInsideAnOrg(t: Tenant, s: Settings)
    requires Holds(s, [Viewers("b:dev", "a")]) && t.spec.orgID == "dev" && HasGroups(t)
    ensures MissesAll(TextOf(s), t) && !Drifted(t, s)
    ensures !Shared([Viewers("b:dev", "a")], "dev") && !BehindAColon([Viewers("b:dev", "a")], "dev")
  {
    assert "b" + ":" + "dev" == "b:dev";
    OrgOfTwoPieces("a", "b", "dev");
    DriftMeaning(t, s);
  }
}
