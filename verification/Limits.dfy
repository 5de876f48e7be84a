/** Where the guarantees end: what happens to each of them when one of its hypotheses is dropped. */
module Limits {
  import opened Text
  import opened Fields
  import opened Glob
  import opened Ordering
  import opened OrgMapping
  import opened RoundTrip
  import opened Shortcut
  import opened Resolver
  import opened Sso
  import opened Reconciler
  import opened Convergence

  // ---------------------------------------------------------------- end to end, exactly

  function OneTenant(g: string, o: string): seq<TenantMapping> {
    [TenantMapping(o, [g], [], [])]
  }

  lemma OneTenantFacts(g: string, o: string)
    ensures Mapping(OneTenant(g, o)) == EntryText(Triple(g, o, "Viewer"))
    ensures Entitled(OneTenant(g, o), [g]) == {o}
  {
    var t := TenantMapping(o, [g], [], []);
    assert Triples([t]) == TenantTriples(t) + Triples([]) == [Triple(g, o, "Viewer")];
    MatchesItself(g);
    assert HasGroup(t, g) && Claimed(g, [g]);
  }

  lemma {:induction false} PieceBytes(s: string, p: string, c: char)
    requires p in SplitOn(s, ',') && c in p
    ensures c in s
  {
    if s == "" {
    } else {
      var rest := SplitOn(s[1..], ',');
      assert s == [s[0]] + s[1..];
      if p in rest {
        PieceBytes(s[1..], p, c);
      } else if c in rest[0] {
        PieceBytes(s[1..], rest[0], c);
      }
    }
  }

  /** A byte that stands in a parsed group or org stands in the text. */
  lemma ParsedBytes(text: string, t: Triple, c: char)
    requires t in Parse(text) && c != ':' && c != '\\' && (c in t.group || c in t.orgID)
    ensures c in text
    ensures c != ','
  {
    var e := ParsedHasEntry(SplitOn(text, ','), t);
    FieldBytes(Trim(e), t.group, t.orgID, t.role, c);
    var lo, hi := TrimRemoves(e);
    assert c in e[lo..hi];
    PieceBytes(text, e, c);
    PiecesAreFree(text, ',');
  }

  lemma FieldBytes(s: string, a: string, b: string, r: string, c: char)
    requires Split(s) == [a, b, r] && c != ':' && c != '\\' && (c in a || c in b)
    ensures c in s
  {
    PrintAfterParse(s);
    JoinThree(a, b, r);
    EscapeKeepsOut(a, c);
    EscapeKeepsOut(b, c);
  }

  lemma {:induction false} UnescapedColonStays(o: string, v: string, x: string)
    requires o + ":" + v == Escape(o) + ":" + x
    ensures ':' !in o
  {
    var l, r := o + ":" + v, Escape(o) + ":" + x;
    if o == "" {
    } else {
      assert l[0] == o[0] && r[0] == EscapeByte(o[0])[0];
      assert o[0] != ':';
      assert Escape(o)[1..] == Escape(o[1..]);
      assert l[1..] == o[1..] + ":" + v && r[1..] == Escape(o[1..]) + ":" + x;
      UnescapedColonStays(o[1..], v, x);
      assert o == [o[0]] + o[1..];
    }
  }

  /** A text that splits into g, o, r and ends in a letter survives the trip, whatever it was printed from. */
  lemma SplitOfTrimmed(s: string, g: string, o: string, r: string)
    requires Split(Trim(s)) == [g, o, r] && s != "" && IsMark(s[|s| - 1])
    ensures Trim(s) == Escape(g) + ":" + (Escape(o) + ":" + Escape(r))
    ensures GroupSurvives(g) && !EndsInBackslash(o)
  {
    var fields := [g, o, r];
    PrintAfterParse(Trim(s));
    JoinThree(g, o, r);
    LeadingSpaceOfEntry(g, Escape(o) + ":" + Escape(r));
    var lo := TrimOfMarkedEnd(s);
    ParsedIsPrintable(Trim(s));
    assert !EndsInBackslash(fields[0]) && !EndsInBackslash(fields[1]);
  }

  lemma SamePrefixSameRest(a: string, x: string, y: string)
    requires a + ":" + x == a + ":" + y
    ensures x == y
  {
    assert (a + ":" + x)[|a| + 1..] == x && (a + ":" + y)[|a| + 1..] == y;
  }

  /** If an entry is read back with its own group and org, whatever the role, both survive. */
  lemma ReadBackSurvives(g: string, o: string, r: string)
    requires Split(Trim(EntryText(Triple(g, o, "Viewer")))) == [g, o, r]
    ensures GroupSurvives(g) && OrgSurvives(o)
  {
    var t := Triple(g, o, "Viewer");
    var e := EntryText(t);
    assert e == Escape(g) + ":" + (o + ":" + t.role);
    assert e[|e| - 1] == t.role[|t.role| - 1] == 'r';
    SplitOfTrimmed(e, g, o, r);
    TrimEntry(t);
    SamePrefixSameRest(Escape(g), o + ":" + t.role, Escape(o) + ":" + Escape(r));
    UnescapedColonStays(o, t.role, Escape(r));
  }

  /** Each hypothesis of the end-to-end theorem is needed. A tenant with one group grants its org to a member of
      that group; the resolver says so exactly when the tenant is well formed: no comma in group or org, no white
      space in front of the group, no backslash at the end of either, no colon in the org. */
  lemma OneTenantResolvesIffWellFormed(g: string, o: string)
    requires '*' !in g && '?' !in g && '*' !in o && '?' !in o
    ensures Entitled(OneTenant(g, o), [g]) == {o}
    ensures Resolve(Mapping(OneTenant(g, o)), [g]) == [o] <==>
            WellFormedGroup(g) && OrgSurvives(o) && ',' !in o
  {
    var text := Mapping(OneTenant(g, o));
    OneTenantFacts(g, o);
    if WellFormedGroup(g) && OrgSurvives(o) && ',' !in o {
      assert WellFormed(OneTenant(g, o)[0]);
      ResolvePrintedMapping(OneTenant(g, o), [g]);
      SortedListingIsUnique([o], Sorted({o}));
    }
    if Resolve(text, [g]) == [o] {
      ResolvedIsWellFormed(g, o);
    }
  }

  lemma ResolvedIsWellFormed(g: string, o: string)
    requires '*' !in g && '?' !in g && '*' !in o && '?' !in o
    requires Resolve(Mapping(OneTenant(g, o)), [g]) == [o]
    ensures WellFormedGroup(g) && OrgSurvives(o) && ',' !in o
  {
    var text := Mapping(OneTenant(g, o));
    OneTenantFacts(g, o);
    assert o in Elems(Resolve(text, [g]));
    var t :| t in Parse(text) && Claimed(t.group, [g]) && t.orgID == o;
    assert '*' !in t.group && '?' !in t.group by {
      NoWildcardInEntry(g, o);
      if '*' in t.group {
        ParsedBytes(text, t, '*');
      }
      if '?' in t.group {
        ParsedBytes(text, t, '?');
      }
    }
    LiteralPattern(t.group, g);
    assert t.group == g;
    assert ',' !in g && ',' !in o by {
      if ',' in g || ',' in o {
        ParsedBytes(text, t, ',');
      }
    }
    EntryHasNoComma(Triple(g, o, "Viewer"));
    SplitOnFree(text, ',');
    var e := ParsedHasEntry(SplitOn(text, ','), t);
    ReadBackSurvives(g, o, t.role);
  }

  lemma NoWildcardInEntry(g: string, o: string)
    requires '*' !in g && '?' !in g && '*' !in o && '?' !in o
    ensures '*' !in EntryText(Triple(g, o, "Viewer")) && '?' !in EntryText(Triple(g, o, "Viewer"))
  {
    EscapeKeepsOut(g, '*');
    EscapeKeepsOut(g, '?');
  }

  // ---------------------------------------------------------------- the write bound and the silence

  /** An org with a comma: the tenant is drifted for ever, and every reconcile writes. */
  lemma {:induction false} CommaOrgWritesForever(c: Cluster, steps: seq<Step>, u: Uid)
    requires ValidStore(c.store) && !c.settings.NotAMap? && IsRun(c, steps)
    requires forall i | 0 <= i < |steps| :: steps[i].uid == u && CallsSucceed(steps[i].io)
    requires u in c.store && c.store[u].externalName != "" && !c.store[u].deleting
    requires HasGroups(c.store[u]) && ',' in c.store[u].spec.orgID
    ensures Writes(c, steps) == |steps|
    decreases |steps|
  {
    if steps == [] {
    } else {
      if c.settings.Present? {
        OrgWithCommaIsNeverFound(MappingText(c.settings.entries), c.store[u].spec.orgID);
      }
      CommaOrgWritesForever(Reconcile(c, u, steps[0].io).cluster, steps[1..], u);
    }
  }

  /** The resource definition admits no empty tenant id. Were there one, it would become an empty external name,
      and the tenant would be created again and again. */
  lemma {:induction false} EmptyIdIsCreatedForever(c: Cluster, steps: seq<Step>, u: Uid)
    requires ValidStore(c.store) && !c.settings.NotAMap? && IsRun(c, steps)
    requires forall i | 0 <= i < |steps| :: steps[i].uid == u && CallsSucceed(steps[i].io)
    requires u in c.store && c.store[u].externalName == "" && !c.store[u].deleting && c.store[u].spec.tenantID == ""
    requires forall v | v in c.store && v != u :: c.store[v].spec.tenantID != ""
    ensures Writes(c, steps) == |steps|
    decreases |steps|
  {
    if steps == [] {
    } else {
      DuplicatedIsRefused(c.store, steps[0].io.check.value, c.store[u]);
      EmptyIdIsCreatedForever(Reconcile(c, u, steps[0].io).cluster, steps[1..], u);
    }
  }

  /** An outside writer that drops the settings makes a settled tenant write again. */
  lemma OutsideWriterCausesAWrite(c: Cluster, step: Step)
    requires ValidIo(step.io, c.store) && CallsSucceed(step.io)
    requires step.uid in c.store && Settled(c.store[step.uid], c.settings) && HasGroups(c.store[step.uid])
    ensures Reconcile(c.(settings := Absent), step.uid, step.io).wrote
  {}

  /** A user edit does, too. */
  lemma UserEditCausesAWrite(c: Cluster, step: Step, p: Parameters)
    requires ValidStore(c.store) && !c.settings.NotAMap? && CallsSucceed(step.io)
    requires step.uid in c.store && Settled(c.store[step.uid], c.settings) && p != c.store[step.uid].spec
    ensures var edited := c.(store := c.store[step.uid := c.store[step.uid].(spec := p)]);
            Reconcile(edited, step.uid, step.io).wrote
  {}

  /** A payload that is not a map can never be synced, and the status of a tenant with groups never comes to rest. */
  lemma NotAMapNeverRests(c: Cluster, step: Step)
    requires c.settings.NotAMap? && step.io.driftGetOk
    requires step.uid in c.store && c.store[step.uid].externalName != "" && !c.store[step.uid].deleting
    requires HasGroups(c.store[step.uid])
    ensures var o := Reconcile(c, step.uid, step.io);
            !o.wrote && step.uid in o.cluster.store && o.cluster.store[step.uid].status.lastUpdated == step.io.now
  {}

  // ---------------------------------------------------------------- unique ids

  /** An edited tenant id is not checked again: two created tenants end up with the same one. */
  lemma EditedIdIsNotChecked(c: Cluster, x: Uid, y: Uid, io: Io)
    requires ValidStore(c.store) && x in c.store && y in c.store && x != y
    requires c.store[x].externalName != "" && c.store[y].externalName != "" && !c.store[y].deleting
    requires c.store[y].spec.tenantID != c.store[x].spec.tenantID && UpToDate(c.store[y])
    ensures var p := c.store[y].spec.(tenantID := c.store[x].spec.tenantID);
            var c' := Reconcile(c.(store := c.store[y := c.store[y].(spec := p)]), y, io).cluster;
            && y in c'.store && c'.store[y].externalName != ""
            && c'.store[y].status.tenantID == c.store[x].spec.tenantID
            && x in c'.store && c'.store[x] == c.store[x]
  {}

  /** A List that does not show a stored rival lets Create through. */
  lemma StaleListAdmitsADuplicate(c: Cluster, x: Uid, y: Uid, io: Io)
    requires ValidStore(c.store) && x in c.store && y in c.store && x != y
    requires c.store[x].externalName != "" && c.store[x].spec.tenantID == c.store[y].spec.tenantID != ""
    requires c.store[y].externalName == "" && !c.store[y].deleting
    requires SyncSucceeds(c.settings, io) && io.check == Some([c.store[y]])
    ensures var c' := Reconcile(c, y, io).cluster;
            x in c'.store && y in c'.store && c'.store[x].externalName != "" && c'.store[y].externalName != ""
  {}

  /** The price of uniqueness: two new tenants with the same id refuse each other in every run, for good. */
  lemma {:induction false} RivalsBlockEachOther(c: Cluster, steps: seq<Step>, x: Uid, y: Uid)
    requires ValidStore(c.store) && IsRun(c, steps)
    requires x in c.store && y in c.store && x != y && c.store[x].spec.tenantID == c.store[y].spec.tenantID
    requires c.store[x].externalName == "" && !c.store[x].deleting
    requires c.store[y].externalName == "" && !c.store[y].deleting
    ensures var c' := After(c, steps);
            x in c'.store && y in c'.store && c'.store[x] == c.store[x] && c'.store[y] == c.store[y]
    decreases |steps|
  {
    if steps == [] {
    } else {
      var step := steps[0];
      assert Refused(c, c.store[x]) && Refused(c, c.store[y]);
      if step.uid == x || step.uid == y {
        RefusedStep(c, step);
      } else {
        OthersStaySettled(c, step, x);
        OthersStaySettled(c, step, y);
      }
      StepFrame(c, step);
      RivalsBlockEachOther(Reconcile(c, step.uid, step.io).cluster, steps[1..], x, y);
    }
  }

  // ---------------------------------------------------------------- the shortcut

  /** Why the org that resolves must have no colon to be found: an entry with a colon-free group whose org has one
      is read, but the search does not find its org. */
  lemma EscapedOrgIsNotFound(g: string, o: string, role: string)
    requires WellFormedGroup(g) && ':' !in g && IsRole(role)
    requires ':' in o && ',' !in o && !EndsInBackslash(o)
    ensures var text := JoinEscaped([g, o, role]);
            o in Resolve(text, [g]) && !ContainsOrg(text, o)
  {
    EscapedEntryText(g, o, role);
    EscapedOrgResolves(g, o, role);
    EscapedRun(g, o, role);
    NotContained(JoinEscaped([g, o, role]), o);
  }

  lemma NotContained(text: string, o: string)
    requires ',' !in text && Trim(text) == text && !InnerRun(SplitOn(text, ':'), SplitOn(o, ':'))
    ensures !ContainsOrg(text, o)
  {
    InnerOccurrence(text, o);
    SplitOnFree(text, ',');
  }

  lemma EscapedOrgResolves(g: string, o: string, role: string)
    requires WellFormedGroup(g) && IsRole(role) && ',' !in o && !EndsInBackslash(o)
    ensures o in Resolve(JoinEscaped([g, o, role]), [g])
  {
    var fields := [g, o, role];
    var text := JoinEscaped(fields);
    EscapedEntryText(g, o, role);
    assert forall i | 0 <= i < 2 :: !EndsInBackslash(fields[i]);
    ParseAfterPrint(fields);
    SplitOnFree(text, ',');
    EntryIsParsed([text], text, Triple(g, o, role));
    MatchesItself(g);
    assert Claimed(g, [g]);
    assert o in Elems(Resolve(text, [g]));
  }

  lemma EscapedEntryText(g: string, o: string, role: string)
    requires WellFormedGroup(g) && ',' !in o && IsRole(role)
    ensures var text := JoinEscaped([g, o, role]); Trim(text) == text && ',' !in text
  {
    RoleFacts(role);
    EscapeFree(role);
    EscapeKeepsOut(g, ',');
    EscapeKeepsOut(o, ',');
    JoinThree(g, o, role);
    var text := Escape(g) + ":" + (Escape(o) + ":" + role);
    LeadingSpaceOfEntry(g, Escape(o) + ":" + role);
    assert text[|text| - 1] == role[|role| - 1];
    var lo := TrimOfMarkedEnd(text);
  }

  lemma EscapedRun(g: string, o: string, role: string)
    requires ':' !in g && ':' in o && ':' !in role
    ensures !InnerRun(SplitOn(JoinEscaped([g, o, role]), ':'), SplitOn(o, ':'))
  {
    var os, bs := SplitOn(o, ':'), Backslashed(SplitOn(o, ':'));
    EscapeFree(g);
    EscapeFree(role);
    JoinThree(g, o, role);
    EscapedPieces(o);
    SplitOnFree(g, ':');
    SplitOnFree(role, ':');
    SplitOnConcat(Escape(o), ':', role);
    SplitOnConcat(g, ':', Escape(o) + [':'] + role);
    var ps := SplitOn(JoinEscaped([g, o, role]), ':');
    assert JoinEscaped([g, o, role]) == g + [':'] + (Escape(o) + [':'] + role);
    assert ps == [g] + (bs + [role]);
    if |os| == 1 {
      OnePiece(o);
      PiecesAreFree(o, ':');
    }
    assert |os| >= 2 && ps[1..][0] == os[0] + "\\";
  }

  // ---------------------------------------------------------------- one pass

  /** One pass need not be enough: a refused tenant, visited before its rival is removed in the same pass. */
  lemma OnePassIsNotEnough(c: Cluster, x: Uid, y: Uid) returns (pass: seq<Step>)
    requires ValidStore(c.store) && c.store.Keys == {x, y} && x != y && !c.settings.NotAMap?
    requires c.store[x].externalName == "" && !c.store[x].deleting
    requires c.store[y].deleting && c.store[y].spec.tenantID == c.store[x].spec.tenantID
    ensures IsPass(c, pass) && !Quiescent(After(c, pass))
  {
    var io := AllSucceed(c.store);
    assert Refused(c, c.store[x]);
    RefusedStep(c, Step(x, io));
    var c' := Reconcile(c, y, io).cluster;
    assert c'.store == c.store - {y} && c'.store.Keys == {x};
    pass := [Step(x, io), Step(y, io)];
    assert pass[1..] == [Step(y, io)] && pass[1..][1..] == [];
    assert IsRun(c', []) && After(c', []) == c';
    assert IsRun(c, pass[1..]) && After(c, pass[1..]) == c';
    assert pass[0].uid == x && pass[1].uid == y;
    assert !Refused(c', c'.store[x]);
  }
}
