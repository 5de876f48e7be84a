/** The org_mapping text: how it is printed from tenants, how it is read back as entries,
    and the substring test that stands in for reading it. */
module OrgMapping {
  import opened Text
  import opened Fields

  /** What one tenant contributes to the mapping. */
  datatype TenantMapping = TenantMapping(
    orgID: string,
    viewerGroups: seq<string>,
    editorGroups: seq<string>,
    adminGroups: seq<string>)

  /** One entry of the mapping. */
  datatype Triple = Triple(group: string, orgID: string, role: string)

  function FieldsOf(t: Triple): (fields: seq<string>) {
    [t.group, t.orgID, t.role]
  }

  // ---------------------------------------------------------------- printing

  /** `fmt.Sprintf("%s:%s:<role>", escapeColon(group), orgID)`. */
  function EntryText(t: Triple): string {
    Escape(t.group) + ":" + t.orgID + ":" + t.role
  }

  function EntryTexts(ts: seq<Triple>): (es: seq<string>)
    ensures |es| == |ts| && forall i | 0 <= i < |ts| :: es[i] == EntryText(ts[i])
  {
    seq(|ts|, i requires 0 <= i < |ts| => EntryText(ts[i]))
  }

  function RoleTriples(groups: seq<string>, orgID: string, role: string): (ts: seq<Triple>)
    ensures |ts| == |groups| && forall i | 0 <= i < |ts| :: ts[i] == Triple(groups[i], orgID, role)
  {
    seq(|groups|, i requires 0 <= i < |groups| => Triple(groups[i], orgID, role))
  }

  function TenantTriples(t: TenantMapping): seq<Triple> {
    RoleTriples(t.viewerGroups, t.orgID, "Viewer")
    + RoleTriples(t.editorGroups, t.orgID, "Editor")
    + RoleTriples(t.adminGroups, t.orgID, "Admin")
  }

  /** All triples: tenants in order; of each, viewers, then editors, then admins. */
  function Triples(tenants: seq<TenantMapping>): seq<Triple> {
    if tenants == [] then [] else TenantTriples(tenants[0]) + Triples(tenants[1..])
  }

  /** The mapping text that the tenants ought to have. */
  function Mapping(tenants: seq<TenantMapping>): string {
    Join(EntryTexts(Triples(tenants)), ',')
  }

  lemma {:induction false} TriplesConcat(a: seq<TenantMapping>, b: seq<TenantMapping>)
    ensures Triples(a + b) == Triples(a) + Triples(b)
  {
    if a == [] {
      assert a + b == b;
    } else {
      assert (a + b)[1..] == a[1..] + b;
      TriplesConcat(a[1..], b);
    }
  }

  lemma EntryTextsConcat(a: seq<Triple>, b: seq<Triple>)
    ensures EntryTexts(a + b) == EntryTexts(a) + EntryTexts(b)
  {}

  /** One of the three inner loops of `BuildOrgMapping`. */
  method AppendRole(entries: seq<string>, groups: seq<string>, orgID: string, role: string) returns (more: seq<string>)
    ensures more == entries + EntryTexts(RoleTriples(groups, orgID, role))
  {
    more := entries;
    for i := 0 to |groups|
      invariant more == entries + EntryTexts(RoleTriples(groups[..i], orgID, role))
    {
      more := more + [Escape(groups[i]) + ":" + orgID + ":" + role];
    }
    assert groups[..|groups|] == groups;
  }

  /** The body of the outer loop. */
  method AppendTenant(entries: seq<string>, t: TenantMapping) returns (more: seq<string>)
    ensures more == entries + EntryTexts(TenantTriples(t))
  {
    more := AppendRole(entries, t.viewerGroups, t.orgID, "Viewer");
    more := AppendRole(more, t.editorGroups, t.orgID, "Editor");
    more := AppendRole(more, t.adminGroups, t.orgID, "Admin");
    var viewers := RoleTriples(t.viewerGroups, t.orgID, "Viewer");
    var editors := RoleTriples(t.editorGroups, t.orgID, "Editor");
    EntryTextsConcat(viewers, editors);
    EntryTextsConcat(viewers + editors, RoleTriples(t.adminGroups, t.orgID, "Admin"));
  }

  /** `BuildOrgMapping`. */
  method BuildOrgMapping(tenants: seq<TenantMapping>) returns (text: string)
    ensures text == Mapping(tenants)
  {
    var entries: seq<string> := [];
    for i := 0 to |tenants|
      invariant entries == EntryTexts(Triples(tenants[..i]))
    {
      entries := AppendTenant(entries, tenants[i]);
      assert tenants[..i + 1] == tenants[..i] + [tenants[i]];
      TriplesConcat(tenants[..i], [tenants[i]]);
      EntryTextsConcat(Triples(tenants[..i]), TenantTriples(tenants[i]));
      assert Triples([tenants[i]]) == TenantTriples(tenants[i]);
    }
    assert tenants[..|tenants|] == tenants;
    text := Join(entries, ',');
  }

  /** Of one tenant: its viewers, then its editors, then its admins. */
  lemma TriplesInOrder(t: TenantMapping)
    ensures |TenantTriples(t)| == |t.viewerGroups| + |t.editorGroups| + |t.adminGroups|
    ensures var v, e := |t.viewerGroups|, |t.editorGroups|;
            forall k | 0 <= k < |TenantTriples(t)| ::
              TenantTriples(t)[k] == if k < v then Triple(t.viewerGroups[k], t.orgID, "Viewer")
                                     else if k < v + e then Triple(t.editorGroups[k - v], t.orgID, "Editor")
                                     else Triple(t.adminGroups[k - v - e], t.orgID, "Admin")
  {}

  lemma TriplesAround(a: seq<TenantMapping>, t: TenantMapping, b: seq<TenantMapping>)
    ensures Triples(a + [t] + b) == Triples(a) + TenantTriples(t) + Triples(b)
    ensures Triples([t]) == TenantTriples(t)
  {
    TriplesConcat(a + [t], b);
    TriplesConcat(a, [t]);
    assert Triples([t]) == TenantTriples(t) + Triples([]);
  }

  /** The order of printing, whatever bytes any field holds: among those of other tenants, the entries of one are its
      viewers, then its editors, then its admins. */
  lemma PrintedInOrder(a: seq<TenantMapping>, t: TenantMapping, b: seq<TenantMapping>) returns (entries: seq<string>)
    ensures Mapping(a + [t] + b) == Join(EntryTexts(Triples(a)) + entries + EntryTexts(Triples(b)), ',')
    ensures |entries| == |t.viewerGroups| + |t.editorGroups| + |t.adminGroups|
    ensures var v, e := |t.viewerGroups|, |t.editorGroups|;
            forall k | 0 <= k < |entries| ::
              entries[k] == if k < v then Escape(t.viewerGroups[k]) + ":" + t.orgID + ":" + "Viewer"
                            else if k < v + e then Escape(t.editorGroups[k - v]) + ":" + t.orgID + ":" + "Editor"
                            else Escape(t.adminGroups[k - v - e]) + ":" + t.orgID + ":" + "Admin"
  {
    entries := EntryTexts(TenantTriples(t));
    TriplesAround(a, t, b);
    EntryTextsConcat(Triples(a) + TenantTriples(t), Triples(b));
    EntryTextsConcat(Triples(a), TenantTriples(t));
    TriplesInOrder(t);
  }

  /** No tenants, no text. */
  lemma EmptyMapping()
    ensures Mapping([]) == "" && Parse("") == []
  {
    assert EntryTexts(Triples([])) == [];
    assert Split(Trim("")) == [""];
  }

  ghost predicate HasGroup(t: TenantMapping, g: string) {
    g in t.viewerGroups || g in t.editorGroups || g in t.adminGroups
  }

  /** The tenant gives the group the role. */
  ghost predicate GivesRole(t: TenantMapping, g: string, role: string) {
    || (role == "Viewer" && g in t.viewerGroups)
    || (role == "Editor" && g in t.editorGroups)
    || (role == "Admin" && g in t.adminGroups)
  }

  /** The roles the printer writes. */
  ghost predicate IsRole(role: string) {
    role == "Viewer" || role == "Editor" || role == "Admin"
  }

  lemma TenantTriplesMeaning(t: TenantMapping, tr: Triple)
    ensures tr in TenantTriples(t) <==> tr.orgID == t.orgID && GivesRole(t, tr.group, tr.role)
  {}

  /** A triple is printed exactly if some tenant with its org gives its group its role. */
  lemma {:induction false} TriplesMeaning(tenants: seq<TenantMapping>, tr: Triple)
    ensures tr in Triples(tenants) <==>
            exists t :: t in tenants && t.orgID == tr.orgID && GivesRole(t, tr.group, tr.role)
  {
    if tenants == [] {
    } else {
      TenantTriplesMeaning(tenants[0], tr);
      TriplesMeaning(tenants[1..], tr);
    }
  }

  lemma TripleHasTenant(tenants: seq<TenantMapping>, tr: Triple) returns (t: TenantMapping)
    requires tr in Triples(tenants)
    ensures t in tenants && t.orgID == tr.orgID && HasGroup(t, tr.group) && IsRole(tr.role)
  {
    TriplesMeaning(tenants, tr);
    t :| t in tenants && t.orgID == tr.orgID && GivesRole(t, tr.group, tr.role);
  }

  lemma GroupHasTriple(tenants: seq<TenantMapping>, t: TenantMapping, g: string) returns (tr: Triple)
    requires t in tenants && HasGroup(t, g)
    ensures tr in Triples(tenants) && tr.group == g && tr.orgID == t.orgID
  {
    var role := if g in t.viewerGroups then "Viewer" else if g in t.editorGroups then "Editor" else "Admin";
    tr := Triple(g, t.orgID, role);
    assert GivesRole(t, g, tr.role);
    TriplesMeaning(tenants, tr);
  }

  // ---------------------------------------------------------------- reading

  /** What one piece between commas says: one triple if it has three fields, nothing otherwise. */
  function ParseEntry(entry: string): seq<Triple> {
    var f := Split(Trim(entry));
    if |f| == 3 then [Triple(f[0], f[1], f[2])] else []
  }

  function ParseEntries(entries: seq<string>): seq<Triple> {
    if entries == [] then [] else ParseEntry(entries[0]) + ParseEntries(entries[1..])
  }

  /** The entries of a mapping text, malformed ones skipped. */
  function Parse(text: string): seq<Triple> {
    ParseEntries(SplitOn(text, ','))
  }

  lemma {:induction false} ParseEntriesConcat(a: seq<string>, b: seq<string>)
    ensures ParseEntries(a + b) == ParseEntries(a) + ParseEntries(b)
  {
    if a == [] {
      assert a + b == b;
    } else {
      assert (a + b)[1..] == a[1..] + b;
      ParseEntriesConcat(a[1..], b);
    }
  }

  /** Reading two texts put together with a comma is reading the one, then the other. */
  lemma ParseConcat(m1: string, m2: string)
    ensures Parse(m1 + "," + m2) == Parse(m1) + Parse(m2)
  {
    SplitOnConcat(m1, ',', m2);
    ParseEntriesConcat(SplitOn(m1, ','), SplitOn(m2, ','));
  }

  lemma {:induction false} ParsedHasEntry(entries: seq<string>, tr: Triple) returns (e: string)
    requires tr in ParseEntries(entries)
    ensures e in entries && Split(Trim(e)) == FieldsOf(tr)
  {
    if tr in ParseEntry(entries[0]) {
      e := entries[0];
    } else {
      e := ParsedHasEntry(entries[1..], tr);
    }
  }

  lemma {:induction false} EntryIsParsed(entries: seq<string>, e: string, tr: Triple)
    requires e in entries && Split(Trim(e)) == FieldsOf(tr)
    ensures tr in ParseEntries(entries)
  {
    if e == entries[0] {
      assert ParseEntry(e) == [tr];
    } else {
      EntryIsParsed(entries[1..], e, tr);
    }
  }

  /** The triples that are read are the trimmed pieces between commas that have exactly three fields: group, org and
      role, in this order. */
  lemma ParsedMeaning(text: string, tr: Triple)
    ensures tr in Parse(text) <==>
            exists e :: e in SplitOn(text, ',') && Split(Trim(e)) == [tr.group, tr.orgID, tr.role]
  {
    if tr in Parse(text) {
      var e := ParsedHasEntry(SplitOn(text, ','), tr);
    }
    if e :| e in SplitOn(text, ',') && Split(Trim(e)) == [tr.group, tr.orgID, tr.role] {
      EntryIsParsed(SplitOn(text, ','), e, tr);
    }
  }

  // ---------------------------------------------------------------- the substring test

  /** Some piece between commas holds `:orgID:`. */
  ghost predicate ContainsOrg(text: string, orgID: string) {
    exists part :: part in SplitOn(text, ',') && HasSubstring(Trim(part), ":" + orgID + ":")
  }

  /** `OrgMappingContains`. */
  method OrgMappingContains(orgMapping: string, orgID: string) returns (found: bool)
    ensures found <==> ContainsOrg(orgMapping, orgID)
  {
    if orgMapping == "" {
      TrimKeepsDelimited("", orgID);
      return false;
    }
    var suffix := ":" + orgID + ":";
    var parts := SplitOn(orgMapping, ',');
    for i := 0 to |parts|
      invariant forall j | 0 <= j < i :: !HasSubstring(Trim(parts[j]), suffix)
    {
      var hit := Contains(Trim(parts[i]), suffix);
      if hit {
        return true;
      }
    }
    return false;
  }
}
