/** The Tenant reconciler: what each call of the external client does, and one serial reconcile. */
module Reconciler {
  import opened OrgMapping
  import opened RoundTrip
  import opened Sso

  datatype Option<+T> = None | Some(value: T)

  type Uid = nat

  datatype Retention = Retention(logs: string, metrics: string, traces: string, profiles: string)

  datatype Parameters = Parameters(
    tenantID: string,
    orgID: string,
    admins: seq<string>,
    viewerGroups: seq<string>,
    editorGroups: seq<string>,
    adminGroups: seq<string>,
    retention: Retention)

  datatype Observation = Observation(
    tenantID: string,
    orgID: string,
    admins: seq<string>,
    viewerGroups: seq<string>,
    editorGroups: seq<string>,
    adminGroups: seq<string>,
    retention: Retention,
    lastUpdated: string)

  /** A Tenant as it is stored. */
  datatype Tenant = Tenant(
    uid: Uid,
    spec: Parameters,
    status: Observation,
    externalName: string,
    deleting: bool)

  type Store = map<Uid, Tenant>

  ghost predicate ValidStore(store: Store) {
    forall u | u in store :: store[u].uid == u
  }

  /** A listing names every stored tenant once; the order is the server's choice. */
  ghost predicate Lists(list: seq<Tenant>, store: Store) {
    && (forall t | t in list :: t.uid in store && store[t.uid] == t)
    && (forall u | u in store :: store[u] in list)
    && (forall i, j | 0 <= i < j < |list| :: list[i].uid != list[j].uid)
  }

  lemma {:induction false} ListingExists(store: Store) returns (list: seq<Tenant>)
    requires ValidStore(store)
    ensures Lists(list, store)
    decreases |store|
  {
    list := [];
    if u :| u in store {
      var rest := store - {u};
      assert rest.Keys == store.Keys - {u};
      assert |rest| == |rest.Keys| && |store| == |store.Keys|;
      var tail := ListingExists(rest);
      list := [store[u]] + tail;
      forall j | 0 <= j < |tail| ensures tail[j].uid != u {
        assert tail[j] in tail;
      }
      forall v | v in store ensures store[v] in list {
        assert v != u ==> rest[v] in tail;
      }
    }
  }

  // ---------------------------------------------------------------- pure parts

  /** What `syncStatus` writes. */
  function StatusOf(p: Parameters, now: string): Observation {
    Observation(p.tenantID, p.orgID, p.admins, p.viewerGroups, p.editorGroups, p.adminGroups, p.retention, now)
  }

  /** Status and spec agree, whatever the time stamp. */
  ghost predicate UpToDate(t: Tenant) {
    t.status == StatusOf(t.spec, t.status.lastUpdated)
  }

  function MappingOf(t: Tenant): TenantMapping {
    TenantMapping(t.spec.orgID, t.spec.viewerGroups, t.spec.editorGroups, t.spec.adminGroups)
  }

  /** The mappings of a listing, without the tenant that is to be left out. */
  function Mappings(list: seq<Tenant>, skip: Option<Uid>): seq<TenantMapping> {
    if list == [] then []
    else if skip == Some(list[0].uid) then Mappings(list[1..], skip)
    else [MappingOf(list[0])] + Mappings(list[1..], skip)
  }

  lemma {:induction false} ListedIsMapped(list: seq<Tenant>, skip: Option<Uid>, t: Tenant)
    requires t in list && skip != Some(t.uid)
    ensures MappingOf(t) in Mappings(list, skip)
  {
    if t != list[0] {
      ListedIsMapped(list[1..], skip, t);
    }
  }

  /** The mappings of a listing are its tenants in its order, each with the org and the groups of its spec. */
  lemma {:induction false} MappingsInOrder(list: seq<Tenant>)
    ensures |Mappings(list, None)| == |list|
    ensures forall i | 0 <= i < |list| ::
              var m, spec := Mappings(list, None)[i], list[i].spec;
              && m.orgID == spec.orgID && m.viewerGroups == spec.viewerGroups
              && m.editorGroups == spec.editorGroups && m.adminGroups == spec.adminGroups
  {
    if list == [] {
    } else {
      MappingsInOrder(list[1..]);
    }
  }

  /** Leaving one out leaves the order of the others. */
  lemma {:induction false} MappingsAround(a: seq<Tenant>, t: Tenant, b: seq<Tenant>)
    requires forall x | x in a + b :: x.uid != t.uid
    ensures Mappings(a + [t] + b, Some(t.uid)) == Mappings(a + b, None)
  {
    if a == [] {
      assert [] + [t] + b == [t] + b && [] + b == b;
      assert ([t] + b)[1..] == b;
      NothingSkipped(b, t.uid);
    } else {
      assert a[0] in a + b;
      assert (a + [t] + b)[1..] == a[1..] + [t] + b && (a + b)[1..] == a[1..] + b;
      MappingsAround(a[1..], t, b);
    }
  }

  lemma {:induction false} NothingSkipped(list: seq<Tenant>, u: Uid)
    requires forall t | t in list :: t.uid != u
    ensures Mappings(list, Some(u)) == Mappings(list, None)
  {
    if list == [] {
    } else {
      NothingSkipped(list[1..], u);
    }
  }

  lemma {:induction false} MappedIsListed(list: seq<Tenant>, skip: Option<Uid>, m: TenantMapping) returns (t: Tenant)
    requires m in Mappings(list, skip)
    ensures t in list && MappingOf(t) == m && skip != Some(t.uid)
  {
    if skip != Some(list[0].uid) && m == MappingOf(list[0]) {
      t := list[0];
    } else {
      t := MappedIsListed(list[1..], skip, m);
    }
  }

  /** The spec asks for the entry. */
  ghost predicate AsksFor(p: Parameters, tr: Triple) {
    && p.orgID == tr.orgID
    && (|| (tr.role == "Viewer" && tr.group in p.viewerGroups)
        || (tr.role == "Editor" && tr.group in p.editorGroups)
        || (tr.role == "Admin" && tr.group in p.adminGroups))
  }

  ghost predicate ListedWellFormed(list: seq<Tenant>, skip: Option<Uid>) {
    forall t | t in list && skip != Some(t.uid) :: WellFormed(MappingOf(t))
  }

  /** What can be read from the mapping of a listing is what the specs of the listed tenants ask for. */
  lemma ListedEntries(list: seq<Tenant>, skip: Option<Uid>, tr: Triple)
    requires ListedWellFormed(list, skip)
    ensures tr in Parse(Mapping(Mappings(list, skip))) <==>
            exists t :: t in list && skip != Some(t.uid) && AsksFor(t.spec, tr)
  {
    var ms := Mappings(list, skip);
    forall m | m in ms ensures WellFormed(m) {
      var t := MappedIsListed(list, skip, m);
    }
    MappingRoundTrip(ms);
    TriplesMeaning(ms, tr);
    if m :| m in ms && m.orgID == tr.orgID && GivesRole(m, tr.group, tr.role) {
      var t := MappedIsListed(list, skip, m);
      assert AsksFor(t.spec, tr);
    }
    if t :| t in list && skip != Some(t.uid) && AsksFor(t.spec, tr) {
      ListedIsMapped(list, skip, t);
      assert GivesRole(MappingOf(t), tr.group, tr.role);
    }
  }

  predicate HasGroups(t: Tenant) {
    t.spec.viewerGroups != [] || t.spec.editorGroups != [] || t.spec.adminGroups != []
  }

  /** The drift check when Grafana answers. */
  ghost predicate Drifted(t: Tenant, s: Settings) {
    HasGroups(t) && (s.Present? ==> !ContainsOrg(MappingText(s.entries), t.spec.orgID))
  }

  /** Some other stored tenant has the same tenant id. */
  ghost predicate Duplicated(t: Tenant, list: seq<Tenant>) {
    exists o :: o in list && o.uid != t.uid && o.spec.tenantID == t.spec.tenantID
  }

  /** The environment of one reconcile: which calls succeed, what the two List calls return, the clock. */
  datatype Io = Io(
    driftGetOk: bool,
    check: Option<seq<Tenant>>,
    listing: Option<seq<Tenant>>,
    getOk: bool,
    putOk: bool,
    now: string)

  ghost predicate ValidIo(io: Io, store: Store) {
    && (io.check.Some? ==> Lists(io.check.value, store))
    && (io.listing.Some? ==> Lists(io.listing.value, store))
  }

  ghost predicate SyncSucceeds(s: Settings, io: Io) {
    io.listing.Some? && io.getOk && io.putOk && !s.NotAMap?
  }

  /** The settings after a sync. */
  ghost function Synced(s: Settings, io: Io, skip: Option<Uid>): Settings {
    if SyncSucceeds(s, io) then Written(s, Mapping(Mappings(io.listing.value, skip))) else s
  }

  // ---------------------------------------------------------------- the serial machine

  /** Everything outside the provider: the stored tenants and Grafana's settings. */
  datatype Cluster = Cluster(store: Store, settings: Settings)

  datatype Outcome = Outcome(cluster: Cluster, wrote: bool)

  /** One reconcile of one tenant: Observe, then at most one of remove, Create, Update. */
  ghost function Reconcile(c: Cluster, u: Uid, io: Io): Outcome {
    if u !in c.store then Outcome(c, false)
    else
      var t := c.store[u];
      var ok := SyncSucceeds(c.settings, io);
      if t.externalName == "" then
        if t.deleting then Outcome(c.(store := c.store - {u}), false)
        else if io.check.None? || Duplicated(t, io.check.value) || !ok then Outcome(c, false)
        else
          var created := t.(externalName := t.spec.tenantID, status := StatusOf(t.spec, io.now));
          Outcome(Cluster(c.store[u := created], Synced(c.settings, io, None)), true)
      else if t.deleting then
        Outcome(Cluster(c.store - {u}, Synced(c.settings, io, Some(u))), ok)
      else if UpToDate(t) && !(io.driftGetOk && Drifted(t, c.settings)) then Outcome(c, false)
      else
        var updated := t.(status := StatusOf(t.spec, io.now));
        Outcome(Cluster(c.store[u := updated], Synced(c.settings, io, None)), ok)
  }

  // ---------------------------------------------------------------- the code

  /** `slicesEqual`. */
  method SlicesEqual(a: seq<string>, b: seq<string>) returns (equal: bool)
    ensures equal <==> a == b
  {
    if |a| == 0 && |b| == 0 {
      return true;
    }
    if |a| != |b| {
      return false;
    }
    for i := 0 to |a|
      invariant a[..i] == b[..i]
    {
      if a[i] != b[i] {
        return false;
      }
    }
    assert a[..|a|] == a && b[..|b|] == b;
    return true;
  }

  /** A Tenant in the hands of one reconcile. */
  class Resource {
    const uid: Uid
    const deleting: bool
    var spec: Parameters
    var status: Observation
    var externalName: string

    constructor (t: Tenant)
      ensures Value() == t
    {
      uid, deleting := t.uid, t.deleting;
      spec, status, externalName := t.spec, t.status, t.externalName;
    }

    function Value(): Tenant
      reads this
    {
      Tenant(uid, spec, status, externalName, deleting)
    }

    /** `syncStatus`. */
    method SyncStatus(now: string)
      modifies this
      ensures Value() == old(Value()).(status := StatusOf(old(spec), now))
      ensures && status.tenantID == spec.tenantID && status.orgID == spec.orgID && status.admins == spec.admins
              && status.viewerGroups == spec.viewerGroups && status.editorGroups == spec.editorGroups
              && status.adminGroups == spec.adminGroups && status.retention == spec.retention
              && status.lastUpdated == now && spec == old(spec)
    {
      status := Observation(spec.tenantID, spec.orgID, spec.admins,
                            spec.viewerGroups, spec.editorGroups, spec.adminGroups, spec.retention, now);
    }

    /** `isUpToDate`. */
    method IsUpToDate() returns (upToDate: bool)
      ensures upToDate <==> UpToDate(Value())
      ensures upToDate <==>
                && status.tenantID == spec.tenantID && status.orgID == spec.orgID && status.admins == spec.admins
                && status.viewerGroups == spec.viewerGroups && status.editorGroups == spec.editorGroups
                && status.adminGroups == spec.adminGroups && status.retention == spec.retention
    {
      if spec.tenantID != status.tenantID {
        return false;
      }
      if spec.orgID != status.orgID {
        return false;
      }
      if spec.retention != status.retention {
        return false;
      }
      var admins := SlicesEqual(spec.admins, status.admins);
      if !admins {
        return false;
      }
      var viewers := SlicesEqual(spec.viewerGroups, status.viewerGroups);
      if !viewers {
        return false;
      }
      var editors := SlicesEqual(spec.editorGroups, status.editorGroups);
      if !editors {
        return false;
      }
      var adminGroups := SlicesEqual(spec.adminGroups, status.adminGroups);
      return adminGroups;
    }
  }

  datatype Verdict = Verdict(found: bool, upToDate: bool)

  /** `external`, with the store that its kube client lists. */
  class External {
    var store: Store
    const sso: SsoClient

    constructor (store: Store, sso: SsoClient)
      ensures this.store == store && this.sso == sso
    {
      this.store := store;
      this.sso := sso;
    }

    function State(): Cluster
      reads this, sso
    {
      Cluster(store, sso.settings)
    }

    /** `syncGrafanaOrgMapping`. */
    method SyncGrafanaOrgMapping(cr: Resource, deleting: bool, io: Io) returns (ok: bool)
      modifies sso
      ensures ok <==> SyncSucceeds(old(sso.settings), io)
      ensures ok <==> io.listing.Some? && io.getOk && io.putOk && !old(sso.settings).NotAMap?
      ensures sso.settings == Synced(old(sso.settings), io, if deleting then Some(cr.uid) else None)
      ensures var skip := if deleting then Some(cr.uid) else None;
              ok && ListedWellFormed(io.listing.value, skip) ==>
                && sso.settings.Present?
                && forall tr :: tr in Parse(MappingText(sso.settings.entries)) <==>
                                exists t :: t in io.listing.value && skip != Some(t.uid) && AsksFor(t.spec, tr)
      ensures sso.puts == old(sso.puts) + if ok then 1 else 0
    {
      if io.listing.None? {
        return false;
      }
      var items := io.listing.value;
      var mappings: seq<TenantMapping> := [];
      ghost var skip := if deleting then Some(cr.uid) else None;
      assert items[0..] == items;
      for i := 0 to |items|
        invariant mappings + Mappings(items[i..], skip) == Mappings(items, skip)
      {
        assert items[i..][1..] == items[i + 1..];
        if deleting && items[i].uid == cr.uid {
          continue;
        }
        var spec := items[i].spec;
        mappings := mappings + [TenantMapping(spec.orgID, spec.viewerGroups, spec.editorGroups, spec.adminGroups)];
      }
      assert items[|items|..] == [];
      assert mappings == Mappings(items, skip);
      ok := SyncOrgMapping(sso, mappings, io.getOk, io.putOk);
      if ok && ListedWellFormed(items, skip) {
        forall tr ensures tr in Parse(MappingText(sso.settings.entries)) <==>
                            exists t :: t in items && skip != Some(t.uid) && AsksFor(t.spec, tr)
        {
          ListedEntries(items, skip, tr);
        }
      }
    }

    /** `validateUniqueTenantID`. */
    method ValidateUniqueTenantID(cr: Resource, io: Io) returns (ok: bool)
      ensures ok <==> io.check.Some? && !Duplicated(cr.Value(), io.check.value)
      ensures ok <==> && io.check.Some?
                      && forall t | t in io.check.value && t.uid != cr.uid :: t.spec.tenantID != cr.spec.tenantID
    {
      if io.check.None? {
        return false;
      }
      var items := io.check.value;
      for i := 0 to |items|
        invariant forall j | 0 <= j < i :: items[j].uid == cr.uid || items[j].spec.tenantID != cr.spec.tenantID
      {
        if items[i].uid == cr.uid {
          continue;
        }
        if items[i].spec.tenantID == cr.spec.tenantID {
          return false;
        }
      }
      return true;
    }

    /** `isGrafanaDrifted`; a failed Get is an error, which no caller takes for drift. */
    method IsGrafanaDrifted(cr: Resource, getOk: bool) returns (drifted: bool)
      ensures drifted <==> getOk && Drifted(cr.Value(), sso.settings)
    {
      if |cr.spec.viewerGroups| == 0 && |cr.spec.editorGroups| == 0 && |cr.spec.adminGroups| == 0 {
        return false;
      }
      var resp := sso.GetProviderSettings(getOk);
      match resp
      case Failed => return false;
      case NotFound => return true;
      case Payload(s) =>
        if !s.Present? {
          return true;
        }
        var found := OrgMappingContains(MappingText(s.entries), cr.spec.orgID);
        return !found;
    }

    /** `Observe`. */
    method Observe(cr: Resource, io: Io) returns (v: Verdict)
      modifies sso
      ensures v.found <==> cr.externalName != "" && !cr.deleting
      ensures v.found ==>
                (v.upToDate <==> UpToDate(cr.Value()) && !(io.driftGetOk && Drifted(cr.Value(), old(sso.settings))))
      ensures sso.settings == if cr.externalName != "" && cr.deleting
                              then Synced(old(sso.settings), io, Some(cr.uid)) else old(sso.settings)
      ensures sso.puts == old(sso.puts)
                + if cr.externalName != "" && cr.deleting && SyncSucceeds(old(sso.settings), io) then 1 else 0
    {
      if cr.externalName == "" {
        return Verdict(false, false);
      }
      if cr.deleting {
        var ok := SyncGrafanaOrgMapping(cr, true, io);
        return Verdict(false, false);
      }
      var upToDate := cr.IsUpToDate();
      if upToDate {
        var drifted := IsGrafanaDrifted(cr, io.driftGetOk);
        if drifted {
          upToDate := false;
        }
      }
      return Verdict(true, upToDate);
    }

    /** `Create`. An error leaves its traces in `cr`: the name and status are set before the sync. */
    method Create(cr: Resource, io: Io) returns (ok: bool)
      modifies cr, sso
      ensures var unique := io.check.Some? && !Duplicated(old(cr.Value()), io.check.value);
              && (ok <==> unique && SyncSucceeds(old(sso.settings), io))
              && cr.Value() == (if unique
                   then old(cr.Value()).(externalName := old(cr.spec).tenantID,
                                         status := StatusOf(old(cr.spec), io.now))
                   else old(cr.Value()))
              && sso.settings == (if unique then Synced(old(sso.settings), io, None) else old(sso.settings))
      ensures sso.puts == old(sso.puts) + if ok then 1 else 0
    {
      var unique := ValidateUniqueTenantID(cr, io);
      if !unique {
        return false;
      }
      cr.externalName := cr.spec.tenantID;
      cr.SyncStatus(io.now);
      ok := SyncGrafanaOrgMapping(cr, false, io);
    }

    /** `Update`: the sync is best effort. */
    method Update(cr: Resource, io: Io)
      modifies cr, sso
      ensures cr.Value() == old(cr.Value()).(status := StatusOf(old(cr.spec), io.now))
      ensures sso.settings == Synced(old(sso.settings), io, None)
      ensures sso.puts == old(sso.puts) + if SyncSucceeds(old(sso.settings), io) then 1 else 0
    {
      cr.SyncStatus(io.now);
      var ok := SyncGrafanaOrgMapping(cr, false, io);
    }

    /** The calls the managed reconciler makes for one tenant, and what it stores of them. */
    method ReconcileTenant(u: Uid, io: Io)
      requires ValidStore(store)
      modifies this, sso
      ensures State() == Reconcile(old(State()), u, io).cluster
      ensures sso.puts == old(sso.puts) + if Reconcile(old(State()), u, io).wrote then 1 else 0
    {
      if u !in store {
        return;
      }
      var cr := new Resource(store[u]);
      var v := Observe(cr, io);
      if !v.found && cr.deleting {
        store := store - {u};
      } else if !v.found {
        var ok := Create(cr, io);
        if ok {
          store := store[u := cr.Value()];
        }
      } else if !v.upToDate {
        Update(cr, io);
        store := store[u := cr.Value()];
      }
    }
  }
}
