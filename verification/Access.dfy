/** What a sync, and above all the sync of a deletion, does to the access of everyone. */
module Access {
  import opened Glob
  import opened OrgMapping
  import opened RoundTrip
  import opened Ordering
  import opened Resolver
  import opened Sso
  import opened Reconciler
  import opened Convergence

  /** The orgs that stored tenants mean to grant. */
  ghost function StoreEntitled(store: Store, claims: seq<string>): set<string> {
    set u | u in store && Entitles(store[u], claims) :: store[u].spec.orgID
  }

  ghost predicate Entitles(t: Tenant, claims: seq<string>) {
    exists g :: HasGroup(MappingOf(t), g) && Claimed(g, claims)
  }

  ghost function Without(store: Store, skip: Option<Uid>): Store {
    if skip.Some? then store - {skip.value} else store
  }

  lemma EntitledByListing(list: seq<Tenant>, store: Store, skip: Option<Uid>, claims: seq<string>)
    requires ValidStore(store) && Lists(list, store)
    ensures Entitled(Mappings(list, skip), claims) == StoreEntitled(Without(store, skip), claims)
  {
    var ms, rest := Mappings(list, skip), Without(store, skip);
    forall o | o in Entitled(ms, claims) ensures o in StoreEntitled(rest, claims) {
      var m :| m in ms && (exists g :: HasGroup(m, g) && Claimed(g, claims)) && m.orgID == o;
      var t := MappedIsListed(list, skip, m);
      assert Entitles(rest[t.uid], claims);
    }
    forall o | o in StoreEntitled(rest, claims) ensures o in Entitled(ms, claims) {
      var u :| u in rest && Entitles(rest[u], claims) && rest[u].spec.orgID == o;
      assert store[u] in list && store[u].uid == u;
      ListedIsMapped(list, skip, store[u]);
    }
  }

  lemma MappingsWellFormed(list: seq<Tenant>, store: Store, skip: Option<Uid>)
    requires Lists(list, store)
    requires forall v | v in store && skip != Some(v) :: WellFormed(MappingOf(store[v]))
    ensures AllWellFormed(Mappings(list, skip))
  {
    forall m | m in Mappings(list, skip) ensures WellFormed(m) {
      var t := MappedIsListed(list, skip, m);
    }
  }

  /** The mapping of a listing resolves to what the listed tenants grant. */
  lemma ListingGrants(store: Store, list: seq<Tenant>, skip: Option<Uid>, claims: seq<string>)
    requires ValidStore(store) && Lists(list, store)
    requires forall v | v in store && skip != Some(v) :: WellFormed(MappingOf(store[v]))
    ensures Resolve(Mapping(Mappings(list, skip)), claims) == Sorted(StoreEntitled(Without(store, skip), claims))
  {
    MappingsWellFormed(list, store, skip);
    ResolvePrintedMapping(Mappings(list, skip), claims);
    EntitledByListing(list, store, skip, claims);
  }

  /** After a successful sync the resolver answers from the store: exactly the orgs that the listed tenants
      grant, whatever order the listing had and whatever was written before. */
  lemma SyncGrantsTheStore(store: Store, s: Settings, io: Io, skip: Option<Uid>, claims: seq<string>)
    requires ValidStore(store) && ValidIo(io, store) && SyncSucceeds(s, io)
    requires forall v | v in store && skip != Some(v) :: WellFormed(MappingOf(store[v]))
    ensures Resolve(MappingText(Synced(s, io, skip).entries), claims)
            == Sorted(StoreEntitled(Without(store, skip), claims))
  {
    ListingGrants(store, io.listing.value, skip, claims);
  }

  /** After a successful sync the entries that can be read back are those the stored specs ask for,
      with the org and the role they ask for, and no others. */
  lemma SyncedEntries(store: Store, s: Settings, io: Io, skip: Option<Uid>, tr: Triple)
    requires ValidStore(store) && ValidIo(io, store) && SyncSucceeds(s, io)
    requires forall v | v in store && skip != Some(v) :: WellFormed(MappingOf(store[v]))
    ensures tr in Parse(MappingText(Synced(s, io, skip).entries)) <==>
            exists u ::
              && u in store && skip != Some(u) && store[u].spec.orgID == tr.orgID
              && (|| (tr.role == "Viewer" && tr.group in store[u].spec.viewerGroups)
                  || (tr.role == "Editor" && tr.group in store[u].spec.editorGroups)
                  || (tr.role == "Admin" && tr.group in store[u].spec.adminGroups))
  {
    var list := io.listing.value;
    ListedEntries(list, skip, tr);
    if t :| t in list && skip != Some(t.uid) && AsksFor(t.spec, tr) {
      assert t.uid in store && store[t.uid] == t;
    }
    if u :| u in store && skip != Some(u) && AsksFor(store[u].spec, tr) {
      assert store[u] in list && store[u].uid == u;
    }
  }

  /** And the claims that resolve are those that some group of some listed spec matches. */
  lemma SyncGrantsMembers(store: Store, s: Settings, io: Io, skip: Option<Uid>, claims: seq<string>, o: string)
    requires ValidStore(store) && ValidIo(io, store) && SyncSucceeds(s, io)
    requires forall v | v in store && skip != Some(v) :: WellFormed(MappingOf(store[v]))
    ensures o in Resolve(MappingText(Synced(s, io, skip).entries), claims) <==>
            exists u, g, c ::
              && u in store && skip != Some(u) && store[u].spec.orgID == o
              && (g in store[u].spec.viewerGroups || g in store[u].spec.editorGroups || g in store[u].spec.adminGroups)
              && c in claims && Matches(g, c)
  {
    SyncGrantsTheStore(store, s, io, skip, claims);
    var rest := Without(store, skip);
    assert o in StoreEntitled(rest, claims) <==> o in Elems(Sorted(StoreEntitled(rest, claims)));
    if o in StoreEntitled(rest, claims) {
      var u :| u in rest && Entitles(rest[u], claims) && rest[u].spec.orgID == o;
      var g :| HasGroup(MappingOf(rest[u]), g) && Claimed(g, claims);
      var c :| c in claims && Matches(g, c);
      assert u in store && skip != Some(u) && store[u] == rest[u];
    }
    if u, g, c :|
      && u in store && skip != Some(u) && store[u].spec.orgID == o
      && (g in store[u].spec.viewerGroups || g in store[u].spec.editorGroups || g in store[u].spec.adminGroups)
      && c in claims && Matches(g, c)
    {
      assert u in rest && rest[u] == store[u];
      assert HasGroup(MappingOf(rest[u]), g) && Claimed(g, claims) && Entitles(rest[u], claims);
    }
  }

  /** Leaving one tenant out of a listing takes exactly its triples away. */
  lemma {:induction false} SkipRemovesItsTriples(list: seq<Tenant>, i: nat)
    requires i < |list| && forall j, k | 0 <= j < k < |list| :: list[j].uid != list[k].uid
    ensures multiset(Triples(Mappings(list, None))) ==
            multiset(Triples(Mappings(list, Some(list[i].uid)))) + multiset(TenantTriples(MappingOf(list[i])))
  {
    FirstTriples(list, None);
    FirstTriples(list, Some(list[i].uid));
    var first, rest := TenantTriples(MappingOf(list[0])), Triples(Mappings(list[1..], None));
    if i == 0 {
      NothingSkipped(list[1..], list[i].uid);
      Reordered(first, rest, rest, multiset{});
    } else {
      SkipRemovesItsTriples(list[1..], i - 1);
      var kept := Triples(Mappings(list[1..], Some(list[i].uid)));
      Reordered(first, rest, kept, multiset(TenantTriples(MappingOf(list[i]))));
    }
  }

  lemma Reordered(first: seq<Triple>, rest: seq<Triple>, kept: seq<Triple>, gone: multiset<Triple>)
    requires multiset(rest) == multiset(kept) + gone
    ensures multiset(first + rest) == multiset(first + kept) + gone
    ensures multiset(first + rest) == multiset(rest) + multiset(first)
  {}

  lemma FirstTriples(list: seq<Tenant>, skip: Option<Uid>)
    requires list != []
    ensures Triples(Mappings(list, skip)) ==
            (if skip == Some(list[0].uid) then [] else TenantTriples(MappingOf(list[0])))
            + Triples(Mappings(list[1..], skip))
  {
    var rest := Mappings(list[1..], skip);
    assert skip != Some(list[0].uid) ==> Mappings(list, skip) == [MappingOf(list[0])] + rest;
    assert ([MappingOf(list[0])] + rest)[1..] == rest;
  }

  /** A deletion that reaches Grafana: the tenant is gone from the store, the entries that can be read back are
      those of the listed store minus exactly the tenant's own, any claims resolve to exactly the orgs that the
      remaining tenants grant (a shared org stays), and no other setting is touched. */
  lemma DeletionKeepsTheOthers(c: Cluster, u: Uid, io: Io, claims: seq<string>)
    requires ValidStore(c.store) && ValidIo(io, c.store) && SyncSucceeds(c.settings, io)
    requires u in c.store && c.store[u].deleting && c.store[u].externalName != ""
    requires forall v | v in c.store && v != u :: WellFormed(MappingOf(c.store[v]))
    ensures var c' := Reconcile(c, u, io).cluster;
            && c'.store == c.store - {u}
            && c'.settings.Present?
            && (c.settings.Present? ==> c'.settings.entries - {ORG_MAPPING} == c.settings.entries - {ORG_MAPPING})
            && multiset(Parse(MappingText(c'.settings.entries)))
               == multiset(Triples(Mappings(io.listing.value, None))) - multiset(TenantTriples(MappingOf(c.store[u])))
            && Resolve(MappingText(c'.settings.entries), claims) == Sorted(StoreEntitled(c'.store, claims))
  {
    SyncGrantsTheStore(c.store, c.settings, io, Some(u), claims);
    ListingWithoutOne(c.store, io.listing.value, u);
  }

  lemma ListingWithoutOne(store: Store, list: seq<Tenant>, u: Uid)
    requires ValidStore(store) && Lists(list, store) && u in store
    requires forall v | v in store && v != u :: WellFormed(MappingOf(store[v]))
    ensures multiset(Parse(Mapping(Mappings(list, Some(u)))))
            == multiset(Triples(Mappings(list, None))) - multiset(TenantTriples(MappingOf(store[u])))
  {
    MappingsWellFormed(list, store, Some(u));
    MappingRoundTrip(Mappings(list, Some(u)));
    assert store[u] in list;
    var i :| 0 <= i < |list| && list[i] == store[u];
    SkipRemovesItsTriples(list, i);
  }

  /** An org that another tenant grants as well is not lost with the deleted tenant. */
  lemma SharedOrgStays(c: Cluster, u: Uid, v: Uid, io: Io, claims: seq<string>)
    requires ValidStore(c.store) && ValidIo(io, c.store) && SyncSucceeds(c.settings, io)
    requires u in c.store && c.store[u].deleting && c.store[u].externalName != ""
    requires forall w | w in c.store && w != u :: WellFormed(MappingOf(c.store[w]))
    requires v in c.store && v != u && Entitles(c.store[v], claims)
    ensures c.store[v].spec.orgID in Resolve(MappingText(Reconcile(c, u, io).cluster.settings.entries), claims)
  {
    DeletionKeepsTheOthers(c, u, io, claims);
    var rest := Reconcile(c, u, io).cluster.store;
    assert rest[v] == c.store[v];
    assert c.store[v].spec.orgID in StoreEntitled(rest, claims);
    assert c.store[v].spec.orgID in Elems(Sorted(StoreEntitled(rest, claims)));
  }

  // ---------------------------------------------------------------- a deletion that does not reach Grafana

  /** A deletion that fails to sync, or whose tenant has no external name yet, takes the tenant away all the same
      and leaves Grafana as it is. Nothing repairs it: if the other tenants are at rest, there is silence. */
  lemma LeftoverStays(c: Cluster, u: Uid, io: Io)
    requires ValidStore(c.store) && u in c.store && c.store[u].deleting
    requires c.store[u].externalName == "" || !SyncSucceeds(c.settings, io)
    ensures var c' := Reconcile(c, u, io).cluster;
            c' == Cluster(c.store - {u}, c.settings) && (Quiescent(c') ==> Silent(c'))
  {
    var c' := Reconcile(c, u, io).cluster;
    if Quiescent(c') {
      QuiescentMeansSilent(c');
    }
  }

  /** Everyone's claims resolve to what the stored tenants grant. */
  ghost predicate Accurate(c: Cluster) {
    forall claims :: GrantsTheStore(c, claims)
  }

  ghost predicate GrantsTheStore(c: Cluster, claims: seq<string>) {
    c.settings.Present? && Resolve(MappingText(c.settings.entries), claims) == Sorted(StoreEntitled(c.store, claims))
  }

  /** The tenant grants somebody an org that no other tenant grants them. */
  ghost predicate GrantsAlone(store: Store, u: Uid) {
    exists claims ::
      u in store && Entitles(store[u], claims) && store[u].spec.orgID !in StoreEntitled(store - {u}, claims)
  }

  lemma StoreWithoutOne(store: Store, u: Uid, claims: seq<string>)
    requires u in store
    ensures StoreEntitled(store, claims) ==
            StoreEntitled(store - {u}, claims) + if Entitles(store[u], claims) then {store[u].spec.orgID} else {}
  {
    var all, rest := StoreEntitled(store, claims), StoreEntitled(store - {u}, claims);
    forall o | o in all ensures o in rest || (Entitles(store[u], claims) && o == store[u].spec.orgID) {
      var v :| v in store && Entitles(store[v], claims) && store[v].spec.orgID == o;
      assert v != u ==> v in store - {u} && (store - {u})[v] == store[v];
    }
    forall o | o in rest ensures o in all {
      var v :| v in store - {u} && Entitles((store - {u})[v], claims) && (store - {u})[v].spec.orgID == o;
      assert v in store && store[v] == (store - {u})[v];
    }
  }

  lemma SortedDetermines(a: set<string>, b: set<string>)
    ensures Sorted(a) == Sorted(b) <==> a == b
  {
    assert Elems(Sorted(a)) == a && Elems(Sorted(b)) == b;
  }

  /** When access is right before a deletion, it is right afterwards exactly if the tenant had its external name and
      the sync went through, or it granted nothing that the others do not grant. */
  lemma DeletionExactly(c: Cluster, u: Uid, io: Io)
    requires ValidStore(c.store) && ValidIo(io, c.store) && u in c.store && c.store[u].deleting
    requires forall v | v in c.store && v != u :: WellFormed(MappingOf(c.store[v]))
    requires Accurate(c)
    ensures Accurate(Reconcile(c, u, io).cluster) <==>
            (c.store[u].externalName != "" && SyncSucceeds(c.settings, io)) || !GrantsAlone(c.store, u)
  {
    var c' := Reconcile(c, u, io).cluster;
    if c.store[u].externalName != "" && SyncSucceeds(c.settings, io) {
      forall claims ensures GrantsTheStore(c', claims) {
        DeletionKeepsTheOthers(c, u, io, claims);
      }
    } else {
      LeftoverStays(c, u, io);
      forall claims
        ensures GrantsTheStore(c', claims) <==>
                !(Entitles(c.store[u], claims) && c.store[u].spec.orgID !in StoreEntitled(c.store - {u}, claims))
      {
        assert GrantsTheStore(c, claims);
        StoreWithoutOne(c.store, u, claims);
        SortedDetermines(StoreEntitled(c.store, claims), StoreEntitled(c'.store, claims));
      }
    }
  }
}
