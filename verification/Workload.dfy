/** How often interleaved workers write, when users keep still. */
module Workload {
  import opened OrgMapping
  import opened Sso
  import opened Reconciler
  import opened Convergence
  import opened Interleaving

  // ---------------------------------------------------------------- orderly schedules

  ghost predicate Holding(p: Phase, u: Uid) {
    !p.Idle? && p.cr.uid == u
  }

  /** No user acts, no two workers have the same tenant, and what follows a successful Put is stored. */
  ghost predicate Orderly(s: System, a: Action) {
    && !a.Insert? && !a.Edit? && !a.MarkDeleted?
    && (a.Take? ==> forall v | v in s.workers :: !Holding(s.workers[v], a.u))
    && (a.Drop? ==> !(PhaseOf(s, a.w).Finished? && PhaseOf(s, a.w).wrote))
  }

  ghost predicate OrderlyRun(s: System, acts: seq<Action>)
    decreases |acts|
  {
    acts == [] || (Enabled(s, acts[0]) && Orderly(s, acts[0]) && OrderlyRun(Do(s, acts[0]), acts[1..]))
  }

  /** The action writes to Grafana on behalf of u. */
  ghost predicate IsPutOf(s: System, a: Action, u: Uid) {
    a.Put? && a.ok && Holding(PhaseOf(s, a.w), u)
  }

  ghost function PutsOf(s: System, acts: seq<Action>, u: Uid): nat
    requires OrderlyRun(s, acts)
    decreases |acts|
  {
    if acts == [] then 0
    else (if IsPutOf(s, acts[0], u) then 1 else 0) + PutsOf(Do(s, acts[0]), acts[1..], u)
  }

  // ---------------------------------------------------------------- what orderly workers know

  /** The worker's copy is the stored tenant, and it is where such a tenant takes it. */
  ghost predicate PhaseFits(store: Store, p: Phase) {
    !p.Idle? ==>
      && p.cr.uid in store && store[p.cr.uid] == p.cr
      && (SyncKindOf(p) == Some(Creating) ==> p.cr.externalName == "" && !p.cr.deleting)
      && (SyncKindOf(p) == Some(Updating) ==> p.cr.externalName != "" && !p.cr.deleting)
      && (SyncKindOf(p) == Some(Deleting) ==> p.cr.externalName != "" && p.cr.deleting)
  }

  ghost function SyncKindOf(p: Phase): Option<Kind> {
    if p.Listed? || p.Fetched? || p.Finished? then Some(p.kind) else SyncKind(p)
  }

  ghost predicate InSync(s: System) {
    && ValidStore(s.store)
    && (forall w | w in s.workers :: PhaseFits(s.store, s.workers[w]))
    && (forall v, w | v in s.workers && w in s.workers && v != w && !s.workers[v].Idle? && !s.workers[w].Idle? ::
          s.workers[v].cr.uid != s.workers[w].cr.uid)
    && (s.settings.NotAMap? ==> forall w | w in s.workers :: !s.workers[w].Fetched?)
  }

  lemma PhaseInSync(s: System, w: Worker, p: Phase)
    requires InSync(s) && PhaseFits(s.store, p) && (p.Fetched? ==> !s.settings.NotAMap?)
    requires || p.Idle? || Holding(PhaseOf(s, w), p.cr.uid)
             || forall v | v in s.workers :: !Holding(s.workers[v], p.cr.uid)
    ensures InSync(WithPhase(s, w, p))
  {}

  lemma CommitInSync(s: System, w: Worker, now: string)
    requires InSync(s) && Enabled(s, Commit(w, now))
    ensures InSync(Do(s, Commit(w, now)))
  {
    var p := PhaseOf(s, w);
    var s' := Do(s, Commit(w, now));
    CommittedIsValid(s.store, p, now);
    assert forall u | u in s.store && u != p.cr.uid :: u in s'.store && s'.store[u] == s.store[u];
    forall v | v in s'.workers && v != w ensures PhaseFits(s'.store, s'.workers[v]) {
      assert PhaseFits(s.store, s.workers[v]);
    }
  }

  lemma StepInSync(s: System, a: Action)
    requires InSync(s) && Enabled(s, a) && Orderly(s, a)
    ensures InSync(Do(s, a))
  {
    if a.Commit? {
      CommitInSync(s, a.w, a.now);
    } else {
      assert PhaseFits(s.store, PhaseOf(s, a.w));
      PhaseInSync(s.(settings := Do(s, a).settings), a.w, PhaseOf(Do(s, a), a.w));
    }
  }

  ghost function ClusterOf(s: System): Cluster {
    Cluster(s.store, s.settings)
  }

  /** What orderly steps never do, as for serial ones. */
  lemma OrderlyFrame(s: System, a: Action)
    requires InSync(s) && Enabled(s, a) && Orderly(s, a)
    ensures var s' := Do(s, a);
            && s'.store.Keys <= s.store.Keys
            && (s'.settings.NotAMap? <==> s.settings.NotAMap?)
            && (s'.settings != s.settings ==> a.Put?)
            && (s'.store != s.store ==> a.Commit?)
            && (forall v | v in s.store && !s.store[v].deleting :: v in s'.store)
            && (forall v | v in s'.store ::
                  && s'.store[v].spec == s.store[v].spec && s'.store[v].deleting == s.store[v].deleting
                  && NamedOnce(s.store[v], s'.store[v]))
  {
    if a.Commit? {
      assert PhaseFits(s.store, PhaseOf(s, a.w));
    }
    if a.Put? {
      assert s.workers[a.w].Fetched?;
    }
  }

  /** Only the worker that has a tenant stores something of it. */
  lemma OthersUntouched(s: System, a: Action, u: Uid)
    requires InSync(s) && Enabled(s, a) && Orderly(s, a)
    requires a.Commit? ==> !Holding(PhaseOf(s, a.w), u)
    ensures u in Do(s, a).store <==> u in s.store
    ensures u in s.store ==> Do(s, a).store[u] == s.store[u]
  {}

  // ---------------------------------------------------------------- every text shows the tenant

  ghost predicate Shown(text: string, t: Tenant) {
    HasGroups(t) ==> ContainsOrg(text, t.spec.orgID)
  }

  ghost predicate Findable(t: Tenant) {
    HasGroups(t) ==> ',' !in t.spec.orgID
  }

  /** A tenant that stays is in each text that a worker holds. */
  ghost predicate TextsShow(s: System, u: Uid) {
    u in s.store && !s.store[u].deleting && Findable(s.store[u]) ==>
      forall w | w in s.workers :: PhaseShows(s.workers[w], s.store[u])
  }

  ghost predicate PhaseShows(p: Phase, t: Tenant) {
    p.Listed? || p.Fetched? ==> Shown(p.text, t)
  }

  lemma ListingShows(store: Store, list: seq<Tenant>, skip: Option<Uid>, u: Uid)
    requires ValidStore(store) && Lists(list, store) && u in store && skip != Some(u) && Findable(store[u])
    ensures Shown(Mapping(Mappings(list, skip)), store[u])
  {
    DriftAfterSync(store, store[u], Absent, Io(true, None, Some(list), true, true, ""), skip);
  }

  lemma ListedShows(s: System, w: Worker, list: seq<Tenant>, u: Uid)
    requires InSync(s) && Enabled(s, List(w, list))
    requires u in s.store && !s.store[u].deleting && Findable(s.store[u])
    ensures PhaseShows(PhaseOf(Do(s, List(w, list)), w), s.store[u])
  {
    var p := PhaseOf(s, w);
    assert PhaseFits(s.store, p);
    var skip := if SyncKind(p).value.Deleting? then Some(p.cr.uid) else None;
    ListingShows(s.store, list, skip, u);
  }

  lemma StepTextsShow(s: System, a: Action, u: Uid)
    requires InSync(s) && Enabled(s, a) && Orderly(s, a) && TextsShow(s, u)
    ensures TextsShow(Do(s, a), u)
  {
    var s' := Do(s, a);
    OrderlyFrame(s, a);
    if u in s'.store && !s'.store[u].deleting && Findable(s'.store[u]) {
      if a.List? {
        ListedShows(s, a.w, a.list, u);
      } else if a.Get? {
        assert PhaseShows(PhaseOf(s, a.w), s.store[u]);
      }
      NewTexts(s, a);
      forall w | w in s'.workers ensures PhaseShows(s'.workers[w], s'.store[u]) {
        assert w in s.workers ==> PhaseShows(s.workers[w], s.store[u]);
      }
    }
  }

  /** Only List makes a text. */
  lemma NewTexts(s: System, a: Action)
    requires Enabled(s, a) && Orderly(s, a)
    ensures var s' := Do(s, a);
            && (forall w | w in s'.workers && w != a.w :: w in s.workers && s'.workers[w] == s.workers[w])
            && (PhaseOf(s', a.w).Listed? ==> a.List?)
            && (PhaseOf(s', a.w).Fetched? ==>
                  PhaseOf(s, a.w).Listed? && PhaseOf(s', a.w).text == PhaseOf(s, a.w).text)
  {}

  // ---------------------------------------------------------------- bounded tenants stay so

  ghost predicate OnlyTaken(s: System, u: Uid) {
    forall w | w in s.workers && Holding(s.workers[w], u) :: s.workers[w].Taken?
  }

  /** The check of a blocked tenant is never passed. */
  ghost predicate BlockedWait(s: System, u: Uid) {
    u in s.store && Blocked(ClusterOf(s), s.store[u]) ==> OnlyTaken(s, u)
  }

  ghost predicate Inv(s: System, u: Uid) {
    InSync(s) && TextsShow(s, u) && BlockedWait(s, u) && Bounded(ClusterOf(s), u)
  }

  lemma BlockedStays(s: System, a: Action, u: Uid)
    requires InSync(s) && Enabled(s, a) && Orderly(s, a) && BlockedWait(s, u)
    requires u in s.store && Blocked(ClusterOf(s), s.store[u])
    ensures OnlyTaken(Do(s, a), u)
    ensures u in Do(s, a).store ==> Blocked(ClusterOf(Do(s, a)), Do(s, a).store[u])
  {
    OrderlyFrame(s, a);
    BlockedOnlyTaken(s, a, u);
    if u in Do(s, a).store {
      BlockedUnnamed(s, a, u);
      BlockerStays(ClusterOf(s), ClusterOf(Do(s, a)), u);
    }
  }

  lemma BlockedOnlyTaken(s: System, a: Action, u: Uid)
    requires InSync(s) && Enabled(s, a) && Orderly(s, a) && OnlyTaken(s, u)
    requires u in s.store && Blocked(ClusterOf(s), s.store[u])
    ensures OnlyTaken(Do(s, a), u)
  {
    assert PhaseFits(s.store, PhaseOf(s, a.w));
    if a.Check? {
      DuplicatedIsRefused(s.store, a.list, PhaseOf(s, a.w).cr);
    }
  }

  lemma BlockedUnnamed(s: System, a: Action, u: Uid)
    requires InSync(s) && Enabled(s, a) && Orderly(s, a) && OnlyTaken(s, u)
    requires u in s.store && s.store[u].externalName == "" && u in Do(s, a).store
    ensures Do(s, a).store[u] == s.store[u]
  {
    if a.Commit? {
      assert PhaseFits(s.store, s.workers[a.w]);
    }
  }

  lemma BlockerStays(c: Cluster, c': Cluster, u: Uid)
    requires u in c.store && u in c'.store && c'.store[u] == c.store[u] && Blocked(c, c.store[u])
    requires forall v | v in c.store && !c.store[v].deleting ::
               v in c'.store && !c'.store[v].deleting && c'.store[v].spec == c.store[v].spec
    ensures Blocked(c', c'.store[u])
  {}

  lemma BlockedWas(s: System, a: Action, u: Uid)
    requires InSync(s) && Enabled(s, a) && Orderly(s, a)
    requires u in Do(s, a).store && Blocked(ClusterOf(Do(s, a)), Do(s, a).store[u])
    ensures u in s.store && Blocked(ClusterOf(s), s.store[u])
  {
    OrderlyFrame(s, a);
    StepInSync(s, a);
    var s' := Do(s, a);
    var v :| v in s'.store && v != s'.store[u].uid && !s'.store[v].deleting
             && s'.store[v].spec.tenantID == s'.store[u].spec.tenantID;
    assert v in s.store && !s.store[v].deleting;
  }

  lemma StepKeepsInv(s: System, a: Action, u: Uid)
    requires Inv(s, u) && Enabled(s, a) && Orderly(s, a)
    ensures Inv(Do(s, a), u)
  {
    var s' := Do(s, a);
    StepInSync(s, a);
    StepTextsShow(s, a, u);
    OrderlyFrame(s, a);
    if u in s'.store {
      if Blocked(ClusterOf(s), s.store[u]) {
        BlockedStays(s, a, u);
      } else if Blocked(ClusterOf(s'), s'.store[u]) {
        BlockedWas(s, a, u);
      }
    }
  }

  // ---------------------------------------------------------------- done writing

  /** u will not write any more. */
  ghost predicate Quiet(s: System, u: Uid) {
    u in s.store ==>
      || s.settings.NotAMap?
      || (exists w :: w in s.workers && HasWritten(s.workers[w], s.store[u], s.settings))
      || (Settled(s.store[u], s.settings) && OnlyTaken(s, u))
      || (Blocked(ClusterOf(s), s.store[u]) && OnlyTaken(s, u))
  }

  /** The worker has written for t, and what it will store settles t or removes it. */
  ghost predicate HasWritten(p: Phase, t: Tenant, s: Settings) {
    && Holding(p, t.uid) && p.Finished? && p.wrote
    && (t.deleting || (Tame(t) && !Drifted(t, s)))
  }

  /** Other people's Puts leave the tenant in the mapping. */
  lemma PutKeepsShown(s: System, w: Worker, ok: bool, u: Uid)
    requires InSync(s) && Enabled(s, Put(w, ok)) && TextsShow(s, u)
    requires u in s.store && !s.store[u].deleting && Findable(s.store[u])
    ensures Drifted(s.store[u], Do(s, Put(w, ok)).settings) ==> !ok && Drifted(s.store[u], s.settings)
  {
    assert PhaseShows(s.workers[w], s.store[u]);
  }

  lemma PutMakesQuiet(s: System, a: Action, u: Uid)
    requires Inv(s, u) && Enabled(s, a) && IsPutOf(s, a, u)
    ensures Quiet(Do(s, a), u)
  {
    var s', p := Do(s, a), PhaseOf(s, a.w);
    assert PhaseFits(s.store, p) && p.Fetched?;
    assert Holding(s.workers[a.w], u);
    if !s.store[u].deleting {
      PutKeepsShown(s, a.w, true, u);
    }
    assert HasWritten(s'.workers[a.w], s'.store[u], s'.settings);
  }

  lemma WrittenStaysQuiet(s: System, a: Action, u: Uid, w: Worker)
    requires Inv(s, u) && Enabled(s, a) && Orderly(s, a)
    requires u in s.store && w in s.workers && HasWritten(s.workers[w], s.store[u], s.settings)
    ensures Quiet(Do(s, a), u) && !IsPutOf(s, a, u)
  {
    var s', t := Do(s, a), s.store[u];
    assert PhaseFits(s.store, s.workers[w]);
    if a.w == w {
      assert a.Commit?;
      CommitSettles(s, a, u);
    } else {
      assert !Holding(PhaseOf(s, a.w), u);
      OthersUntouched(s, a, u);
      if a.Put? && !t.deleting {
        PutKeepsShown(s, a.w, a.ok, u);
      }
      SettingsByPut(s, a);
      assert HasWritten(s'.workers[w], s'.store[u], s'.settings);
    }
  }

  lemma SettingsByPut(s: System, a: Action)
    requires Enabled(s, a) && Orderly(s, a)
    ensures a.Put? || Do(s, a).settings == s.settings
    ensures forall v | v in s.workers && v != a.w :: v in Do(s, a).workers && Do(s, a).workers[v] == s.workers[v]
  {}

  lemma CommitSettles(s: System, a: Action, u: Uid)
    requires InSync(s) && a.Commit? && Enabled(s, a) && u in s.store
    requires HasWritten(PhaseOf(s, a.w), s.store[u], s.settings)
    ensures var s' := Do(s, a); u in s'.store ==> Settled(s'.store[u], s'.settings) && OnlyTaken(s', u)
  {
    var p := PhaseOf(s, a.w);
    assert a.w in s.workers && PhaseFits(s.store, p);
    CommitInSync(s, a.w, a.now);
    var s' := Do(s, a);
    forall v | v in s'.workers ensures !Holding(s'.workers[v], u) {
      assert v != a.w && !s.workers[v].Idle? ==> s.workers[v].cr.uid != p.cr.uid;
    }
  }

  lemma SettledStaysQuiet(s: System, a: Action, u: Uid)
    requires Inv(s, u) && Enabled(s, a) && Orderly(s, a)
    requires u in s.store && Settled(s.store[u], s.settings) && OnlyTaken(s, u)
    ensures Quiet(Do(s, a), u) && !IsPutOf(s, a, u)
  {
    var s' := Do(s, a);
    SettledIsTame(s.store[u], s.settings);
    assert PhaseFits(s.store, PhaseOf(s, a.w));
    OthersUntouched(s, a, u);
    SettingsByPut(s, a);
    if a.Put? {
      PutKeepsShown(s, a.w, a.ok, u);
    }
    forall v | v in s'.workers && Holding(s'.workers[v], u) ensures s'.workers[v].Taken? {
      assert v != a.w ==> Holding(s.workers[v], u);
    }
  }

  lemma QuietStaysQuiet(s: System, a: Action, u: Uid)
    requires Inv(s, u) && Enabled(s, a) && Orderly(s, a) && Quiet(s, u)
    ensures Quiet(Do(s, a), u) && !IsPutOf(s, a, u)
  {
    OrderlyFrame(s, a);
    if u !in s.store || s.settings.NotAMap? {
      assert PhaseFits(s.store, PhaseOf(s, a.w));
    } else if w :| w in s.workers && HasWritten(s.workers[w], s.store[u], s.settings) {
      WrittenStaysQuiet(s, a, u, w);
    } else if Settled(s.store[u], s.settings) && OnlyTaken(s, u) {
      SettledStaysQuiet(s, a, u);
    } else {
      BlockedStays(s, a, u);
    }
  }

  // ---------------------------------------------------------------- the bound

  lemma {:induction false} PutBound(s: System, acts: seq<Action>, u: Uid)
    requires Inv(s, u) && OrderlyRun(s, acts)
    ensures PutsOf(s, acts, u) <= 1
    ensures Quiet(s, u) ==> PutsOf(s, acts, u) == 0
    decreases |acts|
  {
    if acts == [] {
    } else {
      StepKeepsInv(s, acts[0], u);
      PutBound(Do(s, acts[0]), acts[1..], u);
      if Quiet(s, u) {
        QuietStaysQuiet(s, acts[0], u);
      } else if IsPutOf(s, acts[0], u) {
        PutMakesQuiet(s, acts[0], u);
      }
    }
  }

  ghost predicate AllIdle(s: System) {
    forall w | w in s.workers :: s.workers[w].Idle?
  }

  /** The write bound survives interleaving: while users keep still, no tenant has two workers, and what follows a
      successful Put is stored, each bounded tenant causes at most one Put, however the workers interleave and
      whichever calls fail; and none if it is settled at the start. */
  lemma OnePutPerTenant(s: System, acts: seq<Action>, u: Uid)
    requires ValidStore(s.store) && AllIdle(s) && OrderlyRun(s, acts) && Bounded(ClusterOf(s), u)
    ensures PutsOf(s, acts, u) <= 1
    ensures u !in Dirty(ClusterOf(s)) ==> PutsOf(s, acts, u) == 0
  {
    PutBound(s, acts, u);
  }
}
