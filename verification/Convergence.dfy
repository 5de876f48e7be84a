/** Serial runs of the reconciler without outside interference: how often they write, and when they fall silent. */
module Convergence {
  import opened OrgMapping
  import opened Shortcut
  import opened Sso
  import opened Reconciler

  // ---------------------------------------------------------------- what one sync does to the drift check

  /** After a successful sync a stored tenant with groups, other than the one left out, is reported drifted
      exactly when its org has a comma; no other byte in any field of any tenant matters. */
  lemma DriftAfterSync(store: Store, t: Tenant, s: Settings, io: Io, skip: Option<Uid>)
    requires ValidStore(store) && ValidIo(io, store) && SyncSucceeds(s, io)
    requires t.uid in store && MappingOf(store[t.uid]) == MappingOf(t) && skip != Some(t.uid)
    ensures Drifted(t, Synced(s, io, skip)) <==> HasGroups(t) && ',' in t.spec.orgID
  {
    var list := io.listing.value;
    var text := Mapping(Mappings(list, skip));
    if HasGroups(t) {
      var m := MappingOf(t);
      assert store[t.uid] in list;
      ListedIsMapped(list, skip, store[t.uid]);
      var g := if m.viewerGroups != [] then m.viewerGroups[0]
               else if m.editorGroups != [] then m.editorGroups[0] else m.adminGroups[0];
      assert HasGroup(m, g);
      if ',' in t.spec.orgID {
        OrgWithCommaIsNeverFound(text, t.spec.orgID);
      } else {
        PrintedOrgIsFound(Mappings(list, skip), m, g);
      }
    }
  }

  /** Nothing more to do for this tenant. */
  ghost predicate Settled(t: Tenant, s: Settings) {
    t.externalName != "" && !t.deleting && UpToDate(t) && !Drifted(t, s)
  }

  // ---------------------------------------------------------------- runs

  datatype Step = Step(uid: Uid, io: Io)

  ghost predicate CallsSucceed(io: Io) {
    io.driftGetOk && io.check.Some? && io.listing.Some? && io.getOk && io.putOk
  }

  ghost function After(c: Cluster, steps: seq<Step>): Cluster
    decreases |steps|
  {
    if steps == [] then c else After(Reconcile(c, steps[0].uid, steps[0].io).cluster, steps[1..])
  }

  /** No user and no other writer comes in between. Calls may fail, but a List that answers tells the truth. */
  ghost predicate IsRun(c: Cluster, steps: seq<Step>)
    decreases |steps|
  {
    steps == [] ||
    (ValidIo(steps[0].io, c.store) && IsRun(Reconcile(c, steps[0].uid, steps[0].io).cluster, steps[1..]))
  }

  /** Grafana writes in the run. */
  ghost function Writes(c: Cluster, steps: seq<Step>): nat
    decreases |steps|
  {
    if steps == [] then 0
    else
      var o := Reconcile(c, steps[0].uid, steps[0].io);
      (if o.wrote then 1 else 0) + Writes(o.cluster, steps[1..])
  }

  /** Grafana writes that reconciles of the tenants us cause. */
  ghost function WritesOf(c: Cluster, steps: seq<Step>, us: set<Uid>): nat
    decreases |steps|
  {
    if steps == [] then 0
    else
      var o := Reconcile(c, steps[0].uid, steps[0].io);
      (if o.wrote && steps[0].uid in us then 1 else 0) + WritesOf(o.cluster, steps[1..], us)
  }

  /** Its id cannot be taken for no name, and the drift check can find its org. */
  ghost predicate Tame(t: Tenant) {
    && (t.externalName == "" ==> t.spec.tenantID != "")
    && (HasGroups(t) ==> ',' !in t.spec.orgID)
  }

  /** Create will never be let through: a tenant that is there to stay has the same id. */
  ghost predicate Blocked(c: Cluster, t: Tenant) {
    && t.externalName == ""
    && exists v :: v in c.store && v != t.uid && !c.store[v].deleting && c.store[v].spec.tenantID == t.spec.tenantID
  }

  /** The exact condition under which runs cannot make a tenant write again and again. */
  ghost predicate Bounded(c: Cluster, u: Uid) {
    u in c.store ==>
      var t := c.store[u];
      c.settings.NotAMap? || t.deleting || Tame(t) || Blocked(c, t)
  }

  ghost function Dirty(c: Cluster): set<Uid> {
    set u | u in c.store && !Settled(c.store[u], c.settings)
  }

  // ---------------------------------------------------------------- one step

  /** The external name is still the old one, or the tenant id, which it got when it had none. */
  ghost predicate NamedOnce(t: Tenant, t': Tenant) {
    t'.externalName == t.externalName || (t.externalName == "" && t'.externalName == t.spec.tenantID)
  }

  /** What a step never does. */
  lemma StepFrame(c: Cluster, step: Step)
    requires ValidStore(c.store)
    ensures var c' := Reconcile(c, step.uid, step.io).cluster;
            && ValidStore(c'.store) && c'.store.Keys <= c.store.Keys
            && (c'.settings.NotAMap? <==> c.settings.NotAMap?)
            && (forall v | v in c.store && !c.store[v].deleting :: v in c'.store)
            && (forall v | v in c'.store ::
                  && c'.store[v].spec == c.store[v].spec && c'.store[v].deleting == c.store[v].deleting
                  && NamedOnce(c.store[v], c'.store[v]))
            && (forall v | v in c.store && v != step.uid :: v in c'.store && c'.store[v] == c.store[v])
  {}

  lemma StepKeepsBounded(c: Cluster, step: Step, u: Uid)
    requires ValidStore(c.store) && ValidIo(step.io, c.store) && Bounded(c, u)
    ensures Bounded(Reconcile(c, step.uid, step.io).cluster, u)
  {
    StepFrame(c, step);
    var c' := Reconcile(c, step.uid, step.io).cluster;
    if u in c'.store && Blocked(c, c.store[u]) {
      var v :| v in c.store && v != c.store[u].uid && !c.store[v].deleting
               && c.store[v].spec.tenantID == c.store[u].spec.tenantID;
      assert v in c'.store && !c'.store[v].deleting;
      if u == step.uid && step.io.check.Some? {
        DuplicatedIsRefused(c.store, step.io.check.value, c.store[u]);
      }
    }
  }

  /** A tenant that needs nothing is left alone. */
  lemma SettledStep(c: Cluster, step: Step)
    requires step.uid in c.store ==> Settled(c.store[step.uid], c.settings)
    ensures Reconcile(c, step.uid, step.io) == Outcome(c, false)
  {}

  /** Only tame tenants come to rest. */
  lemma SettledIsTame(t: Tenant, s: Settings)
    requires Settled(t, s)
    ensures Tame(t)
  {
    if s.Present? && ',' in t.spec.orgID {
      OrgWithCommaIsNeverFound(MappingText(s.entries), t.spec.orgID);
    }
  }

  /** A step for one tenant never makes another one need a step. */
  lemma OthersStaySettled(c: Cluster, step: Step, v: Uid)
    requires ValidStore(c.store) && ValidIo(step.io, c.store)
    requires v != step.uid
    ensures var c' := Reconcile(c, step.uid, step.io).cluster;
            && (v in c'.store <==> v in c.store)
            && (v in c.store ==> c'.store[v] == c.store[v])
            && (v in c.store && Settled(c.store[v], c.settings) ==> Settled(c'.store[v], c'.settings))
  {
    if v in c.store && Settled(c.store[v], c.settings) && SyncSucceeds(c.settings, step.io) {
      SettledIsTame(c.store[v], c.settings);
      DriftAfterSync(c.store, c.store[v], c.settings, step.io, None);
      DriftAfterSync(c.store, c.store[v], c.settings, step.io, Some(step.uid));
    }
  }

  /** A write is the last one for its tenant: afterwards the tenant is settled or gone. */
  lemma WriteSettles(c: Cluster, step: Step)
    requires ValidStore(c.store) && ValidIo(step.io, c.store) && Bounded(c, step.uid)
    ensures var o := Reconcile(c, step.uid, step.io);
            o.wrote ==> step.uid in Dirty(c) && step.uid !in Dirty(o.cluster)
  {
    if step.uid in c.store && SyncSucceeds(c.settings, step.io) {
      DriftAfterSync(c.store, c.store[step.uid], c.settings, step.io, None);
      if step.io.check.Some? {
        DuplicatedIsRefused(c.store, step.io.check.value, c.store[step.uid]);
      }
      if Blocked(c, c.store[step.uid]) && !c.store[step.uid].deleting {
        assert Refused(c, c.store[step.uid]);
      }
    }
  }

  /** No step, of whatever tenant, makes any tenant need a step. */
  lemma StepShrinksDirty(c: Cluster, step: Step)
    requires ValidStore(c.store) && ValidIo(step.io, c.store)
    ensures Dirty(Reconcile(c, step.uid, step.io).cluster) <= Dirty(c)
  {
    var c' := Reconcile(c, step.uid, step.io).cluster;
    forall v | v in Dirty(c') ensures v in Dirty(c) {
      if v != step.uid {
        OthersStaySettled(c, step, v);
      } else if v in c.store && Settled(c.store[v], c.settings) {
        SettledStep(c, step);
      }
    }
  }

  // ---------------------------------------------------------------- the write bound

  /** Whichever calls fail: the tenants of us that are bounded cause together no more writes than there are
      of them that need something, whatever the other tenants are like. */
  lemma {:induction false} WriteBound(c: Cluster, steps: seq<Step>, us: set<Uid>)
    requires ValidStore(c.store) && IsRun(c, steps) && forall u | u in us :: Bounded(c, u)
    ensures WritesOf(c, steps, us) <= |Dirty(c) * us| <= |c.store|
    decreases |steps|
  {
    DirtyAreStored(c, us);
    if steps == [] {
    } else {
      var o := Reconcile(c, steps[0].uid, steps[0].io);
      StepFrame(c, steps[0]);
      StepShrinksDirty(c, steps[0]);
      forall u | u in us ensures Bounded(o.cluster, u) {
        StepKeepsBounded(c, steps[0], u);
      }
      if steps[0].uid in us {
        WriteSettles(c, steps[0]);
      }
      WriteBound(o.cluster, steps[1..], us);
      Subset(Dirty(o.cluster) * us, Dirty(c) * us, steps[0].uid);
    }
  }

  /** In particular all writes of a run, if all tenants are bounded. */
  lemma TotalWriteBound(c: Cluster, steps: seq<Step>)
    requires ValidStore(c.store) && IsRun(c, steps) && forall u | u in c.store :: Bounded(c, u)
    ensures Writes(c, steps) <= |Dirty(c)| <= |c.store|
  {
    AllWritesAreOfStored(c, steps, c.store.Keys);
    WriteBound(c, steps, c.store.Keys);
    assert Dirty(c) * c.store.Keys == Dirty(c);
  }

  lemma {:induction false} AllWritesAreOfStored(c: Cluster, steps: seq<Step>, us: set<Uid>)
    requires ValidStore(c.store) && c.store.Keys <= us
    ensures WritesOf(c, steps, us) == Writes(c, steps)
    decreases |steps|
  {
    if steps == [] {
    } else {
      StepFrame(c, steps[0]);
      AllWritesAreOfStored(Reconcile(c, steps[0].uid, steps[0].io).cluster, steps[1..], us);
    }
  }

  lemma DirtyAreStored(c: Cluster, us: set<Uid>)
    ensures |Dirty(c) * us| <= |c.store|
  {
    Cardinality(Dirty(c) * us, c.store.Keys);
    assert |c.store.Keys| == |c.store|;
  }

  lemma Cardinality(a: set<Uid>, b: set<Uid>)
    requires a <= b
    ensures |a| <= |b|
  {
    assert b == a + (b - a);
  }

  lemma Subset(a: set<Uid>, b: set<Uid>, u: Uid)
    requires a <= b
    ensures |a| <= |b| && (u in b && u !in a ==> |a| < |b|)
  {
    Cardinality(a, b);
    if u in b && u !in a {
      Cardinality(a, b - {u});
    }
  }

  /** Each bounded tenant causes at most one write, and none if it was settled to begin with. */
  lemma OneWritePerTenant(c: Cluster, steps: seq<Step>, u: Uid)
    requires ValidStore(c.store) && IsRun(c, steps) && Bounded(c, u)
    ensures WritesOf(c, steps, {u}) <= 1
    ensures u !in Dirty(c) ==> WritesOf(c, steps, {u}) == 0
  {
    WriteBound(c, steps, {u});
    Cardinality(Dirty(c) * {u}, {u});
  }

  /** A tenant that is not bounded writes at its next undisturbed reconcile, unless a tenant that is being deleted
      stands in its way. */
  lemma UnboundedWrites(c: Cluster, step: Step)
    requires ValidStore(c.store) && ValidIo(step.io, c.store) && CallsSucceed(step.io)
    requires !Bounded(c, step.uid) && !Refused(c, c.store[step.uid])
    ensures Reconcile(c, step.uid, step.io).wrote
    ensures !Bounded(Reconcile(c, step.uid, step.io).cluster, step.uid)
    ensures var c' := Reconcile(c, step.uid, step.io).cluster; !Refused(c', c'.store[step.uid])
  {
    var t := c.store[step.uid];
    DuplicatedIsRefused(c.store, step.io.check.value, t);
    StepFrame(c, step);
    if Settled(t, c.settings) {
      SettledIsTame(t, c.settings);
    }
  }

  /** From every valid store there is a reconcile in which every call succeeds. */
  lemma AllSucceed(store: Store) returns (io: Io)
    requires ValidStore(store)
    ensures ValidIo(io, store) && CallsSucceed(io)
  {
    var list := ListingExists(store);
    io := Io(true, Some(list), Some(list), true, true, "");
  }

  lemma Prepend(c: Cluster, step: Step, more: seq<Step>, us: set<Uid>)
    requires ValidIo(step.io, c.store) && IsRun(Reconcile(c, step.uid, step.io).cluster, more)
    ensures IsRun(c, [step] + more)
    ensures var o := Reconcile(c, step.uid, step.io);
            WritesOf(c, [step] + more, us)
            == (if o.wrote && step.uid in us then 1 else 0) + WritesOf(o.cluster, more, us)
  {
    assert ([step] + more)[1..] == more;
  }

  lemma {:induction false} WritesInARow(c: Cluster, u: Uid, n: nat) returns (steps: seq<Step>)
    requires ValidStore(c.store) && !Bounded(c, u) && !Refused(c, c.store[u])
    ensures IsRun(c, steps) && WritesOf(c, steps, {u}) == n
    decreases n
  {
    if n == 0 {
      steps := [];
    } else {
      var io := AllSucceed(c.store);
      UnboundedWrites(c, Step(u, io));
      StepFrame(c, Step(u, io));
      var more := WritesInARow(Reconcile(c, u, io).cluster, u, n - 1);
      Prepend(c, Step(u, io), more, {u});
      steps := [Step(u, io)] + more;
    }
  }

  lemma RivalIsRemoved(c: Cluster, u: Uid, v: Uid, io: Io)
    requires ValidStore(c.store) && !Bounded(c, u) && v in c.store && v != u && c.store[v].deleting
    ensures var c' := Reconcile(c, v, io).cluster;
            ValidStore(c'.store) && !Bounded(c', u) && |c'.store| < |c.store|
  {
    var c' := Reconcile(c, v, io).cluster;
    StepFrame(c, Step(v, io));
    assert c'.store == c.store - {v};
    Subset(c'.store.Keys, c.store.Keys, v);
    assert |c'.store.Keys| == |c'.store| && |c.store.Keys| == |c.store|;
  }

  /** A tenant that is not bounded can be made to write as often as one likes: first the tenants in its way are
      removed. */
  lemma {:induction false} ManyWrites(c: Cluster, u: Uid, n: nat) returns (steps: seq<Step>)
    requires ValidStore(c.store) && !Bounded(c, u)
    ensures IsRun(c, steps) && WritesOf(c, steps, {u}) == n
    decreases |c.store|
  {
    var t := c.store[u];
    if Refused(c, t) {
      var io := AllSucceed(c.store);
      var v :| v in c.store && v != t.uid && c.store[v].spec.tenantID == t.spec.tenantID;
      RivalIsRemoved(c, u, v, io);
      var more := ManyWrites(Reconcile(c, v, io).cluster, u, n);
      Prepend(c, Step(v, io), more, {u});
      steps := [Step(v, io)] + more;
    } else {
      steps := WritesInARow(c, u, n);
    }
  }

  ghost predicate CanWrite(c: Cluster, u: Uid, n: nat) {
    exists steps :: IsRun(c, steps) && WritesOf(c, steps, {u}) == n
  }

  /** A dichotomy: a bounded tenant writes at most once in every run, and for any other there are runs with any
      number of writes. */
  lemma OneWriteExactly(c: Cluster, u: Uid)
    requires ValidStore(c.store)
    ensures (forall n | CanWrite(c, u, n) :: n <= 1) <==> Bounded(c, u)
    ensures (forall n: nat :: CanWrite(c, u, n)) <==> !Bounded(c, u)
  {
    if Bounded(c, u) {
      forall n | CanWrite(c, u, n) ensures n <= 1 {
        var steps :| IsRun(c, steps) && WritesOf(c, steps, {u}) == n;
        OneWritePerTenant(c, steps, u);
      }
      assert !CanWrite(c, u, 2);
    } else {
      forall n: nat ensures CanWrite(c, u, n) {
        var steps := ManyWrites(c, u, n);
      }
      assert CanWrite(c, u, 2);
    }
  }

  // ---------------------------------------------------------------- silence

  /** Create is refused, because another stored tenant has the same id. */
  ghost predicate Refused(c: Cluster, t: Tenant) {
    && t.externalName == "" && !t.deleting
    && exists v :: v in c.store && v != t.uid && c.store[v].spec.tenantID == t.spec.tenantID
  }

  lemma DuplicatedIsRefused(store: Store, list: seq<Tenant>, t: Tenant)
    requires ValidStore(store) && Lists(list, store)
    ensures Duplicated(t, list) <==> exists v :: v in store && v != t.uid && store[v].spec.tenantID == t.spec.tenantID
  {}

  ghost predicate Quiescent(c: Cluster) {
    forall u | u in c.store :: Settled(c.store[u], c.settings) || Refused(c, c.store[u])
  }

  /** From a quiescent state no run changes or writes anything, whichever calls fail. */
  lemma {:induction false} QuiescentIsSilent(c: Cluster, steps: seq<Step>)
    requires ValidStore(c.store) && Quiescent(c) && IsRun(c, steps)
    ensures After(c, steps) == c && Writes(c, steps) == 0
  {
    if steps == [] {
    } else {
      var u := steps[0].uid;
      if u in c.store && Refused(c, c.store[u]) {
        RefusedStep(c, steps[0]);
      } else {
        SettledStep(c, steps[0]);
      }
      QuiescentIsSilent(c, steps[1..]);
    }
  }

  /** No run changes or writes anything. */
  ghost predicate Silent(c: Cluster) {
    forall steps | IsRun(c, steps) :: After(c, steps) == c && Writes(c, steps) == 0
  }

  lemma QuiescentMeansSilent(c: Cluster)
    requires ValidStore(c.store) && Quiescent(c)
    ensures Silent(c)
  {
    forall steps | IsRun(c, steps) ensures After(c, steps) == c && Writes(c, steps) == 0 {
      QuiescentIsSilent(c, steps);
    }
  }

  lemma RefusedStep(c: Cluster, step: Step)
    requires ValidStore(c.store) && ValidIo(step.io, c.store)
    requires step.uid in c.store && Refused(c, c.store[step.uid])
    ensures Reconcile(c, step.uid, step.io) == Outcome(c, false)
  {}

  /** What is left of a tenant after its own step: gone, settled, or waiting for its id to become free. */
  ghost predicate Calm(c: Cluster, u: Uid) {
    u in c.store ==>
      var t := c.store[u];
      Settled(t, c.settings) || (t.externalName == "" && !t.deleting)
  }

  lemma OwnStepCalms(c: Cluster, step: Step)
    requires ValidStore(c.store) && !c.settings.NotAMap? && ValidIo(step.io, c.store) && Bounded(c, step.uid)
    requires CallsSucceed(step.io) || Calm(c, step.uid)
    ensures Calm(Reconcile(c, step.uid, step.io).cluster, step.uid)
  {
    WriteSettles(c, step);
  }

  /** Some reconcile of u in which every call succeeds. */
  ghost predicate Visits(steps: seq<Step>, u: Uid) {
    exists i :: 0 <= i < |steps| && steps[i].uid == u && CallsSucceed(steps[i].io)
  }

  lemma {:induction false} RunFrame(c: Cluster, steps: seq<Step>)
    requires ValidStore(c.store)
    ensures var c' := After(c, steps);
            && ValidStore(c'.store) && c'.store.Keys <= c.store.Keys
            && (c'.settings.NotAMap? <==> c.settings.NotAMap?)
            && (forall v | v in c.store && !c.store[v].deleting :: v in c'.store)
            && (forall v | v in c'.store ::
                  && c'.store[v].spec == c.store[v].spec && c'.store[v].deleting == c.store[v].deleting
                  && NamedOnce(c.store[v], c'.store[v]))
    decreases |steps|
  {
    if steps == [] {
    } else {
      StepFrame(c, steps[0]);
      RunFrame(Reconcile(c, steps[0].uid, steps[0].io).cluster, steps[1..]);
    }
  }

  lemma {:induction false} RunKeepsBounded(c: Cluster, steps: seq<Step>, u: Uid)
    requires ValidStore(c.store) && IsRun(c, steps) && Bounded(c, u)
    ensures Bounded(After(c, steps), u)
    decreases |steps|
  {
    if steps == [] {
    } else {
      StepFrame(c, steps[0]);
      StepKeepsBounded(c, steps[0], u);
      RunKeepsBounded(Reconcile(c, steps[0].uid, steps[0].io).cluster, steps[1..], u);
    }
  }

  lemma {:induction false} VisitedIsCalm(c: Cluster, steps: seq<Step>, u: Uid)
    requires ValidStore(c.store) && !c.settings.NotAMap? && IsRun(c, steps) && Bounded(c, u)
    requires Visits(steps, u) || Calm(c, u)
    ensures Calm(After(c, steps), u)
    decreases |steps|
  {
    if steps == [] {
    } else {
      var c' := Reconcile(c, steps[0].uid, steps[0].io).cluster;
      StepFrame(c, steps[0]);
      StepKeepsBounded(c, steps[0], u);
      VisitsRest(steps, u);
      if u != steps[0].uid {
        OthersStaySettled(c, steps[0], u);
      } else if CallsSucceed(steps[0].io) || Calm(c, u) {
        OwnStepCalms(c, steps[0]);
      }
      VisitedIsCalm(c', steps[1..], u);
    }
  }

  /** One reconcile removes a tenant that is being deleted, whatever fails. */
  lemma {:induction false} VisitedIsNotDeleting(c: Cluster, steps: seq<Step>, u: Uid)
    requires ValidStore(c.store)
    requires Visits(steps, u) || (u in c.store ==> !c.store[u].deleting)
    ensures var c' := After(c, steps); u in c'.store ==> !c'.store[u].deleting
    decreases |steps|
  {
    if steps == [] {
    } else {
      StepFrame(c, steps[0]);
      VisitsRest(steps, u);
      VisitedIsNotDeleting(Reconcile(c, steps[0].uid, steps[0].io).cluster, steps[1..], u);
    }
  }

  lemma VisitsRest(steps: seq<Step>, u: Uid)
    requires steps != []
    ensures Visits(steps, u) ==> Visits(steps[1..], u) || (u == steps[0].uid && CallsSucceed(steps[0].io))
  {}

  /** A run that reconciles every tenant at least once without a failing call. */
  ghost predicate IsPass(c: Cluster, steps: seq<Step>) {
    IsRun(c, steps) && forall u | u in c.store :: Visits(steps, u)
  }

  ghost predicate NoneDeleting(c: Cluster) {
    forall u | u in c.store :: !c.store[u].deleting
  }

  /** After one pass no tenant is being deleted, and if all were bounded, each is settled or without an external
      name; if none of the latter could be created right away, every further run is silent. */
  lemma OnePass(c: Cluster, pass: seq<Step>)
    requires ValidStore(c.store) && !c.settings.NotAMap? && IsPass(c, pass)
    ensures var c1 := After(c, pass);
            && NoneDeleting(c1)
            && (forall u | u in c1.store && Bounded(c, u) ::
                  Settled(c1.store[u], c1.settings) || c1.store[u].externalName == "")
            && ((forall u | u in c1.store ::
                   Bounded(c, u) && (c1.store[u].externalName == "" ==> Refused(c1, c1.store[u])))
                ==> Quiescent(c1))
  {
    var c1 := After(c, pass);
    RunFrame(c, pass);
    forall u | u in c1.store ensures !c1.store[u].deleting {
      VisitedIsNotDeleting(c, pass, u);
    }
    forall u | u in c1.store && Bounded(c, u)
      ensures Settled(c1.store[u], c1.settings) || c1.store[u].externalName == "" {
      VisitedIsCalm(c, pass, u);
    }
  }

  // ---------------------------------------------------------------- two passes are enough

  /** Settled, or refused for good. */
  ghost predicate Done(c: Cluster, u: Uid) {
    u in c.store ==> Settled(c.store[u], c.settings) || Refused(c, c.store[u])
  }

  lemma OwnStepIsEnough(c: Cluster, step: Step)
    requires ValidStore(c.store) && !c.settings.NotAMap? && ValidIo(step.io, c.store) && NoneDeleting(c)
    requires Bounded(c, step.uid)
    ensures CallsSucceed(step.io) || Done(c, step.uid) ==> Done(Reconcile(c, step.uid, step.io).cluster, step.uid)
  {
    WriteSettles(c, step);
    if step.uid in c.store && step.io.check.Some? {
      DuplicatedIsRefused(c.store, step.io.check.value, c.store[step.uid]);
    }
  }

  lemma OthersStayDone(c: Cluster, step: Step, v: Uid)
    requires ValidStore(c.store) && ValidIo(step.io, c.store) && NoneDeleting(c) && v != step.uid && Done(c, v)
    ensures Done(Reconcile(c, step.uid, step.io).cluster, v)
  {
    OthersStaySettled(c, step, v);
    StepFrame(c, step);
    var c' := Reconcile(c, step.uid, step.io).cluster;
    if v in c.store && Refused(c, c.store[v]) {
      var w :| w in c.store && w != c.store[v].uid && c.store[w].spec.tenantID == c.store[v].spec.tenantID;
      assert w in c'.store && c'.store[w].spec == c.store[w].spec;
    }
  }

  lemma {:induction false} VisitedIsDone(c: Cluster, steps: seq<Step>, u: Uid)
    requires ValidStore(c.store) && !c.settings.NotAMap? && IsRun(c, steps) && NoneDeleting(c) && Bounded(c, u)
    requires Visits(steps, u) || Done(c, u)
    ensures Done(After(c, steps), u)
    decreases |steps|
  {
    if steps == [] {
    } else {
      var c' := Reconcile(c, steps[0].uid, steps[0].io).cluster;
      StepFrame(c, steps[0]);
      StepKeepsBounded(c, steps[0], u);
      VisitsRest(steps, u);
      if u == steps[0].uid {
        OwnStepIsEnough(c, steps[0]);
      } else if Done(c, u) {
        OthersStayDone(c, steps[0], u);
      }
      VisitedIsDone(c', steps[1..], u);
    }
  }

  lemma TwoPassesSettle(c: Cluster, pass1: seq<Step>, pass2: seq<Step>)
    requires ValidStore(c.store) && !c.settings.NotAMap? && IsPass(c, pass1)
    requires IsPass(After(c, pass1), pass2)
    requires forall u | u in c.store :: Bounded(c, u)
    ensures Quiescent(After(After(c, pass1), pass2))
  {
    var c1 := After(c, pass1);
    var c2 := After(c1, pass2);
    RunFrame(c, pass1);
    OnePass(c, pass1);
    RunFrame(c1, pass2);
    forall u | u in c2.store ensures Settled(c2.store[u], c2.settings) || Refused(c2, c2.store[u]) {
      RunKeepsBounded(c, pass1, u);
      VisitedIsDone(c1, pass2, u);
    }
  }

  /** A tenant that is not bounded keeps the reconciler busy. */
  lemma UnboundedIsHeard(c: Cluster, u: Uid)
    requires ValidStore(c.store) && !Bounded(c, u) && !Refused(c, c.store[u])
    ensures !Silent(c)
  {
    var io := AllSucceed(c.store);
    var step := Step(u, io);
    UnboundedWrites(c, step);
    assert [step][1..] == [] && IsRun(Reconcile(c, u, io).cluster, []);
    assert IsRun(c, [step]) && Writes(c, [step]) >= 1;
  }

  lemma UnboundedSurvives(c: Cluster, pass1: seq<Step>, pass2: seq<Step>, u: Uid)
    requires ValidStore(c.store) && IsPass(c, pass1) && !Bounded(c, u)
    ensures !Silent(After(After(c, pass1), pass2))
  {
    var c1 := After(c, pass1);
    RunFrame(c, pass1);
    OnePass(c, pass1);
    RunFrame(c1, pass2);
    UnboundedStays(c, After(c1, pass2), u);
    UnboundedIsHeard(After(c1, pass2), u);
  }

  /** Two passes from any state settle everything that can be settled: there is silence afterwards, exactly if
      every tenant was bounded. */
  lemma TwoPassesThenSilence(c: Cluster, pass1: seq<Step>, pass2: seq<Step>)
    requires ValidStore(c.store) && !c.settings.NotAMap? && IsPass(c, pass1)
    requires IsPass(After(c, pass1), pass2)
    ensures Silent(After(After(c, pass1), pass2)) <==> forall u | u in c.store :: Bounded(c, u)
  {
    var c2 := After(After(c, pass1), pass2);
    RunFrame(c, pass1);
    RunFrame(After(c, pass1), pass2);
    if forall u | u in c.store :: Bounded(c, u) {
      TwoPassesSettle(c, pass1, pass2);
      QuiescentMeansSilent(c2);
    } else {
      var u :| u in c.store && !Bounded(c, u);
      UnboundedSurvives(c, pass1, pass2, u);
    }
  }

  /** After passes an unbounded tenant is still unbounded, and nothing stands in its way. */
  lemma UnboundedStays(c: Cluster, c2: Cluster, u: Uid)
    requires ValidStore(c.store) && ValidStore(c2.store) && !Bounded(c, u)
    requires c2.store.Keys <= c.store.Keys && !c2.settings.NotAMap? && NoneDeleting(c2)
    requires u in c2.store
    requires forall v | v in c2.store ::
               && c2.store[v].spec == c.store[v].spec && c2.store[v].deleting == c.store[v].deleting
               && NamedOnce(c.store[v], c2.store[v])
    ensures !Bounded(c2, u) && !Refused(c2, c2.store[u])
  {}

  /** The two calls in a row: after an Update whose sync reaches Grafana, Observe reports the tenant as existing,
      and as up to date unless it has groups and an org with a comma. */
  method UpdateThenObserve(e: External, cr: Resource, io: Io, io': Io) returns (v: Verdict)
    requires ValidStore(e.store) && ValidIo(io, e.store) && SyncSucceeds(e.sso.settings, io)
    requires cr.uid in e.store && e.store[cr.uid].spec == cr.spec
    requires cr.externalName != "" && !cr.deleting
    modifies cr, e.sso
    ensures v.found
    ensures v.upToDate <==> !(io'.driftGetOk && HasGroups(cr.Value()) && ',' in cr.spec.orgID)
  {
    DriftAfterSync(e.store, cr.Value().(status := StatusOf(cr.spec, io.now)), e.sso.settings, io, None);
    e.Update(cr, io);
    v := e.Observe(cr, io');
  }
}
