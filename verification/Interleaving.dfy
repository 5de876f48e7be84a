/** The same reconciler with any number of workers: List, Get, Put and the store update are separate steps,
    and steps of different workers and of users interleave freely. */
module Interleaving {
  import opened OrgMapping
  import opened Shortcut
  import opened Sso
  import opened Reconciler
  import opened RoundTrip
  import opened Ordering
  import opened Resolver
  import opened Access
  import opened Convergence

  type Worker = nat

  datatype Kind = Creating | Updating | Deleting

  /** How far a worker is with the tenant `cr` it has read from the store. */
  datatype Phase =
    | Idle
    | Taken(cr: Tenant)
    | Checked(cr: Tenant)
    | Outdated(cr: Tenant)
    | Listed(kind: Kind, cr: Tenant, text: string)
    | Fetched(kind: Kind, cr: Tenant, text: string, entries: map<string, Value>)
    | Finished(kind: Kind, cr: Tenant, wrote: bool)

  /** `used` and `history` are bookkeeping: the uids ever given out, and every store there has been. */
  datatype System = System(
    store: Store,
    settings: Settings,
    workers: map<Worker, Phase>,
    used: set<Uid>,
    history: seq<Store>)

  function PhaseOf(s: System, w: Worker): Phase {
    if w in s.workers then s.workers[w] else Idle
  }

  datatype Action =
    | Insert(t: Tenant)                            // a user creates a tenant
    | Edit(u: Uid, spec: Parameters)               // a user edits one
    | MarkDeleted(u: Uid)                          // a user deletes one
    | Take(w: Worker, u: Uid)                      // a worker reads one from the store
    | Check(w: Worker, list: seq<Tenant>)          // the List of validateUniqueTenantID, passed
    | Observe(w: Worker, ok: bool)                 // Observe, with the verdict that the tenant is not up to date
    | List(w: Worker, list: seq<Tenant>)           // the List of syncGrafanaOrgMapping
    | ListFails(w: Worker)                         // the same List, failed
    | Get(w: Worker, ok: bool)                     // getOrInitSettings
    | Put(w: Worker, ok: bool)                     // UpdateProviderSettings
    | Commit(w: Worker, now: string)               // the managed reconciler stores the result
    | Drop(w: Worker)                              // any error, refusal or conflict: the worker gives up

  /** Which sync the worker's reconcile runs. */
  ghost function SyncKind(p: Phase): Option<Kind> {
    match p
    case Checked(_) => Some(Creating)
    case Outdated(_) => Some(Updating)
    case Taken(cr) => if cr.externalName != "" && cr.deleting then Some(Deleting) else None
    case _ => None
  }

  ghost predicate Enabled(s: System, a: Action) {
    match a
    case Insert(t) => t.uid !in s.used && t.externalName == "" && !t.deleting
    case Edit(u, _) => u in s.store
    case MarkDeleted(u) => u in s.store
    case Take(w, u) => PhaseOf(s, w).Idle? && u in s.store
    case Check(w, list) =>
      var p := PhaseOf(s, w);
      p.Taken? && p.cr.externalName == "" && !p.cr.deleting && Lists(list, s.store) && !Duplicated(p.cr, list)
    case Observe(w, ok) =>
      var p := PhaseOf(s, w);
      && p.Taken? && p.cr.externalName != "" && !p.cr.deleting
      && (!UpToDate(p.cr) || (ok && Drifted(p.cr, s.settings)))
    case List(w, list) => SyncKind(PhaseOf(s, w)).Some? && Lists(list, s.store)
    case ListFails(w) => SyncKind(PhaseOf(s, w)).Some?
    case Get(w, _) => PhaseOf(s, w).Listed?
    case Put(w, _) => PhaseOf(s, w).Fetched?
    case Commit(w, _) =>
      var p := PhaseOf(s, w);
      p.Finished? || (p.Taken? && p.cr.deleting && p.cr.externalName == "")
    case Drop(w) => true
  }

  /** What the managed reconciler stores when a worker is done. */
  function Committed(store: Store, p: Phase, now: string): Store {
    match p
    case Finished(kind, cr, _) =>
      if cr.uid !in store then store
      else (match kind
            case Creating =>
              store[cr.uid := store[cr.uid].(externalName := cr.spec.tenantID, status := StatusOf(cr.spec, now))]
            case Updating => store[cr.uid := store[cr.uid].(status := StatusOf(cr.spec, now))]
            case Deleting => store - {cr.uid})
    case Taken(cr) => store - {cr.uid}
    case _ => store
  }

  ghost function WithStore(s: System, store: Store): System {
    s.(store := store, history := s.history + [store])
  }

  ghost function WithPhase(s: System, w: Worker, p: Phase): System {
    s.(workers := s.workers[w := p])
  }

  ghost function Do(s: System, a: Action): System
    requires Enabled(s, a)
  {
    match a
    case Insert(t) => WithStore(s.(used := s.used + {t.uid}), s.store[t.uid := t])
    case Edit(u, spec) => WithStore(s, s.store[u := s.store[u].(spec := spec)])
    case MarkDeleted(u) => WithStore(s, s.store[u := s.store[u].(deleting := true)])
    case Take(w, u) => WithPhase(s, w, Taken(s.store[u]))
    case Check(w, list) =>
      WithPhase(s, w, Checked(PhaseOf(s, w).cr))
    case Observe(w, _) => WithPhase(s, w, Outdated(PhaseOf(s, w).cr))
    case List(w, list) =>
      var p := PhaseOf(s, w);
      var kind := SyncKind(p).value;
      var skip := if kind.Deleting? then Some(p.cr.uid) else None;
      WithPhase(s, w, Listed(kind, p.cr, Mapping(Mappings(list, skip))))
    case ListFails(w) =>
      var p := PhaseOf(s, w);
      WithPhase(s, w, Finished(SyncKind(p).value, p.cr, false))
    case Get(w, ok) =>
      var p := PhaseOf(s, w);
      if !ok || s.settings.NotAMap? then WithPhase(s, w, Finished(p.kind, p.cr, false))
      else WithPhase(s, w, Fetched(p.kind, p.cr, p.text, if s.settings.Absent? then map[] else s.settings.entries))
    case Put(w, ok) =>
      var p := PhaseOf(s, w);
      var s' := if ok then s.(settings := Present(p.entries[ORG_MAPPING := Str(p.text)])) else s;
      WithPhase(s', w, Finished(p.kind, p.cr, ok))
    case Commit(w, now) => WithPhase(WithStore(s, Committed(s.store, PhaseOf(s, w), now)), w, Idle)
    case Drop(w) => WithPhase(s, w, Idle)
  }

  ghost predicate Behaves(s: System, acts: seq<Action>)
    decreases |acts|
  {
    acts == [] || (Enabled(s, acts[0]) && Behaves(Do(s, acts[0]), acts[1..]))
  }

  ghost function Final(s: System, acts: seq<Action>): System
    requires Behaves(s, acts)
    decreases |acts|
  {
    if acts == [] then s else Final(Do(s, acts[0]), acts[1..])
  }

  ghost predicate Reaches(s: System, f: System) {
    exists acts :: Behaves(s, acts) && Final(s, acts) == f
  }

  lemma ReachesItself(s: System)
    ensures Reaches(s, s)
  {
    assert Behaves(s, []) && Final(s, []) == s;
  }

  lemma {:induction false} OneMore(s: System, acts: seq<Action>, a: Action)
    requires Behaves(s, acts) && Enabled(Final(s, acts), a)
    ensures Behaves(s, acts + [a]) && Final(s, acts + [a]) == Do(Final(s, acts), a)
    decreases |acts|
  {
    if acts == [] {
      assert [] + [a] == [a];
      assert Behaves(Do(s, a), [a][1..]);
    } else {
      assert (acts + [a])[1..] == acts[1..] + [a];
      OneMore(Do(s, acts[0]), acts[1..], a);
    }
  }

  lemma ReachesNext(s: System, m: System, a: Action) returns (f: System)
    requires Reaches(s, m) && Enabled(m, a)
    ensures f == Do(m, a) && Reaches(s, f)
  {
    var acts :| Behaves(s, acts) && Final(s, acts) == m;
    OneMore(s, acts, a);
    f := Do(m, a);
  }

  /** A start: all workers idle, no tenant created yet. */
  ghost predicate Init(s: System) {
    && ValidStore(s.store) && s.used == s.store.Keys && s.workers == map[] && s.history == [s.store]
    && forall u | u in s.store :: s.store[u].externalName == ""
  }

  // ---------------------------------------------------------------- what Grafana can hold

  /** The text is the mapping of a store there has been, less one tenant if that one was being deleted. */
  ghost predicate Snapshot(history: seq<Store>, text: string) {
    exists i, list, skip :: SnapshotAt(history, text, i, list, skip)
  }

  ghost predicate SnapshotAt(history: seq<Store>, text: string, i: nat, list: seq<Tenant>, skip: Option<Uid>) {
    && i < |history| && Lists(list, history[i]) && text == Mapping(Mappings(list, skip))
    && (skip.Some? ==> WasDeleting(history, skip.value))
  }

  ghost predicate WasDeleting(history: seq<Store>, u: Uid) {
    exists j: nat :: j < |history| && u in history[j] && history[j][u].deleting
  }

  /** The text is that of a store there has been, and x was not in that store, or was left out. */
  ghost predicate FreeOf(history: seq<Store>, x: Uid, text: string) {
    exists i: nat, list, skip :: SnapshotAt(history, text, i, list, skip) && (x !in history[i] || skip == Some(x))
  }

  ghost function Base(s: Settings): map<string, Value> {
    if s.Present? then s.entries else map[]
  }

  /** The map is the initial one, up to the mapping text. */
  ghost predicate SameOthers(initial: Settings, entries: map<string, Value>) {
    !initial.NotAMap? && entries - {ORG_MAPPING} == Base(initial) - {ORG_MAPPING}
  }

  ghost predicate SettingsInv(initial: Settings, s: System) {
    s.settings == initial ||
    (&& s.settings.Present? && SameOthers(initial, s.settings.entries)
     && ORG_MAPPING in s.settings.entries && s.settings.entries[ORG_MAPPING].Str?
     && Snapshot(s.history, s.settings.entries[ORG_MAPPING].text))
  }

  ghost predicate WorkerInv(initial: Settings, history: seq<Store>, p: Phase) {
    && (p.Listed? || p.Fetched? ==> Snapshot(history, p.text))
    && ((p.Listed? || p.Fetched?) && p.kind.Deleting? ==> FreeOf(history, p.cr.uid, p.text))
    && (p.Fetched? ==> SameOthers(initial, p.entries))
    && (!p.Idle? && p.cr.deleting ==> WasDeleting(history, p.cr.uid))
  }

  ghost predicate HistoryInv(initial: Settings, s: System) {
    && s.store.Keys <= s.used
    && (forall i | 0 <= i < |s.history| :: ValidStore(s.history[i]))
    && s.history != [] && s.history[|s.history| - 1] == s.store
    && SettingsInv(initial, s)
    && forall w | w in s.workers :: WorkerInv(initial, s.history, s.workers[w])
  }

  lemma HistoryGrows(initial: Settings, h: seq<Store>, store: Store)
    ensures forall text | Snapshot(h, text) :: Snapshot(h + [store], text)
    ensures forall u | WasDeleting(h, u) :: WasDeleting(h + [store], u)
    ensures forall x, text | FreeOf(h, x, text) :: FreeOf(h + [store], x, text)
    ensures forall p | WorkerInv(initial, h, p) :: WorkerInv(initial, h + [store], p)
  {
    forall u | WasDeleting(h, u) ensures WasDeleting(h + [store], u) {
      var j: nat :| j < |h| && u in h[j] && h[j][u].deleting;
      assert (h + [store])[j] == h[j];
    }
    forall text | Snapshot(h, text) ensures Snapshot(h + [store], text) {
      var i, list, skip :| SnapshotAt(h, text, i, list, skip);
      assert SnapshotAt(h + [store], text, i, list, skip);
    }
    forall x, text | FreeOf(h, x, text) ensures FreeOf(h + [store], x, text) {
      var i: nat, list, skip :| SnapshotAt(h, text, i, list, skip) && (x !in h[i] || skip == Some(x));
      assert SnapshotAt(h + [store], text, i, list, skip) && (h + [store])[i] == h[i];
    }
  }

  lemma ListingIsSnapshot(history: seq<Store>, list: seq<Tenant>, skip: Option<Uid>)
    requires history != [] && Lists(list, history[|history| - 1])
    requires skip.Some? ==> WasDeleting(history, skip.value)
    ensures Snapshot(history, Mapping(Mappings(list, skip)))
    ensures skip.Some? ==> FreeOf(history, skip.value, Mapping(Mappings(list, skip)))
  {
    assert SnapshotAt(history, Mapping(Mappings(list, skip)), |history| - 1, list, skip);
  }

  lemma StoreStepKeeps(initial: Settings, s: System, store: Store)
    requires HistoryInv(initial, s) && ValidStore(store) && store.Keys <= s.used
    ensures HistoryInv(initial, WithStore(s, store))
  {
    HistoryGrows(initial, s.history, store);
  }

  lemma PhaseStepKeeps(initial: Settings, s: System, w: Worker, p: Phase)
    requires HistoryInv(initial, s) && WorkerInv(initial, s.history, p)
    ensures HistoryInv(initial, WithPhase(s, w, p))
  {}

  lemma PutKeeps(initial: Settings, s: System, text: string, entries: map<string, Value>)
    requires HistoryInv(initial, s) && Snapshot(s.history, text) && SameOthers(initial, entries)
    ensures HistoryInv(initial, s.(settings := Present(entries[ORG_MAPPING := Str(text)])))
  {
    var entries' := entries[ORG_MAPPING := Str(text)];
    assert entries' - {ORG_MAPPING} == entries - {ORG_MAPPING};
  }

  lemma CommittedIsValid(store: Store, p: Phase, now: string)
    requires ValidStore(store)
    ensures ValidStore(Committed(store, p, now)) && Committed(store, p, now).Keys <= store.Keys
  {}

  lemma StepKeepsHistoryInv(initial: Settings, s: System, a: Action)
    requires HistoryInv(initial, s) && Enabled(s, a)
    ensures HistoryInv(initial, Do(s, a))
  {
    match a
    case Insert(t) => StoreStepKeeps(initial, s.(used := s.used + {t.uid}), s.store[t.uid := t]);
    case Edit(u, spec) => StoreStepKeeps(initial, s, s.store[u := s.store[u].(spec := spec)]);
    case MarkDeleted(u) => StoreStepKeeps(initial, s, s.store[u := s.store[u].(deleting := true)]);
    case Take(w, u) =>
      if s.store[u].deleting {
        assert s.history[|s.history| - 1][u].deleting;
      }
      PhaseStepKeeps(initial, s, w, Taken(s.store[u]));
    case Check(w, _) =>
      PhaseStepKeeps(initial, s, w, Checked(PhaseOf(s, w).cr));
    case Observe(w, _) => PhaseStepKeeps(initial, s, w, Outdated(PhaseOf(s, w).cr));
    case List(w, list) =>
      var p := PhaseOf(s, w);
      var skip := if SyncKind(p).value.Deleting? then Some(p.cr.uid) else None;
      ListingIsSnapshot(s.history, list, skip);
      PhaseStepKeeps(initial, s, w, Listed(SyncKind(p).value, p.cr, Mapping(Mappings(list, skip))));
    case ListFails(w) =>
      var p := PhaseOf(s, w);
      PhaseStepKeeps(initial, s, w, Finished(SyncKind(p).value, p.cr, false));
    case Get(w, ok) =>
      var p := PhaseOf(s, w);
      assert WorkerInv(initial, s.history, p);
      if ok && !s.settings.NotAMap? {
        PhaseStepKeeps(initial, s, w, Fetched(p.kind, p.cr, p.text, Base(s.settings)));
      } else {
        PhaseStepKeeps(initial, s, w, Finished(p.kind, p.cr, false));
      }
    case Put(w, ok) =>
      var p := PhaseOf(s, w);
      assert WorkerInv(initial, s.history, p);
      if ok {
        PutKeeps(initial, s, p.text, p.entries);
      }
      var s' := if ok then s.(settings := Present(p.entries[ORG_MAPPING := Str(p.text)])) else s;
      PhaseStepKeeps(initial, s', w, Finished(p.kind, p.cr, ok));
    case Commit(w, now) =>
      CommittedIsValid(s.store, PhaseOf(s, w), now);
      StoreStepKeeps(initial, s, Committed(s.store, PhaseOf(s, w), now));
      PhaseStepKeeps(initial, WithStore(s, Committed(s.store, PhaseOf(s, w), now)), w, Idle);
    case Drop(w) => PhaseStepKeeps(initial, s, w, Idle);
  }

  /** Over every run: every setting but the mapping keeps its initial value, and the mapping is the initial one
      or that of a store there has been, less one tenant if that one was being deleted.
      A payload that is not a map is never overwritten. */
  lemma {:induction false} SettingsHistory(initial: Settings, s: System, acts: seq<Action>)
    requires HistoryInv(initial, s) && Behaves(s, acts)
    ensures HistoryInv(initial, Final(s, acts))
    decreases |acts|
  {
    if acts == [] {
    } else {
      StepKeepsHistoryInv(initial, s, acts[0]);
      SettingsHistory(initial, Do(s, acts[0]), acts[1..]);
    }
  }

  lemma SettingsFromStart(s: System, f: System)
    requires Init(s) && Reaches(s, f)
    ensures && (s.settings.NotAMap? ==> f.settings == s.settings)
            && (f.settings == s.settings ||
                (f.settings.Present? && f.settings.entries - {ORG_MAPPING} == Base(s.settings) - {ORG_MAPPING}
                 && Snapshot(f.history, MappingText(f.settings.entries))))
  {
    var acts :| Behaves(s, acts) && Final(s, acts) == f;
    SettingsHistory(s.settings, s, acts);
  }

  /** Only a Put that succeeds changes Grafana: a run in which no Put succeeds leaves the settings alone,
      whatever else fails or succeeds. */
  lemma {:induction false} NoPutNoChange(s: System, acts: seq<Action>)
    requires Behaves(s, acts) && forall a | a in acts :: !(a.Put? && a.ok)
    ensures Final(s, acts).settings == s.settings
    decreases |acts|
  {
    if acts == [] {
    } else {
      assert acts[0] in acts;
      NoPutNoChange(Do(s, acts[0]), acts[1..]);
    }
  }

  // ---------------------------------------------------------------- the serial machine is one of the schedules

  /** f is m but for the phase of one worker. */
  ghost predicate OnlyPhase(m: System, f: System, w: Worker, p: Phase) {
    && f.store == m.store && f.settings == m.settings
    && PhaseOf(f, w) == p && forall v | v != w :: PhaseOf(f, v) == PhaseOf(m, v)
  }

  lemma TakeStep(s: System, m: System, w: Worker, u: Uid) returns (f: System)
    requires Reaches(s, m) && PhaseOf(m, w).Idle? && u in m.store
    ensures Reaches(s, f) && OnlyPhase(m, f, w, Taken(m.store[u]))
  {
    f := ReachesNext(s, m, Take(w, u));
  }

  lemma CheckStep(s: System, m: System, w: Worker, t: Tenant, list: seq<Tenant>) returns (f: System)
    requires Reaches(s, m) && PhaseOf(m, w) == Taken(t) && t.externalName == "" && !t.deleting
    requires Lists(list, m.store) && !Duplicated(t, list)
    ensures Reaches(s, f) && OnlyPhase(m, f, w, Checked(t))
  {
    f := ReachesNext(s, m, Check(w, list));
  }

  lemma PutStep(s: System, m: System, w: Worker) returns (f: System)
    requires Reaches(s, m) && PhaseOf(m, w).Fetched?
    ensures Reaches(s, f) && f.store == m.store
    ensures f.settings == Present(PhaseOf(m, w).entries[ORG_MAPPING := Str(PhaseOf(m, w).text)])
  {
    f := ReachesNext(s, m, Put(w, true));
  }

  /** A worker that is about to sync can run the sync of the serial machine to its end. */
  lemma SyncIsASchedule(s: System, m: System, w: Worker, io: Io) returns (f: System)
    requires Reaches(s, m) && SyncKind(PhaseOf(m, w)).Some? && ValidIo(io, m.store)
    ensures Reaches(s, f) && f.store == m.store
    ensures forall v | v != w :: PhaseOf(f, v) == PhaseOf(m, v)
    ensures PhaseOf(f, w) == Finished(SyncKind(PhaseOf(m, w)).value, PhaseOf(m, w).cr, SyncSucceeds(m.settings, io))
    ensures var p := PhaseOf(m, w);
            f.settings == Synced(m.settings, io, if SyncKind(p).value.Deleting? then Some(p.cr.uid) else None)
  {
    if io.listing.None? {
      f := ReachesNext(s, m, ListFails(w));
    } else {
      var listed := ReachesNext(s, m, List(w, io.listing.value));
      f := ReachesNext(s, listed, Get(w, io.getOk));
      if io.getOk && !m.settings.NotAMap? {
        f := ReachesNext(s, f, Put(w, io.putOk));
      }
    }
  }

  /** Sync and commit of one worker, as one effect on store and settings. */
  lemma SyncAndCommit(s: System, m: System, w: Worker, kind: Kind, t: Tenant, io: Io) returns (f: System)
    requires Reaches(s, m) && SyncKind(PhaseOf(m, w)) == Some(kind) && PhaseOf(m, w).cr == t && ValidIo(io, m.store)
    ensures Reaches(s, f)
    ensures PhaseOf(f, w).Idle? && forall v | v != w :: PhaseOf(f, v) == PhaseOf(m, v)
    ensures f.store == Committed(m.store, Finished(kind, t, SyncSucceeds(m.settings, io)), io.now)
    ensures f.settings == Synced(m.settings, io, if kind.Deleting? then Some(t.uid) else None)
  {
    f := SyncIsASchedule(s, m, w, io);
    f := ReachesNext(s, f, Commit(w, io.now));
  }

  /** What a serial reconcile that changes something amounts to, in terms of the commit. */
  lemma ReconcileAsCommit(c: Cluster, u: Uid, io: Io)
    requires ValidStore(c.store) && Reconcile(c, u, io).cluster != c
    ensures u in c.store
    ensures var t, c' := c.store[u], Reconcile(c, u, io).cluster;
            if t.externalName == "" && t.deleting then
              c' == Cluster(Committed(c.store, Taken(t), io.now), c.settings)
            else if t.externalName == "" then
              && io.check.Some? && !Duplicated(t, io.check.value)
              && c' == Cluster(Committed(c.store, Finished(Creating, t, true), io.now), Synced(c.settings, io, None))
            else
              var kind := if t.deleting then Deleting else Updating;
              && (!t.deleting ==> !UpToDate(t) || (io.driftGetOk && Drifted(t, c.settings)))
              &&
              c' == Cluster(Committed(c.store, Finished(kind, t, SyncSucceeds(c.settings, io)), io.now),
                            Synced(c.settings, io, if t.deleting then Some(u) else None))
  {}

  lemma ObserveStep(s: System, m: System, w: Worker, t: Tenant, ok: bool) returns (f: System)
    requires Reaches(s, m) && PhaseOf(m, w) == Taken(t) && t.externalName != "" && !t.deleting
    requires !UpToDate(t) || (ok && Drifted(t, m.settings))
    ensures Reaches(s, f) && OnlyPhase(m, f, w, Outdated(t))
  {
    f := ReachesNext(s, m, Observe(w, ok));
  }

  /** A reconcile of a tenant with an external name. */
  lemma NamedIsASchedule(s: System, m: System, w: Worker, u: Uid, io: Io) returns (f: System)
    requires Reaches(s, m) && PhaseOf(m, w).Idle? && ValidStore(m.store) && ValidIo(io, m.store)
    requires Reconcile(Cluster(m.store, m.settings), u, io).cluster != Cluster(m.store, m.settings)
    requires u in m.store && m.store[u].externalName != ""
    ensures Reaches(s, f)
    ensures Cluster(f.store, f.settings) == Reconcile(Cluster(m.store, m.settings), u, io).cluster
    ensures PhaseOf(f, w).Idle? && forall v | v != w :: PhaseOf(f, v) == PhaseOf(m, v)
  {
    var t := m.store[u];
    ReconcileAsCommit(Cluster(m.store, m.settings), u, io);
    f := TakeStep(s, m, w, u);
    if t.deleting {
      f := SyncAndCommit(s, f, w, Deleting, t, io);
    } else {
      f := ObserveStep(s, f, w, t, io.driftGetOk);
      f := SyncAndCommit(s, f, w, Updating, t, io);
    }
  }

  /** One of a tenant without. */
  lemma UnnamedIsASchedule(s: System, m: System, w: Worker, u: Uid, io: Io) returns (f: System)
    requires Reaches(s, m) && PhaseOf(m, w).Idle? && ValidStore(m.store) && ValidIo(io, m.store)
    requires Reconcile(Cluster(m.store, m.settings), u, io).cluster != Cluster(m.store, m.settings)
    requires u in m.store && m.store[u].externalName == ""
    ensures Reaches(s, f)
    ensures Cluster(f.store, f.settings) == Reconcile(Cluster(m.store, m.settings), u, io).cluster
    ensures PhaseOf(f, w).Idle? && forall v | v != w :: PhaseOf(f, v) == PhaseOf(m, v)
  {
    var t := m.store[u];
    ReconcileAsCommit(Cluster(m.store, m.settings), u, io);
    f := TakeStep(s, m, w, u);
    if t.deleting {
      f := CommitRemoval(s, f, w, t, io.now);
    } else {
      f := CheckStep(s, f, w, t, io.check.value);
      f := SyncAndCommit(s, f, w, Creating, t, io);
    }
  }

  /** Every serial reconcile is what one idle worker can do undisturbed. */
  lemma SerialStepIsASchedule(s: System, m: System, w: Worker, u: Uid, io: Io) returns (f: System)
    requires Reaches(s, m) && PhaseOf(m, w).Idle? && ValidStore(m.store) && ValidIo(io, m.store)
    ensures Reaches(s, f)
    ensures Cluster(f.store, f.settings) == Reconcile(Cluster(m.store, m.settings), u, io).cluster
    ensures PhaseOf(f, w).Idle? && forall v | v != w :: PhaseOf(f, v) == PhaseOf(m, v)
  {
    if Reconcile(Cluster(m.store, m.settings), u, io).cluster == Cluster(m.store, m.settings) {
      f := m;
    } else if m.store[u].externalName != "" {
      f := NamedIsASchedule(s, m, w, u, io);
    } else {
      f := UnnamedIsASchedule(s, m, w, u, io);
    }
  }

  /** So is every serial run: whatever holds in all reachable states of this machine holds after every run of the
      serial one, started from the same store and settings. */
  lemma {:induction false} SerialRunIsASchedule(s: System, m: System, w: Worker, steps: seq<Step>) returns (f: System)
    requires Reaches(s, m) && PhaseOf(m, w).Idle? && ValidStore(m.store)
    requires IsRun(Cluster(m.store, m.settings), steps)
    ensures Reaches(s, f) && PhaseOf(f, w).Idle?
    ensures Cluster(f.store, f.settings) == After(Cluster(m.store, m.settings), steps)
    decreases |steps|
  {
    if steps == [] {
      f := m;
    } else {
      var c := Cluster(m.store, m.settings);
      StepFrame(c, steps[0]);
      var next := SerialStepIsASchedule(s, m, w, steps[0].uid, steps[0].io);
      f := SerialRunIsASchedule(s, next, w, steps[1..]);
    }
  }

  lemma CommitRemoval(s: System, m: System, w: Worker, t: Tenant, now: string) returns (f: System)
    requires Reaches(s, m) && PhaseOf(m, w) == Taken(t) && t.externalName == "" && t.deleting
    ensures Reaches(s, f) && f.settings == m.settings
    ensures f.store == Committed(m.store, Taken(t), now)
    ensures PhaseOf(f, w).Idle? && forall v | v != w :: PhaseOf(f, v) == PhaseOf(m, v)
  {
    f := ReachesNext(s, m, Commit(w, now));
  }

  /** No edit is lost to a worker with an old copy: what it stores shows the copy, so that the next Observe asks for an
      Update exactly if the stored spec is another one. */
  lemma StaleCommitIsSeen(s: System, w: Worker, now: string)
    requires ValidStore(s.store) && PhaseOf(s, w).Finished? && !PhaseOf(s, w).kind.Deleting?
    requires PhaseOf(s, w).cr.uid in s.store
    ensures var u, cr := PhaseOf(s, w).cr.uid, PhaseOf(s, w).cr;
            var t := Do(s, Commit(w, now)).store[u];
            && t.spec == s.store[u].spec && t.deleting == s.store[u].deleting
            && t.status.tenantID == cr.spec.tenantID && t.status.orgID == cr.spec.orgID
            && t.status.lastUpdated == now
            && (UpToDate(t) <==> s.store[u].spec == cr.spec)
            && t.externalName == if PhaseOf(s, w).kind.Creating? then cr.spec.tenantID else s.store[u].externalName
  {
    var u, cr := PhaseOf(s, w).cr.uid, PhaseOf(s, w).cr;
    StatusIsSpec(s.store[u].spec, cr.spec, now);
  }

  lemma StatusIsSpec(p: Parameters, q: Parameters, now: string)
    ensures StatusOf(p, now) == StatusOf(q, now) <==> p == q
  {}

  // ---------------------------------------------------------------- what interleaving costs

  /** Serially, a deletion takes the tenant's entries away (DeletionKeepsTheOthers). With a second worker it need
      not: a Put that was prepared before brings the entries of the deleted tenant back, and they outlive it. */
  lemma StalePutUndoesDeletion(s: System, x: Uid, y: Uid, list: seq<Tenant>, v: Worker, w: Worker, g: string)
    returns (f: System)
    requires ValidStore(s.store) && Lists(list, s.store) && !s.settings.NotAMap?
    requires v != w && PhaseOf(s, v).Idle? && PhaseOf(s, w).Idle?
    requires x in s.store && s.store[x].deleting && s.store[x].externalName != ""
    requires y in s.store && !s.store[y].deleting && s.store[y].externalName != ""
    requires !UpToDate(s.store[y]) || Drifted(s.store[y], s.settings)
    requires HasGroup(MappingOf(s.store[x]), g) && ',' !in s.store[x].spec.orgID
    ensures Reaches(s, f) && x !in f.store
    ensures f.settings.Present? && MappingText(f.settings.entries) == Mapping(Mappings(list, None))
    ensures ContainsOrg(MappingText(f.settings.entries), s.store[x].spec.orgID)
    ensures AllWellFormed(Mappings(list, None)) ==>
              exists tr ::
                tr in Parse(MappingText(f.settings.entries)) && tr.group == g && tr.orgID == s.store[x].spec.orgID
  {
    var early := PreparePut(s, w, y, list);
    f := DeleteThenPut(s, early, x, list, v, w);
    StoredOrgIsFound(s.store, x, list, g);
  }

  lemma DeleteThenPut(s: System, m: System, x: Uid, list: seq<Tenant>, v: Worker, w: Worker) returns (f: System)
    requires Reaches(s, m) && ValidStore(m.store) && Lists(list, m.store)
    requires v != w && PhaseOf(m, v).Idle? && PhaseOf(m, w).Fetched?
    requires x in m.store && m.store[x].deleting && m.store[x].externalName != ""
    ensures Reaches(s, f) && x !in f.store
    ensures f.settings == Present(PhaseOf(m, w).entries[ORG_MAPPING := Str(PhaseOf(m, w).text)])
  {
    var taken := TakeStep(s, m, v, x);
    var deleted := SyncAndCommit(s, taken, v, Deleting, m.store[x], Io(true, None, Some(list), true, true, ""));
    f := PutStep(s, deleted, w);
  }

  lemma PreparePut(s: System, w: Worker, y: Uid, list: seq<Tenant>) returns (f: System)
    requires Lists(list, s.store) && !s.settings.NotAMap? && PhaseOf(s, w).Idle?
    requires y in s.store && !s.store[y].deleting && s.store[y].externalName != ""
    requires !UpToDate(s.store[y]) || Drifted(s.store[y], s.settings)
    ensures Reaches(s, f) && f.store == s.store && f.settings == s.settings
    ensures forall v | v != w :: PhaseOf(f, v) == PhaseOf(s, v)
    ensures PhaseOf(f, w) == Fetched(Updating, s.store[y], Mapping(Mappings(list, None)), Base(s.settings))
  {
    ReachesItself(s);
    f := TakeStep(s, s, w, y);
    f := ObserveStep(s, f, w, s.store[y], true);
    f := ListAndGet(s, f, w, list);
  }

  lemma ListAndGet(s: System, m: System, w: Worker, list: seq<Tenant>) returns (f: System)
    requires Reaches(s, m) && PhaseOf(m, w).Outdated? && Lists(list, m.store) && !m.settings.NotAMap?
    ensures Reaches(s, f)
    ensures OnlyPhase(m, f, w, Fetched(Updating, PhaseOf(m, w).cr, Mapping(Mappings(list, None)), Base(m.settings)))
  {
    f := ReachesNext(s, m, List(w, list));
    f := ReachesNext(s, f, Get(w, true));
  }

  lemma StoredOrgIsFound(store: Store, x: Uid, list: seq<Tenant>, g: string)
    requires Lists(list, store) && x in store
    requires HasGroup(MappingOf(store[x]), g) && ',' !in store[x].spec.orgID
    ensures ContainsOrg(Mapping(Mappings(list, None)), store[x].spec.orgID)
    ensures AllWellFormed(Mappings(list, None)) ==>
              exists tr ::
                tr in Parse(Mapping(Mappings(list, None))) && tr.group == g && tr.orgID == store[x].spec.orgID
  {
    ListedIsMapped(list, None, store[x]);
    PrintedOrgIsFound(Mappings(list, None), MappingOf(store[x]), g);
    if AllWellFormed(Mappings(list, None)) {
      MappingRoundTrip(Mappings(list, None));
      var tr := GroupHasTriple(Mappings(list, None), MappingOf(store[x]), g);
    }
  }

  // ---------------------------------------------------------------- and what it does not cost

  ghost predicate PhaseFreeOf(history: seq<Store>, x: Uid, p: Phase) {
    p.Listed? || p.Fetched? ==> FreeOf(history, x, p.text)
  }

  /** x was there and is gone. */
  ghost predicate Removed(initial: Settings, x: Uid, s: System) {
    HistoryInv(initial, s) && x in s.used && x !in s.store
  }

  /** No worker holds a text with x. */
  ghost predicate NoneHeld(x: Uid, s: System) {
    forall w | w in s.workers :: PhaseFreeOf(s.history, x, s.workers[w])
  }

  /** Grafana holds the mapping of a store there has been, without x. */
  ghost predicate Clean(x: Uid, s: System) {
    && s.settings.Present? && ORG_MAPPING in s.settings.entries && s.settings.entries[ORG_MAPPING].Str?
    && FreeOf(s.history, x, s.settings.entries[ORG_MAPPING].text)
  }

  lemma FreeStaysFree(h: seq<Store>, store: Store, x: Uid)
    ensures forall text | FreeOf(h, x, text) :: FreeOf(h + [store], x, text)
    ensures forall p | PhaseFreeOf(h, x, p) :: PhaseFreeOf(h + [store], x, p)
  {
    HistoryGrows(Absent, h, store);
  }

  lemma ListedIsFree(x: Uid, initial: Settings, s: System, w: Worker, list: seq<Tenant>)
    requires Removed(initial, x, s) && Enabled(s, List(w, list))
    ensures PhaseFreeOf(s.history, x, PhaseOf(Do(s, List(w, list)), w))
  {
    var p := PhaseOf(s, w);
    assert WorkerInv(initial, s.history, p);
    var skip := if SyncKind(p).value.Deleting? then Some(p.cr.uid) else None;
    assert SnapshotAt(s.history, Mapping(Mappings(list, skip)), |s.history| - 1, list, skip);
  }

  /** Uids are not used twice, and no commit stores a tenant that is gone. */
  lemma StepKeepsRemoved(x: Uid, initial: Settings, s: System, a: Action)
    requires Removed(initial, x, s) && Enabled(s, a)
    ensures Removed(initial, x, Do(s, a))
    ensures Do(s, a).history == s.history || Do(s, a).history == s.history + [Do(s, a).store]
  {
    StepKeepsHistoryInv(initial, s, a);
    if a.Commit? {
      CommittedIsValid(s.store, PhaseOf(s, a.w), a.now);
    }
  }

  lemma OldOrFree(x: Uid, s: System, s': System)
    requires NoneHeld(x, s) && (s'.history == s.history || s'.history == s.history + [s'.store])
    requires forall w | w in s'.workers ::
               PhaseFreeOf(s.history, x, s'.workers[w]) || (w in s.workers && s'.workers[w] == s.workers[w])
    requires s'.settings == s.settings || Clean(x, s.(settings := s'.settings))
    ensures NoneHeld(x, s')
    ensures Clean(x, s) || s'.settings != s.settings ==> Clean(x, s')
  {
    FreeStaysFree(s.history, s'.store, x);
  }

  lemma GotIsFree(x: Uid, s: System, w: Worker, ok: bool)
    requires NoneHeld(x, s) && Enabled(s, Get(w, ok))
    ensures PhaseFreeOf(s.history, x, PhaseOf(Do(s, Get(w, ok)), w))
  {
    assert PhaseFreeOf(s.history, x, s.workers[w]);
  }

  lemma StepPhases(x: Uid, initial: Settings, s: System, a: Action)
    requires Removed(initial, x, s) && NoneHeld(x, s) && Enabled(s, a)
    ensures var s' := Do(s, a);
            forall w | w in s'.workers ::
              PhaseFreeOf(s.history, x, s'.workers[w]) || (w in s.workers && s'.workers[w] == s.workers[w])
  {
    if a.List? {
      ListedIsFree(x, initial, s, a.w, a.list);
    } else if a.Get? {
      GotIsFree(x, s, a.w, a.ok);
    }
  }

  lemma StepSettings(x: Uid, s: System, a: Action)
    requires NoneHeld(x, s) && Enabled(s, a)
    ensures Do(s, a).settings == s.settings || Clean(x, s.(settings := Do(s, a).settings))
  {
    if a.Put? {
      assert PhaseFreeOf(s.history, x, PhaseOf(s, a.w));
    }
  }

  lemma StepKeepsHeld(x: Uid, initial: Settings, s: System, a: Action)
    requires Removed(initial, x, s) && NoneHeld(x, s) && Enabled(s, a)
    ensures NoneHeld(x, Do(s, a))
    ensures Clean(x, s) || Do(s, a).settings != s.settings ==> Clean(x, Do(s, a))
  {
    StepKeepsRemoved(x, initial, s, a);
    StepPhases(x, initial, s, a);
    StepSettings(x, s, a);
    OldOrFree(x, s, Do(s, a));
  }

  /** The counterpart: once a tenant is gone and no worker is left between List and Put with its entries, they
      never come back. In every later state Grafana was either not written since, or holds the mapping of a store
      there has been, without the tenant, whatever workers and users do. */
  lemma {:induction false} RemovedStaysRemoved(x: Uid, initial: Settings, s: System, acts: seq<Action>)
    requires Removed(initial, x, s) && NoneHeld(x, s) && Behaves(s, acts)
    ensures var f := Final(s, acts);
            Removed(initial, x, f) && NoneHeld(x, f) && (Clean(x, s) || f.settings != s.settings ==> Clean(x, f))
    decreases |acts|
  {
    if acts == [] {
    } else {
      StepKeepsRemoved(x, initial, s, acts[0]);
      StepKeepsHeld(x, initial, s, acts[0]);
      RemovedStaysRemoved(x, initial, Do(s, acts[0]), acts[1..]);
    }
  }

  /** A worker that holds a text with x can bring x back. */
  lemma HeldComesBack(x: Uid, s: System, w: Worker) returns (f: System)
    requires w in s.workers && !PhaseFreeOf(s.history, x, s.workers[w]) && !s.settings.NotAMap?
    ensures Reaches(s, f) && f.store == s.store && !Clean(x, f)
    ensures f.settings.Present? && MappingText(f.settings.entries) == s.workers[w].text
  {
    ReachesItself(s);
    f := s;
    if s.workers[w].Listed? {
      f := ReachesNext(s, f, Get(w, true));
    }
    f := ReachesNext(s, f, Put(w, true));
  }

  lemma PutOfFreeText(x: Uid, s: System, w: Worker)
    requires PhaseOf(s, w).Fetched? && FreeOf(s.history, x, PhaseOf(s, w).text)
    ensures Clean(x, Do(s, Put(w, true)))
  {
    var text := PhaseOf(s, w).text;
    PutEffect(s, w);
    assert PhaseOf(s, w).entries[ORG_MAPPING := Str(text)][ORG_MAPPING] == Str(text);
  }

  lemma PutEffect(s: System, w: Worker)
    requires PhaseOf(s, w).Fetched?
    ensures var s' := Do(s, Put(w, true));
            && s'.settings == Present(PhaseOf(s, w).entries[ORG_MAPPING := Str(PhaseOf(s, w).text)])
            && s'.history == s.history
  {}

  /** In every reachable state, the sync of a deletion that goes through leaves Grafana clean. */
  lemma DeletingPutCleans(s: System, m: System, w: Worker)
    requires Init(s) && Reaches(s, m) && PhaseOf(m, w).Fetched? && PhaseOf(m, w).kind.Deleting?
    ensures Clean(PhaseOf(m, w).cr.uid, Do(m, Put(w, true)))
  {
    var acts :| Behaves(s, acts) && Final(s, acts) == m;
    SettingsHistory(s.settings, s, acts);
    assert WorkerInv(s.settings, m.history, PhaseOf(m, w));
    PutOfFreeText(PhaseOf(m, w).cr.uid, m, w);
  }

  /** Exactly when a deletion is safe: as long as Grafana holds a clean mapping, it does so in every state that is
      reachable if and only if no worker holds a text with the tenant's entries. */
  lemma DeletionIsSafeExactly(x: Uid, initial: Settings, s: System)
    requires Removed(initial, x, s) && Clean(x, s)
    ensures (forall f | Reaches(s, f) :: Clean(x, f)) <==> NoneHeld(x, s)
  {
    if NoneHeld(x, s) {
      forall f | Reaches(s, f) ensures Clean(x, f) {
        var acts :| Behaves(s, acts) && Final(s, acts) == f;
        RemovedStaysRemoved(x, initial, s, acts);
      }
    } else {
      var w :| w in s.workers && !PhaseFreeOf(s.history, x, s.workers[w]);
      var f := HeldComesBack(x, s, w);
    }
  }

  ghost predicate WellFormedHistory(history: seq<Store>) {
    forall i, u | 0 <= i < |history| && u in history[i] :: WellFormed(MappingOf(history[i][u]))
  }

  /** What a clean mapping means for access: there was a store in which, without x, the stored tenants grant exactly
      what claims resolve to now. */
  lemma CleanAccess(x: Uid, initial: Settings, s: System) returns (i: nat, skip: Option<Uid>)
    requires HistoryInv(initial, s) && Clean(x, s) && WellFormedHistory(s.history)
    ensures i < |s.history| && x !in Without(s.history[i], skip)
    ensures skip.Some? ==> WasDeleting(s.history, skip.value)
    ensures forall claims ::
              Resolve(MappingText(s.settings.entries), claims)
              == Sorted(StoreEntitled(Without(s.history[i], skip), claims))
  {
    var text := MappingText(s.settings.entries);
    var j: nat, list, without :|
      SnapshotAt(s.history, text, j, list, without) && (x !in s.history[j] || without == Some(x));
    i, skip := j, without;
    forall claims ensures Resolve(text, claims) == Sorted(StoreEntitled(Without(s.history[i], skip), claims)) {
      ListingGrants(s.history[i], list, skip, claims);
    }
  }
}
