/** Are tenant ids unique among created tenants when workers interleave and users edit ids? Exactly when. */
module UniqueIds {
  import opened Reconciler
  import opened Convergence
  import opened Interleaving

  /** No two created tenants have one id. */
  ghost predicate NamedUnique(s: System) {
    forall x, y | x in s.store && y in s.store && x != y && s.store[x].spec.tenantID == s.store[y].spec.tenantID ::
      s.store[x].externalName == "" || s.store[y].externalName == ""
  }

  /** The worker can give t an external name, whoever has the present id of t: it is past the check,
      or it is going to check an old id. */
  ghost predicate ArmedBy(t: Tenant, p: Phase) {
    && !p.Idle? && p.cr.uid == t.uid && p.cr.spec.tenantID != ""
    && (|| p.Checked?
        || ((p.Listed? || p.Fetched? || p.Finished?) && p.kind.Creating?)
        || (p.Taken? && p.cr.externalName == "" && !p.cr.deleting && p.cr.spec.tenantID != t.spec.tenantID))
  }

  ghost predicate Armed(s: System, x: Uid)
    requires x in s.store
  {
    s.store[x].externalName != "" || exists w :: w in s.workers && ArmedBy(s.store[x], s.workers[w])
  }

  /** Two tenants with one id that are both created, or on their way. */
  ghost predicate Clash(s: System, x: Uid, y: Uid) {
    && x in s.store && y in s.store && x != y && s.store[x].spec.tenantID == s.store[y].spec.tenantID
    && Armed(s, x) && Armed(s, y)
  }

  ghost predicate UniqueInv(s: System) {
    KnownUids(s) && forall x, y :: !Clash(s, x, y)
  }

  ghost predicate KnownUids(s: System) {
    && ValidStore(s.store) && s.store.Keys <= s.used
    && forall w | w in s.workers :: s.workers[w].Idle? || s.workers[w].cr.uid in s.used
  }

  // ---------------------------------------------------------------- harmless edits

  /** No edit makes a clash. */
  ghost predicate KeepsIds(s: System, acts: seq<Action>)
    requires Behaves(s, acts)
    decreases |acts|
  {
    acts == [] || (KeepsId(s, acts[0]) && KeepsIds(Do(s, acts[0]), acts[1..]))
  }

  ghost predicate KeepsId(s: System, a: Action)
    requires Enabled(s, a)
  {
    a.Edit? ==> forall v :: !Clash(Do(s, a), a.u, v)
  }

  /** For instance an edit to an id that no other tenant has, or one that does not touch the id. */
  lemma FreshIdIsHarmless(s: System, u: Uid, spec: Parameters)
    requires UniqueInv(s) && u in s.store
    requires || spec.tenantID == s.store[u].spec.tenantID
             || forall v | v in s.store && v != u :: s.store[v].spec.tenantID != spec.tenantID
    ensures KeepsId(s, Edit(u, spec))
  {
    var s' := Do(s, Edit(u, spec));
    forall v: Uid ensures !Clash(s', u, v) {
      if Clash(s', u, v) {
        assert spec.tenantID == s.store[u].spec.tenantID;
        assert Armed(s, u) && Armed(s, v);
        assert Clash(s, u, v);
      }
    }
  }

  // ---------------------------------------------------------------- every step keeps it

  /** A step that neither changes an id nor arms anyone makes no clash. */
  lemma NobodyArmed(s: System, s': System)
    requires UniqueInv(s) && KnownUids(s')
    requires forall x | x in s'.store ::
               x in s.store && s'.store[x].spec == s.store[x].spec && (Armed(s', x) ==> Armed(s, x))
    ensures UniqueInv(s')
  {
    forall x: Uid, y: Uid ensures !Clash(s', x, y) {
      assert !Clash(s, x, y);
    }
  }

  lemma PhaseKeepsUnique(s: System, w: Worker, p: Phase)
    requires UniqueInv(s) && (p.Idle? || p.cr.uid in s.used)
    requires forall x | x in s.store && ArmedBy(s.store[x], p) :: ArmedBy(s.store[x], PhaseOf(s, w))
    ensures UniqueInv(WithPhase(s, w, p))
  {
    var s' := WithPhase(s, w, p);
    forall x | x in s'.store && Armed(s', x) ensures Armed(s, x) {
      if s.store[x].externalName == "" {
        var v :| v in s'.workers && ArmedBy(s'.store[x], s'.workers[v]);
        assert v == w ==> ArmedBy(s.store[x], PhaseOf(s, w)) && w in s.workers;
      }
    }
    NobodyArmed(s, s');
  }

  lemma InsertKeepsUnique(s: System, t: Tenant)
    requires UniqueInv(s) && Enabled(s, Insert(t))
    ensures UniqueInv(Do(s, Insert(t)))
  {
    var s' := Do(s, Insert(t));
    assert !Armed(s', t.uid);
    forall x | x in s.store && Armed(s', x) ensures Armed(s, x) {
      assert s'.store[x] == s.store[x];
    }
    forall x: Uid, y: Uid ensures !Clash(s', x, y) {
      assert !Clash(s, x, y);
    }
  }

  lemma EditKeepsUnique(s: System, u: Uid, spec: Parameters)
    requires UniqueInv(s) && u in s.store && KeepsId(s, Edit(u, spec))
    ensures UniqueInv(Do(s, Edit(u, spec)))
  {
    var s' := Do(s, Edit(u, spec));
    forall x: Uid, y: Uid ensures !Clash(s', x, y) {
      assert !Clash(s', u, x) && !Clash(s', u, y) && !Clash(s, x, y);
      if x != u && y != u && x in s.store && y in s.store {
        assert s'.store[x] == s.store[x] && s'.store[y] == s.store[y];
        assert (Armed(s', x) ==> Armed(s, x)) && (Armed(s', y) ==> Armed(s, y));
      }
    }
  }

  lemma MarkKeepsUnique(s: System, u: Uid)
    requires UniqueInv(s) && u in s.store
    ensures UniqueInv(Do(s, MarkDeleted(u)))
  {
    var s' := Do(s, MarkDeleted(u));
    forall x | x in s'.store && Armed(s', x) ensures Armed(s, x) {
      if s.store[x].externalName == "" {
        var w :| w in s'.workers && ArmedBy(s'.store[x], s'.workers[w]);
        assert ArmedBy(s.store[x], s.workers[w]);
      }
    }
    NobodyArmed(s, s');
  }

  /** The check of a present id arms its tenant, but then the List showed no rival. */
  lemma CheckKeepsUnique(s: System, w: Worker, list: seq<Tenant>)
    requires UniqueInv(s) && Enabled(s, Check(w, list))
    ensures UniqueInv(Do(s, Check(w, list)))
  {
    var cr := PhaseOf(s, w).cr;
    var s' := Do(s, Check(w, list));
    DuplicatedIsRefused(s.store, list, cr);
    forall x | x in s.store && Armed(s', x)
      ensures Armed(s, x) || (x == cr.uid && s.store[x].spec.tenantID == cr.spec.tenantID)
    {
      if s.store[x].externalName == "" {
        var v :| v in s'.workers && ArmedBy(s'.store[x], s'.workers[v]);
        if v == w {
          assert w in s.workers && s.workers[w] == Taken(cr);
          assert s.store[x].spec.tenantID != cr.spec.tenantID ==> ArmedBy(s.store[x], s.workers[w]);
        }
      }
    }
    forall x: Uid, y: Uid ensures !Clash(s', x, y) {
      assert !Clash(s, x, y);
    }
  }

  lemma CommitKeepsUnique(s: System, w: Worker, now: string)
    requires UniqueInv(s) && Enabled(s, Commit(w, now))
    ensures UniqueInv(Do(s, Commit(w, now)))
  {
    var p := PhaseOf(s, w);
    var s' := Do(s, Commit(w, now));
    CommittedIsValid(s.store, p, now);
    CommitNames(s, w, now);
    forall x | x in s'.store && Armed(s', x) ensures Armed(s, x) {
      if s'.store[x].externalName == "" {
        var v :| v in s'.workers && ArmedBy(s'.store[x], s'.workers[v]);
        assert v in s.workers && ArmedBy(s.store[x], s.workers[v]);
      }
    }
    NobodyArmed(s, s');
  }

  lemma CommitNames(s: System, w: Worker, now: string)
    requires ValidStore(s.store) && Enabled(s, Commit(w, now))
    ensures var store := Committed(s.store, PhaseOf(s, w), now);
            forall x | x in store ::
              && x in s.store && store[x].spec == s.store[x].spec
              && (store[x].externalName != "" ==>
                    s.store[x].externalName != "" || (w in s.workers && ArmedBy(s.store[x], s.workers[w])))
  {}

  lemma StepKeepsUniqueInv(s: System, a: Action)
    requires UniqueInv(s) && Enabled(s, a) && KeepsId(s, a)
    ensures UniqueInv(Do(s, a))
  {
    match a
    case Insert(t) => InsertKeepsUnique(s, t);
    case Edit(u, spec) => EditKeepsUnique(s, u, spec);
    case MarkDeleted(u) => MarkKeepsUnique(s, u);
    case Take(w, u) => PhaseKeepsUnique(s, w, Taken(s.store[u]));
    case Check(w, list) => CheckKeepsUnique(s, w, list);
    case Commit(w, now) => CommitKeepsUnique(s, w, now);
    case Drop(w) => PhaseKeepsUnique(s, w, Idle);
    case Put(w, ok) => PutKeepsUnique(s, w, ok);
    case _ => PhaseKeepsUnique(s, a.w, PhaseOf(Do(s, a), a.w));
  }

  lemma PutKeepsUnique(s: System, w: Worker, ok: bool)
    requires UniqueInv(s) && Enabled(s, Put(w, ok))
    ensures UniqueInv(Do(s, Put(w, ok)))
  {
    var p := PhaseOf(s, w);
    var s1 := s.(settings := Do(s, Put(w, ok)).settings);
    forall x | x in s1.store ensures Armed(s1, x) ==> Armed(s, x) {}
    NobodyArmed(s, s1);
    PhaseKeepsUnique(s1, w, Finished(p.kind, p.cr, ok));
  }

  lemma {:induction false} RunKeepsUniqueInv(s: System, acts: seq<Action>)
    requires UniqueInv(s) && Behaves(s, acts) && KeepsIds(s, acts)
    ensures UniqueInv(Final(s, acts))
    decreases |acts|
  {
    if acts == [] {
    } else {
      StepKeepsUniqueInv(s, acts[0]);
      RunKeepsUniqueInv(Do(s, acts[0]), acts[1..]);
    }
  }

  /** In no reachable state have two stored tenants with one tenant id both an external name, or are both on their
      way to one, however the checks and commits of their workers interleave. */
  lemma CreatedIdsAreUnique(s: System, acts: seq<Action>)
    requires Init(s) && Behaves(s, acts) && KeepsIds(s, acts)
    ensures NamedUnique(Final(s, acts)) && forall x, y :: !Clash(Final(s, acts), x, y)
  {
    RunKeepsUniqueInv(s, acts);
    NoClashNoTwins(Final(s, acts));
  }

  // ---------------------------------------------------------------- a clash can come to light

  ghost predicate ReachesKeeping(s: System, f: System) {
    exists acts :: Behaves(s, acts) && KeepsIds(s, acts) && Final(s, acts) == f
  }

  /** Whatever comes, harmful edits aside, ids of created tenants are unique. */
  ghost predicate SafeFrom(s: System) {
    forall f | ReachesKeeping(s, f) :: NamedUnique(f)
  }

  lemma KeepingItself(s: System)
    ensures ReachesKeeping(s, s)
  {
    assert Behaves(s, []) && KeepsIds(s, []) && Final(s, []) == s;
  }

  lemma {:induction false} OneMoreKeeping(s: System, acts: seq<Action>, a: Action)
    requires Behaves(s, acts) && KeepsIds(s, acts) && Enabled(Final(s, acts), a) && KeepsId(Final(s, acts), a)
    ensures Behaves(s, acts + [a]) && KeepsIds(s, acts + [a]) && Final(s, acts + [a]) == Do(Final(s, acts), a)
    decreases |acts|
  {
    OneMore(s, acts, a);
    if acts == [] {
      assert [] + [a] == [a] && [a][1..] == [];
      assert KeepsIds(Do(s, a), []);
    } else {
      assert (acts + [a])[1..] == acts[1..] + [a];
      OneMoreKeeping(Do(s, acts[0]), acts[1..], a);
    }
  }

  lemma NextKeeping(s: System, m: System, a: Action) returns (f: System)
    requires ReachesKeeping(s, m) && Enabled(m, a) && KeepsId(m, a)
    ensures f == Do(m, a) && ReachesKeeping(s, f)
  {
    var acts :| Behaves(s, acts) && KeepsIds(s, acts) && Final(s, acts) == m;
    OneMoreKeeping(s, acts, a);
    f := Do(m, a);
  }

  // ---------------------------------------------------------------- fresh ids

  lemma {:induction false} LongerThanAll(ids: set<string>) returns (n: nat)
    ensures forall i | i in ids :: |i| < n
    decreases |ids|
  {
    n := 0;
    if i :| i in ids {
      var m := LongerThanAll(ids - {i});
      n := if |i| < m then m else |i| + 1;
      forall j | j in ids ensures |j| < n {
        assert j != i ==> j in ids - {i};
      }
    }
  }

  lemma FreshId(store: Store) returns (id: string)
    ensures forall v | v in store :: store[v].spec.tenantID != id
  {
    var ids := set v | v in store :: store[v].spec.tenantID;
    var n := LongerThanAll(ids);
    id := seq(n, _ => 'a');
    assert forall v | v in store :: store[v].spec.tenantID in ids;
  }

  ghost function Having(store: Store, id: string): set<Uid> {
    set v | v in store && store[v].spec.tenantID == id
  }

  /** The others are as they were. */
  ghost predicate SameBut(s: System, f: System, id: string) {
    && f.workers == s.workers && f.store.Keys == s.store.Keys
    && forall v | v in s.store && s.store[v].spec.tenantID != id :: f.store[v] == s.store[v]
  }

  /** Users can give up an id: all tenants that have it get fresh ones. */
  lemma {:induction false} GiveUp(s0: System, s: System, id: string) returns (f: System)
    requires ReachesKeeping(s0, s) && ValidStore(s.store)
    ensures ReachesKeeping(s0, f) && ValidStore(f.store)
    ensures SameBut(s, f, id) && Having(f.store, id) == {}
    decreases |Having(s.store, id)|
  {
    f := s;
    if z :| z in Having(s.store, id) {
      var id' := FreshId(s.store);
      var a := Edit(z, s.store[z].spec.(tenantID := id'));
      var m := NextKeeping(s0, s, a);
      assert Having(m.store, id) == Having(s.store, id) - {z};
      f := GiveUp(s0, m, id);
    }
  }

  // ---------------------------------------------------------------- who is armed gets a name

  /** f is m, but for one worker and its tenant, and x has a name. */
  ghost predicate JustNamed(m: System, f: System, w: Worker, x: Uid) {
    && f.store.Keys == m.store.Keys && x in f.store
    && f.store[x].uid == m.store[x].uid && f.store[x].spec == m.store[x].spec && f.store[x].externalName != ""
    && (forall v | v in m.store && v != x :: f.store[v] == m.store[v])
    && f.workers.Keys == m.workers.Keys
    && forall v | v in m.workers && v != w :: f.workers[v] == m.workers[v]
  }

  lemma FinishNames(s0: System, m: System, w: Worker, x: Uid) returns (f: System)
    requires ReachesKeeping(s0, m) && x in m.store
    requires w in m.workers && m.workers[w].Finished? && m.workers[w].kind.Creating?
    requires m.workers[w].cr.uid == x && m.workers[w].cr.spec.tenantID != ""
    ensures ReachesKeeping(s0, f) && JustNamed(m, f, w, x)
  {
    f := NextKeeping(s0, m, Commit(w, ""));
  }

  lemma GetAndPut(s0: System, m: System, w: Worker) returns (f: System)
    requires ReachesKeeping(s0, m) && w in m.workers && (m.workers[w].Listed? || m.workers[w].Fetched?)
    ensures ReachesKeeping(s0, f) && f.store == m.store && f.workers.Keys == m.workers.Keys
    ensures f.workers[w].Finished? && f.workers[w].kind == m.workers[w].kind && f.workers[w].cr == m.workers[w].cr
    ensures forall v | v in m.workers && v != w :: f.workers[v] == m.workers[v]
  {
    f := m;
    if m.workers[w].Listed? {
      f := NextKeeping(s0, f, Get(w, true));
    }
    if f.workers[w].Fetched? {
      f := NextKeeping(s0, f, Put(w, true));
    }
  }

  lemma CheckedIsListed(s0: System, m: System, w: Worker) returns (f: System)
    requires ReachesKeeping(s0, m) && ValidStore(m.store) && w in m.workers && m.workers[w].Checked?
    ensures ReachesKeeping(s0, f) && f.store == m.store && f.workers.Keys == m.workers.Keys
    ensures f.workers[w].Listed? && f.workers[w].kind == Creating && f.workers[w].cr == m.workers[w].cr
    ensures forall v | v in m.workers && v != w :: f.workers[v] == m.workers[v]
  {
    var list := ListingExists(m.store);
    f := NextKeeping(s0, m, List(w, list));
  }

  lemma OldIdIsChecked(s0: System, m: System, w: Worker) returns (f: System)
    requires ReachesKeeping(s0, m) && ValidStore(m.store) && w in m.workers && m.workers[w].Taken?
    requires m.workers[w].cr.externalName == "" && !m.workers[w].cr.deleting
    requires Having(m.store, m.workers[w].cr.spec.tenantID) == {}
    ensures ReachesKeeping(s0, f) && f.store == m.store && f.workers.Keys == m.workers.Keys
    ensures f.workers[w] == Checked(m.workers[w].cr)
    ensures forall v | v in m.workers && v != w :: f.workers[v] == m.workers[v]
  {
    var list := ListingExists(m.store);
    var cr := m.workers[w].cr;
    assert !Duplicated(cr, list) by {
      forall o | o in list ensures o.spec.tenantID != cr.spec.tenantID {
        assert o.uid !in Having(m.store, cr.spec.tenantID);
      }
    }
    f := NextKeeping(s0, m, Check(w, list));
  }

  /** What the one of two clashing tenants can do without the other. */
  ghost predicate OtherKept(s: System, f: System, x: Uid, y: Uid) {
    && x in s.store && y in s.store && x in f.store && y in f.store
    && f.store[x].spec == s.store[x].spec && f.store[y] == s.store[y]
    && forall w | w in s.workers && !s.workers[w].Idle? && s.workers[w].cr.uid == y ::
         w in f.workers && f.workers[w] == s.workers[w]
  }

  lemma ArmedIsNamed(s0: System, s: System, x: Uid, y: Uid) returns (f: System)
    requires ReachesKeeping(s0, s) && ValidStore(s.store)
    requires x in s.store && y in s.store && x != y && s.store[x].spec.tenantID == s.store[y].spec.tenantID
    requires Armed(s, x)
    ensures ReachesKeeping(s0, f) && ValidStore(f.store)
    ensures OtherKept(s, f, x, y) && f.store[x].externalName != ""
  {
    f := s;
    if s.store[x].externalName == "" {
      var w :| w in s.workers && ArmedBy(s.store[x], s.workers[w]);
      if s.workers[w].Taken? {
        f := GiveUp(s0, f, s.workers[w].cr.spec.tenantID);
        f := OldIdIsChecked(s0, f, w);
      }
      f := AfterCheck(s0, f, w, x);
    }
  }

  lemma AfterCheck(s0: System, m: System, w: Worker, x: Uid) returns (f: System)
    requires ReachesKeeping(s0, m) && ValidStore(m.store) && x in m.store
    requires w in m.workers && ArmedBy(m.store[x], m.workers[w]) && !m.workers[w].Taken?
    ensures ReachesKeeping(s0, f) && ValidStore(f.store) && JustNamed(m, f, w, x)
  {
    f := m;
    if f.workers[w].Checked? {
      f := CheckedIsListed(s0, f, w);
    }
    if !f.workers[w].Finished? {
      f := GetAndPut(s0, f, w);
    }
    f := FinishNames(s0, f, w, x);
  }

  lemma StillArmed(s: System, f: System, x: Uid, y: Uid)
    requires ValidStore(s.store) && y in s.store && Armed(s, y) && OtherKept(s, f, x, y)
    ensures Armed(f, y)
  {
    if s.store[y].externalName == "" {
      var w :| w in s.workers && ArmedBy(s.store[y], s.workers[w]);
      assert ArmedBy(f.store[y], f.workers[w]);
    }
  }

  /** The two can both be created. */
  lemma ClashComesToLight(s: System, x: Uid, y: Uid)
    requires ValidStore(s.store) && Clash(s, x, y)
    ensures !SafeFrom(s)
  {
    KeepingItself(s);
    var m := ArmedIsNamed(s, s, x, y);
    StillArmed(s, m, x, y);
    var f := ArmedIsNamed(s, m, y, x);
    assert !NamedUnique(f);
  }

  /** The exact line, for every state: ids of created tenants are unique in all that can follow, if and only if no
      two tenants with one id are both created or on their way. */
  lemma SafeExactly(s: System)
    requires KnownUids(s)
    ensures SafeFrom(s) <==> forall x, y :: !Clash(s, x, y)
  {
    if forall x, y :: !Clash(s, x, y) {
      forall f | ReachesKeeping(s, f) ensures NamedUnique(f) {
        var acts :| Behaves(s, acts) && KeepsIds(s, acts) && Final(s, acts) == f;
        RunKeepsUniqueInv(s, acts);
        NoClashNoTwins(f);
      }
    } else {
      var x, y :| Clash(s, x, y);
      ClashComesToLight(s, x, y);
    }
  }

  lemma NoClashNoTwins(s: System)
    requires forall x, y :: !Clash(s, x, y)
    ensures NamedUnique(s)
  {
    forall x, y | x in s.store && y in s.store && x != y && s.store[x].spec.tenantID == s.store[y].spec.tenantID
      ensures s.store[x].externalName == "" || s.store[y].externalName == "" {
      assert !Clash(s, x, y);
    }
  }

  /** So exactly these edits are safe: those after which the edited tenant clashes with no other. */
  lemma EditIsSafeExactly(s: System, u: Uid, spec: Parameters)
    requires UniqueInv(s) && u in s.store
    ensures SafeFrom(Do(s, Edit(u, spec))) <==> KeepsId(s, Edit(u, spec))
  {
    var s' := Do(s, Edit(u, spec));
    SafeExactly(s');
    if KeepsId(s, Edit(u, spec)) {
      EditKeepsUnique(s, u, spec);
    }
  }
}
