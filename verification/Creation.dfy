/** Serially: which tenants are created at all, and when the ids of the created ones are unique. */
module Creation {
  import opened Reconciler
  import opened Convergence

  // ---------------------------------------------------------------- unique ids

  /** No two created tenants have one id. */
  ghost predicate CreatedUnique(c: Cluster) {
    forall x, y | x in c.store && y in c.store && x != y && Named(c, x) && Named(c, y) ::
      c.store[x].spec.tenantID != c.store[y].spec.tenantID
  }

  ghost predicate Named(c: Cluster, u: Uid) {
    u in c.store && c.store[u].externalName != ""
  }

  lemma StepKeepsCreatedUnique(c: Cluster, step: Step)
    requires ValidStore(c.store) && ValidIo(step.io, c.store) && CreatedUnique(c)
    ensures CreatedUnique(Reconcile(c, step.uid, step.io).cluster)
  {
    StepFrame(c, step);
    var c', u := Reconcile(c, step.uid, step.io).cluster, step.uid;
    if Named(c', u) && !Named(c, u) {
      forall y | y in c'.store && y != u ensures c'.store[y].spec.tenantID != c'.store[u].spec.tenantID {
        DuplicatedIsRefused(c.store, step.io.check.value, c.store[u]);
        assert c.store[y].spec.tenantID != c.store[u].spec.tenantID;
      }
    }
  }

  lemma {:induction false} RunKeepsCreatedUnique(c: Cluster, steps: seq<Step>)
    requires ValidStore(c.store) && IsRun(c, steps) && CreatedUnique(c)
    ensures CreatedUnique(After(c, steps))
    decreases |steps|
  {
    if steps == [] {
    } else {
      StepFrame(c, steps[0]);
      StepKeepsCreatedUnique(c, steps[0]);
      RunKeepsCreatedUnique(Reconcile(c, steps[0].uid, steps[0].io).cluster, steps[1..]);
    }
  }

  /** Whatever is reconciled, ids of created tenants stay unique. */
  ghost predicate StaysUnique(c: Cluster) {
    forall steps | IsRun(c, steps) :: CreatedUnique(After(c, steps))
  }

  lemma UniqueStaysUnique(c: Cluster)
    requires ValidStore(c.store)
    ensures StaysUnique(c) <==> CreatedUnique(c)
  {
    assert IsRun(c, []) && After(c, []) == c;
    if CreatedUnique(c) {
      forall steps | IsRun(c, steps) ensures CreatedUnique(After(c, steps)) {
        RunKeepsCreatedUnique(c, steps);
      }
    }
  }

  ghost function Edited(c: Cluster, u: Uid, spec: Parameters): Cluster
    requires u in c.store
  {
    c.(store := c.store[u := c.store[u].(spec := spec)])
  }

  /** Exactly which edits of a spec are safe, whatever is reconciled afterwards: all but one that gives a created
      tenant the id of another created tenant. */
  lemma EditIsSafeExactly(c: Cluster, u: Uid, spec: Parameters)
    requires ValidStore(c.store) && CreatedUnique(c) && u in c.store
    ensures StaysUnique(Edited(c, u, spec)) <==>
            !(Named(c, u) && exists v :: v != u && Named(c, v) && c.store[v].spec.tenantID == spec.tenantID)
  {
    var c' := Edited(c, u, spec);
    UniqueStaysUnique(c');
    assert forall v | v in c.store :: Named(c', v) <==> Named(c, v);
    if Named(c, u) && exists v :: v != u && Named(c, v) && c.store[v].spec.tenantID == spec.tenantID {
      var v :| v != u && Named(c, v) && c.store[v].spec.tenantID == spec.tenantID;
      assert Named(c', v) && Named(c', u);
    }
  }

  // ---------------------------------------------------------------- who is created

  /** Nothing can create the tenant. */
  ghost predicate Stuck(c: Cluster, u: Uid)
    requires u in c.store
  {
    c.store[u].spec.tenantID == "" || c.settings.NotAMap? || Blocked(c, c.store[u])
  }

  lemma StuckStep(c: Cluster, step: Step, u: Uid)
    requires ValidStore(c.store) && ValidIo(step.io, c.store)
    requires u in c.store && !c.store[u].deleting && !Named(c, u) && Stuck(c, u)
    ensures var c' := Reconcile(c, step.uid, step.io).cluster;
            u in c'.store && !c'.store[u].deleting && !Named(c', u) && Stuck(c', u)
  {
    StepFrame(c, step);
    var c' := Reconcile(c, step.uid, step.io).cluster;
    if Blocked(c, c.store[u]) {
      var v :| v in c.store && v != c.store[u].uid && !c.store[v].deleting
               && c.store[v].spec.tenantID == c.store[u].spec.tenantID;
      assert v in c'.store && !c'.store[v].deleting;
      if step.uid == u {
        RefusedStep(c, step);
      }
    }
  }

  lemma {:induction false} StuckForGood(c: Cluster, steps: seq<Step>, u: Uid)
    requires ValidStore(c.store) && IsRun(c, steps)
    requires u in c.store && !c.store[u].deleting && !Named(c, u) && Stuck(c, u)
    ensures !Named(After(c, steps), u)
    decreases |steps|
  {
    if steps == [] {
    } else {
      StepFrame(c, steps[0]);
      StuckStep(c, steps[0], u);
      StuckForGood(Reconcile(c, steps[0].uid, steps[0].io).cluster, steps[1..], u);
    }
  }

  lemma FirstStep(c: Cluster, step: Step, more: seq<Step>)
    requires ValidIo(step.io, c.store) && IsRun(Reconcile(c, step.uid, step.io).cluster, more)
    ensures IsRun(c, [step] + more)
    ensures After(c, [step] + more) == After(Reconcile(c, step.uid, step.io).cluster, more)
  {
    assert ([step] + more)[1..] == more;
  }

  /** Rivals that are being deleted are removed first. */
  lemma {:induction false} CreatingRun(c: Cluster, u: Uid) returns (steps: seq<Step>)
    requires ValidStore(c.store) && u in c.store && !c.store[u].deleting && !Named(c, u) && !Stuck(c, u)
    ensures IsRun(c, steps) && Named(After(c, steps), u)
    decreases |c.store|
  {
    var t := c.store[u];
    var io := AllSucceed(c.store);
    if Refused(c, t) {
      var v :| v in c.store && v != t.uid && c.store[v].spec.tenantID == t.spec.tenantID;
      RivalLeaves(c, u, v, io);
      var more := CreatingRun(Reconcile(c, v, io).cluster, u);
      FirstStep(c, Step(v, io), more);
      steps := [Step(v, io)] + more;
    } else {
      DuplicatedIsRefused(c.store, io.check.value, t);
      FirstStep(c, Step(u, io), []);
      steps := [Step(u, io)] + [];
    }
  }

  lemma RivalLeaves(c: Cluster, u: Uid, v: Uid, io: Io)
    requires ValidStore(c.store) && u in c.store && !c.store[u].deleting && !Named(c, u) && !Stuck(c, u)
    requires v in c.store && v != u && c.store[v].deleting
    ensures var c' := Reconcile(c, v, io).cluster;
            && ValidStore(c'.store) && |c'.store| < |c.store|
            && u in c'.store && c'.store[u] == c.store[u] && !Stuck(c', u)
  {
    var c' := Reconcile(c, v, io).cluster;
    StepFrame(c, Step(v, io));
    assert c'.store == c.store - {v};
    Subset(c'.store.Keys, c.store.Keys, v);
    assert |c'.store.Keys| == |c'.store| && |c.store.Keys| == |c.store|;
  }

  ghost predicate CanBeCreated(c: Cluster, u: Uid) {
    exists steps :: IsRun(c, steps) && Named(After(c, steps), u)
  }

  /** A new tenant can be created exactly unless its id is empty, the payload is no map, or a tenant that is there
      to stay has its id. */
  lemma CreatedExactly(c: Cluster, u: Uid)
    requires ValidStore(c.store) && u in c.store && !c.store[u].deleting && c.store[u].externalName == ""
    ensures CanBeCreated(c, u) <==>
            !(c.store[u].spec.tenantID == "" || c.settings.NotAMap? || Blocked(c, c.store[u]))
  {
    if Stuck(c, u) {
      forall steps | IsRun(c, steps) ensures !Named(After(c, steps), u) {
        StuckForGood(c, steps, u);
      }
    } else {
      var steps := CreatingRun(c, u);
    }
  }
}
