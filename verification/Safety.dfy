/**
  Safety over whole runs: a profile never loses its finalizer, and so never
  disappears, while one of its components is in the store; nothing is created or
  updated for a profile under deletion; and the stored conditions stay coherent.
  A run interleaves reconciles, each with arbitrary call failures, with steps of
  the users and of other controllers.
 */
module Safety {
  import opened Prelude
  import opened Conditions
  import opened Cluster
  import opened Resources
  import opened ResourceFacts
  import opened PoolLookup
  import opened Controller

  // ----- invariants -----

  ghost predicate Held(s: Store) {
    s.profile.Some? && FINALIZER in s.profile.value.finalizers
  }

  /** No orphans: a component in the store is held by a profile that carries the finalizer. */
  ghost predicate NoOrphans(op: Operator, s: Store) {
    AnyComponent(op.name, s) ==> Held(s)
  }

  ghost predicate StatusCoherent(s: Store) {
    s.profile.Some? ==> StoredShape(s.profile.value.status.conditions)
  }

  ghost predicate UnderDeletion(s: Store) {
    s.profile.Some? && s.profile.value.deleting
  }

  // ----- the status shortcut -----

  /** On the conditions that runs can store, updateStatus leaves the server alone exactly when the
      stored status already is the requested one, up to timestamps. */
  lemma WriteSkippedIff(api: Api, op: Operator, w: World, p: Profile, conditions: seq<Condition>)
    requires StoredShape(p.status.conditions) && FourTypes(conditions)
    ensures UpdateStatus(api, op, w, p, conditions).world == w <==>
            && SameButForTime(p.status.conditions, conditions)
            && p.status.tuned.Some?
            && p.status.runtimeClass.Some?
  {
    ShortcutIsExact(p.status.conditions, conditions);
  }

  /** A status update that succeeds leaves the requested conditions, up to timestamps, and names the Tuned and
      the runtime class: as before if they were named, and else those that the operator applies. */
  lemma StatusNamesComponents(api: Api, op: Operator, w: World, p: Profile, conditions: seq<Condition>)
    requires w.store.profile == Some(p) && StoredShape(p.status.conditions) && FourTypes(conditions)
    requires UpdateStatus(api, op, w, p, conditions).out.None?
    ensures var t := UpdateStatus(api, op, w, p, conditions).world.store;
            var tuned, runtimeClass := KeyOf(op, Tuned), KeyOf(op, RuntimeClass);
            && t == w.store.(profile := t.profile)
            && t.profile.Some?
            && t.profile.value == p.(status := t.profile.value.status)
            && var status := t.profile.value.status;
               && SameButForTime(status.conditions, conditions)
               && status.tuned == Some(if p.status.tuned.Some? then p.status.tuned.value
                                       else tuned.namespace + "/" + tuned.name)
               && status.runtimeClass == Some(if p.status.runtimeClass.Some? then p.status.runtimeClass.value
                                              else runtimeClass.name)
  {
    ShortcutIsExact(p.status.conditions, conditions);
  }

  // ----- what the parts of a reconcile may change -----

  /** Only objects changed. */
  ghost predicate KeepsProfile(s: Store, t: Store) {
    t == s.(objects := t.objects)
  }

  /** Only the status changed, to what one of the constructors builds. */
  ghost predicate KeepsAllButStatus(s: Store, t: Store) {
    || t == s
    || (&& s.profile.Some?
        && t == s.(profile := t.profile)
        && t.profile.Some?
        && t.profile.value == s.profile.value.(status := t.profile.value.status)
        && Coherent(t.profile.value.status.conditions))
  }

  lemma UpdateStatusChanges(api: Api, op: Operator, w: World, p: Profile, conditions: seq<Condition>)
    requires Coherent(conditions)
    ensures KeepsAllButStatus(w.store, UpdateStatus(api, op, w, p, conditions).world.store)
  {
  }

  lemma ReportChanges(api: Api, op: Operator, now: int, w: World, p: Profile, reason: string, message: string,
                      outcome: Outcome)
    ensures KeepsAllButStatus(w.store, Report(api, op, now, w, p, reason, message, outcome).world.store)
  {
    ConstructorsAreCoherent(reason, message, now);
    UpdateStatusChanges(api, op, w, p, DegradedConditions(reason, message, now));
  }

  lemma CheckedReadsOnly(api: Api, op: Operator, now: int, w: World, pool: Pool)
    ensures Checked(api, op, now, w, pool).world.store == w.store
    ensures Checked(api, op, now, w, pool).world.writes == w.writes
    ensures Checked(api, op, now, w, pool).out.Unhealthy? ==> Coherent(Checked(api, op, now, w, pool).out.conditions)
  {
  }

  lemma AfterApplyChanges(api: Api, op: Operator, now: int, w: World, p: Profile, pool: Pool, applied: Applied)
    ensures KeepsAllButStatus(w.store, AfterApply(api, op, now, w, p, pool, applied).world.store)
  {
    CheckedReadsOnly(api, op, now, w, pool);
    var checked := Checked(api, op, now, w, pool);
    match checked.out
    case Unreadable(reason, t) => ReportChanges(api, op, now, checked.world, p, reason, t, Error(t));
    case Unhealthy(conditions) => UpdateStatusChanges(api, op, checked.world, p, conditions);
    case Healthy => UpdateStatusChanges(api, op, checked.world, p, AvailableConditions(now));
  }

  lemma CarryOutKeepsProfile(api: Api, op: Operator, w: World, kind: Kind, plan: Plan)
    ensures KeepsProfile(w.store, CarryOut(api, op, w, kind, plan).world.store)
  {
    if plan.Write? && kind.Tuned? {
      RemovalKeepsProfile(api, w, KeyOf(op, Tuned).name, op.name);
    }
  }

  lemma RemovalKeepsProfile(api: Api, w: World, name: string, profileName: string)
    ensures KeepsProfile(w.store, RemoveOutdatedTuned(api, w, name, profileName).world.store)
  {
    var listed := ListTuned(api, w);
    if listed.out.Found? {
      DeleteAllRemoves(api, listed.world, Outdated(listed.out.value, name, profileName));
    }
  }

  lemma WrittenKeepsProfile(api: Api, op: Operator, w: World, ps: Plans)
    requires ps.Plans?
    ensures KeepsProfile(w.store, Written(api, op, w, ps).world.store)
  {
    var mc := CarryOut(api, op, w, MachineConfig, ps.mc);
    CarryOutKeepsProfile(api, op, w, MachineConfig, ps.mc);
    var tuned := CarryOut(api, op, mc.world, Tuned, ps.tuned);
    CarryOutKeepsProfile(api, op, mc.world, Tuned, ps.tuned);
    var kc := CarryOut(api, op, tuned.world, KubeletConfig, ps.kc);
    CarryOutKeepsProfile(api, op, tuned.world, KubeletConfig, ps.kc);
    CarryOutKeepsProfile(api, op, kc.world, RuntimeClass, ps.rc);
  }

  lemma PlannedReadsOnly(api: Api, op: Operator, w: World, ms: Manifests)
    ensures Planned(api, op, w, ms).world.store == w.store
    ensures Planned(api, op, w, ms).world.writes == w.writes
  {
    var mc := GetMutated(api, w, KeyOf(op, MachineConfig), Desired(op, ms.mc));
    MutatedReadsOnly(api, w, KeyOf(op, MachineConfig), Desired(op, ms.mc));
    var kc := GetMutated(api, mc.world, KeyOf(op, KubeletConfig), Desired(op, ms.kc));
    MutatedReadsOnly(api, mc.world, KeyOf(op, KubeletConfig), Desired(op, ms.kc));
    var tuned := GetMutated(api, kc.world, KeyOf(op, Tuned), Desired(op, ms.tuned));
    MutatedReadsOnly(api, kc.world, KeyOf(op, Tuned), Desired(op, ms.tuned));
    MutatedReadsOnly(api, tuned.world, KeyOf(op, RuntimeClass), Desired(op, ms.rc));
  }

  lemma MutatedReadsOnly(api: Api, w: World, key: Key, desired: Obj)
    ensures GetMutated(api, w, key, desired).world.store == w.store
    ensures GetMutated(api, w, key, desired).world.writes == w.writes
  {
  }

  lemma ApplyKeepsProfile(api: Api, op: Operator, w: World, p: Profile, pool: Pool)
    ensures KeepsProfile(w.store, Apply(api, op, w, p, pool).world.store)
  {
    if !Paused(p.input) && op.generate(p.input, pool).Success? {
      var planned := Planned(api, op, w, op.generate(p.input, pool).value);
      PlannedReadsOnly(api, op, w, op.generate(p.input, pool).value);
      if planned.out.Plans? {
        WrittenKeepsProfile(api, op, planned.world, planned.out);
      }
    }
  }

  /** The profile keeps everything but its status, which stays as it was or becomes coherent. */
  ghost predicate LiveEffect(s: Store, t: Store) {
    && s.profile.Some?
    && t == s.(objects := t.objects, profile := t.profile)
    && t.profile.Some?
    && t.profile.value == s.profile.value.(status := t.profile.value.status)
    && (t.profile.value.status == s.profile.value.status || Coherent(t.profile.value.status.conditions))
  }

  lemma ReconcileLiveEffect(api: Api, op: Operator, now: int, w: World, p: Profile)
    requires w.store.profile == Some(p)
    ensures LiveEffect(w.store, ReconcileLive(api, op, now, w, p).world.store)
  {
    var listed := ListPools(api, w);
    var found := if listed.out.Found? then FindPool(op.matches, listed.out.value, p.input.nodeSelector)
                 else if listed.out.Failed? then Failure(listed.out.text) else Failure(NO_POOL);
    if found.Failure? {
      ReportChanges(api, op, now, listed.world, p, POOL_NOT_FOUND, found.text, Done);
    } else if op.validate(p.input, found.value).Some? {
      ReportChanges(api, op, now, listed.world, p, BAD_LABELS, op.validate(p.input, found.value).value, Done);
    } else {
      var pool := found.value;
      var deprecated := DeleteIfPresent(api, listed.world, DeprecatedKey(op.name));
      DeleteIfPresentRemoves(api, listed.world, DeprecatedKey(op.name));
      if deprecated.out.None? {
        var applied := Apply(api, op, deprecated.world, p, pool);
        ApplyKeepsProfile(api, op, deprecated.world, p, pool);
        match applied.out
        case Stopped(Panic) =>
        case Stopped(Fault(t)) => ReportChanges(api, op, now, applied.world, p, CREATION_FAILED, t, Error(t));
        case _ => AfterApplyChanges(api, op, now, applied.world, p, pool, applied.out);
      }
    }
  }

  // ----- reconciling a profile under deletion -----

  /** isComponentsExist answers no only when every key is absent. */
  lemma {:induction false} AnyExistsIsSafe(api: Api, w: World, keys: seq<Key>)
    ensures AnyExists(api, w, keys).world.store == w.store
    ensures !AnyExists(api, w, keys).out ==> forall k | k in keys :: k !in w.store.objects
    decreases |keys|
  {
    if keys != [] {
      var got := GetObject(api, w, keys[0]);
      AnyExistsIsSafe(api, got.world, keys[1..]);
      assert keys == [keys[0]] + keys[1..];
    }
  }

  lemma ComponentKeysAreAll(op: Operator)
    ensures forall kind :: KeyOf(op, kind) in ComponentKeys(op)
  {
    var keys := ComponentKeys(op);
    forall kind
      ensures KeyOf(op, kind) in keys
    {
      match kind
      case Tuned => assert keys[0] == KeyOf(op, kind);
      case KubeletConfig => assert keys[1] == KeyOf(op, kind);
      case RuntimeClass => assert keys[2] == KeyOf(op, kind);
      case MachineConfig => assert keys[3] == KeyOf(op, kind);
    }
  }

  lemma NoneOfTheKeys(op: Operator, s: Store)
    requires forall k | k in ComponentKeys(op) :: k !in s.objects
    ensures !AnyComponent(op.name, s)
  {
    ComponentKeysAreAll(op);
    forall kind
      ensures ComponentKey(op.name, kind) !in s.objects
    {
      assert KeyOf(op, kind) in ComponentKeys(op);
    }
  }

  /** Adding the finalizer touches the profile only; its status may become the progressing one. */
  lemma AddFinalizerEffect(api: Api, now: int, w: World, p: Profile)
    requires w.store.profile == Some(p)
    ensures var t := AddFinalizer(api, now, w, p).world.store;
            && t == w.store.(profile := t.profile)
            && t.profile.Some?
            && t.profile.value == p.(finalizers := t.profile.value.finalizers, status := t.profile.value.status)
            && (t.profile.value.finalizers == p.finalizers || t.profile.value.finalizers == p.finalizers + [FINALIZER])
            && (t.profile.value.status == p.status || Coherent(t.profile.value.status.conditions))
  {
    assert Coherent(StartingConditions(now));
  }

  /** Objects are only removed or marked; the finalizers change only once no component is left. */
  lemma ReconcileDeletingEffect(api: Api, op: Operator, now: int, w: World, p: Profile)
    requires w.store.profile == Some(p) && p.deleting
    ensures var t := ReconcileDeleting(api, op, now, w, p).world.store;
            && OnlyRemoved(w.store.objects, t.objects)
            && (t.profile == w.store.profile || !AnyComponent(op.name, t))
            && (t.profile.Some? ==>
                  && t.profile.value.deleting
                  && (t.profile.value.status == p.status || Coherent(t.profile.value.status.conditions)))
  {
    var keys := ComponentKeys(op);
    var deleted := DeleteAll(api, w, keys);
    DeleteAllRemoves(api, w, keys);
    if deleted.out.None? {
      var checked := AnyExists(api, deleted.world, keys);
      AnyExistsIsSafe(api, deleted.world, keys);
      if !checked.out {
        NoneOfTheKeys(op, deleted.world.store);
        if FINALIZER !in p.finalizers {
          AddFinalizerEffect(api, now, checked.world, p);
        }
      }
    }
  }

  // ----- one reconcile -----

  /** One reconcile, whatever calls fail: it leaves no orphan, drops the finalizer only in a store
      without components, and under deletion creates and updates nothing. */
  lemma ReconcileIsSafe(api: Api, op: Operator, now: int, w: World)
    ensures var s, t := w.store, Reconcile(api, op, now, w).world.store;
            && (NoOrphans(op, s) ==> NoOrphans(op, t))
            && (StatusCoherent(s) ==> StatusCoherent(t))
            && (Held(s) && !Held(t) ==> UnderDeletion(s) && !AnyComponent(op.name, t))
            && (UnderDeletion(s) ==> OnlyRemoved(s.objects, t.objects))
  {
    var s := w.store;
    var got := GetProfile(api, w);
    if got.out.Found? {
      var p := got.out.value;
      if p.deleting {
        ReconcileDeletingEffect(api, op, now, got.world, p);
      } else if FINALIZER !in p.finalizers {
        AddFinalizerEffect(api, now, got.world, p);
      } else {
        ReconcileLiveEffect(api, op, now, got.world, p);
      }
    }
  }

  // ----- runs -----

  ghost predicate ReconcileStep(op: Operator, s: Store, t: Store) {
    exists api: Api, now: int :: t == Reconcile(api, op, now, World(s, 0, 0)).world.store
  }

  /** A step of anyone else. Users create, edit and delete the profile; other controllers pin, unpin,
      change and finally remove objects; pools and nodes change at will. Nobody else creates objects
      under the operator's names, takes its finalizer away, or writes its status, and a profile
      disappears only when our finalizer is not on it. */
  ghost predicate EnvironmentStep(op: Operator, s: Store, t: Store) {
    && (forall kind :: KeyOf(op, kind) in t.objects ==> KeyOf(op, kind) in s.objects)
    && (s.profile.None? && t.profile.Some? ==> !t.profile.value.deleting && t.profile.value.status.conditions == [])
    && (s.profile.Some? && t.profile.None? ==> FINALIZER !in s.profile.value.finalizers)
    && (s.profile.Some? && t.profile.Some? ==>
          && t.profile.value.status == s.profile.value.status
          && (FINALIZER in s.profile.value.finalizers ==> FINALIZER in t.profile.value.finalizers)
          && (s.profile.value.deleting ==> t.profile.value.deleting))
  }

  ghost predicate Next(op: Operator, s: Store, t: Store) {
    ReconcileStep(op, s, t) || EnvironmentStep(op, s, t)
  }

  /** Before the operator has acted: no components, and a profile without conditions. */
  ghost predicate Initial(op: Operator, s: Store) {
    && !AnyComponent(op.name, s)
    && (s.profile.Some? ==> s.profile.value.status.conditions == [])
  }

  ghost predicate Run(op: Operator, trace: seq<Store>) {
    && trace != []
    && Initial(op, trace[0])
    && forall i, j | 0 <= i < j < |trace| && j == i + 1 :: Next(op, trace[i], trace[j])
  }

  lemma StepIsSafe(op: Operator, s: Store, t: Store)
    requires Next(op, s, t)
    requires NoOrphans(op, s) && StatusCoherent(s)
    ensures NoOrphans(op, t) && StatusCoherent(t)
    ensures UnderDeletion(s) ==> forall kind :: KeyOf(op, kind) in t.objects ==> KeyOf(op, kind) in s.objects
    ensures Held(s) && !Held(t) ==> UnderDeletion(s) && !AnyComponent(op.name, t)
  {
    if ReconcileStep(op, s, t) {
      var api: Api, now: int :| t == Reconcile(api, op, now, World(s, 0, 0)).world.store;
      ReconcileIsSafe(api, op, now, World(s, 0, 0));
    } else {
      if AnyComponent(op.name, t) {
        var kind :| ComponentKey(op.name, kind) in t.objects;
        assert KeyOf(op, kind) in t.objects;
        assert ComponentKey(op.name, kind) in s.objects;
      }
    }
  }

  /** In every state of every run, each component is held by a profile with the finalizer and the
      stored conditions are empty or coherent. */
  lemma {:induction false} RunsAreSafe(op: Operator, trace: seq<Store>, i: nat)
    requires Run(op, trace) && i < |trace|
    ensures NoOrphans(op, trace[i]) && StatusCoherent(trace[i])
  {
    if i > 0 {
      RunsAreSafe(op, trace, i - 1);
      StepIsSafe(op, trace[i - 1], trace[i]);
    }
  }

  /** What any step of a run does to the finalizer and to the components. */
  lemma StepOfRun(op: Operator, trace: seq<Store>, j: nat)
    requires Run(op, trace) && 0 < j < |trace|
    ensures UnderDeletion(trace[j - 1]) ==>
              forall kind :: KeyOf(op, kind) in trace[j].objects ==> KeyOf(op, kind) in trace[j - 1].objects
    ensures Held(trace[j - 1]) && !Held(trace[j]) ==> UnderDeletion(trace[j - 1]) && !AnyComponent(op.name, trace[j])
  {
    RunsAreSafe(op, trace, j - 1);
    StepIsSafe(op, trace[j - 1], trace[j]);
  }

  /** While a deletion timestamp is set, no component ever comes back. */
  lemma {:induction false} DeletionOnlyShrinks(op: Operator, trace: seq<Store>, i: nat, j: nat, kind: Kind)
    requires Run(op, trace) && i <= j < |trace|
    requires forall m | i <= m < j :: UnderDeletion(trace[m])
    requires KeyOf(op, kind) in trace[j].objects
    ensures KeyOf(op, kind) in trace[i].objects
    decreases j
  {
    if i < j {
      StepOfRun(op, trace, j);
      DeletionOnlyShrinks(op, trace, i, j - 1, kind);
    }
  }

  /** A profile that carried the finalizer and later does not, or is gone, has passed through a
      deletion step that ended without components. */
  lemma {:induction false} ReleaseNeedsCleanup(op: Operator, trace: seq<Store>, i: nat, j: nat) returns (m: nat)
    requires Run(op, trace) && i <= j < |trace|
    requires Held(trace[i]) && !Held(trace[j])
    ensures i < m <= j && UnderDeletion(trace[m - 1]) && Held(trace[m - 1]) && !Held(trace[m])
            && !AnyComponent(op.name, trace[m])
    decreases j
  {
    assert i != j;
    if Held(trace[j - 1]) {
      StepOfRun(op, trace, j);
      m := j;
    } else {
      m := ReleaseNeedsCleanup(op, trace, i, j - 1);
    }
  }

  // ----- the first reconcile -----

  /** The first reconcile of a profile adds the finalizer behind those of others, and nothing else to a server
      that keeps the status apart; to any other also the conditions of a starting deployment. */
  lemma FirstReconcile(api: Api, op: Operator, now: int, w: World, p: Profile)
    requires NoFaults(api) && w.store.profile == Some(p) && !p.deleting && FINALIZER !in p.finalizers
    ensures var r := Reconcile(api, op, now, w);
            && r.out == Done
            && r.world.store == w.store.(profile := r.world.store.profile)
            && r.world.store.profile.Some?
            && var q := r.world.store.profile.value;
               && q == p.(finalizers := p.finalizers + ["foreground-deletion"], status := q.status)
               && (api.statusSubresource ==> q.status == p.status)
               && (!api.statusSubresource ==>
                     && q.status == p.status.(conditions := q.status.conditions)
                     && SaysProgressing(q.status.conditions, "DeploymentStarting", "Deployment is starting"))
  {
    assert api.fate(w.calls) == Served && api.fate(w.calls + 1) == Served;
    ConstructorsSay(StartingConditions(now), "DeploymentStarting", "Deployment is starting", now);
  }

  // ----- deletion makes progress -----

  lemma {:induction false} DeleteAllSucceeds(api: Api, w: World, keys: seq<Key>)
    requires NoFaults(api)
    ensures DeleteAll(api, w, keys).out.None?
    decreases |keys|
  {
    if keys != [] {
      assert api.fate(w.calls) == Served && api.fate(w.calls + 1) == Served;
      DeleteAllSucceeds(api, DeleteIfPresent(api, w, keys[0]).world, keys[1..]);
    }
  }

  lemma {:induction false} AnyExistsExact(api: Api, w: World, keys: seq<Key>)
    requires NoFaults(api)
    ensures AnyExists(api, w, keys).out <==> exists k | k in keys :: k in w.store.objects
    decreases |keys|
  {
    if keys != [] {
      assert api.fate(w.calls) == Served;
      assert keys == [keys[0]] + keys[1..];
      AnyExistsExact(api, GetObject(api, w, keys[0]).world, keys[1..]);
    }
  }

  /** A component is pinned, so that deleting it only marks it. */
  ghost predicate Stuck(op: Operator, objects: map<Key, Obj>) {
    exists k | k in ComponentKeys(op) && k in objects :: objects[k].pinned
  }

  ghost function ComponentsMarked(op: Operator, objects: map<Key, Obj>): map<Key, Obj> {
    Marked(objects, set k | k in ComponentKeys(op))
  }

  lemma StuckIffLeft(op: Operator, objects: map<Key, Obj>)
    ensures Stuck(op, objects) <==> exists k | k in ComponentKeys(op) :: k in ComponentsMarked(op, objects)
  {
    var after := ComponentsMarked(op, objects);
    if Stuck(op, objects) {
      var k :| k in ComponentKeys(op) && k in objects && objects[k].pinned;
      assert k in after;
    }
  }

  /** The first part of a deleting reconcile without call failures: the components are deleted once, and
      are found to exist exactly when one of them is stuck. */
  lemma CleanupExact(api: Api, op: Operator, w: World)
    requires NoFaults(api)
    ensures var deleted := DeleteAll(api, w, ComponentKeys(op));
            var checked := AnyExists(api, deleted.world, ComponentKeys(op));
            && deleted.out.None?
            && checked.world.store == w.store.(objects := ComponentsMarked(op, w.store.objects))
            && checked.out == Stuck(op, w.store.objects)
  {
    var keys := ComponentKeys(op);
    var deleted := DeleteAll(api, w, keys);
    DeleteAllSucceeds(api, w, keys);
    DeleteAllExact(api, w, keys);
    AnyExistsExact(api, deleted.world, keys);
    AnyExistsIsSafe(api, deleted.world, keys);
    StuckIffLeft(op, w.store.objects);
  }

  /** Whatever calls fail, the components are deleted one after the other, Tuned, kubelet config, runtime class
      and machine config, so that at any time a first part of them is deleted and the rest untouched. */
  lemma DeletedInOrder(api: Api, op: Operator, w: World, p: Profile) returns (j: nat)
    ensures j <= 4
    ensures var keys := [KeyOf(op, Tuned), KeyOf(op, KubeletConfig), KeyOf(op, RuntimeClass), KeyOf(op, MachineConfig)];
            ReconcileDeleting(api, op, 0, w, p).world.store.objects ==
            Marked(w.store.objects, set k | k in keys[..j])
  {
    j := DeleteAllPrefix(api, w, ComponentKeys(op));
    var deleted := DeleteAll(api, w, ComponentKeys(op));
    AnyExistsIsSafe(api, deleted.world, ComponentKeys(op));
  }

  /** Without call failures, one reconcile of a profile under deletion removes every component that is
      not pinned. It asks to be called again exactly when a pinned one is left; otherwise it takes the
      finalizer off, and the profile goes with its last finalizer. */
  lemma DeletionProgress(api: Api, op: Operator, now: int, w: World, p: Profile)
    requires NoFaults(api)
    requires w.store.profile == Some(p) && p.deleting && FINALIZER in p.finalizers
    ensures var r := Reconcile(api, op, now, w);
            var stuck, rest := Stuck(op, w.store.objects), Without(p.finalizers, FINALIZER);
            && r.out == (if stuck then RequeueAfter(10) else Done)
            && r.world.store == w.store.(
                 objects := ComponentsMarked(op, w.store.objects),
                 profile := if stuck then Some(p) else if rest == [] then None else Some(p.(finalizers := rest)))
  {
    assert api.fate(w.calls) == Served;
    var w1 := GetProfile(api, w).world;
    CleanupExact(api, op, w1);
    var checked := AnyExists(api, DeleteAll(api, w1, ComponentKeys(op)).world, ComponentKeys(op));
    assert api.fate(checked.world.calls) == Served;
  }

  /** The profile after our finalizer was added to it, with the conditions that a server without the
      status subresource takes over. */
  function WithFinalizer(api: Api, now: int, p: Profile): Profile {
    p.(finalizers := p.finalizers + [FINALIZER],
       status := if api.statusSubresource then p.status else p.status.(conditions := StartingConditions(now)))
  }

  lemma AddingTheFinalizer(api: Api, now: int, w: World, p: Profile)
    requires NoFaults(api)
    requires w.store.profile == Some(p) && p.deleting && FINALIZER !in p.finalizers
    ensures var r := AddFinalizer(api, now, w, p);
            && r.out == (if api.strictFinalizers then Error(NO_NEW_FINALIZERS) else Done)
            && r.world.store ==
               if api.strictFinalizers then w.store else w.store.(profile := Some(WithFinalizer(api, now, p)))
  {
    assert api.fate(w.calls) == Served;
    assert FINALIZER in p.finalizers + [FINALIZER];
  }

  /** The same for a profile that lacks our finalizer: the components are cleaned up alike, and then the
      finalizer is added, or the server refuses it and the reconcile ends in an error. The profile is
      left alone exactly when a component is stuck or the server refuses. */
  lemma DeletionWithoutFinalizer(api: Api, op: Operator, now: int, w: World, p: Profile)
    requires NoFaults(api)
    requires w.store.profile == Some(p) && p.deleting && FINALIZER !in p.finalizers
    ensures var r, stuck := Reconcile(api, op, now, w), Stuck(op, w.store.objects);
            && r.out ==
               (if stuck then RequeueAfter(10) else if api.strictFinalizers then Error(NO_NEW_FINALIZERS) else Done)
            && r.world.store == w.store.(
                 objects := ComponentsMarked(op, w.store.objects),
                 profile := Some(if stuck || api.strictFinalizers then p else WithFinalizer(api, now, p)))
            && (r.world.store.profile == w.store.profile <==> stuck || api.strictFinalizers)
  {
    assert api.fate(w.calls) == Served;
    var w1 := GetProfile(api, w).world;
    CleanupExact(api, op, w1);
    var checked := AnyExists(api, DeleteAll(api, w1, ComponentKeys(op)).world, ComponentKeys(op));
    AddingTheFinalizer(api, now, checked.world, p);
    assert |WithFinalizer(api, now, p).finalizers| == |p.finalizers| + 1;
  }

  /** Marking twice is marking once. */
  lemma MarkedAgain(op: Operator, objects: map<Key, Obj>)
    ensures ComponentsMarked(op, ComponentsMarked(op, objects)) == ComponentsMarked(op, objects)
    ensures Stuck(op, ComponentsMarked(op, objects)) <==> Stuck(op, objects)
  {
    StuckIffLeft(op, objects);
    StuckIffLeft(op, ComponentsMarked(op, objects));
  }

  /** On a server that refuses new finalizers, such a profile stays as it is and so does everything else
      after the first reconcile, but every reconcile with no component left to wait for is an error. */
  lemma RefusedForever(api: Api, api': Api, op: Operator, now: int, later: int, w: World, p: Profile)
    requires NoFaults(api) && NoFaults(api') && api.strictFinalizers && api'.strictFinalizers
    requires w.store.profile == Some(p) && p.deleting && FINALIZER !in p.finalizers
    ensures var t := Reconcile(api, op, now, w).world.store;
            && Reconcile(api', op, later, World(t, 0, 0)).world.store == t
            && Reconcile(api', op, later, World(t, 0, 0)).out ==
               (if Stuck(op, w.store.objects) then RequeueAfter(10) else Error(NO_NEW_FINALIZERS))
  {
    var t := Reconcile(api, op, now, w).world.store;
    DeletionWithoutFinalizer(api, op, now, w, p);
    DeletionWithoutFinalizer(api', op, later, World(t, 0, 0), p);
    MarkedAgain(op, w.store.objects);
  }

  /** On any other server, such a profile is not left alone while another finalizer keeps it: two
      reconciles without a stuck component add our finalizer and take it off again, so the finalizers
      never settle, nor does the store. */
  lemma DeletionWithoutFinalizerOscillates(api: Api, api': Api, op: Operator, now: int, later: int, w: World,
                                           p: Profile)
    requires NoFaults(api) && NoFaults(api') && !api.strictFinalizers
    requires w.store.profile == Some(p) && p.deleting && FINALIZER !in p.finalizers && p.finalizers != []
    requires !Stuck(op, w.store.objects)
    ensures var t := Reconcile(api, op, now, w).world.store;
            var u := Reconcile(api', op, later, World(t, 0, 0)).world.store;
            && t == w.store.(objects := ComponentsMarked(op, w.store.objects),
                             profile := Some(WithFinalizer(api, now, p)))
            && u == t.(profile := Some(WithFinalizer(api, now, p).(finalizers := p.finalizers)))
            && (api.statusSubresource ==> u.profile == w.store.profile)
  {
    var t := Reconcile(api, op, now, w).world.store;
    var q := WithFinalizer(api, now, p);
    DeletionWithoutFinalizer(api, op, now, w, p);
    MarkedAgain(op, w.store.objects);
    assert FINALIZER in q.finalizers;
    WithoutAppended(p.finalizers, FINALIZER);
    DeletionProgress(api', op, later, World(t, 0, 0), q);
  }

  lemma {:induction false} WithoutAppended(fs: seq<string>, f: string)
    requires f !in fs
    ensures Without(fs + [f], f) == fs
  {
    assert (fs + [f])[..|fs|] == fs;
    WithoutAbsent(fs, f);
  }

  lemma {:induction false} WithoutAbsent(fs: seq<string>, f: string)
    requires f !in fs
    ensures Without(fs, f) == fs
  {
    if fs != [] {
      var n := |fs| - 1;
      assert fs == fs[..n] + [fs[n]];
      WithoutAbsent(fs[..n], f);
    }
  }
}
