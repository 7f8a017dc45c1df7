/**
  What the stored status says once the controller has settled: it names the first
  problem there is, in the order in which a reconcile looks for them, or says that
  the profile is available when there is none.
 */
module StatusTruth {
  import opened Prelude
  import opened Conditions
  import opened Cluster
  import opened Resources
  import opened ResourceFacts
  import opened PoolLookup
  import opened Controller
  import Safety
  import opened Quiescence

  datatype Problem = Problem(reason: string, message: string)

  /** What the stored conditions tell, type by type. */
  ghost predicate Tells(cs: seq<Condition>, problem: Option<Problem>) {
    match problem
    case None => SaysAvailable(cs)
    case Some(p) => SaysDegraded(cs, p.reason, p.message)
  }

  function ConditionsFor(problem: Option<Problem>, now: int): seq<Condition> {
    if problem.None? then AvailableConditions(now)
    else DegradedConditions(problem.value.reason, problem.value.message, now)
  }

  /** The components cannot be applied to these objects. */
  function ApplyProblem(op: Operator, objects: map<Key, Obj>, input: ProfileInput, pool: Pool): Option<Fault> {
    if IsPaused(input.annotations) then None
    else match op.generate(input, pool)
      case Failure(t) => Some(Fault(t))
      case Success(ms) =>
        var plans := PlansOf(op, objects, ms);
        if plans.Blocked? then Some(plans.fault) else None
  }

  function KubeletProblem(op: Operator, objects: map<Key, Obj>): Option<Problem> {
    var key := KeyOf(op, KubeletConfig);
    if key !in objects || Latest(objects[key].conditions).None? then None
    else
      var latest := Latest(objects[key].conditions).value;
      if latest.failure then Some(Problem("KubeletConfig failure", latest.message)) else None
  }

  /** Kubelet before pool before Tuned. */
  function HealthProblem(op: Operator, s: Store, pool: Pool): Option<Problem> {
    var kubelet, report := KubeletProblem(op, s.objects), PoolReport(pool.name, pool.conditions);
    if kubelet.Some? then kubelet
    else if report != "" then Some(Problem("MCPDegraded", report))
    else if s.tunedReport != "" then Some(Problem("TunedProfileDegraded", s.tunedReport))
    else None
  }

  /** The first problem of a store; a panic leaves no trace in the status. */
  function FirstProblem(op: Operator, s: Store, input: ProfileInput): Option<Problem> {
    match FindPool(op.matches, s.pools, input.nodeSelector)
    case Failure(t) => Some(Problem("GettingMachineConfigPoolFailed", t))
    case Success(pool) =>
      var invalid := op.validate(input, pool);
      if invalid.Some? then Some(Problem("BadMachineConfigLabels", invalid.value))
      else match ApplyProblem(op, s.objects, input, pool)
        case Some(Fault(t)) => Some(Problem("ComponentCreationFailed", t))
        case _ => HealthProblem(op, s, pool)
  }

  /** A status update leaves the stored conditions equal to the requested ones, up to timestamps. */
  lemma UpdateStores(api: Api, op: Operator, w: World, p: Profile, conditions: seq<Condition>)
    requires Quiet(api) && w.store.profile == Some(p)
    requires StoredShape(p.status.conditions) && FourTypes(conditions)
    ensures var t := UpdateStatus(api, op, w, p, conditions).world.store;
            t.profile.Some? && SameButForTime(t.profile.value.status.conditions, conditions)
  {
    QuietCall(api, w.calls);
    ShortcutIsExact(p.status.conditions, conditions);
  }

  lemma CheckedFindsTheProblem(api: Api, op: Operator, now: int, w: World, pool: Pool)
    requires Quiet(api)
    ensures var problem := HealthProblem(op, w.store, pool);
            Checked(api, op, now, w, pool).out ==
            if problem.None? then Healthy else Unhealthy(ConditionsFor(problem, now))
  {
    QuietCall(api, w.calls);
    QuietCall(api, w.calls + 1);
    QuietCall(api, w.calls + 2);
  }

  lemma ApplyFindsTheProblem(api: Api, op: Operator, w: World, p: Profile, pool: Pool)
    requires Quiet(api)
    ensures var problem, applied := ApplyProblem(op, w.store.objects, p.input, pool), Apply(api, op, w, p, pool);
            if problem.Some? then applied.out == Stopped(problem.value) && applied.world.store == w.store
            else !applied.out.Stopped?
  {
    if !IsPaused(p.input.annotations) && op.generate(p.input, pool).Success? {
      var ms := op.generate(p.input, pool).value;
      QuietPlanned(api, op, w, ms);
      Safety.PlannedReadsOnly(api, op, w, ms);
      var planned := Planned(api, op, w, ms);
      if planned.out.Plans? {
        QuietWritten(api, op, planned.world, planned.out);
      }
    }
  }

  lemma AfterApplyStores(api: Api, op: Operator, now: int, w: World, p: Profile, pool: Pool, applied: Applied)
    requires Quiet(api) && w.store.profile == Some(p) && StoredShape(p.status.conditions)
    ensures var t := AfterApply(api, op, now, w, p, pool, applied).world.store;
            && t.profile.Some?
            && SameButForTime(t.profile.value.status.conditions, ConditionsFor(HealthProblem(op, w.store, pool), now))
  {
    CheckedFindsTheProblem(api, op, now, w, pool);
    Safety.CheckedReadsOnly(api, op, now, w, pool);
    UpdateStores(api, op, Checked(api, op, now, w, pool).world, p,
                 ConditionsFor(HealthProblem(op, w.store, pool), now));
  }

  lemma HealthWhenSettled(api: Api, op: Operator, now: int, w: World, s: Store, p: Profile, pool: Pool,
                          applied: Applied)
    requires Quiet(api) && w.store.profile == s.profile == Some(p) && StoredShape(p.status.conditions)
    requires AfterApply(api, op, now, w, p, pool, applied).world.store == s
    ensures SameButForTime(p.status.conditions, ConditionsFor(HealthProblem(op, s, pool), now))
  {
    Safety.AfterApplyChanges(api, op, now, w, p, pool, applied);
    AfterApplyStores(api, op, now, w, p, pool, applied);
  }

  /** Deleting the deprecated machine config is no matter to the plans. */
  lemma DeprecatedApart(api: Api, op: Operator, w: World, ms: Manifests)
    ensures PlansOf(op, DeleteIfPresent(api, w, DeprecatedKey(op.name)).world.store.objects, ms) ==
            PlansOf(op, w.store.objects, ms)
  {
    var after := DeleteIfPresent(api, w, DeprecatedKey(op.name)).world.store.objects;
    forall kind
      ensures PlanOfKind(op, after, ms, kind) == PlanOfKind(op, w.store.objects, ms, kind)
    {
      assert KeyOf(op, kind) != DeprecatedKey(op.name);
    }
  }

  lemma SameApplyProblem(api: Api, op: Operator, w: World, input: ProfileInput, pool: Pool)
    ensures ApplyProblem(op, DeleteIfPresent(api, w, DeprecatedKey(op.name)).world.store.objects, input, pool) ==
            ApplyProblem(op, w.store.objects, input, pool)
  {
    if !IsPaused(input.annotations) && op.generate(input, pool).Success? {
      DeprecatedApart(api, op, w, op.generate(input, pool).value);
    }
  }

  // ----- panics -----

  /** Applying the component of a kind would merge into a nil map. */
  predicate NilMergeAt(op: Operator, objects: map<Key, Obj>, ms: Manifests, kind: Kind) {
    KeyOf(op, kind) in objects && NilMerge(objects[KeyOf(op, kind)], Desired(op, Part(ms, kind)))
  }

  predicate UndecodableKubelet(op: Operator, objects: map<Key, Obj>, ms: Manifests) {
    var key := KeyOf(op, KubeletConfig);
    key in objects && Undecodable(KubeletConfig, objects[key], Desired(op, ms.kc))
  }

  /** Applying the components merges into a nil map: that of the machine config or the kubelet config,
      or, unless a kubelet configuration does not parse, that of the Tuned or the runtime class. */
  predicate NilMergeMet(op: Operator, objects: map<Key, Obj>, ms: Manifests) {
    || NilMergeAt(op, objects, ms, MachineConfig)
    || NilMergeAt(op, objects, ms, KubeletConfig)
    || (&& !UndecodableKubelet(op, objects, ms)
        && (NilMergeAt(op, objects, ms, Tuned) || NilMergeAt(op, objects, ms, RuntimeClass)))
  }

  /** A reconcile of this store gets to such a merge. */
  predicate Panics(op: Operator, s: Store, input: ProfileInput) {
    match FindPool(op.matches, s.pools, input.nodeSelector)
    case Failure(_) => false
    case Success(pool) =>
      && op.validate(input, pool).None?
      && !IsPaused(input.annotations)
      && op.generate(input, pool).Success?
      && NilMergeMet(op, s.objects, op.generate(input, pool).value)
  }

  lemma PlanOfKindIff(op: Operator, objects: map<Key, Obj>, ms: Manifests, kind: Kind)
    ensures var plan := PlanOfKind(op, objects, ms, kind);
            && (plan == Stop(Panic) <==> NilMergeAt(op, objects, ms, kind))
            && (plan.Stop? && plan.fault.Fault? <==>
                  kind.KubeletConfig? && !NilMergeAt(op, objects, ms, kind) && UndecodableKubelet(op, objects, ms))
  {
    var key := KeyOf(op, kind);
    if key in objects {
      PlanIff(kind, objects[key], Desired(op, Part(ms, kind)));
    }
  }

  lemma BlockedByPanicIff(op: Operator, objects: map<Key, Obj>, ms: Manifests)
    ensures PlansOf(op, objects, ms) == Blocked(Panic) <==> NilMergeMet(op, objects, ms)
  {
    PlanOfKindIff(op, objects, ms, MachineConfig);
    PlanOfKindIff(op, objects, ms, KubeletConfig);
    PlanOfKindIff(op, objects, ms, Tuned);
    PlanOfKindIff(op, objects, ms, RuntimeClass);
  }

  /** Without call failures, a reconcile of a live profile panics exactly on these stores, and then
      leaves the profile as it is. */
  lemma ReconcilePanicsIff(api: Api, op: Operator, now: int, s: Store)
    requires Quiet(api) && Live(s)
    ensures Reconcile(api, op, now, World(s, 0, 0)).out == Crash <==> Panics(op, s, s.profile.value.input)
    ensures Panics(op, s, s.profile.value.input) ==>
            Reconcile(api, op, now, World(s, 0, 0)).world.store.profile == s.profile
  {
    var w, p := Ticked(World(s, 0, 0)), s.profile.value;
    QuietCall(api, 0);
    QuietCall(api, w.calls);
    var w1 := Ticked(w);
    var found := FindPool(op.matches, s.pools, p.input.nodeSelector);
    if found.Success? && op.validate(p.input, found.value).None? {
      CrashIffApplyPanics(api, op, now, w1, p, found.value);
      ApplyPanicsIff(op, s.objects, p.input, found.value);
    }
  }

  lemma FinishCrashesIff(api: Api, op: Operator, now: int, p: Profile, pool: Pool, applied: Step<Applied>)
    requires Quiet(api)
    ensures Finish(api, op, now, p, pool, applied).out == Crash <==> applied.out == Stopped(Panic)
  {
    if !applied.out.Stopped? {
      CheckedFindsTheProblem(api, op, now, applied.world, pool);
    }
  }

  /** The reconcile crashes exactly when the apply panics. */
  lemma CrashIffPanic(api: Api, op: Operator, now: int, w: World, p: Profile, pool: Pool)
    requires Quiet(api)
    ensures ReconcileWithPool(api, op, now, w, p, pool).out == Crash <==>
            Apply(api, op, DeleteIfPresent(api, w, DeprecatedKey(op.name)).world, p, pool).out == Stopped(Panic)
  {
    var deprecated := DeleteIfPresent(api, w, DeprecatedKey(op.name));
    DeprecatedSettlesOnce(api, w, DeprecatedKey(op.name));
    FinishCrashesIff(api, op, now, p, pool, Apply(api, op, deprecated.world, p, pool));
  }

  lemma CrashIffApplyPanics(api: Api, op: Operator, now: int, w: World, p: Profile, pool: Pool)
    requires Quiet(api)
    ensures var r := ReconcileWithPool(api, op, now, w, p, pool);
            && (r.out == Crash <==> ApplyProblem(op, w.store.objects, p.input, pool) == Some(Panic))
            && (r.out == Crash ==> r.world.store.profile == w.store.profile)
  {
    CrashIffPanic(api, op, now, w, p, pool);
    var deprecated := DeleteIfPresent(api, w, DeprecatedKey(op.name));
    SameApplyProblem(api, op, w, p.input, pool);
    ApplyFindsTheProblem(api, op, deprecated.world, p, pool);
    if ReconcileWithPool(api, op, now, w, p, pool).out == Crash {
      DeprecatedSettlesOnce(api, w, DeprecatedKey(op.name));
      DeleteIfPresentRemoves(api, w, DeprecatedKey(op.name));
    }
  }

  lemma ApplyPanicsIff(op: Operator, objects: map<Key, Obj>, input: ProfileInput, pool: Pool)
    ensures ApplyProblem(op, objects, input, pool) == Some(Panic) <==>
            && !IsPaused(input.annotations)
            && op.generate(input, pool).Success?
            && NilMergeMet(op, objects, op.generate(input, pool).value)
  {
    if !IsPaused(input.annotations) && op.generate(input, pool).Success? {
      BlockedByPanicIff(op, objects, op.generate(input, pool).value);
    }
  }

  // ----- the truth -----

  lemma SettledStatusMatches(api: Api, op: Operator, now: int, s: Store)
    requires Quiet(api) && Live(s) && Safety.StatusCoherent(s)
    requires Reconcile(api, op, now, World(s, 0, 0)).world.store == s
    requires !Panics(op, s, s.profile.value.input)
    ensures SameButForTime(s.profile.value.status.conditions,
                           ConditionsFor(FirstProblem(op, s, s.profile.value.input), now))
  {
    var w, p := Ticked(World(s, 0, 0)), s.profile.value;
    ReconcilePanicsIff(api, op, now, s);
    QuietCall(api, 0);
    QuietCall(api, w.calls);
    var w1 := Ticked(w);
    match FindPool(op.matches, s.pools, p.input.nodeSelector)
    case Failure(t) => UpdateStores(api, op, w1, p, DegradedConditions(POOL_NOT_FOUND, t, now));
    case Success(pool) =>
      var invalid := op.validate(p.input, pool);
      if invalid.Some? {
        UpdateStores(api, op, w1, p, DegradedConditions(BAD_LABELS, invalid.value, now));
      } else {
        StatusAfterApply(api, op, now, w1, p, pool);
      }
  }

  /** A reconcile that leaves the store as it finds it has nothing to correct in the status: type by type,
      the stored conditions tell the first problem of the store, or that there is none. */
  lemma SettledStatusIsTrue(api: Api, op: Operator, now: int, s: Store)
    requires Quiet(api) && Live(s) && Safety.StatusCoherent(s)
    requires Reconcile(api, op, now, World(s, 0, 0)).world.store == s
    requires !Panics(op, s, s.profile.value.input)
    ensures Tells(s.profile.value.status.conditions, FirstProblem(op, s, s.profile.value.input))
  {
    SettledStatusMatches(api, op, now, s);
    var problem := FirstProblem(op, s, s.profile.value.input);
    var p := if problem.Some? then problem.value else Problem("", "");
    ConstructorsSay(s.profile.value.status.conditions, p.reason, p.message, now);
  }

  lemma StatusAfterApply(api: Api, op: Operator, now: int, w: World, p: Profile, pool: Pool)
    requires Quiet(api) && w.store.profile == Some(p) && StoredShape(p.status.conditions)
    requires ReconcileWithPool(api, op, now, w, p, pool).world.store == w.store
    requires ReconcileWithPool(api, op, now, w, p, pool).out != Crash
    ensures var problem := match ApplyProblem(op, w.store.objects, p.input, pool)
                           case Some(Fault(t)) => Some(Problem(CREATION_FAILED, t))
                           case _ => HealthProblem(op, w.store, pool);
            SameButForTime(p.status.conditions, ConditionsFor(problem, now))
  {
    var key := DeprecatedKey(op.name);
    var deprecated := DeleteIfPresent(api, w, key);
    DeprecatedSettlesOnce(api, w, key);
    DeleteIfPresentRemoves(api, w, key);
    SameApplyProblem(api, op, w, p.input, pool);
    var applied := Apply(api, op, deprecated.world, p, pool);
    ApplyFindsTheProblem(api, op, deprecated.world, p, pool);
    Safety.ApplyKeepsProfile(api, op, deprecated.world, p, pool);
    match applied.out
    case Stopped(Panic) => assert false;
    case Stopped(Fault(t)) => UpdateStores(api, op, applied.world, p, DegradedConditions(CREATION_FAILED, t, now));
    case _ =>
      HealthWhenSettled(api, op, now, applied.world, w.store, p, pool, applied.out);
  }

  lemma QuietStepKeepsCoherence(op: Operator, s: Store, t: Store)
    requires QuietStep(op, s, t) && Safety.StatusCoherent(s)
    ensures Safety.StatusCoherent(t)
  {
    var api: Api, now: int :| Quiet(api) && t == Reconcile(api, op, now, World(s, 0, 0)).world.store;
    Safety.ReconcileIsSafe(api, op, now, World(s, 0, 0));
  }

  /** From any store with a coherent status and a profile that is not under deletion: after two
      undisturbed reconciles, and after every later one, the stored conditions tell the truth about the
      store, unless it is one of the stores on which a reconcile panics. */
  lemma StatusBecomesTrue(op: Operator, trace: seq<Store>, i: nat)
    requires ParsesOwnOutput(op) && QuietRun(op, trace) && 2 <= i < |trace|
    requires trace[0].profile.Some? && !trace[0].profile.value.deleting && Safety.StatusCoherent(trace[0])
    requires trace[i].profile.Some? ==> !Panics(op, trace[i], trace[i].profile.value.input)
    ensures trace[i].profile.Some?
    ensures var p := trace[i].profile.value;
            Tells(p.status.conditions, FirstProblem(op, trace[i], p.input))
  {
    AtMostTwoReconcilesWrite(op, trace, i);
    LiveFromTheFirst(op, trace, 1);
    var s, t := trace[1], trace[2];
    assert QuietStep(op, trace[0], s) && QuietStep(op, s, t);
    QuietStepKeepsCoherence(op, trace[0], s);
    QuietStepKeepsCoherence(op, s, t);
    var api: Api, earlier: int :| Quiet(api) && t == Reconcile(api, op, earlier, World(s, 0, 0)).world.store;
    var u := Reconcile(api, op, 0, World(t, 0, 0)).world.store;
    assert QuietStep(op, t, u);
    QuietStepSettles(op, s, t, u);
    SettledStatusIsTrue(api, op, 0, t);
  }
}
