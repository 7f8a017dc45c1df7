/**
  The reconcile loop of the performance profile controller
  (controllers/performanceprofile_controller.go and the health checks of
  controllers/status.go). The functions give the world after each procedure;
  the methods carry the procedures out against a client.
 */
module Controller {
  import opened Prelude
  import opened Conditions
  import opened Cluster
  import opened Resources
  import opened PoolLookup

  const POOL_NOT_FOUND := "GettingMachineConfigPoolFailed"
  const BAD_LABELS := "BadMachineConfigLabels"
  const CREATION_FAILED := "ComponentCreationFailed"
  const POOL_DEGRADED := "MCPDegraded"
  const KUBELET_FAILED := "KubeletConfig failure"
  const KUBELET_UNKNOWN := "GettingKubeletStatusFailed"
  const TUNED_DEGRADED := "TunedProfileDegraded"
  const TUNED_UNKNOWN := "GettingTunedStatusFailed"

  /** What the generator makes of one component. */
  datatype Manifest = Manifest(labels: map<string, string>, annotations: map<string, string>, spec: Spec)

  datatype Manifests = Manifests(mc: Manifest, kc: Manifest, tuned: Manifest, rc: Manifest)

  /** The profile's name and the parts of the operator that are functions of the profile and its pool. */
  datatype Operator = Operator(
    name: string,
    generate: (ProfileInput, Pool) -> Result<Manifests>,
    validate: (ProfileInput, Pool) -> Option<string>,
    matches: Matcher)

  datatype Outcome = Done | RequeueAfter(seconds: nat) | Error(text: string) | Crash

  function KeyOf(op: Operator, kind: Kind): Key {
    ComponentKey(op.name, kind)
  }

  /** A generated component with the profile set as its owner. */
  function Desired(op: Operator, m: Manifest): Obj {
    Obj(m.labels, m.annotations, [op.name], m.spec, false, false, [])
  }

  // ----- status -----

  /** The status that updateStatus asks for. */
  function RequestedStatus(op: Operator, p: Profile, conditions: seq<Condition>): Status {
    Status(conditions,
           if p.status.tuned.Some? then p.status.tuned
           else Some(TUNING_NAMESPACE + "/" + ComponentName(op.name, TUNED_PREFIX)),
           if p.status.runtimeClass.Some? then p.status.runtimeClass
           else Some(ComponentName(op.name, COMPONENT_PREFIX)))
  }

  function UpdateStatus(api: Api, op: Operator, w: World, p: Profile,
                        conditions: seq<Condition>): Step<Option<string>> {
    if AnyDiffers(p.status.conditions, conditions) || p.status.tuned.None? || p.status.runtimeClass.None?
    then UpdateProfileStatus(api, w, RequestedStatus(op, p, conditions))
    else Step(w, None)
  }

  method DoUpdateStatus(c: Client, op: Operator, p: Profile, conditions: seq<Condition>) returns (error: Option<string>)
    modifies c
    ensures Step(c.Now(), error) == UpdateStatus(c.api, op, old(c.Now()), p, conditions)
  {
    var requested := p.status.(conditions := conditions);
    var modified := ConditionsModified(p.status.conditions, conditions);
    if requested.tuned.None? {
      requested := requested.(tuned := Some(TUNING_NAMESPACE + "/" + ComponentName(op.name, TUNED_PREFIX)));
      modified := true;
    }
    if requested.runtimeClass.None? {
      requested := requested.(runtimeClass := Some(ComponentName(op.name, COMPONENT_PREFIX)));
      modified := true;
    }
    if !modified {
      return None;
    }
    error := c.UpdateStatus(requested);
  }

  /** Report a problem; `outcome` is the answer of the reconcile when the report itself succeeds. */
  function Report(api: Api, op: Operator, now: int, w: World, p: Profile, reason: string, message: string,
                  outcome: Outcome): Step<Outcome> {
    var updated := UpdateStatus(api, op, w, p, DegradedConditions(reason, message, now));
    Step(updated.world, if updated.out.Some? then Error(updated.out.value) else outcome)
  }

  method DoReport(c: Client, op: Operator, now: int, p: Profile, reason: string, message: string, outcome: Outcome)
    returns (r: Outcome)
    modifies c
    ensures Step(c.Now(), r) == Report(c.api, op, now, old(c.Now()), p, reason, message, outcome)
  {
    var error := DoUpdateStatus(c, op, p, DegradedConditions(reason, message, now));
    r := if error.Some? then Error(error.value) else outcome;
  }

  // ----- health -----

  datatype Health = Healthy | Unhealthy(conditions: seq<Condition>) | Unreadable(reason: string, text: string)

  /** The index that getLatestKubeletConfigCondition settles on: the first of the latest conditions,
      since a later one replaces it only when strictly newer. */
  function LatestAt(cs: seq<KubeletCondition>): (i: nat)
    requires cs != []
    ensures i < |cs|
    ensures forall j | 0 <= j < |cs| :: cs[j].time <= cs[i].time
    ensures forall j | 0 <= j < i :: cs[j].time < cs[i].time
  {
    var n := |cs| - 1;
    if n == 0 then 0 else
      var before := LatestAt(cs[..n]);
      assert cs[..n][before] == cs[before];
      assert forall j | 0 <= j < n :: cs[..n][j] == cs[j];
      if cs[before].time < cs[n].time then n else before
  }

  function Latest(cs: seq<KubeletCondition>): Option<KubeletCondition> {
    if cs == [] then None else Some(cs[LatestAt(cs)])
  }

  method FindLatest(cs: seq<KubeletCondition>) returns (r: Option<KubeletCondition>)
    ensures r == Latest(cs)
  {
    r := None;
    for i := 0 to |cs|
      invariant r == Latest(cs[..i])
    {
      assert cs[..i + 1][..i] == cs[..i];
      if r.None? || r.value.time < cs[i].time {
        r := Some(cs[i]);
      }
    }
    assert cs[..|cs|] == cs;
  }

  function KubeletHealth(api: Api, op: Operator, now: int, w: World): Step<Health> {
    var got := GetObject(api, w, KeyOf(op, KubeletConfig));
    match got.out
    case NotFound => Step(got.world, Healthy)
    case Failed(t) => Step(got.world, Unreadable(KUBELET_UNKNOWN, t))
    case Found(kc) =>
      var latest := Latest(kc.conditions);
      Step(got.world, if latest.None? || !latest.value.failure then Healthy
                      else Unhealthy(DegradedConditions(KUBELET_FAILED, latest.value.message, now)))
  }

  method DoKubeletHealth(c: Client, op: Operator, now: int) returns (h: Health)
    modifies c
    ensures Step(c.Now(), h) == KubeletHealth(c.api, op, now, old(c.Now()))
  {
    var got := c.Get(KeyOf(op, KubeletConfig));
    if got.NotFound? {
      return Healthy;
    }
    if got.Failed? {
      return Unreadable(KUBELET_UNKNOWN, got.text);
    }
    var latest := FindLatest(got.value.conditions);
    if latest.None? || !latest.value.failure {
      return Healthy;
    }
    h := Unhealthy(DegradedConditions(KUBELET_FAILED, latest.value.message, now));
  }

  predicate Alarming(pc: PoolCondition) {
    (pc.ctype == "NodeDegraded" || pc.ctype == "RenderDegraded") && pc.status == True
  }

  function ReasonLine(pool: string, reason: string): string {
    if reason == "" then "" else "Machine config pool " + pool + " Degraded Reason: " + reason + ".\n"
  }

  function MessageLine(pool: string, message: string): string {
    if message == "" then "" else "Machine config pool " + pool + " Degraded Message: " + message + ".\n"
  }

  function PoolLines(pool: string, pc: PoolCondition): string {
    if Alarming(pc) then ReasonLine(pool, pc.reason) + MessageLine(pool, pc.message) else ""
  }

  function PoolReport(pool: string, cs: seq<PoolCondition>): string {
    if cs == [] then "" else PoolReport(pool, cs[..|cs| - 1]) + PoolLines(pool, cs[|cs| - 1])
  }

  /** The pool says of itself that its nodes or its rendering are degraded. */
  ghost predicate SaysPoolDegraded(pc: PoolCondition) {
    (pc.ctype == "NodeDegraded" || pc.ctype == "RenderDegraded") && pc.status == True
  }

  /** The report goes through the conditions in order. */
  lemma {:induction false} PoolReportInOrder(pool: string, a: seq<PoolCondition>, b: seq<PoolCondition>)
    ensures PoolReport(pool, a + b) == PoolReport(pool, a) + PoolReport(pool, b)
    decreases |b|
  {
    if b == [] {
      assert a + b == a;
    } else {
      var n := |b| - 1;
      assert (a + b)[..|a + b| - 1] == a + b[..n];
      PoolReportInOrder(pool, a, b[..n]);
      TextAssociates(PoolReport(pool, a), PoolReport(pool, b[..n]), PoolLines(pool, b[n]));
    }
  }

  lemma TextAssociates(a: string, b: string, c: string)
    ensures (a + b) + c == a + (b + c)
  {
  }

  /** And it gives the reason and the message of each degraded one, as far as there are any. */
  lemma PoolReportOfOne(pool: string, pc: PoolCondition)
    ensures !SaysPoolDegraded(pc) ==> PoolReport(pool, [pc]) == ""
    ensures SaysPoolDegraded(pc) ==>
              var prefix := "Machine config pool " + pool + " Degraded ";
              PoolReport(pool, [pc]) ==
              (if pc.reason == "" then "" else prefix + "Reason: " + pc.reason + ".\n")
              + (if pc.message == "" then "" else prefix + "Message: " + pc.message + ".\n")
  {
    assert [pc][..0] == [];
    assert "" + PoolLines(pool, pc) == PoolLines(pool, pc);
    var prefix := "Machine config pool " + pool;
    assert prefix + " Degraded Reason: " == prefix + " Degraded " + "Reason: ";
    assert prefix + " Degraded Message: " == prefix + " Degraded " + "Message: ";
  }

  lemma PoolLinesEmptyIff(pool: string, pc: PoolCondition)
    ensures PoolLines(pool, pc) == "" <==> (SaysPoolDegraded(pc) ==> pc.reason == "" && pc.message == "")
  {
    assert |"Machine config pool "| > 0;
  }

  /** The pool is reported degraded exactly when some degraded condition says why. */
  lemma {:induction false} PoolReportEmptyIff(pool: string, cs: seq<PoolCondition>)
    ensures PoolReport(pool, cs) == "" <==>
            forall pc | pc in cs && SaysPoolDegraded(pc) :: pc.reason == "" && pc.message == ""
  {
    if cs != [] {
      var n := |cs| - 1;
      PoolReportEmptyIff(pool, cs[..n]);
      assert cs == cs[..n] + [cs[n]];
      PoolLinesEmptyIff(pool, cs[n]);
    }
  }

  method DescribePool(pool: Pool) returns (message: string)
    ensures message == PoolReport(pool.name, pool.conditions)
  {
    message := "";
    for i := 0 to |pool.conditions|
      invariant message == PoolReport(pool.name, pool.conditions[..i])
    {
      assert pool.conditions[..i + 1][..i] == pool.conditions[..i];
      if Alarming(pool.conditions[i]) {
        message := message + ReasonLine(pool.name, pool.conditions[i].reason);
        message := message + MessageLine(pool.name, pool.conditions[i].message);
        TextAssociates(PoolReport(pool.name, pool.conditions[..i]), ReasonLine(pool.name, pool.conditions[i].reason),
                       MessageLine(pool.name, pool.conditions[i].message));
      }
    }
    assert pool.conditions[..|pool.conditions|] == pool.conditions;
  }

  /** Two lists are read, the Tuned profiles and the nodes; what they amount to is `tunedReport`. */
  function TunedHealth(api: Api, now: int, w: World): Step<Health> {
    var profiles := Read<string>(api, w, Found(w.store.tunedReport));
    if profiles.out.Failed? then Step(profiles.world, Unreadable(TUNED_UNKNOWN, profiles.out.text)) else
      var nodes := Read<string>(api, profiles.world, Found(w.store.tunedReport));
      if nodes.out.Failed? then Step(nodes.world, Unreadable(TUNED_UNKNOWN, nodes.out.text))
      else Step(nodes.world, if w.store.tunedReport == "" then Healthy
                             else Unhealthy(DegradedConditions(TUNED_DEGRADED, w.store.tunedReport, now)))
  }

  /** Kubelet first, then the pool, then Tuned; available when none objects. */
  function Checked(api: Api, op: Operator, now: int, w: World, pool: Pool): Step<Health> {
    var kubelet := KubeletHealth(api, op, now, w);
    if !kubelet.out.Healthy? then kubelet
    else if PoolReport(pool.name, pool.conditions) != ""
    then Step(kubelet.world, Unhealthy(DegradedConditions(POOL_DEGRADED, PoolReport(pool.name, pool.conditions), now)))
    else TunedHealth(api, now, kubelet.world)
  }

  // ----- applying the components -----

  datatype Applied = Untouched | Changed | Stopped(fault: Fault)

  datatype Plans = Plans(mc: Plan, kc: Plan, tuned: Plan, rc: Plan) | Blocked(fault: Fault)

  predicate Paused(input: ProfileInput) {
    PAUSE_ANNOTATION in input.annotations && input.annotations[PAUSE_ANNOTATION] == "true"
  }

  /** The four reads that precede any write. */
  function Planned(api: Api, op: Operator, w: World, ms: Manifests): Step<Plans> {
    var mc := GetMutated(api, w, KeyOf(op, MachineConfig), Desired(op, ms.mc));
    if mc.out.Stop? then Step(mc.world, Blocked(mc.out.fault)) else
      var kc := GetMutated(api, mc.world, KeyOf(op, KubeletConfig), Desired(op, ms.kc));
      if kc.out.Stop? then Step(kc.world, Blocked(kc.out.fault)) else
        var tuned := GetMutated(api, kc.world, KeyOf(op, Tuned), Desired(op, ms.tuned));
        if tuned.out.Stop? then Step(tuned.world, Blocked(tuned.out.fault)) else
          var rc := GetMutated(api, tuned.world, KeyOf(op, RuntimeClass), Desired(op, ms.rc));
          if rc.out.Stop? then Step(rc.world, Blocked(rc.out.fault))
          else Step(rc.world, Plans(mc.out, kc.out, tuned.out, rc.out))
  }

  function CarryOut(api: Api, op: Operator, w: World, kind: Kind, plan: Plan): Step<Option<string>> {
    if !plan.Write? then Step(w, None)
    else if kind.Tuned? then CreateOrUpdateTuned(api, w, KeyOf(op, Tuned), plan.obj, op.name)
    else CreateOrUpdate(api, w, KeyOf(op, kind), plan.obj)
  }

  /** The writes, in the order machine config, Tuned, kubelet config, runtime class. */
  function Written(api: Api, op: Operator, w: World, ps: Plans): Step<Option<string>>
    requires ps.Plans?
  {
    var mc := CarryOut(api, op, w, MachineConfig, ps.mc);
    if mc.out.Some? then mc else
      var tuned := CarryOut(api, op, mc.world, Tuned, ps.tuned);
      if tuned.out.Some? then tuned else
        var kc := CarryOut(api, op, tuned.world, KubeletConfig, ps.kc);
        if kc.out.Some? then kc else
          CarryOut(api, op, kc.world, RuntimeClass, ps.rc)
  }

  function Apply(api: Api, op: Operator, w: World, p: Profile, pool: Pool): Step<Applied> {
    if Paused(p.input) then Step(w, Untouched) else
      match op.generate(p.input, pool)
      case Failure(t) => Step(w, Stopped(Fault(t)))
      case Success(ms) =>
        var planned := Planned(api, op, w, ms);
        if planned.out.Blocked? then Step(planned.world, Stopped(planned.out.fault))
        else
          var ps := planned.out;
          if !ps.mc.Write? && !ps.kc.Write? && !ps.tuned.Write? && !ps.rc.Write? then Step(planned.world, Untouched)
          else
            var written := Written(api, op, planned.world, ps);
            Step(written.world, if written.out.Some? then Stopped(Fault(written.out.value)) else Changed)
  }

  /** Write one component, if its plan says so. */
  method DoCarryOut(c: Client, op: Operator, kind: Kind, plan: Plan) returns (error: Option<string>)
    modifies c
    ensures Step(c.Now(), error) == CarryOut(c.api, op, old(c.Now()), kind, plan)
  {
    error := None;
    if plan.Write? {
      if kind.Tuned? {
        error := DoCreateOrUpdateTuned(c, KeyOf(op, Tuned), plan.obj, op.name);
      } else {
        error := DoCreateOrUpdate(c, KeyOf(op, kind), plan.obj);
      }
    }
  }

  method DoWritten(c: Client, op: Operator, ps: Plans) returns (error: Option<string>)
    requires ps.Plans?
    modifies c
    ensures Step(c.Now(), error) == Written(c.api, op, old(c.Now()), ps)
  {
    error := DoCarryOut(c, op, MachineConfig, ps.mc);
    if error.Some? {
      return;
    }
    error := DoCarryOut(c, op, Tuned, ps.tuned);
    if error.Some? {
      return;
    }
    error := DoCarryOut(c, op, KubeletConfig, ps.kc);
    if error.Some? {
      return;
    }
    error := DoCarryOut(c, op, RuntimeClass, ps.rc);
  }

  method DoApply(c: Client, op: Operator, p: Profile, pool: Pool) returns (r: Applied)
    modifies c
    ensures Step(c.Now(), r) == Apply(c.api, op, old(c.Now()), p, pool)
  {
    if Paused(p.input) {
      return Untouched;
    }
    var generated := op.generate(p.input, pool);
    if generated.Failure? {
      return Stopped(Fault(generated.text));
    }
    var ms := generated.value;
    var mc := ReadMutated(c, KeyOf(op, MachineConfig), Desired(op, ms.mc));
    if mc.Stop? {
      return Stopped(mc.fault);
    }
    var kc := ReadMutated(c, KeyOf(op, KubeletConfig), Desired(op, ms.kc));
    if kc.Stop? {
      return Stopped(kc.fault);
    }
    var tuned := ReadMutated(c, KeyOf(op, Tuned), Desired(op, ms.tuned));
    if tuned.Stop? {
      return Stopped(tuned.fault);
    }
    var rc := ReadMutated(c, KeyOf(op, RuntimeClass), Desired(op, ms.rc));
    if rc.Stop? {
      return Stopped(rc.fault);
    }
    var updated := mc.Write? || kc.Write? || tuned.Write? || rc.Write?;
    if !updated {
      return Untouched;
    }
    var error := DoWritten(c, op, Plans(mc, kc, tuned, rc));
    if error.Some? {
      return Stopped(Fault(error.value));
    }
    r := Changed;
  }

  // ----- deletion -----

  function ComponentKeys(op: Operator): seq<Key> {
    [KeyOf(op, Tuned), KeyOf(op, KubeletConfig), KeyOf(op, RuntimeClass), KeyOf(op, MachineConfig)]
  }

  method DoDeleteComponents(c: Client, op: Operator) returns (error: Option<string>)
    modifies c
    ensures Step(c.Now(), error) == DeleteAll(c.api, old(c.Now()), ComponentKeys(op))
  {
    ghost var keys := ComponentKeys(op);
    ghost var goal := DeleteAll(c.api, c.Now(), keys);
    error := DoDelete(c, KeyOf(op, Tuned));
    if error.Some? {
      return;
    }
    assert goal == DeleteAll(c.api, c.Now(), keys[1..]);
    error := DoDelete(c, KeyOf(op, KubeletConfig));
    if error.Some? {
      return;
    }
    assert keys[1..][1..] == keys[2..] && goal == DeleteAll(c.api, c.Now(), keys[2..]);
    error := DoDelete(c, KeyOf(op, RuntimeClass));
    if error.Some? {
      return;
    }
    assert keys[2..][1..] == keys[3..] && goal == DeleteAll(c.api, c.Now(), keys[3..]);
    error := DoDelete(c, KeyOf(op, MachineConfig));
    assert error.None? ==> goal == DeleteAll(c.api, c.Now(), keys[3..][1..]);
  }

  /** isComponentsExist: a read that fails counts as existing. */
  function AnyExists(api: Api, w: World, keys: seq<Key>): Step<bool>
    decreases |keys|
  {
    if keys == [] then Step(w, false) else
      var got := GetObject(api, w, keys[0]);
      if !got.out.NotFound? then Step(got.world, true) else AnyExists(api, got.world, keys[1..])
  }

  method DoAnyExists(c: Client, op: Operator) returns (r: bool)
    modifies c
    ensures Step(c.Now(), r) == AnyExists(c.api, old(c.Now()), ComponentKeys(op))
  {
    ghost var keys := ComponentKeys(op);
    ghost var goal := AnyExists(c.api, c.Now(), keys);
    var got := c.Get(KeyOf(op, Tuned));
    if !got.NotFound? {
      return true;
    }
    assert goal == AnyExists(c.api, c.Now(), keys[1..]);
    got := c.Get(KeyOf(op, KubeletConfig));
    if !got.NotFound? {
      return true;
    }
    assert keys[1..][1..] == keys[2..] && goal == AnyExists(c.api, c.Now(), keys[2..]);
    got := c.Get(KeyOf(op, RuntimeClass));
    if !got.NotFound? {
      return true;
    }
    assert keys[2..][1..] == keys[3..] && goal == AnyExists(c.api, c.Now(), keys[3..]);
    got := c.Get(KeyOf(op, MachineConfig));
    r := !got.NotFound?;
    assert !r ==> goal == AnyExists(c.api, c.Now(), keys[3..][1..]);
  }

  // ----- finalizers -----

  function Without(finalizers: seq<string>, f: string): (r: seq<string>)
    ensures f !in r
    ensures forall g | g != f :: g in r <==> g in finalizers
  {
    if finalizers == [] then [] else
      var n := |finalizers| - 1;
      assert finalizers == finalizers[..n] + [finalizers[n]];
      Without(finalizers[..n], f) + (if finalizers[n] == f then [] else [finalizers[n]])
  }

  /** What is left keeps its order. */
  lemma {:induction false} WithoutInOrder(a: seq<string>, b: seq<string>, f: string)
    ensures Without(a + b, f) == Without(a, f) + Without(b, f)
    decreases |b|
  {
    if b == [] {
      assert a + b == a;
    } else {
      var n := |b| - 1;
      assert (a + b)[..|a + b| - 1] == a + b[..n];
      WithoutInOrder(a, b[..n], f);
    }
  }

  method HasFinalizer(finalizers: seq<string>, f: string) returns (r: bool)
    ensures r <==> f in finalizers
  {
    for i := 0 to |finalizers|
      invariant f !in finalizers[..i]
    {
      if finalizers[i] == f {
        return true;
      }
    }
    r := false;
  }

  method RemoveFinalizer(finalizers: seq<string>, f: string) returns (r: seq<string>)
    ensures r == Without(finalizers, f)
  {
    r := [];
    for i := 0 to |finalizers|
      invariant r == Without(finalizers[..i], f)
    {
      assert finalizers[..i + 1][..i] == finalizers[..i];
      if finalizers[i] != f {
        r := r + [finalizers[i]];
      }
    }
    assert finalizers[..|finalizers|] == finalizers;
  }

  // ----- reconcile -----

  function Answer(error: Option<string>, otherwise: Outcome): Outcome {
    if error.Some? then Error(error.value) else otherwise
  }

  function StartingConditions(now: int): (cs: seq<Condition>)
    ensures Coherent(cs)
  {
    ProgressingConditions("DeploymentStarting", "Deployment is starting", now)
  }

  function AddFinalizer(api: Api, now: int, w: World, p: Profile): Step<Outcome> {
    var wanted := p.(finalizers := p.finalizers + [FINALIZER],
                     status := p.status.(conditions := StartingConditions(now)));
    var updated := UpdateProfile(api, w, wanted);
    Step(updated.world, Answer(updated.out, Done))
  }

  function ReconcileDeleting(api: Api, op: Operator, now: int, w: World, p: Profile): Step<Outcome> {
    var deleted := DeleteAll(api, w, ComponentKeys(op));
    if deleted.out.Some? then Step(deleted.world, Error(deleted.out.value)) else
      var exists_ := AnyExists(api, deleted.world, ComponentKeys(op));
      if exists_.out then Step(exists_.world, RequeueAfter(10))
      else if FINALIZER in p.finalizers then
        var updated := UpdateProfile(api, exists_.world, p.(finalizers := Without(p.finalizers, FINALIZER)));
        Step(updated.world, Answer(updated.out, Done))
      else AddFinalizer(api, now, exists_.world, p)
  }

  /** The last status write: when components changed, its failure is not reported. */
  function Conclude(api: Api, op: Operator, w: World, p: Profile, applied: Applied,
                    conditions: seq<Condition>): Step<Outcome> {
    var updated := UpdateStatus(api, op, w, p, conditions);
    Step(updated.world, if applied.Changed? then Done else Answer(updated.out, Done))
  }

  function AfterApply(api: Api, op: Operator, now: int, w: World, p: Profile, pool: Pool,
                      applied: Applied): Step<Outcome> {
    var checked := Checked(api, op, now, w, pool);
    match checked.out
    case Unreadable(reason, t) => Report(api, op, now, checked.world, p, reason, t, Error(t))
    case Unhealthy(conditions) => Conclude(api, op, checked.world, p, applied, conditions)
    case Healthy => Conclude(api, op, checked.world, p, applied, AvailableConditions(now))
  }

  /** What follows the attempt to apply the components. */
  function Finish(api: Api, op: Operator, now: int, p: Profile, pool: Pool, applied: Step<Applied>): Step<Outcome> {
    match applied.out
    case Stopped(Panic) => Step(applied.world, Crash)
    case Stopped(Fault(t)) => Report(api, op, now, applied.world, p, CREATION_FAILED, t, Error(t))
    case _ => AfterApply(api, op, now, applied.world, p, pool, applied.out)
  }

  function ReconcileWithPool(api: Api, op: Operator, now: int, w: World, p: Profile, pool: Pool): Step<Outcome> {
    var deprecated := DeleteIfPresent(api, w, DeprecatedKey(op.name));
    if deprecated.out.Some? then Step(deprecated.world, Error(deprecated.out.value))
    else Finish(api, op, now, p, pool, Apply(api, op, deprecated.world, p, pool))
  }

  function ReconcileLive(api: Api, op: Operator, now: int, w: World, p: Profile): Step<Outcome> {
    var listed := ListPools(api, w);
    var found := if listed.out.Found? then FindPool(op.matches, listed.out.value, p.input.nodeSelector)
                 else if listed.out.Failed? then Failure(listed.out.text) else Failure(NO_POOL);
    match found
    case Failure(t) => Report(api, op, now, listed.world, p, POOL_NOT_FOUND, t, Done)
    case Success(pool) =>
      var invalid := op.validate(p.input, pool);
      if invalid.Some? then Report(api, op, now, listed.world, p, BAD_LABELS, invalid.value, Done)
      else ReconcileWithPool(api, op, now, listed.world, p, pool)
  }

  function Reconcile(api: Api, op: Operator, now: int, w: World): Step<Outcome> {
    var got := GetProfile(api, w);
    match got.out
    case NotFound => Step(got.world, Done)
    case Failed(t) => Step(got.world, Error(t))
    case Found(p) =>
      if p.deleting then ReconcileDeleting(api, op, now, got.world, p)
      else if FINALIZER !in p.finalizers then AddFinalizer(api, now, got.world, p)
      else ReconcileLive(api, op, now, got.world, p)
  }

  // ----- the reconcile method -----

  /** Reconcile, statement by statement. */
  method DoReconcile(c: Client, op: Operator, now: int) returns (r: Outcome)
    modifies c
    ensures Step(c.Now(), r) == Reconcile(c.api, op, now, old(c.Now()))
  {
    var got := c.GetTheProfile();
    if got.NotFound? {
      return Done;
    }
    if got.Failed? {
      return Error(got.text);
    }
    var instance := got.value;
    var error: Option<string>;
    var has := HasFinalizer(instance.finalizers, FINALIZER);

    if instance.deleting {
      error := DoDeleteComponents(c, op);
      if error.Some? {
        return Error(error.value);
      }
      var exist := DoAnyExists(c, op);
      if exist {
        return RequeueAfter(10);
      }
      if has {
        var rest := RemoveFinalizer(instance.finalizers, FINALIZER);
        error := c.Update(instance.(finalizers := rest));
        return if error.Some? then Error(error.value) else Done;
      }
    }

    if !has {
      instance := instance.(finalizers := instance.finalizers + [FINALIZER],
                            status := instance.status.(conditions := StartingConditions(now)));
      error := c.Update(instance);
      return if error.Some? then Error(error.value) else Done;
    }

    r := DoReconcileLive(c, op, now, instance);
  }

  method DoReconcileLive(c: Client, op: Operator, now: int, instance: Profile) returns (r: Outcome)
    modifies c
    ensures Step(c.Now(), r) == ReconcileLive(c.api, op, now, old(c.Now()), instance)
  {
    var listed := c.GetPools();
    var found: Result<Pool>;
    if listed.Found? {
      found := DoFindPool(op.matches, listed.value, instance.input.nodeSelector);
    } else if listed.Failed? {
      found := Failure(listed.text);
    } else {
      found := Failure(NO_POOL);
    }
    if found.Failure? {
      r := DoReport(c, op, now, instance, POOL_NOT_FOUND, found.text, Done);
      return;
    }
    var invalid := op.validate(instance.input, found.value);
    if invalid.Some? {
      r := DoReport(c, op, now, instance, BAD_LABELS, invalid.value, Done);
      return;
    }
    var error := DoDelete(c, DeprecatedKey(op.name));
    if error.Some? {
      return Error(error.value);
    }
    var applied := DoApply(c, op, instance, found.value);
    if applied.Stopped? {
      if applied.fault.Panic? {
        return Crash;
      }
      r := DoReport(c, op, now, instance, CREATION_FAILED, applied.fault.text, Error(applied.fault.text));
      return;
    }
    r := DoConclude(c, op, now, instance, found.value, applied);
  }

  method DoConclude(c: Client, op: Operator, now: int, instance: Profile, pool: Pool, applied: Applied)
    returns (r: Outcome)
    modifies c
    ensures Step(c.Now(), r) == AfterApply(c.api, op, now, old(c.Now()), instance, pool, applied)
  {
    var conditions: Option<seq<Condition>> := None;
    var health := DoKubeletHealth(c, op, now);
    if health.Unreadable? {
      r := DoReport(c, op, now, instance, health.reason, health.text, Error(health.text));
      return;
    }
    if health.Unhealthy? {
      conditions := Some(health.conditions);
    }
    if conditions.None? {
      var message := DescribePool(pool);
      if message != "" {
        conditions := Some(DegradedConditions(POOL_DEGRADED, message, now));
      }
    }
    if conditions.None? {
      health := DoTunedHealth(c, now);
      if health.Unreadable? {
        r := DoReport(c, op, now, instance, health.reason, health.text, Error(health.text));
        return;
      }
      if health.Unhealthy? {
        conditions := Some(health.conditions);
      }
    }
    if conditions.None? {
      conditions := Some(AvailableConditions(now));
    }
    var error := DoUpdateStatus(c, op, instance, conditions.value);
    if error.Some? {
      if applied.Changed? {
        return Done;
      }
      return Error(error.value);
    }
    r := Done;
  }

  method DoTunedHealth(c: Client, now: int) returns (h: Health)
    modifies c
    ensures Step(c.Now(), h) == TunedHealth(c.api, now, old(c.Now()))
  {
    var profiles := c.GetTunedReport();
    if profiles.Failed? {
      return Unreadable(TUNED_UNKNOWN, profiles.text);
    }
    var nodes := c.GetTunedReport();
    if nodes.Failed? {
      return Unreadable(TUNED_UNKNOWN, nodes.text);
    }
    h := if c.store.tunedReport == "" then Healthy
         else Unhealthy(DegradedConditions(TUNED_DEGRADED, c.store.tunedReport, now));
  }
}
