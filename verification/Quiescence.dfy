/**
  The controller settles: what a successful apply establishes, and that without
  call failures the third reconcile of a live profile, and every later one,
  changes nothing.
 */
module Quiescence {
  import opened Prelude
  import opened Conditions
  import opened Cluster
  import opened Resources
  import opened ResourceFacts
  import opened PoolLookup
  import opened Controller
  import Safety

  // ----- what an apply does to the objects -----

  ghost predicate SameAt(a: map<Key, Obj>, b: map<Key, Obj>, k: Key) {
    (k in a <==> k in b) && (k in a ==> a[k] == b[k])
  }

  /** The plan for a key as a function of the objects alone. */
  function PlanOf(objects: map<Key, Obj>, key: Key, desired: Obj): Plan {
    if key in objects then PlanFor(key.kind, objects[key], desired) else Write(desired)
  }

  function Part(ms: Manifests, kind: Kind): Manifest {
    match kind
    case MachineConfig => ms.mc
    case KubeletConfig => ms.kc
    case Tuned => ms.tuned
    case RuntimeClass => ms.rc
  }

  function PlanAt(ps: Plans, kind: Kind): Plan
    requires ps.Plans?
  {
    match kind
    case MachineConfig => ps.mc
    case KubeletConfig => ps.kc
    case Tuned => ps.tuned
    case RuntimeClass => ps.rc
  }

  function PlanOfKind(op: Operator, objects: map<Key, Obj>, ms: Manifests, kind: Kind): Plan {
    PlanOf(objects, KeyOf(op, kind), Desired(op, Part(ms, kind)))
  }

  /** Plans that were made reflect the store. */
  lemma PlannedReflectsStore(api: Api, op: Operator, w: World, ms: Manifests)
    requires Planned(api, op, w, ms).out.Plans?
    ensures forall kind :: PlanAt(Planned(api, op, w, ms).out, kind) == PlanOfKind(op, w.store.objects, ms, kind)
    ensures forall kind :: !PlanOfKind(op, w.store.objects, ms, kind).Stop?
  {
    var ps := Planned(api, op, w, ms).out;
    forall kind
      ensures PlanAt(ps, kind) == PlanOfKind(op, w.store.objects, ms, kind)
      ensures !PlanOfKind(op, w.store.objects, ms, kind).Stop?
    {
      match kind
      case MachineConfig =>
      case KubeletConfig =>
      case Tuned =>
      case RuntimeClass =>
    }
  }

  /** Keys that carrying out a plan of one kind must leave alone. */
  ghost predicate Elsewhere(op: Operator, kind: Kind, k: Key) {
    k != KeyOf(op, kind) && (k.kind == Tuned ==> k == KeyOf(op, Tuned))
  }

  lemma CarryOutEffect(api: Api, op: Operator, w: World, kind: Kind, plan: Plan)
    requires ListsEverything(api)
    requires CarryOut(api, op, w, kind, plan).out.None?
    ensures var after := CarryOut(api, op, w, kind, plan).world.store;
            && after == w.store.(objects := after.objects)
            && (forall k | Elsewhere(op, kind, k) :: SameAt(w.store.objects, after.objects, k))
            && (if plan.Write? then KeyOf(op, kind) in after.objects && after.objects[KeyOf(op, kind)] == plan.obj
                else after == w.store)
  {
    if plan.Write? && kind.Tuned? {
      OutdatedTunedRemoved(api, w, KeyOf(op, Tuned), plan.obj, op.name);
    }
  }

  lemma ComponentsApart(op: Operator, a: Kind, b: Kind)
    ensures a != b ==> Elsewhere(op, a, KeyOf(op, b))
    ensures Elsewhere(op, a, DeprecatedKey(op.name))
  {
  }

  /** Carrying out all plans puts the planned object of each kind in place, or leaves it alone. */
  lemma WrittenEffect(api: Api, op: Operator, w: World, ps: Plans, kind: Kind)
    requires ListsEverything(api) && ps.Plans?
    requires Written(api, op, w, ps).out.None?
    ensures var after := Written(api, op, w, ps).world.store;
            && after == w.store.(objects := after.objects)
            && SameAt(w.store.objects, after.objects, DeprecatedKey(op.name))
            && (if PlanAt(ps, kind).Write?
                then KeyOf(op, kind) in after.objects && after.objects[KeyOf(op, kind)] == PlanAt(ps, kind).obj
                else SameAt(w.store.objects, after.objects, KeyOf(op, kind)))
  {
    var mc := CarryOut(api, op, w, MachineConfig, ps.mc);
    CarryOutAt(api, op, w, MachineConfig, ps.mc, kind);
    var tuned := CarryOut(api, op, mc.world, Tuned, ps.tuned);
    CarryOutAt(api, op, mc.world, Tuned, ps.tuned, kind);
    var kc := CarryOut(api, op, tuned.world, KubeletConfig, ps.kc);
    CarryOutAt(api, op, tuned.world, KubeletConfig, ps.kc, kind);
    CarryOutAt(api, op, kc.world, RuntimeClass, ps.rc, kind);
  }

  /** The effect of carrying out one plan on the component of one kind. */
  lemma CarryOutAt(api: Api, op: Operator, w: World, acting: Kind, plan: Plan, kind: Kind)
    requires ListsEverything(api)
    requires CarryOut(api, op, w, acting, plan).out.None?
    ensures var after := CarryOut(api, op, w, acting, plan).world.store;
            && after == w.store.(objects := after.objects)
            && SameAt(w.store.objects, after.objects, DeprecatedKey(op.name))
            && (if acting == kind && plan.Write?
                then KeyOf(op, kind) in after.objects && after.objects[KeyOf(op, kind)] == plan.obj
                else SameAt(w.store.objects, after.objects, KeyOf(op, kind)))
  {
    CarryOutEffect(api, op, w, acting, plan);
    ComponentsApart(op, acting, kind);
  }

  /** How a component stands after a successful apply: it agrees with what was generated, and if it
      was there before, its foreign labels and annotations, owners and life-cycle state survive. */
  ghost predicate Established(kind: Kind, before: map<Key, Obj>, after: map<Key, Obj>, key: Key, desired: Obj) {
    && key in after
    && Agrees(kind, after[key], desired)
    && (key !in before ==> after[key] == desired)
    && (key in before ==>
          && (after[key].spec == before[key].spec || Rewritten(kind, before[key].spec, after[key].spec, desired.spec))
          && MergedInto(desired.labels, before[key].labels, after[key].labels)
          && MergedInto(desired.annotations, before[key].annotations, after[key].annotations)
          && after[key].owners == before[key].owners
          && after[key].pinned == before[key].pinned
          && after[key].deleting == before[key].deleting
          && after[key].conditions == before[key].conditions)
  }

  lemma KeptIsEstablished(kind: Kind, objects: map<Key, Obj>, key: Key, desired: Obj)
    requires key.kind == kind && PlanOf(objects, key, desired) == Keep
    ensures Established(kind, objects, objects, key, desired)
  {
    PlanIff(kind, objects[key], desired);
    var o := objects[key];
    assert o.labels.Keys == o.labels.Keys + desired.labels.Keys;
    assert o.annotations.Keys == o.annotations.Keys + desired.annotations.Keys;
  }

  lemma WrittenIsEstablished(kind: Kind, before: map<Key, Obj>, after: map<Key, Obj>, key: Key, desired: Obj)
    requires key.kind == kind && PlanOf(before, key, desired).Write?
    requires key in after && after[key] == PlanOf(before, key, desired).obj
    ensures Established(kind, before, after, key, desired)
  {
    if key in before {
      RewriteSettles(kind, before[key], desired);
    }
  }

  /** The annotation that suspends the operator for a profile. */
  predicate IsPaused(annotations: map<string, string>) {
    && "performance.openshift.io/pause-reconcile" in annotations
    && annotations["performance.openshift.io/pause-reconcile"] == "true"
  }

  /** An apply for a paused profile makes no call. */
  lemma PausedApply(api: Api, op: Operator, w: World, p: Profile, pool: Pool)
    requires IsPaused(p.input.annotations)
    ensures Apply(api, op, w, p, pool) == Step(w, Untouched)
  {
  }

  /** An unpaused apply that reports success, whatever happened to its calls, has established all
      four components. */
  lemma ApplyEstablishes(api: Api, op: Operator, w: World, p: Profile, pool: Pool)
    requires ListsEverything(api) && !IsPaused(p.input.annotations)
    requires !Apply(api, op, w, p, pool).out.Stopped?
    ensures op.generate(p.input, pool).Success?
    ensures forall kind :: Established(kind, w.store.objects, Apply(api, op, w, p, pool).world.store.objects,
                                       KeyOf(op, kind), Desired(op, Part(op.generate(p.input, pool).value, kind)))
  {
    var ms := op.generate(p.input, pool).value;
    var planned := Planned(api, op, w, ms);
    var ps := planned.out;
    PlannedReflectsStore(api, op, w, ms);
    Safety.PlannedReadsOnly(api, op, w, ms);
    var after := Apply(api, op, w, p, pool).world.store.objects;
    forall kind
      ensures Established(kind, w.store.objects, after, KeyOf(op, kind), Desired(op, Part(ms, kind)))
    {
      if Apply(api, op, w, p, pool).out.Changed? {
        WrittenEffect(api, op, planned.world, ps, kind);
      }
      var key, desired := KeyOf(op, kind), Desired(op, Part(ms, kind));
      assert PlanAt(ps, kind) == PlanOf(w.store.objects, key, desired);
      assert !PlanOfKind(op, w.store.objects, ms, kind).Stop?;
      if PlanAt(ps, kind).Write? {
        WrittenIsEstablished(kind, w.store.objects, after, key, desired);
      } else {
        KeptIsEstablished(kind, w.store.objects, key, desired);
        assert SameAt(w.store.objects, after, key);
      }
    }
  }

  /** A component that was not there is created as generated, with the profile as its owner. */
  lemma ApplyCreates(api: Api, op: Operator, w: World, p: Profile, pool: Pool, kind: Kind)
    requires ListsEverything(api) && !IsPaused(p.input.annotations)
    requires !Apply(api, op, w, p, pool).out.Stopped?
    requires KeyOf(op, kind) !in w.store.objects
    ensures op.generate(p.input, pool).Success?
    ensures var m := Part(op.generate(p.input, pool).value, kind);
            var after := Apply(api, op, w, p, pool).world.store.objects;
            && KeyOf(op, kind) in after
            && after[KeyOf(op, kind)] == Obj(m.labels, m.annotations, [op.name], m.spec, false, false, [])
  {
    ApplyEstablishes(api, op, w, p, pool);
    var ms, after := op.generate(p.input, pool).value, Apply(api, op, w, p, pool).world.store.objects;
    assert Established(kind, w.store.objects, after, KeyOf(op, kind), Desired(op, Part(ms, kind)));
  }

  // ----- a second apply -----

  /** Generated kubelet configurations parse, as marshalled ones do. */
  ghost predicate ParsesOwnOutput(op: Operator) {
    forall input: ProfileInput, pool: Pool ::
      op.generate(input, pool).Success? ==> op.generate(input, pool).value.kc.spec.decoded.Success?
  }

  /** A server that answers every call and lists every object. */
  ghost predicate Quiet(api: Api) {
    NoFaults(api) && ListsEverything(api)
  }

  lemma QuietCall(api: Api, n: nat)
    requires Quiet(api)
    ensures api.fate(n) == Served
  {
  }

  /** The outcome of the four reads as a function of the objects alone. */
  function PlansOf(op: Operator, objects: map<Key, Obj>, ms: Manifests): Plans {
    var mc := PlanOfKind(op, objects, ms, MachineConfig);
    var kc := PlanOfKind(op, objects, ms, KubeletConfig);
    var tuned := PlanOfKind(op, objects, ms, Tuned);
    var rc := PlanOfKind(op, objects, ms, RuntimeClass);
    if mc.Stop? then Blocked(mc.fault)
    else if kc.Stop? then Blocked(kc.fault)
    else if tuned.Stop? then Blocked(tuned.fault)
    else if rc.Stop? then Blocked(rc.fault)
    else Plans(mc, kc, tuned, rc)
  }

  lemma QuietGetMutated(api: Api, w: World, key: Key, desired: Obj)
    requires Quiet(api)
    ensures GetMutated(api, w, key, desired) == Step(Ticked(w), PlanOf(w.store.objects, key, desired))
  {
    QuietCall(api, w.calls);
  }

  lemma QuietPlanned(api: Api, op: Operator, w: World, ms: Manifests)
    requires Quiet(api)
    ensures Planned(api, op, w, ms).out == PlansOf(op, w.store.objects, ms)
  {
    QuietGetMutated(api, w, KeyOf(op, MachineConfig), Desired(op, ms.mc));
    QuietGetMutated(api, Ticked(w), KeyOf(op, KubeletConfig), Desired(op, ms.kc));
    QuietGetMutated(api, Ticked(Ticked(w)), KeyOf(op, Tuned), Desired(op, ms.tuned));
    QuietGetMutated(api, Ticked(Ticked(Ticked(w))), KeyOf(op, RuntimeClass), Desired(op, ms.rc));
  }

  lemma QuietCarryOut(api: Api, op: Operator, w: World, kind: Kind, plan: Plan)
    requires Quiet(api)
    ensures CarryOut(api, op, w, kind, plan).out.None?
  {
    if plan.Write? {
      QuietCall(api, w.calls);
      QuietCall(api, w.calls + 1);
      if kind.Tuned? {
        var listed := ListTuned(api, w);
        var outdated := Outdated(listed.out.value, KeyOf(op, Tuned).name, op.name);
        Safety.DeleteAllSucceeds(api, listed.world, outdated);
        var w1 := DeleteAll(api, listed.world, outdated).world;
        QuietCall(api, w1.calls);
        QuietCall(api, w1.calls + 1);
      }
    }
  }

  lemma QuietWritten(api: Api, op: Operator, w: World, ps: Plans)
    requires Quiet(api) && ps.Plans?
    ensures Written(api, op, w, ps).out.None?
  {
    var mc := CarryOut(api, op, w, MachineConfig, ps.mc);
    QuietCarryOut(api, op, w, MachineConfig, ps.mc);
    var tuned := CarryOut(api, op, mc.world, Tuned, ps.tuned);
    QuietCarryOut(api, op, mc.world, Tuned, ps.tuned);
    var kc := CarryOut(api, op, tuned.world, KubeletConfig, ps.kc);
    QuietCarryOut(api, op, tuned.world, KubeletConfig, ps.kc);
    QuietCarryOut(api, op, kc.world, RuntimeClass, ps.rc);
  }

  /** A plan that was carried out leaves nothing to plan. */
  lemma PlanSettles(op: Operator, before: map<Key, Obj>, after: map<Key, Obj>, ms: Manifests, kind: Kind)
    requires kind == KubeletConfig ==> ms.kc.spec.decoded.Success?
    requires !PlanOfKind(op, before, ms, kind).Stop?
    requires if PlanOfKind(op, before, ms, kind).Write?
             then KeyOf(op, kind) in after && after[KeyOf(op, kind)] == PlanOfKind(op, before, ms, kind).obj
             else SameAt(before, after, KeyOf(op, kind))
    ensures PlanOfKind(op, after, ms, kind) == Keep
  {
    var key, desired := KeyOf(op, kind), Desired(op, Part(ms, kind));
    if PlanOf(before, key, desired).Write? {
      if key in before {
        RewriteSettles(kind, before[key], desired);
      } else {
        CreationSettles(kind, desired);
      }
    }
  }

  /** What an apply amounts to when asked again on the store it left. */
  function Again(applied: Applied): Applied {
    if applied.Changed? then Untouched else applied
  }

  /** Applying a second time changes nothing, and stops where the first one stopped. */
  lemma ApplySettles(api: Api, api': Api, op: Operator, w: World, w': World, p: Profile, p': Profile, pool: Pool)
    requires Quiet(api) && Quiet(api') && ParsesOwnOutput(op)
    requires p.input == p'.input
    requires w'.store.objects == Apply(api, op, w, p, pool).world.store.objects
    ensures Apply(api', op, w', p', pool).world.store == w'.store
    ensures Apply(api', op, w', p', pool).world.writes == w'.writes
    ensures Apply(api', op, w', p', pool).out == Again(Apply(api, op, w, p, pool).out)
    ensures SameAt(w.store.objects, w'.store.objects, DeprecatedKey(op.name))
  {
    if !Paused(p.input) && op.generate(p.input, pool).Success? {
      var ms := op.generate(p.input, pool).value;
      var planned := Planned(api, op, w, ms);
      QuietPlanned(api, op, w, ms);
      QuietPlanned(api', op, w', ms);
      Safety.PlannedReadsOnly(api, op, w, ms);
      Safety.PlannedReadsOnly(api', op, w', ms);
      if planned.out.Plans? && AnyWrite(planned.out) {
        QuietWritten(api, op, planned.world, planned.out);
        WrittenSettles(api, op, w, w'.store.objects, ms);
      }
    }
  }

  predicate AnyWrite(ps: Plans)
    requires ps.Plans?
  {
    ps.mc.Write? || ps.kc.Write? || ps.tuned.Write? || ps.rc.Write?
  }

  lemma WrittenSettles(api: Api, op: Operator, w: World, after: map<Key, Obj>, ms: Manifests)
    requires Quiet(api) && ms.kc.spec.decoded.Success?
    requires Planned(api, op, w, ms).out.Plans?
    requires Written(api, op, Planned(api, op, w, ms).world, Planned(api, op, w, ms).out).out.None?
    requires after == Written(api, op, Planned(api, op, w, ms).world, Planned(api, op, w, ms).out).world.store.objects
    ensures PlansOf(op, after, ms) == Plans(Keep, Keep, Keep, Keep)
    ensures SameAt(w.store.objects, after, DeprecatedKey(op.name))
  {
    var planned := Planned(api, op, w, ms);
    PlannedReflectsStore(api, op, w, ms);
    Safety.PlannedReadsOnly(api, op, w, ms);
    forall kind
      ensures PlanOfKind(op, after, ms, kind) == Keep
    {
      WrittenEffect(api, op, planned.world, planned.out, kind);
      assert PlanAt(planned.out, kind) == PlanOfKind(op, w.store.objects, ms, kind);
      assert !PlanOfKind(op, w.store.objects, ms, kind).Stop?;
      PlanSettles(op, w.store.objects, after, ms, kind);
    }
    WrittenEffect(api, op, planned.world, planned.out, MachineConfig);
  }

  // ----- a second status update -----

  lemma DiffersIgnoresTime(stored: seq<Condition>, a: Condition, b: Condition)
    requires SameCondition(a, b)
    ensures Differs(stored, a) == Differs(stored, b)
  {
  }

  /** Nothing differs from a list that was just written, or found equal, whatever the clock says. */
  lemma StatusSettles(api: Api, api': Api, op: Operator, w: World, w': World, p: Profile, p': Profile,
                      a: seq<Condition>, b: seq<Condition>)
    requires NoFaults(api)
    requires FourTypes(a) && FourTypes(b) && SameButForTime(a, b)
    requires w.store.profile == Some(p)
    requires UpdateStatus(api, op, w, p, a).world.store.profile == Some(p')
    ensures UpdateStatus(api', op, w', p', b) == Step(w', None)
    ensures p' == p.(status := p'.status)
    ensures UpdateStatus(api, op, w, p, a).world.store == w.store.(profile := Some(p'))
    ensures UpdateStatus(api, op, w, p, a).out.None?
  {
    assert api.fate(w.calls) == Served;
    forall i | 0 <= i < 4
      ensures !Differs(p'.status.conditions, b[i])
    {
      DiffersIgnoresTime(p'.status.conditions, a[i], b[i]);
      if p'.status.conditions == a {
        assert a[..4] == a;
        FindInFour(a, i);
      } else {
        assert !AnyDiffers(p.status.conditions, a);
      }
    }
  }

  // ----- a second reconcile -----

  /** The conditions a health answer leads to. */
  function Verdict(h: Health, now: int): seq<Condition>
    requires !h.Unreadable?
  {
    if h.Unhealthy? then h.conditions else AvailableConditions(now)
  }

  ghost predicate SameVerdict(a: Health, b: Health, now: int, later: int) {
    && !a.Unreadable? && !b.Unreadable?
    && (a.Healthy? <==> b.Healthy?)
    && FourTypes(Verdict(a, now)) && FourTypes(Verdict(b, later))
    && SameButForTime(Verdict(a, now), Verdict(b, later))
  }

  lemma QuietKubelet(api: Api, api': Api, op: Operator, now: int, later: int, w: World, w': World)
    requires Quiet(api) && Quiet(api') && w.store.objects == w'.store.objects
    ensures SameVerdict(KubeletHealth(api, op, now, w).out, KubeletHealth(api', op, later, w').out, now, later)
    ensures KubeletHealth(api, op, now, w).world == Ticked(w) && KubeletHealth(api', op, later, w').world == Ticked(w')
  {
    QuietCall(api, w.calls);
    QuietCall(api', w'.calls);
  }

  lemma QuietTuned(api: Api, api': Api, now: int, later: int, w: World, w': World)
    requires Quiet(api) && Quiet(api') && w.store.tunedReport == w'.store.tunedReport
    ensures SameVerdict(TunedHealth(api, now, w).out, TunedHealth(api', later, w').out, now, later)
  {
    QuietCall(api, w.calls);
    QuietCall(api, w.calls + 1);
    QuietCall(api', w'.calls);
    QuietCall(api', w'.calls + 1);
  }

  /** Checking the health of the same store at two times leads to the same conditions but for time. */
  lemma QuietChecked(api: Api, api': Api, op: Operator, now: int, later: int, w: World, w': World, pool: Pool)
    requires Quiet(api) && Quiet(api')
    requires w.store.objects == w'.store.objects && w.store.tunedReport == w'.store.tunedReport
    ensures SameVerdict(Checked(api, op, now, w, pool).out, Checked(api', op, later, w', pool).out, now, later)
  {
    QuietKubelet(api, api', op, now, later, w, w');
    QuietTuned(api, api', now, later, Ticked(w), Ticked(w'));
  }

  lemma ReportSettles(api: Api, api': Api, op: Operator, now: int, later: int, w: World, w': World,
                      p: Profile, p': Profile,
                      reason: string, message: string, outcome: Outcome)
    requires Quiet(api)
    requires w.store.profile == Some(p)
    requires Report(api, op, now, w, p, reason, message, outcome).world.store == w'.store
    requires w'.store.profile == Some(p')
    ensures Report(api', op, later, w', p', reason, message, outcome) == Step(w', outcome)
    ensures p' == p.(status := p'.status)
    ensures w'.store == w.store.(profile := Some(p'))
  {
    StatusSettles(api, api', op, w, w', p, p',
                  DegradedConditions(reason, message, now), DegradedConditions(reason, message, later));
  }

  lemma AfterApplySettles(api: Api, api': Api, op: Operator, now: int, later: int, w: World, w': World,
                          p: Profile, p': Profile,
                          pool: Pool, applied: Applied)
    requires Quiet(api) && Quiet(api')
    requires w.store.profile == Some(p)
    requires AfterApply(api, op, now, w, p, pool, applied).world.store == w'.store
    requires w'.store.profile == Some(p')
    ensures AfterApply(api', op, later, w', p', pool, Again(applied)).world.store == w'.store
    ensures AfterApply(api', op, later, w', p', pool, Again(applied)).world.writes == w'.writes
    ensures p' == p.(status := p'.status)
    ensures w'.store == w.store.(profile := Some(p'))
  {
    Safety.AfterApplyChanges(api, op, now, w, p, pool, applied);
    assert w.store.objects == w'.store.objects && w.store.tunedReport == w'.store.tunedReport;
    QuietChecked(api, api', op, now, later, w, w', pool);
    Safety.CheckedReadsOnly(api, op, now, w, pool);
    Safety.CheckedReadsOnly(api', op, later, w', pool);
    var a := Checked(api, op, now, w, pool);
    var b := Checked(api', op, later, w', pool);
    StatusSettles(api, api', op, a.world, b.world, p, p', Verdict(a.out, now), Verdict(b.out, later));
  }

  /** The write calls left in a settled store: a deprecated machine config that is pinned is deleted
      again every time, to no effect. */
  ghost function IdleWrites(op: Operator, s: Store): nat {
    if DeprecatedKey(op.name) in s.objects then 1 else 0
  }

  lemma DeprecatedSettles(api: Api, api': Api, op: Operator, w: World, w': World)
    requires Quiet(api) && Quiet(api')
    requires SameAt(DeleteIfPresent(api, w, DeprecatedKey(op.name)).world.store.objects,
                    w'.store.objects, DeprecatedKey(op.name))
    ensures DeleteIfPresent(api, w, DeprecatedKey(op.name)).out.None?
    ensures DeleteIfPresent(api', w', DeprecatedKey(op.name)).out.None?
    ensures DeleteIfPresent(api', w', DeprecatedKey(op.name)).world.store == w'.store
    ensures DeleteIfPresent(api', w', DeprecatedKey(op.name)).world.writes == w'.writes + IdleWrites(op, w'.store)
  {
    QuietCall(api, w.calls);
    QuietCall(api, w.calls + 1);
    QuietCall(api', w'.calls);
    QuietCall(api', w'.calls + 1);
    var key := DeprecatedKey(op.name);
    DeleteIfPresentExact(api, w, key);
    DeleteIfPresentExact(api', w', key);
    assert Deleted(w'.store.objects, key) == w'.store.objects;
  }

  /** A reconcile that gets to the components removes the machine config of the deprecated name, or marks it
      when it is pinned. */
  lemma DeprecatedGoes(api: Api, op: Operator, now: int, w: World, p: Profile, pool: Pool)
    requires Quiet(api) && ParsesOwnOutput(op) && w.store.profile == Some(p)
    ensures var key, s := DeprecatedKey(op.name), w.store.objects;
            var t := ReconcileWithPool(api, op, now, w, p, pool).world.store.objects;
            && (key in t <==> key in s && s[key].pinned)
            && (key in t ==> t[key] == s[key].(deleting := true))
  {
    var key := DeprecatedKey(op.name);
    var deprecated := DeleteIfPresent(api, w, key);
    DeprecatedSettlesOnce(api, w, key);
    DeleteIfPresentExact(api, w, key);
    var applied := Apply(api, op, deprecated.world, p, pool);
    Safety.ApplyKeepsProfile(api, op, deprecated.world, p, pool);
    ApplySettles(api, api, op, deprecated.world, applied.world, p, p, pool);
    FinishKeepsObjects(api, op, now, p, pool, applied);
  }

  lemma FinishKeepsObjects(api: Api, op: Operator, now: int, p: Profile, pool: Pool, a: Step<Applied>)
    ensures Finish(api, op, now, p, pool, a).world.store.objects == a.world.store.objects
  {
    match a.out
    case Stopped(Panic) =>
    case Stopped(Fault(t)) => Safety.ReportChanges(api, op, now, a.world, p, CREATION_FAILED, t, Error(t));
    case _ => Safety.AfterApplyChanges(api, op, now, a.world, p, pool, a.out);
  }

  ghost predicate Live(s: Store) {
    s.profile.Some? && !s.profile.value.deleting && FINALIZER in s.profile.value.finalizers
  }

  lemma ReconcileWithPoolSettles(api: Api, api': Api, op: Operator, now: int, later: int, w: World, w': World,
                                 p: Profile, p': Profile, pool: Pool)
    requires Quiet(api) && Quiet(api') && ParsesOwnOutput(op)
    requires w.store.profile == Some(p) && w'.store.profile == Some(p')
    requires ReconcileWithPool(api, op, now, w, p, pool).world.store == w'.store
    ensures p' == p.(status := p'.status)
    ensures ReconcileWithPool(api', op, later, w', p', pool).world.store == w'.store
    ensures ReconcileWithPool(api', op, later, w', p', pool).world.writes == w'.writes + IdleWrites(op, w'.store)
  {
    var key := DeprecatedKey(op.name);
    var deprecated := DeleteIfPresent(api, w, key);
    DeprecatedSettlesOnce(api, w, key);
    var applied := Apply(api, op, deprecated.world, p, pool);
    DeleteIfPresentRemoves(api, w, key);
    Safety.ApplyKeepsProfile(api, op, deprecated.world, p, pool);
    var deprecated' := DeleteIfPresent(api', w', key);
    match applied.out {
      case Stopped(Panic) =>
        ApplySettles(api, api', op, deprecated.world, w', p, p', pool);
        DeprecatedSettles(api, api', op, w, w');
        ApplySettles(api, api', op, deprecated.world, deprecated'.world, p, p', pool);
      case Stopped(Fault(t)) =>
        Safety.ReportChanges(api, op, now, applied.world, p, CREATION_FAILED, t, Error(t));
        ApplySettles(api, api', op, deprecated.world, w', p, p', pool);
        DeprecatedSettles(api, api', op, w, w');
        ReportSettles(api, api', op, now, later, applied.world, w', p, p', CREATION_FAILED, t, Error(t));
        ApplySettles(api, api', op, deprecated.world, deprecated'.world, p, p', pool);
        var applied' := Apply(api', op, deprecated'.world, p', pool);
        ReportSettles(api, api', op, now, later, applied.world, applied'.world, p, p', CREATION_FAILED, t, Error(t));
      case _ =>
        Safety.AfterApplyChanges(api, op, now, applied.world, p, pool, applied.out);
        ApplySettles(api, api', op, deprecated.world, w', p, p', pool);
        DeprecatedSettles(api, api', op, w, w');
        AfterApplySettles(api, api', op, now, later, applied.world, w', p, p', pool, applied.out);
        ApplySettles(api, api', op, deprecated.world, deprecated'.world, p, p', pool);
        var applied' := Apply(api', op, deprecated'.world, p', pool);
        AfterApplySettles(api, api', op, now, later, applied.world, applied'.world, p, p', pool, applied.out);
    }
  }

  lemma DeprecatedSettlesOnce(api: Api, w: World, key: Key)
    requires Quiet(api)
    ensures DeleteIfPresent(api, w, key).out.None?
  {
    QuietCall(api, w.calls);
    QuietCall(api, w.calls + 1);
  }

  /** Without call failures, a reconcile of a live profile leads to a store that the next one, at
      whatever time, leaves as it is. */
  lemma ReconcileSettles(api: Api, api': Api, op: Operator, now: int, later: int, w: World, w': World)
    requires Quiet(api) && Quiet(api') && ParsesOwnOutput(op)
    requires Live(w.store)
    requires w'.store == Reconcile(api, op, now, w).world.store
    ensures Live(w'.store)
    ensures Reconcile(api', op, later, w').world.store == w'.store
    ensures Reconcile(api', op, later, w').world.writes <= w'.writes + IdleWrites(op, w'.store)
  {
    QuietCall(api, w.calls);
    QuietCall(api, w.calls + 1);
    QuietCall(api', w'.calls);
    QuietCall(api', w'.calls + 1);
    var p := w.store.profile.value;
    var w1, w1' := Ticked(w), Ticked(w');
    Safety.ReconcileLiveEffect(api, op, now, w1, p);
    var p' := w'.store.profile.value;
    var w2, w2' := Ticked(w1), Ticked(w1');
    assert w'.store.pools == w.store.pools && p'.input == p.input;
    var found := FindPool(op.matches, w.store.pools, p.input.nodeSelector);
    match found
    case Failure(t) =>
      ReportSettles(api, api', op, now, later, w2, w2', p, p', POOL_NOT_FOUND, t, Done);
    case Success(pool) =>
      var invalid := op.validate(p.input, pool);
      if invalid.Some? {
        ReportSettles(api, api', op, now, later, w2, w2', p, p', BAD_LABELS, invalid.value, Done);
      } else {
        ReconcileWithPoolSettles(api, api', op, now, later, w2, w2', p, p', pool);
      }
  }

  /** One reconcile gives a profile that is not under deletion the finalizer. */
  lemma ReconcileMakesLive(api: Api, op: Operator, now: int, w: World)
    requires Quiet(api)
    requires w.store.profile.Some? && !w.store.profile.value.deleting
    ensures Live(Reconcile(api, op, now, w).world.store)
  {
    QuietCall(api, w.calls);
    QuietCall(api, w.calls + 1);
    var p := w.store.profile.value;
    if FINALIZER in p.finalizers {
      Safety.ReconcileLiveEffect(api, op, now, Ticked(w), p);
    } else {
      assert FINALIZER in p.finalizers + [FINALIZER];
    }
  }

  // ----- quiescence -----

  ghost predicate QuietStep(op: Operator, s: Store, t: Store) {
    exists api: Api, now: int :: Quiet(api) && t == Reconcile(api, op, now, World(s, 0, 0)).world.store
  }

  /** Consecutive reconciles without call failures and without anyone else acting. */
  ghost predicate QuietRun(op: Operator, trace: seq<Store>) {
    forall i, j | 0 <= i < j < |trace| && j == i + 1 :: QuietStep(op, trace[i], trace[j])
  }

  lemma QuietStepSettles(op: Operator, s: Store, t: Store, u: Store)
    requires ParsesOwnOutput(op) && Live(s) && QuietStep(op, s, t) && QuietStep(op, t, u)
    ensures u == t && Live(t)
  {
    var api: Api, now: int :| Quiet(api) && t == Reconcile(api, op, now, World(s, 0, 0)).world.store;
    var api': Api, later: int :| Quiet(api') && u == Reconcile(api', op, later, World(t, 0, 0)).world.store;
    ReconcileSettles(api, api', op, now, later, World(s, 0, 0), World(t, 0, 0));
  }

  lemma QuietStepMakesLive(op: Operator, s: Store, t: Store)
    requires QuietStep(op, s, t) && s.profile.Some? && !s.profile.value.deleting
    ensures Live(t)
  {
    var api: Api, now: int :| Quiet(api) && t == Reconcile(api, op, now, World(s, 0, 0)).world.store;
    ReconcileMakesLive(api, op, now, World(s, 0, 0));
  }

  lemma {:induction false} LiveFromTheFirst(op: Operator, trace: seq<Store>, i: nat)
    requires QuietRun(op, trace) && 1 <= i < |trace|
    requires trace[0].profile.Some? && !trace[0].profile.value.deleting
    ensures Live(trace[i])
  {
    var s, t := trace[i - 1], trace[i];
    if i == 1 {
      QuietStepMakesLive(op, s, t);
    } else {
      LiveFromTheFirst(op, trace, i - 1);
      QuietStepMakesLive(op, s, t);
    }
  }

  lemma SettledFromTheSecond(op: Operator, trace: seq<Store>, i: nat)
    requires ParsesOwnOutput(op) && QuietRun(op, trace) && 3 <= i < |trace|
    requires trace[0].profile.Some? && !trace[0].profile.value.deleting
    ensures trace[i] == trace[i - 1]
  {
    LiveFromTheFirst(op, trace, i - 2);
    assert QuietStep(op, trace[i - 2], trace[i - 1]);
    QuietStepSettles(op, trace[i - 2], trace[i - 1], trace[i]);
  }

  /** From any store with a profile that is not under deletion, at most the first two of a row of
      undisturbed reconciles change anything. */
  lemma {:induction false} AtMostTwoReconcilesWrite(op: Operator, trace: seq<Store>, i: nat)
    requires ParsesOwnOutput(op) && QuietRun(op, trace) && 2 <= i < |trace|
    requires trace[0].profile.Some? && !trace[0].profile.value.deleting
    ensures trace[i] == trace[2] && Live(trace[i])
  {
    LiveFromTheFirst(op, trace, i);
    if i > 2 {
      SettledFromTheSecond(op, trace, i);
      AtMostTwoReconcilesWrite(op, trace, i - 1);
    }
  }

  /** And the later ones do not even ask the server for a change, unless a pinned machine config of
      the deprecated name refuses to go. */
  lemma SettledReconcileIsIdle(op: Operator, trace: seq<Store>, i: nat, api: Api, now: int)
    requires ParsesOwnOutput(op) && QuietRun(op, trace)
    requires 2 <= i < |trace|
    requires trace[0].profile.Some? && !trace[0].profile.value.deleting
    requires Quiet(api)
    ensures Reconcile(api, op, now, World(trace[i], 0, 0)).world.writes <= IdleWrites(op, trace[i])
  {
    AtMostTwoReconcilesWrite(op, trace, i);
    LiveFromTheFirst(op, trace, 1);
    assert QuietStep(op, trace[1], trace[2]);
    var first: Api, then_: int :|
      Quiet(first) && trace[2] == Reconcile(first, op, then_, World(trace[1], 0, 0)).world.store;
    ReconcileSettles(first, api, op, then_, now, World(trace[1], 0, 0), World(trace[2], 0, 0));
  }
}
