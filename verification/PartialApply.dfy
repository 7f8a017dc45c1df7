/**
  How far an apply gets when calls fail: the components are written one after the
  other, machine config, Tuned, kubelet config and runtime class.
 */
module PartialApply {
  import opened Cluster
  import opened Resources
  import opened ResourceFacts
  import opened Controller
  import opened Quiescence
  import Safety

  lemma DeletedElsewhere(objects: map<Key, Obj>, key: Key, k: Key)
    requires k != key
    ensures SameAt(objects, Deleted(objects, key), k)
  {
  }

  lemma DeleteIfPresentElsewhere(api: Api, w: World, key: Key, k: Key)
    requires k != key
    ensures SameAt(w.store.objects, DeleteIfPresent(api, w, key).world.store.objects, k)
  {
    DeletedElsewhere(w.store.objects, key, k);
  }

  lemma {:induction false} DeleteAllElsewhere(api: Api, w: World, keys: seq<Key>, k: Key)
    requires k !in keys
    ensures SameAt(w.store.objects, DeleteAll(api, w, keys).world.store.objects, k)
    decreases |keys|
  {
    if keys != [] {
      DeleteIfPresentElsewhere(api, w, keys[0], k);
      DeleteAllElsewhere(api, DeleteIfPresent(api, w, keys[0]).world, keys[1..], k);
    }
  }

  lemma RemovalElsewhere(api: Api, w: World, name: string, profileName: string, k: Key)
    requires ListsEverything(api) && (k.kind != Tuned || k.name == name)
    ensures SameAt(w.store.objects, RemoveOutdatedTuned(api, w, name, profileName).world.store.objects, k)
  {
    var listed := ListTuned(api, w);
    if listed.out.Found? {
      var keys := Outdated(listed.out.value, name, profileName);
      ListedOutdated(api, w, name, profileName);
      assert k !in OutdatedKeys(w.store.objects, name, profileName);
      assert k !in (set x | x in keys);
      DeleteAllElsewhere(api, listed.world, keys, k);
    }
  }

  lemma CreateOrUpdateElsewhere(api: Api, w: World, key: Key, obj: Obj, k: Key)
    requires k != key
    ensures SameAt(w.store.objects, CreateOrUpdate(api, w, key, obj).world.store.objects, k)
  {
  }

  /** Whatever fails, carrying out one plan leaves the other components alone. */
  lemma CarryOutElsewhere(api: Api, op: Operator, w: World, acting: Kind, plan: Plan, kind: Kind)
    requires ListsEverything(api) && acting != kind
    ensures SameAt(w.store.objects, CarryOut(api, op, w, acting, plan).world.store.objects, KeyOf(op, kind))
  {
    var key := KeyOf(op, kind);
    if plan.Write? {
      if acting.Tuned? {
        var removed := RemoveOutdatedTuned(api, w, KeyOf(op, Tuned).name, op.name);
        RemovalElsewhere(api, w, KeyOf(op, Tuned).name, op.name, key);
        CreateOrUpdateElsewhere(api, removed.world, KeyOf(op, Tuned), plan.obj, key);
      } else {
        CreateOrUpdateElsewhere(api, w, KeyOf(op, acting), plan.obj, key);
      }
    }
  }

  /** The component of a kind is as planned. */
  ghost predicate AsPlanned(op: Operator, before: map<Key, Obj>, after: map<Key, Obj>, ps: Plans, kind: Kind)
    requires ps.Plans?
  {
    var key := KeyOf(op, kind);
    if PlanAt(ps, kind).Write? then key in after && after[key] == PlanAt(ps, kind).obj else SameAt(before, after, key)
  }

  lemma CarriedOut(api: Api, op: Operator, before: map<Key, Obj>, w: World, ps: Plans, kind: Kind)
    requires ListsEverything(api) && ps.Plans? && SameAt(before, w.store.objects, KeyOf(op, kind))
    requires CarryOut(api, op, w, kind, PlanAt(ps, kind)).out.None?
    ensures AsPlanned(op, before, CarryOut(api, op, w, kind, PlanAt(ps, kind)).world.store.objects, ps, kind)
  {
    CarryOutAt(api, op, w, kind, PlanAt(ps, kind), kind);
  }

  /** The steps from `s` on leave a component as it is, or make it as planned. */
  lemma WrittenInOrder(api: Api, op: Operator, w: World, ps: Plans)
    requires ListsEverything(api) && ps.Plans?
    ensures var a, b := w.store.objects, Written(api, op, w, ps).world.store.objects;
            && (!SameAt(a, b, KeyOf(op, Tuned)) ==> AsPlanned(op, a, b, ps, MachineConfig))
            && (!SameAt(a, b, KeyOf(op, KubeletConfig)) ==>
                  AsPlanned(op, a, b, ps, MachineConfig) && AsPlanned(op, a, b, ps, Tuned))
            && (!SameAt(a, b, KeyOf(op, RuntimeClass)) ==>
                  && AsPlanned(op, a, b, ps, MachineConfig)
                  && AsPlanned(op, a, b, ps, Tuned)
                  && AsPlanned(op, a, b, ps, KubeletConfig))
  {
    var a := w.store.objects;
    var mc := CarryOut(api, op, w, MachineConfig, ps.mc);
    StepElsewhere(api, op, w, MachineConfig, ps.mc);
    if mc.out.None? {
      CarriedOut(api, op, a, w, ps, MachineConfig);
      var tuned := CarryOut(api, op, mc.world, Tuned, ps.tuned);
      StepElsewhere(api, op, mc.world, Tuned, ps.tuned);
      if tuned.out.None? {
        CarriedOut(api, op, a, mc.world, ps, Tuned);
        var kc := CarryOut(api, op, tuned.world, KubeletConfig, ps.kc);
        StepElsewhere(api, op, tuned.world, KubeletConfig, ps.kc);
        if kc.out.None? {
          CarriedOut(api, op, a, tuned.world, ps, KubeletConfig);
          StepElsewhere(api, op, kc.world, RuntimeClass, ps.rc);
        }
      }
    }
  }

  lemma StepElsewhere(api: Api, op: Operator, w: World, acting: Kind, plan: Plan)
    requires ListsEverything(api)
    ensures forall kind | kind != acting ::
              SameAt(w.store.objects, CarryOut(api, op, w, acting, plan).world.store.objects, KeyOf(op, kind))
  {
    forall kind | kind != acting
      ensures SameAt(w.store.objects, CarryOut(api, op, w, acting, plan).world.store.objects, KeyOf(op, kind))
    {
      CarryOutElsewhere(api, op, w, acting, plan, kind);
    }
  }

  /** The component of a kind stands as a successful apply leaves it. */
  ghost predicate Applied(op: Operator, before: map<Key, Obj>, after: map<Key, Obj>, ms: Manifests, kind: Kind) {
    Established(kind, before, after, KeyOf(op, kind), Desired(op, Part(ms, kind)))
  }

  lemma AsPlannedIsApplied(op: Operator, before: map<Key, Obj>, after: map<Key, Obj>, ms: Manifests, ps: Plans,
                           kind: Kind)
    requires ps.Plans? && PlanAt(ps, kind) == PlanOfKind(op, before, ms, kind) && !PlanAt(ps, kind).Stop?
    requires AsPlanned(op, before, after, ps, kind)
    ensures Applied(op, before, after, ms, kind)
  {
    var key, desired := KeyOf(op, kind), Desired(op, Part(ms, kind));
    if PlanAt(ps, kind).Write? {
      WrittenIsEstablished(kind, before, after, key, desired);
    } else {
      KeptIsEstablished(kind, before, key, desired);
    }
  }

  /** Whatever calls fail, a component that an apply changed has all those before it applied: the runtime class
      comes after the kubelet config, that after the Tuned, and that after the machine config. */
  lemma AppliedInOrder(api: Api, op: Operator, w: World, p: Profile, pool: Pool)
    requires ListsEverything(api) && op.generate(p.input, pool).Success?
    ensures var a, b := w.store.objects, Apply(api, op, w, p, pool).world.store.objects;
            var ms := op.generate(p.input, pool).value;
            && (!SameAt(a, b, KeyOf(op, Tuned)) ==> Applied(op, a, b, ms, MachineConfig))
            && (!SameAt(a, b, KeyOf(op, KubeletConfig)) ==>
                  Applied(op, a, b, ms, MachineConfig) && Applied(op, a, b, ms, Tuned))
            && (!SameAt(a, b, KeyOf(op, RuntimeClass)) ==>
                  && Applied(op, a, b, ms, MachineConfig)
                  && Applied(op, a, b, ms, Tuned)
                  && Applied(op, a, b, ms, KubeletConfig))
  {
    var ms := op.generate(p.input, pool).value;
    var planned := Planned(api, op, w, ms);
    Safety.PlannedReadsOnly(api, op, w, ms);
    if !Paused(p.input) && planned.out.Plans? && AnyWrite(planned.out) {
      var ps := planned.out;
      PlannedReflectsStore(api, op, w, ms);
      WrittenInOrder(api, op, planned.world, ps);
      var b := Written(api, op, planned.world, ps).world.store.objects;
      forall kind | AsPlanned(op, w.store.objects, b, ps, kind)
        ensures Applied(op, w.store.objects, b, ms, kind)
      {
        assert !PlanOfKind(op, w.store.objects, ms, kind).Stop?;
        AsPlannedIsApplied(op, w.store.objects, b, ms, ps, kind);
      }
    }
  }
}
