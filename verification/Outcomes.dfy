/**
  What a reconcile answers: which failed calls reach the caller as an error, so that
  the reconcile is tried again, and which do not.
 */
module Outcomes {
  import opened Prelude
  import opened Conditions
  import opened Cluster
  import opened Resources
  import opened PoolLookup
  import opened Controller
  import opened Quiescence
  import opened StatusTruth
  import Safety

  /** No call with a number from `from` up to `to` fails. */
  ghost predicate AllServed(api: Api, from: nat, to: nat) {
    forall n: nat | from <= n < to :: api.fate(n) == Served
  }

  lemma ServedInTurn(api: Api, a: nat, b: nat, c: nat)
    requires a <= b <= c
    ensures AllServed(api, a, c) <==> AllServed(api, a, b) && AllServed(api, b, c)
  {
  }

  lemma ServedOnce(api: Api, n: nat)
    ensures AllServed(api, n, n)
    ensures AllServed(api, n, n + 1) <==> api.fate(n) == Served
  {
  }

  /** A procedure that reports an error exactly when one of its calls failed. */
  ghost predicate Honest(api: Api, w: World, s: Step<Option<string>>) {
    && w.calls <= s.world.calls
    && (s.out.None? <==> AllServed(api, w.calls, s.world.calls))
  }

  /** Doing one thing after another, unless the first one failed. */
  lemma HonestInTurn(api: Api, w: World, first: Step<Option<string>>, second: Step<Option<string>>)
    requires Honest(api, w, first)
    requires first.out.None? ==> Honest(api, first.world, second)
    ensures Honest(api, w, if first.out.Some? then first else second)
  {
    if first.out.None? {
      ServedInTurn(api, w.calls, first.world.calls, second.world.calls);
    }
  }

  // ----- reading, deleting and writing -----

  lemma ReadHonest(api: Api, w: World, key: Key)
    ensures GetObject(api, w, key).world == Ticked(w)
    ensures GetObject(api, w, key).out.Failed? <==> api.fate(w.calls) != Served
  {
  }

  lemma ChangeHonest(api: Api, w: World, after: Store)
    ensures Honest(api, w, Change(api, w, after))
  {
    ServedOnce(api, w.calls);
  }

  lemma DeleteIfPresentHonest(api: Api, w: World, key: Key)
    ensures Honest(api, w, DeleteIfPresent(api, w, key))
  {
    ReadHonest(api, w, key);
    ServedOnce(api, w.calls);
    if api.fate(w.calls) == Served && key in w.store.objects {
      var w1 := Ticked(w);
      ChangeHonest(api, w1, w1.store.(objects := Deleted(w1.store.objects, key)));
      ServedInTurn(api, w.calls, w1.calls, w1.calls + 1);
    }
  }

  lemma {:induction false} DeleteAllHonest(api: Api, w: World, keys: seq<Key>)
    ensures Honest(api, w, DeleteAll(api, w, keys))
    decreases |keys|
  {
    if keys == [] {
      ServedOnce(api, w.calls);
    } else {
      var first := DeleteIfPresent(api, w, keys[0]);
      DeleteIfPresentHonest(api, w, keys[0]);
      DeleteAllHonest(api, first.world, keys[1..]);
      HonestInTurn(api, w, first, DeleteAll(api, first.world, keys[1..]));
    }
  }

  lemma RemoveOutdatedHonest(api: Api, w: World, name: string, profileName: string)
    ensures Honest(api, w, RemoveOutdatedTuned(api, w, name, profileName))
  {
    ServedOnce(api, w.calls);
    var listed := ListTuned(api, w);
    if listed.out.Found? {
      var removed := DeleteAll(api, listed.world, Outdated(listed.out.value, name, profileName));
      DeleteAllHonest(api, listed.world, Outdated(listed.out.value, name, profileName));
      ServedInTurn(api, w.calls, listed.world.calls, removed.world.calls);
    }
  }

  lemma CreateOrUpdateHonest(api: Api, w: World, key: Key, obj: Obj)
    ensures Honest(api, w, CreateOrUpdate(api, w, key, obj))
  {
    ReadHonest(api, w, key);
    ServedOnce(api, w.calls);
    if api.fate(w.calls) == Served {
      var w1 := Ticked(w);
      ChangeHonest(api, w1, w1.store.(objects := w1.store.objects[key := obj]));
      ServedInTurn(api, w.calls, w1.calls, w1.calls + 1);
    }
  }

  lemma CarryOutHonest(api: Api, op: Operator, w: World, kind: Kind, plan: Plan)
    ensures Honest(api, w, CarryOut(api, op, w, kind, plan))
  {
    ServedOnce(api, w.calls);
    if plan.Write? {
      if kind.Tuned? {
        var key := KeyOf(op, Tuned);
        var removed := RemoveOutdatedTuned(api, w, key.name, op.name);
        RemoveOutdatedHonest(api, w, key.name, op.name);
        CreateOrUpdateHonest(api, removed.world, key, plan.obj);
        HonestInTurn(api, w, removed, CreateOrUpdate(api, removed.world, key, plan.obj));
      } else {
        CreateOrUpdateHonest(api, w, KeyOf(op, kind), plan.obj);
      }
    }
  }

  lemma WrittenHonest(api: Api, op: Operator, w: World, ps: Plans)
    requires ps.Plans?
    ensures Honest(api, w, Written(api, op, w, ps))
  {
    var mc := CarryOut(api, op, w, MachineConfig, ps.mc);
    CarryOutHonest(api, op, w, MachineConfig, ps.mc);
    var tuned := CarryOut(api, op, mc.world, Tuned, ps.tuned);
    CarryOutHonest(api, op, mc.world, Tuned, ps.tuned);
    var kc := CarryOut(api, op, tuned.world, KubeletConfig, ps.kc);
    CarryOutHonest(api, op, tuned.world, KubeletConfig, ps.kc);
    var rc := CarryOut(api, op, kc.world, RuntimeClass, ps.rc);
    CarryOutHonest(api, op, kc.world, RuntimeClass, ps.rc);
    var last := if kc.out.Some? then kc else rc;
    HonestInTurn(api, tuned.world, kc, rc);
    var later := if tuned.out.Some? then tuned else last;
    HonestInTurn(api, mc.world, tuned, last);
    HonestInTurn(api, w, mc, later);
  }

  // ----- planning and applying -----

  lemma GetMutatedHonest(api: Api, w: World, key: Key, desired: Obj)
    ensures var got := GetMutated(api, w, key, desired);
            && got.world == Ticked(w)
            && (api.fate(w.calls) == Served ==> got.out == PlanOf(w.store.objects, key, desired))
            && (api.fate(w.calls) != Served ==> got.out.Stop? && got.out.fault.Fault?)
  {
  }

  /** The plans of a store, or an error when a read failed. */
  lemma PlannedHonest(api: Api, op: Operator, w: World, ms: Manifests)
    ensures var planned := Planned(api, op, w, ms);
            && w.calls <= planned.world.calls
            && planned.world == w.(calls := planned.world.calls)
            && (AllServed(api, w.calls, planned.world.calls) ==> planned.out == PlansOf(op, w.store.objects, ms))
            && (!AllServed(api, w.calls, planned.world.calls) ==> planned.out.Blocked? && planned.out.fault.Fault?)
  {
    var w1 := Ticked(w);
    var w2, w3 := Ticked(w1), Ticked(Ticked(w1));
    GetMutatedHonest(api, w, KeyOf(op, MachineConfig), Desired(op, ms.mc));
    GetMutatedHonest(api, w1, KeyOf(op, KubeletConfig), Desired(op, ms.kc));
    GetMutatedHonest(api, w2, KeyOf(op, Tuned), Desired(op, ms.tuned));
    GetMutatedHonest(api, w3, KeyOf(op, RuntimeClass), Desired(op, ms.rc));
    ServedFour(api, w.calls);
  }

  lemma ServedFour(api: Api, n: nat)
    ensures AllServed(api, n, n + 1) <==> api.fate(n) == Served
    ensures AllServed(api, n, n + 2) <==> AllServed(api, n, n + 1) && api.fate(n + 1) == Served
    ensures AllServed(api, n, n + 3) <==> AllServed(api, n, n + 2) && api.fate(n + 2) == Served
    ensures AllServed(api, n, n + 4) <==> AllServed(api, n, n + 3) && api.fate(n + 3) == Served
  {
    ServedOnce(api, n);
    ServedOnce(api, n + 1);
    ServedOnce(api, n + 2);
    ServedOnce(api, n + 3);
    ServedInTurn(api, n, n + 1, n + 2);
    ServedInTurn(api, n, n + 2, n + 3);
    ServedInTurn(api, n, n + 3, n + 4);
  }

  /** Some component is missing or not as generated. */
  ghost predicate SomeToWrite(op: Operator, objects: map<Key, Obj>, ms: Manifests) {
    exists kind :: PlanOfKind(op, objects, ms, kind).Write?
  }

  lemma SomeToWriteIff(op: Operator, objects: map<Key, Obj>, ms: Manifests)
    requires PlansOf(op, objects, ms).Plans?
    ensures SomeToWrite(op, objects, ms) <==> AnyWrite(PlansOf(op, objects, ms))
  {
    var ps := PlansOf(op, objects, ms);
    if kind :| PlanOfKind(op, objects, ms, kind).Write? {
      assert PlanAt(ps, kind) == PlanOfKind(op, objects, ms, kind);
    }
    assert ps.mc == PlanOfKind(op, objects, ms, MachineConfig) && ps.kc == PlanOfKind(op, objects, ms, KubeletConfig);
    assert ps.tuned == PlanOfKind(op, objects, ms, Tuned) && ps.rc == PlanOfKind(op, objects, ms, RuntimeClass);
  }

  /** An apply whose calls all succeed stops exactly at the problem of the store, and otherwise reports a
      change exactly when there was one to make. Any failed call stops it with an error. */
  lemma ApplyHonest(api: Api, op: Operator, w: World, p: Profile, pool: Pool)
    ensures var a, problem := Apply(api, op, w, p, pool), ApplyProblem(op, w.store.objects, p.input, pool);
            && w.calls <= a.world.calls
            && (!AllServed(api, w.calls, a.world.calls) ==> a.out.Stopped? && a.out.fault.Fault?)
            && (AllServed(api, w.calls, a.world.calls) ==>
                  && (problem.Some? ==> a.out == Stopped(problem.value))
                  && (problem.None? ==> !a.out.Stopped?)
                  && (problem.None? && !IsPaused(p.input.annotations) ==>
                        (a.out == Changed <==> SomeToWrite(op, w.store.objects, op.generate(p.input, pool).value))))
  {
    ServedOnce(api, w.calls);
    if !IsPaused(p.input.annotations) && op.generate(p.input, pool).Success? {
      var ms := op.generate(p.input, pool).value;
      var planned := Planned(api, op, w, ms);
      PlannedHonest(api, op, w, ms);
      if planned.out.Plans? {
        SomeToWriteIff(op, w.store.objects, ms);
        WrittenHonest(api, op, planned.world, planned.out);
        var written := Written(api, op, planned.world, planned.out);
        ServedInTurn(api, w.calls, planned.world.calls, written.world.calls);
      }
    }
  }

  // ----- health and status -----

  lemma CheckedHonest(api: Api, op: Operator, now: int, w: World, pool: Pool)
    ensures var c, problem := Checked(api, op, now, w, pool), HealthProblem(op, w.store, pool);
            && w.calls <= c.world.calls
            && c.world == w.(calls := c.world.calls)
            && (AllServed(api, w.calls, c.world.calls) ==>
                  c.out == if problem.None? then Healthy else Unhealthy(ConditionsFor(problem, now)))
            && (!AllServed(api, w.calls, c.world.calls) ==> c.out.Unreadable?)
  {
    ServedFour(api, w.calls);
  }

  lemma UpdateStatusHonest(api: Api, op: Operator, w: World, p: Profile, conditions: seq<Condition>)
    requires w.store.profile.Some?
    ensures Honest(api, w, UpdateStatus(api, op, w, p, conditions))
  {
    ServedOnce(api, w.calls);
  }

  /** A report answers as told, or with an error when it fails itself. */
  lemma ReportHonest(api: Api, op: Operator, now: int, w: World, p: Profile, reason: string, message: string,
                     outcome: Outcome)
    requires w.store.profile.Some?
    ensures var r := Report(api, op, now, w, p, reason, message, outcome);
            && w.calls <= r.world.calls
            && (AllServed(api, w.calls, r.world.calls) ==> r.out == outcome)
            && (!AllServed(api, w.calls, r.world.calls) ==> r.out.Error?)
  {
    UpdateStatusHonest(api, op, w, p, DegradedConditions(reason, message, now));
  }

  // ----- the whole reconcile of a live profile -----

  /** After an apply that did not stop: an error exactly when health could not be read, or when the status
      could not be written and no component was changed. */
  lemma AfterApplyAnswers(api: Api, op: Operator, now: int, w: World, p: Profile, pool: Pool, applied: Applied)
    requires w.store.profile.Some?
    ensures var r, c := AfterApply(api, op, now, w, p, pool, applied), Checked(api, op, now, w, pool);
            && w.calls <= c.world.calls <= r.world.calls
            && (r.out.Error? <==>
                  || !AllServed(api, w.calls, c.world.calls)
                  || (!AllServed(api, c.world.calls, r.world.calls) && applied != Changed))
            && (r.out == Done || r.out.Error?)
            && (r.out == Done ==> r.world.calls <= c.world.calls + 1)
  {
    var c := Checked(api, op, now, w, pool);
    CheckedHonest(api, op, now, w, pool);
    match c.out
    case Unreadable(reason, t) => ReportHonest(api, op, now, c.world, p, reason, t, Error(t));
    case Unhealthy(conditions) => UpdateStatusHonest(api, op, c.world, p, conditions);
    case Healthy => UpdateStatusHonest(api, op, c.world, p, AvailableConditions(now));
  }

  lemma FinishAnswers(api: Api, op: Operator, now: int, p: Profile, pool: Pool, a: Step<Applied>)
    requires a.world.store.profile.Some?
    ensures var r, c := Finish(api, op, now, p, pool, a), Checked(api, op, now, a.world, pool);
            && a.world.calls <= r.world.calls
            && (a.out == Stopped(Panic) ==> r.out == Crash)
            && (a.out.Stopped? && a.out.fault.Fault? ==> r.out.Error?)
            && (a.out.Stopped? && a.out.fault.Fault? && AllServed(api, a.world.calls, r.world.calls) ==>
                  r.out == Error(a.out.fault.text))
            && (!a.out.Stopped? ==>
                  && (r.out == Done || r.out.Error?)
                  && a.world.calls <= c.world.calls <= r.world.calls
                  && (r.out == Done ==> r.world.calls <= c.world.calls + 1)
                  && (r.out.Error? <==>
                        || !AllServed(api, a.world.calls, c.world.calls)
                        || (!AllServed(api, c.world.calls, r.world.calls) && a.out != Changed)))
  {
    match a.out
    case Stopped(Panic) =>
    case Stopped(Fault(t)) => ReportHonest(api, op, now, a.world, p, CREATION_FAILED, t, Error(t));
    case _ => AfterApplyAnswers(api, op, now, a.world, p, pool, a.out);
  }

  /** The answer that a problem with the components calls for. */
  function AnswerTo(problem: Option<Fault>): Outcome {
    match problem
    case None => Done
    case Some(Panic) => Crash
    case Some(Fault(t)) => Error(t)
  }

  /** All calls succeeded but the last one. */
  ghost predicate OnlyLastLost(api: Api, from: nat, to: nat) {
    from < to && AllServed(api, from, to - 1) && api.fate(to - 1) != Served
  }

  /** The generated components have to be written to these objects. */
  ghost predicate ToApply(op: Operator, objects: map<Key, Obj>, input: ProfileInput, pool: Pool) {
    && !IsPaused(input.annotations)
    && op.generate(input, pool).Success?
    && SomeToWrite(op, objects, op.generate(input, pool).value)
  }

  lemma SameToApply(api: Api, op: Operator, w: World, input: ProfileInput, pool: Pool)
    ensures ToApply(op, DeleteIfPresent(api, w, DeprecatedKey(op.name)).world.store.objects, input, pool) <==>
            ToApply(op, w.store.objects, input, pool)
  {
    var after := DeleteIfPresent(api, w, DeprecatedKey(op.name)).world.store.objects;
    if op.generate(input, pool).Success? {
      var ms := op.generate(input, pool).value;
      forall kind
        ensures PlanOfKind(op, after, ms, kind) == PlanOfKind(op, w.store.objects, ms, kind)
      {
        assert KeyOf(op, kind) != DeprecatedKey(op.name);
      }
    }
  }

  lemma FailedOnlyLast(api: Api, from: nat, c: nat, to: nat)
    requires from <= c <= to <= c + 1 && AllServed(api, from, c) && !AllServed(api, c, to)
    ensures OnlyLastLost(api, from, to)
  {
  }

  /** The part with a pool: without failed calls the answer is that to the problem of the store. A failed
      call makes it an error, unless it was the status write after components were changed. */
  lemma PoolAnswers(api: Api, op: Operator, now: int, w: World, p: Profile, pool: Pool)
    requires w.store.profile.Some?
    ensures var r := ReconcileWithPool(api, op, now, w, p, pool);
            && w.calls <= r.world.calls
            && (AllServed(api, w.calls, r.world.calls) ==>
                  r.out == AnswerTo(ApplyProblem(op, w.store.objects, p.input, pool)))
            && (!AllServed(api, w.calls, r.world.calls) ==>
                  || r.out.Error?
                  || (&& r.out == Done
                      && OnlyLastLost(api, w.calls, r.world.calls)
                      && ToApply(op, w.store.objects, p.input, pool)))
  {
    var key := DeprecatedKey(op.name);
    var d := DeleteIfPresent(api, w, key);
    DeleteIfPresentHonest(api, w, key);
    if d.out.None? {
      DeleteIfPresentProfile(api, w, key);
      SameApplyProblem(api, op, w, p.input, pool);
      SameToApply(api, op, w, p.input, pool);
      ApplyThenFinish(api, op, now, d.world, p, pool);
      var r := Finish(api, op, now, p, pool, Apply(api, op, d.world, p, pool));
      ServedInTurn(api, w.calls, d.world.calls, r.world.calls);
    }
  }

  lemma DeleteIfPresentProfile(api: Api, w: World, key: Key)
    ensures DeleteIfPresent(api, w, key).world.store.profile == w.store.profile
  {
  }

  lemma ApplyThenFinish(api: Api, op: Operator, now: int, w: World, p: Profile, pool: Pool)
    requires w.store.profile.Some?
    ensures var r := Finish(api, op, now, p, pool, Apply(api, op, w, p, pool));
            && w.calls <= r.world.calls
            && (AllServed(api, w.calls, r.world.calls) ==>
                  r.out == AnswerTo(ApplyProblem(op, w.store.objects, p.input, pool)))
            && (!AllServed(api, w.calls, r.world.calls) ==>
                  || r.out.Error?
                  || (&& r.out == Done
                      && OnlyLastLost(api, w.calls, r.world.calls)
                      && ToApply(op, w.store.objects, p.input, pool)))
  {
    var a := Apply(api, op, w, p, pool);
    var r, c := Finish(api, op, now, p, pool, a), Checked(api, op, now, a.world, pool);
    ApplyHonest(api, op, w, p, pool);
    Safety.ApplyKeepsProfile(api, op, w, p, pool);
    FinishAnswers(api, op, now, p, pool, a);
    ServedInTurn(api, w.calls, a.world.calls, r.world.calls);
    if !a.out.Stopped? {
      ServedInTurn(api, w.calls, a.world.calls, c.world.calls);
      ServedInTurn(api, w.calls, c.world.calls, r.world.calls);
      if r.out == Done && !AllServed(api, w.calls, r.world.calls) {
        FailedOnlyLast(api, w.calls, c.world.calls, r.world.calls);
        ChangedNeedsToApply(api, op, w, p, pool);
      }
    }
  }

  /** Only an apply with something to write reports a change. */
  lemma ChangedNeedsToApply(api: Api, op: Operator, w: World, p: Profile, pool: Pool)
    requires Apply(api, op, w, p, pool).out == Changed
    ensures ToApply(op, w.store.objects, p.input, pool)
  {
    ApplyHonest(api, op, w, p, pool);
  }

  /** What is wrong with applying the components of a profile, if its pool is found and valid. */
  function CreationProblem(op: Operator, s: Store, input: ProfileInput): Option<Fault> {
    match FindPool(op.matches, s.pools, input.nodeSelector)
    case Failure(_) => None
    case Success(pool) => if op.validate(input, pool).Some? then None else ApplyProblem(op, s.objects, input, pool)
  }

  /** The status write failed after components of a profile with a pool had been changed. */
  ghost predicate StatusLost(api: Api, op: Operator, s: Store, input: ProfileInput, from: nat, to: nat) {
    && OnlyLastLost(api, from, to)
    && var found := FindPool(op.matches, s.pools, input.nodeSelector);
       found.Success? && op.validate(input, found.value).None? && ToApply(op, s.objects, input, found.value)
  }

  /** The pools could not be listed, and every later call succeeded. */
  ghost predicate ListLost(api: Api, from: nat, to: nat) {
    from < to && api.fate(from) != Served && AllServed(api, from + 1, to)
  }

  /** The answer of a reconcile of a live profile. When all calls succeed: an error or a panic exactly when
      the components cannot be applied. When some call fails: an error, so that it is tried again, but for
      a list of pools that fails, which is only reported, and for a status write that fails after
      components were changed. */
  lemma LiveAnswers(api: Api, op: Operator, now: int, w: World, p: Profile)
    requires w.store.profile == Some(p)
    ensures var r := ReconcileLive(api, op, now, w, p);
            && w.calls < r.world.calls
            && (AllServed(api, w.calls, r.world.calls) ==> r.out == AnswerTo(CreationProblem(op, w.store, p.input)))
            && (ListLost(api, w.calls, r.world.calls) ==> r.out == Done)
            && (!AllServed(api, w.calls, r.world.calls) && !ListLost(api, w.calls, r.world.calls) ==>
                  || r.out.Error?
                  || (r.out == Done && StatusLost(api, op, w.store, p.input, w.calls, r.world.calls)))
  {
    var w1 := Ticked(w);
    var r := ReconcileLive(api, op, now, w, p);
    ServedOnce(api, w.calls);
    if api.fate(w.calls) != Served {
      var t := api.fate(w.calls).text;
      ReportHonest(api, op, now, w1, p, POOL_NOT_FOUND, t, Done);
    } else {
      var found := FindPool(op.matches, w.store.pools, p.input.nodeSelector);
      if found.Failure? {
        ReportHonest(api, op, now, w1, p, POOL_NOT_FOUND, found.text, Done);
      } else if op.validate(p.input, found.value).Some? {
        ReportHonest(api, op, now, w1, p, BAD_LABELS, op.validate(p.input, found.value).value, Done);
      } else {
        PoolAnswers(api, op, now, w1, p, found.value);
      }
    }
    ServedInTurn(api, w.calls, w1.calls, r.world.calls);
  }

  // ----- what is reported -----

  /** A report that succeeds leaves its reason and message in the status. */
  lemma ReportStores(api: Api, op: Operator, now: int, w: World, p: Profile, reason: string, message: string,
                     outcome: Outcome)
    requires w.store.profile == Some(p) && StoredShape(p.status.conditions)
    requires AllServed(api, w.calls, Report(api, op, now, w, p, reason, message, outcome).world.calls)
    ensures Reports(Report(api, op, now, w, p, reason, message, outcome).world.store, reason, message)
  {
    var conditions := DegradedConditions(reason, message, now);
    UpdateStatusHonest(api, op, w, p, conditions);
    Safety.StatusNamesComponents(api, op, w, p, conditions);
    ConstructorsSay(UpdateStatus(api, op, w, p, conditions).world.store.profile.value.status.conditions,
                    reason, message, now);
  }

  /** The stored status says degraded, for this reason and with this message. */
  ghost predicate Reports(s: Store, reason: string, message: string) {
    s.profile.Some? && SaysDegraded(s.profile.value.status.conditions, reason, message)
  }

  /** A list of pools that fails is reported as such, if the report succeeds. */
  lemma ListFailureReported(api: Api, op: Operator, now: int, w: World, p: Profile)
    requires w.store.profile == Some(p) && StoredShape(p.status.conditions)
    requires ListLost(api, w.calls, ReconcileLive(api, op, now, w, p).world.calls)
    ensures Reports(ReconcileLive(api, op, now, w, p).world.store,
                    "GettingMachineConfigPoolFailed", api.fate(w.calls).text)
  {
    ReportStores(api, op, now, Ticked(w), p, POOL_NOT_FOUND, api.fate(w.calls).text, Done);
  }

  /** So is an apply that stopped with an error. */
  lemma ApplyFailureReported(api: Api, op: Operator, now: int, p: Profile, pool: Pool, a: Step<Applied>, text: string)
    requires a.world.store.profile == Some(p) && StoredShape(p.status.conditions)
    requires a.out == Stopped(Fault(text))
    requires AllServed(api, a.world.calls, Finish(api, op, now, p, pool, a).world.calls)
    ensures Reports(Finish(api, op, now, p, pool, a).world.store, "ComponentCreationFailed", text)
  {
    ReportStores(api, op, now, a.world, p, CREATION_FAILED, text, Error(text));
  }

  /** And so is a kubelet config that cannot be read, and a list behind the Tuned report that fails. */
  lemma UnreadableReported(api: Api, op: Operator, now: int, w: World, p: Profile, pool: Pool, applied: Applied, n: nat)
    requires w.store.profile == Some(p) && StoredShape(p.status.conditions)
    requires var to := AfterApply(api, op, now, w, p, pool, applied).world.calls;
             && w.calls <= n < to && api.fate(n) != Served
             && AllServed(api, w.calls, n) && AllServed(api, n + 1, to)
    requires n < Checked(api, op, now, w, pool).world.calls
    ensures Reports(AfterApply(api, op, now, w, p, pool, applied).world.store,
                    if n == w.calls then "GettingKubeletStatusFailed" else "GettingTunedStatusFailed", api.fate(n).text)
  {
    var c := Checked(api, op, now, w, pool);
    UnreadableAt(api, op, now, w, pool, n);
    ReportStores(api, op, now, c.world, p, c.out.reason, c.out.text, Error(c.out.text));
  }

  /** The first failed call of a health check is its last, and what it was tells the reason. */
  lemma UnreadableAt(api: Api, op: Operator, now: int, w: World, pool: Pool, n: nat)
    requires w.calls <= n < Checked(api, op, now, w, pool).world.calls
    requires AllServed(api, w.calls, n) && api.fate(n) != Served
    ensures var c := Checked(api, op, now, w, pool);
            && c.world == w.(calls := n + 1)
            && c.out == Unreadable(if n == w.calls then "GettingKubeletStatusFailed" else "GettingTunedStatusFailed",
                                   api.fate(n).text)
  {
    ServedFour(api, w.calls);
    assert n == w.calls || n == w.calls + 1 || n == w.calls + 2;
    assert n > w.calls ==> api.fate(w.calls) == Served;
    assert n > w.calls + 1 ==> api.fate(w.calls + 1) == Served;
  }

  // ----- the other paths -----

  /** A negative answer about the components rests on reads that all succeeded. */
  lemma {:induction false} AnyExistsHonest(api: Api, w: World, keys: seq<Key>)
    ensures var r := AnyExists(api, w, keys);
            && w.calls <= r.world.calls
            && (!r.out ==> AllServed(api, w.calls, r.world.calls))
            && (r.out ==>
                  && w.calls < r.world.calls
                  && AllServed(api, w.calls, r.world.calls - 1)
                  && (api.fate(r.world.calls - 1) != Served || exists k | k in keys :: k in w.store.objects))
    decreases |keys|
  {
    ServedOnce(api, w.calls);
    if keys != [] {
      var got := GetObject(api, w, keys[0]);
      ReadHonest(api, w, keys[0]);
      assert keys[0] in keys;
      if got.out.NotFound? {
        AnyExistsHonest(api, got.world, keys[1..]);
        var r := AnyExists(api, got.world, keys[1..]);
        ServedInTurn(api, w.calls, got.world.calls, if r.out then r.world.calls - 1 else r.world.calls);
      }
    }
  }

  /** Unless the server refuses the update, it is an error exactly when the call fails. */
  lemma UpdateProfileHonest(api: Api, w: World, wanted: Profile)
    requires w.store.profile.Some?
    ensures var r := UpdateProfile(api, w, wanted);
            && r.world.calls == w.calls + 1
            && (r.out.None? <==> api.fate(w.calls) == Served && !Refused(api, w.store.profile.value, wanted))
  {
  }

  /** Under deletion, a reconcile that says it is done had no failed call; one that asks to be called again
      in ten seconds found a component, or failed to look for one. */
  lemma DeletingAnswers(api: Api, op: Operator, now: int, w: World, p: Profile)
    requires w.store.profile == Some(p) && p.deleting
    ensures var r := ReconcileDeleting(api, op, now, w, p);
            && w.calls <= r.world.calls
            && r.out != Crash
            && (r.out == Done ==> AllServed(api, w.calls, r.world.calls))
            && (r.out.RequeueAfter? ==>
                  && r.out == RequeueAfter(10)
                  && w.calls < r.world.calls
                  && AllServed(api, w.calls, r.world.calls - 1)
                  && (api.fate(r.world.calls - 1) != Served || AnyComponent(op.name, r.world.store)))
  {
    var keys := ComponentKeys(op);
    var deleted := DeleteAll(api, w, keys);
    DeleteAllHonest(api, w, keys);
    ResourceFacts.DeleteAllRemoves(api, w, keys);
    if deleted.out.None? {
      var checked := AnyExists(api, deleted.world, keys);
      AnyExistsHonest(api, deleted.world, keys);
      Safety.AnyExistsIsSafe(api, deleted.world, keys);
      if checked.out {
        ServedInTurn(api, w.calls, deleted.world.calls, checked.world.calls - 1);
        if k :| k in keys && k in deleted.world.store.objects {
          SomeComponent(op, deleted.world.store, k);
        }
      } else {
        var n := checked.world.calls;
        ServedInTurn(api, w.calls, deleted.world.calls, n);
        ServedOnce(api, n);
        ServedInTurn(api, w.calls, n, n + 1);
        UpdateProfileHonest(api, checked.world, p.(finalizers := Without(p.finalizers, FINALIZER)));
        AddFinalizerAnswers(api, now, checked.world, p);
      }
    }
  }

  lemma SomeComponent(op: Operator, s: Store, k: Key)
    requires k in ComponentKeys(op) && k in s.objects
    ensures AnyComponent(op.name, s)
  {
    assert exists kind :: k == KeyOf(op, kind);
    var kind :| k == KeyOf(op, kind);
    assert ComponentKey(op.name, kind) in s.objects;
  }

  lemma AddFinalizerAnswers(api: Api, now: int, w: World, p: Profile)
    requires w.store.profile.Some?
    ensures var r := AddFinalizer(api, now, w, p);
            && r.world.calls == w.calls + 1
            && (r.out == Done ==> api.fate(w.calls) == Served)
            && (r.out == Done || r.out.Error?)
  {
    var wanted := p.(finalizers := p.finalizers + [FINALIZER],
                     status := p.status.(conditions := StartingConditions(now)));
    UpdateProfileHonest(api, w, wanted);
  }

  /** Whatever the store: a reconcile that says it is done although a call failed is one of a live profile,
      and the failed call was the list of pools, or the status write after a change. */
  lemma FailuresSurface(api: Api, op: Operator, now: int, w: World)
    requires Reconcile(api, op, now, w).out == Done
    ensures var to := Reconcile(api, op, now, w).world.calls;
            || AllServed(api, w.calls, to)
            || (&& Live(w.store)
                && (|| ListLost(api, w.calls + 1, to)
                    || StatusLost(api, op, w.store, w.store.profile.value.input, w.calls + 1, to)))
  {
    var w1 := Ticked(w);
    var r := Reconcile(api, op, now, w);
    ServedOnce(api, w.calls);
    if w.store.profile.Some? {
      var p := w.store.profile.value;
      if p.deleting {
        DeletingAnswers(api, op, now, w1, p);
      } else if FINALIZER !in p.finalizers {
        AddFinalizerAnswers(api, now, w1, p);
        ServedOnce(api, w1.calls);
      } else {
        LiveAnswers(api, op, now, w1, p);
      }
      ServedInTurn(api, w.calls, w1.calls, r.world.calls);
    }
  }
}
