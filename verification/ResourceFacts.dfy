/** What the resource procedures achieve, independently of how they go about it. */
module ResourceFacts {
  import opened Prelude
  import opened Cluster
  import opened Resources

  // ----- deletion -----

  /** The objects after `keys` are deleted: a pinned object stays and is marked, any other is gone. */
  ghost function Marked(objects: map<Key, Obj>, keys: set<Key>): map<Key, Obj> {
    map k | k in objects && (k !in keys || objects[k].pinned) ::
      if k in keys then objects[k].(deleting := true) else objects[k]
  }

  /** No object was added, and those left are unchanged or marked for deletion. */
  ghost predicate OnlyRemoved(before: map<Key, Obj>, after: map<Key, Obj>) {
    forall k | k in after :: k in before && (after[k] == before[k] || after[k] == before[k].(deleting := true))
  }

  /** Nothing but the objects changed, and those only by removal. */
  ghost predicate OnlyRemoves(s: Store, t: Store) {
    t == s.(objects := t.objects) && OnlyRemoved(s.objects, t.objects)
  }

  lemma DeleteIfPresentRemoves(api: Api, w: World, key: Key)
    ensures OnlyRemoves(w.store, DeleteIfPresent(api, w, key).world.store)
  {
  }

  /** Whatever fails, deleting only deletes. */
  lemma {:induction false} DeleteAllRemoves(api: Api, w: World, keys: seq<Key>)
    ensures OnlyRemoves(w.store, DeleteAll(api, w, keys).world.store)
    decreases |keys|
  {
    if keys != [] {
      DeleteIfPresentRemoves(api, w, keys[0]);
      DeleteAllRemoves(api, DeleteIfPresent(api, w, keys[0]).world, keys[1..]);
    }
  }

  lemma DeleteIfPresentExact(api: Api, w: World, key: Key)
    requires DeleteIfPresent(api, w, key).out.None?
    ensures DeleteIfPresent(api, w, key).world.store == w.store.(objects := Deleted(w.store.objects, key))
  {
    if key !in w.store.objects {
      assert w.store == w.store.(objects := w.store.objects);
    }
  }

  lemma MarkedStep(objects: map<Key, Obj>, key: Key, rest: set<Key>)
    ensures Marked(Deleted(objects, key), rest) == Marked(objects, {key} + rest)
  {
  }

  /** A deletion that reports success has deleted every key once and for all. */
  lemma {:induction false} DeleteAllExact(api: Api, w: World, keys: seq<Key>)
    requires DeleteAll(api, w, keys).out.None?
    ensures DeleteAll(api, w, keys).world.store == w.store.(objects := Marked(w.store.objects, set k | k in keys))
    decreases |keys|
  {
    if keys == [] {
      assert Marked(w.store.objects, set k | k in keys) == w.store.objects;
      assert w.store == w.store.(objects := w.store.objects);
    } else {
      var first := DeleteIfPresent(api, w, keys[0]);
      DeleteIfPresentExact(api, w, keys[0]);
      DeleteAllExact(api, first.world, keys[1..]);
      MarkedStep(w.store.objects, keys[0], set k | k in keys[1..]);
      assert (set k | k in keys) == {keys[0]} + (set k | k in keys[1..]);
    }
  }

  /** A deletion that is cut short has deleted a first part of the keys and touched nothing else. */
  lemma {:induction false} DeleteAllPrefix(api: Api, w: World, keys: seq<Key>) returns (j: nat)
    ensures j <= |keys|
    ensures DeleteAll(api, w, keys).world.store.objects == Marked(w.store.objects, set k | k in keys[..j])
    decreases |keys|
  {
    var objects := w.store.objects;
    NothingMarked(objects);
    if keys == [] {
      j := 0;
      assert keys[..0] == [];
    } else {
      var first := DeleteIfPresent(api, w, keys[0]);
      if first.out.Some? {
        if first.world.store.objects == objects {
          j := 0;
          assert (set k | k in keys[..0]) == {};
        } else {
          j := 1;
          MarkedStep(objects, keys[0], {});
          NothingMarked(Deleted(objects, keys[0]));
          assert (set k | k in keys[..1]) == {keys[0]} + {};
        }
      } else {
        DeleteIfPresentExact(api, w, keys[0]);
        var i := DeleteAllPrefix(api, first.world, keys[1..]);
        j := i + 1;
        MarkedStep(objects, keys[0], set k | k in keys[1..][..i]);
        assert keys[..j] == [keys[0]] + keys[1..][..i];
        assert (set k | k in keys[..j]) == {keys[0]} + (set k | k in keys[1..][..i]);
      }
    }
  }

  lemma NothingMarked(objects: map<Key, Obj>)
    ensures Marked(objects, {}) == objects
  {
  }

  // ----- outdated Tuned objects -----

  /** A Tuned object of another name that has an owner reference named after the profile. */
  predicate IsOutdated(key: Key, obj: Obj, name: string, profileName: string) {
    key.kind == Tuned && key.name != name && profileName in obj.owners
  }

  ghost function OutdatedKeys(objects: map<Key, Obj>, name: string, profileName: string): set<Key> {
    set k | k in objects && IsOutdated(k, objects[k], name, profileName)
  }

  lemma {:induction false} OwnedMembers(key: Key, owners: seq<string>, profileName: string)
    ensures forall k :: k in Owned(key, owners, profileName) <==> k == key && profileName in owners
  {
    if owners != [] {
      OwnedMembers(key, owners[1..], profileName);
      assert owners == [owners[0]] + owners[1..];
    }
  }

  lemma {:induction false} OutdatedMembers(items: seq<Item>, name: string, profileName: string)
    ensures forall k :: k in Outdated(items, name, profileName) <==>
                        exists it | it in items :: it.key == k && k.name != name && profileName in it.obj.owners
  {
    if items != [] {
      var rest := Outdated(items[1..], name, profileName);
      OutdatedMembers(items[1..], name, profileName);
      OwnedMembers(items[0].key, items[0].obj.owners, profileName);
      assert items == [items[0]] + items[1..];
      forall k
        ensures k in Outdated(items, name, profileName) <==>
                exists it | it in items :: it.key == k && k.name != name && profileName in it.obj.owners
      {
        if k in rest {
          var it :| it in items[1..] && it.key == k && k.name != name && profileName in it.obj.owners;
          assert it in items;
        }
        if exists it | it in items :: it.key == k && k.name != name && profileName in it.obj.owners {
          var it :| it in items && it.key == k && k.name != name && profileName in it.obj.owners;
          assert it == items[0] || it in items[1..];
        }
      }
    }
  }

  lemma ListedOutdated(api: Api, w: World, name: string, profileName: string)
    requires ListsEverything(api)
    ensures var keys := api.order(set k | k in w.store.objects && k.kind == Tuned);
            (set k | k in Outdated(ItemsOf(w.store.objects, keys), name, profileName)) ==
            OutdatedKeys(w.store.objects, name, profileName)
  {
    var objects := w.store.objects;
    var tuneds := set k | k in objects && k.kind == Tuned;
    var items := ItemsOf(objects, api.order(tuneds));
    OutdatedMembers(items, name, profileName);
    forall k
      ensures k in Outdated(items, name, profileName) <==> k in OutdatedKeys(objects, name, profileName)
    {
      if k in OutdatedKeys(objects, name, profileName) {
        assert k in tuneds;
        assert Item(k, objects[k]) in items;
      }
    }
  }

  /** After createOrUpdateTuned reports success, whatever the order of the list and however often an
      owner reference repeats: the Tuned is stored as asked, every outdated Tuned is deleted, and
      nothing else has changed. */
  lemma OutdatedTunedRemoved(api: Api, w: World, key: Key, obj: Obj, profileName: string)
    requires ListsEverything(api) && key.kind == Tuned
    requires CreateOrUpdateTuned(api, w, key, obj, profileName).out.None?
    ensures CreateOrUpdateTuned(api, w, key, obj, profileName).world.store ==
            var outdated := OutdatedKeys(w.store.objects, key.name, profileName);
            w.store.(objects := Marked(w.store.objects, outdated)[key := obj])
  {
    var listed := ListTuned(api, w);
    var items := listed.out.value;
    ListedOutdated(api, w, key.name, profileName);
    DeleteAllExact(api, listed.world, Outdated(items, key.name, profileName));
  }

  /** In particular, when no outdated Tuned is pinned, the only Tuned names owned by the profile are
      the expected one, and a Tuned without such a reference is untouched. */
  lemma OnlyTheExpectedTunedRemains(api: Api, w: World, key: Key, obj: Obj, profileName: string)
    requires ListsEverything(api) && key.kind == Tuned
    requires CreateOrUpdateTuned(api, w, key, obj, profileName).out.None?
    requires forall k | k in w.store.objects && IsOutdated(k, w.store.objects[k], key.name, profileName) ::
             !w.store.objects[k].pinned
    ensures var after := CreateOrUpdateTuned(api, w, key, obj, profileName).world.store.objects;
            && key in after && after[key] == obj
            && (forall k | k in after && k.kind == Tuned && profileName in after[k].owners :: k.name == key.name)
            && (forall k | k in w.store.objects && k != key && profileName !in w.store.objects[k].owners ::
                  k in after && after[k] == w.store.objects[k])
  {
    OutdatedTunedRemoved(api, w, key, obj, profileName);
  }

  // ----- merging and planning -----

  /** Every entry of `src` is in `dst`. */
  ghost predicate Included(src: map<string, string>, dst: map<string, string>) {
    forall k | k in src :: k in dst && dst[k] == src[k]
  }

  /** `after` has the generated entries and keeps every other entry of `before`. */
  ghost predicate MergedInto(src: map<string, string>, before: map<string, string>, after: map<string, string>) {
    && Included(src, after)
    && after.Keys == before.Keys + src.Keys
    && forall k | k in before && k !in src :: after[k] == before[k]
  }

  /** The stored spec is up to date: all of it for a machine config and a Tuned, the configuration and the
      pool selector for a kubelet config, the handler and the scheduling for a runtime class. */
  ghost predicate UpToDate(kind: Kind, stored: Spec, desired: Spec) {
    && (kind == MachineConfig || kind == Tuned ==> stored == desired)
    && (kind == KubeletConfig ==> stored.decoded == desired.decoded && stored.selector == desired.selector)
    && (kind == RuntimeClass ==> stored.content == desired.content && stored.selector == desired.selector)
  }

  /** The spec that a rewrite stores: the generated one, but for what a runtime class has besides. */
  ghost predicate Rewritten(kind: Kind, before: Spec, after: Spec, desired: Spec) {
    && (kind != RuntimeClass ==> after == desired)
    && (kind == RuntimeClass ==>
          && after.content == desired.content && after.selector == desired.selector
          && after.decoded == before.decoded && after.extra == before.extra)
  }

  /** The stored object is what the generator asked for. */
  ghost predicate Agrees(kind: Kind, stored: Obj, desired: Obj) {
    && UpToDate(kind, stored.spec, desired.spec)
    && Included(desired.labels, stored.labels)
    && Included(desired.annotations, stored.annotations)
  }

  /** Entries would be merged into a nil map. */
  predicate NilMerge(existing: Obj, desired: Obj) {
    || (desired.annotations != map[] && existing.annotations == map[])
    || (desired.labels != map[] && existing.labels == map[])
  }

  /** A kubelet configuration that is to be compared does not parse. */
  predicate Undecodable(kind: Kind, existing: Obj, desired: Obj) {
    kind.KubeletConfig? && (existing.spec.decoded.Failure? || desired.spec.decoded.Failure?)
  }

  /** A plan can be made. */
  predicate Plannable(kind: Kind, existing: Obj, desired: Obj) {
    !NilMerge(existing, desired) && !Undecodable(kind, existing, desired)
  }

  lemma MergeKeepsIff(src: map<string, string>, dst: map<string, string>)
    ensures dst + src == dst <==> Included(src, dst)
  {
    if dst + src == dst {
      forall k | k in src
        ensures k in dst && dst[k] == src[k]
      {
        assert k in dst + src && (dst + src)[k] == src[k];
      }
    }
    if Included(src, dst) {
      assert (dst + src).Keys == dst.Keys;
    }
  }

  /** Exactly when a reconcile panics over a component, stops with an error, leaves it alone, or rewrites it. */
  lemma PlanIff(kind: Kind, existing: Obj, desired: Obj)
    ensures var plan := PlanFor(kind, existing, desired);
            && (plan == Stop(Panic) <==> NilMerge(existing, desired))
            && (plan.Stop? && plan.fault.Fault? <==>
                  !NilMerge(existing, desired) && Undecodable(kind, existing, desired))
            && (plan.Keep? <==> Plannable(kind, existing, desired) && Agrees(kind, existing, desired))
            && (plan.Write? <==> Plannable(kind, existing, desired) && !Agrees(kind, existing, desired))
  {
    MergeKeepsIff(desired.labels, existing.labels);
    MergeKeepsIff(desired.annotations, existing.annotations);
  }

  /** A rewritten component agrees with what was generated, keeps foreign labels and annotations, its
      owners and its life-cycle state, and needs no further rewriting. */
  lemma RewriteSettles(kind: Kind, existing: Obj, desired: Obj)
    requires PlanFor(kind, existing, desired).Write?
    ensures var o := PlanFor(kind, existing, desired).obj;
            && Agrees(kind, o, desired)
            && Rewritten(kind, existing.spec, o.spec, desired.spec)
            && MergedInto(desired.labels, existing.labels, o.labels)
            && MergedInto(desired.annotations, existing.annotations, o.annotations)
            && o == existing.(labels := o.labels, annotations := o.annotations, spec := o.spec)
            && PlanFor(kind, o, desired) == Keep
  {
    var o := PlanFor(kind, existing, desired).obj;
    PlanIff(kind, o, desired);
    MergeKeepsIff(desired.labels, o.labels);
    MergeKeepsIff(desired.annotations, o.annotations);
  }

  /** A component created as generated needs no rewriting either, provided its kubelet configuration parses. */
  lemma CreationSettles(kind: Kind, desired: Obj)
    ensures PlanFor(kind, desired, desired) == Keep <==> (kind.KubeletConfig? ==> desired.spec.decoded.Success?)
  {
    MergeKeepsIff(desired.labels, desired.labels);
    MergeKeepsIff(desired.annotations, desired.annotations);
  }
}
