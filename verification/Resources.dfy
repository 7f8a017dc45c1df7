/**
  Reading, merging, creating and deleting the four kinds of component
  (controllers/resources.go). Every procedure is given as a function from the
  world before to the world after, next to the method that carries it out.
 */
module Resources {
  import opened Prelude
  import opened Cluster

  /** What stops a reconcile: an error to report, or a Go panic. */
  datatype Fault = Fault(text: string) | Panic

  // ----- merging -----

  /** mergeMaps: the entries of `src` override those of `dst`. An empty map read from the server is
      nil, and writing into it panics (None). */
  function Merged(src: map<string, string>, dst: map<string, string>): Option<map<string, string>> {
    if src != map[] && dst == map[] then None else Some(dst + src)
  }

  method MergeMaps(src: map<string, string>, dst: map<string, string>) returns (r: Option<map<string, string>>)
    ensures r == Merged(src, dst)
  {
    if src != map[] && dst == map[] {
      return None;
    }
    var todo, result := src.Keys, dst;
    while todo != {}
      invariant todo <= src.Keys
      invariant result == dst + map k | k in src.Keys - todo :: src[k]
      decreases todo
    {
      var k :| k in todo;
      result := result[k := src[k]];
      todo := todo - {k};
    }
    assert (map k | k in src.Keys - todo :: src[k]) == src;
    r := Some(result);
  }

  // ----- the object to write -----

  /** The spec that replaces `existing`: the handler and scheduling of a RuntimeClass, the whole spec
      of the other kinds. */
  function Replaced(kind: Kind, existing: Spec, desired: Spec): Spec {
    if kind.RuntimeClass? then existing.(content := desired.content, selector := desired.selector) else desired
  }

  /** What the controller compares: decoded configuration and pool selector of a KubeletConfig,
      handler and scheduling of a RuntimeClass, everything otherwise. */
  predicate SpecAgrees(kind: Kind, existing: Spec, desired: Spec) {
    match kind
    case KubeletConfig => existing.decoded == desired.decoded && existing.selector == desired.selector
    case RuntimeClass => existing.content == desired.content && existing.selector == desired.selector
    case MachineConfig => existing == desired
    case Tuned => existing == desired
  }

  /** The answer of getMutated*: nothing to do, an object to write, or a fault. */
  datatype Plan = Keep | Write(obj: Obj) | Stop(fault: Fault)

  function PlanFor(kind: Kind, existing: Obj, desired: Obj): Plan {
    var annotations := Merged(desired.annotations, existing.annotations);
    var labels := Merged(desired.labels, existing.labels);
    if annotations.None? || labels.None? then Stop(Panic)
    else if kind.KubeletConfig? && existing.spec.decoded.Failure? then Stop(Fault(existing.spec.decoded.text))
    else if kind.KubeletConfig? && desired.spec.decoded.Failure? then Stop(Fault(desired.spec.decoded.text))
    else if && SpecAgrees(kind, existing.spec, desired.spec)
            && labels.value == existing.labels
            && annotations.value == existing.annotations
    then Keep
    else Write(existing.(labels := labels.value, annotations := annotations.value,
                         spec := Replaced(kind, existing.spec, desired.spec)))
  }

  function GetMutated(api: Api, w: World, key: Key, desired: Obj): Step<Plan> {
    var got := GetObject(api, w, key);
    match got.out
    case NotFound => Step(got.world, Write(desired))
    case Failed(t) => Step(got.world, Stop(Fault(t)))
    case Found(existing) => Step(got.world, PlanFor(key.kind, existing, desired))
  }

  method ReadMutated(c: Client, key: Key, desired: Obj) returns (plan: Plan)
    modifies c
    ensures Step(c.Now(), plan) == GetMutated(c.api, old(c.Now()), key, desired)
  {
    var got := c.Get(key);
    if got.NotFound? {
      return Write(desired);
    }
    if got.Failed? {
      return Stop(Fault(got.text));
    }
    var existing := got.value;
    var annotations := MergeMaps(desired.annotations, existing.annotations);
    if annotations.None? {
      return Stop(Panic);
    }
    var labels := MergeMaps(desired.labels, existing.labels);
    if labels.None? {
      return Stop(Panic);
    }
    var mutated := existing.(labels := labels.value, annotations := annotations.value,
                             spec := Replaced(key.kind, existing.spec, desired.spec));
    if key.kind.KubeletConfig? {
      if existing.spec.decoded.Failure? {
        return Stop(Fault(existing.spec.decoded.text));
      }
      if mutated.spec.decoded.Failure? {
        return Stop(Fault(mutated.spec.decoded.text));
      }
    }
    if && SpecAgrees(key.kind, existing.spec, mutated.spec)
       && existing.labels == mutated.labels
       && existing.annotations == mutated.annotations
    {
      return Keep;
    }
    plan := Write(mutated);
  }

  // ----- writing -----

  function CreateOrUpdate(api: Api, w: World, key: Key, obj: Obj): Step<Option<string>> {
    var got := GetObject(api, w, key);
    if got.out.Failed? then Step(got.world, Some(got.out.text)) else PutObject(api, got.world, key, obj)
  }

  method DoCreateOrUpdate(c: Client, key: Key, obj: Obj) returns (error: Option<string>)
    modifies c
    ensures Step(c.Now(), error) == CreateOrUpdate(c.api, old(c.Now()), key, obj)
  {
    var got := c.Get(key);
    if got.NotFound? {
      error := c.Put(key, obj);
      return;
    }
    if got.Failed? {
      return Some(got.text);
    }
    error := c.Put(key, obj);
  }

  // ----- deleting -----

  function DeleteIfPresent(api: Api, w: World, key: Key): Step<Option<string>> {
    var got := GetObject(api, w, key);
    match got.out
    case NotFound => Step(got.world, None)
    case Failed(t) => Step(got.world, Some(t))
    case Found(_) => DeleteObject(api, got.world, key)
  }

  method DoDelete(c: Client, key: Key) returns (error: Option<string>)
    modifies c
    ensures Step(c.Now(), error) == DeleteIfPresent(c.api, old(c.Now()), key)
  {
    var got := c.Get(key);
    if got.NotFound? {
      return None;
    }
    if got.Failed? {
      return Some(got.text);
    }
    error := c.Delete(key);
  }

  /** Delete the keys in turn and stop at the first failure. */
  function DeleteAll(api: Api, w: World, keys: seq<Key>): Step<Option<string>>
    decreases |keys|
  {
    if keys == [] then Step(w, None)
    else
      var first := DeleteIfPresent(api, w, keys[0]);
      if first.out.Some? then first else DeleteAll(api, first.world, keys[1..])
  }

  // ----- outdated Tuned objects -----

  /** The keys removeOutdatedTuned deletes, in order: a key of another name once for each owner
      reference to the profile. */
  function Owned(key: Key, owners: seq<string>, profileName: string): seq<Key> {
    if owners == [] then []
    else (if owners[0] == profileName then [key] else []) + Owned(key, owners[1..], profileName)
  }

  function Outdated(items: seq<Item>, name: string, profileName: string): seq<Key> {
    if items == [] then []
    else
      (if items[0].key.name != name then Owned(items[0].key, items[0].obj.owners, profileName) else [])
      + Outdated(items[1..], name, profileName)
  }

  function RemoveOutdatedTuned(api: Api, w: World, name: string, profileName: string): Step<Option<string>> {
    var listed := ListTuned(api, w);
    match listed.out
    case NotFound => Step(listed.world, None)
    case Failed(t) => Step(listed.world, Some(t))
    case Found(items) => DeleteAll(api, listed.world, Outdated(items, name, profileName))
  }

  lemma {:induction false} DeleteAllConcat(api: Api, w: World, a: seq<Key>, b: seq<Key>)
    ensures DeleteAll(api, w, a + b) ==
            (var first := DeleteAll(api, w, a); if first.out.Some? then first else DeleteAll(api, first.world, b))
    decreases |a|
  {
    if a == [] {
      assert a + b == b;
    } else {
      assert (a + b)[1..] == a[1..] + b;
      DeleteAllConcat(api, DeleteIfPresent(api, w, a[0]).world, a[1..], b);
    }
  }

  /** The inner loop of removeOutdatedTuned, over the owner references of one listed object. */
  method DeleteOnceForEachOwner(c: Client, key: Key, owners: seq<string>, profileName: string)
    returns (error: Option<string>)
    modifies c
    ensures Step(c.Now(), error) == DeleteAll(c.api, old(c.Now()), Owned(key, owners, profileName))
  {
    ghost var goal := DeleteAll(c.api, c.Now(), Owned(key, owners, profileName));
    assert owners[0..] == owners;
    for o := 0 to |owners|
      invariant goal == DeleteAll(c.api, c.Now(), Owned(key, owners[o..], profileName))
    {
      assert owners[o..][1..] == owners[o + 1..];
      if owners[o] == profileName {
        assert Owned(key, owners[o..], profileName)[1..] == Owned(key, owners[o + 1..], profileName);
        error := DoDelete(c, key);
        if error.Some? {
          return;
        }
      } else {
        assert Owned(key, owners[o..], profileName) == Owned(key, owners[o + 1..], profileName);
      }
    }
    error := None;
  }

  lemma OutdatedAt(items: seq<Item>, t: nat, name: string, profileName: string)
    requires t < |items|
    ensures Outdated(items[t..], name, profileName) ==
            (if items[t].key.name != name then Owned(items[t].key, items[t].obj.owners, profileName) else [])
            + Outdated(items[t + 1..], name, profileName)
  {
    assert items[t..][1..] == items[t + 1..];
  }

  method DoRemoveOutdatedTuned(c: Client, name: string, profileName: string) returns (error: Option<string>)
    modifies c
    ensures Step(c.Now(), error) == RemoveOutdatedTuned(c.api, old(c.Now()), name, profileName)
  {
    var listed := c.GetTuneds();
    if listed.Failed? {
      return Some(listed.text);
    }
    if listed.NotFound? {
      return None;
    }
    var items := listed.value;
    ghost var goal := DeleteAll(c.api, c.Now(), Outdated(items, name, profileName));
    assert items[0..] == items;
    for t := 0 to |items|
      invariant goal == DeleteAll(c.api, c.Now(), Outdated(items[t..], name, profileName))
    {
      OutdatedAt(items, t, name, profileName);
      if items[t].key.name != name {
        ghost var mine := Owned(items[t].key, items[t].obj.owners, profileName);
        DeleteAllConcat(c.api, c.Now(), mine, Outdated(items[t + 1..], name, profileName));
        error := DeleteOnceForEachOwner(c, items[t].key, items[t].obj.owners, profileName);
        if error.Some? {
          return;
        }
      } else {
        assert Outdated(items[t..], name, profileName) == Outdated(items[t + 1..], name, profileName);
      }
    }
    error := None;
  }

  function CreateOrUpdateTuned(api: Api, w: World, key: Key, obj: Obj, profileName: string): Step<Option<string>> {
    var removed := RemoveOutdatedTuned(api, w, key.name, profileName);
    if removed.out.Some? then removed else CreateOrUpdate(api, removed.world, key, obj)
  }

  method DoCreateOrUpdateTuned(c: Client, key: Key, obj: Obj, profileName: string) returns (error: Option<string>)
    modifies c
    ensures Step(c.Now(), error) == CreateOrUpdateTuned(c.api, old(c.Now()), key, obj, profileName)
  {
    error := DoRemoveOutdatedTuned(c, key.name, profileName);
    if error.Some? {
      return;
    }
    error := DoCreateOrUpdate(c, key, obj);
  }
}
