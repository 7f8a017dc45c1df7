/**
  The API server as the controller sees it: a store of objects, the calls a
  reconcile makes on it, and what each call does. Every call can fail, either
  before the server acted or after it (a reply that is lost on the way back).
 */
module Cluster {
  import opened Prelude
  import opened Conditions

  const FINALIZER := "foreground-deletion"
  const PAUSE_ANNOTATION := "performance.openshift.io/pause-reconcile"
  const TUNING_NAMESPACE := "openshift-cluster-node-tuning-operator"
  const COMPONENT_PREFIX := "performance"
  const TUNED_PREFIX := "openshift-node-performance"

  // ----- objects -----

  datatype Kind = MachineConfig | KubeletConfig | Tuned | RuntimeClass

  datatype Key = Key(kind: Kind, namespace: string, name: string)

  /** The spec of a component. `decoded` is the kubelet configuration held in a KubeletConfig's raw
      bytes (a failure when they do not parse); for a RuntimeClass `content` is the handler and
      `selector` the scheduling; `extra` holds the fields the controller does not generate. */
  datatype Spec = Spec(content: string, decoded: Result<string>, selector: string, extra: string)

  datatype KubeletCondition = KubeletCondition(failure: bool, message: string, time: int)

  /** An object that another controller has put a finalizer on is `pinned`: deleting it only marks it. */
  datatype Obj = Obj(labels: map<string, string>, annotations: map<string, string>, owners: seq<string>, spec: Spec,
                     pinned: bool, deleting: bool, conditions: seq<KubeletCondition>)

  datatype PoolCondition = PoolCondition(ctype: string, status: ConditionStatus, reason: string, message: string)

  /** A machine config pool; `nodeSelector` is None when the field is nil. */
  datatype Pool = Pool(name: string, labels: map<string, string>, nodeSelector: Option<string>,
                       machineConfigSelector: string, conditions: seq<PoolCondition>)

  /** The user's part of a profile. */
  datatype ProfileInput = ProfileInput(annotations: map<string, string>,
                                       nodeSelector: map<string, string>,
                                       spec: string)

  datatype Profile = Profile(input: ProfileInput, finalizers: seq<string>, deleting: bool, status: Status)

  /** `tunedReport` is the text that the Tuned profiles of the matching nodes currently amount to. */
  datatype Store = Store(profile: Option<Profile>, objects: map<Key, Obj>, pools: seq<Pool>, tunedReport: string)

  // ----- names -----

  function ComponentName(profileName: string, prefix: string): string {
    prefix + "-" + profileName
  }

  function ComponentKey(profileName: string, kind: Kind): Key {
    match kind
    case Tuned => Key(Tuned, TUNING_NAMESPACE, ComponentName(profileName, TUNED_PREFIX))
    case MachineConfig => Key(MachineConfig, "", "50-" + ComponentName(profileName, COMPONENT_PREFIX))
    case KubeletConfig => Key(KubeletConfig, "", ComponentName(profileName, COMPONENT_PREFIX))
    case RuntimeClass => Key(RuntimeClass, "", ComponentName(profileName, COMPONENT_PREFIX))
  }

  /** The machine config of earlier releases, removed after an upgrade. */
  function DeprecatedKey(profileName: string): (k: Key)
    ensures forall kind :: k != ComponentKey(profileName, kind)
  {
    var k := Key(MachineConfig, "", ComponentName(profileName, COMPONENT_PREFIX));
    assert |k.name| != |ComponentKey(profileName, MachineConfig).name|;
    k
  }

  /** The names, spelled out. */
  lemma ComponentNames(profileName: string)
    ensures ComponentKey(profileName, MachineConfig) == Key(MachineConfig, "", "50-" + ("performance-" + profileName))
    ensures ComponentKey(profileName, KubeletConfig) == Key(KubeletConfig, "", "performance-" + profileName)
    ensures ComponentKey(profileName, RuntimeClass) == Key(RuntimeClass, "", "performance-" + profileName)
    ensures ComponentKey(profileName, Tuned) ==
            Key(Tuned, "openshift-cluster-node-tuning-operator", "openshift-node-performance-" + profileName)
    ensures DeprecatedKey(profileName) == Key(MachineConfig, "", "performance-" + profileName)
  {
    PrefixSpelledOut(profileName);
  }

  lemma PrefixSpelledOut(profileName: string)
    ensures ComponentName(profileName, COMPONENT_PREFIX) == "performance-" + profileName
    ensures ComponentName(profileName, TUNED_PREFIX) == "openshift-node-performance-" + profileName
  {
    assert "performance" + "-" == "performance-";
    assert "openshift-node-performance" + "-" == "openshift-node-performance-";
  }

  /** Profiles of different names share no component, and the deprecated name of one is no name of another. */
  lemma ProfilesApart(a: string, b: string, kind: Kind, other: Kind)
    requires a != b
    ensures ComponentKey(a, kind) != ComponentKey(b, other)
    ensures DeprecatedKey(a) != ComponentKey(b, other)
  {
    ComponentNames(a);
    ComponentNames(b);
    NamesApart("50-" + "performance-", a, b);
    NamesApart("performance-", a, b);
    NamesApart("openshift-node-performance-", a, b);
    NamesApart("50-", "performance-" + a, "performance-" + b);
    assert ("performance-" + a)[0] != ("50-" + ("performance-" + b))[0];
  }

  lemma NamesApart(prefix: string, a: string, b: string)
    requires a != b
    ensures prefix + a != prefix + b
  {
    assert (prefix + a)[|prefix|..] == a && (prefix + b)[|prefix|..] == b;
  }

  ghost predicate AnyComponent(profileName: string, s: Store) {
    exists kind :: ComponentKey(profileName, kind) in s.objects
  }

  // ----- calls -----

  /** What becomes of one call: it is served, it never reaches the server, or it takes effect and
      the caller is told it failed. */
  datatype Fate = Served | Lost(text: string) | Unacknowledged(text: string)

  /** The server during one reconcile: the fate of the n-th call, the order in which it lists a set
      of keys, whether it keeps the status out of plain updates (a CRD with the status subresource
      does, the fake client of the unit tests does not), and whether it refuses new finalizers on an
      object under deletion. */
  datatype Api = Api(fate: nat -> Fate, order: set<Key> -> seq<Key>, statusSubresource: bool, strictFinalizers: bool)

  ghost predicate ListsEverything(api: Api) {
    forall s: set<Key>, k: Key :: k in api.order(s) <==> k in s
  }

  ghost predicate NoFaults(api: Api) {
    forall n: nat :: api.fate(n) == Served
  }

  /** The store, the number of calls made so far and the number of calls that asked for a change. */
  datatype World = World(store: Store, calls: nat, writes: nat)

  datatype Step<+T> = Step(world: World, out: T)

  datatype Reply<+T> = Found(value: T) | NotFound | Failed(text: string)

  function Ticked(w: World): World {
    w.(calls := w.calls + 1)
  }

  /** A read: any failed call looks the same to the caller. */
  function Read<T>(api: Api, w: World, served: Reply<T>): Step<Reply<T>> {
    match api.fate(w.calls)
    case Served => Step(Ticked(w), served)
    case Lost(t) => Step(Ticked(w), Failed(t))
    case Unacknowledged(t) => Step(Ticked(w), Failed(t))
  }

  /** A write that the server accepts, with the store it leads to. */
  function Change(api: Api, w: World, after: Store): Step<Option<string>> {
    var w1 := Ticked(w).(writes := w.writes + 1);
    match api.fate(w.calls)
    case Served => Step(w1.(store := after), None)
    case Lost(t) => Step(w1, Some(t))
    case Unacknowledged(t) => Step(w1.(store := after), Some(t))
  }

  function GetObject(api: Api, w: World, key: Key): Step<Reply<Obj>> {
    Read(api, w, if key in w.store.objects then Found(w.store.objects[key]) else NotFound)
  }

  /** Create, or update, after a read that told the two apart. */
  function PutObject(api: Api, w: World, key: Key, obj: Obj): Step<Option<string>> {
    Change(api, w, w.store.(objects := w.store.objects[key := obj]))
  }

  /** The objects after a delete of `key`. */
  function Deleted(objects: map<Key, Obj>, key: Key): map<Key, Obj> {
    if key !in objects then objects
    else if objects[key].pinned then objects[key := objects[key].(deleting := true)]
    else objects - {key}
  }

  function DeleteObject(api: Api, w: World, key: Key): Step<Option<string>> {
    Change(api, w, w.store.(objects := Deleted(w.store.objects, key)))
  }

  datatype Item = Item(key: Key, obj: Obj)

  function ItemsOf(objects: map<Key, Obj>, keys: seq<Key>): (items: seq<Item>)
    ensures forall i | 0 <= i < |items| ::
              items[i].key in keys && items[i].key in objects && objects[items[i].key] == items[i].obj
    ensures forall k | k in keys && k in objects :: Item(k, objects[k]) in items
  {
    if keys == [] then []
    else if keys[0] in objects then [Item(keys[0], objects[keys[0]])] + ItemsOf(objects, keys[1..])
    else ItemsOf(objects, keys[1..])
  }

  /** All Tuned objects, in every namespace. */
  function ListTuned(api: Api, w: World): Step<Reply<seq<Item>>> {
    Read(api, w, Found(ItemsOf(w.store.objects, api.order(set k | k in w.store.objects && k.kind == Tuned))))
  }

  function ListPools(api: Api, w: World): Step<Reply<seq<Pool>>> {
    Read(api, w, Found(w.store.pools))
  }

  function GetProfile(api: Api, w: World): Step<Reply<Profile>> {
    Read(api, w, match w.store.profile case Some(p) => Found(p) case None => NotFound)
  }

  /** The profile that the server keeps when `wanted` is sent in place of `stored`: an object under
      deletion goes away with its last finalizer. */
  function Accepted(api: Api, stored: Profile, wanted: Profile): Option<Profile> {
    var kept := if api.statusSubresource then wanted.(status := stored.status) else wanted;
    if kept.deleting && kept.finalizers == [] then None else Some(kept)
  }

  const NO_NEW_FINALIZERS := "no new finalizers can be added if the object is being deleted"

  predicate Refused(api: Api, stored: Profile, wanted: Profile) {
    api.strictFinalizers && stored.deleting && exists f | f in wanted.finalizers :: f !in stored.finalizers
  }

  function UpdateProfile(api: Api, w: World, wanted: Profile): Step<Option<string>> {
    match w.store.profile
    case None => Step(Ticked(w).(writes := w.writes + 1), Some("not found"))
    case Some(stored) =>
      if Refused(api, stored, wanted)
      then Step(Ticked(w).(writes := w.writes + 1), Some(NO_NEW_FINALIZERS))
      else Change(api, w, w.store.(profile := Accepted(api, stored, wanted)))
  }

  function UpdateProfileStatus(api: Api, w: World, status: Status): Step<Option<string>> {
    match w.store.profile
    case None => Step(Ticked(w).(writes := w.writes + 1), Some("not found"))
    case Some(stored) => Change(api, w, w.store.(profile := Some(stored.(status := status))))
  }

  // ----- the client object -----

  /** The controller's connection to the server; its methods are the calls above. */
  class Client {
    const api: Api
    var store: Store
    var calls: nat
    var writes: nat

    constructor (api: Api, store: Store)
      ensures this.api == api && Now() == World(store, 0, 0)
    {
      this.api := api;
      this.store := store;
      calls, writes := 0, 0;
    }

    function Now(): World
      reads this
    {
      World(store, calls, writes)
    }

    method Get(key: Key) returns (r: Reply<Obj>)
      modifies this
      ensures Step(Now(), r) == GetObject(api, old(Now()), key)
    {
      var fate := api.fate(calls);
      calls := calls + 1;
      if !fate.Served? {
        return Failed(fate.text);
      }
      r := if key in store.objects then Found(store.objects[key]) else NotFound;
    }

    method Put(key: Key, obj: Obj) returns (error: Option<string>)
      modifies this
      ensures Step(Now(), error) == PutObject(api, old(Now()), key, obj)
    {
      error := Commit(store.(objects := store.objects[key := obj]));
    }

    method Delete(key: Key) returns (error: Option<string>)
      modifies this
      ensures Step(Now(), error) == DeleteObject(api, old(Now()), key)
    {
      error := Commit(store.(objects := Deleted(store.objects, key)));
    }

    method GetTuneds() returns (r: Reply<seq<Item>>)
      modifies this
      ensures Step(Now(), r) == ListTuned(api, old(Now()))
    {
      var fate := api.fate(calls);
      calls := calls + 1;
      if !fate.Served? {
        return Failed(fate.text);
      }
      r := Found(ItemsOf(store.objects, api.order(set k | k in store.objects && k.kind == Tuned)));
    }

    method GetPools() returns (r: Reply<seq<Pool>>)
      modifies this
      ensures Step(Now(), r) == ListPools(api, old(Now()))
    {
      var fate := api.fate(calls);
      calls := calls + 1;
      if !fate.Served? {
        return Failed(fate.text);
      }
      r := Found(store.pools);
    }

    /** One of the two lists behind the Tuned report. */
    method GetTunedReport() returns (r: Reply<string>)
      modifies this
      ensures Step(Now(), r) == Read(api, old(Now()), Found(old(store).tunedReport))
    {
      var fate := api.fate(calls);
      calls := calls + 1;
      if !fate.Served? {
        return Failed(fate.text);
      }
      r := Found(store.tunedReport);
    }

    method GetTheProfile() returns (r: Reply<Profile>)
      modifies this
      ensures Step(Now(), r) == GetProfile(api, old(Now()))
    {
      var fate := api.fate(calls);
      calls := calls + 1;
      if !fate.Served? {
        return Failed(fate.text);
      }
      r := match store.profile case Some(p) => Found(p) case None => NotFound;
    }

    method Update(wanted: Profile) returns (error: Option<string>)
      modifies this
      ensures Step(Now(), error) == UpdateProfile(api, old(Now()), wanted)
    {
      if store.profile.None? {
        calls, writes := calls + 1, writes + 1;
        return Some("not found");
      }
      if Refused(api, store.profile.value, wanted) {
        calls, writes := calls + 1, writes + 1;
        return Some(NO_NEW_FINALIZERS);
      }
      error := Commit(store.(profile := Accepted(api, store.profile.value, wanted)));
    }

    method UpdateStatus(status: Status) returns (error: Option<string>)
      modifies this
      ensures Step(Now(), error) == UpdateProfileStatus(api, old(Now()), status)
    {
      if store.profile.None? {
        calls, writes := calls + 1, writes + 1;
        return Some("not found");
      }
      error := Commit(store.(profile := Some(store.profile.value.(status := status))));
    }

    method Commit(after: Store) returns (error: Option<string>)
      modifies this
      ensures Step(Now(), error) == Change(api, old(Now()), after)
    {
      var fate := api.fate(calls);
      calls, writes := calls + 1, writes + 1;
      if !fate.Lost? {
        store := after;
      }
      error := if fate.Served? then None else Some(fate.text);
    }
  }
}
