/** Round trips of the conversions: what a profile keeps on its way through the API versions. */
module ConversionFacts {
  import opened Prelude
  import opened Conversion

  function WithIrqDefault<M, C>(p: Profile<M, Spec, C>): Profile<M, Spec, C> {
    p.(spec := p.spec.(disableIrqBalancing := Over(p.spec.disableIrqBalancing, Some(true))))
  }

  // ----- one round trip, into any destinations -----

  /** `dst` sets nothing that `src` leaves unset. */
  ghost predicate Covered(src: Common, dst: Common) {
    && (src.cpu.Some? || dst.cpu.None?) && (src.hugePages.Some? || dst.hugePages.None?)
    && (src.machineConfigLabel.Some? || dst.machineConfigLabel.None?)
    && (src.poolSelector.Some? || dst.poolSelector.None?)
    && (src.nodeSelector.Some? || dst.nodeSelector.None?) && (src.realTime.Some? || dst.realTime.None?)
    && (src.kernelArgs.Some? || dst.kernelArgs.None?) && (src.numa.Some? || dst.numa.None?)
  }

  ghost predicate StatusCovered<C>(src: Status<C>, dst: Status<C>) {
    && (src.conditions.Some? || dst.conditions.None?)
    && (src.tuned.Some? || dst.tuned.None?)
    && (src.runtimeClass.Some? || dst.runtimeClass.None?)
  }

  ghost predicate ProfileCovered<M, C>(src: Profile<M, Spec, C>, dst: Profile<M, Spec, C>) {
    && Covered(src.spec.common, dst.spec.common)
    && (src.spec.net.Some? || dst.spec.net.None?)
    && StatusCovered(src.status, dst.status)
  }

  lemma CommonOverTwice(src: Common, first: Common, second: Common)
    ensures CommonOver(CommonOver(src, first), second) == src <==> Covered(src, first) && Covered(src, second)
  {
  }

  lemma StatusOverTwice<C>(src: Status<C>, first: Status<C>, second: Status<C>)
    ensures StatusOver(StatusOver(src, first), second) == src <==>
            StatusCovered(src, first) && StatusCovered(src, second)
  {
  }

  /** v2 to v1 and back is the identity exactly when the profile says something about IRQ balancing and
      neither destination had set a field that the profile leaves unset. */
  lemma RoundTripV2Iff<M, C>(p: Profile<M, Spec, C>, hub: Profile<M, Spec, C>, back: Profile<M, Spec, C>)
    ensures HubToV2(V2ToHub(p, hub), back) == p <==>
            && ProfileCovered(p, hub) && ProfileCovered(p, back)
            && p.spec.disableIrqBalancing.Some?
  {
    CommonOverTwice(p.spec.common, hub.spec.common, back.spec.common);
    StatusOverTwice(p.status, hub.status, back.status);
  }

  /** v1alpha1 to v1 and back is the identity exactly when neither destination had set a field that
      the profile leaves unset; fresh destinations never have. */
  lemma RoundTripAlphaIff<M, C>(p: Profile<M, Common, C>, hub: Profile<M, Spec, C>, back: Profile<M, Common, C>)
    ensures HubToAlpha(AlphaToHub(p, hub), back) == p <==>
            && Covered(p.spec, hub.spec.common) && Covered(p.spec, back.spec)
            && StatusCovered(p.status, hub.status) && StatusCovered(p.status, back.status)
    ensures AlphaToHub(p, hub).spec.net == hub.spec.net
    ensures AlphaToHub(p, hub).spec.disableIrqBalancing == hub.spec.disableIrqBalancing
  {
    CommonOverTwice(p.spec, hub.spec.common, back.spec);
    StatusOverTwice(p.status, hub.status, back.status);
  }

  // ----- any journey, into fresh objects -----

  datatype Version = ALPHA | V1 | V2

  /** What is left of a v1 profile after it was read as another version and written back. */
  function Visit<M, C>(v: Version, p: Profile<M, Spec, C>, meta: M): Profile<M, Spec, C> {
    match v
    case ALPHA => AlphaToHub(HubToAlpha(p, FreshAlpha(meta)), Fresh(meta))
    case V1 => p
    case V2 => V2ToHub(HubToV2(p, Fresh(meta)), Fresh(meta))
  }

  function Journey<M, C>(path: seq<Version>, p: Profile<M, Spec, C>, meta: M): Profile<M, Spec, C> {
    if path == [] then p else Visit(path[|path| - 1], Journey(path[..|path| - 1], p, meta), meta)
  }

  /** The versions visited since the last visit to v1alpha1. */
  function SinceAlpha(path: seq<Version>): seq<Version> {
    if path == [] then []
    else if path[|path| - 1].ALPHA? then []
    else SinceAlpha(path[..|path| - 1]) + [path[|path| - 1]]
  }

  /** After any sequence of conversions, metadata, status and the common specification are as they
      were; v1alpha1 loses the network section and the IRQ setting and nothing brings them back, except
      that v2 turns a missing IRQ setting into true. */
  lemma {:induction false} JourneyKeeps<M, C>(path: seq<Version>, p: Profile<M, Spec, C>, meta: M)
    ensures var r, left := Journey(path, p, meta), if ALPHA in path then None else p.spec.disableIrqBalancing;
            && r.meta == p.meta && r.status == p.status && r.spec.common == p.spec.common
            && r.spec.net == (if ALPHA in path then None else p.spec.net)
            && r.spec.disableIrqBalancing == (if V2 in SinceAlpha(path) then Over(left, Some(true)) else left)
  {
    if path != [] {
      var init, v := path[..|path| - 1], path[|path| - 1];
      JourneyKeeps(init, p, meta);
      assert path == init + [v];
      assert v != ALPHA ==> (ALPHA in path <==> ALPHA in init);
    }
  }

  /** Into fresh objects: v1 holds what v2 held, v2 to v1 and back only fills in the IRQ default, and a
      second round trip, or any number of them, changes nothing more. */
  lemma {:induction false} RoundTripsV2<M, C>(p: Profile<M, Spec, C>, trips: nat, meta: M)
    ensures V2ToHub(p, Fresh(meta)) == p
    ensures HubToV2(Journey(seq(trips, _ => V2), V2ToHub(p, Fresh(meta)), meta), Fresh(meta)) == WithIrqDefault(p)
  {
    var path, hub := seq(trips, _ => V2), V2ToHub(p, Fresh(meta));
    JourneyKeeps(path, hub, meta);
    assert ALPHA !in path;
    assert hub == p;
  }

  /** A profile that starts as v1alpha1 and visits any versions comes back unchanged, and whatever it
      visited, v2 sees the IRQ setting as true. */
  lemma AlphaSurvives<M, C>(p: Profile<M, Common, C>, path: seq<Version>, meta: M)
    ensures var r := Journey(path, AlphaToHub(p, Fresh(meta)), meta);
            && HubToAlpha(r, FreshAlpha(meta)) == p
            && HubToV2(r, Fresh(meta)).spec == Spec(p.spec, None, Some(true))
  {
    var hub := AlphaToHub(p, Fresh(meta));
    RoundTripAlphaIff(p, Fresh(meta), FreshAlpha(meta));
    assert hub.spec == Spec(p.spec, None, None) && hub.status == p.status;
    JourneyKeeps(path, hub, meta);
  }
}
