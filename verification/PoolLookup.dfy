/**
  Finding the machine config pool of a profile
  (controllers/performanceprofile_controller.go, lines 538 to 588).
 */
module PoolLookup {
  import opened Prelude
  import opened Cluster

  /** Whether a selector matches a label set, or the text of its parse error. */
  type Matcher = (string, map<string, string>) -> Result<bool>

  /** What a pool's node selector says about the profile's node labels. */
  datatype Verdict = NoSelector | Invalid(text: string) | Hit | Miss

  function Judge(matches: Matcher, pool: Pool, nodeSelector: map<string, string>): Verdict {
    if pool.nodeSelector.None? then NoSelector
    else match matches(pool.nodeSelector.value, nodeSelector)
      case Failure(t) => Invalid(t)
      case Success(b) => if b then Hit else Miss
  }

  /** The pool has a node selector, and it matches. */
  ghost predicate Matched(matches: Matcher, pool: Pool, labels: map<string, string>) {
    pool.nodeSelector.Some? && matches(pool.nodeSelector.value, labels) == Success(true)
  }

  /** The pool has a node selector that cannot be parsed. */
  ghost predicate Malformed(matches: Matcher, pool: Pool, labels: map<string, string>) {
    pool.nodeSelector.Some? && matches(pool.nodeSelector.value, labels).Failure?
  }

  // ----- duplicates -----

  ghost predicate DistinctNames(pools: seq<Pool>) {
    forall i, j | 0 <= i < j < |pools| :: pools[i].name != pools[j].name
  }

  function Names(pools: seq<Pool>): set<string> {
    set p | p in pools :: p.name
  }

  lemma NamesAppend(pools: seq<Pool>, p: Pool)
    ensures Names(pools + [p]) == Names(pools) + {p.name}
  {
    assert forall q :: q in pools + [p] <==> q in pools || q == p;
    assert p in pools + [p];
    forall x | x in Names(pools) + {p.name}
      ensures x in Names(pools + [p])
    {
    }
  }

  /** The first pool of every name, in list order. */
  function FirstOfEachName(pools: seq<Pool>): (r: seq<Pool>)
    ensures DistinctNames(r)
    ensures Names(r) == Names(pools)
    ensures forall p | p in r :: p in pools
    ensures |r| <= |pools|
  {
    if pools == [] then [] else
      var n := |pools| - 1;
      var before := FirstOfEachName(pools[..n]);
      assert pools == pools[..n] + [pools[n]];
      NamesAppend(pools[..n], pools[n]);
      NamesAppend(before, pools[n]);
      if pools[n].name in Names(pools[..n]) then before else before + [pools[n]]
  }

  /** `kept` are the pools at the ascending positions `at`, each the first of its name. */
  ghost predicate FirstsAt(pools: seq<Pool>, kept: seq<Pool>, at: seq<nat>) {
    && |at| == |kept|
    && (forall k, l | 0 <= k < l < |at| :: at[k] < at[l])
    && (forall k | 0 <= k < |at| :: at[k] < |pools| && pools[at[k]] == kept[k])
    && (forall k, j | 0 <= k < |at| && 0 <= j < at[k] :: pools[j].name != kept[k].name)
  }

  lemma FirstsLonger(rest: seq<Pool>, p: Pool, kept: seq<Pool>, at: seq<nat>)
    requires FirstsAt(rest, kept, at)
    ensures FirstsAt(rest + [p], kept, at)
  {
    assert forall j | 0 <= j < |rest| :: (rest + [p])[j] == rest[j];
  }

  lemma FirstsAppend(rest: seq<Pool>, p: Pool, kept: seq<Pool>, at: seq<nat>)
    requires FirstsAt(rest, kept, at) && p.name !in Names(rest)
    ensures FirstsAt(rest + [p], kept + [p], at + [|rest|])
  {
    FirstsLonger(rest, p, kept, at);
    forall j | 0 <= j < |rest|
      ensures (rest + [p])[j].name != p.name
    {
      assert rest[j] in rest;
    }
  }

  /** The filter keeps the first pool of each name, in the order of the list. */
  lemma {:induction false} FirstKeptInOrder(pools: seq<Pool>) returns (at: seq<nat>)
    ensures FirstsAt(pools, FirstOfEachName(pools), at)
  {
    at := [];
    if pools != [] {
      var n := |pools| - 1;
      var rest, kept := pools[..n], FirstOfEachName(pools[..n]);
      at := FirstKeptInOrder(rest);
      assert pools == rest + [pools[n]];
      if pools[n].name in Names(rest) {
        FirstsLonger(rest, pools[n], kept, at);
      } else {
        FirstsAppend(rest, pools[n], kept, at);
        at := at + [n];
      }
    }
  }

  lemma FilterStep(pools: seq<Pool>, i: nat)
    requires i < |pools|
    ensures Names(pools[..i + 1]) == Names(pools[..i]) + {pools[i].name}
    ensures FirstOfEachName(pools[..i + 1]) ==
            FirstOfEachName(pools[..i]) + (if pools[i].name in Names(pools[..i]) then [] else [pools[i]])
  {
    assert pools[..i + 1] == pools[..i] + [pools[i]];
    assert pools[..i + 1][..i] == pools[..i];
    NamesAppend(pools[..i], pools[i]);
  }

  /** filterMCPDuplications. */
  method FilterDuplications(pools: seq<Pool>) returns (filtered: seq<Pool>)
    ensures filtered == FirstOfEachName(pools)
  {
    filtered := [];
    var items: map<string, Pool> := map[];
    for i := 0 to |pools|
      invariant filtered == FirstOfEachName(pools[..i])
      invariant items.Keys == Names(pools[..i])
    {
      FilterStep(pools, i);
      if pools[i].name !in items.Keys {
        items := items[pools[i].name := pools[i]];
        filtered := filtered + [pools[i]];
      }
    }
    assert pools[..|pools|] == pools;
  }

  /** A list of distinct names is its own filter. */
  lemma {:induction false} DistinctUnfiltered(pools: seq<Pool>)
    requires DistinctNames(pools)
    ensures FirstOfEachName(pools) == pools
  {
    if pools != [] {
      var n := |pools| - 1;
      DistinctUnfiltered(pools[..n]);
      assert pools == pools[..n] + [pools[n]];
    }
  }

  /** The filtered list is the matching prefix of the input exactly when that prefix repeats no name.
      Only then may its indices be applied to the unfiltered list, as the lookup does. */
  lemma FilterIsPrefixIff(pools: seq<Pool>)
    ensures var f := FirstOfEachName(pools);
            f == pools[..|f|] <==> DistinctNames(pools[..|f|])
  {
    var f := FirstOfEachName(pools);
    if DistinctNames(pools[..|f|]) {
      PrefixOfFilter(pools, |f|);
    }
  }

  lemma {:induction false} PrefixOfFilter(pools: seq<Pool>, d: nat)
    requires d <= |pools| && DistinctNames(pools[..d])
    ensures d <= |FirstOfEachName(pools)| && FirstOfEachName(pools)[..d] == pools[..d]
    decreases |pools|
  {
    if d == |pools| {
      assert pools[..d] == pools;
      DistinctUnfiltered(pools);
    } else {
      var n := |pools| - 1;
      assert pools[..n][..d] == pools[..d];
      PrefixOfFilter(pools[..n], d);
    }
  }

  // ----- the lookup -----

  /** The outcome of scanning a list of pools: the matches so far, or the first parse error. */
  function Scan(matches: Matcher, pools: seq<Pool>, nodeSelector: map<string, string>): Result<seq<Pool>> {
    if pools == [] then Success([]) else
      var n := |pools| - 1;
      match Scan(matches, pools[..n], nodeSelector)
      case Failure(t) => Failure(t)
      case Success(found) =>
        match Judge(matches, pools[n], nodeSelector)
        case Invalid(t) => Failure(t)
        case Hit => Success(found + [pools[n]])
        case _ => Success(found)
  }

  const NO_POOL := "failed to find MCP with the node selector that matches labels"
  const MANY_POOLS := "more than one MCP found that matches performance profile node selector"

  /** The lookup examines as many items of the unfiltered list as there are distinct names. */
  function FindPool(matches: Matcher, items: seq<Pool>, nodeSelector: map<string, string>): Result<Pool> {
    match Scan(matches, items[..|FirstOfEachName(items)|], nodeSelector)
    case Failure(t) => Failure(t)
    case Success(found) =>
      if |found| == 0 then Failure(NO_POOL) else if |found| > 1 then Failure(MANY_POOLS) else Success(found[0])
  }

  lemma ScanStep(matches: Matcher, pools: seq<Pool>, i: nat, nodeSelector: map<string, string>)
    requires i < |pools| && Scan(matches, pools[..i], nodeSelector).Success?
    ensures Scan(matches, pools[..i + 1], nodeSelector) ==
            (match Judge(matches, pools[i], nodeSelector)
             case Invalid(t) => Failure(t)
             case Hit => Success(Scan(matches, pools[..i], nodeSelector).value + [pools[i]])
             case _ => Scan(matches, pools[..i], nodeSelector))
  {
    assert pools[..i + 1][..i] == pools[..i];
  }

  method DoFindPool(matches: Matcher, items: seq<Pool>, nodeSelector: map<string, string>) returns (r: Result<Pool>)
    ensures r == FindPool(matches, items, nodeSelector)
  {
    var filtered := FilterDuplications(items);
    var profilePools: seq<Pool> := [];
    ghost var examined := items[..|filtered|];
    for i := 0 to |filtered|
      invariant Scan(matches, examined[..i], nodeSelector) == Success(profilePools)
    {
      ScanStep(matches, examined, i, nodeSelector);
      var pool := items[i];
      assert examined[i] == pool;
      if pool.nodeSelector.Some? {
        var matched := matches(pool.nodeSelector.value, nodeSelector);
        if matched.Failure? {
          ScanFails(matches, examined, i + 1, nodeSelector);
          return Failure(matched.text);
        }
        if matched.value {
          profilePools := profilePools + [pool];
        }
      }
    }
    assert examined[..|filtered|] == examined;
    if |profilePools| == 0 {
      return Failure(NO_POOL);
    }
    if |profilePools| > 1 {
      return Failure(MANY_POOLS);
    }
    r := Success(profilePools[0]);
  }

  lemma {:induction false} ScanFails(matches: Matcher, pools: seq<Pool>, i: nat, nodeSelector: map<string, string>)
    requires i <= |pools| && Scan(matches, pools[..i], nodeSelector).Failure?
    ensures Scan(matches, pools, nodeSelector) == Scan(matches, pools[..i], nodeSelector)
    decreases |pools|
  {
    if i == |pools| {
      assert pools[..i] == pools;
    } else {
      var n := |pools| - 1;
      assert pools[..n][..i] == pools[..i];
      ScanFails(matches, pools[..n], i, nodeSelector);
    }
  }

  /** A scan succeeds when no selector is invalid. */
  lemma {:induction false} ScanSucceedsIff(matches: Matcher, pools: seq<Pool>, nodeSelector: map<string, string>)
    ensures Scan(matches, pools, nodeSelector).Success? <==>
            forall p | p in pools :: !Malformed(matches, p, nodeSelector)
  {
    if pools != [] {
      var n := |pools| - 1;
      ScanSucceedsIff(matches, pools[..n], nodeSelector);
      assert pools == pools[..n] + [pools[n]];
      assert Judge(matches, pools[n], nodeSelector).Invalid? <==> Malformed(matches, pools[n], nodeSelector);
    }
  }

  /** A successful scan returns exactly the hits; on distinct names, each once. */
  lemma {:induction false} ScanReturnsTheHits(matches: Matcher, pools: seq<Pool>, nodeSelector: map<string, string>)
    requires Scan(matches, pools, nodeSelector).Success?
    ensures var found := Scan(matches, pools, nodeSelector).value;
            && (forall p :: p in found <==> p in pools && Matched(matches, p, nodeSelector))
            && (DistinctNames(pools) ==> DistinctNames(found))
  {
    if pools != [] {
      var n := |pools| - 1;
      ScanReturnsTheHits(matches, pools[..n], nodeSelector);
      assert pools == pools[..n] + [pools[n]];
      var before := Scan(matches, pools[..n], nodeSelector).value;
      if DistinctNames(pools) {
        assert forall p | p in before :: p.name != pools[n].name;
      }
    }
  }

  /** A pool list in which the pools of one name are copies of one another and the first copies come
      first, as when a list is returned twice over. */
  ghost predicate Repeated(items: seq<Pool>) {
    && DistinctNames(items[..|FirstOfEachName(items)|])
    && forall p, q | p in items && q in items && p.name == q.name :: p == q
  }

  /** Every selector is well-formed and `pool` is the one pool that matches. */
  ghost predicate UniqueHit(matches: Matcher, items: seq<Pool>, nodeSelector: map<string, string>, pool: Pool) {
    && (forall p | p in items :: !Malformed(matches, p, nodeSelector))
    && pool in items && Matched(matches, pool, nodeSelector)
    && (forall q | q in items && Matched(matches, q, nodeSelector) :: q == pool)
  }

  /** On such a list the lookup succeeds exactly when every selector is well-formed and one distinct pool
      matches, and returns that pool. */
  lemma LookupIffUniqueHit(matches: Matcher, items: seq<Pool>, nodeSelector: map<string, string>, pool: Pool)
    requires Repeated(items)
    ensures FindPool(matches, items, nodeSelector) == Success(pool) <==> UniqueHit(matches, items, nodeSelector, pool)
  {
    var f := FirstOfEachName(items);
    FilterIsPrefixIff(items);
    SameMembers(items);
    ScanFindsUniqueHit(matches, f, nodeSelector, pool);
    var scanned := Scan(matches, f, nodeSelector);
    assert scanned.Success? && |scanned.value| == 1 ==> scanned.value == [scanned.value[0]];
    assert UniqueHit(matches, f, nodeSelector, pool) <==> UniqueHit(matches, items, nodeSelector, pool);
  }

  lemma SameMembers(items: seq<Pool>)
    requires Repeated(items)
    ensures forall p :: p in items <==> p in FirstOfEachName(items)
  {
    var f := FirstOfEachName(items);
    forall p | p in items
      ensures p in f
    {
      assert p.name in Names(f);
      var q :| q in f && q.name == p.name;
    }
  }

  /** On distinct names a scan finds one pool only exactly when that is the unique hit. */
  lemma ScanFindsUniqueHit(matches: Matcher, pools: seq<Pool>, nodeSelector: map<string, string>, pool: Pool)
    requires DistinctNames(pools)
    ensures Scan(matches, pools, nodeSelector) == Success([pool]) <==> UniqueHit(matches, pools, nodeSelector, pool)
  {
    ScanSucceedsIff(matches, pools, nodeSelector);
    if Scan(matches, pools, nodeSelector).Success? {
      var found := Scan(matches, pools, nodeSelector).value;
      ScanReturnsTheHits(matches, pools, nodeSelector);
      SingletonIff(found, pool);
    }
  }

  lemma SingletonIff(found: seq<Pool>, pool: Pool)
    requires DistinctNames(found)
    ensures found == [pool] <==> pool in found && forall q | q in found :: q == pool
  {
    if |found| > 1 {
      assert found[0] != found[1] && found[0] in found && found[1] in found;
    }
  }

  /** On any list, a pool that is returned is one of the list, has a selector, and matches. */
  lemma FoundPoolMatches(matches: Matcher, items: seq<Pool>, nodeSelector: map<string, string>)
    ensures var r := FindPool(matches, items, nodeSelector);
            r.Success? ==> r.value in items && Matched(matches, r.value, nodeSelector)
  {
    var examined := items[..|FirstOfEachName(items)|];
    if Scan(matches, examined, nodeSelector).Success? {
      ScanReturnsTheHits(matches, examined, nodeSelector);
      HeadIsMember(Scan(matches, examined, nodeSelector).value);
      assert forall p | p in examined :: p in items;
    }
  }

  /** How the lookup fails on a list repeated whole: with the error of a selector if one is malformed, and
      otherwise for want of a match or for more than one. */
  lemma LookupFailures(matches: Matcher, items: seq<Pool>, nodeSelector: map<string, string>)
    requires Repeated(items)
    ensures var r := FindPool(matches, items, nodeSelector);
            && ((exists p | p in items :: Malformed(matches, p, nodeSelector)) ==>
                  r.Failure? && exists p | p in items :: SelectorError(matches, p, nodeSelector, r.text))
            && ((forall p | p in items :: !Malformed(matches, p, nodeSelector)) ==>
                  && (r == Failure("failed to find MCP with the node selector that matches labels") <==>
                        forall p | p in items :: !Matched(matches, p, nodeSelector))
                  && (r == Failure("more than one MCP found that matches performance profile node selector") <==>
                        exists p, q | p in items && q in items ::
                          p != q && Matched(matches, p, nodeSelector) && Matched(matches, q, nodeSelector)))
  {
    var f := FirstOfEachName(items);
    FilterIsPrefixIff(items);
    SameMembers(items);
    ScanSucceedsIff(matches, f, nodeSelector);
    if Scan(matches, f, nodeSelector).Success? {
      ScanReturnsTheHits(matches, f, nodeSelector);
      HowMany(Scan(matches, f, nodeSelector).value);
      TextsDiffer();
    } else {
      ScanErrorIsOfAPool(matches, f, nodeSelector);
    }
  }

  ghost predicate SelectorError(matches: Matcher, p: Pool, labels: map<string, string>, text: string) {
    p.nodeSelector.Some? && matches(p.nodeSelector.value, labels) == Failure(text)
  }

  lemma {:induction false} ScanErrorIsOfAPool(matches: Matcher, pools: seq<Pool>, nodeSelector: map<string, string>)
    requires Scan(matches, pools, nodeSelector).Failure?
    ensures exists p | p in pools :: SelectorError(matches, p, nodeSelector, Scan(matches, pools, nodeSelector).text)
  {
    var n := |pools| - 1;
    if Scan(matches, pools[..n], nodeSelector).Failure? {
      ScanErrorIsOfAPool(matches, pools[..n], nodeSelector);
      assert pools == pools[..n] + [pools[n]];
    } else {
      assert SelectorError(matches, pools[n], nodeSelector, Scan(matches, pools, nodeSelector).text);
    }
  }

  lemma HowMany(found: seq<Pool>)
    requires DistinctNames(found)
    ensures |found| == 0 <==> forall p :: p !in found
    ensures |found| > 1 <==> exists p, q :: p in found && q in found && p != q
  {
    if |found| > 0 {
      assert found[0] in found;
    }
    if |found| > 1 {
      assert found[0] != found[1] && found[0] in found && found[1] in found;
    }
  }

  lemma TextsDiffer()
    ensures NO_POOL != MANY_POOLS
  {
    assert |NO_POOL| != |MANY_POOLS|;
  }

  // ----- lists whose examined prefix repeats a name -----

  lemma {:induction false} NamesCount(pools: seq<Pool>)
    ensures |Names(pools)| <= |pools|
    ensures |Names(pools)| == |pools| <==> DistinctNames(pools)
  {
    if pools != [] {
      var n := |pools| - 1;
      var rest, last := pools[..n], pools[n];
      NamesCount(rest);
      assert pools == rest + [last];
      NamesAppend(rest, last);
      DistinctAppend(rest, last);
    }
  }

  lemma DistinctAppend(pools: seq<Pool>, p: Pool)
    ensures DistinctNames(pools + [p]) <==> DistinctNames(pools) && p.name !in Names(pools)
  {
    var longer := pools + [p];
    assert forall i | 0 <= i < |pools| :: longer[i] == pools[i];
    if p.name in Names(pools) {
      var q :| q in pools && q.name == p.name;
      var i :| 0 <= i < |pools| && pools[i] == q;
      assert longer[i].name == longer[|pools|].name;
    } else if DistinctNames(pools) {
      forall i | 0 <= i < |pools|
        ensures longer[i].name != p.name
      {
        assert pools[i] in pools;
      }
    }
  }

  /** A prefix that repeats a name leaves another one out. */
  lemma NameLeftOut(items: seq<Pool>) returns (p: Pool)
    requires !DistinctNames(items[..|FirstOfEachName(items)|])
    ensures p in items && p.name !in Names(items[..|FirstOfEachName(items)|])
  {
    var f := FirstOfEachName(items);
    var prefix := items[..|f|];
    NamesCount(f);
    NamesCount(prefix);
    if Names(items) <= Names(prefix) {
      Cardinality(Names(items), Names(prefix));
    }
    var name :| name in Names(items) && name !in Names(prefix);
    p :| p in items && p.name == name;
  }

  lemma Cardinality(a: set<string>, b: set<string>)
    requires a <= b
    ensures |a| <= |b|
  {
    CardUnion(a, b - a);
    assert a + (b - a) == b;
  }

  /** Every pool has a node selector, and only copies share one. */
  ghost predicate OwnSelectors(items: seq<Pool>) {
    && (forall p | p in items :: p.nodeSelector.Some?)
    && forall p, q | p in items && q in items && p.nodeSelector == q.nodeSelector :: p == q
  }

  function OnlySelector(selector: string): Matcher {
    (s: string, labels: map<string, string>) => Success(s == selector)
  }

  /** Whenever the examined prefix repeats a name, some pool that is the only match is not found. */
  lemma UniqueHitMissed(items: seq<Pool>, nodeSelector: map<string, string>) returns (matches: Matcher, p: Pool)
    requires OwnSelectors(items) && !DistinctNames(items[..|FirstOfEachName(items)|])
    ensures UniqueHit(matches, items, nodeSelector, p)
    ensures FindPool(matches, items, nodeSelector) == Failure(NO_POOL)
  {
    p := NameLeftOut(items);
    matches := OnlySelector(p.nodeSelector.value);
    var prefix := items[..|FirstOfEachName(items)|];
    forall q | q in items
      ensures !Malformed(matches, q, nodeSelector) && (Matched(matches, q, nodeSelector) <==> q == p)
    {
    }
    forall q | q in prefix
      ensures !Malformed(matches, q, nodeSelector) && !Matched(matches, q, nodeSelector)
    {
      assert q in items && q.name in Names(prefix);
    }
    ScanSucceedsIff(matches, prefix, nodeSelector);
    ScanReturnsTheHits(matches, prefix, nodeSelector);
    HeadIsMember(Scan(matches, prefix, nodeSelector).value);
  }

  lemma HeadIsMember(pools: seq<Pool>)
    ensures pools == [] || pools[0] in pools
  {
  }

  /** The lookup finds the one match, and nothing else, for every meaning of the selectors. */
  ghost predicate LookupSound(items: seq<Pool>, nodeSelector: map<string, string>) {
    forall matches: Matcher, pool: Pool ::
      FindPool(matches, items, nodeSelector) == Success(pool) <==> UniqueHit(matches, items, nodeSelector, pool)
  }

  /** Exactly: on pools with selectors of their own, copies allowed, the lookup is sound if and only if
      the examined prefix repeats no name. */
  lemma LookupSoundIff(items: seq<Pool>, nodeSelector: map<string, string>)
    requires OwnSelectors(items)
    requires forall p, q | p in items && q in items && p.name == q.name :: p == q
    ensures LookupSound(items, nodeSelector) <==> DistinctNames(items[..|FirstOfEachName(items)|])
  {
    if DistinctNames(items[..|FirstOfEachName(items)|]) {
      forall matches: Matcher, pool: Pool
        ensures FindPool(matches, items, nodeSelector) == Success(pool) <==>
                UniqueHit(matches, items, nodeSelector, pool)
      {
        LookupIffUniqueHit(matches, items, nodeSelector, pool);
      }
    } else {
      var matches, pool := UniqueHitMissed(items, nodeSelector);
      assert FindPool(matches, items, nodeSelector) != Success(pool);
    }
  }

  lemma EarlyRepeatFiltered(a: Pool, b: Pool)
    requires a.name != b.name
    ensures FirstOfEachName([a, a, b]) == [a, b]
  {
    assert [a, a, b][..2] == [a, a] && [a, a][..1] == [a] && [a][..0] == [];
    assert FirstOfEachName([a]) == [a];
    assert FirstOfEachName([a, a]) == [a];
  }

  /** For example, with the list [a, a, b] a match on `a` is reported as ambiguous and a
      match on `b` is not found. */
  lemma LookupFailsOnEarlyRepeat(matches: Matcher, a: Pool, b: Pool, nodeSelector: map<string, string>)
    requires a.name != b.name && a.nodeSelector.Some? && b.nodeSelector.Some?
    requires !Malformed(matches, a, nodeSelector) && !Malformed(matches, b, nodeSelector)
    ensures Matched(matches, a, nodeSelector) && !Matched(matches, b, nodeSelector)
            ==> FindPool(matches, [a, a, b], nodeSelector) == Failure(MANY_POOLS)
    ensures !Matched(matches, a, nodeSelector) && Matched(matches, b, nodeSelector)
            ==> FindPool(matches, [a, a, b], nodeSelector) == Failure(NO_POOL)
  {
    var items := [a, a, b];
    EarlyRepeatFiltered(a, b);
    assert items[..2] == [a, a];
    assert [a, a][..0] == [] && [a, a][..1] == [a] && [a, a][..2] == [a, a];
    ScanStep(matches, [a, a], 0, nodeSelector);
    ScanStep(matches, [a, a], 1, nodeSelector);
  }
}
