/**
  Choosing pools in the profile creator (pkg/profilecreator/mcp.go): the label that
  selects a pool, the pool a node belongs to, and the nodes of a pool.
 */
module NodePools {
  import opened Prelude
  import opened Cluster
  import opened PoolLookup

  // ----- the selector of a pool -----

  /** No other pool carries the label with the same value. */
  predicate UniqueLabel(pool: Pool, clusterPools: seq<Pool>, key: string)
    requires key in pool.labels
  {
    forall p | p in clusterPools && p.name != pool.name :: !(key in p.labels && p.labels[key] == pool.labels[key])
  }

  function UniqueLabels(pool: Pool, clusterPools: seq<Pool>): map<string, string> {
    map k | k in pool.labels && UniqueLabel(pool, clusterPools, k) :: pool.labels[k]
  }

  predicate HasSuffix(s: string, suffix: string) {
    |suffix| <= |s| && s[|s| - |suffix|..] == suffix
  }

  /** The pool has this label, and no pool of another name has it with the same value. */
  ghost predicate OwnLabel(pool: Pool, clusterPools: seq<Pool>, k: string) {
    && k in pool.labels
    && forall p | p in clusterPools && p.name != pool.name :: k !in p.labels || p.labels[k] != pool.labels[k]
  }

  ghost predicate EndsIn(k: string, name: string) {
    exists prefix :: k == prefix + name
  }

  /** The acceptable selectors: one label of its own, with a key that ends in the pool's name if any has. */
  ghost predicate Selects(selector: map<string, string>, pool: Pool, clusterPools: seq<Pool>) {
    exists k :: OwnLabel(pool, clusterPools, k) && selector == map[k := pool.labels[k]]
                && ((exists other :: OwnLabel(pool, clusterPools, other) && EndsIn(other, pool.name))
                    ==> EndsIn(k, pool.name))
  }

  lemma UniqueLabelsAreOwn(pool: Pool, clusterPools: seq<Pool>)
    ensures forall k :: k in UniqueLabels(pool, clusterPools) <==> OwnLabel(pool, clusterPools, k)
  {
  }

  lemma SuffixIsEnd(k: string, name: string)
    ensures HasSuffix(k, name) <==> EndsIn(k, name)
  {
    if HasSuffix(k, name) {
      assert k == k[..|k| - |name|] + name;
    }
  }

  method IsUnique(pool: Pool, clusterPools: seq<Pool>, key: string) returns (unique: bool)
    requires key in pool.labels
    ensures unique <==> UniqueLabel(pool, clusterPools, key)
  {
    unique := true;
    for i := 0 to |clusterPools|
      invariant unique
      invariant forall p | p in clusterPools[..i] && p.name != pool.name ::
                !(key in p.labels && p.labels[key] == pool.labels[key])
    {
      var mcp := clusterPools[i];
      if mcp.name != pool.name && key in mcp.labels && mcp.labels[key] == pool.labels[key] {
        unique := false;
        assert mcp in clusterPools;
        return;
      }
    }
    assert clusterPools[..|clusterPools|] == clusterPools;
  }

  lemma SingleEntry(m: map<string, string>, k: string)
    requires k in m && |m| <= 1
    ensures m == map[k := m[k]]
  {
    forall j | j in m
      ensures j == k
    {
      if j != k {
        assert {j, k} <= m.Keys;
        CardTwo(j, k, m.Keys);
      }
    }
  }

  lemma CardTwo(j: string, k: string, s: set<string>)
    requires j in s && k in s && j != k
    ensures |s| >= 2
  {
    assert |s - {j}| == |s| - 1 && k in s - {j};
  }

  /** GetMCPSelector. A map is visited in any order; the choices below are arbitrary, so the contract
      holds for every order. */
  method GetMCPSelector(pool: Pool, clusterPools: seq<Pool>) returns (r: Result<map<string, string>>)
    ensures r.Failure? <==> forall k :: !OwnLabel(pool, clusterPools, k)
    ensures r.Success? ==> Selects(r.value, pool, clusterPools)
  {
    ghost var unique := UniqueLabels(pool, clusterPools);
    UniqueLabelsAreOwn(pool, clusterPools);
    forall k
      ensures HasSuffix(k, pool.name) <==> EndsIn(k, pool.name)
    {
      SuffixIsEnd(k, pool.name);
    }
    var selector: map<string, string> := map[];
    var todo := pool.labels.Keys;
    while todo != {}
      invariant todo <= pool.labels.Keys
      invariant selector == map k | k in unique && k !in todo :: unique[k]
      decreases todo
    {
      var key :| key in todo;
      var isUnique := IsUnique(pool, clusterPools, key);
      if isUnique {
        selector := selector[key := pool.labels[key]];
      }
      todo := todo - {key};
    }
    assert selector == unique;
    if |selector| == 0 {
      return Failure("can't find a unique label");
    }
    ghost var withSuffix := exists k :: k in unique && HasSuffix(k, pool.name);
    if |selector| > 1 {
      todo := selector.Keys;
      while todo != {}
        invariant todo <= unique.Keys
        invariant selector == unique
        invariant forall k | k in unique && k !in todo :: !HasSuffix(k, pool.name)
        decreases todo
      {
        var key :| key in todo;
        if HasSuffix(key, pool.name) {
          selector := map[key := selector[key]];
          assert selector == map[key := pool.labels[key]];
          break;
        }
        todo := todo - {key};
      }
    }
    if |selector| > 1 {
      assert selector == unique && !withSuffix;
      var key :| key in selector;
      selector := map[key := selector[key]];
      assert selector == map[key := pool.labels[key]];
    } else if selector == unique {
      ghost var key :| key in selector;
      SingleEntry(selector, key);
    }
    r := Success(selector);
  }

  // ----- the pools of a node -----

  datatype Taint = Taint(key: string, value: string, noSchedule: bool)

  datatype ClusterNode = ClusterNode(name: string, labels: map<string, string>, taints: seq<Taint>)

  /** The library's answers about selectors: does one match, and is it empty. */
  datatype Selectors = Selectors(matches: Matcher, isEmpty: string -> bool)

  predicate IsWindows(node: ClusterNode) {
    "kubernetes.io/os" in node.labels && node.labels["kubernetes.io/os"] == "windows"
  }

  /** A pool matches a node when it has a selector, which is not empty and matches the node's labels. */
  predicate Matches(s: Selectors, pool: Pool, node: ClusterNode) {
    pool.nodeSelector.Some? && !s.isEmpty(pool.nodeSelector.value) && Judge(s.matches, pool, node.labels).Hit?
  }

  predicate Invalid(s: Selectors, pool: Pool, node: ClusterNode) {
    Judge(s.matches, pool, node.labels).Invalid?
  }

  function Matching(s: Selectors, pools: seq<Pool>, node: ClusterNode): (r: seq<Pool>)
    ensures forall p :: p in r <==> p in pools && Matches(s, p, node)
  {
    if pools == [] then [] else
      var n := |pools| - 1;
      assert pools == pools[..n] + [pools[n]];
      Matching(s, pools[..n], node) + (if Matches(s, pools[n], node) then [pools[n]] else [])
  }

  const MASTER := "master"
  const WORKER := "worker"

  /** The last pool of a name, as the loop leaves it. */
  function LastNamed(pools: seq<Pool>, name: string): (r: Option<Pool>)
    ensures r.None? <==> forall p | p in pools :: p.name != name
    ensures r.Some? ==> r.value in pools && r.value.name == name
  {
    if pools == [] then None else
      var n := |pools| - 1;
      assert pools == pools[..n] + [pools[n]];
      if pools[n].name == name then Some(pools[n]) else LastNamed(pools[..n], name)
  }

  function Custom(pools: seq<Pool>): (r: seq<Pool>)
    ensures forall p :: p in r <==> p in pools && p.name != MASTER && p.name != WORKER
  {
    if pools == [] then [] else
      var n := |pools| - 1;
      assert pools == pools[..n] + [pools[n]];
      Custom(pools[..n]) + (if pools[n].name != MASTER && pools[n].name != WORKER then [pools[n]] else [])
  }

  /** The list getPoolsForNode returns for the matching pools; an element may be a nil pointer. */
  function Chosen(matching: seq<Pool>): Result<seq<Option<Pool>>> {
    var custom, master, worker := Custom(matching), LastNamed(matching, MASTER), LastNamed(matching, WORKER);
    if matching == [] then Success([])
    else if |custom| > 1 then Failure("node belongs to several custom roles")
    else if |custom| == 1 then
      if master.Some? then Failure("node has both master role and custom role")
      else Success(if worker.Some? then [Some(custom[0]), worker] else [Some(custom[0])])
    else if master.Some? then Success([master])
    else Success([worker])
  }

  function PoolsForNode(s: Selectors, node: ClusterNode, clusterPools: seq<Pool>): Result<seq<Option<Pool>>> {
    if IsWindows(node) then Success([])
    else if exists p | p in clusterPools :: Invalid(s, p, node) then Failure("invalid label selector")
    else Chosen(Matching(s, clusterPools, node))
  }

  /** The first loop of getPoolsForNode: the matching pools, or the first invalid selector. */
  method CollectMatching(s: Selectors, node: ClusterNode, clusterPools: seq<Pool>) returns (r: Result<seq<Pool>>)
    ensures r == if exists p | p in clusterPools :: Invalid(s, p, node) then Failure("invalid label selector")
                 else Success(Matching(s, clusterPools, node))
  {
    var pools: seq<Pool> := [];
    for i := 0 to |clusterPools|
      invariant pools == Matching(s, clusterPools[..i], node)
      invariant forall p | p in clusterPools[..i] :: !Invalid(s, p, node)
    {
      assert clusterPools[..i + 1][..i] == clusterPools[..i];
      assert clusterPools[i] in clusterPools;
      if Judge(s.matches, clusterPools[i], node.labels).Invalid? {
        return Failure("invalid label selector");
      }
      if Matches(s, clusterPools[i], node) {
        pools := pools + [clusterPools[i]];
      }
    }
    assert clusterPools[..|clusterPools|] == clusterPools;
    r := Success(pools);
  }

  lemma ClassifyStep(pools: seq<Pool>, i: nat)
    requires i < |pools|
    ensures LastNamed(pools[..i + 1], MASTER) ==
            if pools[i].name == MASTER then Some(pools[i]) else LastNamed(pools[..i], MASTER)
    ensures LastNamed(pools[..i + 1], WORKER) ==
            if pools[i].name == WORKER then Some(pools[i]) else LastNamed(pools[..i], WORKER)
    ensures pools[i].name == MASTER || pools[i].name == WORKER ==> Custom(pools[..i + 1]) == Custom(pools[..i])
    ensures pools[i].name != MASTER && pools[i].name != WORKER ==>
            Custom(pools[..i + 1]) == Custom(pools[..i]) + [pools[i]]
  {
    assert pools[..i + 1][..i] == pools[..i];
  }

  /** The second loop: the last master and worker pools and all custom ones. */
  method Classify(pools: seq<Pool>) returns (master: Option<Pool>, worker: Option<Pool>, custom: seq<Pool>)
    ensures master == LastNamed(pools, MASTER) && worker == LastNamed(pools, WORKER) && custom == Custom(pools)
  {
    master, worker, custom := None, None, [];
    for i := 0 to |pools|
      invariant master == LastNamed(pools[..i], MASTER)
      invariant worker == LastNamed(pools[..i], WORKER)
      invariant custom == Custom(pools[..i])
    {
      ClassifyStep(pools, i);
      if pools[i].name == MASTER {
        master := Some(pools[i]);
      } else if pools[i].name == WORKER {
        worker := Some(pools[i]);
      } else {
        custom := custom + [pools[i]];
      }
    }
    assert pools[..|pools|] == pools;
  }

  method GetPoolsForNode(s: Selectors, node: ClusterNode, clusterPools: seq<Pool>)
    returns (r: Result<seq<Option<Pool>>>)
    ensures r == PoolsForNode(s, node, clusterPools)
  {
    if IsWindows(node) {
      return Success([]);
    }
    var matching := CollectMatching(s, node, clusterPools);
    if matching.Failure? {
      return Failure(matching.text);
    }
    if matching.value == [] {
      return Success([]);
    }
    var master, worker, custom := Classify(matching.value);
    if |custom| > 1 {
      return Failure("node belongs to several custom roles");
    } else if |custom| == 1 {
      if master.Some? {
        return Failure("node has both master role and custom role");
      }
      var list := [Some(custom[0])];
      if worker.Some? {
        list := list + [worker];
        assert list == [Some(custom[0]), worker];
      }
      return Success(list);
    } else if master.Some? {
      return Success([master]);
    }
    r := Success([worker]);
  }

  /** The first of those pools; None when there is none. */
  function PrimaryPool(s: Selectors, node: ClusterNode, clusterPools: seq<Pool>): Result<Option<Pool>> {
    match PoolsForNode(s, node, clusterPools)
    case Failure(t) => Failure(t)
    case Success(list) => Success(if list == [] then None else list[0])
  }

  method GetPrimaryPoolForNode(s: Selectors, node: ClusterNode, clusterPools: seq<Pool>)
    returns (r: Result<Option<Pool>>)
    ensures r == PrimaryPool(s, node, clusterPools)
  {
    var pools := GetPoolsForNode(s, node, clusterPools);
    if pools.Failure? {
      return Failure(pools.text);
    }
    if pools.value == [] {
      return Success(None);
    }
    r := Success(pools.value[0]);
  }

  // ----- the nodes of a pool -----

  predicate Repelled(s: Selectors, pool: Pool, node: ClusterNode) {
    exists t | t in node.taints :: Repels(s, pool, t)
  }

  /** A node is listed for a pool when the pool is its primary one and no taint repels it. */
  predicate Listed(s: Selectors, pool: Pool, clusterPools: seq<Pool>, node: ClusterNode) {
    var primary := PrimaryPool(s, node, clusterPools);
    primary.Success? && primary.value.Some? && primary.value.value.name == pool.name && !Repelled(s, pool, node)
  }

  function NodesForPool(s: Selectors, pool: Pool, clusterPools: seq<Pool>,
                        nodes: seq<ClusterNode>): (r: seq<ClusterNode>)
    ensures forall n :: n in r <==> n in nodes && Listed(s, pool, clusterPools, n)
  {
    if nodes == [] then [] else
      var k := |nodes| - 1;
      assert nodes == nodes[..k] + [nodes[k]];
      NodesForPool(s, pool, clusterPools, nodes[..k])
      + (if Listed(s, pool, clusterPools, nodes[k]) then [nodes[k]] else [])
  }

  predicate Repels(s: Selectors, pool: Pool, t: Taint) {
    && t.noSchedule
    && pool.nodeSelector.Some?
    && s.matches(pool.nodeSelector.value, map[t.key := t.value]) == Success(true)
  }

  /** The loop over the taints of a node. */
  method IsUnschedulable(s: Selectors, pool: Pool, node: ClusterNode) returns (unschedulable: bool)
    ensures unschedulable <==> Repelled(s, pool, node)
  {
    unschedulable := false;
    for t := 0 to |node.taints|
      invariant !unschedulable
      invariant forall k | 0 <= k < t :: !Repels(s, pool, node.taints[k])
    {
      if Repels(s, pool, node.taints[t]) {
        return true;
      }
    }
  }

  /** `valid` says whether the pool's own selector parses. */
  method GetNodesForPool(s: Selectors, valid: bool, pool: Pool, clusterPools: seq<Pool>, clusterNodes: seq<ClusterNode>)
    returns (r: Result<seq<ClusterNode>>)
    ensures r == if valid then Success(NodesForPool(s, pool, clusterPools, clusterNodes))
            else Failure("invalid label selector")
  {
    if !valid {
      return Failure("invalid label selector");
    }
    var nodes: seq<ClusterNode> := [];
    for i := 0 to |clusterNodes|
      invariant nodes == NodesForPool(s, pool, clusterPools, clusterNodes[..i])
    {
      assert clusterNodes[..i + 1][..i] == clusterNodes[..i];
      var n := clusterNodes[i];
      var p := GetPrimaryPoolForNode(s, n, clusterPools);
      if p.Success? && p.value.Some? && p.value.value.name == pool.name {
        var unschedulable := IsUnschedulable(s, pool, n);
        if !unschedulable {
          nodes := nodes + [n];
        }
      }
    }
    assert clusterNodes[..|clusterNodes|] == clusterNodes;
    r := Success(nodes);
  }

  // ----- what this amounts to -----

  ghost predicate RunsWindows(node: ClusterNode) {
    "kubernetes.io/os" in node.labels && node.labels["kubernetes.io/os"] == "windows"
  }

  /** The pool has a selector that is not empty and that matches the labels of the node. */
  ghost predicate Wants(s: Selectors, pool: Pool, node: ClusterNode) {
    && pool.nodeSelector.Some?
    && !s.isEmpty(pool.nodeSelector.value)
    && s.matches(pool.nodeSelector.value, node.labels) == Success(true)
  }

  ghost predicate WantsAsCustom(s: Selectors, pool: Pool, node: ClusterNode) {
    Wants(s, pool, node) && pool.name != "master" && pool.name != "worker"
  }

  /** A taint keeps new pods off the node and matches the selector of the pool. */
  ghost predicate TaintedAgainst(s: Selectors, pool: Pool, node: ClusterNode) {
    exists t :: && t in node.taints && t.noSchedule && pool.nodeSelector.Some?
                && s.matches(pool.nodeSelector.value, map[t.key := t.value]) == Success(true)
  }

  /** A node is listed for pools of one name only. */
  lemma NodeInOnePool(s: Selectors, a: Pool, b: Pool, clusterPools: seq<Pool>, nodes: seq<ClusterNode>,
                      node: ClusterNode)
    ensures node in NodesForPool(s, a, clusterPools, nodes) && node in NodesForPool(s, b, clusterPools, nodes) ==>
            a.name == b.name
  {
    assert node in NodesForPool(s, a, clusterPools, nodes) ==> Listed(s, a, clusterPools, node);
    assert node in NodesForPool(s, b, clusterPools, nodes) ==> Listed(s, b, clusterPools, node);
  }

  /** A node that some pool matches, and for which no error is raised, has a pool: never nil, and one
      that matches it. A node without a pool is a Windows node or matched by none. */
  lemma ChoiceIsNeverNil(s: Selectors, node: ClusterNode, clusterPools: seq<Pool>)
    requires PrimaryPool(s, node, clusterPools).Success?
    ensures var p := PrimaryPool(s, node, clusterPools).value;
            && (p.None? <==> RunsWindows(node) || forall q | q in clusterPools :: !Wants(s, q, node))
            && (p.Some? ==> p.value in clusterPools && Wants(s, p.value, node))
  {
    var matching := Matching(s, clusterPools, node);
    if !IsWindows(node) && matching != [] {
      assert matching[0] in matching;
      var custom := Custom(matching);
      if |custom| == 0 && LastNamed(matching, MASTER).None? {
        assert matching[0] !in custom;
        assert matching[0].name == WORKER;
      } else if |custom| == 1 {
        assert custom[0] in custom;
      }
    }
  }

  /** The order of precedence: a single custom pool beats worker, and excludes master; without a custom
      pool master beats worker. */
  lemma Precedence(s: Selectors, node: ClusterNode, clusterPools: seq<Pool>)
    requires !RunsWindows(node) && forall p | p in clusterPools :: !Invalid(s, p, node)
    ensures var matching, primary := Matching(s, clusterPools, node), PrimaryPool(s, node, clusterPools);
            var master := exists p | p in matching :: p.name == "master";
            && (primary.Failure? <==> |Custom(matching)| > 1 || (|Custom(matching)| == 1 && master))
            && (primary.Success? && primary.value.Some? ==>
                  var name := primary.value.value.name;
                  && (name != "master" && name != "worker" <==> |Custom(matching)| == 1)
                  && (name == "master" <==> |Custom(matching)| == 0 && master))
  {
    var matching := Matching(s, clusterPools, node);
    if |Custom(matching)| == 1 {
      assert Custom(matching)[0] in Custom(matching);
    }
    ghost var master := exists p | p in matching :: p.name == MASTER;
    assert master <==> LastNamed(matching, MASTER).Some?;
  }

  // ----- every node is listed once -----

  lemma {:induction false} ListedCount(s: Selectors, pool: Pool, clusterPools: seq<Pool>, nodes: seq<ClusterNode>,
                                       node: ClusterNode)
    ensures multiset(NodesForPool(s, pool, clusterPools, nodes))[node] ==
            if Listed(s, pool, clusterPools, node) then multiset(nodes)[node] else 0
  {
    if nodes != [] {
      var k := |nodes| - 1;
      assert nodes == nodes[..k] + [nodes[k]];
      ListedCount(s, pool, clusterPools, nodes[..k], node);
    }
  }

  /** The nodes of a pool are listed in the order of the cluster. */
  lemma {:induction false} NodesInOrder(s: Selectors, pool: Pool, clusterPools: seq<Pool>,
                                        a: seq<ClusterNode>, b: seq<ClusterNode>)
    ensures NodesForPool(s, pool, clusterPools, a + b) ==
            NodesForPool(s, pool, clusterPools, a) + NodesForPool(s, pool, clusterPools, b)
    decreases |b|
  {
    if b == [] {
      assert a + b == a;
    } else {
      var n := |b| - 1;
      assert (a + b)[..|a + b| - 1] == a + b[..n];
      NodesInOrder(s, pool, clusterPools, a, b[..n]);
    }
  }

  /** How often a node occurs in the lists of all `pools` together. */
  ghost function TimesListed(s: Selectors, pools: seq<Pool>, clusterPools: seq<Pool>, nodes: seq<ClusterNode>,
                             node: ClusterNode): nat {
    if pools == [] then 0 else
      var n := |pools| - 1;
      TimesListed(s, pools[..n], clusterPools, nodes, node)
      + multiset(NodesForPool(s, pools[n], clusterPools, nodes))[node]
  }

  ghost predicate SomeLists(s: Selectors, pools: seq<Pool>, clusterPools: seq<Pool>, node: ClusterNode) {
    exists p | p in pools :: Listed(s, p, clusterPools, node)
  }

  lemma {:induction false} TimesListedIs(s: Selectors, pools: seq<Pool>, clusterPools: seq<Pool>,
                                         nodes: seq<ClusterNode>, node: ClusterNode)
    requires DistinctNames(pools)
    ensures TimesListed(s, pools, clusterPools, nodes, node) ==
            if SomeLists(s, pools, clusterPools, node) then multiset(nodes)[node] else 0
  {
    if pools != [] {
      var n := |pools| - 1;
      var rest, last := pools[..n], pools[n];
      assert pools == rest + [last];
      TimesListedIs(s, rest, clusterPools, nodes, node);
      ListedCount(s, last, clusterPools, nodes, node);
      assert forall p | p in rest :: p.name != last.name;
      assert SomeLists(s, pools, clusterPools, node) <==>
             SomeLists(s, rest, clusterPools, node) || Listed(s, last, clusterPools, node);
    }
  }

  /** A node with a primary pool that does not repel it. */
  ghost predicate Placed(s: Selectors, clusterPools: seq<Pool>, node: ClusterNode) {
    var primary := PrimaryPool(s, node, clusterPools);
    primary.Success? && primary.value.Some? && !TaintedAgainst(s, primary.value.value, node)
  }

  ghost predicate NamesIdentify(pools: seq<Pool>) {
    forall p, q | p in pools && q in pools && p.name == q.name :: p == q
  }

  lemma DistinctNamesIdentify(pools: seq<Pool>)
    requires DistinctNames(pools)
    ensures NamesIdentify(pools)
  {
  }

  /** The node lists of all pools together hold each node exactly as often as the cluster does, when it
      has a primary pool that does not repel it, and not at all otherwise. */
  lemma EveryNodeOnce(s: Selectors, clusterPools: seq<Pool>, nodes: seq<ClusterNode>, node: ClusterNode)
    requires DistinctNames(clusterPools)
    ensures TimesListed(s, clusterPools, clusterPools, nodes, node) ==
            if Placed(s, clusterPools, node) then multiset(nodes)[node] else 0
  {
    TimesListedIs(s, clusterPools, clusterPools, nodes, node);
    DistinctNamesIdentify(clusterPools);
    var primary := PrimaryPool(s, node, clusterPools);
    if primary.Success? {
      ChoiceIsNeverNil(s, node, clusterPools);
      if Placed(s, clusterPools, node) {
        assert Listed(s, primary.value.value, clusterPools, node);
      }
    }
  }

  // ----- the order of the pools -----

  lemma {:induction false} MatchingCount(s: Selectors, pools: seq<Pool>, node: ClusterNode, p: Pool)
    ensures multiset(Matching(s, pools, node))[p] == if Matches(s, p, node) then multiset(pools)[p] else 0
  {
    if pools != [] {
      var n := |pools| - 1;
      assert pools == pools[..n] + [pools[n]];
      MatchingCount(s, pools[..n], node, p);
    }
  }

  lemma {:induction false} CustomCount(pools: seq<Pool>, p: Pool)
    ensures multiset(Custom(pools))[p] == if p.name != MASTER && p.name != WORKER then multiset(pools)[p] else 0
  {
    if pools != [] {
      var n := |pools| - 1;
      assert pools == pools[..n] + [pools[n]];
      CustomCount(pools[..n], p);
    }
  }

  lemma SameMembers(a: seq<Pool>, b: seq<Pool>)
    requires multiset(a) == multiset(b)
    ensures |a| == |b| && forall p :: p in a <==> p in b
  {
    assert |a| == |multiset(a)| == |multiset(b)| == |b|;
    forall p
      ensures p in a <==> p in b
    {
      assert p in a <==> p in multiset(a);
      assert p in b <==> p in multiset(b);
    }
  }

  lemma LastNamedIgnoresOrder(a: seq<Pool>, b: seq<Pool>, name: string)
    requires NamesIdentify(a) && forall p :: p in a <==> p in b
    ensures LastNamed(a, name) == LastNamed(b, name)
  {
  }

  lemma CustomIgnoresOrder(a: seq<Pool>, b: seq<Pool>)
    requires multiset(a) == multiset(b)
    ensures multiset(Custom(a)) == multiset(Custom(b))
  {
    forall p
      ensures multiset(Custom(a))[p] == multiset(Custom(b))[p]
    {
      CustomCount(a, p);
      CustomCount(b, p);
    }
  }

  lemma SameSingleton(a: seq<Pool>, b: seq<Pool>)
    requires multiset(a) == multiset(b)
    ensures |a| == |b| && (|a| == 1 ==> a[0] == b[0])
  {
    SameMembers(a, b);
    assert |a| == 1 ==> a[0] in b;
  }

  lemma ChosenIgnoresOrder(a: seq<Pool>, b: seq<Pool>)
    requires multiset(a) == multiset(b) && NamesIdentify(a)
    ensures Chosen(a) == Chosen(b)
  {
    assert && |a| == |b|
           && LastNamed(a, MASTER) == LastNamed(b, MASTER)
           && LastNamed(a, WORKER) == LastNamed(b, WORKER) by {
      SameMembers(a, b);
      LastNamedIgnoresOrder(a, b, MASTER);
      LastNamedIgnoresOrder(a, b, WORKER);
    }
    assert |Custom(a)| == |Custom(b)| && (|Custom(a)| == 1 ==> Custom(a)[0] == Custom(b)[0]) by {
      CustomIgnoresOrder(a, b);
      SameSingleton(Custom(a), Custom(b));
    }
  }

  lemma MatchingIgnoresOrder(s: Selectors, node: ClusterNode, a: seq<Pool>, b: seq<Pool>)
    requires multiset(a) == multiset(b)
    ensures multiset(Matching(s, a, node)) == multiset(Matching(s, b, node))
  {
    forall p
      ensures multiset(Matching(s, a, node))[p] == multiset(Matching(s, b, node))[p]
    {
      MatchingCount(s, a, node, p);
      MatchingCount(s, b, node, p);
    }
  }

  /** Pools of distinct names may be listed in any order: the pool of a node, or the error, is the same. */
  lemma ChoiceIgnoresOrder(s: Selectors, node: ClusterNode, a: seq<Pool>, b: seq<Pool>)
    requires multiset(a) == multiset(b) && DistinctNames(a)
    ensures PrimaryPool(s, node, a) == PrimaryPool(s, node, b)
  {
    assert Chosen(Matching(s, a, node)) == Chosen(Matching(s, b, node)) by {
      DistinctNamesIdentify(a);
      MatchingIgnoresOrder(s, node, a, b);
      ChosenIgnoresOrder(Matching(s, a, node), Matching(s, b, node));
    }
    assert (exists p | p in a :: Invalid(s, p, node)) <==> (exists p | p in b :: Invalid(s, p, node)) by {
      SameMembers(a, b);
    }
  }

  // ----- the choice spelled out -----

  lemma {:induction false} MatchingDistinct(s: Selectors, pools: seq<Pool>, node: ClusterNode)
    requires DistinctNames(pools)
    ensures DistinctNames(Matching(s, pools, node))
  {
    if pools != [] {
      var n := |pools| - 1;
      MatchingDistinct(s, pools[..n], node);
      assert forall p | p in pools[..n] :: p.name != pools[n].name;
    }
  }

  lemma {:induction false} CustomDistinct(pools: seq<Pool>)
    requires DistinctNames(pools)
    ensures DistinctNames(Custom(pools))
  {
    if pools != [] {
      var n := |pools| - 1;
      CustomDistinct(pools[..n]);
      assert forall p | p in pools[..n] :: p.name != pools[n].name;
    }
  }

  /** The wanting pools of a name, or none. */
  ghost predicate Wanting(s: Selectors, clusterPools: seq<Pool>, node: ClusterNode, name: string) {
    exists p :: p in clusterPools && Wants(s, p, node) && p.name == name
  }

  ghost predicate WantingCustom(s: Selectors, clusterPools: seq<Pool>, node: ClusterNode) {
    exists p :: p in clusterPools && WantsAsCustom(s, p, node)
  }

  ghost predicate TwoCustomPools(s: Selectors, clusterPools: seq<Pool>, node: ClusterNode) {
    exists p, q :: p in clusterPools && q in clusterPools && p != q
                   && WantsAsCustom(s, p, node) && WantsAsCustom(s, q, node)
  }

  /** Two custom pools, or one and the master pool, want the node. */
  ghost predicate RolesConflict(s: Selectors, clusterPools: seq<Pool>, node: ClusterNode) {
    || TwoCustomPools(s, clusterPools, node)
    || (WantingCustom(s, clusterPools, node) && Wanting(s, clusterPools, node, "master"))
  }

  lemma MatchingIsWanting(s: Selectors, clusterPools: seq<Pool>, node: ClusterNode)
    requires DistinctNames(clusterPools)
    ensures var matching := Matching(s, clusterPools, node);
            && DistinctNames(Custom(matching))
            && (forall p :: p in Custom(matching) <==> p in clusterPools && WantsAsCustom(s, p, node))
            && (LastNamed(matching, MASTER).Some? <==> Wanting(s, clusterPools, node, "master"))
            && (LastNamed(matching, WORKER).Some? <==> Wanting(s, clusterPools, node, "worker"))
            && (LastNamed(matching, MASTER).Some? ==> LastNamed(matching, MASTER).value.name == "master")
            && (LastNamed(matching, WORKER).Some? ==> LastNamed(matching, WORKER).value.name == "worker")
  {
    var matching := Matching(s, clusterPools, node);
    MatchingDistinct(s, clusterPools, node);
    CustomDistinct(matching);
    assert forall p :: p in matching <==> p in clusterPools && Wants(s, p, node);
  }

  /** What the lists made of the matching pools say about the cluster. */
  lemma RolesOf(s: Selectors, clusterPools: seq<Pool>, node: ClusterNode)
    requires DistinctNames(clusterPools)
    ensures var matching := Matching(s, clusterPools, node);
            var custom := Custom(matching);
            && (|custom| > 0 <==> WantingCustom(s, clusterPools, node))
            && (|custom| > 1 <==> TwoCustomPools(s, clusterPools, node))
            && (LastNamed(matching, MASTER).Some? <==> Wanting(s, clusterPools, node, "master"))
            && (LastNamed(matching, WORKER).Some? <==> Wanting(s, clusterPools, node, "worker"))
  {
    MatchingIsWanting(s, clusterPools, node);
    HowMany(Custom(Matching(s, clusterPools, node)));
  }

  ghost predicate SomeMalformed(s: Selectors, clusterPools: seq<Pool>, node: ClusterNode) {
    exists p :: p in clusterPools && Malformed(s.matches, p, node.labels)
  }

  lemma InvalidIsMalformed(s: Selectors, clusterPools: seq<Pool>, node: ClusterNode)
    ensures (exists p | p in clusterPools :: Invalid(s, p, node)) <==> SomeMalformed(s, clusterPools, node)
  {
    assert forall p :: Invalid(s, p, node) <==> Malformed(s.matches, p, node.labels);
  }

  lemma ChosenFailsIff(matching: seq<Pool>)
    ensures Chosen(matching).Failure? <==>
            |Custom(matching)| > 1 || (|Custom(matching)| == 1 && LastNamed(matching, MASTER).Some?)
  {
    assert matching == [] ==> Custom(matching) == [];
  }

  /** For pools of distinct names there is an error exactly when a selector is malformed or roles conflict. */
  lemma ChoiceFailsIff(s: Selectors, node: ClusterNode, clusterPools: seq<Pool>)
    requires DistinctNames(clusterPools)
    ensures PoolsForNode(s, node, clusterPools).Failure? <==>
            && !RunsWindows(node)
            && (SomeMalformed(s, clusterPools, node) || RolesConflict(s, clusterPools, node))
  {
    RolesOf(s, clusterPools, node);
    InvalidIsMalformed(s, clusterPools, node);
    ChosenFailsIff(Matching(s, clusterPools, node));
  }

  /** A pool has one of the three roles. */
  lemma SomeRole(pools: seq<Pool>)
    ensures pools == [] <==> Custom(pools) == [] && LastNamed(pools, MASTER).None? && LastNamed(pools, WORKER).None?
  {
    HeadIsMember(pools);
    HeadIsMember(Custom(pools));
  }

  /** The pools of a node: the custom one, if one wants it, followed by the worker pool; else the master
      pool alone, else the worker pool alone. */
  ghost predicate RightList(list: seq<Option<Pool>>, custom: bool, master: bool, worker: bool) {
    && (forall i | 0 <= i < |list| :: list[i].Some?)
    && if custom then
         && |list| == (if worker then 2 else 1)
         && list[0].value.name != "master" && list[0].value.name != "worker"
         && (worker ==> list[1].value.name == "worker")
       else if master then |list| == 1 && list[0].value.name == "master"
       else if worker then |list| == 1 && list[0].value.name == "worker"
       else list == []
  }

  lemma ChosenIsRight(matching: seq<Pool>)
    requires Chosen(matching).Success?
    ensures RightList(Chosen(matching).value, |Custom(matching)| > 0,
                      LastNamed(matching, MASTER).Some?, LastNamed(matching, WORKER).Some?)
  {
    SomeRole(matching);
    HeadIsMember(Custom(matching));
  }

  lemma ChosenAmong(matching: seq<Pool>)
    requires Chosen(matching).Success?
    ensures forall x | x in Chosen(matching).value :: x.Some? && x.value in matching
  {
    SomeRole(matching);
    HeadIsMember(Custom(matching));
  }

  lemma ListIsChosen(s: Selectors, node: ClusterNode, clusterPools: seq<Pool>)
    requires !RunsWindows(node) && PoolsForNode(s, node, clusterPools).Success?
    ensures PoolsForNode(s, node, clusterPools) == Chosen(Matching(s, clusterPools, node))
  {
  }

  lemma MatchingWants(s: Selectors, node: ClusterNode, clusterPools: seq<Pool>, p: Pool)
    requires p in Matching(s, clusterPools, node)
    ensures p in clusterPools && Wants(s, p, node)
  {
  }

  /** And otherwise these are the pools of the node, in this order, each one that wants it. */
  lemma ChoiceIsRight(s: Selectors, node: ClusterNode, clusterPools: seq<Pool>)
    requires DistinctNames(clusterPools) && !RunsWindows(node)
    requires PoolsForNode(s, node, clusterPools).Success?
    ensures RightList(PoolsForNode(s, node, clusterPools).value, WantingCustom(s, clusterPools, node),
                      Wanting(s, clusterPools, node, "master"), Wanting(s, clusterPools, node, "worker"))
    ensures forall x | x in PoolsForNode(s, node, clusterPools).value ::
              x.Some? && x.value in clusterPools && Wants(s, x.value, node)
  {
    var matching, list := Matching(s, clusterPools, node), PoolsForNode(s, node, clusterPools).value;
    ListIsChosen(s, node, clusterPools);
    assert RightList(list, WantingCustom(s, clusterPools, node), Wanting(s, clusterPools, node, "master"),
                     Wanting(s, clusterPools, node, "worker")) by {
      RolesOf(s, clusterPools, node);
      ChosenIsRight(matching);
    }
    ChosenAmong(matching);
    forall x | x in list
      ensures x.Some? && x.value in clusterPools && Wants(s, x.value, node)
    {
      MatchingWants(s, node, clusterPools, x.value);
    }
  }
}
