/**
  Sorting the topology (SortedTopology) and comparing two of them
  (ensureSameTopology). Sorting removes every freedom of order the hardware
  report leaves, so the allocation does not depend on it.
 */
module TopologyOrder {
  import opened Topology
  import opened Allocator
  import AllocatorFacts

  // ----- topologies up to order -----

  /** A core without the order of its threads. */
  datatype CoreBag = CoreBag(id: int, index: int, numThreads: int, threads: multiset<int>)

  /** A node without the order of its cores and threads. */
  datatype NodeBag = NodeBag(id: int, cores: multiset<CoreBag>)

  function Map<T, B>(s: seq<T>, f: T -> B): (r: seq<B>)
    ensures |r| == |s| && forall i | 0 <= i < |s| :: r[i] == f(s[i])
  {
    seq(|s|, i requires 0 <= i < |s| => f(s[i]))
  }

  ghost function CoreBagOf(c: Core): CoreBag {
    CoreBag(c.id, c.index, c.numThreads, multiset(c.threads))
  }

  ghost function CoresBag(cores: seq<Core>): multiset<CoreBag> {
    multiset(Map(cores, CoreBagOf))
  }

  ghost function NodeBagOf(n: Node): NodeBag {
    NodeBag(n.id, CoresBag(n.cores))
  }

  /** Two topologies have the same bag when they differ only in the order of nodes, cores and threads. */
  ghost function Bag(nodes: seq<Node>): multiset<NodeBag> {
    multiset(Map(nodes, NodeBagOf))
  }

  // ----- sorted topologies -----

  /** The first thread of a core, by which cores are sorted. */
  function First(c: Core): int {
    if c.threads == [] then 0 else c.threads[0]
  }

  ghost predicate Ascending<T>(s: seq<T>, key: T -> int) {
    forall i, j | 0 <= i < j < |s| :: key(s[i]) <= key(s[j])
  }

  ghost predicate StrictlyAscending<T>(s: seq<T>, key: T -> int) {
    forall i, j | 0 <= i < j < |s| :: key(s[i]) < key(s[j])
  }

  const ITSELF := (x: int) => x
  const NODE_ID := (n: Node) => n.id

  /** The threads of each core ascend, and so do the first threads of the cores. */
  ghost predicate SortedNode(n: Node) {
    && (forall c, i, j | c in n.cores && 0 <= i < j < |c.threads| :: c.threads[i] <= c.threads[j])
    && (forall i, j | 0 <= i < j < |n.cores| && n.cores[i].threads != [] && n.cores[j].threads != [] ::
          n.cores[i].threads[0] <= n.cores[j].threads[0])
  }

  ghost predicate Sorted(nodes: seq<Node>) {
    && (forall i, j | 0 <= i < j < |nodes| :: nodes[i].id <= nodes[j].id)
    && forall n | n in nodes :: SortedNode(n)
  }

  lemma SortedNodeByKeys(n: Node)
    requires Ascending(n.cores, First) && forall c | c in n.cores :: Ascending(c.threads, ITSELF)
    ensures SortedNode(n)
  {
    forall c, i, j | c in n.cores && 0 <= i < j < |c.threads|
      ensures c.threads[i] <= c.threads[j]
    {
      assert ITSELF(c.threads[i]) <= ITSELF(c.threads[j]);
    }
    forall i, j | 0 <= i < j < |n.cores| && n.cores[i].threads != [] && n.cores[j].threads != []
      ensures n.cores[i].threads[0] <= n.cores[j].threads[0]
    {
      assert First(n.cores[i]) <= First(n.cores[j]);
    }
  }

  lemma KeysOfSortedNode(n: Node)
    requires SortedNode(n) && forall c | c in n.cores :: c.threads != []
    ensures Ascending(n.cores, First) && forall c | c in n.cores :: Ascending(c.threads, ITSELF)
  {
    forall i, j | 0 <= i < j < |n.cores|
      ensures First(n.cores[i]) <= First(n.cores[j])
    {
      assert n.cores[i] in n.cores && n.cores[j] in n.cores;
    }
  }

  lemma KeysOfSorted(nodes: seq<Node>)
    ensures Ascending(nodes, NODE_ID) <==> forall i, j | 0 <= i < j < |nodes| :: nodes[i].id <= nodes[j].id
  {
    forall n: Node
      ensures NODE_ID(n) == n.id
    {
    }
  }

  /** What SortedTopology may return for a report: sort.Slice fixes the order of equal keys no further. */
  ghost predicate Sorts(reported: seq<Node>, sorted: seq<Node>) {
    Sorted(sorted) && Bag(sorted) == Bag(reported)
  }

  // ----- sorting -----

  lemma RemoveAt<T>(s: seq<T>, k: nat)
    requires k < |s|
    ensures multiset(s[..k] + s[k + 1..]) == multiset(s) - multiset{s[k]}
  {
    assert s == s[..k] + [s[k]] + s[k + 1..];
  }

  lemma AscendingCons<T>(h: T, t: seq<T>, key: T -> int)
    requires Ascending(t, key) && forall y | y in t :: key(h) <= key(y)
    ensures Ascending([h] + t, key)
  {
    var s := [h] + t;
    forall i, j | 0 <= i < j < |s|
      ensures key(s[i]) <= key(s[j])
    {
      assert s[j] == t[j - 1];
    }
  }

  function Insert<T>(r: seq<T>, x: T, key: T -> int): seq<T> {
    if r == [] || key(x) < key(r[0]) then [x] + r else [r[0]] + Insert(r[1..], x, key)
  }

  lemma {:induction false} InsertAdds<T>(r: seq<T>, x: T, key: T -> int)
    ensures multiset(Insert(r, x, key)) == multiset(r) + multiset{x}
  {
    if r == [] {
    } else if key(x) < key(r[0]) {
      MultisetCons(x, r);
    } else {
      InsertAdds(r[1..], x, key);
      MultisetCons(r[0], Insert(r[1..], x, key));
      MultisetCons(r[0], r[1..]);
      assert r == [r[0]] + r[1..];
    }
  }

  lemma MultisetCons<T>(h: T, t: seq<T>)
    ensures multiset([h] + t) == multiset{h} + multiset(t)
  {
  }

  lemma InsertMember<T>(r: seq<T>, x: T, key: T -> int, y: T)
    requires y in Insert(r, x, key)
    ensures y == x || y in r
  {
    InsertAdds(r, x, key);
    assert y in multiset(Insert(r, x, key));
    assert y in multiset(r) + multiset{x};
  }

  lemma {:induction false} InsertSorts<T>(r: seq<T>, x: T, key: T -> int)
    requires Ascending(r, key)
    ensures Ascending(Insert(r, x, key), key)
  {
    if r == [] {
    } else if key(x) < key(r[0]) {
      assert forall y | y in r :: key(r[0]) <= key(y);
      AscendingCons(x, r, key);
    } else {
      var h, t := r[0], r[1..];
      assert Ascending(t, key);
      assert forall y | y in t :: key(h) <= key(y);
      InsertSorts(t, x, key);
      forall y | y in Insert(t, x, key)
        ensures key(h) <= key(y)
      {
        InsertMember(t, x, key, y);
      }
      AscendingCons(h, Insert(t, x, key), key);
    }
  }

  /** sort.Slice, of which only this contract is used. */
  method SortSlice<T>(s: seq<T>, key: T -> int) returns (r: seq<T>)
    ensures multiset(r) == multiset(s) && Ascending(r, key)
  {
    r := [];
    for i := 0 to |s|
      invariant multiset(r) == multiset(s[..i]) && Ascending(r, key)
    {
      InsertSorts(r, s[i], key);
      InsertAdds(r, s[i], key);
      assert s[..i + 1] == s[..i] + [s[i]];
      r := Insert(r, s[i], key);
    }
    assert s[..|s|] == s;
  }

  lemma {:induction false} MapAppend<T, B>(a: seq<T>, x: T, f: T -> B)
    ensures Map(a + [x], f) == Map(a, f) + [f(x)]
  {
  }

  lemma MapMember<T, B>(s: seq<T>, f: T -> B, x: T)
    requires x in s
    ensures f(x) in multiset(Map(s, f))
  {
    var i :| 0 <= i < |s| && s[i] == x;
    assert Map(s, f)[i] == f(x);
  }

  /** Rearranging a list rearranges its image. */
  lemma {:induction false} MapMultiset<T, B>(a: seq<T>, b: seq<T>, f: T -> B)
    requires multiset(a) == multiset(b)
    ensures multiset(Map(a, f)) == multiset(Map(b, f))
    decreases |a|
  {
    assert |a| == |multiset(a)| == |multiset(b)| == |b|;
    if a != [] {
      var n := |a| - 1;
      assert a == a[..n] + [a[n]];
      assert a[n] in multiset(b);
      var k :| 0 <= k < |b| && b[k] == a[n];
      RemoveAt(b, k);
      MapMultiset(a[..n], b[..k] + b[k + 1..], f);
      MapAppend(a[..n], a[n], f);
      WithoutOne(b, k, f);
    }
  }

  /** The sorts of SortedTopology, on the nodes it holds. */
  class TopologyInfo {
    var nodes: seq<Node>

    constructor (nodes: seq<Node>)
      ensures this.nodes == nodes
    {
      this.nodes := nodes;
    }

    /** Comparing two cores reads their first threads, so an empty core panics once there are two. */
    method Sort()
      requires forall n, c | n in nodes && c in n.cores && |n.cores| > 1 :: c.threads != []
      modifies this
      ensures Sorts(old(nodes), nodes)
    {
      nodes := SortSlice(nodes, NODE_ID);
      MapMultiset(nodes, old(nodes), NodeBagOf);
      ghost var byId := nodes;
      nodes := SortNodes(nodes);
      assert Map(nodes, NodeBagOf) == Map(byId, NodeBagOf);
      KeysOfSorted(byId);
    }
  }

  /** The loop over the nodes. */
  method SortNodes(nodes: seq<Node>) returns (r: seq<Node>)
    ensures |r| == |nodes|
    ensures forall k | 0 <= k < |r| :: r[k].id == nodes[k].id && NodeBagOf(r[k]) == NodeBagOf(nodes[k])
    ensures forall n | n in r :: SortedNode(n)
  {
    r := nodes;
    for i := 0 to |nodes|
      invariant |r| == |nodes|
      invariant forall k | 0 <= k < |nodes| :: r[k].id == nodes[k].id && NodeBagOf(r[k]) == NodeBagOf(nodes[k])
      invariant forall k | 0 <= k < i :: SortedNode(r[k])
    {
      var node := SortNode(r[i]);
      r := r[i := node];
    }
  }

  /** The sorts within one node. */
  method SortNode(node: Node) returns (r: Node)
    ensures r.id == node.id && NodeBagOf(r) == NodeBagOf(node) && SortedNode(r)
  {
    var cores := SortThreads(node.cores);
    var ordered := SortSlice(cores, First);
    MapMultiset(ordered, cores, CoreBagOf);
    forall c | c in ordered
      ensures Ascending(c.threads, ITSELF)
    {
      assert c in multiset(ordered);
    }
    r := Node(node.id, ordered);
    SortedNodeByKeys(r);
  }

  method SortThreads(cores: seq<Core>) returns (r: seq<Core>)
    ensures |r| == |cores| && CoresBag(r) == CoresBag(cores)
    ensures forall c | c in r :: Ascending(c.threads, ITSELF)
  {
    r := cores;
    for j := 0 to |cores|
      invariant |r| == |cores|
      invariant forall k | 0 <= k < |cores| :: CoreBagOf(r[k]) == CoreBagOf(cores[k])
      invariant forall k | 0 <= k < j :: Ascending(r[k].threads, ITSELF)
    {
      var threads := SortSlice(r[j].threads, ITSELF);
      r := r[j := r[j].(threads := threads)];
    }
    assert Map(r, CoreBagOf) == Map(cores, CoreBagOf);
  }

  // ----- a sorted topology is determined by its bag -----

  lemma RestOf<T>(s: seq<T>)
    requires s != []
    ensures multiset(s[1..]) == multiset(s) - multiset{s[0]}
  {
    assert s == [s[0]] + s[1..];
  }

  lemma RestOfMap<T, B>(s: seq<T>, f: T -> B)
    requires s != []
    ensures multiset(Map(s[1..], f)) == multiset(Map(s, f)) - multiset{f(s[0])}
  {
    RestOf(Map(s, f));
    assert Map(s, f)[1..] == Map(s[1..], f);
  }

  /** No element of `a` looks like a different element of `b`. */
  ghost predicate Distinguishes<T, B>(f: T -> B, a: seq<T>, b: seq<T>) {
    forall i, j | 0 <= i < |a| && 0 <= j < |b| && f(a[i]) == f(b[j]) :: a[i] == b[j]
  }

  /** Lists with equal images under a view that tells their elements apart, and with strictly ascending
      keys, are equal. */
  lemma {:induction false} UniqueSorted<T, B>(a: seq<T>, b: seq<T>, key: T -> int, f: T -> B)
    requires StrictlyAscending(a, key) && StrictlyAscending(b, key)
    requires multiset(Map(a, f)) == multiset(Map(b, f))
    requires Distinguishes(f, a, b)
    ensures a == b
    decreases |a|
  {
    SameLength(a, b, f);
    if a != [] {
      SameHead(a, b, key, f);
      TailFacts(a, b, key, f);
      UniqueSorted(a[1..], b[1..], key, f);
      HeadAndTail(a, b);
    }
  }

  lemma SameLength<T, B>(a: seq<T>, b: seq<T>, f: T -> B)
    requires multiset(Map(a, f)) == multiset(Map(b, f))
    ensures |a| == |b|
  {
    assert |a| == |multiset(Map(a, f))| == |multiset(Map(b, f))| == |b|;
  }

  lemma HeadAndTail<T>(a: seq<T>, b: seq<T>)
    requires a != [] && b != [] && a[0] == b[0] && a[1..] == b[1..]
    ensures a == b
  {
    assert a == [a[0]] + a[1..] && b == [b[0]] + b[1..];
  }

  lemma TailFacts<T, B>(a: seq<T>, b: seq<T>, key: T -> int, f: T -> B)
    requires a != [] && b != [] && f(a[0]) == f(b[0])
    requires StrictlyAscending(a, key) && StrictlyAscending(b, key) && Distinguishes(f, a, b)
    requires multiset(Map(a, f)) == multiset(Map(b, f))
    ensures StrictlyAscending(a[1..], key) && StrictlyAscending(b[1..], key) && Distinguishes(f, a[1..], b[1..])
    ensures multiset(Map(a[1..], f)) == multiset(Map(b[1..], f))
  {
    RestOfMap(a, f);
    RestOfMap(b, f);
    assert forall i | 0 <= i < |a| - 1 :: a[1..][i] == a[i + 1];
    assert forall i | 0 <= i < |b| - 1 :: b[1..][i] == b[i + 1];
  }

  lemma SameHead<T, B>(a: seq<T>, b: seq<T>, key: T -> int, f: T -> B)
    requires a != [] && b != []
    requires StrictlyAscending(a, key) && StrictlyAscending(b, key)
    requires multiset(Map(a, f)) == multiset(Map(b, f))
    requires Distinguishes(f, a, b)
    ensures a[0] == b[0]
  {
    MapMember(a, f, a[0]);
    MapMember(b, f, b[0]);
    assert f(a[0]) in Map(b, f) && f(b[0]) in Map(a, f);
    var k :| 0 <= k < |b| && Map(b, f)[k] == f(a[0]);
    var l :| 0 <= l < |a| && Map(a, f)[l] == f(b[0]);
    assert b[k] == a[0] && a[l] == b[0];
    assert key(b[0]) <= key(b[k]) && key(a[0]) <= key(a[l]);
  }

  lemma SameLeast(a: seq<int>, b: seq<int>)
    requires a != [] && b != []
    requires Ascending(a, ITSELF) && Ascending(b, ITSELF) && multiset(a) == multiset(b)
    ensures a[0] == b[0]
  {
    assert a[0] in multiset(b) && b[0] in multiset(a);
    var k :| 0 <= k < |b| && b[k] == a[0];
    var l :| 0 <= l < |a| && a[l] == b[0];
    assert k > 0 ==> ITSELF(b[0]) <= ITSELF(b[k]);
    assert l > 0 ==> ITSELF(a[0]) <= ITSELF(a[l]);
  }

  /** An ascending list of numbers is determined by its multiset. */
  lemma {:induction false} UniqueAscending(a: seq<int>, b: seq<int>)
    requires Ascending(a, ITSELF) && Ascending(b, ITSELF) && multiset(a) == multiset(b)
    ensures a == b
    decreases |a|
  {
    assert |a| == |multiset(a)| == |multiset(b)| == |b|;
    if a != [] {
      SameLeast(a, b);
      RestOf(a);
      RestOf(b);
      assert Ascending(a[1..], ITSELF) && Ascending(b[1..], ITSELF);
      UniqueAscending(a[1..], b[1..]);
      assert a == [a[0]] + a[1..] && b == [b[0]] + b[1..];
    }
  }

  // ----- sums over a list -----

  ghost function Sum<T, V>(s: seq<T>, weight: T -> multiset<V>): multiset<V> {
    if s == [] then multiset{} else Sum(s[..|s| - 1], weight) + weight(s[|s| - 1])
  }

  lemma {:induction false} SumConcat<T, V>(a: seq<T>, b: seq<T>, weight: T -> multiset<V>)
    ensures Sum(a + b, weight) == Sum(a, weight) + Sum(b, weight)
    decreases |b|
  {
    if b == [] {
      assert a + b == a;
    } else {
      var n := |b| - 1;
      assert (a + b)[..|a + b| - 1] == a + b[..n];
      SumConcat(a, b[..n], weight);
    }
  }

  lemma SumWithout<T, V>(b: seq<T>, k: nat, weight: T -> multiset<V>)
    requires k < |b|
    ensures Sum(b, weight) == Sum(b[..k] + b[k + 1..], weight) + weight(b[k])
  {
    var front, back := b[..k], b[k + 1..];
    TakenOut(b, k);
    SumConcat(front, back, weight);
    SumConcat(front, [b[k]] + back, weight);
    SumConcat([b[k]], back, weight);
    SumOfOne(b[k], weight);
    Rotate(Sum(front, weight), weight(b[k]), Sum(back, weight));
  }

  lemma TakenOut<T>(b: seq<T>, k: nat)
    requires k < |b|
    ensures b == b[..k] + ([b[k]] + b[k + 1..])
  {
  }

  lemma Rotate<V>(a: multiset<V>, x: multiset<V>, b: multiset<V>)
    ensures a + (x + b) == a + b + x
  {
  }

  lemma SumOfOne<T, V>(x: T, weight: T -> multiset<V>)
    ensures Sum([x], weight) == weight(x)
  {
    assert [x][..0] == [];
  }

  /** Elements that look alike weigh alike. */
  ghost predicate WeighsAlike<T, B, V>(f: T -> B, weight: T -> multiset<V>, a: seq<T>, b: seq<T>) {
    forall i, j | 0 <= i < |a| && 0 <= j < |b| && f(a[i]) == f(b[j]) :: weight(a[i]) == weight(b[j])
  }

  lemma WeighsAlikeWithout<T, B, V>(f: T -> B, weight: T -> multiset<V>, a: seq<T>, b: seq<T>, n: nat, k: nat)
    requires WeighsAlike(f, weight, a, b) && n <= |a| && k < |b|
    ensures WeighsAlike(f, weight, a[..n], b[..k] + b[k + 1..])
  {
    var b' := b[..k] + b[k + 1..];
    assert forall j | 0 <= j < |b'| :: b'[j] == if j < k then b[j] else b[j + 1];
  }

  /** A sum depends only on the images of the elements, when the weights do. */
  lemma {:induction false} SumOfImages<T, B, V>(a: seq<T>, b: seq<T>, f: T -> B, weight: T -> multiset<V>)
    requires multiset(Map(a, f)) == multiset(Map(b, f))
    requires WeighsAlike(f, weight, a, b)
    ensures Sum(a, weight) == Sum(b, weight)
    decreases |a|
  {
    SameLength(a, b, f);
    if a != [] {
      var n := |a| - 1;
      MapMember(a, f, a[n]);
      assert f(a[n]) in Map(b, f);
      var k :| 0 <= k < |b| && Map(b, f)[k] == f(a[n]);
      RemoveImages(a, b, k, f);
      WeighsAlikeWithout(f, weight, a, b, n, k);
      SumOfImages(a[..n], b[..k] + b[k + 1..], f, weight);
      SumWithout(b, k, weight);
    }
  }

  lemma WithoutOne<T, B>(b: seq<T>, k: nat, f: T -> B)
    requires k < |b|
    ensures multiset(Map(b[..k] + b[k + 1..], f)) == multiset(Map(b, f)) - multiset{f(b[k])}
    ensures multiset(Map(b, f)) == multiset(Map(b[..k] + b[k + 1..], f)) + multiset{f(b[k])}
  {
    var m := Map(b, f);
    RemoveAt(m, k);
    assert m[k] in m;
    assert Map(b[..k] + b[k + 1..], f) == m[..k] + m[k + 1..];
  }

  lemma RemoveImages<T, B>(a: seq<T>, b: seq<T>, k: nat, f: T -> B)
    requires a != [] && k < |b| && f(b[k]) == f(a[|a| - 1])
    requires multiset(Map(a, f)) == multiset(Map(b, f))
    ensures multiset(Map(a[..|a| - 1], f)) == multiset(Map(b[..k] + b[k + 1..], f))
  {
    var n := |a| - 1;
    WithoutOne(a, n, f);
    assert a[..n] + a[n + 1..] == a[..n];
    WithoutOne(b, k, f);
  }

  // ----- what the bag preserves -----

  const THREADS_OF := (c: Core) => multiset(c.threads)

  const CPUS_OF := (n: Node) => multiset(Flat(n.cores))

  lemma {:induction false} FlatIsSum(cores: seq<Core>)
    ensures multiset(Flat(cores)) == Sum(cores, THREADS_OF)
  {
    if cores != [] {
      FlatIsSum(cores[..|cores| - 1]);
    }
  }

  lemma {:induction false} AllIsSum(nodes: seq<Node>)
    ensures multiset(All(nodes)) == Sum(nodes, CPUS_OF)
  {
    if nodes != [] {
      AllIsSum(nodes[..|nodes| - 1]);
    }
  }

  lemma SameBagSameFlat(x: Node, y: Node)
    requires NodeBagOf(x) == NodeBagOf(y)
    ensures multiset(Flat(x.cores)) == multiset(Flat(y.cores))
  {
    FlatIsSum(x.cores);
    FlatIsSum(y.cores);
    SumOfImages(x.cores, y.cores, CoreBagOf, THREADS_OF);
  }

  /** Equal bags hold the same CPUs, as often. */
  lemma SameBagSameCpus(a: seq<Node>, b: seq<Node>)
    requires Bag(a) == Bag(b)
    ensures multiset(All(a)) == multiset(All(b))
  {
    AllIsSum(a);
    AllIsSum(b);
    forall i, j | 0 <= i < |a| && 0 <= j < |b| && NodeBagOf(a[i]) == NodeBagOf(b[j])
      ensures CPUS_OF(a[i]) == CPUS_OF(b[j])
    {
      SameBagSameFlat(a[i], b[j]);
    }
    SumOfImages(a, b, NodeBagOf, CPUS_OF);
  }

  ghost predicate Single(m: multiset<int>) {
    forall x :: m[x] <= 1
  }

  lemma {:induction false} DistinctIsMultiplicity(s: seq<int>)
    ensures Distinct(s) <==> Single(multiset(s))
  {
    if s != [] {
      var n := |s| - 1;
      assert s == s[..n] + [s[n]];
      assert multiset(s) == multiset(s[..n]) + multiset{s[n]};
      DistinctIsMultiplicity(s[..n]);
      assert s[n] in s[..n] <==> multiset(s[..n])[s[n]] > 0;
      assert Distinct(s) <==> Distinct(s[..n]) && s[n] !in s[..n];
      if Single(multiset(s)) {
        assert multiset(s)[s[n]] == multiset(s[..n])[s[n]] + 1;
        assert forall x :: multiset(s[..n])[x] <= multiset(s)[x];
      }
    }
  }

  lemma DistinctCarriesOver(a: seq<int>, b: seq<int>)
    requires multiset(a) == multiset(b) && Distinct(a)
    ensures Distinct(b)
  {
    DistinctIsMultiplicity(a);
    DistinctIsMultiplicity(b);
  }

  // ----- the reports the allocator is made for -----

  /** Distinct node ids, distinct CPU ids, no core without threads. */
  ghost predicate Proper(nodes: seq<Node>) {
    && Distinct(Map(nodes, NODE_ID))
    && Distinct(All(nodes))
    && forall n, c | n in nodes && c in n.cores :: c.threads != []
  }

  lemma SameBagSameIds(a: seq<Node>, b: seq<Node>)
    requires Bag(a) == Bag(b)
    ensures multiset(Map(a, NODE_ID)) == multiset(Map(b, NODE_ID))
  {
    var idOf := (n: Node) => multiset{n.id};
    SumOfImages(a, b, NodeBagOf, idOf);
    IdsAreSum(a);
    IdsAreSum(b);
  }

  lemma {:induction false} IdsAreSum(nodes: seq<Node>)
    ensures multiset(Map(nodes, NODE_ID)) == Sum(nodes, (n: Node) => multiset{n.id})
  {
    var idOf := (n: Node) => multiset{n.id};
    if nodes != [] {
      var n := |nodes| - 1;
      assert nodes == nodes[..n] + [nodes[n]];
      IdsAreSum(nodes[..n]);
      MapAppend(nodes[..n], nodes[n], NODE_ID);
    }
  }

  lemma SameBagNonEmpty(a: seq<Node>, b: seq<Node>, n: Node, c: Core)
    requires Bag(a) == Bag(b) && Proper(a)
    requires n in b && c in n.cores
    ensures c.threads != []
  {
    MapMember(b, NodeBagOf, n);
    assert NodeBagOf(n) in Map(a, NodeBagOf);
    var k :| 0 <= k < |a| && Map(a, NodeBagOf)[k] == NodeBagOf(n);
    MapMember(n.cores, CoreBagOf, c);
    assert CoreBagOf(c) in CoresBag(a[k].cores);
    assert CoreBagOf(c) in Map(a[k].cores, CoreBagOf);
    var l :| 0 <= l < |a[k].cores| && Map(a[k].cores, CoreBagOf)[l] == CoreBagOf(c);
    assert a[k] in a && a[k].cores[l] in a[k].cores;
    assert |a[k].cores[l].threads| == |multiset(a[k].cores[l].threads)| == |multiset(c.threads)| == |c.threads|;
  }

  lemma ProperCarriesOver(a: seq<Node>, b: seq<Node>)
    requires Bag(a) == Bag(b) && Proper(a)
    ensures Proper(b)
  {
    SameBagSameCpus(a, b);
    DistinctCarriesOver(All(a), All(b));
    SameBagSameIds(a, b);
    DistinctCarriesOver(Map(a, NODE_ID), Map(b, NODE_ID));
    forall n, c | n in b && c in n.cores
      ensures c.threads != []
    {
      SameBagNonEmpty(a, b, n, c);
    }
  }

  // ----- strict order -----

  lemma CoresStrict(cores: seq<Core>)
    requires Ascending(cores, First) && Distinct(Flat(cores)) && forall c | c in cores :: c.threads != []
    ensures StrictlyAscending(cores, First)
  {
    forall i, j | 0 <= i < j < |cores|
      ensures First(cores[i]) < First(cores[j])
    {
      CoresApart(cores, i, j);
      assert cores[i] in cores && cores[j] in cores;
      assert cores[i].threads[0] in Elems(cores[i].threads) && cores[j].threads[0] in Elems(cores[j].threads);
    }
  }

  lemma CoresApart(cores: seq<Core>, i: nat, j: nat)
    requires i < j < |cores| && Distinct(Flat(cores))
    ensures Elems(cores[i].threads) !! Elems(cores[j].threads)
  {
    AllocatorFacts.CoreWithin(cores[..j], i);
    assert cores[..j][i] == cores[i];
    FlatStep(cores, j);
    AllocatorFacts.FlatPrefix(cores, j + 1);
    AllocatorFacts.SuffixApart(Flat(cores[..j]), cores[j].threads, Flat(cores));
  }

  lemma NodesStrict(nodes: seq<Node>)
    requires Ascending(nodes, NODE_ID) && Distinct(Map(nodes, NODE_ID))
    ensures StrictlyAscending(nodes, NODE_ID)
  {
    forall i, j | 0 <= i < j < |nodes|
      ensures NODE_ID(nodes[i]) < NODE_ID(nodes[j])
    {
      assert Map(nodes, NODE_ID)[i] != Map(nodes, NODE_ID)[j];
    }
  }

  // ----- the main results -----

  lemma SortedNodeUnique(x: Node, y: Node)
    requires SortedNode(x) && SortedNode(y) && NodeBagOf(x) == NodeBagOf(y)
    requires Distinct(Flat(x.cores)) && Distinct(Flat(y.cores))
    requires forall c | c in x.cores :: c.threads != []
    requires forall c | c in y.cores :: c.threads != []
    ensures x == y
  {
    KeysOfSortedNode(x);
    KeysOfSortedNode(y);
    CoresStrict(x.cores);
    CoresStrict(y.cores);
    forall i, j | 0 <= i < |x.cores| && 0 <= j < |y.cores| && CoreBagOf(x.cores[i]) == CoreBagOf(y.cores[j])
      ensures x.cores[i] == y.cores[j]
    {
      assert x.cores[i] in x.cores && y.cores[j] in y.cores;
      UniqueAscending(x.cores[i].threads, y.cores[j].threads);
    }
    UniqueSorted(x.cores, y.cores, First, CoreBagOf);
  }

  lemma NodeDistinct(nodes: seq<Node>, n: Node)
    requires n in nodes && Distinct(All(nodes))
    ensures Distinct(Flat(n.cores))
  {
    var i :| 0 <= i < |nodes| && nodes[i] == n;
    AllocatorFacts.NodeApart(nodes, i);
  }

  /** A proper sorted topology is determined by its bag. */
  lemma SortedUnique(a: seq<Node>, b: seq<Node>)
    requires Sorted(a) && Sorted(b) && Bag(a) == Bag(b) && Proper(a)
    ensures a == b
  {
    ProperCarriesOver(a, b);
    KeysOfSorted(a);
    KeysOfSorted(b);
    NodesStrict(a);
    NodesStrict(b);
    forall i, j | 0 <= i < |a| && 0 <= j < |b| && NodeBagOf(a[i]) == NodeBagOf(b[j])
      ensures a[i] == b[j]
    {
      assert a[i] in a && b[j] in b;
      NodeDistinct(a, a[i]);
      NodeDistinct(b, b[j]);
      SortedNodeUnique(a[i], b[j]);
    }
    UniqueSorted(a, b, NODE_ID, NodeBagOf);
  }

  /** Two reports that differ in the order of nodes, cores and threads only lead to the same
      allocation, whatever the sort does with equal keys. */
  lemma AllocationIsCanonical(report: seq<Node>, other: seq<Node>, sorted: seq<Node>, otherSorted: seq<Node>,
                              totalThreads: nat, htEnabled: bool, count: int, split: bool, disableHT: bool)
    requires Proper(report) && Bag(report) == Bag(other)
    requires Sorts(report, sorted) && Sorts(other, otherSorted)
    ensures sorted == otherSorted
    ensures ReservedAndIsolated(totalThreads, htEnabled, sorted, count, split, disableHT) ==
            ReservedAndIsolated(totalThreads, htEnabled, otherSorted, count, split, disableHT)
  {
    ProperCarriesOver(report, sorted);
    SortedUnique(sorted, otherSorted);
  }

  // ----- comparing hardware -----

  datatype Info = Info(architecture: int, nodes: seq<Node>)

  /** ensureSameTopology; the text of the first difference is not kept. */
  method EnsureSameTopology(a: Info, b: Info) returns (same: bool)
    ensures same <==> a == b
  {
    if a.architecture != b.architecture {
      return false;
    }
    if |a.nodes| != |b.nodes| {
      return false;
    }
    for i := 0 to |a.nodes|
      invariant a.nodes[..i] == b.nodes[..i]
    {
      if a.nodes[i].id != b.nodes[i].id {
        return false;
      }
      var cores1, cores2 := a.nodes[i].cores, b.nodes[i].cores;
      if |cores1| != |cores2| {
        return false;
      }
      for j := 0 to |cores1|
        invariant cores1[..j] == cores2[..j]
      {
        if cores1[j] != cores2[j] {
          return false;
        }
      }
      assert cores1[..|cores1|] == cores1 && cores2[..|cores2|] == cores2;
      assert a.nodes[i] == b.nodes[i];
    }
    assert a.nodes[..|a.nodes|] == a.nodes && b.nodes[..|b.nodes|] == b.nodes;
    same := true;
  }

  /** On proper reports the comparison of the sorted topologies succeeds exactly when the hardware is
      the same up to order. */
  lemma SameHardwareIff(report: Info, other: Info, sorted: Info, otherSorted: Info)
    requires Proper(report.nodes)
    requires sorted.architecture == report.architecture && Sorts(report.nodes, sorted.nodes)
    requires otherSorted.architecture == other.architecture && Sorts(other.nodes, otherSorted.nodes)
    ensures sorted == otherSorted <==>
            report.architecture == other.architecture && Bag(report.nodes) == Bag(other.nodes)
  {
    if Bag(report.nodes) == Bag(other.nodes) {
      ProperCarriesOver(report.nodes, sorted.nodes);
      SortedUnique(sorted.nodes, otherSorted.nodes);
    }
  }
}
