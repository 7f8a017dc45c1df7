/**
  The CPU allocator of the profile creator (pkg/profilecreator/profilecreator.go,
  lines 263 to 436): the accumulator, the allocation split across NUMA nodes, the
  sequential allocation, and the entry point that chooses between them.
 */
module Allocator {
  import opened Prelude
  import opened Topology

  /** The `max` for which AddCores takes every core. */
  const ALL_CORES := -1

  /** How many of `available` further CPUs AddCores takes when `count` have been counted. */
  function Taken(max: int, count: nat, available: nat): (r: nat)
    ensures r <= available
  {
    if max == ALL_CORES then available else if count >= max then 0 else Min(max - count, available)
  }

  /** cpuAccumulator, with the set builder it wraps: after Result the builder ignores additions,
      while the counter goes on counting. */
  class CpuAccumulator {
    var elems: set<int>
    var done: bool
    var count: nat

    constructor ()
      ensures elems == {} && !done && count == 0
    {
      elems, done, count := {}, false, 0;
    }

    method AddCores(max: int, cores: seq<Core>)
      modifies this
      ensures done == old(done)
      ensures var n := Taken(max, old(count), |Flat(cores)|);
              && count == old(count) + n
              && elems == old(elems) + (if done then {} else Elems(Flat(cores)[..n]))
    {
      ghost var seen: seq<int> := [];
      for i := 0 to |cores|
        invariant seen == Flat(cores[..i])
        invariant done == old(done)
        invariant count == old(count) + Taken(max, old(count), |seen|)
        invariant elems == old(elems) + (if done then {} else Elems(seen[..Taken(max, old(count), |seen|)]))
      {
        var threads := cores[i].threads;
        ghost var before := seen;
        assert before + threads[..0] == before;
        for j := 0 to |threads|
          invariant seen == before + threads[..j]
          invariant done == old(done)
          invariant count == old(count) + Taken(max, old(count), |seen|)
          invariant elems == old(elems) + (if done then {} else Elems(seen[..Taken(max, old(count), |seen|)]))
        {
          ghost var n := Taken(max, old(count), |seen|);
          ghost var longer := seen + [threads[j]];
          assert longer == before + threads[..j + 1];
          assert longer[..n] == seen[..n];
          if count < max || max == ALL_CORES {
            assert n == |seen| && Taken(max, old(count), |longer|) == n + 1;
            assert longer[..n + 1] == seen[..n] + [threads[j]];
            ElemsConcat(seen[..n], [threads[j]]);
            if !done {
              elems := elems + {threads[j]};
            }
            count := count + 1;
          }
          seen := longer;
        }
        assert threads[..|threads|] == threads;
        FlatStep(cores, i);
      }
      assert cores[..|cores|] == cores;
    }

    method Result() returns (r: set<int>)
      modifies this
      ensures r == elems == old(elems) && done && count == old(count)
    {
      done := true;
      r := elems;
    }
  }

  // ----- all CPUs -----

  method TotalCPUSet(nodes: seq<Node>) returns (r: set<int>)
    ensures r == Elems(All(nodes))
  {
    var total := new CpuAccumulator();
    for i := 0 to |nodes|
      invariant !total.done && fresh(total)
      invariant total.elems == Elems(All(nodes[..i]))
    {
      total.AddCores(ALL_CORES, nodes[i].cores);
      AllStep(nodes, i);
      ElemsConcat(All(nodes[..i]), Flat(nodes[i].cores));
      assert Flat(nodes[i].cores)[..|Flat(nodes[i].cores)|] == Flat(nodes[i].cores);
    }
    assert nodes[..|nodes|] == nodes;
    r := total.Result();
  }

  // ----- the sequential allocation -----

  /** The answer of an allocation: the two sets, or the refusal of an odd number of CPUs. */
  datatype Allocation = Allocated(reserved: set<int>, isolated: set<int>) | OddNumber

  /** Reserve a prefix of the traversal. */
  function Sequential(count: nat, htEnabled: bool, nodes: seq<Node>): Allocation {
    if count % 2 != 0 && htEnabled then OddNumber
    else
      var reserved := Elems(All(nodes)[..Min(count, |All(nodes)|)]);
      Allocated(reserved, Elems(All(nodes)) - reserved)
  }

  /** What AddCores takes from further CPUs extends the prefix of at most `count` CPUs. */
  lemma PrefixStep(count: nat, before: seq<int>, flat: seq<int>)
    ensures var n := Min(count, |before|);
            var more := Taken(count, n, |flat|);
            && Min(count, |before + flat|) == n + more
            && Elems((before + flat)[..n + more]) == Elems(before[..n]) + Elems(flat[..more])
  {
    var n := Min(count, |before|);
    var more := Taken(count, n, |flat|);
    ElemsConcat(before[..n], flat[..more]);
    assert (before + flat)[..n + more] == before[..n] + flat[..more];
  }

  method GetCPUsSequentially(count: nat, htEnabled: bool, nodes: seq<Node>) returns (r: Allocation)
    ensures r == Sequential(count, htEnabled, nodes)
  {
    var reserved := new CpuAccumulator();
    if count % 2 != 0 && htEnabled {
      return OddNumber;
    }
    for i := 0 to |nodes|
      invariant !reserved.done && fresh(reserved)
      invariant reserved.count == Min(count, |All(nodes[..i])|)
      invariant reserved.elems == Elems(All(nodes[..i])[..reserved.count])
    {
      reserved.AddCores(count, nodes[i].cores);
      AllStep(nodes, i);
      PrefixStep(count, All(nodes[..i]), Flat(nodes[i].cores));
    }
    assert nodes[..|nodes|] == nodes;
    var total := TotalCPUSet(nodes);
    var reservedSet := reserved.Result();
    r := Allocated(reservedSet, total - reservedSet);
  }

  // ----- the allocation split across NUMA nodes -----

  /** The CPUs that node `i` of `n` is to give, when the quotient is `q` and the remainder `r`. */
  function Quota(q: nat, r: nat, n: nat, i: nat): nat {
    if r == 0 then q
    else if i == 0 then q + (if r < n then n - r else 0)
    else if i < r then q + 1
    else q
  }

  /** The cumulative cap after the first `i` nodes. */
  function Cap(q: nat, r: nat, n: nat, i: nat): nat {
    if i == 0 then 0 else Cap(q, r, n, i - 1) + Quota(q, r, n, i - 1)
  }

  /** The number of CPUs taken from the first `i` nodes: each node gives what it has, up to the cap. */
  function Reached(q: nat, r: nat, nodes: seq<Node>, i: nat): nat
    requires i <= |nodes|
  {
    if i == 0 then 0
    else Min(Reached(q, r, nodes, i - 1) + |Flat(nodes[i - 1].cores)|, Cap(q, r, |nodes|, i))
  }

  /** The count stays under the cap and grows by at most the CPUs of each node. */
  lemma {:induction false} ReachedGrows(q: nat, r: nat, nodes: seq<Node>, i: nat)
    requires i < |nodes|
    ensures Reached(q, r, nodes, i) <= Cap(q, r, |nodes|, i)
    ensures Reached(q, r, nodes, i) <= Reached(q, r, nodes, i + 1) <= Reached(q, r, nodes, i) + |Flat(nodes[i].cores)|
  {
    if i > 0 {
      ReachedGrows(q, r, nodes, i - 1);
    }
  }

  /** What node `i` contributes: a prefix of its CPUs. */
  function Share(q: nat, r: nat, nodes: seq<Node>, i: nat): seq<int>
    requires i < |nodes|
  {
    ReachedGrows(q, r, nodes, i);
    Flat(nodes[i].cores)[..Reached(q, r, nodes, i + 1) - Reached(q, r, nodes, i)]
  }

  function SplitReserved(q: nat, r: nat, nodes: seq<Node>, i: nat): set<int>
    requires i <= |nodes|
  {
    if i == 0 then {} else SplitReserved(q, r, nodes, i - 1) + Elems(Share(q, r, nodes, i - 1))
  }

  /** Some cap on the way is odd. */
  predicate SomeOddCap(q: nat, r: nat, n: nat) {
    OddCapUpTo(q, r, n, n)
  }

  /** Some cap of the first `i` nodes is odd. */
  predicate OddCapUpTo(q: nat, r: nat, n: nat, i: nat) {
    exists k | 0 < k <= i :: Cap(q, r, n, k) % 2 != 0
  }

  lemma OddCapStep(q: nat, r: nat, n: nat, i: nat)
    ensures OddCapUpTo(q, r, n, i + 1) <==> OddCapUpTo(q, r, n, i) || Cap(q, r, n, i + 1) % 2 != 0
  {
  }

  lemma OddCapStays(q: nat, r: nat, n: nat, i: nat, j: nat)
    requires OddCapUpTo(q, r, n, i) && i <= j
    ensures OddCapUpTo(q, r, n, j)
  {
  }

  function Split(count: nat, htEnabled: bool, nodes: seq<Node>): Allocation
    requires nodes != []
  {
    var q, r := count / |nodes|, count % |nodes|;
    if htEnabled && SomeOddCap(q, r, |nodes|) then OddNumber
    else
      var reserved := SplitReserved(q, r, nodes, |nodes|);
      Allocated(reserved, Elems(All(nodes)) - reserved)
  }

  /** The caps in closed form, as the code computes the ones before the remainder runs out. */
  lemma {:induction false} CapClosedForm(q: nat, r: nat, n: nat, i: nat)
    requires r < n && i <= n
    ensures Cap(q, r, n, i) ==
            if i == 0 then 0
            else if r == 0 then i * q
            else if i <= r then i * q + (n - r) + (i - 1)
            else i * q + (n - 1)
  {
    if i > 0 {
      CapClosedForm(q, r, n, i - 1);
      assert i * q == (i - 1) * q + q;
    }
  }

  /** The cap computed from the previous one and the remainder still to hand out. */
  lemma CapStep(q: nat, r: nat, n: nat, i: nat)
    requires r < n && i < n
    ensures var left := if i < r then r - i else 0;
            Cap(q, r, n, i + 1) == if left != 0 then (i + 1) * q + (n - left) else Cap(q, r, n, i) + q
  {
    if i < r {
      CapClosedForm(q, r, n, i + 1);
    }
  }

  /** Adding the cores of node `i` under its cap takes its share. */
  lemma TakenIsShare(q: nat, r: nat, nodes: seq<Node>, i: nat)
    requires i < |nodes|
    ensures var before, flat := Reached(q, r, nodes, i), Flat(nodes[i].cores);
            var n := Taken(Cap(q, r, |nodes|, i + 1), before, |flat|);
            && before + n == Reached(q, r, nodes, i + 1)
            && flat[..n] == Share(q, r, nodes, i)
            && SplitReserved(q, r, nodes, i + 1) == SplitReserved(q, r, nodes, i) + Elems(flat[..n])
  {
    ReachedGrows(q, r, nodes, i);
  }

  /** The division by the number of nodes makes an empty node list panic. */
  method GetCPUsSplitAcrossNUMA(count: nat, htEnabled: bool, nodes: seq<Node>) returns (r: Allocation)
    requires nodes != []
    ensures r == Split(count, htEnabled, nodes)
  {
    var reserved := new CpuAccumulator();
    var numaNodeNum := |nodes|;
    var max := 0;
    var reservedPerNuma := count / numaNodeNum;
    var remainder := count % numaNodeNum;
    ghost var q, left := reservedPerNuma, remainder;
    for numaID := 0 to |nodes|
      invariant !reserved.done && fresh(reserved)
      invariant remainder == if numaID < left then left - numaID else 0
      invariant max == Cap(q, left, numaNodeNum, numaID)
      invariant reserved.count == Reached(q, left, nodes, numaID)
      invariant reserved.elems == SplitReserved(q, left, nodes, numaID)
      invariant htEnabled ==> !OddCapUpTo(q, left, numaNodeNum, numaID)
    {
      CapStep(q, left, numaNodeNum, numaID);
      OddCapStep(q, left, numaNodeNum, numaID);
      if remainder != 0 {
        max := (numaID + 1) * reservedPerNuma + (numaNodeNum - remainder);
        remainder := remainder - 1;
      } else {
        max := max + reservedPerNuma;
      }
      assert max == Cap(q, left, numaNodeNum, numaID + 1);
      if max % 2 != 0 && htEnabled {
        OddCapStays(q, left, numaNodeNum, numaID + 1, numaNodeNum);
        return OddNumber;
      }
      TakenIsShare(q, left, nodes, numaID);
      reserved.AddCores(max, nodes[numaID].cores);
    }
    var total := TotalCPUSet(nodes);
    var reservedSet := reserved.Result();
    r := Allocated(reservedSet, total - reservedSet);
  }

  // ----- disabling hyperthreading -----

  /** The cores with their first thread only; a core without threads disappears. */
  function FirstThreads(cores: seq<Core>): seq<Core> {
    if cores == [] then [] else
      var c := cores[|cores| - 1];
      FirstThreads(cores[..|cores| - 1]) + (if c.threads == [] then [] else [Core(c.id, c.index, 1, [c.threads[0]])])
  }

  /** The node pointer stays nil for a node without cores. */
  function HTDisabledNode(node: Node): Option<Node> {
    if node.cores == [] then None else Some(Node(node.id, FirstThreads(node.cores)))
  }

  method TopologyHTDisabled(nodes: seq<Node>) returns (newNodes: seq<Option<Node>>)
    ensures |newNodes| == |nodes| && forall i | 0 <= i < |nodes| :: newNodes[i] == HTDisabledNode(nodes[i])
  {
    newNodes := [];
    for i := 0 to |nodes|
      invariant |newNodes| == i && forall k | 0 <= k < i :: newNodes[k] == HTDisabledNode(nodes[k])
    {
      var node := nodes[i];
      var newNode: Option<Node> := None;
      var cores: seq<Core> := [];
      for j := 0 to |node.cores|
        invariant cores == FirstThreads(node.cores[..j])
        invariant newNode == if j == 0 then None else Some(Node(node.id, cores))
      {
        var core := node.cores[j];
        assert node.cores[..j + 1][..j] == node.cores[..j];
        if core.threads != [] {
          cores := cores + [Core(core.id, core.index, 1, [core.threads[0]])];
        }
        newNode := Some(Node(node.id, cores));
      }
      assert node.cores[..|node.cores|] == node.cores;
      newNodes := newNodes + [newNode];
    }
  }

  // ----- the entry point -----

  /** The answer of GetReservedAndIsolatedCPUs; Crash is a nil dereference or a division by zero. */
  datatype Answer = Answered(allocation: Allocation) | OutOfRange | Crash

  function ReducedNodes(nodes: seq<Node>): seq<Node> {
    seq(|nodes|, i requires 0 <= i < |nodes| => Node(nodes[i].id, FirstThreads(nodes[i].cores)))
  }

  function Allocate(count: nat, split: bool, htEnabled: bool, nodes: seq<Node>): Answer {
    if !split then Answered(Sequential(count, htEnabled, nodes))
    else if nodes == [] then Crash
    else Answered(Split(count, htEnabled, nodes))
  }

  /** `totalThreads` and `htEnabled` come from the CPU information, `nodes` from the sorted topology. */
  function ReservedAndIsolated(totalThreads: nat, htEnabled: bool, nodes: seq<Node>, count: int, split: bool,
                               disableHT: bool): Answer {
    if count <= 0 || count >= totalThreads then OutOfRange
    else if htEnabled && disableHT then
      if exists n | n in nodes :: n.cores == [] then Crash else Allocate(count, split, false, ReducedNodes(nodes))
    else Allocate(count, split, htEnabled, nodes)
  }

  method GetReservedAndIsolatedCPUs(totalThreads: nat, htCapable: bool, sortedNodes: seq<Node>, count: int,
                                    split: bool, disableHT: bool)
    returns (r: Answer)
    ensures r == ReservedAndIsolated(totalThreads, htCapable, sortedNodes, count, split, disableHT)
  {
    if count <= 0 || count >= totalThreads {
      return OutOfRange;
    }
    var htEnabled, nodes := htCapable, sortedNodes;
    if htEnabled && disableHT {
      htEnabled := false;
      var reduced := TopologyHTDisabled(sortedNodes);
      // the loop that logs the CPUs of each node dereferences every node
      nodes := [];
      for i := 0 to |reduced|
        invariant |nodes| == i
        invariant forall k | 0 <= k < i ::
                  && sortedNodes[k].cores != []
                  && nodes[k] == Node(sortedNodes[k].id, FirstThreads(sortedNodes[k].cores))
      {
        if reduced[i].None? {
          assert sortedNodes[i] in sortedNodes;
          return Crash;
        }
        nodes := nodes + [reduced[i].value];
      }
      assert nodes == ReducedNodes(sortedNodes);
    }
    if split {
      if nodes == [] {
        return Crash;
      }
      var a := GetCPUsSplitAcrossNUMA(count, htEnabled, nodes);
      return Answered(a);
    }
    var a := GetCPUsSequentially(count, htEnabled, nodes);
    r := Answered(a);
  }
}
