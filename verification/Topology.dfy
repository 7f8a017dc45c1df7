/** The hardware topology that the profile creator allocates from: NUMA nodes, cores, logical CPUs. */
module Topology {

  /** A processor core; `threads` are its logical processors. */
  datatype Core = Core(id: int, index: int, numThreads: int, threads: seq<int>)

  datatype Node = Node(id: int, cores: seq<Core>)

  /** The logical CPUs of some cores, in traversal order. */
  function Flat(cores: seq<Core>): seq<int> {
    if cores == [] then [] else Flat(cores[..|cores| - 1]) + cores[|cores| - 1].threads
  }

  /** All logical CPUs, in traversal order. */
  function All(nodes: seq<Node>): seq<int> {
    if nodes == [] then [] else All(nodes[..|nodes| - 1]) + Flat(nodes[|nodes| - 1].cores)
  }

  function Elems(s: seq<int>): set<int> {
    set x | x in s
  }

  ghost predicate Distinct(s: seq<int>) {
    forall i, j | 0 <= i < j < |s| :: s[i] != s[j]
  }

  function Min(a: int, b: int): int {
    if a <= b then a else b
  }

  lemma FlatStep(cores: seq<Core>, i: nat)
    requires i < |cores|
    ensures Flat(cores[..i + 1]) == Flat(cores[..i]) + cores[i].threads
  {
    assert cores[..i + 1][..i] == cores[..i];
  }

  lemma AllStep(nodes: seq<Node>, i: nat)
    requires i < |nodes|
    ensures All(nodes[..i + 1]) == All(nodes[..i]) + Flat(nodes[i].cores)
  {
    assert nodes[..i + 1][..i] == nodes[..i];
  }

  lemma ElemsConcat(a: seq<int>, b: seq<int>)
    ensures Elems(a + b) == Elems(a) + Elems(b)
  {
  }

  /** A list of distinct CPUs has as many elements as it is long. */
  lemma {:induction false} DistinctSize(s: seq<int>)
    requires Distinct(s)
    ensures |Elems(s)| == |s|
  {
    if s != [] {
      var n := |s| - 1;
      DistinctSize(s[..n]);
      assert s == s[..n] + [s[n]];
      ElemsConcat(s[..n], [s[n]]);
      assert s[n] !in Elems(s[..n]);
      assert Elems([s[n]]) == {s[n]};
    }
  }

  /** The CPUs of an earlier part of the topology are a prefix of all of them. */
  lemma {:induction false} AllPrefix(nodes: seq<Node>, i: nat)
    requires i <= |nodes|
    ensures All(nodes[..i]) <= All(nodes)
    decreases |nodes| - i
  {
    if i == |nodes| {
      assert nodes[..i] == nodes;
    } else {
      AllStep(nodes, i);
      AllPrefix(nodes, i + 1);
    }
  }
}
