/** What the two allocations guarantee, and where the split allocation misses its target. */
module AllocatorFacts {
  import opened Prelude
  import opened Topology
  import opened Allocator

  // ----- the arithmetic of the caps -----

  /** The last cap is the requested count exactly for remainders 0 and n - 1; otherwise it exceeds it. */
  lemma FinalCapExact(count: nat, n: nat)
    requires 0 < n
    ensures Cap(count / n, count % n, n, n) == count <==> count % n == 0 || count % n == n - 1
    ensures Cap(count / n, count % n, n, n) == count + (if count % n == 0 then 0 else n - 1 - count % n)
  {
    var q, r := count / n, count % n;
    CapClosedForm(q, r, n, n);
    assert count == n * q + r;
  }

  ghost predicate EvenQuotas(q: nat, r: nat, n: nat, i: nat) {
    forall k | 0 <= k < i :: Quota(q, r, n, k) % 2 == 0
  }

  ghost predicate EvenCaps(q: nat, r: nat, n: nat, i: nat) {
    forall k | 0 <= k <= i :: Cap(q, r, n, k) % 2 == 0
  }

  lemma EvenStep(q: nat, r: nat, n: nat, j: nat)
    ensures EvenCaps(q, r, n, j + 1) <==> EvenCaps(q, r, n, j) && Cap(q, r, n, j + 1) % 2 == 0
    ensures EvenQuotas(q, r, n, j + 1) <==> EvenQuotas(q, r, n, j) && Quota(q, r, n, j) % 2 == 0
  {
  }

  lemma EvenSum(a: nat, b: nat, sum: nat)
    requires sum == a + b && a % 2 == 0
    ensures sum % 2 == 0 <==> b % 2 == 0
  {
  }

  lemma CapGrows(q: nat, r: nat, n: nat, j: nat)
    ensures Cap(q, r, n, j + 1) == Cap(q, r, n, j) + Quota(q, r, n, j)
  {
  }

  /** Partial sums are all even exactly when the summands are. */
  lemma {:induction false} EvenCapsAreEvenQuotas(q: nat, r: nat, n: nat, i: nat)
    ensures EvenCaps(q, r, n, i) <==> EvenQuotas(q, r, n, i)
  {
    if i > 0 {
      var j: nat := i - 1;
      EvenCapsAreEvenQuotas(q, r, n, j);
      EvenStep(q, r, n, j);
      CapGrows(q, r, n, j);
      if EvenCaps(q, r, n, j) {
        EvenSum(Cap(q, r, n, j), Quota(q, r, n, j), Cap(q, r, n, j + 1));
      }
    }
  }

  lemma EvenQuotasIff(q: nat, r: nat, n: nat)
    requires r < n
    ensures EvenQuotas(q, r, n, n) <==> q % 2 == 0 && (r == 0 || (r == 1 && n % 2 == 1))
  {
    if EvenQuotas(q, r, n, n) {
      assert Quota(q, r, n, 0) % 2 == 0 && Quota(q, r, n, n - 1) % 2 == 0;
      assert n > 1 ==> Quota(q, r, n, 1) % 2 == 0;
    }
  }

  /** With hyperthreading, the split is refused unless the quotient is even and the remainder is 0, or
      1 with an odd number of nodes. */
  lemma EvenCapsIff(q: nat, r: nat, n: nat)
    requires r < n
    ensures !SomeOddCap(q, r, n) <==> q % 2 == 0 && (r == 0 || (r == 1 && n % 2 == 1))
  {
    EvenCapsAreEvenQuotas(q, r, n, n);
    EvenQuotasIff(q, r, n);
    assert EvenCaps(q, r, n, n) <==> !SomeOddCap(q, r, n);
  }

  /** The quotas are even exactly for remainders 0 and n - 1. */
  lemma QuotasBalancedIff(q: nat, r: nat, n: nat)
    requires r < n
    ensures (forall i, j | 0 <= i < n && 0 <= j < n :: Quota(q, r, n, i) <= Quota(q, r, n, j) + 1) <==>
            r == 0 || r == n - 1
  {
    if forall i, j | 0 <= i < n && 0 <= j < n :: Quota(q, r, n, i) <= Quota(q, r, n, j) + 1 {
      assert Quota(q, r, n, 0) <= Quota(q, r, n, n - 1) + 1;
    }
  }

  // ----- the nodes' shares -----

  /** Every node has at least the CPUs it is to give. */
  ghost predicate Ample(q: nat, r: nat, nodes: seq<Node>) {
    forall i | 0 <= i < |nodes| :: |Flat(nodes[i].cores)| >= Quota(q, r, |nodes|, i)
  }

  /** `nodes` are ample for a request of `count` CPUs. */
  ghost predicate AmpleFor(count: nat, nodes: seq<Node>) {
    nodes != [] && Ample(count / |nodes|, count % |nodes|, nodes)
  }

  lemma {:induction false} AmpleReachesCaps(q: nat, r: nat, nodes: seq<Node>, i: nat)
    requires Ample(q, r, nodes) && i <= |nodes|
    ensures Reached(q, r, nodes, i) == Cap(q, r, |nodes|, i)
  {
    if i > 0 {
      AmpleReachesCaps(q, r, nodes, i - 1);
    }
  }

  lemma SuffixApart(a: seq<int>, b: seq<int>, s: seq<int>)
    requires a + b <= s && Distinct(s)
    ensures Distinct(b) && Elems(b) !! Elems(a) && Elems(b) <= Elems(s)
  {
    assert forall k | 0 <= k < |b| :: (a + b)[|a| + k] == b[k] == s[|a| + k];
    assert forall k | 0 <= k < |a| :: (a + b)[k] == a[k] == s[k];
  }

  /** A node's CPUs are apart from those of the nodes before it. */
  lemma NodeApart(nodes: seq<Node>, i: nat)
    requires i < |nodes| && Distinct(All(nodes))
    ensures Distinct(Flat(nodes[i].cores))
    ensures Elems(Flat(nodes[i].cores)) !! Elems(All(nodes[..i]))
    ensures Elems(Flat(nodes[i].cores)) <= Elems(All(nodes))
  {
    AllStep(nodes, i);
    AllPrefix(nodes, i + 1);
    SuffixApart(All(nodes[..i]), Flat(nodes[i].cores), All(nodes));
  }

  lemma {:induction false} SplitWithin(q: nat, r: nat, nodes: seq<Node>, i: nat)
    requires i <= |nodes|
    ensures SplitReserved(q, r, nodes, i) <= Elems(All(nodes[..i]))
  {
    if i > 0 {
      var j: nat := i - 1;
      SplitWithin(q, r, nodes, j);
      AllStep(nodes, j);
      ElemsConcat(All(nodes[..j]), Flat(nodes[j].cores));
      PrefixElems(Share(q, r, nodes, j), Flat(nodes[j].cores));
    }
  }

  /** A set that joins another contributes all of itself to its own CPUs, and nothing elsewhere. */
  lemma JoinOwn(mine: set<int>, before: set<int>, added: set<int>)
    requires mine !! before && added <= mine
    ensures mine * (before + added) == added
  {
  }

  lemma JoinForeign(mine: set<int>, before: set<int>, added: set<int>)
    requires mine !! added
    ensures mine * (before + added) == mine * before
  {
  }

  /** With distinct CPUs, as many are reserved as were counted. */
  lemma {:induction false} SplitSize(q: nat, r: nat, nodes: seq<Node>, i: nat)
    requires i <= |nodes| && Distinct(All(nodes))
    ensures |SplitReserved(q, r, nodes, i)| == Reached(q, r, nodes, i)
  {
    if i > 0 {
      var j: nat := i - 1;
      SplitSize(q, r, nodes, j);
      SplitSizeStep(q, r, nodes, j);
      assert i == j + 1;
    }
  }

  lemma SplitSizeStep(q: nat, r: nat, nodes: seq<Node>, j: nat)
    requires j < |nodes| && Distinct(All(nodes))
    requires |SplitReserved(q, r, nodes, j)| == Reached(q, r, nodes, j)
    ensures |SplitReserved(q, r, nodes, j + 1)| == Reached(q, r, nodes, j + 1)
  {
    var before, share := SplitReserved(q, r, nodes, j), Elems(Share(q, r, nodes, j));
    assert SplitReserved(q, r, nodes, j + 1) == before + share;
    ShareFacts(q, r, nodes, j);
    CardUnion(before, share);
  }

  /** A node's share is as large as the count it adds, and new to what was reserved before. */
  lemma ShareFacts(q: nat, r: nat, nodes: seq<Node>, i: nat)
    requires i < |nodes| && Distinct(All(nodes))
    ensures |Elems(Share(q, r, nodes, i))| == Reached(q, r, nodes, i + 1) - Reached(q, r, nodes, i)
    ensures SplitReserved(q, r, nodes, i) !! Elems(Share(q, r, nodes, i))
  {
    NodeApart(nodes, i);
    ShareIsPrefix(q, r, nodes, i);
    DistinctSize(Share(q, r, nodes, i));
    PrefixElems(Share(q, r, nodes, i), Flat(nodes[i].cores));
    SplitWithin(q, r, nodes, i);
  }

  /** Node `j` adds its share to its own CPUs and nothing to those of an earlier node. */
  lemma SplitStepOnNode(q: nat, r: nat, nodes: seq<Node>, i: nat, j: nat)
    requires i <= j < |nodes| && Distinct(All(nodes))
    ensures SplitReserved(q, r, nodes, j + 1) * Elems(Flat(nodes[i].cores)) ==
            if i == j then Elems(Share(q, r, nodes, j)) else SplitReserved(q, r, nodes, j) * Elems(Flat(nodes[i].cores))
  {
    var before, share := SplitReserved(q, r, nodes, j), Elems(Share(q, r, nodes, j));
    var mine, his := Elems(Flat(nodes[i].cores)), Elems(Flat(nodes[j].cores));
    assert SplitReserved(q, r, nodes, j + 1) == before + share;
    assert share <= his by {
      ShareIsPrefix(q, r, nodes, j);
      PrefixElems(Share(q, r, nodes, j), Flat(nodes[j].cores));
    }
    NodeApart(nodes, j);
    if i == j {
      SplitWithin(q, r, nodes, j);
      JoinOwn(mine, before, share);
    } else {
      NodeBefore(nodes, i, j);
      JoinForeign(mine, before, share);
    }
  }

  /** The CPUs reserved on node `i`, after any later node, are its share. */
  lemma {:induction false} ReservedOnNode(q: nat, r: nat, nodes: seq<Node>, i: nat, k: nat)
    requires i < k <= |nodes| && Distinct(All(nodes))
    ensures SplitReserved(q, r, nodes, k) * Elems(Flat(nodes[i].cores)) == Elems(Share(q, r, nodes, i))
  {
    var j: nat := k - 1;
    SplitStepOnNode(q, r, nodes, i, j);
    if i < j {
      ReservedOnNode(q, r, nodes, i, j);
    }
    assert k == j + 1;
  }

  lemma PrefixElems(a: seq<int>, b: seq<int>)
    requires a <= b
    ensures Elems(a) <= Elems(b)
  {
    forall x | x in a
      ensures x in b
    {
      var k :| 0 <= k < |a| && a[k] == x;
      assert b[k] == x;
    }
  }

  // ----- the split allocation -----

  /** On every node the split allocation reserves the first CPUs of the traversal, as many as the node adds
      to the running count. */
  lemma SplitReservesFirst(count: nat, htEnabled: bool, nodes: seq<Node>, i: nat, k: nat)
    requires Distinct(All(nodes)) && i < |nodes| && k < |Flat(nodes[i].cores)|
    requires Split(count, htEnabled, nodes).Allocated?
    ensures var q, r := count / |nodes|, count % |nodes|;
            Flat(nodes[i].cores)[k] in Split(count, htEnabled, nodes).reserved <==>
            k < Reached(q, r, nodes, i + 1) - Reached(q, r, nodes, i)
  {
    var q, r := count / |nodes|, count % |nodes|;
    var flat, share := Flat(nodes[i].cores), Share(q, r, nodes, i);
    ReservedOnNode(q, r, nodes, i, |nodes|);
    NodeApart(nodes, i);
    ReachedGrows(q, r, nodes, i);
    PrefixMember(flat, |share|, k);
    ShareIsPrefix(q, r, nodes, i);
    assert share == flat[..|share|];
  }

  /** How many CPUs the allocation reserves on node `i`. */
  ghost function OnNode(reserved: set<int>, nodes: seq<Node>, i: nat): nat
    requires i < |nodes|
  {
    |reserved * Elems(Flat(nodes[i].cores))|
  }

  ghost predicate Balanced(reserved: set<int>, nodes: seq<Node>) {
    forall i, j | 0 <= i < |nodes| && 0 <= j < |nodes| :: OnNode(reserved, nodes, i) <= OnNode(reserved, nodes, j) + 1
  }

  lemma OnNodeIsQuota(q: nat, r: nat, nodes: seq<Node>, i: nat)
    requires i < |nodes| && Distinct(All(nodes)) && Ample(q, r, nodes)
    ensures OnNode(SplitReserved(q, r, nodes, |nodes|), nodes, i) == Quota(q, r, |nodes|, i)
  {
    ReservedOnNode(q, r, nodes, i, |nodes|);
    AmpleReachesCaps(q, r, nodes, i);
    AmpleReachesCaps(q, r, nodes, i + 1);
    NodeApart(nodes, i);
    ShareIsPrefix(q, r, nodes, i);
    DistinctSize(Share(q, r, nodes, i));
  }

  lemma BalancedIff(q: nat, r: nat, nodes: seq<Node>)
    requires r < |nodes| && Distinct(All(nodes)) && Ample(q, r, nodes)
    ensures Balanced(SplitReserved(q, r, nodes, |nodes|), nodes) <==> r == 0 || r == |nodes| - 1
  {
    var n, reserved := |nodes|, SplitReserved(q, r, nodes, |nodes|);
    forall i | 0 <= i < n
      ensures OnNode(reserved, nodes, i) == Quota(q, r, n, i)
    {
      OnNodeIsQuota(q, r, nodes, i);
    }
    QuotasBalancedIff(q, r, n);
    if Balanced(reserved, nodes) {
      forall i, j | 0 <= i < n && 0 <= j < n
        ensures Quota(q, r, n, i) <= Quota(q, r, n, j) + 1
      {
        assert OnNode(reserved, nodes, i) <= OnNode(reserved, nodes, j) + 1;
      }
    }
  }

  // ----- nodes of any size -----

  /** The CPUs that can be counted at most when the first `k` nodes have filled their cap: the cap, and
      everything on the later ones of the first `i` nodes. */
  function Room(q: nat, r: nat, nodes: seq<Node>, i: nat, k: nat): int
    requires k <= i <= |nodes|
  {
    Cap(q, r, |nodes|, k) + |All(nodes[..i])| - |All(nodes[..k])|
  }

  /** `m` is the least of the numbers in `s`. */
  ghost predicate Least(s: seq<int>, m: int) {
    m in s && forall k | 0 <= k < |s| :: m <= s[k]
  }

  function Rooms(q: nat, r: nat, nodes: seq<Node>, i: nat): (s: seq<int>)
    requires i <= |nodes|
    ensures |s| == i + 1 && forall k | 0 <= k <= i :: s[k] == Room(q, r, nodes, i, k)
  {
    seq(i + 1, k requires 0 <= k <= i => Room(q, r, nodes, i, k))
  }

  ghost predicate LeastRoom(q: nat, r: nat, nodes: seq<Node>, i: nat, m: int)
    requires i <= |nodes|
  {
    Least(Rooms(q, r, nodes, i), m)
  }

  lemma LeastStep(a: seq<int>, b: seq<int>, m: int, more: int, cap: int)
    requires Least(a, m) && |b| == |a| + 1
    requires (forall k | 0 <= k < |a| :: b[k] == a[k] + more) && b[|a|] == cap
    ensures Least(b, Min(m + more, cap))
  {
    var k :| 0 <= k < |a| && a[k] == m;
    assert b[k] == m + more;
  }

  lemma RoomStep(q: nat, r: nat, nodes: seq<Node>, i: nat, k: nat)
    requires k <= i < |nodes|
    ensures Room(q, r, nodes, i + 1, k) == Room(q, r, nodes, i, k) + |Flat(nodes[i].cores)|
    ensures Room(q, r, nodes, i + 1, i + 1) == Cap(q, r, |nodes|, i + 1)
  {
    AllStep(nodes, i);
  }

  /** On nodes of any size the running count is the least of these rooms. */
  lemma {:induction false} ReachedIsLeastRoom(q: nat, r: nat, nodes: seq<Node>, i: nat)
    requires i <= |nodes|
    ensures LeastRoom(q, r, nodes, i, Reached(q, r, nodes, i))
  {
    if i == 0 {
      assert Room(q, r, nodes, 0, 0) == 0;
    } else {
      var j: nat := i - 1;
      ReachedIsLeastRoom(q, r, nodes, j);
      LeastRoomStep(q, r, nodes, j);
    }
  }

  lemma LeastRoomStep(q: nat, r: nat, nodes: seq<Node>, j: nat)
    requires j < |nodes| && LeastRoom(q, r, nodes, j, Reached(q, r, nodes, j))
    ensures LeastRoom(q, r, nodes, j + 1, Reached(q, r, nodes, j + 1))
  {
    var before, after, more := Rooms(q, r, nodes, j), Rooms(q, r, nodes, j + 1), |Flat(nodes[j].cores)|;
    forall k | 0 <= k <= j
      ensures after[k] == before[k] + more && after[j + 1] == Cap(q, r, |nodes|, j + 1)
    {
      RoomStep(q, r, nodes, j, k);
    }
    assert after[0] == before[0] + more;
    LeastStep(before, after, Reached(q, r, nodes, j), more, Cap(q, r, |nodes|, j + 1));
  }

  /** The caps never hold back: up to every node they allow for all CPUs so far. */
  ghost predicate CapsCover(q: nat, r: nat, nodes: seq<Node>) {
    forall k | 0 <= k <= |nodes| :: |All(nodes[..k])| <= Cap(q, r, |nodes|, k)
  }

  ghost predicate CapsCoverAll(count: nat, nodes: seq<Node>)
    requires nodes != []
  {
    CapsCover(count / |nodes|, count % |nodes|, nodes)
  }

  /** The split allocation isolates nothing exactly when the caps cover all CPUs, node after node. */
  lemma SplitIsolatesNothingIff(count: nat, htEnabled: bool, nodes: seq<Node>)
    requires nodes != [] && Distinct(All(nodes))
    requires Split(count, htEnabled, nodes).Allocated?
    ensures Split(count, htEnabled, nodes).isolated == {} <==> CapsCoverAll(count, nodes)
  {
    var q, r, n, all := count / |nodes|, count % |nodes|, |nodes|, Elems(All(nodes));
    var reserved := SplitReserved(q, r, nodes, n);
    assert nodes[..n] == nodes;
    SplitSize(q, r, nodes, n);
    SplitWithin(q, r, nodes, n);
    DistinctSize(All(nodes));
    NothingLeftIff(reserved, all);
    ReachedIsLeastRoom(q, r, nodes, n);
    assert forall k | 0 <= k <= n :: Room(q, r, nodes, n, k) == Cap(q, r, n, k) + |All(nodes)| - |All(nodes[..k])|;
    assert Room(q, r, nodes, n, 0) == |All(nodes)|;
  }

  lemma NothingLeftIff(part: set<int>, all: set<int>)
    requires part <= all
    ensures all - part == {} <==> |part| == |all|
  {
    assert all == part + (all - part);
    CardUnion(part, all - part);
  }

  /** On nodes of any size, the split allocation reserves as many CPUs as there is least room for, and
      the requested number exactly when the least room is the request. */
  lemma SplitMeetsRequestIff(count: nat, htEnabled: bool, nodes: seq<Node>)
    requires nodes != [] && Distinct(All(nodes))
    requires Split(count, htEnabled, nodes).Allocated?
    ensures var n, reserved := |nodes|, Split(count, htEnabled, nodes).reserved;
            && LeastRoom(count / n, count % n, nodes, n, |reserved|)
            && (|reserved| == count <==> LeastRoom(count / n, count % n, nodes, n, count))
  {
    var q, r, n := count / |nodes|, count % |nodes|, |nodes|;
    SplitSize(q, r, nodes, n);
    ReachedIsLeastRoom(q, r, nodes, n);
    if LeastRoom(q, r, nodes, n, count) {
      LeastRoomUnique(q, r, nodes, n, count, Reached(q, r, nodes, n));
    }
  }

  lemma LeastRoomUnique(q: nat, r: nat, nodes: seq<Node>, i: nat, m: int, m': int)
    requires i <= |nodes| && LeastRoom(q, r, nodes, i, m) && LeastRoom(q, r, nodes, i, m')
    ensures m == m'
  {
  }

  // ----- ample nodes -----

  /** The split allocation with ample nodes reserves the requested number of CPUs, and spreads them
      evenly, exactly for remainders 0 and n - 1 (so always with one or two nodes). For any other
      remainder it reserves n - 1 - remainder CPUs too many. */
  lemma AmpleSplitMeetsRequestIff(count: nat, htEnabled: bool, nodes: seq<Node>)
    requires AmpleFor(count, nodes) && Distinct(All(nodes))
    requires Split(count, htEnabled, nodes).Allocated?
    ensures var n, reserved := |nodes|, Split(count, htEnabled, nodes).reserved;
            && (|reserved| == count <==> count % n == 0 || count % n == n - 1)
            && (Balanced(reserved, nodes) <==> count % n == 0 || count % n == n - 1)
            && |reserved| == count + (if count % n == 0 then 0 else n - 1 - count % n)
  {
    var q, r := count / |nodes|, count % |nodes|;
    SplitSize(q, r, nodes, |nodes|);
    AmpleReachesCaps(q, r, nodes, |nodes|);
    FinalCapExact(count, |nodes|);
    BalancedIff(q, r, nodes);
  }

  /** The documented intent fails: five CPUs on four ample nodes become seven. */
  lemma SplitOverReserves(nodes: seq<Node>)
    requires |nodes| == 4 && AmpleFor(5, nodes) && Distinct(All(nodes))
    ensures Split(5, false, nodes).Allocated? && |Split(5, false, nodes).reserved| == 7
  {
    assert 5 % |nodes| == 1;
    AmpleSplitMeetsRequestIff(5, false, nodes);
  }

  lemma SplitLetThroughIff(count: nat, nodes: seq<Node>)
    requires nodes != []
    ensures var n := |nodes|;
            Split(count, true, nodes).Allocated? <==>
            (count / n) % 2 == 0 && (count % n == 0 || (count % n == 1 && n % 2 == 1))
  {
    EvenCapsIff(count / |nodes|, count % |nodes|, |nodes|);
  }

  /** With hyperthreading, which splits are let through on nodes of any size, and when such a split
      meets the request; on ample nodes it does exactly when the nodes divide the request, and the one
      other case that is let through exceeds it by n - 2. */
  lemma HyperthreadedSplit(count: nat, nodes: seq<Node>)
    requires nodes != [] && Distinct(All(nodes))
    ensures var n, r := |nodes|, Split(count, true, nodes);
            && (r.Allocated? <==> (count / n) % 2 == 0 && (count % n == 0 || (count % n == 1 && n % 2 == 1)))
            && (r.Allocated? ==> (|r.reserved| == count <==> LeastRoom(count / n, count % n, nodes, n, count)))
            && (r.Allocated? && AmpleFor(count, nodes) ==>
                  && |r.reserved| == count + (if count % n == 0 then 0 else n - 2)
                  && (|r.reserved| == count <==> count % n == 0))
  {
    SplitLetThroughIff(count, nodes);
    if Split(count, true, nodes).Allocated? {
      SplitMeetsRequestIff(count, true, nodes);
      if AmpleFor(count, nodes) {
        AmpleSplitMeetsRequestIff(count, true, nodes);
      }
    }
  }

  // ----- partitions -----

  /** The two sets of an allocation divide all CPUs between them. */
  ghost predicate Partition(a: Allocation, nodes: seq<Node>) {
    a.Allocated? ==> a.reserved !! a.isolated && a.reserved + a.isolated == Elems(All(nodes))
  }

  lemma AllocationsPartition(count: nat, htEnabled: bool, nodes: seq<Node>)
    ensures Partition(Sequential(count, htEnabled, nodes), nodes)
    ensures nodes != [] ==> Partition(Split(count, htEnabled, nodes), nodes)
  {
    var all := All(nodes);
    PrefixElems(all[..Min(count, |all|)], all);
    if nodes != [] {
      SplitWithin(count / |nodes|, count % |nodes|, nodes, |nodes|);
      assert nodes[..|nodes|] == nodes;
    }
  }

  // ----- the sequential allocation -----

  /** The sequential allocation reserves what was asked for, as far as there are CPUs, and leaves some
      isolated exactly when fewer than all were asked for. */
  lemma SequentialSize(count: nat, htEnabled: bool, nodes: seq<Node>)
    requires Distinct(All(nodes)) && Sequential(count, htEnabled, nodes).Allocated?
    ensures |Sequential(count, htEnabled, nodes).reserved| == Min(count, |All(nodes)|)
    ensures Sequential(count, htEnabled, nodes).isolated == {} <==> count >= |All(nodes)|
  {
    var all := All(nodes);
    var prefix := all[..Min(count, |all|)];
    DistinctSize(prefix);
    DistinctSize(all);
    PrefixElems(prefix, all);
    NothingLeftIff(Elems(prefix), Elems(all));
  }

  /** The sequential allocation is refused only for an odd number of CPUs with hyperthreading. */
  lemma SequentialAllocatedIff(count: nat, htEnabled: bool, nodes: seq<Node>)
    ensures Sequential(count, htEnabled, nodes).Allocated? <==> !htEnabled || count % 2 == 0
  {
  }

  /** And it reserves the first CPUs of the traversal. */
  lemma SequentialReservesFirst(count: nat, htEnabled: bool, nodes: seq<Node>, k: nat)
    requires Distinct(All(nodes)) && k < |All(nodes)| && Sequential(count, htEnabled, nodes).Allocated?
    ensures var a := Sequential(count, htEnabled, nodes);
            && (All(nodes)[k] in a.reserved <==> k < count)
            && (All(nodes)[k] in a.isolated <==> k >= count)
  {
    PrefixMember(All(nodes), Min(count, |All(nodes)|), k);
  }

  /** Whether an element of a list of distinct ones is in a prefix. */
  lemma PrefixMember(s: seq<int>, m: nat, k: nat)
    requires Distinct(s) && m <= |s| && k < |s|
    ensures s[k] in Elems(s[..m]) <==> k < m
    ensures s[k] in Elems(s)
  {
    if k < m {
      assert s[..m][k] == s[k];
    } else {
      assert forall i | 0 <= i < m :: s[..m][i] == s[i] != s[k];
    }
  }

  /** A larger request keeps the CPUs of a smaller one. */
  lemma SequentialGrows(small: nat, large: nat, htEnabled: bool, nodes: seq<Node>)
    requires small <= large
    requires Sequential(small, htEnabled, nodes).Allocated? && Sequential(large, htEnabled, nodes).Allocated?
    ensures Sequential(small, htEnabled, nodes).reserved <= Sequential(large, htEnabled, nodes).reserved
    ensures Sequential(large, htEnabled, nodes).isolated <= Sequential(small, htEnabled, nodes).isolated
  {
    var all := All(nodes);
    PrefixElems(all[..Min(small, |all|)], all[..Min(large, |all|)]);
  }

  // ----- siblings -----

  ghost predicate TwoThreads(cores: seq<Core>) {
    forall c | c in cores :: |c.threads| == 2
  }

  /** No core of the topology is only partly in `s`. */
  ghost predicate WholeCores(nodes: seq<Node>, s: set<int>) {
    forall i, j | 0 <= i < |nodes| && 0 <= j < |nodes[i].cores| ::
      var core := Elems(nodes[i].cores[j].threads);
      core <= s || core !! s
  }

  lemma {:induction false} FlatAt(cores: seq<Core>, j: nat)
    requires TwoThreads(cores) && j < |cores|
    ensures |Flat(cores)| == 2 * |cores|
    ensures Flat(cores)[2 * j] == cores[j].threads[0] && Flat(cores)[2 * j + 1] == cores[j].threads[1]
    decreases |cores|
  {
    var n := |cores| - 1;
    var last := cores[n];
    assert last in cores;
    if n > 0 {
      FlatAt(cores[..n], if j < n then j else 0);
      if j < n {
        assert cores[..n][j] == cores[j];
      }
    }
  }

  /** An even prefix of the CPUs of two-thread cores does not cut through a core. */
  lemma EvenPrefixIsWhole(cores: seq<Core>, m: nat, j: nat)
    requires TwoThreads(cores) && Distinct(Flat(cores))
    requires m <= |Flat(cores)| && m % 2 == 0 && j < |cores|
    ensures var core := Elems(cores[j].threads);
            if 2 * j < m then core <= Elems(Flat(cores)[..m]) else core !! Elems(Flat(cores)[..m])
  {
    FlatAt(cores, j);
    var flat, threads := Flat(cores), cores[j].threads;
    assert cores[j] in cores;
    assert Elems(threads) == {threads[0], threads[1]};
    if 2 * j < m {
      assert flat[..m][2 * j] == threads[0] && flat[..m][2 * j + 1] == threads[1];
    } else {
      forall x | x in Elems(flat[..m])
        ensures x != threads[0] && x != threads[1]
      {
        var k :| 0 <= k < m && flat[k] == x;
      }
    }
  }

  /** The complement of a set of whole cores consists of whole cores. */
  lemma ComplementIsWhole(nodes: seq<Node>, s: set<int>)
    requires WholeCores(nodes, s)
    ensures WholeCores(nodes, Elems(All(nodes)) - s)
  {
    forall i, j | 0 <= i < |nodes| && 0 <= j < |nodes[i].cores|
      ensures var core := Elems(nodes[i].cores[j].threads);
              core <= Elems(All(nodes)) - s || core !! Elems(All(nodes)) - s
    {
      CoreInAll(nodes, i, j);
    }
  }

  lemma CoreInAll(nodes: seq<Node>, i: nat, j: nat)
    requires i < |nodes| && j < |nodes[i].cores|
    ensures Elems(nodes[i].cores[j].threads) <= Elems(Flat(nodes[i].cores)) <= Elems(All(nodes))
  {
    CoreWithin(nodes[i].cores, j);
    assert nodes[..|nodes|] == nodes;
    NodeBefore(nodes, i, |nodes|);
  }

  lemma {:induction false} FlatPrefix(cores: seq<Core>, j: nat)
    requires j <= |cores|
    ensures Flat(cores[..j]) <= Flat(cores)
    decreases |cores| - j
  {
    if j == |cores| {
      assert cores[..j] == cores;
    } else {
      FlatStep(cores, j);
      FlatPrefix(cores, j + 1);
    }
  }

  lemma EvenFlat(cores: seq<Core>)
    requires TwoThreads(cores)
    ensures |Flat(cores)| % 2 == 0
  {
    if cores != [] {
      FlatAt(cores, 0);
      EvenDouble(|cores|);
    }
  }

  lemma EvenDouble(n: nat)
    ensures (2 * n) % 2 == 0
  {
  }

  lemma EvenMin(a: nat, b: nat, c: nat)
    requires a % 2 == 0 && b % 2 == 0 && c % 2 == 0
    ensures Min(a + b, c) % 2 == 0
  {
  }

  lemma {:induction false} ReachedIsEven(q: nat, r: nat, nodes: seq<Node>, i: nat)
    requires i <= |nodes| && !SomeOddCap(q, r, |nodes|)
    requires forall nd | nd in nodes :: TwoThreads(nd.cores)
    ensures Reached(q, r, nodes, i) % 2 == 0
  {
    if i > 0 {
      ReachedIsEven(q, r, nodes, i - 1);
      assert nodes[i - 1] in nodes;
      EvenFlat(nodes[i - 1].cores);
      EvenMin(Reached(q, r, nodes, i - 1), |Flat(nodes[i - 1].cores)|, Cap(q, r, |nodes|, i));
    }
  }

  lemma WholeWithin(core: set<int>, mine: set<int>, share: set<int>, s: set<int>)
    requires core <= mine && s * mine == share && (core <= share || core !! share)
    ensures core <= s || core !! s
  {
    if core <= share {
      assert share <= s;
    } else {
      assert core * s == core * (s * mine);
    }
  }

  lemma EvenDifference(a: nat, b: nat)
    requires a % 2 == 0 && b % 2 == 0 && b <= a
    ensures (a - b) % 2 == 0
  {
  }

  lemma ShareIsPrefix(q: nat, r: nat, nodes: seq<Node>, i: nat)
    requires i < |nodes|
    ensures Share(q, r, nodes, i) <= Flat(nodes[i].cores)
    ensures Reached(q, r, nodes, i) <= Reached(q, r, nodes, i + 1)
    ensures |Share(q, r, nodes, i)| == Reached(q, r, nodes, i + 1) - Reached(q, r, nodes, i)
  {
    ReachedGrows(q, r, nodes, i);
  }

  lemma ShareIsEven(q: nat, r: nat, nodes: seq<Node>, i: nat)
    requires i < |nodes| && !SomeOddCap(q, r, |nodes|)
    requires forall nd | nd in nodes :: TwoThreads(nd.cores)
    ensures |Share(q, r, nodes, i)| % 2 == 0
  {
    var a, b := Reached(q, r, nodes, i + 1), Reached(q, r, nodes, i);
    assert a % 2 == 0 by { ReachedIsEven(q, r, nodes, i + 1); }
    assert b % 2 == 0 by { ReachedIsEven(q, r, nodes, i); }
    ShareIsPrefix(q, r, nodes, i);
    EvenDifference(a, b);
  }

  lemma CoreWholeInSplit(q: nat, r: nat, nodes: seq<Node>, i: nat, j: nat)
    requires i < |nodes| && j < |nodes[i].cores| && !SomeOddCap(q, r, |nodes|)
    requires Distinct(All(nodes)) && forall nd | nd in nodes :: TwoThreads(nd.cores)
    ensures var core, s := Elems(nodes[i].cores[j].threads), SplitReserved(q, r, nodes, |nodes|);
            core <= s || core !! s
  {
    var cores, share, s := nodes[i].cores, Share(q, r, nodes, i), SplitReserved(q, r, nodes, |nodes|);
    var core, mine := Elems(cores[j].threads), Elems(Flat(cores));
    assert core <= Elems(share) || core !! Elems(share) by {
      ShareIsPrefix(q, r, nodes, i);
      ShareIsEven(q, r, nodes, i);
      NodeApart(nodes, i);
      assert nodes[i] in nodes;
      EvenPrefixWhole(cores, share, j);
    }
    assert s * mine == Elems(share) by { ReservedOnNode(q, r, nodes, i, |nodes|); }
    assert core <= mine by { CoreInAll(nodes, i, j); }
    WholeWithin(core, mine, Elems(share), s);
  }

  lemma EvenPrefixWhole(cores: seq<Core>, share: seq<int>, j: nat)
    requires TwoThreads(cores) && Distinct(Flat(cores))
    requires share <= Flat(cores) && |share| % 2 == 0 && j < |cores|
    ensures Elems(cores[j].threads) <= Elems(share) || Elems(cores[j].threads) !! Elems(share)
  {
    EvenPrefixIsWhole(cores, |share|, j);
  }

  lemma SplitIsWhole(q: nat, r: nat, nodes: seq<Node>)
    requires nodes != [] && !SomeOddCap(q, r, |nodes|)
    requires Distinct(All(nodes)) && forall nd | nd in nodes :: TwoThreads(nd.cores)
    ensures WholeCores(nodes, SplitReserved(q, r, nodes, |nodes|))
  {
    var s := SplitReserved(q, r, nodes, |nodes|);
    forall i, j | 0 <= i < |nodes| && 0 <= j < |nodes[i].cores|
      ensures var core := Elems(nodes[i].cores[j].threads); core <= s || core !! s
    {
      CoreWholeInSplit(q, r, nodes, i, j);
    }
  }

  /** The cores of all nodes, in traversal order. */
  function Cores(nodes: seq<Node>): seq<Core> {
    if nodes == [] then [] else Cores(nodes[..|nodes| - 1]) + nodes[|nodes| - 1].cores
  }

  lemma {:induction false} FlatConcat(a: seq<Core>, b: seq<Core>)
    ensures Flat(a + b) == Flat(a) + Flat(b)
    decreases |b|
  {
    if b == [] {
      assert a + b == a;
    } else {
      var n := |b| - 1;
      assert (a + b)[..|a + b| - 1] == a + b[..n];
      FlatConcat(a, b[..n]);
    }
  }

  lemma {:induction false} AllIsFlat(nodes: seq<Node>)
    ensures All(nodes) == Flat(Cores(nodes))
  {
    if nodes != [] {
      var n := |nodes| - 1;
      AllIsFlat(nodes[..n]);
      FlatConcat(Cores(nodes[..n]), nodes[n].cores);
    }
  }

  lemma {:induction false} TwoThreadsThroughout(nodes: seq<Node>)
    requires forall nd | nd in nodes :: TwoThreads(nd.cores)
    ensures TwoThreads(Cores(nodes))
  {
    if nodes != [] {
      TwoThreadsThroughout(nodes[..|nodes| - 1]);
      assert nodes[|nodes| - 1] in nodes;
    }
  }

  lemma {:induction false} CorePosition(nodes: seq<Node>, i: nat, j: nat) returns (k: nat)
    requires i < |nodes| && j < |nodes[i].cores|
    ensures k < |Cores(nodes)| && Cores(nodes)[k] == nodes[i].cores[j]
    decreases |nodes|
  {
    var n := |nodes| - 1;
    if i == n {
      k := |Cores(nodes[..n])| + j;
    } else {
      k := CorePosition(nodes[..n], i, j);
    }
  }

  lemma CoreWholeInSequential(count: nat, nodes: seq<Node>, i: nat, j: nat)
    requires count % 2 == 0 && i < |nodes| && j < |nodes[i].cores|
    requires Distinct(All(nodes)) && forall nd | nd in nodes :: TwoThreads(nd.cores)
    ensures var core, s := Elems(nodes[i].cores[j].threads), Elems(All(nodes)[..Min(count, |All(nodes)|)]);
            core <= s || core !! s
  {
    var cores := Cores(nodes);
    AllIsFlat(nodes);
    TwoThreadsThroughout(nodes);
    EvenFlat(cores);
    var k := CorePosition(nodes, i, j);
    EvenPrefixWhole(cores, Flat(cores)[..Min(count, |Flat(cores)|)], k);
  }

  lemma SequentialIsWhole(count: nat, nodes: seq<Node>)
    requires count % 2 == 0
    requires Distinct(All(nodes)) && forall nd | nd in nodes :: TwoThreads(nd.cores)
    ensures WholeCores(nodes, Elems(All(nodes)[..Min(count, |All(nodes)|)]))
  {
    var s := Elems(All(nodes)[..Min(count, |All(nodes)|)]);
    forall i, j | 0 <= i < |nodes| && 0 <= j < |nodes[i].cores|
      ensures var core := Elems(nodes[i].cores[j].threads); core <= s || core !! s
    {
      CoreWholeInSequential(count, nodes, i, j);
    }
  }

  /** With hyperthreading and two threads per core, neither allocation ever separates siblings: both
      sets of a successful allocation are unions of whole cores. */
  lemma SiblingsStayTogether(count: nat, nodes: seq<Node>)
    requires Distinct(All(nodes)) && forall nd | nd in nodes :: TwoThreads(nd.cores)
    ensures var a := Sequential(count, true, nodes);
            a.Allocated? ==> WholeCores(nodes, a.reserved) && WholeCores(nodes, a.isolated)
    ensures nodes != [] ==>
              var a := Split(count, true, nodes);
              a.Allocated? ==> WholeCores(nodes, a.reserved) && WholeCores(nodes, a.isolated)
  {
    if Sequential(count, true, nodes).Allocated? {
      SequentialIsWhole(count, nodes);
      ComplementIsWhole(nodes, Sequential(count, true, nodes).reserved);
    }
    if nodes != [] && Split(count, true, nodes).Allocated? {
      SplitIsWhole(count / |nodes|, count % |nodes|, nodes);
      ComplementIsWhole(nodes, Split(count, true, nodes).reserved);
    }
  }

  // ----- hyperthreading disabled -----

  lemma DistinctConcat(a: seq<int>, b: seq<int>)
    requires Distinct(a) && Distinct(b) && Elems(a) !! Elems(b)
    ensures Distinct(a + b)
  {
    forall i, j | 0 <= i < j < |a + b|
      ensures (a + b)[i] != (a + b)[j]
    {
      if i < |a| <= j {
        assert (a + b)[i] in Elems(a) && (a + b)[j] in Elems(b);
      }
    }
  }

  /** The threads that disabling hyperthreading keeps of a core. */
  function Kept(c: Core): seq<int> {
    if c.threads == [] then [] else [c.threads[0]]
  }

  lemma KeptStep(cores: seq<Core>)
    requires cores != []
    ensures var n := |cores| - 1;
            Flat(FirstThreads(cores)) == Flat(FirstThreads(cores[..n])) + Kept(cores[n])
  {
    var before, after := FirstThreads(cores[..|cores| - 1]), FirstThreads(cores);
    if cores[|cores| - 1].threads != [] {
      assert after[..|after| - 1] == before;
    } else {
      assert after == before;
    }
  }

  lemma LastCoreApart(cores: seq<Core>)
    requires cores != [] && Distinct(Flat(cores))
    ensures var rest, last := cores[..|cores| - 1], cores[|cores| - 1].threads;
            && Distinct(Flat(rest))
            && Elems(last) !! Elems(Flat(rest))
            && Elems(Flat(cores)) == Elems(Flat(rest)) + Elems(last)
  {
    var rest, last := cores[..|cores| - 1], cores[|cores| - 1].threads;
    SuffixApart(Flat(rest), last, Flat(cores));
    ElemsConcat(Flat(rest), last);
    assert forall i | 0 <= i < |Flat(rest)| :: Flat(cores)[i] == Flat(rest)[i];
  }

  /** The reduced cores have distinct CPUs, all from the original cores. */
  lemma {:induction false} FirstThreadsDistinct(cores: seq<Core>)
    requires Distinct(Flat(cores))
    ensures Distinct(Flat(FirstThreads(cores)))
    ensures Elems(Flat(FirstThreads(cores))) <= Elems(Flat(cores))
  {
    if cores != [] {
      var rest, last := cores[..|cores| - 1], cores[|cores| - 1];
      LastCoreApart(cores);
      FirstThreadsDistinct(rest);
      KeptStep(cores);
      ElemsConcat(Flat(FirstThreads(rest)), Kept(last));
      DistinctConcat(Flat(FirstThreads(rest)), Kept(last));
    }
  }

  lemma CoreWithin(cores: seq<Core>, j: nat)
    requires j < |cores|
    ensures Elems(cores[j].threads) <= Elems(Flat(cores))
  {
    FlatStep(cores, j);
    ElemsConcat(Flat(cores[..j]), cores[j].threads);
    FlatPrefix(cores, j + 1);
    PrefixElems(Flat(cores[..j + 1]), Flat(cores));
  }

  /** Of each core they keep the first thread, and no other. */
  lemma {:induction false} FirstThreadsOnly(cores: seq<Core>, j: nat)
    requires Distinct(Flat(cores)) && j < |cores|
    ensures Elems(cores[j].threads) * Elems(Flat(FirstThreads(cores))) == Elems(Kept(cores[j]))
    decreases |cores|
  {
    var rest, last := cores[..|cores| - 1], cores[|cores| - 1];
    var core, before, kept := Elems(cores[j].threads), Elems(Flat(FirstThreads(rest))), Elems(Kept(last));
    LastCoreApart(cores);
    FirstThreadsDistinct(rest);
    assert Elems(Flat(FirstThreads(cores))) == before + kept by {
      KeptStep(cores);
      ElemsConcat(Flat(FirstThreads(rest)), Kept(last));
    }
    assert kept <= Elems(last.threads);
    if j == |rest| {
      JoinOwn(core, before, kept);
    } else {
      FirstThreadsOnly(rest, j);
      CoreWithin(rest, j);
      JoinForeign(core, before, kept);
    }
  }

  lemma ReducedStep(nodes: seq<Node>, k: nat)
    requires k < |nodes|
    ensures All(ReducedNodes(nodes[..k + 1])) == All(ReducedNodes(nodes[..k])) + Flat(FirstThreads(nodes[k].cores))
  {
    assert ReducedNodes(nodes[..k + 1])[..k] == ReducedNodes(nodes[..k]);
  }

  /** The reduced topology has distinct CPUs, all from the original. */
  lemma {:induction false} ReducedDistinct(nodes: seq<Node>, k: nat)
    requires Distinct(All(nodes)) && k <= |nodes|
    ensures Distinct(All(ReducedNodes(nodes[..k])))
    ensures Elems(All(ReducedNodes(nodes[..k]))) <= Elems(All(nodes[..k]))
  {
    if k > 0 {
      var j: nat := k - 1;
      ReducedDistinct(nodes, j);
      ReducedDistinctStep(nodes, j);
      assert k == j + 1;
    }
  }

  lemma ReducedDistinctStep(nodes: seq<Node>, j: nat)
    requires Distinct(All(nodes)) && j < |nodes|
    requires Distinct(All(ReducedNodes(nodes[..j])))
    requires Elems(All(ReducedNodes(nodes[..j]))) <= Elems(All(nodes[..j]))
    ensures Distinct(All(ReducedNodes(nodes[..j + 1])))
    ensures Elems(All(ReducedNodes(nodes[..j + 1]))) <= Elems(All(nodes[..j + 1]))
  {
    var cores := nodes[j].cores;
    var before, kept := All(ReducedNodes(nodes[..j])), Flat(FirstThreads(cores));
    NodeApart(nodes, j);
    FirstThreadsDistinct(cores);
    DistinctConcat(before, kept);
    ReducedStep(nodes, j);
    AllStep(nodes, j);
    ElemsConcat(All(nodes[..j]), Flat(cores));
    ElemsConcat(before, kept);
  }

  /** Node `j` adds what its own reduction keeps, and nothing on an earlier node. */
  lemma ReducedStepOnNode(nodes: seq<Node>, i: nat, j: nat)
    requires Distinct(All(nodes)) && i <= j < |nodes|
    ensures Elems(Flat(nodes[i].cores)) * Elems(All(ReducedNodes(nodes[..j + 1]))) ==
            if i == j then Elems(Flat(FirstThreads(nodes[j].cores)))
            else Elems(Flat(nodes[i].cores)) * Elems(All(ReducedNodes(nodes[..j])))
  {
    var mine, last := Elems(Flat(nodes[i].cores)), nodes[j].cores;
    var before, kept := Elems(All(ReducedNodes(nodes[..j]))), Elems(Flat(FirstThreads(last)));
    assert Elems(All(ReducedNodes(nodes[..j + 1]))) == before + kept by {
      ReducedStep(nodes, j);
      ElemsConcat(All(ReducedNodes(nodes[..j])), Flat(FirstThreads(last)));
    }
    NodeApart(nodes, j);
    FirstThreadsDistinct(last);
    ReducedDistinct(nodes, j);
    if i == j {
      JoinOwn(mine, before, kept);
    } else {
      NodeBefore(nodes, i, j);
      JoinForeign(mine, before, kept);
    }
  }

  /** Of the CPUs of node `i`, the reduced topology has those that the node's own reduction keeps. */
  lemma {:induction false} ReducedOnNode(nodes: seq<Node>, i: nat, k: nat)
    requires Distinct(All(nodes)) && i < k <= |nodes|
    ensures Elems(Flat(nodes[i].cores)) * Elems(All(ReducedNodes(nodes[..k]))) ==
            Elems(Flat(FirstThreads(nodes[i].cores)))
  {
    var j: nat := k - 1;
    ReducedStepOnNode(nodes, i, j);
    if i < j {
      ReducedOnNode(nodes, i, j);
    }
    assert k == j + 1;
  }

  lemma NodeBefore(nodes: seq<Node>, i: nat, k: nat)
    requires i < k <= |nodes|
    ensures Elems(Flat(nodes[i].cores)) <= Elems(All(nodes[..k]))
  {
    AllStep(nodes, i);
    ElemsConcat(All(nodes[..i]), Flat(nodes[i].cores));
    AllPrefix(nodes[..k], i + 1);
    assert nodes[..k][..i + 1] == nodes[..i + 1];
    PrefixElems(All(nodes[..i + 1]), All(nodes[..k]));
  }

  /** A profile that disables hyperthreading hands out exactly one thread, the first, of each core. */
  lemma DisabledLeavesFirstThreads(totalThreads: nat, nodes: seq<Node>, count: int, split: bool, i: nat, j: nat)
    requires Distinct(All(nodes)) && i < |nodes| && j < |nodes[i].cores| && nodes[i].cores[j].threads != []
    requires var a := ReservedAndIsolated(totalThreads, true, nodes, count, split, true);
             a.Answered? && a.allocation.Allocated?
    ensures var a := ReservedAndIsolated(totalThreads, true, nodes, count, split, true).allocation;
            Elems(nodes[i].cores[j].threads) * (a.reserved + a.isolated) == {nodes[i].cores[j].threads[0]}
  {
    var reduced := ReducedNodes(nodes);
    AllocationsPartition(count, false, reduced);
    assert nodes[..|nodes|] == nodes;
    ReducedOnNode(nodes, i, |nodes|);
    var core, mine, kept := Elems(nodes[i].cores[j].threads), Elems(Flat(nodes[i].cores)), FirstThreads(nodes[i].cores);
    NodeApart(nodes, i);
    FirstThreadsOnly(nodes[i].cores, j);
    CoreInAll(nodes, i, j);
    MeetWithin(core, mine, Elems(All(reduced)), Elems(Flat(kept)));
    KeptOfCore(nodes[i].cores[j]);
  }

  lemma MeetWithin(core: set<int>, mine: set<int>, all: set<int>, kept: set<int>)
    requires core <= mine && mine * all == kept
    ensures core * all == core * kept
  {
    assert core * all == core * (mine * all);
  }

  lemma KeptOfCore(c: Core)
    requires c.threads != []
    ensures Elems(Kept(c)) == {c.threads[0]}
  {
  }

  /** The topology that the allocation is made from. */
  function Remaining(htEnabled: bool, disableHT: bool, nodes: seq<Node>): seq<Node> {
    if htEnabled && disableHT then ReducedNodes(nodes) else nodes
  }

  lemma RemainingDistinct(htEnabled: bool, disableHT: bool, nodes: seq<Node>)
    requires Distinct(All(nodes))
    ensures Distinct(All(Remaining(htEnabled, disableHT, nodes)))
  {
    assert nodes[..|nodes|] == nodes;
    ReducedDistinct(nodes, |nodes|);
  }

  /** What the range check is for, that some CPU stays isolated, fails exactly when the request covers
      the CPUs left: all at once for a sequential allocation, node after node for a split one. */
  lemma RangeCheckProtectsIff(htEnabled: bool, nodes: seq<Node>, count: int, split: bool, disableHT: bool)
    requires Distinct(All(nodes))
    requires var a := ReservedAndIsolated(|All(nodes)|, htEnabled, nodes, count, split, disableHT);
             a.Answered? && a.allocation.Allocated?
    ensures var a := ReservedAndIsolated(|All(nodes)|, htEnabled, nodes, count, split, disableHT).allocation;
            var left := Remaining(htEnabled, disableHT, nodes);
            && (!split ==> (a.isolated == {} <==> count >= |All(left)|))
            && (split ==> left != [] && (a.isolated == {} <==> CapsCoverAll(count, left)))
  {
    var left := Remaining(htEnabled, disableHT, nodes);
    RemainingDistinct(htEnabled, disableHT, nodes);
    var ht := htEnabled && !disableHT;
    if split {
      SplitIsolatesNothingIff(count, ht, left);
    } else {
      SequentialSize(count, ht, left);
    }
  }

  /** While hyperthreading is left alone, the check does protect a sequential allocation. */
  lemma SequentialProtected(htEnabled: bool, nodes: seq<Node>, count: int, disableHT: bool)
    requires Distinct(All(nodes)) && !(htEnabled && disableHT)
    requires var a := ReservedAndIsolated(|All(nodes)|, htEnabled, nodes, count, false, disableHT);
             a.Answered? && a.allocation.Allocated?
    ensures ReservedAndIsolated(|All(nodes)|, htEnabled, nodes, count, false, disableHT).allocation.isolated != {}
  {
    RangeCheckProtectsIff(htEnabled, nodes, count, false, disableHT);
  }

  lemma FlatAppend(cores: seq<Core>, c: Core)
    ensures Flat(cores + [c]) == Flat(cores) + c.threads
  {
    assert (cores + [c])[..|cores|] == cores;
  }

  lemma AllAppend(nodes: seq<Node>, n: Node)
    ensures All(nodes + [n]) == All(nodes) + Flat(n.cores)
  {
    assert (nodes + [n])[..|nodes|] == nodes;
  }

  lemma {:induction false} FlatHalf(cores: seq<Core>)
    requires TwoThreads(cores)
    ensures |Flat(cores)| == 2 * |Flat(FirstThreads(cores))|
  {
    if cores != [] {
      var last := cores[|cores| - 1];
      assert last in cores;
      FlatHalf(cores[..|cores| - 1]);
      KeptStep(cores);
    }
  }

  lemma {:induction false} AllHalf(nodes: seq<Node>, k: nat)
    requires k <= |nodes| && forall nd | nd in nodes :: TwoThreads(nd.cores)
    ensures |All(nodes[..k])| == 2 * |All(ReducedNodes(nodes[..k]))|
  {
    if k > 0 {
      var j: nat := k - 1;
      AllHalf(nodes, j);
      AllStep(nodes, j);
      ReducedStep(nodes, j);
      assert nodes[j] in nodes;
      FlatHalf(nodes[j].cores);
    }
  }

  /** With two threads per core and hyperthreading to be disabled, a sequential allocation isolates
      nothing exactly when half of the threads or more are requested. */
  lemma HalfIsEverything(nodes: seq<Node>, count: int)
    requires Distinct(All(nodes)) && forall nd | nd in nodes :: TwoThreads(nd.cores)
    requires 0 < count < |All(nodes)| && forall nd | nd in nodes :: nd.cores != []
    ensures var a := ReservedAndIsolated(|All(nodes)|, true, nodes, count, false, true);
            a.Answered? && a.allocation.Allocated? && (a.allocation.isolated == {} <==> 2 * count >= |All(nodes)|)
  {
    RangeCheckProtectsIff(true, nodes, count, false, true);
    assert nodes[..|nodes|] == nodes;
    AllHalf(nodes, |nodes|);
  }

  /** So two of four threads pass the check and leave nothing. */
  lemma SequentialIsolatesNothing(nodes: seq<Node>)
    requires Distinct(All(nodes)) && |All(nodes)| == 4
    requires forall nd | nd in nodes :: TwoThreads(nd.cores) && nd.cores != []
    ensures var a := ReservedAndIsolated(4, true, nodes, 2, false, true);
            a.Answered? && a.allocation.Allocated? && a.allocation.isolated == {}
  {
    HalfIsEverything(nodes, 2);
  }

  /** With hyperthreading as it is, a split request for five CPUs of nodes with three, one, one and one
      CPU passes the check and isolates nothing: the caps are 4, 5, 6 and 7. */
  lemma SplitIsolatesNothing(nodes: seq<Node>)
    requires |nodes| == 4 && Distinct(All(nodes)) && |Flat(nodes[0].cores)| == 3
    requires forall i | 1 <= i < 4 :: |Flat(nodes[i].cores)| == 1
    ensures var a := ReservedAndIsolated(|All(nodes)|, false, nodes, 5, true, false);
            a.Answered? && a.allocation.Allocated? && a.allocation.isolated == {}
  {
    assert nodes[..4] == nodes;
    forall k | 0 <= k <= 4
      ensures |All(nodes[..k])| == (if k == 0 then 0 else k + 2) <= Cap(1, 1, 4, k)
    {
      CapClosedForm(1, 1, 4, k);
      SizeOfPrefix(nodes, k);
    }
    SplitIsolatesNothingIff(5, false, nodes);
  }

  lemma {:induction false} SizeOfPrefix(nodes: seq<Node>, k: nat)
    requires k <= |nodes| == 4 && |Flat(nodes[0].cores)| == 3
    requires forall i | 1 <= i < 4 :: |Flat(nodes[i].cores)| == 1
    ensures |All(nodes[..k])| == if k == 0 then 0 else k + 2
  {
    if k > 0 {
      AllStep(nodes, k - 1);
      SizeOfPrefix(nodes, k - 1);
    }
  }

  function OneThread(t: int): Core {
    Core(t, t, 1, [t])
  }

  function Consecutive(from: int, n: nat): seq<Core> {
    if n == 0 then [] else Consecutive(from, n - 1) + [OneThread(from + n - 1)]
  }

  lemma {:induction false} ConsecutiveThreads(from: int, n: nat)
    ensures Flat(Consecutive(from, n)) == seq(n, i => from + i)
  {
    if n > 0 {
      ConsecutiveThreads(from, n - 1);
      FlatAppend(Consecutive(from, n - 1), OneThread(from + n - 1));
    }
  }

  /** There are such nodes: CPUs 0 to 2 on the first, 3, 4 and 5 on the others. */
  lemma SuchNodes() returns (nodes: seq<Node>)
    ensures |nodes| == 4 && Distinct(All(nodes)) && |Flat(nodes[0].cores)| == 3
    ensures forall i | 1 <= i < 4 :: |Flat(nodes[i].cores)| == 1
    ensures All(nodes) == seq(6, i => i)
  {
    nodes := [];
    for k := 0 to 4
      invariant |nodes| == k
      invariant All(nodes) == seq(if k == 0 then 0 else k + 2, i => i)
      invariant forall i | 0 <= i < k :: |Flat(nodes[i].cores)| == if i == 0 then 3 else 1
    {
      var from, n := (if k == 0 then 0 else k + 2), (if k == 0 then 3 else 1);
      var node := Node(k, Consecutive(from, n));
      ConsecutiveThreads(from, n);
      AllAppend(nodes, node);
      nodes := nodes + [node];
    }
  }

  // ----- the entry point -----

  /** Disabling hyperthreading keeps the order of the cores. */
  lemma {:induction false} FirstThreadsInOrder(a: seq<Core>, b: seq<Core>)
    ensures FirstThreads(a + b) == FirstThreads(a) + FirstThreads(b)
    decreases |b|
  {
    if b == [] {
      assert a + b == a;
    } else {
      var n := |b| - 1;
      assert (a + b)[..|a + b| - 1] == a + b[..n];
      FirstThreadsInOrder(a, b[..n]);
    }
  }

  /** And of a core its identity and its first thread; a core without threads goes. */
  lemma FirstThreadsOfOne(c: Core)
    ensures c.threads == [] ==> FirstThreads([c]) == []
    ensures c.threads != [] ==> FirstThreads([c]) == [Core(c.id, c.index, 1, [c.threads[0]])]
  {
    assert [c][..0] == [];
  }

  ghost predicate InRange(count: int, totalThreads: nat) {
    1 <= count <= totalThreads - 1
  }

  /** The allocation refuses the number of CPUs: only with hyperthreading in use, and then an odd number, or
      for a split all but even quotients with remainder 0, or 1 on an odd number of nodes. */
  ghost predicate RefusedAsOdd(htEnabled: bool, disableHT: bool, split: bool, count: nat, n: nat) {
    && htEnabled && !disableHT
    && if split then n > 0 && !((count / n) % 2 == 0 && (count % n == 0 || (count % n == 1 && n % 2 == 1)))
       else count % 2 == 1
  }

  ghost predicate Panics(htEnabled: bool, disableHT: bool, split: bool, nodes: seq<Node>) {
    (split && nodes == []) || (htEnabled && disableHT && exists n | n in nodes :: n.cores == [])
  }

  /** Which requests are out of range, make the entry point panic, are refused as odd, and are granted. */
  lemma EntryPointAnswers(totalThreads: nat, htEnabled: bool, nodes: seq<Node>, count: int, split: bool,
                          disableHT: bool)
    ensures var r := ReservedAndIsolated(totalThreads, htEnabled, nodes, count, split, disableHT);
            if !InRange(count, totalThreads) then r == OutOfRange
            else if Panics(htEnabled, disableHT, split, nodes) then r == Crash
            else if RefusedAsOdd(htEnabled, disableHT, split, count, |nodes|) then r == Answered(OddNumber)
            else r.Answered? && r.allocation.Allocated?
  {
    assert |ReducedNodes(nodes)| == |nodes|;
    if InRange(count, totalThreads) && split && nodes != [] && htEnabled && !disableHT {
      SplitLetThroughIff(count, nodes);
    }
  }

  /** When the entry point gives up. */
  lemma CrashIff(totalThreads: nat, htEnabled: bool, nodes: seq<Node>, count: int, split: bool, disableHT: bool)
    ensures ReservedAndIsolated(totalThreads, htEnabled, nodes, count, split, disableHT).Crash? <==>
            0 < count < totalThreads
            && ((split && nodes == []) || (htEnabled && disableHT && exists n | n in nodes :: n.cores == []))
  {
    assert nodes == [] <==> ReducedNodes(nodes) == [] by {
      assert |ReducedNodes(nodes)| == |nodes|;
    }
  }
}
