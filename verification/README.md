# Performance addon operator: a verified model

A Dafny model of the parts of the performance addon operator whose correctness
is not visible from any single function: the reconcile loop that owns a
profile's components, the CPU allocator of the profile creator, the CPU mask
printer and parser, the huge pages generators, the choice of machine config
pools, and the API conversions. `dafny verify dfyconfig.toml` checks everything.

## How it is organised

| files | about |
|---|---|
| `Cluster`, `Resources`, `PoolLookup`, `Controller`, `Conditions` | the reconcile loop, as functions from world to world and, beside them, methods on a `Client` object that carry out the same calls one after the other |
| `ResourceFacts`, `Safety`, `Quiescence`, `StatusTruth`, `PartialApply`, `Outcomes` | what the loop guarantees: per procedure, over whole runs, when nobody interferes, about the status it stores, when calls fail half-way, and about its answers |
| `Topology`, `Allocator` | the hardware topology and the two allocations, with the accumulator object |
| `AllocatorFacts`, `TopologyOrder` | sizes, balance, siblings, partitions; independence of the order of the hardware report |
| `Bits`, `CpuMask`, `CpuMaskFacts` | bit strings, the mask printer and reader, and when one undoes the other |
| `HugePages`, `HugePagesFacts` | validation, kernel arguments and systemd units of huge pages |
| `NodePools` | pool selectors and the assignment of nodes to pools |
| `Conversion`, `ConversionFacts` | conversions between v1alpha1, v1 and v2 |

**The reconcile loop.** A store holds the profile, the components by key, the
pools, and what the Tuned profiles report. Each call of a reconcile is served,
lost before the server acts, or performed and then reported as failed; which of
these happens to which call is arbitrary. Deleting an object that another
controller has pinned with a finalizer only marks it. A run alternates
reconciles with steps of users and other controllers in any order. The
functions (`Reconcile`, `Apply`, ...) determine both the resulting store and the
sequence of calls, including the number of write requests; the methods
(`DoReconcile`, `DoApply`, ...) follow the source statement by statement and are
proved to equal them. The theorems are then about the functions.

**The allocator.** `CpuAccumulator` is the source's accumulator with its two
fields. The split allocation is proved equal to a recursive description by
quotas, caps and shares, whose closed form and consequences are separate lemmas.

**Masks.** Numbers are unbounded, as `big.Int` is; a set of CPUs is tied to its
mask by its bits (`IsMask`), not by the loop that builds it.

**How the theorems are stated.** Theorems do not use the predicates that the code
decides with. What matches, what is up to date, what a page size or a condition
list means is spelled out a second time, in the terms of the result, so that a
theorem says something about those predicates too.

## Where the code does less than expected

Each of these is proved for all inputs, with the exact condition under which the
code does what one would expect:

- The split allocation reserves as many CPUs as the least of certain rooms, which
  is the requested number exactly under the stated condition on the topology
  (`SplitMeetsRequestIff`). When every node has the CPUs it is to give, that
  comes down to the remainders 0 and n - 1, which are also those that balance
  the nodes (`AmpleSplitMeetsRequestIff`); five CPUs on four such nodes become
  seven (`SplitOverReserves`). With hyperthreading the odd-number check lets
  through only even quotients with remainder 0, or with remainder 1 on an odd
  number of nodes (`HyperthreadedSplit`).
- The range check does not keep a CPU isolated. A sequential allocation isolates
  nothing exactly when the request covers the threads left after hyperthreading
  was disabled, and a split one exactly when its caps cover all CPUs node after
  node, which happens with hyperthreading left alone (`RangeCheckProtectsIff`;
  inputs in `SequentialIsolatesNothing` and `SplitIsolatesNothing`).
- The mask printer cuts the padded mask into words from the left. A set comes
  back from the reader exactly when its highest CPU is below 256 or among the
  last four of its word; otherwise every CPU comes back shifted (`RoundTripIff`,
  `SingleCpuComesBackAs`).
- The pool lookup applies indices of the filtered list to the unfiltered one.
  Where each pool has a selector of its own, the lookup is sound for every
  meaning of the selectors exactly when the examined prefix repeats no name
  (`LookupSoundIff`; an input in `LookupFailsOnEarlyRepeat`).
- A profile under deletion that lacks our finalizer is left alone exactly when a
  component is stuck or the server refuses new finalizers
  (`DeletionWithoutFinalizer`). Where it refuses, every later reconcile is an
  error (`RefusedForever`); elsewhere the finalizer comes and goes for as long as
  another one keeps the profile (`DeletionWithoutFinalizerOscillates`).
- `updateStatus` compares only the four conditions it is about to write. This is
  right for every request exactly when the stored list has the four types in
  order or lacks one (`ShortcutRightIff`), which every run guarantees
  (`RunsAreSafe`).
- Merging generated labels or annotations into an object that has none panics.
  It is decided exactly on which stores a whole reconcile does so
  (`ReconcilePanicsIff`).
- A reconcile whose list of pools fails, or whose status write fails after
  components were changed, says that it is done. Every other failed call makes it
  an error (`LiveAnswers`, `FailuresSurface`).
- A conversion leaves alone what its source does not set, so a round trip through
  objects that are not fresh keeps their old values (`RoundTripV2Iff`).

## Model

The last five rows only read off the cases of one definition, for reference.

| member | source | states |
|---|---|---|
| Safety.RunsAreSafe | controllers/performanceprofile_controller.go:250-284 | in every state of every run, with any calls failing, a stored component has a profile that carries the finalizer, and the stored conditions are empty or coherent |
| Safety.ReconcileIsSafe | controllers/performanceprofile_controller.go:234-367 | one reconcile, whatever fails, creates no orphan, drops the finalizer only where no component is left, and under deletion neither creates nor updates anything |
| Safety.StepOfRun | controllers/performanceprofile_controller.go:250-272 | no step of a run brings a component back under deletion; a step that takes the finalizer away starts under deletion and ends without components |
| Safety.ReleaseNeedsCleanup | controllers/performanceprofile_controller.go:263-271 | between a state with the finalizer and a later one without it lies a deletion step that ended with all four components absent |
| Safety.DeletionOnlyShrinks | controllers/performanceprofile_controller.go:250-272 | as long as the deletion timestamp is set, a component that is there was there all along |
| Safety.FirstReconcile | controllers/performanceprofile_controller.go:274-284 | the first reconcile adds the finalizer behind those of others and nothing else, or also the conditions of a starting deployment on a server that takes them over |
| Safety.DeletedInOrder | controllers/performanceprofile_controller.go:462-483 | whatever calls fail, the first so many of Tuned, kubelet config, runtime class and machine config are deleted and the rest untouched |
| Safety.DeletionProgress | controllers/performanceprofile_controller.go:250-272 | without call failures, for a deleting profile with our finalizer: the whole store after the reconcile, when it asks to be called again (a pinned component remains), and when the profile goes |
| Safety.DeletionWithoutFinalizer | controllers/performanceprofile_controller.go:250-284 | the same for a deleting profile without our finalizer, which is left alone exactly when a component is stuck or the server refuses new finalizers; the outcome in all three cases |
| Safety.RefusedForever | controllers/performanceprofile_controller.go:274-284 | on a refusing server the next reconcile, and so every later one, changes nothing and ends in an error, or waits for a stuck component |
| Safety.DeletionWithoutFinalizerOscillates | controllers/performanceprofile_controller.go:264-284 | on any other server two reconciles without a stuck component add our finalizer and take it off again while another finalizer keeps the profile |
| Safety.ReconcileDeletingEffect | controllers/performanceprofile_controller.go:250-284 | on the deletion path objects are removed or marked only, and the profile changes only once no component is left |
| Safety.ReconcileLiveEffect | controllers/performanceprofile_controller.go:286-366 | on the live path the profile keeps everything but its status |
| Safety.WriteSkippedIff | controllers/status.go:34-84 | on reachable conditions updateStatus makes no call exactly when the stored conditions equal the requested ones up to timestamps and both component names are set |
| Safety.StatusNamesComponents | controllers/status.go:34-84 | an update that succeeds leaves the requested conditions and names the Tuned and the runtime class that the operator applies, unless they were named before |
| Conditions.ShortcutIsExact | controllers/status.go:41-60 | the comparison loop sees no change exactly when the lists are equal up to timestamps, given the shape every run keeps |
| Conditions.ShortcutRightIff | controllers/status.go:44-60 | the comparison is right for every requested list exactly when the stored list has the four types in order or lacks a type |
| Conditions.ShortcutNeedsTheShape | controllers/status.go:44-60 | it is not right on a list with a leftover fifth condition |
| Conditions.ConditionsModified | controllers/status.go:41-60 | the loop answers whether some requested condition has no stored counterpart or one that differs in status, reason or message |
| Conditions.ConstructorsSay | controllers/status.go:86-175 | which types are true and false in the three lists, and the reason and message of the problem |
| Cluster.ProfilesApart | pkg/controller/performanceprofile/components/utils.go:15-18 | profiles of different names share no component, and the deprecated name of one is no name of another |
| StatusTruth.StatusBecomesTrue | controllers/performanceprofile_controller.go:286-366 | after two undisturbed reconciles and ever after, on every store on which a reconcile does not panic, the stored conditions tell, type by type, the first problem of the store (pool, labels, components, kubelet, pool health, Tuned) with its reason and message, or that there is none |
| StatusTruth.SettledStatusIsTrue | controllers/performanceprofile_controller.go:325-360 | a store that a reconcile leaves unchanged, and on which it does not panic, has conditions that tell, type by type, its first problem |
| StatusTruth.ReconcilePanicsIff | controllers/resources.go:20-25 | a whole reconcile of a live profile panics exactly on the stores where it gets to a merge into a nil map, and then leaves the profile as it is |
| Quiescence.AtMostTwoReconcilesWrite | controllers/performanceprofile_controller.go:274-366 | from any store with a profile not under deletion, only the first two of any number of undisturbed reconciles change the store |
| Quiescence.SettledReconcileIsIdle | controllers/performanceprofile_controller.go:274-366 | the later ones do not even issue a write request, except for a pinned machine config of the deprecated name |
| Quiescence.ReconcileSettles | controllers/performanceprofile_controller.go:286-366 | a reconcile of a live profile leaves a store that the next one, at any later time, does not change |
| Quiescence.ReconcileMakesLive | controllers/performanceprofile_controller.go:274-284 | one reconcile gives a profile the finalizer and does not take it away |
| Quiescence.ApplyEstablishes | controllers/performanceprofile_controller.go:384-460 | an unpaused apply that reports success, whatever happened to its calls, leaves all four components with the generated spec (of a kubelet config its configuration and pool selector, of a runtime class its handler and scheduling), labels and annotations, and with foreign labels, annotations, owners and life-cycle state kept |
| Quiescence.ApplyCreates | controllers/performanceprofile_controller.go:394-398 | a component that was missing is created as generated, owned by the profile |
| Quiescence.PausedApply | controllers/performanceprofile_controller.go:385-388 | for a profile with the pause annotation set to true an apply makes no call |
| PartialApply.AppliedInOrder | controllers/performanceprofile_controller.go:434-456 | whatever calls fail, a component that changed has all earlier ones applied, in the order machine config, Tuned, kubelet config, runtime class |
| Quiescence.DeprecatedGoes | controllers/performanceprofile_controller.go:307-310 | a reconcile that gets to the components removes the machine config of the deprecated name, or marks it when it is pinned |
| Quiescence.ApplySettles | controllers/performanceprofile_controller.go:384-460 | applying again writes nothing, and stops with the same fault where the first apply stopped |
| Quiescence.StatusSettles | controllers/status.go:34-84 | after a status update a second one with the same conditions, at another time, makes no call |
| Outcomes.FailuresSurface | controllers/performanceprofile_controller.go:234-367 | from any store: a reconcile that says it is done although a call failed is one of a live profile, and the call was the list of pools, or the status write after components were changed |
| Outcomes.LiveAnswers | controllers/performanceprofile_controller.go:286-366 | the answer of a reconcile of a live profile: without failed calls an error or a panic exactly when the components cannot be applied; with one an error, but for the two cases above |
| Outcomes.AfterApplyAnswers | controllers/performanceprofile_controller.go:325-366 | after an apply: an error exactly when health could not be read, or the status could not be written and nothing was changed |
| Outcomes.ListFailureReported | controllers/performanceprofile_controller.go:286-295 | a list of pools that fails is reported in the status with its error |
| Outcomes.ApplyFailureReported | controllers/performanceprofile_controller.go:313-323 | an apply that stopped with an error is reported in the status with it |
| Outcomes.UnreadableReported | controllers/performanceprofile_controller.go:326-345 | a kubelet config that cannot be read, or a list behind the Tuned report that fails, is reported with its own reason and its error |
| Outcomes.ApplyHonest | controllers/performanceprofile_controller.go:384-460 | an apply with a failed call stops with an error; one without stops at the problem of the store, or reports a change exactly when there was one to make |
| Outcomes.DeletingAnswers | controllers/performanceprofile_controller.go:250-284 | under deletion: done means that no call failed; a request to be called again in ten seconds means that a component was found or could not be looked for |
| Controller.DoReconcile | controllers/performanceprofile_controller.go:234-367 | the statements of Reconcile lead to the world and answer that the theorems speak of, under any fate of the calls |
| Controller.DoReconcileLive | controllers/performanceprofile_controller.go:286-323 | pool lookup, label validation, removal of the deprecated config and apply, each with its error report |
| Controller.DoConclude | controllers/performanceprofile_controller.go:325-366 | kubelet before pool before Tuned, then the status write, whose failure is not reported when components changed |
| Controller.DoApply | controllers/performanceprofile_controller.go:384-432 | all four reads precede the first write; a fault in any of them stops the apply with nothing written |
| Controller.DoWritten | controllers/performanceprofile_controller.go:434-456 | the writes in the order machine config, Tuned, kubelet config, runtime class, up to the first failure |
| Controller.DoDeleteComponents | controllers/performanceprofile_controller.go:462-483 | the four components are deleted in turn up to the first failure |
| Controller.DoAnyExists | controllers/performanceprofile_controller.go:485-509 | a component whose read fails counts as existing |
| Controller.RemoveFinalizer | controllers/performanceprofile_controller.go:520-529 | the loop returns the list without any occurrence of the finalizer, all others kept |
| Controller.WithoutInOrder | controllers/performanceprofile_controller.go:520-529 | what is left keeps its order |
| Controller.HasFinalizer | controllers/performanceprofile_controller.go:511-518 | membership |
| Controller.LatestAt | controllers/status.go:275-283 | the chosen kubelet condition is the first among the latest ones |
| Controller.FindLatest | controllers/status.go:275-283 | the loop returns that condition, or none for an empty list |
| Controller.PoolReportEmptyIff | controllers/status.go:177-196 | a pool counts as degraded exactly when a degraded condition that is true has a reason or a message |
| Controller.PoolReportInOrder | controllers/status.go:177-196 | the report of a list of conditions is the reports of its parts, in order |
| Controller.PoolReportOfOne | controllers/status.go:180-186 | the text for a single condition |
| ResourceFacts.OutdatedTunedRemoved | controllers/resources.go:211-264 | after success the objects are exactly the old ones with outdated Tuned objects deleted and the expected one stored, in any list order and with repeated owner references |
| ResourceFacts.OnlyTheExpectedTunedRemains | controllers/resources.go:211-264 | with immediate deletes, every Tuned owned by the profile has the expected name, which exists, and Tuned objects of others are untouched |
| ResourceFacts.DeleteAllExact | controllers/performanceprofile_controller.go:462-483 | a deletion that reports success has deleted every key, and nothing else |
| ResourceFacts.DeleteAllPrefix | controllers/resources.go:241-252 | a deletion that is cut short has deleted a first part of the keys and touched nothing else |
| ResourceFacts.PlanIff | controllers/resources.go:41-64 | exactly when the comparison panics, when it ends in an error, when the component is left alone because spec, labels and annotations are up to date, and when it is rewritten |
| ResourceFacts.RewriteSettles | controllers/resources.go:107-143 | a rewritten component has the generated spec (a runtime class keeps its other fields), keeps foreign labels and annotations, and needs no further rewrite |
| ResourceFacts.CreationSettles | controllers/resources.go:107-143 | a component stored as generated needs no rewrite exactly when its kubelet configuration parses |
| Resources.ReadMutated | controllers/resources.go:107-143 | what each of the four getMutated functions answers, with the error of a failed read, of a nil map and of a configuration that does not parse |
| Resources.MergeMaps | controllers/resources.go:20-25 | source entries override destination entries, the rest is kept; a nil destination panics unless there is nothing to write |
| Resources.DoRemoveOutdatedTuned | controllers/resources.go:234-253 | the nested loops delete once for each matching owner reference and stop at the first failure |
| PoolLookup.LookupIffUniqueHit | controllers/performanceprofile_controller.go:538-575 | on a list repeated whole the lookup returns a pool exactly when no selector is malformed and it is the one pool whose selector matches |
| PoolLookup.FoundPoolMatches | controllers/performanceprofile_controller.go:548-574 | on any list a pool that is returned is listed, has a selector, and matches |
| PoolLookup.LookupFailures | controllers/performanceprofile_controller.go:548-572 | on a list repeated whole, which of the three errors is returned and exactly when |
| PoolLookup.FilterIsPrefixIff | controllers/performanceprofile_controller.go:546-550 | the filtered list is the prefix that is examined exactly when that prefix repeats no name |
| PoolLookup.LookupSoundIff | controllers/performanceprofile_controller.go:546-572 | where each pool has a selector of its own, the lookup returns the unique match for every meaning of the selectors exactly when the examined prefix repeats no name |
| PoolLookup.UniqueHitMissed | controllers/performanceprofile_controller.go:546-568 | whenever it does repeat one, some pool is the only match, with all selectors valid, and is reported as missing |
| PoolLookup.LookupFailsOnEarlyRepeat | controllers/performanceprofile_controller.go:546-572 | for the list a, a, b a match on a is called ambiguous and a match on b is not found |
| PoolLookup.FilterDuplications | controllers/performanceprofile_controller.go:577-588 | the loop returns the first pool of every name, in order |
| PoolLookup.FirstKeptInOrder | controllers/performanceprofile_controller.go:577-588 | the filtered list consists of the first pool of each name, at ascending positions of the input |
| PoolLookup.FirstOfEachName | controllers/performanceprofile_controller.go:577-588 | its names are distinct, no name is lost, and its pools are those of the input |
| PoolLookup.DoFindPool | controllers/performanceprofile_controller.go:538-575 | the loop over the unfiltered list with the first selector error and the two lookup errors |
| Allocator.CpuAccumulator.AddCores | pkg/profilecreator/profilecreator.go:360-369 | adds the first CPUs in traversal order, as many as the maximum still allows, and counts them |
| Allocator.GetCPUsSplitAcrossNUMA | pkg/profilecreator/profilecreator.go:384-411 | the loop computes the allocation described by quotas, caps and shares, or refuses an odd cap |
| Allocator.GetCPUsSequentially | pkg/profilecreator/profilecreator.go:414-427 | reserves exactly the first min(count, total) CPUs in traversal order, isolates the rest |
| Allocator.TotalCPUSet | pkg/profilecreator/profilecreator.go:429-436 | all CPUs of the topology |
| Allocator.TopologyHTDisabled | pkg/profilecreator/profilecreator.go:266-301 | the first thread of every core; a node without cores becomes nil |
| AllocatorFacts.FirstThreadsOfOne | pkg/profilecreator/profilecreator.go:274-291 | of a core its identity and its first thread are kept; a core without threads goes |
| AllocatorFacts.FirstThreadsInOrder | pkg/profilecreator/profilecreator.go:274-296 | the cores that are kept keep their order |
| Allocator.GetReservedAndIsolatedCPUs | pkg/profilecreator/profilecreator.go:304-345 | range check, disabling of hyperthreading, dispatch, and the panics |
| AllocatorFacts.EntryPointAnswers | pkg/profilecreator/profilecreator.go:304-345 | for all arguments: which requests are out of range, panic, are refused as odd, and are granted |
| Allocator.CapClosedForm | pkg/profilecreator/profilecreator.go:395-401 | the cumulative cap of every node in closed form |
| AllocatorFacts.FinalCapExact | pkg/profilecreator/profilecreator.go:389-401 | the last cap is the count exactly for remainders 0 and n - 1, else it exceeds it by n - 1 - remainder |
| AllocatorFacts.EvenCapsIff | pkg/profilecreator/profilecreator.go:395-404 | which quotients and remainders pass the odd-number check |
| AllocatorFacts.SplitMeetsRequestIff | pkg/profilecreator/profilecreator.go:384-411 | on nodes of any size: how many CPUs are reserved, and exactly when that is the request |
| AllocatorFacts.ReachedIsLeastRoom | pkg/profilecreator/profilecreator.go:395-405 | the running count is the least, over the nodes so far, of a cap plus all CPUs after it |
| AllocatorFacts.SplitIsolatesNothingIff | pkg/profilecreator/profilecreator.go:395-411 | the isolated set is empty exactly when up to every node the cap covers all CPUs so far |
| AllocatorFacts.AmpleSplitMeetsRequestIff | pkg/profilecreator/profilecreator.go:384-411 | when every node has the CPUs it is to give: size and balance of the reserved set, and exactly when they are as requested |
| AllocatorFacts.HyperthreadedSplit | pkg/profilecreator/profilecreator.go:384-411 | with hyperthreading, on nodes of any size: when the split succeeds and when it then meets the request; on ample nodes also by how much it exceeds it |
| AllocatorFacts.SplitOverReserves | pkg/profilecreator/profilecreator.go:375-401 | five CPUs on four ample nodes reserve seven |
| AllocatorFacts.SplitReservesFirst | pkg/profilecreator/profilecreator.go:395-409 | on every node the reserved CPUs are the first of its traversal, as many as the node adds to the count |
| AllocatorFacts.SplitSize | pkg/profilecreator/profilecreator.go:360-369 | on any nodes the reserved set is as large as the running count, which each node raises by what it has, up to the cap |
| AllocatorFacts.AllocationsPartition | pkg/profilecreator/profilecreator.go:407-427 | reserved and isolated are disjoint and together all CPUs, for both allocations |
| AllocatorFacts.SequentialAllocatedIff | pkg/profilecreator/profilecreator.go:414-419 | a sequential request is refused exactly when it is odd and hyperthreading is on |
| AllocatorFacts.SequentialReservesFirst | pkg/profilecreator/profilecreator.go:420-426 | the CPU at position k of the traversal is reserved exactly when k is below the count, and isolated otherwise |
| AllocatorFacts.SequentialSize | pkg/profilecreator/profilecreator.go:414-427 | how many CPUs are reserved, and when none is left to isolate |
| AllocatorFacts.SequentialGrows | pkg/profilecreator/profilecreator.go:414-427 | a larger request reserves every CPU that a smaller one does |
| AllocatorFacts.SiblingsStayTogether | pkg/profilecreator/profilecreator.go:384-427 | with hyperthreading and two threads per core both sets of either allocation are unions of whole cores |
| AllocatorFacts.DisabledLeavesFirstThreads | pkg/profilecreator/profilecreator.go:263-327 | with hyperthreading disabled exactly the first thread of each core is handed out |
| AllocatorFacts.RangeCheckProtectsIff | pkg/profilecreator/profilecreator.go:310-344 | for both allocations, with and without disabling hyperthreading, exactly when a request within the range leaves nothing isolated |
| AllocatorFacts.HalfIsEverything | pkg/profilecreator/profilecreator.go:310-344 | with two threads per core and hyperthreading to be disabled, a sequential request leaves nothing isolated exactly from half of the threads on |
| AllocatorFacts.SequentialIsolatesNothing | pkg/profilecreator/profilecreator.go:310-344 | two of four threads with hyperthreading to be disabled leave nothing isolated |
| AllocatorFacts.SplitIsolatesNothing | pkg/profilecreator/profilecreator.go:310-343 | five CPUs split over nodes with three, one, one and one leave nothing isolated, hyperthreading left alone |
| TopologyOrder.AllocationIsCanonical | pkg/profilecreator/profilecreator.go:242-261 | reports that differ in the order of nodes, cores and threads sort to the same topology and lead to the same answer |
| TopologyOrder.SortedUnique | pkg/profilecreator/profilecreator.go:247-259 | a sorted topology with distinct ids is determined by its content regardless of order |
| TopologyOrder.TopologyInfo.Sort | pkg/profilecreator/profilecreator.go:247-259 | node ids, the first threads of the cores of each node, and the threads of each core end up ascending, and nothing is lost or added |
| TopologyOrder.EnsureSameTopology | pkg/profilecreator/profilecreator.go:489-519 | the comparison succeeds exactly on equal topologies |
| TopologyOrder.SameHardwareIff | pkg/profilecreator/profilecreator.go:460-519 | comparing sorted topologies succeeds exactly when the hardware is the same up to order |
| CpuMask.CPUListToHexMask | pkg/controller/performanceprofile/components/utils.go:38-51 | the printed number has exactly the bits of the CPUs, in 64 or more digits |
| CpuMask.CPUListToMaskList | pkg/controller/performanceprofile/components/utils.go:55-76 | the words of the mask from the first that is not zero, joined by commas; the empty string when the list does not parse |
| CpuMask.CPUMaskToCPUSet | pkg/controller/performanceprofile/components/utils.go:114-141 | the CPUs whose bits are set in the words counted from the right, or an error for an empty, malformed or too large word |
| CpuMask.ReverseInPlace | pkg/controller/performanceprofile/components/utils.go:117-121 | the array is reversed |
| CpuMask.AddWord | pkg/controller/performanceprofile/components/utils.go:132-137 | the bit loop adds exactly the CPUs of one word |
| CpuMaskFacts.ReaderSpelledOut | pkg/controller/performanceprofile/components/utils.go:114-141 | for the comma-free parts of any text: refused exactly when a part is empty, has a character that is no hexadecimal digit, or a digit other than zero before its last eight; otherwise CPU c is read exactly when the digit for it, counted from the right, has its bit |
| CpuMaskFacts.PartsOf | pkg/controller/performanceprofile/components/utils.go:115 | every text consists of such parts |
| CpuMaskFacts.ReaderDenotation | pkg/controller/performanceprofile/components/utils.go:114-141 | every well-formed list is read as the set whose mask it denotes |
| CpuMaskFacts.LeadingZeroWord | pkg/controller/performanceprofile/components/utils.go:114-141 | a leading zero word changes nothing |
| CpuMaskFacts.PrinterSpelledOut | pkg/controller/performanceprofile/components/utils.go:55-76 | the printed words have eight lower-case digits, in which the digit for a CPU of the set, lowered by four for each dropped digit, has its bit, and no other digit has |
| CpuMaskFacts.PrinterExact | pkg/controller/performanceprofile/components/utils.go:60-75 | the printed words have eight digits and denote the mask shifted right by four bits for each digit that fills no word |
| CpuMaskFacts.PrintThenRead | pkg/controller/performanceprofile/components/utils.go:55-141 | reading back yields each CPU lowered by four times the number of dropped digits |
| CpuMaskFacts.DroppedIff | pkg/controller/performanceprofile/components/utils.go:50-75 | no digit is dropped exactly when the highest CPU is below 256 or among the last four of its word |
| CpuMaskFacts.RoundTripIff | pkg/controller/performanceprofile/components/utils.go:55-141 | reading a printed set returns it exactly under that condition |
| CpuMaskFacts.RoundTripOfEmpty | pkg/controller/performanceprofile/components/utils.go:55-141 | the empty set comes back empty |
| CpuMaskFacts.SingleCpuComesBackAs | pkg/controller/performanceprofile/components/utils.go:55-141 | which CPU a single CPU above 255 comes back as |
| CpuMaskFacts.PrintedIsShortest | pkg/controller/performanceprofile/components/utils.go:60-66 | no well-formed list with the same meaning has fewer words |
| HugePages.ValidateHugePages | api/v2/performanceprofile_validation.go:184-208 | the errors in order: default size, then for each page its size and its later duplicates |
| HugePages.ValidatePageDuplication | api/v2/performanceprofile_validation.go:210-237 | one error for each later page of equal size and equal optional node |
| HugePages.HugePagesArguments | pkg/controller/performanceprofile/components/tuned/tuned.go:62-104 | the arguments of the pages without a node, then the dummy ones if called for |
| HugePages.AllocationUnits | pkg/controller/performanceprofile/components/machineconfig/machineconfig.go:178-205 | one unit for each page with a node, with its name and all its options, or the first size that cannot be converted |
| HugePagesFacts.UnitsMadeIff | pkg/controller/performanceprofile/components/machineconfig/machineconfig.go:178-188 | the units are made exactly when the sizes of the pages with a node are supported |
| HugePagesFacts.UnitsServeTheNodePages | pkg/controller/performanceprofile/components/machineconfig/machineconfig.go:178-205 | one unit for each page with a node, in order, whose name and environment give 1048576 or 2048 kilobytes, the count and the node |
| HugePagesFacts.UnitDirectives | pkg/controller/performanceprofile/components/machineconfig/machineconfig.go:288-312 | a unit runs the allocation script once, before the kubelet |
| HugePagesFacts.UnitSettings | pkg/controller/performanceprofile/components/machineconfig/machineconfig.go:288-312 | the environment of a unit gives the size, the count and the node of its page |
| HugePagesFacts.OneErrorEach | api/v2/performanceprofile_validation.go:184-237 | exactly one error per invalid default, per page of invalid size and per clashing pair |
| HugePagesFacts.ErrorIff | api/v2/performanceprofile_validation.go:184-237 | an error is reported exactly when the fault it names is there |
| HugePagesFacts.ErrorsInOrder | api/v2/performanceprofile_validation.go:184-208 | where in the list the errors of each page stand: behind that of the default size and those of earlier pages, with that of its size first |
| HugePagesFacts.ValidIff | api/v2/performanceprofile_validation.go:184-237 | no error exactly when all sizes are supported and no two pages clash |
| HugePagesFacts.PagesAreConserved | pkg/controller/performanceprofile/components/machineconfig/machineconfig.go:178-205 | for 1G and 2M, the kernel arguments and the units of 1024 * 1024 and 2 * 1024 kilobytes, read from their environments as numbers, add up to the pages asked for |
| HugePagesFacts.ArgsInOrder | pkg/controller/performanceprofile/components/tuned/tuned.go:71-91 | the kernel arguments follow the order of the pages |
| HugePagesFacts.ArgsOfOne | pkg/controller/performanceprofile/components/tuned/tuned.go:73-90 | the arguments of one page: size and then count if it has no node, and none otherwise |
| HugePagesFacts.DummyIff | pkg/controller/performanceprofile/components/tuned/tuned.go:69-100 | when the dummy 2M arguments appear, whatever the order of the pages |
| HugePagesFacts.UnitNameInjective | pkg/controller/performanceprofile/components/machineconfig/machineconfig.go:199-203 | a unit name determines size and node |
| HugePagesFacts.ValidationSuffices | pkg/controller/performanceprofile/components/machineconfig/machineconfig.go:178-222 | without validation errors every size converts and all unit names, the RPS unit included, are different |
| NodePools.GetMCPSelector | pkg/profilecreator/mcp.go:17-64 | for any map order: fails exactly when every label is shared with a pool of another name, else returns one that is not, with a key that ends in the name of the pool if any has such a key |
| NodePools.GetPoolsForNode | pkg/profilecreator/mcp.go:120-183 | the pools of a node, with the selector error and the two role errors |
| NodePools.GetNodesForPool | pkg/profilecreator/mcp.go:69-102 | the nodes whose primary pool has the name and that no taint of the pool repels |
| NodePools.EveryNodeOnce | pkg/profilecreator/mcp.go:69-102 | for pools of distinct names the lists of all pools together hold each node as often as the cluster does when it has a primary pool that does not repel it, and not at all otherwise |
| NodePools.ChoiceIgnoresOrder | pkg/profilecreator/mcp.go:105-183 | for pools of distinct names the pool of a node, or the error, does not depend on their order |
| NodePools.ChoiceFailsIff | pkg/profilecreator/mcp.go:120-183 | for pools of distinct names: an error exactly when a selector is malformed, two custom pools want the node, or a custom one and master |
| NodePools.ChoiceIsRight | pkg/profilecreator/mcp.go:160-182 | and otherwise the list is custom then worker, or master, or worker, as these want the node by their selectors |
| NodePools.NodesInOrder | pkg/profilecreator/mcp.go:77-101 | the nodes of a pool are listed in the order of the cluster |
| NodePools.ChoiceIsNeverNil | pkg/profilecreator/mcp.go:105-183 | without error a node has no pool exactly when it runs Windows or no pool matches; a chosen pool is one that matches |
| Conversion.ProfileV2.ConvertTo | api/v2/performanceprofile_conversion.go:14-151 | the destination takes every field that is set and keeps its own for the others |
| Conversion.ProfileV2.ConvertFrom | api/v2/performanceprofile_conversion.go:154-293 | likewise, with an unset IRQ setting turned into true |
| Conversion.ProfileAlpha.ConvertTo | api/v1alpha1/performanceprofile_conversion.go:13-116 | likewise, without the network section and the IRQ setting |
| Conversion.ProfileAlpha.ConvertFrom | api/v1alpha1/performanceprofile_conversion.go:119-221 | likewise, in the other direction |
| ConversionFacts.RoundTripV2Iff | api/v2/performanceprofile_conversion.go:13-293 | v2 to v1 and back, into any destinations, is the identity exactly when the IRQ setting is set and no destination sets a field that the profile does not |
| ConversionFacts.RoundTripAlphaIff | api/v1alpha1/performanceprofile_conversion.go:13-221 | the same for v1alpha1, without the condition on the IRQ setting |
| ConversionFacts.JourneyKeeps | api/v2/performanceprofile_conversion.go:13-293 | after any sequence of conversions through fresh objects, exactly what is left of a profile |
| ConversionFacts.RoundTripsV2 | api/v2/performanceprofile_conversion.go:13-293 | a fresh v1 profile holds exactly what v2 held, and any number of round trips does no more than fill in the IRQ default |
| ConversionFacts.AlphaSurvives | api/v1alpha1/performanceprofile_conversion.go:13-221 | a v1alpha1 profile comes back unchanged from any journey, and v2 always sees its IRQ setting as true |
| NodePools.NodeInOnePool | pkg/profilecreator/mcp.go:77-100 | a node is listed for pools of one name only |
| NodePools.Precedence | pkg/profilecreator/mcp.go:148-182 | when the roles conflict, and which of custom, master and worker is chosen |
| AllocatorFacts.CrashIff | pkg/profilecreator/profilecreator.go:322-343 | the two panics and exactly when they happen |
| Conditions.ConstructorsAreCoherent | controllers/status.go:86-175 | each constructed list has the four types, exactly one of Available, Progressing and Degraded true, and Upgradeable equal to Available |
| Cluster.ComponentNames | controllers/performanceprofile_controller.go:462-477 | the keys of the components and of the deprecated machine config |

## Left out

- Parsing and printing of CPU lists (`cpuset.Parse`, `String`): the model starts from the parsed CPUs, or from the fact that a list does not parse.
- Label selector matching, JSON, templates and systemd serialisation: library code; a selector is a parameter that matches, does not match or is invalid, and decoded configurations are compared as values.
- Generation of the four components (kubelet configuration, runtime class, Tuned and machine config contents apart from huge pages): a parameter, a function of profile and pool that may fail before any write.
- Controller.TunedHealth: does not model how the degradation text is put together from Tuned profiles and nodes (controllers/status.go:223-273), which takes the address of a loop variable; the whole text is a field of the store, and the two list calls keep their failures.
- Stale caches and concurrent reconciles of one profile: each reconcile reads the store as it is, one at a time, and a reconcile is one step of a run.
- The failure of `SetControllerReference`, events, logging, watches, requeue timing, webhooks and leader election.
- The wording of error messages: lookup errors have a fixed text, and the hardware comparison answers yes or no only.
- Safety.EnvironmentStep: other parties never create objects under the operator's component names, write its status or remove its finalizer; this is an assumption about the cluster, not about the code.
- Quiescence.AtMostTwoReconcilesWrite: assumes that generated kubelet configurations parse, as the output of a JSON encoder does.
- Resources.ReadMutated: works on values where the source mutates a deep copy; an empty label map of a stored object stands for nil, which is what the server's encoding makes of it. Differences between nil and empty that `reflect.DeepEqual` sees elsewhere in a spec are not modelled.
- Allocator.Split: the partly filled reserved set that the source returns together with the odd-number error is not kept.
- TopologyOrder.TopologyInfo.Sort: updates one field that holds values, where the source sorts nested slices through pointers; `sort.Slice` is an insertion of which only the multiset and the order are used.
- TopologyOrder.EnsureSameTopology: a nil and an empty thread list are the same value.
- Conversion.ProfileV2.ConvertTo: metadata is copied as a value; that source and destination then share its maps is not modelled, nor are the types that differ between versions in name only.
- The text of the serialised units and of the kernel command line: options and arguments are kept as structured lists.
- Kernel arguments other than huge pages, `GetAdditionalKernelArgs`, must-gather reading and command line handling.
- Tools, functional tests, generated deep copies and manifests.
