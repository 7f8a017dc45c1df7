/**
  Huge pages: validation (api/v2/performanceprofile_validation.go), the kernel
  arguments of the Tuned profile (components/tuned/tuned.go) and the allocation
  units of the machine config (components/machineconfig/machineconfig.go).
 */
module HugePages {
  import opened Prelude

  const SIZE_2M := "2M"
  const SIZE_1G := "1G"

  /** A request for `count` pages of a size, on one NUMA node or on all. */
  datatype Page = Page(size: string, count: int, node: Option<int>)

  datatype Spec = Spec(defaultSize: Option<string>, pages: seq<Page>)

  // ----- validation -----

  datatype FieldError =
    | InvalidDefault
    | InvalidSize
    | DuplicateWithoutNode(size: string)
    | DuplicateOnNode(size: string, node: int)

  predicate ValidSize(size: string) {
    size == SIZE_1G || size == SIZE_2M
  }

  /** Two pages that may not both be requested. */
  predicate Clash(p: Page, q: Page) {
    p.size == q.size && p.node == q.node
  }

  function ClashError(p: Page): FieldError {
    if p.node.None? then DuplicateWithoutNode(p.size) else DuplicateOnNode(p.size, p.node.value)
  }

  function Duplications(page: Page, pages: seq<Page>): seq<FieldError> {
    if pages == [] then [] else
      var n := |pages| - 1;
      Duplications(page, pages[..n]) + (if Clash(page, pages[n]) then [ClashError(page)] else [])
  }

  method ValidatePageDuplication(page: Page, pages: seq<Page>) returns (errors: seq<FieldError>)
    ensures errors == Duplications(page, pages)
  {
    errors := [];
    for k := 0 to |pages|
      invariant errors == Duplications(page, pages[..k])
    {
      assert pages[..k + 1][..k] == pages[..k];
      var p := pages[k];
      if page.size != p.size {
        continue;
      }
      if page.node.Some? && p.node.None? {
        continue;
      }
      if page.node.None? && p.node.Some? {
        continue;
      }
      if page.node.None? && p.node.None? {
        errors := errors + [DuplicateWithoutNode(page.size)];
        continue;
      }
      if page.node.value == p.node.value {
        errors := errors + [DuplicateOnNode(page.size, page.node.value)];
      }
    }
    assert pages[..|pages|] == pages;
  }

  function PageErrors(pages: seq<Page>, i: nat): seq<FieldError>
    requires i < |pages|
  {
    (if ValidSize(pages[i].size) then [] else [InvalidSize]) + Duplications(pages[i], pages[i + 1..])
  }

  /** The errors of the first `i` pages. */
  function ErrorsUpTo(pages: seq<Page>, i: nat): seq<FieldError>
    requires i <= |pages|
  {
    if i == 0 then [] else ErrorsUpTo(pages, i - 1) + PageErrors(pages, i - 1)
  }

  function DefaultErrors(spec: Spec): seq<FieldError> {
    if spec.defaultSize.Some? && !ValidSize(spec.defaultSize.value) then [InvalidDefault] else []
  }

  function Errors(spec: Option<Spec>): seq<FieldError> {
    if spec.None? then [] else ErrorsSoFar(spec.value, |spec.value.pages|)
  }

  function ErrorsSoFar(spec: Spec, i: nat): seq<FieldError>
    requires i <= |spec.pages|
  {
    DefaultErrors(spec) + ErrorsUpTo(spec.pages, i)
  }

  lemma Associates(a: seq<FieldError>, b: seq<FieldError>, c: seq<FieldError>)
    ensures (a + b) + c == a + (b + c)
    ensures a + [] == a
  {
  }

  lemma ErrorsStep(spec: Spec, i: nat)
    requires i < |spec.pages|
    ensures ErrorsSoFar(spec, i + 1) == ErrorsSoFar(spec, i) + PageErrors(spec.pages, i)
  {
    Associates(DefaultErrors(spec), ErrorsUpTo(spec.pages, i), PageErrors(spec.pages, i));
  }

  method ValidateHugePages(spec: Option<Spec>) returns (errors: seq<FieldError>)
    ensures errors == Errors(spec)
  {
    errors := [];
    if spec.None? {
      return;
    }
    if spec.value.defaultSize.Some? {
      var defaultSize := spec.value.defaultSize.value;
      if !ValidSize(defaultSize) {
        errors := errors + [InvalidDefault];
      }
    }
    var pages := spec.value.pages;
    for i := 0 to |pages|
      invariant errors == ErrorsSoFar(spec.value, i)
    {
      ghost var before := errors;
      if !ValidSize(pages[i].size) {
        errors := errors + [InvalidSize];
      }
      var duplications := ValidatePageDuplication(pages[i], pages[i + 1..]);
      ErrorsStep(spec.value, i);
      Associates(before, if ValidSize(pages[i].size) then [] else [InvalidSize], duplications);
      errors := errors + duplications;
    }
  }

  // ----- kernel arguments -----

  /** hugepagesz=... and hugepages=..., joined by spaces on the command line. */
  datatype KernelArg = PageSize(size: string) | PageCount(count: int)

  function PageArgs(p: Page): seq<KernelArg> {
    [PageSize(p.size), PageCount(p.count)]
  }

  /** The arguments of the pages without a node. */
  function NodelessArgs(pages: seq<Page>): seq<KernelArg> {
    if pages == [] then [] else
      var n := |pages| - 1;
      NodelessArgs(pages[..n]) + (if pages[n].node.None? then PageArgs(pages[n]) else [])
  }

  /** What the loop knows about 2M pages: None until one is seen, then whether all seen so far name a node. */
  function Requested2M(pages: seq<Page>): Option<bool> {
    if pages == [] then None else
      var n := |pages| - 1;
      var before := Requested2M(pages[..n]);
      if pages[n].size != SIZE_2M then before
      else if pages[n].node.None? then Some(false)
      else if before.None? then Some(true)
      else before
  }

  const DUMMY_ARGS := [PageSize(SIZE_2M), PageCount(0)]

  function KernelArgs(spec: Spec): seq<KernelArg> {
    NodelessArgs(spec.pages)
    + (if Requested2M(spec.pages) == Some(true) && spec.defaultSize == Some(SIZE_1G) then DUMMY_ARGS else [])
  }

  /** The huge pages part of NewNodePerformance. */
  method HugePagesArguments(spec: Spec) returns (hugepages: seq<KernelArg>)
    ensures hugepages == KernelArgs(spec)
  {
    var defaultSize := if spec.defaultSize.Some? then spec.defaultSize.value else "";
    var is2MRequested: Option<bool> := None;
    hugepages := [];
    for i := 0 to |spec.pages|
      invariant hugepages == NodelessArgs(spec.pages[..i])
      invariant is2MRequested == Requested2M(spec.pages[..i])
    {
      assert spec.pages[..i + 1][..i] == spec.pages[..i];
      var page := spec.pages[i];
      if page.node.Some? {
        if page.size == SIZE_2M && is2MRequested.None? {
          is2MRequested := Some(true);
        }
        continue;
      }
      if page.size == SIZE_2M {
        is2MRequested := Some(false);
      }
      ghost var before := hugepages;
      hugepages := hugepages + [PageSize(page.size)];
      hugepages := hugepages + [PageCount(page.count)];
      assert hugepages == before + PageArgs(page);
    }
    assert spec.pages[..|spec.pages|] == spec.pages;
    if is2MRequested.Some? && is2MRequested.value {
      if defaultSize == SIZE_1G {
        ghost var before := hugepages;
        hugepages := hugepages + [PageSize(SIZE_2M)];
        hugepages := hugepages + [PageCount(0)];
        assert hugepages == before + DUMMY_ARGS;
      }
    }
  }

  // ----- systemd units -----

  function Kilobytes(size: string): Result<string> {
    if size == SIZE_1G then Success("1048576")
    else if size == SIZE_2M then Success("2048")
    else Failure("can not convert size to kilobytes")
  }

  function DecimalDigits(n: nat): string {
    if n < 10 then ["0123456789"[n]] else DecimalDigits(n / 10) + ["0123456789"[n % 10]]
  }

  /** %d */
  function Decimal(n: int): string {
    if n < 0 then "-" + DecimalDigits(-n) else DecimalDigits(n)
  }

  const UNIT_PREFIX := "hugepages-allocation-"
  const UNIT_MIDDLE := "kB-NUMA"
  const SERVICE := ".service"
  const RPS_UNIT := "update-rps@.service"

  function UnitName(kilobytes: string, node: int): string {
    UNIT_PREFIX + (kilobytes + (UNIT_MIDDLE + (Decimal(node) + SERVICE)))
  }

  /** A line of a systemd unit. */
  datatype UnitOption = UnitOption(section: string, name: string, value: string)

  const ENVIRONMENT := "Environment"
  const COUNT_KEY := "HUGEPAGES_COUNT"
  const SIZE_KEY := "HUGEPAGES_SIZE"
  const NODE_KEY := "NUMA_NODE"

  function EnvironmentOption(key: string, value: string): UnitOption {
    UnitOption("Service", ENVIRONMENT, key + ("=" + value))
  }

  /** GetHugepagesAllocationUnitOptions */
  function AllocationOptions(kilobytes: string, count: int, node: int): seq<UnitOption> {
    [UnitOption("Unit", "Description", "Hugepages-" + kilobytes + "kB allocation on the node " + Decimal(node)),
     UnitOption("Unit", "Before", "kubelet.service"),
     EnvironmentOption(COUNT_KEY, Decimal(count)),
     EnvironmentOption(SIZE_KEY, kilobytes),
     EnvironmentOption(NODE_KEY, Decimal(node)),
     UnitOption("Service", "Type", "oneshot"),
     UnitOption("Service", "RemainAfterExit", "true"),
     UnitOption("Service", "ExecStart", "/usr/local/bin/hugepages-allocation.sh"),
     UnitOption("Install", "WantedBy", "multi-user.target")]
  }

  datatype Unit = Unit(name: string, contents: seq<UnitOption>)

  /** The unit that allocates `count` pages on one node. */
  function AllocationUnit(kilobytes: string, count: int, node: int): Unit {
    Unit(UnitName(kilobytes, node), AllocationOptions(kilobytes, count, node))
  }

  function UnitOf(p: Page): Unit
    requires p.node.Some? && Kilobytes(p.size).Success?
  {
    AllocationUnit(Kilobytes(p.size).value, p.count, p.node.value)
  }

  /** What a page adds to the units made so far. */
  function WithUnit(before: Result<seq<Unit>>, page: Page): Result<seq<Unit>> {
    match before
    case Failure(t) => Failure(t)
    case Success(units) =>
      if page.node.None? then Success(units)
      else match Kilobytes(page.size)
        case Failure(t) => Failure(t)
        case Success(_) => Success(units + [UnitOf(page)])
  }

  /** The units of the pages that name a node, or the first size that cannot be converted. */
  function Units(pages: seq<Page>): Result<seq<Unit>> {
    if pages == [] then Success([]) else WithUnit(Units(pages[..|pages| - 1]), pages[|pages| - 1])
  }

  lemma {:induction false} UnitsFail(pages: seq<Page>, i: nat)
    requires i <= |pages| && Units(pages[..i]).Failure?
    ensures Units(pages) == Units(pages[..i])
    decreases |pages|
  {
    if i == |pages| {
      assert pages[..i] == pages;
    } else {
      var n: nat := |pages| - 1;
      PrefixOfPrefix(pages, i, n);
      UnitsFail(pages[..n], i);
    }
  }

  lemma PrefixOfPrefix(pages: seq<Page>, i: nat, n: nat)
    requires i <= n <= |pages|
    ensures pages[..n][..i] == pages[..i]
  {
  }

  /** The huge pages loop of getIgnitionConfig. */
  method AllocationUnits(pages: seq<Page>) returns (r: Result<seq<Unit>>)
    ensures r == Units(pages)
  {
    var units: seq<Unit> := [];
    for i := 0 to |pages|
      invariant Units(pages[..i]) == Success(units)
    {
      assert pages[..i + 1][..i] == pages[..i];
      var page := pages[i];
      if page.node.None? {
        continue;
      }
      var kb := Kilobytes(page.size);
      if kb.Failure? {
        UnitsFail(pages, i + 1);
        return Failure(kb.text);
      }
      units := units + [AllocationUnit(kb.value, page.count, page.node.value)];
    }
    assert pages[..|pages|] == pages;
    r := Success(units);
  }

  /** The names of all units of the machine config; the RPS unit is there when CPUs are reserved. */
  function UnitNames(units: seq<Unit>, reserved: bool): seq<string> {
    seq(|units|, i requires 0 <= i < |units| => units[i].name) + (if reserved then [RPS_UNIT] else [])
  }
}
