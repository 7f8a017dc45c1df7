/** Conservation of huge pages between the two generators, and what validation guarantees them. */
module HugePagesFacts {
  import opened Prelude
  import opened HugePages

  ghost predicate Supported(size: string) {
    size == "1G" || size == "2M"
  }

  /** Two pages of one size for the same node, or both for no node in particular. */
  ghost predicate Conflict(p: Page, q: Page) {
    p.size == q.size && p.node == q.node
  }

  // ----- how many errors -----

  ghost function BadSizes(pages: seq<Page>, i: nat): set<nat> {
    set k: nat | k < i && k < |pages| && !Supported(pages[k].size)
  }

  ghost function ClashesWith(pages: seq<Page>, k: nat, j: nat): set<(nat, nat)>
    requires k < |pages|
  {
    set l: nat | k < l < j && l < |pages| && Conflict(pages[k], pages[l]) :: (k, l)
  }

  /** The clashing pairs with first component below `i`. */
  ghost function Clashes(pages: seq<Page>, i: nat): set<(nat, nat)> {
    set k: nat, l: nat | k < i && k < l < |pages| && Conflict(pages[k], pages[l]) :: (k, l)
  }

  /** The clash of page `k` with page `l`, if there is one. */
  ghost function OneClash(pages: seq<Page>, k: nat, l: nat): set<(nat, nat)>
    requires k < l < |pages|
  {
    if Conflict(pages[k], pages[l]) then {(k, l)} else {}
  }

  lemma ClashesWithStep(pages: seq<Page>, k: nat, l: nat)
    requires k < l < |pages|
    ensures |ClashesWith(pages, k, l + 1)| == |ClashesWith(pages, k, l)| + |OneClash(pages, k, l)|
  {
    assert ClashesWith(pages, k, l + 1) == ClashesWith(pages, k, l) + OneClash(pages, k, l);
    CardUnion(ClashesWith(pages, k, l), OneClash(pages, k, l));
  }

  lemma LastOfSlice(pages: seq<Page>, i: nat, l: nat)
    requires i <= l < |pages|
    ensures |pages[i..l + 1]| == l - i + 1
    ensures pages[i..l + 1][..l - i] == pages[i..l] && pages[i..l + 1][l - i] == pages[l]
  {
  }

  lemma {:induction false} DuplicationsCount(pages: seq<Page>, k: nat, j: nat)
    requires k < |pages| && k < j <= |pages|
    ensures |Duplications(pages[k], pages[k + 1..j])| == |ClashesWith(pages, k, j)|
    decreases j
  {
    if j == k + 1 {
      assert ClashesWith(pages, k, j) == {};
    } else {
      var l: nat := j - 1;
      DuplicationsCount(pages, k, l);
      ClashesWithStep(pages, k, l);
      LastOfSlice(pages, k + 1, l);
    }
  }

  lemma BadSizesStep(pages: seq<Page>, k: nat)
    requires k < |pages|
    ensures |BadSizes(pages, k + 1)| == |BadSizes(pages, k)| + (if Supported(pages[k].size) then 0 else 1)
  {
    assert BadSizes(pages, k + 1) == BadSizes(pages, k) + (if Supported(pages[k].size) then {} else {k});
  }

  lemma ClashesStep(pages: seq<Page>, k: nat)
    requires k < |pages|
    ensures |Clashes(pages, k + 1)| == |Clashes(pages, k)| + |ClashesWith(pages, k, |pages|)|
  {
    assert Clashes(pages, k + 1) == Clashes(pages, k) + ClashesWith(pages, k, |pages|);
    CardUnion(Clashes(pages, k), ClashesWith(pages, k, |pages|));
  }

  lemma PageErrorsCount(pages: seq<Page>, k: nat)
    requires k < |pages|
    ensures |PageErrors(pages, k)| == (if Supported(pages[k].size) then 0 else 1) + |ClashesWith(pages, k, |pages|)|
  {
    DuplicationsCount(pages, k, |pages|);
    assert pages[k + 1..|pages|] == pages[k + 1..];
  }

  lemma {:induction false} ErrorsCount(pages: seq<Page>, i: nat)
    requires i <= |pages|
    ensures |ErrorsUpTo(pages, i)| == |BadSizes(pages, i)| + |Clashes(pages, i)|
  {
    if i > 0 {
      var k: nat := i - 1;
      ErrorsCount(pages, k);
      PageErrorsCount(pages, k);
      BadSizesStep(pages, k);
      ClashesStep(pages, k);
    }
  }

  /** Validation reports exactly one error for an invalid default size, one for each page of invalid
      size, and one for each pair of pages with equal size and equal optional node. */
  lemma OneErrorEach(spec: Spec)
    ensures var n := |spec.pages|;
            |Errors(Some(spec))| ==
            (if spec.defaultSize.Some? && !Supported(spec.defaultSize.value) then 1 else 0)
            + |BadSizes(spec.pages, n)| + |Clashes(spec.pages, n)|
  {
    ErrorsCount(spec.pages, |spec.pages|);
  }

  /** A specification passes exactly when its sizes are supported and no two pages clash. */
  lemma ValidIff(spec: Spec)
    ensures Errors(Some(spec)) == [] <==>
            && (spec.defaultSize.Some? ==> Supported(spec.defaultSize.value))
            && (forall p | p in spec.pages :: Supported(p.size))
            && (forall i, j | 0 <= i < j < |spec.pages| :: !Conflict(spec.pages[i], spec.pages[j]))
  {
    OneErrorEach(spec);
    var n := |spec.pages|;
    if BadSizes(spec.pages, n) == {} {
      forall p | p in spec.pages
        ensures Supported(p.size)
      {
        var k :| 0 <= k < n && spec.pages[k] == p;
        assert k !in BadSizes(spec.pages, n);
      }
    } else {
      var k :| k in BadSizes(spec.pages, n);
      assert spec.pages[k] in spec.pages;
    }
    if Clashes(spec.pages, n) == {} {
      forall i, j | 0 <= i < j < n
        ensures !Conflict(spec.pages[i], spec.pages[j])
      {
        assert (i, j) !in Clashes(spec.pages, n);
      }
    } else {
      var c :| c in Clashes(spec.pages, n);
    }
  }

  // ----- which errors -----

  /** The error names the size, and the node if there is one. */
  ghost predicate NamesConflict(e: FieldError, p: Page) {
    match p.node
    case None => e == DuplicateWithoutNode(p.size)
    case Some(node) => e == DuplicateOnNode(p.size, node)
  }

  lemma {:induction false} DuplicationsMember(page: Page, pages: seq<Page>, e: FieldError)
    ensures e in Duplications(page, pages) <==>
            NamesConflict(e, page) && exists l :: 0 <= l < |pages| && Conflict(page, pages[l])
  {
    if pages != [] {
      var n := |pages| - 1;
      DuplicationsMember(page, pages[..n], e);
      assert forall l | 0 <= l < n :: pages[..n][l] == pages[l];
    }
  }

  /** Error `e` is due to page `k` alone or to a later page that clashes with it. */
  ghost predicate DueTo(pages: seq<Page>, k: nat, e: FieldError)
    requires k < |pages|
  {
    || (e == InvalidSize && !Supported(pages[k].size))
    || (NamesConflict(e, pages[k]) && exists l :: k < l < |pages| && Conflict(pages[k], pages[l]))
  }

  lemma PageErrorsMember(pages: seq<Page>, k: nat, e: FieldError)
    requires k < |pages|
    ensures e in PageErrors(pages, k) <==> DueTo(pages, k, e)
  {
    var later := pages[k + 1..];
    DuplicationsMember(pages[k], later, e);
    if l :| k < l < |pages| && Conflict(pages[k], pages[l]) {
      assert later[l - k - 1] == pages[l];
    }
    assert forall l | 0 <= l < |later| :: later[l] == pages[l + k + 1];
  }

  ghost predicate DueToSome(pages: seq<Page>, i: nat, e: FieldError)
    requires i <= |pages|
  {
    exists k: nat :: k < i && DueTo(pages, k, e)
  }

  lemma DueToSomeStep(pages: seq<Page>, k: nat, e: FieldError)
    requires k < |pages|
    ensures DueToSome(pages, k + 1, e) <==> DueToSome(pages, k, e) || DueTo(pages, k, e)
  {
  }

  lemma {:induction false} ErrorsMember(pages: seq<Page>, i: nat, e: FieldError)
    requires i <= |pages|
    ensures e in ErrorsUpTo(pages, i) <==> DueToSome(pages, i, e)
  {
    if i > 0 {
      var k: nat := i - 1;
      ErrorsMember(pages, k, e);
      PageErrorsMember(pages, k, e);
      DueToSomeStep(pages, k, e);
    }
  }

  /** Each error names a fault that is there, and each fault is named: the error of a clash is that of
      the earlier page, with its size and its node. */
  lemma ErrorIff(spec: Spec, e: FieldError)
    ensures e in Errors(Some(spec)) <==>
            || (e == InvalidDefault && spec.defaultSize.Some? && !Supported(spec.defaultSize.value))
            || DueToSome(spec.pages, |spec.pages|, e)
  {
    ErrorsMember(spec.pages, |spec.pages|, e);
  }

  // ----- the order of the errors -----

  lemma {:induction false} ErrorsPrefix(pages: seq<Page>, i: nat, n: nat)
    requires i <= n <= |pages|
    ensures ErrorsUpTo(pages, i) <= ErrorsUpTo(pages, n)
    decreases n - i
  {
    if i < n {
      ErrorsPrefix(pages, i + 1, n);
    }
  }

  /** The position of the first error of page `k`: behind the one of the default, and all of earlier pages. */
  ghost function PositionOf(spec: Spec, k: nat): nat
    requires k <= |spec.pages|
  {
    (if spec.defaultSize.Some? && !Supported(spec.defaultSize.value) then 1 else 0)
    + |BadSizes(spec.pages, k)| + |Clashes(spec.pages, k)|
  }

  /** The errors come in the order of the pages, after that of the default size; among those of a page the one
      of its size comes first. */
  lemma ErrorsInOrder(spec: Spec, k: nat, i: nat)
    requires k < |spec.pages| && PositionOf(spec, k) <= i < PositionOf(spec, k + 1)
    ensures PositionOf(spec, k + 1) <= |Errors(Some(spec))|
    ensures DueTo(spec.pages, k, Errors(Some(spec))[i])
    ensures i == PositionOf(spec, k) && !Supported(spec.pages[k].size) ==> Errors(Some(spec))[i] == InvalidSize
    ensures PositionOf(spec, 0) == 1 ==> Errors(Some(spec))[0] == InvalidDefault
  {
    var pages := spec.pages;
    ErrorsCount(pages, k);
    ErrorsCount(pages, k + 1);
    ErrorsPrefix(pages, k + 1, |pages|);
    NothingBefore(pages);
    var default, before, mine := DefaultErrors(spec), ErrorsUpTo(pages, k), PageErrors(pages, k);
    SegmentAt(default, before, mine, ErrorsUpTo(pages, |pages|), i);
    PageErrorsMember(pages, k, mine[i - |default| - |before|]);
  }

  lemma NothingBefore(pages: seq<Page>)
    ensures BadSizes(pages, 0) == {} && Clashes(pages, 0) == {}
  {
  }

  lemma SegmentAt(default: seq<FieldError>, before: seq<FieldError>, mine: seq<FieldError>, all: seq<FieldError>,
                  i: nat)
    requires before + mine <= all && |default| + |before| <= i < |default| + |before| + |mine|
    ensures i < |default + all| && (default + all)[i] == mine[i - |default| - |before|]
  {
    assert (default + all)[i] == all[i - |default|] == (before + mine)[i - |default|];
  }

  // ----- numbers in text -----

  function DigitOf(c: char): int {
    c as int - '0' as int
  }

  function ReadDigits(s: string): int {
    if s == [] then 0 else 10 * ReadDigits(s[..|s| - 1]) + DigitOf(s[|s| - 1])
  }

  lemma {:induction false} ReadDecimalDigits(n: nat)
    ensures ReadDigits(DecimalDigits(n)) == n && DecimalDigits(n) != [] && DecimalDigits(n)[0] != '-'
  {
    if n < 10 {
      assert DecimalDigits(n)[..0] == [];
    } else {
      ReadDecimalDigits(n / 10);
      assert DecimalDigits(n)[..|DecimalDigits(n)| - 1] == DecimalDigits(n / 10);
    }
  }

  function ReadInt(s: string): int {
    if s != [] && s[0] == '-' then -ReadDigits(s[1..]) else ReadDigits(s)
  }

  /** Reading a printed number gives the number. */
  lemma ReadDecimal(n: int)
    ensures ReadInt(Decimal(n)) == n
  {
    ReadDecimalDigits(if n < 0 then -n else n);
    if n < 0 {
      assert Decimal(n)[0] == '-' && Decimal(n)[1..] == DecimalDigits(-n);
    }
  }

  // ----- conservation -----

  /** The pages of a size that the specification asks for. */
  function Requested(pages: seq<Page>, size: string): int {
    if pages == [] then 0 else
      Requested(pages[..|pages| - 1], size) + (if pages[|pages| - 1].size == size then pages[|pages| - 1].count else 0)
  }

  /** The pages of a size that a command line asks for: each count applies to the size before it. */
  function FromArgs(args: seq<KernelArg>, size: string): int {
    if |args| < 2 then 0 else
      var n := |args|;
      FromArgs(args[..n - 2], size)
      + (if args[n - 2] == PageSize(size) && args[n - 1].PageCount? then args[n - 1].count else 0)
  }

  /** The value that a unit gives an environment variable: that of the first such line. */
  function Setting(contents: seq<UnitOption>, key: string): Option<string> {
    if contents == [] then None
    else if contents[0].name == ENVIRONMENT && Sets(contents[0].value, key) then Some(contents[0].value[|key| + 1..])
    else Setting(contents[1..], key)
  }

  /** The line has the form key=value. */
  predicate Sets(line: string, key: string) {
    |key| < |line| && line[..|key|] == key && line[|key|] == '='
  }

  lemma SetsItsKey(key: string, value: string)
    ensures Sets(key + ("=" + value), key) && (key + ("=" + value))[|key| + 1..] == value
  {
    var line := key + ("=" + value);
    assert line[|key|..] == "=" + value;
    assert line[|key| + 1..] == value;
  }

  lemma SetsOnly(key: string, value: string, other: string, i: nat)
    requires i < |key| && i < |other| && key[i] != other[i]
    ensures !Sets(key + ("=" + value), other)
  {
    var line := key + ("=" + value);
    assert line[i] == key[i];
    assert |other| < |line| ==> line[..|other|][i] == line[i];
  }

  lemma SettingSkips(contents: seq<UnitOption>, key: string)
    requires contents != [] && (contents[0].name != ENVIRONMENT || !Sets(contents[0].value, key))
    ensures Setting(contents, key) == Setting(contents[1..], key)
  {
  }

  /** The environment of an allocation unit is the size, the count and the node. */
  lemma UnitSettings(kilobytes: string, count: int, node: int)
    ensures var contents := AllocationOptions(kilobytes, count, node);
            && Setting(contents, SIZE_KEY) == Some(kilobytes)
            && Setting(contents, COUNT_KEY) == Some(Decimal(count))
            && Setting(contents, NODE_KEY) == Some(Decimal(node))
  {
    var contents := AllocationOptions(kilobytes, count, node);
    NamesDiffer();
    SetsItsKey(SIZE_KEY, kilobytes);
    SetsItsKey(COUNT_KEY, Decimal(count));
    SetsItsKey(NODE_KEY, Decimal(node));
    SetsOnly(COUNT_KEY, Decimal(count), SIZE_KEY, 10);
    SetsOnly(COUNT_KEY, Decimal(count), NODE_KEY, 0);
    SetsOnly(SIZE_KEY, kilobytes, NODE_KEY, 0);
    assert contents[1..][1..] == contents[2..];
    assert contents[2..][1..] == contents[3..];
    assert contents[3..][1..] == contents[4..];
    forall key
      ensures Setting(contents, key) == Setting(contents[2..], key)
    {
      SettingSkips(contents, key);
      SettingSkips(contents[1..], key);
    }
    SettingSkips(contents[2..], SIZE_KEY);
    SettingSkips(contents[2..], NODE_KEY);
    SettingSkips(contents[3..], NODE_KEY);
  }

  /** And it runs once, before the kubelet, the allocation script. */
  lemma UnitDirectives(kilobytes: string, count: int, node: int)
    ensures var contents := AllocationOptions(kilobytes, count, node);
            && UnitOption("Unit", "Before", "kubelet.service") in contents
            && UnitOption("Service", "Type", "oneshot") in contents
            && UnitOption("Service", "RemainAfterExit", "true") in contents
            && UnitOption("Service", "ExecStart", "/usr/local/bin/hugepages-allocation.sh") in contents
            && UnitOption("Install", "WantedBy", "multi-user.target") in contents
  {
    var contents := AllocationOptions(kilobytes, count, node);
    assert contents[1] in contents && contents[5] in contents && contents[6] in contents;
    assert contents[7] in contents && contents[8] in contents;
  }

  lemma NamesDiffer()
    ensures "Description" != ENVIRONMENT && "Before" != ENVIRONMENT
  {
    assert "Description"[0] != ENVIRONMENT[0] && "Before"[0] != ENVIRONMENT[0];
  }

  // ----- sizes as numbers -----

  /** The kilobytes of a page. */
  ghost function KilobytesOf(size: string): int
    requires Supported(size)
  {
    if size == "1G" then 1024 * 1024 else 2 * 1024
  }

  lemma ReadAppend(s: string, c: char)
    ensures ReadDigits(s + [c]) == 10 * ReadDigits(s) + DigitOf(c)
  {
    assert (s + [c])[..|s|] == s;
  }

  /** What is printed for a size reads as its kilobytes. */
  lemma KilobytesRead(size: string)
    requires Supported(size)
    ensures Kilobytes(size).Success? && ReadInt(Kilobytes(size).value) == KilobytesOf(size)
  {
    if size == "1G" {
      ReadAppend("", '1');
      ReadAppend("1", '0');
      ReadAppend("10", '4');
      ReadAppend("104", '8');
      ReadAppend("1048", '5');
      ReadAppend("10485", '7');
      ReadAppend("104857", '6');
      assert "104857" + ['6'] == "1048576" && "10485" + ['7'] == "104857" && "1048" + ['5'] == "10485";
      assert "104" + ['8'] == "1048" && "10" + ['4'] == "104" && "1" + ['0'] == "10" && "" + ['1'] == "1";
    } else {
      ReadAppend("", '2');
      ReadAppend("2", '0');
      ReadAppend("20", '4');
      ReadAppend("204", '8');
      assert "204" + ['8'] == "2048" && "20" + ['4'] == "204" && "2" + ['0'] == "20" && "" + ['2'] == "2";
    }
  }

  lemma UnsupportedFails(size: string)
    ensures Kilobytes(size).Success? <==> Supported(size)
  {
  }

  /** The value of an environment variable of the unit, as a number. */
  function Number(u: Unit, key: string): Option<int> {
    match Setting(u.contents, key)
    case None => None
    case Some(value) => Some(ReadInt(value))
  }

  /** The unit allocates a page request: its environment gives size, count and node, and its name the size
      and the node. */
  ghost predicate Serves(u: Unit, p: Page) {
    && p.node.Some? && Supported(p.size)
    && Number(u, "HUGEPAGES_SIZE") == Some(KilobytesOf(p.size))
    && Number(u, "HUGEPAGES_COUNT") == Some(p.count)
    && Number(u, "NUMA_NODE") == Some(p.node.value)
    && u.name == NameFor(if p.size == "1G" then "1048576" else "2048", p.node.value)
  }

  ghost function NameFor(kilobytes: string, node: int): string {
    "hugepages-allocation-" + (kilobytes + ("kB-NUMA" + (Decimal(node) + ".service")))
  }

  lemma UnitServes(p: Page)
    requires p.node.Some? && Supported(p.size)
    ensures Kilobytes(p.size).Success? && Serves(UnitOf(p), p)
  {
    KilobytesRead(p.size);
    var kb, u := Kilobytes(p.size).value, UnitOf(p);
    UnitSettings(kb, p.count, p.node.value);
    ReadDecimal(p.count);
    ReadDecimal(p.node.value);
    assert u.name == NameFor(kb, p.node.value);
  }

  /** The pages of a size, in kilobytes, that a unit makes the allocation script ask for. */
  function Allocates(u: Unit, kilobytes: int): int {
    var count := Number(u, "HUGEPAGES_COUNT");
    if Number(u, "HUGEPAGES_SIZE") == Some(kilobytes) && count.Some? then count.value else 0
  }

  function FromUnits(units: seq<Unit>, kilobytes: int): int {
    if units == [] then 0 else
      FromUnits(units[..|units| - 1], kilobytes) + Allocates(units[|units| - 1], kilobytes)
  }

  lemma {:induction false} ConservedUpTo(pages: seq<Page>, size: string)
    requires Units(pages).Success? && Supported(size)
    ensures Requested(pages, size) ==
            FromArgs(NodelessArgs(pages), size) + FromUnits(Units(pages).value, KilobytesOf(size))
  {
    if pages != [] {
      var n := |pages| - 1;
      var page, args := pages[n], NodelessArgs(pages[..n]);
      ConservedUpTo(pages[..n], size);
      if page.node.None? {
        var more := args + PageArgs(page);
        assert more[..|more| - 2] == args;
      } else {
        assert args + [] == args;
        var units := Units(pages[..n]).value;
        assert (units + [UnitOf(page)])[..|units|] == units;
        UnsupportedFails(page.size);
        UnitServes(page);
      }
    }
  }

  /** Conservation: for each supported size, the kernel arguments and the units together allocate
      exactly the pages that were asked for; the dummy arguments allocate none. */
  lemma PagesAreConserved(spec: Spec, size: string)
    requires Units(spec.pages).Success? && Supported(size)
    ensures Requested(spec.pages, size) ==
            FromArgs(KernelArgs(spec), size) + FromUnits(Units(spec.pages).value, KilobytesOf(size))
  {
    ConservedUpTo(spec.pages, size);
    var args := NodelessArgs(spec.pages);
    var more := args + DUMMY_ARGS;
    assert more[..|more| - 2] == args;
    assert FromArgs(more, size) == FromArgs(args, size);
    assert args + [] == args;
  }

  /** The kernel arguments follow the order of the pages. */
  lemma {:induction false} ArgsInOrder(a: seq<Page>, b: seq<Page>)
    ensures NodelessArgs(a + b) == NodelessArgs(a) + NodelessArgs(b)
    decreases |b|
  {
    if b == [] {
      assert a + b == a;
    } else {
      var n := |b| - 1;
      assert (a + b)[..|a + b| - 1] == a + b[..n];
      ArgsInOrder(a, b[..n]);
    }
  }

  /** Those of one page are its size and its count, if it has no node. */
  lemma ArgsOfOne(p: Page)
    ensures NodelessArgs([p]) == if p.node.None? then [PageSize(p.size), PageCount(p.count)] else []
  {
    assert [p][..0] == [];
  }

  // ----- the dummy arguments -----

  lemma {:induction false} Requested2MMeaning(pages: seq<Page>)
    ensures Requested2M(pages) == Some(true) <==>
            && (exists p | p in pages :: p.size == "2M" && p.node.Some?)
            && (forall p | p in pages && p.size == "2M" :: p.node.Some?)
    ensures Requested2M(pages).None? <==> forall p | p in pages :: p.size != "2M"
  {
    if pages != [] {
      var n := |pages| - 1;
      Requested2MMeaning(pages[..n]);
      assert pages == pages[..n] + [pages[n]];
      assert pages[n] in pages;
    }
  }

  /** Whatever the order of the pages, the dummy 2M arguments follow the real ones exactly when the
      default is 1G, some 2M page names a node and no 2M page lacks one. */
  lemma DummyIff(spec: Spec)
    ensures |KernelArgs(spec)| > |NodelessArgs(spec.pages)| <==>
            && spec.defaultSize == Some("1G")
            && (exists p | p in spec.pages :: p.size == "2M" && p.node.Some?)
            && (forall p | p in spec.pages && p.size == "2M" :: p.node.Some?)
    ensures |KernelArgs(spec)| > |NodelessArgs(spec.pages)| ==>
            KernelArgs(spec) == NodelessArgs(spec.pages) + [PageSize("2M"), PageCount(0)]
  {
    Requested2MMeaning(spec.pages);
  }

  // ----- unit names -----

  lemma CancelPrefix(p: string, a: string, b: string)
    requires p + a == p + b
    ensures a == b
  {
    assert (p + a)[|p|..] == a && (p + b)[|p|..] == b;
  }

  lemma CancelSuffix(a: string, b: string, s: string)
    requires a + s == b + s
    ensures a == b
  {
    assert |a| == |b|;
    assert (a + s)[..|a|] == a && (b + s)[..|b|] == b;
  }

  /** A name made for a node determines what it was made of, when the sizes differ in their first digit. */
  lemma NameDetermines(kb: string, node: int, kb': string, node': int)
    requires kb != [] && kb' != [] && (kb == kb' || kb[0] != kb'[0])
    requires NameFor(kb, node) == NameFor(kb', node')
    ensures kb == kb' && node == node'
  {
    var rest, rest' := "kB-NUMA" + (Decimal(node) + ".service"), "kB-NUMA" + (Decimal(node') + ".service");
    CancelPrefix("hugepages-allocation-", kb + rest, kb' + rest');
    assert (kb + rest)[0] == kb[0] && (kb' + rest')[0] == kb'[0];
    CancelPrefix(kb, rest, rest');
    CancelPrefix("kB-NUMA", Decimal(node) + ".service", Decimal(node') + ".service");
    CancelSuffix(Decimal(node), Decimal(node'), ".service");
    ReadDecimal(node);
    ReadDecimal(node');
  }

  /** A unit name determines the page size and the node. */
  lemma UnitNameInjective(u: Unit, p: Page, v: Unit, q: Page)
    requires Serves(u, p) && Serves(v, q) && u.name == v.name
    ensures p.size == q.size && p.node == q.node
  {
    NameDetermines(if p.size == "1G" then "1048576" else "2048", p.node.value,
                   if q.size == "1G" then "1048576" else "2048", q.node.value);
    assert "1048576"[0] != "2048"[0];
  }

  ghost predicate PairwiseDistinct(names: seq<string>) {
    forall i, j | 0 <= i < j < |names| :: names[i] != names[j]
  }

  /** The pages that name a node. */
  function NodePages(pages: seq<Page>): seq<Page> {
    if pages == [] then [] else
      var n := |pages| - 1;
      NodePages(pages[..n]) + (if pages[n].node.Some? then [pages[n]] else [])
  }

  /** `named` are the pages at the ascending positions `at`, and these are all that name a node. */
  ghost predicate PagesAt(pages: seq<Page>, named: seq<Page>, at: seq<nat>) {
    && |at| == |named|
    && (forall i, j | 0 <= i < j < |at| :: at[i] < at[j])
    && (forall i | 0 <= i < |at| :: at[i] < |pages| && pages[at[i]] == named[i] && named[i].node.Some?)
    && (forall k | 0 <= k < |pages| && pages[k].node.Some? :: k in at)
  }

  lemma PagesAtSame(pages: seq<Page>, named: seq<Page>, at: seq<nat>, p: Page)
    requires PagesAt(pages, named, at) && p.node.None?
    ensures PagesAt(pages + [p], named, at)
  {
    assert forall i | 0 <= i < |pages| :: (pages + [p])[i] == pages[i];
  }

  lemma PagesAtLonger(pages: seq<Page>, named: seq<Page>, at: seq<nat>, p: Page)
    requires PagesAt(pages, named, at) && p.node.Some?
    ensures PagesAt(pages + [p], named + [p], at + [|pages|])
  {
    var longer := at + [|pages|];
    assert forall i | 0 <= i < |pages| :: (pages + [p])[i] == pages[i];
    assert forall k | k in at :: k in longer;
    assert longer[|at|] == |pages|;
  }

  lemma {:induction false} NodePagesAt(pages: seq<Page>) returns (at: seq<nat>)
    ensures PagesAt(pages, NodePages(pages), at)
  {
    at := [];
    if pages != [] {
      var n := |pages| - 1;
      at := NodePagesAt(pages[..n]);
      assert pages == pages[..n] + [pages[n]];
      if pages[n].node.Some? {
        PagesAtLonger(pages[..n], NodePages(pages[..n]), at, pages[n]);
        at := at + [n];
      } else {
        PagesAtSame(pages[..n], NodePages(pages[..n]), at, pages[n]);
      }
    }
  }

  /** The units are made exactly when the sizes of the pages that name a node are supported. */
  lemma {:induction false} UnitsMadeIff(pages: seq<Page>)
    ensures Units(pages).Success? <==> forall p | p in pages && p.node.Some? :: Supported(p.size)
  {
    if pages != [] {
      var n := |pages| - 1;
      UnitsMadeIff(pages[..n]);
      assert pages == pages[..n] + [pages[n]];
      UnsupportedFails(pages[n].size);
    }
  }

  lemma {:induction false} UnitsOfNodePages(pages: seq<Page>)
    requires Units(pages).Success?
    ensures |Units(pages).value| == |NodePages(pages)|
    ensures forall i | 0 <= i < |NodePages(pages)| ::
              var p := NodePages(pages)[i];
              p.node.Some? && Kilobytes(p.size).Success? && Units(pages).value[i] == UnitOf(p)
  {
    if pages != [] {
      UnitsOfNodePages(pages[..|pages| - 1]);
    }
  }

  /** There is one for each of these pages, in their order. */
  lemma UnitsServeTheNodePages(pages: seq<Page>) returns (at: seq<nat>)
    requires Units(pages).Success?
    ensures PagesAt(pages, NodePages(pages), at) && |at| == |Units(pages).value|
    ensures forall i | 0 <= i < |at| :: Serves(Units(pages).value[i], pages[at[i]])
  {
    at := NodePagesAt(pages);
    UnitsOfNodePages(pages);
    forall i | 0 <= i < |at|
      ensures Serves(Units(pages).value[i], pages[at[i]])
    {
      var p := NodePages(pages)[i];
      UnsupportedFails(p.size);
      UnitServes(p);
    }
  }

  lemma RpsNameDiffers(u: Unit, p: Page)
    requires Serves(u, p)
    ensures u.name != "update-rps@.service"
  {
    assert u.name[0] == "hugepages-allocation-"[0] && "hugepages-allocation-"[0] != "update-rps@.service"[0];
  }

  /** The names of all units: those made for the pages, and that of the RPS unit when CPUs are reserved. */
  lemma NamesOfUnits(units: seq<Unit>, reserved: bool)
    ensures |UnitNames(units, reserved)| == |units| + (if reserved then 1 else 0)
    ensures forall i | 0 <= i < |units| :: UnitNames(units, reserved)[i] == units[i].name
    ensures reserved ==> UnitNames(units, reserved)[|units|] == "update-rps@.service"
  {
  }

  /** Validation suffices for generation: without errors every size converts, and all unit names of the
      machine config are different. */
  lemma ValidationSuffices(spec: Spec, reserved: bool)
    requires Errors(Some(spec)) == []
    ensures Units(spec.pages).Success?
    ensures PairwiseDistinct(UnitNames(Units(spec.pages).value, reserved))
  {
    ValidIff(spec);
    UnitsMadeIff(spec.pages);
    var at := UnitsServeTheNodePages(spec.pages);
    var units := Units(spec.pages).value;
    NamesOfUnits(units, reserved);
    forall i, j | 0 <= i < j < |units|
      ensures units[i].name != units[j].name
    {
      NamesOfTwo(units[i], spec.pages[at[i]], units[j], spec.pages[at[j]]);
    }
    forall i | 0 <= i < |units|
      ensures units[i].name != "update-rps@.service"
    {
      RpsNameDiffers(units[i], spec.pages[at[i]]);
    }
  }

  lemma NamesOfTwo(u: Unit, p: Page, v: Unit, q: Page)
    requires Serves(u, p) && Serves(v, q) && !Conflict(p, q)
    ensures u.name != v.name
  {
    if u.name == v.name {
      UnitNameInjective(u, p, v, q);
    }
  }
}
