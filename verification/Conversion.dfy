/**
  Conversions between the API versions of a profile: v2 and v1alpha1 against the
  hub version v1 (api/v2/performanceprofile_conversion.go and
  api/v1alpha1/performanceprofile_conversion.go). Each conversion fills a
  destination object and leaves alone every field that the source does not set.
 */
module Conversion {
  import opened Prelude
  import HP = HugePages

  type Labels = map<string, string>

  datatype Cpu = Cpu(reserved: Option<string>, isolated: Option<string>, balanceIsolated: Option<bool>)

  datatype HugePageSpec = HugePageSpec(defaultSize: Option<string>, pages: Option<seq<HP.Page>>)

  datatype RealTimeKernel = RealTimeKernel(enabled: Option<bool>)

  datatype Numa = Numa(topologyPolicy: Option<string>)

  datatype Device = Device(vendor: Option<string>, device: Option<string>, interfaceName: Option<string>)

  datatype Net = Net(userLevel: Option<bool>, devices: Option<seq<Device>>)

  /** The part of the specification that all versions have; it is the whole of v1alpha1's. */
  datatype Common = Common(
    cpu: Option<Cpu>,
    hugePages: Option<HugePageSpec>,
    machineConfigLabel: Option<Labels>,
    poolSelector: Option<Labels>,
    nodeSelector: Option<Labels>,
    realTime: Option<RealTimeKernel>,
    kernelArgs: Option<seq<string>>,
    numa: Option<Numa>)

  /** The specification of v1 and v2. */
  datatype Spec = Spec(common: Common, net: Option<Net>, disableIrqBalancing: Option<bool>)

  datatype Status<C> = Status(conditions: Option<seq<C>>, tuned: Option<string>, runtimeClass: Option<string>)

  /** The content of a profile of some version. */
  datatype Profile<M, S, C> = Profile(meta: M, spec: S, status: Status<C>)

  // ----- fresh destinations -----

  const NOTHING := Common(None, None, None, None, None, None, None, None)

  function NoStatus<C>(): Status<C> {
    Status(None, None, None)
  }

  /** A destination that sets nothing. */
  function Fresh<M, C>(meta: M): Profile<M, Spec, C> {
    Profile(meta, Spec(NOTHING, None, None), NoStatus())
  }

  function FreshAlpha<M, C>(meta: M): Profile<M, Common, C> {
    Profile(meta, NOTHING, NoStatus())
  }

  // ----- what a conversion leaves in a destination -----

  function Over<T>(src: Option<T>, dst: Option<T>): Option<T> {
    if src.Some? then src else dst
  }

  function CommonOver(src: Common, dst: Common): Common {
    Common(Over(src.cpu, dst.cpu), Over(src.hugePages, dst.hugePages),
           Over(src.machineConfigLabel, dst.machineConfigLabel), Over(src.poolSelector, dst.poolSelector),
           Over(src.nodeSelector, dst.nodeSelector), Over(src.realTime, dst.realTime),
           Over(src.kernelArgs, dst.kernelArgs), Over(src.numa, dst.numa))
  }

  function StatusOver<C>(src: Status<C>, dst: Status<C>): Status<C> {
    Status(Over(src.conditions, dst.conditions), Over(src.tuned, dst.tuned), Over(src.runtimeClass, dst.runtimeClass))
  }

  /** v2 to v1 */
  function V2ToHub<M, C>(src: Profile<M, Spec, C>, dst: Profile<M, Spec, C>): Profile<M, Spec, C> {
    Profile(src.meta,
            Spec(CommonOver(src.spec.common, dst.spec.common), Over(src.spec.net, dst.spec.net),
                 Over(src.spec.disableIrqBalancing, dst.spec.disableIrqBalancing)),
            StatusOver(src.status, dst.status))
  }

  /** v1 to v2, which disables IRQ balancing where v1 says nothing */
  function HubToV2<M, C>(src: Profile<M, Spec, C>, dst: Profile<M, Spec, C>): Profile<M, Spec, C> {
    Profile(src.meta,
            Spec(CommonOver(src.spec.common, dst.spec.common), Over(src.spec.net, dst.spec.net),
                 Over(src.spec.disableIrqBalancing, Some(true))),
            StatusOver(src.status, dst.status))
  }

  /** v1alpha1 to v1 */
  function AlphaToHub<M, C>(src: Profile<M, Common, C>, dst: Profile<M, Spec, C>): Profile<M, Spec, C> {
    Profile(src.meta, dst.spec.(common := CommonOver(src.spec, dst.spec.common)), StatusOver(src.status, dst.status))
  }

  /** v1 to v1alpha1 */
  function HubToAlpha<M, C>(src: Profile<M, Spec, C>, dst: Profile<M, Common, C>): Profile<M, Common, C> {
    Profile(src.meta, CommonOver(src.spec.common, dst.spec), StatusOver(src.status, dst.status))
  }

  // ----- the parts -----

  method CopyLabels(m: Labels) returns (r: Labels)
    ensures r == m
  {
    r := map[];
    var todo := m.Keys;
    while todo != {}
      invariant todo <= m.Keys && r.Keys == m.Keys - todo
      invariant forall k | k in r :: r[k] == m[k]
    {
      var k :| k in todo;
      r := r[k := m[k]];
      todo := todo - {k};
    }
  }

  method ConvertLabels(m: Option<Labels>, before: Option<Labels>) returns (r: Option<Labels>)
    ensures r == Over(m, before)
  {
    r := before;
    if m.Some? {
      var copy := CopyLabels(m.value);
      r := Some(copy);
    }
  }

  method ConvertCpu(c: Cpu) returns (r: Cpu)
    ensures r == c
  {
    r := Cpu(None, None, None);
    if c.reserved.Some? { r := r.(reserved := Some(c.reserved.value)); }
    if c.isolated.Some? { r := r.(isolated := Some(c.isolated.value)); }
    if c.balanceIsolated.Some? { r := r.(balanceIsolated := Some(c.balanceIsolated.value)); }
  }

  method ConvertHugePages(h: HugePageSpec) returns (r: HugePageSpec)
    ensures r == h
  {
    r := HugePageSpec(None, None);
    if h.defaultSize.Some? { r := r.(defaultSize := Some(h.defaultSize.value)); }
    if h.pages.Some? {
      var pages: seq<HP.Page> := [];
      for i := 0 to |h.pages.value|
        invariant pages == h.pages.value[..i]
      {
        var p := h.pages.value[i];
        var page := HP.Page(p.size, p.count, None);
        if p.node.Some? { page := page.(node := Some(p.node.value)); }
        pages := pages + [page];
      }
      assert h.pages.value[..|h.pages.value|] == h.pages.value;
      r := r.(pages := Some(pages));
    }
  }

  method ConvertNet(n: Net) returns (r: Net)
    ensures r == n
  {
    r := Net(None, None);
    if n.userLevel.Some? { r := r.(userLevel := Some(n.userLevel.value)); }
    if n.devices.Some? {
      var devices: seq<Device> := [];
      for i := 0 to |n.devices.value|
        invariant devices == n.devices.value[..i]
      {
        var d := n.devices.value[i];
        var device := Device(None, None, None);
        if d.vendor.Some? { device := device.(vendor := Some(d.vendor.value)); }
        if d.device.Some? { device := device.(device := Some(d.device.value)); }
        if d.interfaceName.Some? { device := device.(interfaceName := Some(d.interfaceName.value)); }
        devices := devices + [device];
      }
      assert n.devices.value[..|n.devices.value|] == n.devices.value;
      r := r.(devices := Some(devices));
    }
  }

  method ConvertCommon(src: Common, before: Common) returns (dst: Common)
    ensures dst == CommonOver(src, before)
  {
    dst := before;
    if src.cpu.Some? {
      var cpu := ConvertCpu(src.cpu.value);
      dst := dst.(cpu := Some(cpu));
    }
    if src.hugePages.Some? {
      var hugePages := ConvertHugePages(src.hugePages.value);
      dst := dst.(hugePages := Some(hugePages));
    }
    var machineConfig := ConvertLabels(src.machineConfigLabel, dst.machineConfigLabel);
    dst := dst.(machineConfigLabel := machineConfig);
    var pool := ConvertLabels(src.poolSelector, dst.poolSelector);
    dst := dst.(poolSelector := pool);
    var node := ConvertLabels(src.nodeSelector, dst.nodeSelector);
    dst := dst.(nodeSelector := node);
    if src.realTime.Some? {
      dst := dst.(realTime := Some(RealTimeKernel(None)));
      if src.realTime.value.enabled.Some? {
        dst := dst.(realTime := Some(RealTimeKernel(Some(src.realTime.value.enabled.value))));
      }
    }
    if src.kernelArgs.Some? { dst := dst.(kernelArgs := Some(src.kernelArgs.value)); }
    if src.numa.Some? {
      dst := dst.(numa := Some(Numa(None)));
      if src.numa.value.topologyPolicy.Some? {
        dst := dst.(numa := Some(Numa(Some(src.numa.value.topologyPolicy.value))));
      }
    }
  }

  method ConvertStatus<C>(src: Status<C>, before: Status<C>) returns (dst: Status<C>)
    ensures dst == StatusOver(src, before)
  {
    dst := before;
    if src.conditions.Some? { dst := dst.(conditions := Some(src.conditions.value)); }
    if src.tuned.Some? { dst := dst.(tuned := Some(src.tuned.value)); }
    if src.runtimeClass.Some? { dst := dst.(runtimeClass := Some(src.runtimeClass.value)); }
  }

  // ----- the objects -----

  /** A profile of the hub version v1. */
  class Hub<M, C> {
    var meta: M
    var spec: Spec
    var status: Status<C>

    constructor (meta: M)
      ensures Value() == Fresh(meta)
    {
      this.meta, spec, status := meta, Spec(NOTHING, None, None), NoStatus();
    }

    function Value(): Profile<M, Spec, C>
      reads this
    {
      Profile(meta, spec, status)
    }
  }

  /** A profile of version v2. */
  class ProfileV2<M, C> {
    var meta: M
    var spec: Spec
    var status: Status<C>

    constructor (meta: M)
      ensures Value() == Fresh(meta)
    {
      this.meta, spec, status := meta, Spec(NOTHING, None, None), NoStatus();
    }

    function Value(): Profile<M, Spec, C>
      reads this
    {
      Profile(meta, spec, status)
    }

    method ConvertTo(dst: Hub<M, C>)
      modifies dst
      ensures dst.Value() == V2ToHub(Value(), old(dst.Value()))
    {
      dst.meta := meta;
      var common := ConvertCommon(spec.common, dst.spec.common);
      dst.spec := dst.spec.(common := common);
      if spec.net.Some? {
        var net := ConvertNet(spec.net.value);
        dst.spec := dst.spec.(net := Some(net));
      }
      if spec.disableIrqBalancing.Some? {
        dst.spec := dst.spec.(disableIrqBalancing := Some(spec.disableIrqBalancing.value));
      }
      dst.status := ConvertStatus(status, dst.status);
    }

    method ConvertFrom(src: Hub<M, C>)
      modifies this
      ensures Value() == HubToV2(src.Value(), old(Value()))
    {
      meta := src.meta;
      var common := ConvertCommon(src.spec.common, spec.common);
      spec := spec.(common := common);
      if src.spec.net.Some? {
        var net := ConvertNet(src.spec.net.value);
        spec := spec.(net := Some(net));
      }
      if src.spec.disableIrqBalancing.Some? {
        spec := spec.(disableIrqBalancing := Some(src.spec.disableIrqBalancing.value));
      } else {
        spec := spec.(disableIrqBalancing := Some(true));
      }
      status := ConvertStatus(src.status, status);
    }
  }

  /** A profile of version v1alpha1. */
  class ProfileAlpha<M, C> {
    var meta: M
    var spec: Common
    var status: Status<C>

    constructor (meta: M)
      ensures Value() == FreshAlpha(meta)
    {
      this.meta, spec, status := meta, NOTHING, NoStatus();
    }

    function Value(): Profile<M, Common, C>
      reads this
    {
      Profile(meta, spec, status)
    }

    method ConvertTo(dst: Hub<M, C>)
      modifies dst
      ensures dst.Value() == AlphaToHub(Value(), old(dst.Value()))
    {
      dst.meta := meta;
      var common := ConvertCommon(spec, dst.spec.common);
      dst.spec := dst.spec.(common := common);
      dst.status := ConvertStatus(status, dst.status);
    }

    method ConvertFrom(src: Hub<M, C>)
      modifies this
      ensures Value() == HubToAlpha(src.Value(), old(Value()))
    {
      meta := src.meta;
      spec := ConvertCommon(src.spec.common, spec);
      status := ConvertStatus(src.status, status);
    }
  }
}
