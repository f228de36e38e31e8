/** The CPU router: the source is chosen once, at construction, from the
    platform, unless one is injected; read() reads the chosen source.
    What each concrete source's read gives is a parameter. */
module CompositeCpuSource {
  import opened Wrappers
  import opened Platform
  import opened Cpu
  import FallbackSources

  /** The CPU sources the router can read. */
  datatype CpuSourceClass =
    | Injected(className: string)
    | LinuxProcCpu
    | MacOsHostProcessorInfo
    | MacOsSysctlCpu
    | MinimalCpu
    | WindowsFFICpu
    | FreeBSDSysctlCpu

  /** `$source::class` of each source. */
  function ClassName(c: CpuSourceClass): string {
    match c
    case Injected(name) => name
    case LinuxProcCpu => "Cbox\\SystemMetrics\\Sources\\Cpu\\LinuxProcCpuMetricsSource"
    case MacOsHostProcessorInfo => "Cbox\\SystemMetrics\\Sources\\Cpu\\MacOsHostProcessorInfoSource"
    case MacOsSysctlCpu => "Cbox\\SystemMetrics\\Sources\\Cpu\\MacOsSysctlCpuMetricsSource"
    case MinimalCpu => "Cbox\\SystemMetrics\\Sources\\Cpu\\MinimalCpuMetricsSource"
    case WindowsFFICpu => "Cbox\\SystemMetrics\\Sources\\Cpu\\WindowsFFICpuMetricsSource"
    case FreeBSDSysctlCpu => "Cbox\\SystemMetrics\\Sources\\Cpu\\FreeBSDSysctlCpuMetricsSource"
  }

  /** A single source, or a fallback chain of sources. */
  datatype Route = Direct(source: CpuSourceClass) | Chain(sources: seq<CpuSourceClass>)

  /** The macOS chain, in priority order: host_processor_info, then
      sysctl, then the source of last resort. */
  const MacOsChain := [MacOsHostProcessorInfo, MacOsSysctlCpu, MinimalCpu]

  /** createSource: the route for the platform, or the exception the
      constructor throws on any other platform. */
  function CreateSource(os: Os): Result<Route> {
    if os.IsLinux() then Success(Direct(LinuxProcCpu))
    else if os.IsMacOs() then Success(Chain(MacOsChain))
    else if os.IsWindows() then Success(Direct(WindowsFFICpu))
    else if os.IsFreeBSD() then Success(Direct(FreeBSDSysctlCpu))
    else Failure(UnsupportedOs(os.family))
  }

  function ChainSources(cs: seq<CpuSourceClass>, readOf: CpuSourceClass -> Result<CpuSnapshot>): seq<FallbackSources.Source<CpuSnapshot>> {
    seq(|cs|, i requires 0 <= i < |cs| => FallbackSources.Source(ClassName(cs[i]), readOf(cs[i])))
  }

  /** What reading a route gives. */
  function RouteRead(route: Route, readOf: CpuSourceClass -> Result<CpuSnapshot>): Result<CpuSnapshot> {
    match route
    case Direct(c) => readOf(c)
    case Chain(cs) => FallbackSources.Chain(FallbackSources.CpuFailurePrefix, ChainSources(cs, readOf))
  }

  class CompositeCpuMetricsSource {
    /** Chosen once, at construction. */
    const source: Route

    constructor Of(source: Route)
      ensures this.source == source
    {
      this.source := source;
    }

    /** The PHP constructor: an injected source is used as it is, with
        no platform test; otherwise createSource decides, and throws on
        an unsupported platform. */
    static method Create(injected: Option<CpuSourceClass>, os: Os) returns (r: Result<CompositeCpuMetricsSource>)
      ensures injected.Some? ==> r.Success? && r.value.source == Direct(injected.value)
      ensures injected.None? ==> (r.Success? <==> CreateSource(os).Success?)
      ensures injected.None? && r.Success? ==> r.value.source == CreateSource(os).value
      ensures injected.None? && r.Failure? ==> r.error == CreateSource(os).error
      ensures r.Success? ==> fresh(r.value)
    {
      if injected.Some? {
        var c := new CompositeCpuMetricsSource.Of(Direct(injected.value));
        return Success(c);
      }
      var route := CreateSource(os);
      if route.Failure? {
        return Failure(route.error);
      }
      var c := new CompositeCpuMetricsSource.Of(route.value);
      return Success(c);
    }

    /** read(): the chosen source's result, unchanged. */
    method Read(readOf: CpuSourceClass -> Result<CpuSnapshot>) returns (r: Result<CpuSnapshot>)
      ensures r == RouteRead(source, readOf)
    {
      match source
      case Direct(c) =>
        r := readOf(c);
      case Chain(cs) =>
        ghost var tried;
        r, tried := FallbackSources.ReadCpu(ChainSources(cs, readOf));
    }
  }

  /** Construction fails exactly off the four supported platforms, with
      the family in the message; any BSD that is not FreeBSD is among
      them. */
  lemma CreateSourceCases(os: Os)
    ensures CreateSource(os).Failure? <==> !os.IsLinux() && !os.IsMacOs() && !os.IsWindows() && !os.IsFreeBSD()
    ensures CreateSource(os).Failure? ==>
      CreateSource(os).error == Error(UnsupportedOperatingSystem, "Unsupported operating system: " + os.family)
    ensures os.IsLinux() ==> CreateSource(os) == Success(Direct(LinuxProcCpu))
    ensures os.IsMacOs() ==> CreateSource(os) == Success(Chain([MacOsHostProcessorInfo, MacOsSysctlCpu, MinimalCpu]))
    ensures os.IsWindows() ==> CreateSource(os) == Success(Direct(WindowsFFICpu))
    ensures os.IsFreeBSD() ==> CreateSource(os) == Success(Direct(FreeBSDSysctlCpu))
  {
  }

  /** On macOS the first of host_processor_info, sysctl and the source
      of last resort that succeeds decides; later ones are not read; when
      all three fail, so does read. */
  lemma MacOsPriority(readOf: CpuSourceClass -> Result<CpuSnapshot>)
    ensures var r := RouteRead(Chain(MacOsChain), readOf);
      var host := readOf(MacOsHostProcessorInfo);
      var sysctl := readOf(MacOsSysctlCpu);
      var minimal := readOf(MinimalCpu);
      && (host.Success? ==> r == host)
      && (host.Failure? && sysctl.Success? ==> r == sysctl)
      && (host.Failure? && sysctl.Failure? && minimal.Success? ==> r == minimal)
      && (host.Failure? && sysctl.Failure? && minimal.Failure? ==> r.Failure?)
  {
    var ss := ChainSources(MacOsChain, readOf);
    assert ss[0].outcome == readOf(MacOsHostProcessorInfo);
    assert ss[1].outcome == readOf(MacOsSysctlCpu);
    assert ss[2].outcome == readOf(MinimalCpu);
    FallbackSources.FirstOfThree(FallbackSources.CpuFailurePrefix, ss);
  }
}
