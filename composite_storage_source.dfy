/** The storage router: the platform is tested on every read, and each
    family's source can be overridden on its own.  What each source's
    read gives is a parameter. */
module CompositeStorageSource {
  import opened Wrappers
  import opened Storage
  import FallbackSources

  /** The storage sources the router can read. */
  datatype StorageSourceClass =
    | Injected(className: string)
    | LinuxStatfs
    | LinuxProc
    | MacOsDf
    | WindowsFFI
    | FreeBSDStatfs

  function ClassName(c: StorageSourceClass): string {
    match c
    case Injected(name) => name
    case LinuxStatfs => "Cbox\\SystemMetrics\\Sources\\Storage\\LinuxStatfsStorageMetricsSource"
    case LinuxProc => "Cbox\\SystemMetrics\\Sources\\Storage\\LinuxProcStorageMetricsSource"
    case MacOsDf => "Cbox\\SystemMetrics\\Sources\\Storage\\MacOsDfStorageMetricsSource"
    case WindowsFFI => "Cbox\\SystemMetrics\\Sources\\Storage\\WindowsFFIStorageMetricsSource"
    case FreeBSDStatfs => "Cbox\\SystemMetrics\\Sources\\Storage\\FreeBSDStatfsStorageMetricsSource"
  }

  /** The four optional constructor arguments. */
  datatype Overrides = Overrides(
    linuxSource: Option<StorageSourceClass>, macosSource: Option<StorageSourceClass>,
    windowsSource: Option<StorageSourceClass>, freebsdSource: Option<StorageSourceClass>)

  /** The Linux default: statfs first, then df. */
  const LinuxChain := [LinuxStatfs, LinuxProc]

  function ChainSources(cs: seq<StorageSourceClass>, readOf: StorageSourceClass -> Result<StorageSnapshot>): seq<FallbackSources.Source<StorageSnapshot>> {
    seq(|cs|, i requires 0 <= i < |cs| => FallbackSources.Source(ClassName(cs[i]), readOf(cs[i])))
  }

  /** The result of the source read() uses for a family it supports:
      the override when there is one, the default otherwise. */
  function OrDefault(o: Option<StorageSourceClass>, default: StorageSourceClass,
                     readOf: StorageSourceClass -> Result<StorageSnapshot>): Result<StorageSnapshot>
  {
    if o.Some? then readOf(o.value) else readOf(default)
  }

  /** read() for the family PHP_OS_FAMILY names at the time of the call. */
  function Read(family: string, o: Overrides, readOf: StorageSourceClass -> Result<StorageSnapshot>): Result<StorageSnapshot> {
    match family
    case "Linux" =>
      if o.linuxSource.Some? then readOf(o.linuxSource.value)
      else FallbackSources.Chain(FallbackSources.StorageFailurePrefix, ChainSources(LinuxChain, readOf))
    case "Darwin" => OrDefault(o.macosSource, MacOsDf, readOf)
    case "Windows" => OrDefault(o.windowsSource, WindowsFFI, readOf)
    case "BSD" => OrDefault(o.freebsdSource, FreeBSDStatfs, readOf)
    case _ => Failure(Error(SystemMetricsError, "Unsupported OS family: " + family))
  }

  /** Each supported family reads its own override or default; any other
      family fails with a message naming it. */
  lemma ReadCases(family: string, o: Overrides, readOf: StorageSourceClass -> Result<StorageSnapshot>)
    ensures var r := Read(family, o, readOf);
      && (family == "Darwin" ==> r == (if o.macosSource.Some? then readOf(o.macosSource.value) else readOf(MacOsDf)))
      && (family == "Windows" ==> r == (if o.windowsSource.Some? then readOf(o.windowsSource.value) else readOf(WindowsFFI)))
      && (family == "BSD" ==> r == (if o.freebsdSource.Some? then readOf(o.freebsdSource.value) else readOf(FreeBSDStatfs)))
      && (family == "Linux" && o.linuxSource.Some? ==> r == readOf(o.linuxSource.value))
      && (family !in {"Linux", "Darwin", "Windows", "BSD"} ==>
            r == Failure(Error(SystemMetricsError, "Unsupported OS family: " + family)))
  {
  }

  /** The Linux default tries statfs first and df second. */
  lemma LinuxDefault(o: Overrides, readOf: StorageSourceClass -> Result<StorageSnapshot>)
    requires o.linuxSource.None?
    ensures var r := Read("Linux", o, readOf);
      && (readOf(LinuxStatfs).Success? ==> r == readOf(LinuxStatfs))
      && (readOf(LinuxStatfs).Failure? && readOf(LinuxProc).Success? ==> r == readOf(LinuxProc))
      && (r.Success? <==> readOf(LinuxStatfs).Success? || readOf(LinuxProc).Success?)
  {
    var ss := ChainSources(LinuxChain, readOf);
    assert ss[0].outcome == readOf(LinuxStatfs);
    assert ss[1].outcome == readOf(LinuxProc);
    FallbackSources.FirstOfTwo(FallbackSources.StorageFailurePrefix, ss);
  }

  /** An override for one family never changes what another family
      reads. */
  lemma OverridesIndependent(family: string, o: Overrides, o': Overrides, readOf: StorageSourceClass -> Result<StorageSnapshot>)
    requires family == "Linux" ==> o.linuxSource == o'.linuxSource
    requires family == "Darwin" ==> o.macosSource == o'.macosSource
    requires family == "Windows" ==> o.windowsSource == o'.windowsSource
    requires family == "BSD" ==> o.freebsdSource == o'.freebsdSource
    ensures Read(family, o, readOf) == Read(family, o', readOf)
  {
  }
}
