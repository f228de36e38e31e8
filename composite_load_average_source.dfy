/** The load-average router: the source is chosen once, at construction;
    on a platform without one, construction still succeeds and every
    read() fails instead. */
module CompositeLoadAverageSource {
  import opened Wrappers
  import opened Platform
  import opened LoadAverage

  /** The load-average sources the router can read. */
  datatype LoadAverageSourceClass = Injected(className: string) | LinuxProcLoadAverage | MacOsFFILoadAverage

  /** createOsSpecificSource: Linux and macOS have a source, no other
      platform does. */
  function CreateOsSpecificSource(os: Os): Option<LoadAverageSourceClass> {
    if os.IsLinux() then Some(LinuxProcLoadAverage)
    else if os.IsMacOs() then Some(MacOsFFILoadAverage)
    else None
  }

  /** What read() gives: the chosen source's result, or the unsupported
      platform failure when there is none. */
  function ReadOf(source: Option<LoadAverageSourceClass>, family: string,
                  readOf: LoadAverageSourceClass -> Result<LoadAverageSnapshot>): Result<LoadAverageSnapshot>
  {
    match source
    case None => Failure(UnsupportedOs(family))
    case Some(c) => readOf(c)
  }

  class CompositeLoadAverageSource {
    /** Chosen once, at construction. */
    const source: Option<LoadAverageSourceClass>
    /** PHP_OS_FAMILY, fixed for the process. */
    const family: string

    /** An injected source is used as it is, with no platform test;
        construction never fails. */
    constructor(injected: Option<LoadAverageSourceClass>, os: Os)
      ensures source == if injected.Some? then injected else CreateOsSpecificSource(os)
      ensures family == os.family
    {
      source := if injected.Some? then injected else CreateOsSpecificSource(os);
      family := os.family;
    }

    method Read(readOf: LoadAverageSourceClass -> Result<LoadAverageSnapshot>) returns (r: Result<LoadAverageSnapshot>)
      ensures r == ReadOf(source, family, readOf)
    {
      if source.None? {
        return Failure(UnsupportedOs(family));
      }
      r := readOf(source.value);
    }
  }

  /** Without an injected source, read fails with the unsupported
      platform error exactly off Linux and macOS, and otherwise gives
      the platform source's result unchanged. */
  lemma ReadCases(os: Os, readOf: LoadAverageSourceClass -> Result<LoadAverageSnapshot>)
    ensures var r := ReadOf(CreateOsSpecificSource(os), os.family, readOf);
      && (os.IsLinux() ==> r == readOf(LinuxProcLoadAverage))
      && (os.IsMacOs() ==> r == readOf(MacOsFFILoadAverage))
      && (!os.IsLinux() && !os.IsMacOs() ==>
            r == Failure(Error(UnsupportedOperatingSystem, "Unsupported operating system: " + os.family)))
  {
  }

  /** An injected source is read whatever the platform. */
  lemma InjectedWins(c: LoadAverageSourceClass, family: string, readOf: LoadAverageSourceClass -> Result<LoadAverageSnapshot>)
    ensures ReadOf(Some(c), family, readOf) == readOf(c)
  {
  }
}
