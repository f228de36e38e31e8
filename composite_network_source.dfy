/** The network router: the platform is tested on every read; Linux and
    macOS each have a source that can be overridden, every other family
    fails. */
module CompositeNetworkSource {
  import opened Wrappers
  import opened Network

  /** The network sources the router can read. */
  datatype NetworkSourceClass = Injected(className: string) | LinuxProcNetwork | MacOsNetstatNetwork

  /** read() for the family PHP_OS_FAMILY names at the time of the call. */
  function Read(family: string, linuxSource: Option<NetworkSourceClass>, macosSource: Option<NetworkSourceClass>,
                readOf: NetworkSourceClass -> Result<NetworkSnapshot>): Result<NetworkSnapshot>
  {
    match family
    case "Linux" => if linuxSource.Some? then readOf(linuxSource.value) else readOf(LinuxProcNetwork)
    case "Darwin" => if macosSource.Some? then readOf(macosSource.value) else readOf(MacOsNetstatNetwork)
    case _ => Failure(Error(SystemMetricsError, "Unsupported OS family: " + family))
  }

  /** Linux and macOS read their override or default; every other
      family, Windows and BSD included, fails with a message that names
      it; an override for one family never changes the other's read. */
  lemma ReadCases(family: string, linuxSource: Option<NetworkSourceClass>, macosSource: Option<NetworkSourceClass>,
                  readOf: NetworkSourceClass -> Result<NetworkSnapshot>)
    ensures var r := Read(family, linuxSource, macosSource, readOf);
      && (family == "Linux" ==> r == readOf(if linuxSource.Some? then linuxSource.value else LinuxProcNetwork))
      && (family == "Darwin" ==> r == readOf(if macosSource.Some? then macosSource.value else MacOsNetstatNetwork))
      && (family != "Linux" && family != "Darwin" ==>
            r.Failure? && r.error.kind == SystemMetricsError && r.error.message == "Unsupported OS family: " + family)
      && (family == "Linux" ==> forall m :: Read(family, linuxSource, m, readOf) == r)
      && (family == "Darwin" ==> forall l :: Read(family, l, macosSource, readOf) == r)
  {
  }
}
