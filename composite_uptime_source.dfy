/** The uptime router: an injected source wins; otherwise the platform is
    tested on every read, and a platform without a source gives a
    failure rather than an exception. */
module CompositeUptimeSource {
  import opened Wrappers
  import opened Platform
  import opened Uptime

  /** The uptime sources the router can read. */
  datatype UptimeSourceClass =
    | Injected(className: string)
    | LinuxProcUptime
    | MacOsFFIUptime
    | WindowsFFIUptime
    | FreeBSDSysctlUptime

  const UnsupportedMessage := "Uptime metrics not supported on this platform"

  /** The platform's source, if it has one. */
  function PlatformSource(os: Os): Option<UptimeSourceClass> {
    if os.IsLinux() then Some(LinuxProcUptime)
    else if os.IsMacOs() then Some(MacOsFFIUptime)
    else if os.IsWindows() then Some(WindowsFFIUptime)
    else if os.IsFreeBSD() then Some(FreeBSDSysctlUptime)
    else None
  }

  /** read() on the platform of the time of the call. */
  function Read(injected: Option<UptimeSourceClass>, os: Os, readOf: UptimeSourceClass -> Result<UptimeSnapshot>): Result<UptimeSnapshot> {
    if injected.Some? then readOf(injected.value)
    else match PlatformSource(os)
      case Some(c) => readOf(c)
      case None => Failure(Error(SystemMetricsError, UnsupportedMessage))
  }

  /** An injected source is read whatever the platform; otherwise each
      of the four platforms reads its own source, and any other, a BSD
      that is not FreeBSD included, fails with its fixed message. */
  lemma ReadCases(injected: Option<UptimeSourceClass>, os: Os, readOf: UptimeSourceClass -> Result<UptimeSnapshot>)
    ensures var r := Read(injected, os, readOf);
      && (injected.Some? ==> r == readOf(injected.value))
      && (injected.None? && os.IsLinux() ==> r == readOf(LinuxProcUptime))
      && (injected.None? && os.IsMacOs() ==> r == readOf(MacOsFFIUptime))
      && (injected.None? && os.IsWindows() ==> r == readOf(WindowsFFIUptime))
      && (injected.None? && os.IsFreeBSD() ==> r == readOf(FreeBSDSysctlUptime))
      && (injected.None? && !os.IsLinux() && !os.IsMacOs() && !os.IsWindows() && !os.IsFreeBSD() ==>
            r == Failure(Error(SystemMetricsError, "Uptime metrics not supported on this platform")))
  {
  }
}
