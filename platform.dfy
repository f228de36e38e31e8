/** The platform tests the routers make: PHP_OS_FAMILY and, for FreeBSD,
    the system name php_uname('s') reports.  Both are inputs here. */
module Platform {
  import opened Wrappers
  import opened PhpText

  datatype Os = Os(family: string, systemName: string)
  {
    predicate IsLinux() { family == "Linux" }
    predicate IsMacOs() { family == "Darwin" }
    predicate IsWindows() { family == "Windows" }
    predicate IsBSD() { family == "BSD" }

    /** A BSD family whose system name contains "freebsd" in any case. */
    predicate IsFreeBSD() { family == "BSD" && Contains(ToLower(systemName), "freebsd") }
  }

  /** UnsupportedOperatingSystemException::forOs. */
  function UnsupportedOs(family: string): Error {
    Error(UnsupportedOperatingSystem, "Unsupported operating system: " + family)
  }
}
