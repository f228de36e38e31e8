/** The container-metrics router: an injected source wins; on Linux the
    cgroup source is read; elsewhere the read succeeds with a record that
    says there is no cgroup and measures nothing. */
module CompositeContainerSource {
  import opened Wrappers
  import opened Platform

  /** The cgroup version of the container record. */
  datatype CgroupVersion = V1 | V2 | NoCgroup

  /** ContainerLimits: the version and six optional measurements. */
  datatype ContainerLimits = ContainerLimits(
    cgroupVersion: CgroupVersion,
    cpuQuota: Option<real>, memoryLimitBytes: Option<int>,
    cpuUsageCores: Option<real>, memoryUsageBytes: Option<int>,
    cpuThrottledCount: Option<int>, oomKillCount: Option<int>)

  /** The container sources the router can read. */
  datatype ContainerSourceClass = Injected(className: string) | LinuxCgroup

  /** The record read() gives off Linux. */
  const NoContainer := ContainerLimits(NoCgroup, None, None, None, None, None, None)

  /** read() on the platform of the time of the call. */
  function Read(injected: Option<ContainerSourceClass>, os: Os, readOf: ContainerSourceClass -> Result<ContainerLimits>): Result<ContainerLimits> {
    if injected.Some? then readOf(injected.value)
    else if os.IsLinux() then readOf(LinuxCgroup)
    else Success(NoContainer)
  }

  /** An injected source is read whatever the platform; on Linux the
      cgroup source is; off Linux the read never fails, and its record
      has no cgroup and all six measurements absent. */
  lemma ReadCases(injected: Option<ContainerSourceClass>, os: Os, readOf: ContainerSourceClass -> Result<ContainerLimits>)
    ensures var r := Read(injected, os, readOf);
      && (injected.Some? ==> r == readOf(injected.value))
      && (injected.None? && os.IsLinux() ==> r == readOf(LinuxCgroup))
      && (injected.None? && !os.IsLinux() ==>
            r.Success? && r.value.cgroupVersion == NoCgroup
            && r.value.cpuQuota.None? && r.value.memoryLimitBytes.None? && r.value.cpuUsageCores.None?
            && r.value.memoryUsageBytes.None? && r.value.cpuThrottledCount.None? && r.value.oomKillCount.None?)
  {
  }
}
