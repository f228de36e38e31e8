/** The macOS storage source: mount points and inodes from `df -ki`
    (mandatory), disk I/O from iostat when it runs and parses. */
module MacOsDfStorageSource {
  import opened Wrappers
  import opened Storage
  import opened Acquisition
  import MacOsDfParser
  import MacOsIostatParser

  const DfCommand := "df -ki"
  const IostatCommand := "iostat -Id disk0 disk1 disk2"
  const DfFailedMessage := "Failed to execute df command"

  /** The disk I/O statistics: iostat's disks, or none when it cannot be
      run or parsed. */
  function DiskIO(iostat: Result<string>): seq<DiskIOStats> {
    if iostat.Success? && MacOsIostatParser.Parsed(iostat.value).Success? then MacOsIostatParser.Parsed(iostat.value).value
    else []
  }

  /** What read returns, given the command outputs. */
  function Read(outcome: string -> Result<string>): Result<StorageSnapshot> {
    var df := outcome(DfCommand);
    if df.Failure? then Failure(Error(SystemMetricsError, DfFailedMessage))
    else
      var mountPoints := MacOsDfParser.Parsed(df.value);
      if mountPoints.Failure? then Failure(mountPoints.error)
      else Success(StorageSnapshot(mountPoints.value, DiskIO(outcome(IostatCommand))))
  }

  /** The commands read runs: iostat only once df has run and parsed. */
  function Commands(outcome: string -> Result<string>): seq<string> {
    var df := outcome(DfCommand);
    if df.Failure? || MacOsDfParser.Parsed(df.value).Failure? then [DfCommand]
    else [DfCommand, IostatCommand]
  }

  method ReadStorage(runner: ProcessRunner) returns (r: Result<StorageSnapshot>)
    modifies runner
    ensures r == Read(runner.outcome)
    ensures runner.executed == old(runner.executed) + Commands(runner.outcome)
  {
    var dfResult := runner.Execute(DfCommand);
    if dfResult.Failure? {
      return Failure(Error(SystemMetricsError, DfFailedMessage));
    }
    var mountPointsResult := MacOsDfParser.Parse(dfResult.value);
    if mountPointsResult.Failure? {
      return Failure(mountPointsResult.error);
    }
    var mountPoints := mountPointsResult.value;

    var diskIO := [];
    var iostatResult := runner.Execute(IostatCommand);
    if iostatResult.Success? {
      var parsedDiskIO := MacOsIostatParser.Parse(iostatResult.value);
      if parsedDiskIO.Success? {
        diskIO := parsedDiskIO.value;
      }
    }
    return Success(StorageSnapshot(mountPoints, diskIO));
  }

  /** read succeeds exactly when df runs and parses, and then holds
      df's mounts as parsed; a df failure always gives the same fixed
      message and a parse failure is passed on unchanged. */
  lemma ReadOutcome(outcome: string -> Result<string>)
    ensures var df := outcome(DfCommand);
      var r := Read(outcome);
      && (r.Success? <==> df.Success? && MacOsDfParser.Parsed(df.value).Success?)
      && (r.Success? ==> r.value.mountPoints == MacOsDfParser.Parsed(df.value).value)
      && (df.Failure? ==> r == Failure(Error(SystemMetricsError, "Failed to execute df command")))
      && (df.Success? && MacOsDfParser.Parsed(df.value).Failure? ==> r == Failure(MacOsDfParser.Parsed(df.value).error))
  {
  }

  /** iostat can never make read fail: when it cannot be run or parsed
      the snapshot has no disk I/O. */
  lemma IostatDegrades(outcome: string -> Result<string>)
    requires Read(outcome).Success?
    ensures var iostat := outcome(IostatCommand);
      && (iostat.Failure? || MacOsIostatParser.Parsed(iostat.value).Failure? ==> Read(outcome).value.diskIO == [])
      && (iostat.Success? && MacOsIostatParser.Parsed(iostat.value).Success? ==>
            Read(outcome).value.diskIO == MacOsIostatParser.Parsed(iostat.value).value)
      && Commands(outcome) == [DfCommand, IostatCommand]
  {
  }
}
