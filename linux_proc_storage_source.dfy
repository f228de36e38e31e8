/** The Linux storage source: disk I/O from /proc/diskstats when it can be
    read and parsed, mount points from `df -k` (mandatory), and inode
    counts from `df -i` merged in when that works.  The parsers are
    constructor arguments of the source, so they are parameters here:
    the df parser defaults to LinuxDfParser (Parsed for `df -k`,
    ParsedInodes for `df -i`), and the diskstats parser is not part of
    this model. */
module LinuxProcStorageSource {
  import opened Wrappers
  import opened Storage
  import opened Acquisition
  import opened PhpText
  import LinuxDfParser

  const DiskstatsPath := "/proc/diskstats"
  const DfCommand := "df -k"
  const DfInodesCommand := "df -i"
  const DfFailedMessage := "Failed to execute df command"

  /** The disk I/O statistics: the parsed diskstats, or none when the
      file cannot be read or parsed. */
  function DiskIO(diskstats: Result<string>, parseDiskstats: string -> Result<seq<DiskIOStats>>): seq<DiskIOStats> {
    if diskstats.Success? && parseDiskstats(diskstats.value).Success? then parseDiskstats(diskstats.value).value
    else []
  }

  /** A mount with the inode counts df -i reported for its mount point,
      or unchanged when df -i reported none. */
  function WithInodes(m: MountPoint, inodeData: map<string, LinuxDfParser.InodeCounts>): MountPoint {
    if m.mountPoint in inodeData then
      var inodes := inodeData[m.mountPoint];
      m.(totalInodes := inodes.total, usedInodes := inodes.used, freeInodes := inodes.free)
    else m
  }

  /** The array_map of the merge. */
  function MergeInodes(mounts: seq<MountPoint>, inodeData: map<string, LinuxDfParser.InodeCounts>): seq<MountPoint> {
    seq(|mounts|, i requires 0 <= i < |mounts| => WithInodes(mounts[i], inodeData))
  }

  /** The mounts after the optional df -i step: merged when df -i runs
      and parses, as parsed from df -k otherwise. */
  function InodesMerged(mounts: seq<MountPoint>, dfInodes: Result<string>, parseInodes: string -> Result<map<string, LinuxDfParser.InodeCounts>>): seq<MountPoint> {
    if dfInodes.Success? && parseInodes(dfInodes.value).Success? then
      MergeInodes(mounts, parseInodes(dfInodes.value).value)
    else mounts
  }

  /** What read returns, given the file contents, the command outputs and
      the parsers. */
  function Read(contents: string -> Result<string>, outcome: string -> Result<string>,
                parseDiskstats: string -> Result<seq<DiskIOStats>>, parseDf: string -> Result<seq<MountPoint>>, parseInodes: string -> Result<map<string, LinuxDfParser.InodeCounts>>): Result<StorageSnapshot>
  {
    var diskIO := DiskIO(contents(DiskstatsPath), parseDiskstats);
    var df := outcome(DfCommand);
    if df.Failure? then Failure(Error(SystemMetricsError, DfFailedMessage))
    else
      var mountPoints := parseDf(df.value);
      if mountPoints.Failure? then Failure(mountPoints.error)
      else Success(StorageSnapshot(InodesMerged(mountPoints.value, outcome(DfInodesCommand), parseInodes), diskIO))
  }

  /** The commands read runs: df -i only once df -k has run and parsed. */
  function Commands(outcome: string -> Result<string>, parseDf: string -> Result<seq<MountPoint>>): seq<string> {
    var df := outcome(DfCommand);
    if df.Failure? || parseDf(df.value).Failure? then [DfCommand]
    else [DfCommand, DfInodesCommand]
  }

  method ReadStorage(reader: FileReader, runner: ProcessRunner,
                     parseDiskstats: string -> Result<seq<DiskIOStats>>, parseDf: string -> Result<seq<MountPoint>>, parseInodes: string -> Result<map<string, LinuxDfParser.InodeCounts>>)
    returns (r: Result<StorageSnapshot>)
    modifies reader, runner
    ensures r == Read(reader.contents, runner.outcome, parseDiskstats, parseDf, parseInodes)
    ensures reader.readPaths == old(reader.readPaths) + [DiskstatsPath]
    ensures runner.executed == old(runner.executed) + Commands(runner.outcome, parseDf)
  {
    var diskstatsResult := reader.Read(DiskstatsPath);
    var diskIO := [];
    if diskstatsResult.Success? {
      var parsedDiskIO := parseDiskstats(diskstatsResult.value);
      if parsedDiskIO.Success? {
        diskIO := parsedDiskIO.value;
      }
    }

    var dfResult := runner.Execute(DfCommand);
    if dfResult.Failure? {
      return Failure(Error(SystemMetricsError, DfFailedMessage));
    }
    var mountPointsResult := parseDf(dfResult.value);
    if mountPointsResult.Failure? {
      return Failure(mountPointsResult.error);
    }
    var mountPoints := mountPointsResult.value;

    var dfInodesResult := runner.Execute(DfInodesCommand);
    if dfInodesResult.Success? {
      var inodeDataResult := parseInodes(dfInodesResult.value);
      if inodeDataResult.Success? {
        mountPoints := MergeInodes(mountPoints, inodeDataResult.value);
      }
    }
    return Success(StorageSnapshot(mountPoints, diskIO));
  }

  /** read succeeds exactly when df -k runs and parses; a df -k failure
      always gives the same fixed message, whatever its own error, and a
      parse failure is passed on unchanged. */
  lemma ReadOutcome(contents: string -> Result<string>, outcome: string -> Result<string>,
                    parseDiskstats: string -> Result<seq<DiskIOStats>>, parseDf: string -> Result<seq<MountPoint>>, parseInodes: string -> Result<map<string, LinuxDfParser.InodeCounts>>)
    ensures var df := outcome(DfCommand);
      var r := Read(contents, outcome, parseDiskstats, parseDf, parseInodes);
      && (r.Success? <==> df.Success? && parseDf(df.value).Success?)
      && (df.Failure? ==> r == Failure(Error(SystemMetricsError, "Failed to execute df command")))
      && (df.Success? && parseDf(df.value).Failure? ==> r == Failure(parseDf(df.value).error))
  {
  }

  /** With the default df parser, blank df -k output fails with that
      parser's own "too short" error, and df -i is never run. */
  lemma BlankDf(contents: string -> Result<string>, outcome: string -> Result<string>,
                parseDiskstats: string -> Result<seq<DiskIOStats>>)
    requires outcome(DfCommand).Success? && Trim(outcome(DfCommand).value) == ""
    ensures Read(contents, outcome, parseDiskstats, LinuxDfParser.Parsed, LinuxDfParser.ParsedInodes)
      == Failure(Error(ParseError, "df output too short"))
    ensures Commands(outcome, LinuxDfParser.Parsed) == [DfCommand]
  {
    LinuxDfParser.ParseTooShort(outcome(DfCommand).value);
  }

  /** diskstats can never make read fail: when it cannot be read or
      parsed the snapshot has no disk I/O. */
  lemma DiskstatsDegrades(contents: string -> Result<string>, outcome: string -> Result<string>,
                          parseDiskstats: string -> Result<seq<DiskIOStats>>, parseDf: string -> Result<seq<MountPoint>>, parseInodes: string -> Result<map<string, LinuxDfParser.InodeCounts>>)
    requires Read(contents, outcome, parseDiskstats, parseDf, parseInodes).Success?
    ensures var s := Read(contents, outcome, parseDiskstats, parseDf, parseInodes).value;
      var diskstats := contents(DiskstatsPath);
      && (diskstats.Failure? || parseDiskstats(diskstats.value).Failure? ==> s.diskIO == [])
      && (diskstats.Success? && parseDiskstats(diskstats.value).Success? ==> s.diskIO == parseDiskstats(diskstats.value).value)
  {
  }

  /** df -i can never make read fail: when it cannot be run or parsed
      the mounts are exactly as df -k gave them, and it runs only after
      df -k has run and parsed. */
  lemma InodesDegrade(contents: string -> Result<string>, outcome: string -> Result<string>,
                      parseDiskstats: string -> Result<seq<DiskIOStats>>, parseDf: string -> Result<seq<MountPoint>>, parseInodes: string -> Result<map<string, LinuxDfParser.InodeCounts>>)
    requires Read(contents, outcome, parseDiskstats, parseDf, parseInodes).Success?
    ensures var dfInodes := outcome(DfInodesCommand);
      var df := parseDf(outcome(DfCommand).value);
      && (dfInodes.Failure? || parseInodes(dfInodes.value).Failure? ==>
            Read(contents, outcome, parseDiskstats, parseDf, parseInodes).value.mountPoints == df.value)
      && Commands(outcome, parseDf) == [DfCommand, DfInodesCommand]
  {
  }

  /** The merge keeps the order and the number of mounts; a mount whose
      mount point has an entry takes that entry's three inode counts and
      keeps every other field; any other mount is unchanged. */
  lemma MergeInodesFields(mounts: seq<MountPoint>, inodeData: map<string, LinuxDfParser.InodeCounts>, i: int)
    requires 0 <= i < |mounts|
    ensures var r := MergeInodes(mounts, inodeData);
      var m := mounts[i];
      && |r| == |mounts|
      && r[i].device == m.device && r[i].mountPoint == m.mountPoint && r[i].fsType == m.fsType
      && r[i].totalBytes == m.totalBytes && r[i].usedBytes == m.usedBytes && r[i].availableBytes == m.availableBytes
      && (m.mountPoint in inodeData ==>
            r[i].totalInodes == inodeData[m.mountPoint].total
            && r[i].usedInodes == inodeData[m.mountPoint].used
            && r[i].freeInodes == inodeData[m.mountPoint].free)
      && (m.mountPoint !in inodeData ==> r[i] == m)
  {
  }

  /** Merging the same inode data twice changes nothing more. */
  lemma MergeInodesIdempotent(mounts: seq<MountPoint>, inodeData: map<string, LinuxDfParser.InodeCounts>)
    ensures MergeInodes(MergeInodes(mounts, inodeData), inodeData) == MergeInodes(mounts, inodeData)
  {
  }
}
