/** Mounted filesystems, disk I/O counters and the storage snapshot that
    aggregates them, plus the classifier that maps a filesystem name to
    its type. */
module Storage {
  import opened Wrappers
  import opened PhpText
  import Seqs
  import opened Ratio

  // ---------------------------------------------------------------
  // FileSystemType
  // ---------------------------------------------------------------

  datatype FileSystemType =
    | Ext2 | Ext3 | Ext4 | Xfs | Btrfs | Zfs | Ufs | Apfs | Hfs | HfsPlus
    | Ntfs | Fat32 | Exfat | Tmpfs | Devtmpfs | Nfs | Cifs | Fuse | Other
  {
    /** The enum's backing string. */
    function Value(): string {
      match this
      case Ext2 => "ext2"
      case Ext3 => "ext3"
      case Ext4 => "ext4"
      case Xfs => "xfs"
      case Btrfs => "btrfs"
      case Zfs => "zfs"
      case Ufs => "ufs"
      case Apfs => "apfs"
      case Hfs => "hfs"
      case HfsPlus => "hfs+"
      case Ntfs => "ntfs"
      case Fat32 => "fat32"
      case Exfat => "exfat"
      case Tmpfs => "tmpfs"
      case Devtmpfs => "devtmpfs"
      case Nfs => "nfs"
      case Cifs => "cifs"
      case Fuse => "fuse"
      case Other => "other"
    }
  }

  /** The type a normalised name stands for; Other when it is unknown. */
  function TypeOfName(n: string): FileSystemType {
    match n
    case "ext2" => Ext2
    case "ext3" => Ext3
    case "ext4" => Ext4
    case "xfs" => Xfs
    case "btrfs" => Btrfs
    case "zfs" => Zfs
    case "ufs" => Ufs
    case "ffs" => Ufs
    case "apfs" => Apfs
    case "hfs" => Hfs
    case "hfs+" => HfsPlus
    case "hfsplus" => HfsPlus
    case "ntfs" => Ntfs
    case "fat32" => Fat32
    case "vfat" => Fat32
    case "msdos" => Fat32
    case "exfat" => Exfat
    case "tmpfs" => Tmpfs
    case "devtmpfs" => Devtmpfs
    case "nfs" => Nfs
    case "nfs4" => Nfs
    case "cifs" => Cifs
    case "smb" => Cifs
    case "fuse" => Fuse
    case "fuseblk" => Fuse
    case _ => Other
  }

  /** fromString: trims and lower-cases the name, then looks it up; any
      name it does not recognise is Other. */
  function FileSystemTypeFromString(s: string): FileSystemType {
    TypeOfName(ToLower(Trim(s)))
  }

  /** The characters of the enum's own strings. */
  predicate IsNameChar(c: char) {
    'a' <= c <= 'z' || '0' <= c <= '9' || c == '+'
  }

  /** A name made of lower-case letters, digits and '+' only. */
  predicate IsPlainName(s: string) {
    forall c :: c in s ==> IsNameChar(c)
  }

  /** No character of a plain name is trimmable. */
  lemma NameCharNotTrimmed(c: char)
    requires IsNameChar(c)
    ensures c !in TrimChars
  {
  }

  /** trim() leaves a plain name as it is. */
  lemma PlainNameTrimmed(s: string)
    requires IsPlainName(s)
    ensures Trim(s) == s
  {
    if s != [] {
      NameCharNotTrimmed(s[0]);
      NameCharNotTrimmed(s[|s| - 1]);
    }
    TrimSetNoop(s, TrimChars);
  }

  /** strtolower() leaves a plain name as it is. */
  lemma PlainNameLower(s: string)
    requires IsPlainName(s)
    ensures ToLower(s) == s
  {
    forall i | 0 <= i < |s|
      ensures ToLower(s)[i] == s[i]
    {
      assert s[i] in s;
    }
  }

  /** A plain name is its own normal form: trim() and strtolower()
      leave it as it is. */
  lemma PlainNameNormal(s: string)
    requires IsPlainName(s)
    ensures ToLower(Trim(s)) == s
  {
    PlainNameTrimmed(s);
    PlainNameLower(s);
  }

  /** A plain name is classified as the table lists it. */
  lemma PlainNameClassified(s: string, t: FileSystemType)
    requires IsPlainName(s) && TypeOfName(s) == t
    ensures FileSystemTypeFromString(s) == t
  {
    PlainNameNormal(s);
  }

  /** Every type's own string is a plain name. */
  lemma ValueIsPlainName(t: FileSystemType)
    ensures IsPlainName(t.Value())
  {
  }

  /** Every type's own string is listed under that type, except Other's,
      which is not listed at all. */
  lemma ValueNamesType(t: FileSystemType)
    ensures TypeOfName(t.Value()) == t
  {
  }

  /** Reading back any type's own string gives that type, Other included. */
  lemma FileSystemTypeRoundTrip(t: FileSystemType)
    ensures FileSystemTypeFromString(t.Value()) == t
  {
    ValueIsPlainName(t);
    ValueNamesType(t);
    PlainNameClassified(t.Value(), t);
  }

  /** Case and surrounding whitespace do not matter. */
  lemma FileSystemTypeIgnoresCaseAndPadding(s: string)
    ensures FileSystemTypeFromString(s) == FileSystemTypeFromString(ToLower(Trim(s)))
  {
    NormalizeIdempotent(s);
  }

  /** The alternative spellings fromString accepts, with their types. */
  const Aliases: set<(string, FileSystemType)> := {
    ("ffs", Ufs), ("hfsplus", HfsPlus), ("vfat", Fat32), ("msdos", Fat32),
    ("nfs4", Nfs), ("smb", Cifs), ("fuseblk", Fuse)}

  /** Each alias is read as the type it stands for. */
  lemma FileSystemTypeAlias(s: string, t: FileSystemType)
    requires (s, t) in Aliases
    ensures FileSystemTypeFromString(s) == t
  {
    PlainNameClassified(s, t);
  }

  /** A count of kilobytes times 1024 is a whole number of kilobytes. */
  lemma WholeKilobytes(x: int)
    ensures (x * 1024) % 1024 == 0
  {
  }

  // ---------------------------------------------------------------
  // MountPoint
  // ---------------------------------------------------------------

  datatype MountPoint = MountPoint(
    device: string, mountPoint: string, fsType: FileSystemType,
    totalBytes: int, usedBytes: int, availableBytes: int,
    totalInodes: int, usedInodes: int, freeInodes: int)
  {
    /** Used space as a share of the total; 0 when the total is 0. */
    function UsedPercentage(): (r: real)
      ensures totalBytes == 0 ==> r == 0.0
      ensures totalBytes != 0 ==> r * totalBytes as real == usedBytes as real * 100.0
    {
      Percent(usedBytes, totalBytes)
    }

    /** Available space as a share of the total; 0 when the total is 0. */
    function AvailablePercentage(): (r: real)
      ensures totalBytes == 0 ==> r == 0.0
      ensures totalBytes != 0 ==> r * totalBytes as real == availableBytes as real * 100.0
    {
      Percent(availableBytes, totalBytes)
    }

    /** Used inodes as a share of all inodes, guarded by the inode total. */
    function InodesUsedPercentage(): (r: real)
      ensures totalInodes == 0 ==> r == 0.0
      ensures totalInodes != 0 ==> r * totalInodes as real == usedInodes as real * 100.0
    {
      Percent(usedInodes, totalInodes)
    }
  }

  /** Consistent counts give shares within [0, 100]. */
  lemma MountPointPercentageBounds(m: MountPoint)
    requires 0 <= m.usedBytes <= m.totalBytes
    requires 0 <= m.availableBytes <= m.totalBytes
    requires 0 <= m.usedInodes <= m.totalInodes
    ensures 0.0 <= m.UsedPercentage() <= 100.0
    ensures 0.0 <= m.AvailablePercentage() <= 100.0
    ensures 0.0 <= m.InodesUsedPercentage() <= 100.0
  {
    PercentBounds(m.usedBytes, m.totalBytes);
    PercentBounds(m.availableBytes, m.totalBytes);
    PercentBounds(m.usedInodes, m.totalInodes);
  }

  // ---------------------------------------------------------------
  // DiskIOStats
  // ---------------------------------------------------------------

  datatype DiskIOStats = DiskIOStats(
    device: string, readsCompleted: int, readBytes: int,
    writesCompleted: int, writeBytes: int, ioTimeMs: int, weightedIOTimeMs: int)
  {
    /** Reads plus writes. */
    function TotalOperations(): (r: int)
      ensures r - writesCompleted == readsCompleted
      ensures readsCompleted >= 0 && writesCompleted >= 0 ==> r >= readsCompleted && r >= writesCompleted
    {
      readsCompleted + writesCompleted
    }

    /** Bytes read plus bytes written. */
    function TotalBytes(): (r: int)
      ensures r - writeBytes == readBytes
      ensures readBytes >= 0 && writeBytes >= 0 ==> r >= readBytes && r >= writeBytes
    {
      readBytes + writeBytes
    }
  }

  // ---------------------------------------------------------------
  // StorageSnapshot
  // ---------------------------------------------------------------

  function MountTotal(m: MountPoint): int { m.totalBytes }
  function MountUsed(m: MountPoint): int { m.usedBytes }
  function MountAvailable(m: MountPoint): int { m.availableBytes }

  /** The length of a mount path, the sort key of findMountPoint. */
  function PathLength(m: MountPoint): real { |m.mountPoint| as real }

  /** The mounts whose path is a plain string prefix of `path`, in list order. */
  function PrefixMatches(mounts: seq<MountPoint>, path: string): seq<MountPoint> {
    Seqs.Filter(mounts, (m: MountPoint) => StartsWith(path, m.mountPoint))
  }

  /** findMountPoint as a function: among the matching mounts, the first
      one with the longest path (a stable sort by descending length
      followed by taking the head). */
  function LongestPrefixMount(mounts: seq<MountPoint>, path: string): (r: Option<MountPoint>)
    ensures r.None? <==> forall k :: 0 <= k < |mounts| ==> !StartsWith(path, mounts[k].mountPoint)
    ensures r.Some? ==> r.value in mounts && StartsWith(path, r.value.mountPoint)
    ensures r.Some? ==> forall k :: 0 <= k < |mounts| && StartsWith(path, mounts[k].mountPoint) ==>
                          |mounts[k].mountPoint| <= |r.value.mountPoint|
  {
    var matches := PrefixMatches(mounts, path);
    if matches == [] then
      assert forall k :: 0 <= k < |mounts| && StartsWith(path, mounts[k].mountPoint) ==> mounts[k] in matches;
      None
    else
      var k := Seqs.FirstMaxIndex(matches, PathLength);
      assert forall k' :: 0 <= k' < |mounts| && StartsWith(path, mounts[k'].mountPoint) ==> mounts[k'] in matches;
      Some(matches[k])
  }

  datatype StorageSnapshot = StorageSnapshot(mountPoints: seq<MountPoint>, diskIO: seq<DiskIOStats>)
  {
    function TotalBytes(): int { Seqs.Sum(mountPoints, MountTotal) }
    function UsedBytes(): int { Seqs.Sum(mountPoints, MountUsed) }
    function AvailableBytes(): int { Seqs.Sum(mountPoints, MountAvailable) }

    /** Used space over all mounts as a share of their combined size. */
    function UsedPercentage(): (r: real)
      ensures TotalBytes() == 0 ==> r == 0.0
      ensures TotalBytes() != 0 ==> r * TotalBytes() as real == UsedBytes() as real * 100.0
    {
      Percent(UsedBytes(), TotalBytes())
    }

    /** findMountPoint: collects the mounts whose path is a prefix of
        `path`, then keeps the first of the longest. */
    method FindMountPoint(path: string) returns (r: Option<MountPoint>)
      ensures r == LongestPrefixMount(mountPoints, path)
    {
      var matches: seq<MountPoint> := [];
      var i := 0;
      while i < |mountPoints|
        invariant 0 <= i <= |mountPoints|
        invariant matches == PrefixMatches(mountPoints[..i], path)
      {
        if StartsWith(path, mountPoints[i].mountPoint) {
          matches := matches + [mountPoints[i]];
        }
        assert mountPoints[..i + 1][..i] == mountPoints[..i];
        i := i + 1;
      }
      assert mountPoints[..i] == mountPoints;
      if matches == [] {
        return None;
      }
      var k := Seqs.ArgFirstMax(matches, PathLength);
      Seqs.FirstMaxUnique(matches, PathLength, k, Seqs.FirstMaxIndex(matches, PathLength));
      return Some(matches[k]);
    }

    /** The first mount on exactly this device, or None. */
    function FindDevice(device: string): (r: Option<MountPoint>)
      ensures r.None? <==> forall k :: 0 <= k < |mountPoints| ==> mountPoints[k].device != device
      ensures r.Some? ==> exists k :: 0 <= k < |mountPoints| && mountPoints[k] == r.value && FirstOnDevice(mountPoints, device, k)
    {
      Seqs.Find(mountPoints, (m: MountPoint) => m.device == device)
    }

    /** The mounts of one filesystem type, in list order. */
    function FindByFilesystemType(t: FileSystemType): (r: seq<MountPoint>)
      ensures forall k :: 0 <= k < |r| ==> r[k] in mountPoints && r[k].fsType == t
      ensures forall k :: 0 <= k < |mountPoints| && mountPoints[k].fsType == t ==> mountPoints[k] in r
    {
      Seqs.Filter(mountPoints, (m: MountPoint) => m.fsType == t)
    }
  }

  /** `k` is the first position whose mount is on `device`. */
  predicate FirstOnDevice(mounts: seq<MountPoint>, device: string, k: int) {
    0 <= k < |mounts| && mounts[k].device == device
    && forall j :: 0 <= j < k ==> mounts[j].device != device
  }

  /** findByFilesystemType keeps list order and duplicates: the matches
      of two concatenated mount lists are those of the first followed by
      those of the second, and one mount is kept exactly when it has the
      type. */
  lemma FindByFilesystemTypeInOrder(a: seq<MountPoint>, b: seq<MountPoint>, m: MountPoint,
                                    io: seq<DiskIOStats>, t: FileSystemType)
    ensures StorageSnapshot(a + b, io).FindByFilesystemType(t)
      == StorageSnapshot(a, io).FindByFilesystemType(t) + StorageSnapshot(b, io).FindByFilesystemType(t)
    ensures StorageSnapshot([m], io).FindByFilesystemType(t) == if m.fsType == t then [m] else []
  {
    Seqs.FilterAppend(a, b, (x: MountPoint) => x.fsType == t);
  }

  /** The totals of a snapshot are sums over its mounts: listing more
      mounts adds their figures. */
  lemma StorageTotalsAppend(a: seq<MountPoint>, b: seq<MountPoint>, io: seq<DiskIOStats>)
    ensures StorageSnapshot(a + b, io).TotalBytes() == StorageSnapshot(a, io).TotalBytes() + StorageSnapshot(b, io).TotalBytes()
    ensures StorageSnapshot(a + b, io).UsedBytes() == StorageSnapshot(a, io).UsedBytes() + StorageSnapshot(b, io).UsedBytes()
    ensures StorageSnapshot(a + b, io).AvailableBytes() == StorageSnapshot(a, io).AvailableBytes() + StorageSnapshot(b, io).AvailableBytes()
  {
    Seqs.SumAppend(a, b, MountTotal);
    Seqs.SumAppend(a, b, MountUsed);
    Seqs.SumAppend(a, b, MountAvailable);
  }

  /** When no mount uses more than it has, neither does the snapshot,
      and its used share lies in [0, 100]. */
  lemma StorageUsedWithinTotal(s: StorageSnapshot)
    requires forall k :: 0 <= k < |s.mountPoints| ==> 0 <= s.mountPoints[k].usedBytes <= s.mountPoints[k].totalBytes
    ensures 0 <= s.UsedBytes() <= s.TotalBytes()
    ensures 0.0 <= s.UsedPercentage() <= 100.0
  {
    UsedSumWithinTotal(s.mountPoints);
    PercentBounds(s.UsedBytes(), s.TotalBytes());
  }

  lemma {:induction false} UsedSumWithinTotal(ms: seq<MountPoint>)
    requires forall k :: 0 <= k < |ms| ==> 0 <= ms[k].usedBytes <= ms[k].totalBytes
    ensures 0 <= Seqs.Sum(ms, MountUsed) <= Seqs.Sum(ms, MountTotal)
    decreases |ms|
  {
    if ms != [] {
      UsedSumWithinTotal(ms[..|ms| - 1]);
    }
  }

  /** Only one mount can be the answer: the first of the longest
      matching paths. */
  lemma LongestPrefixIsFirstOfLongest(mounts: seq<MountPoint>, path: string, k: int)
    requires Seqs.IsFirstMax(PrefixMatches(mounts, path), PathLength, k)
    ensures LongestPrefixMount(mounts, path) == Some(PrefixMatches(mounts, path)[k])
  {
    var matches := PrefixMatches(mounts, path);
    Seqs.FirstMaxUnique(matches, PathLength, k, Seqs.FirstMaxIndex(matches, PathLength));
  }

  function Mount(path: string): MountPoint {
    MountPoint("/dev/sda1", path, Ext4, 0, 0, 0, 0, 0, 0)
  }

  /** The more specific mount wins: with "/" and "/var" mounted, a path
      under /var resolves to "/var". */
  lemma MostSpecificMountWins()
    ensures LongestPrefixMount([Mount("/"), Mount("/var")], "/var/log") == Some(Mount("/var"))
  {
    var ms := [Mount("/"), Mount("/var")];
    assert StartsWith("/var/log", "/");
    assert StartsWith("/var/log", "/var");
    Seqs.FilterAll(ms, (m: MountPoint) => StartsWith("/var/log", m.mountPoint));
    assert Seqs.IsFirstMax(ms, PathLength, 1);
    LongestPrefixIsFirstOfLongest(ms, "/var/log", 1);
  }

  /** Matching is by characters, not by path segments: "/var" is
      reported as the mount of "/variable". */
  lemma PrefixIsNotSegmentAware()
    ensures LongestPrefixMount([Mount("/var")], "/variable") == Some(Mount("/var"))
  {
    var ms := [Mount("/var")];
    assert StartsWith("/variable", "/var");
    Seqs.FilterAll(ms, (m: MountPoint) => StartsWith("/variable", m.mountPoint));
    assert Seqs.IsFirstMax(ms, PathLength, 0);
    LongestPrefixIsFirstOfLongest(ms, "/variable", 0);
  }
}
