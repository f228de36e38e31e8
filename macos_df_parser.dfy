/** The `df -ki` parser for macOS: like the Linux one, but with inode
    columns and a filesystem type guessed from the device name. */
module MacOsDfParser {
  import opened Wrappers
  import opened PhpText
  import Seqs
  import opened Storage

  // ---------------------------------------------------------------
  // detectFilesystemType
  // ---------------------------------------------------------------

  /** The type guessed from a device name: every /dev/disk device is
      APFS; otherwise the first of apfs, hfs, ntfs, exfat, fat that the
      name contains decides. */
  function DetectFilesystemType(device: string): FileSystemType {
    if StartsWith(device, "/dev/disk") then Apfs
    else if Contains(device, "apfs") then Apfs
    else if Contains(device, "hfs") then HfsPlus
    else if Contains(device, "ntfs") then Ntfs
    else if Contains(device, "exfat") then Exfat
    else if Contains(device, "fat") then Fat32
    else Other
  }

  /** A name that contains "exfat" contains "fat". */
  lemma ExfatContainsFat(s: string)
    ensures Contains(s, "exfat") ==> Contains(s, "fat")
  {
    if Contains(s, "exfat") {
      ContainsAt(s, "exfat");
      var i :| OccursAt(s, "exfat", i);
      assert s[i + 2..i + 5] == s[i..i + 5][2..5];
      assert OccursAt(s, "fat", i + 2);
      ContainsAt(s, "fat");
    }
  }

  /** The guess is Other exactly when the name is not a /dev/disk device
      and mentions none of apfs, hfs, ntfs and fat. */
  lemma DetectOther(device: string)
    ensures DetectFilesystemType(device) == Other <==>
      !StartsWith(device, "/dev/disk") && !Contains(device, "apfs") && !Contains(device, "hfs")
      && !Contains(device, "ntfs") && !Contains(device, "fat")
  {
    ExfatContainsFat(device);
  }

  /** Among names that mention only fat, exfat wins over plain FAT32. */
  lemma DetectFatFamily(device: string)
    requires !StartsWith(device, "/dev/disk") && !Contains(device, "apfs") && !Contains(device, "hfs")
    requires !Contains(device, "ntfs") && Contains(device, "fat")
    ensures DetectFilesystemType(device) == (if Contains(device, "exfat") then Exfat else Fat32)
  {
  }

  /** APFS is guessed exactly for /dev/disk devices and names with apfs. */
  lemma DetectApfs(device: string)
    ensures DetectFilesystemType(device) == Apfs <==>
      StartsWith(device, "/dev/disk") || Contains(device, "apfs")
  {
  }

  // ---------------------------------------------------------------
  // parse (df -ki)
  // ---------------------------------------------------------------

  /** One body line of `df -ki`: skipped when blank or shorter than nine
      fields; otherwise the device (field 0), the kilobyte counts (1-3)
      in bytes, the used and free inodes (5, 6), whose sum is the total,
      and the mount point (8). */
  function MountOfMacLine(line: string): (r: Option<MountPoint>)
    ensures r.Some? <==> LineFields(line, 9).Some?
  {
    match LineFields(line, 9)
    case None => None
    case Some(f) => Some(MountOfMacFields(f))
  }

  function MountOfMacFields(f: seq<string>): MountPoint
    requires |f| >= 9
  {
    var inodesUsed := IntCast(f[5]);
    var inodesFree := IntCast(f[6]);
    MountPoint(f[0], f[8], DetectFilesystemType(f[0]),
      IntCast(f[1]) * 1024, IntCast(f[2]) * 1024, IntCast(f[3]) * 1024,
      inodesUsed + inodesFree, inodesUsed, inodesFree)
  }

  /** What parse returns: too few lines is an error; otherwise the header
      is dropped by position and each remaining line gives at most one
      mount point, in order. */
  function Parsed(output: string): Result<seq<MountPoint>> {
    var lines := OutputLines(output);
    if |lines| < 2 then Failure(ParseErrorWith("df output too short"))
    else Success(Seqs.FilterMap(lines[1..], MountOfMacLine))
  }

  method Parse(output: string) returns (r: Result<seq<MountPoint>>)
    ensures r == Parsed(output)
  {
    var lines := OutputLines(output);
    if |lines| < 2 {
      return Failure(ParseErrorWith("df output too short"));
    }
    var body := lines[1..];
    var mountPoints := Seqs.CollectFilterMap(body, MountOfMacLine);
    return Success(mountPoints);
  }

  /** Output of fewer than two lines, blank output included, is rejected
      with 'df output too short'; anything longer parses. */
  lemma ParseTooShort(output: string)
    ensures Parsed(output).Failure? <==> |OutputLines(output)| < 2
    ensures Parsed(output).Failure? ==> Parsed(output).error == Error(ParseError, "df output too short")
    ensures Trim(output) == "" ==> Parsed(output).Failure?
  {
    if Trim(output) == "" {
      OutputLinesOfBlank(output);
    }
  }

  /** Every mount point df -ki yields has the type its device name
      suggests, a total inode count that is used plus free, and byte
      counts that are whole kilobytes. */
  lemma ParsedMountShape(output: string, m: MountPoint)
    requires Parsed(output).Success? && m in Parsed(output).value
    ensures m.fsType == DetectFilesystemType(m.device)
    ensures m.totalInodes == m.usedInodes + m.freeInodes
    ensures m.totalBytes % 1024 == 0 && m.usedBytes % 1024 == 0 && m.availableBytes % 1024 == 0
  {
    var body := OutputLines(output)[1..];
    Seqs.FilterMapMembers(body, MountOfMacLine, m);
    var i :| 0 <= i < |body| && MountOfMacLine(body[i]) == Some(m);
    var f := LineFields(body[i], 9).value;
    assert m == MountOfMacFields(f);
    WholeKilobytes(IntCast(f[1]));
    WholeKilobytes(IntCast(f[2]));
    WholeKilobytes(IntCast(f[3]));
  }

  /** A line that is blank or has fewer than nine fields contributes
      nothing: dropping it leaves the result unchanged. */
  lemma MalformedLineSkipped(output: string, i: int)
    requires Parsed(output).Success?
    requires 1 <= i < |OutputLines(output)|
    requires var line := Trim(OutputLines(output)[i]); line == "" || |PregSplitWs(line)| < 9
    ensures var body := OutputLines(output)[1..];
      Parsed(output).value == Seqs.FilterMap(body[..i - 1] + body[i..], MountOfMacLine)
  {
    var body := OutputLines(output)[1..];
    assert body[i - 1] == OutputLines(output)[i];
    Seqs.FilterMapSkip(body, i - 1, MountOfMacLine);
  }

  /** A row of `df -ki` output as the model writes it. */
  datatype MacRow = MacRow(
    device: string, totalKb: int, usedKb: int, availableKb: int, capacity: string,
    inodesUsed: int, inodesFree: int, inodesCapacity: string, mountPoint: string)
  {
    predicate WellFormed() {
      IsWord(device) && IsWord(capacity) && IsWord(inodesCapacity) && IsWord(mountPoint)
    }

    function Words(): seq<string> {
      [device, IntToString(totalKb), IntToString(usedKb), IntToString(availableKb), capacity,
       IntToString(inodesUsed), IntToString(inodesFree), inodesCapacity, mountPoint]
    }

    /** The mount point this row stands for. */
    function Mount(): MountPoint {
      MountPoint(device, mountPoint, DetectFilesystemType(device),
        totalKb * 1024, usedKb * 1024, availableKb * 1024,
        inodesUsed + inodesFree, inodesUsed, inodesFree)
    }
  }

  /** A written row is read back as its mount point. */
  lemma RowRoundTrip(row: MacRow)
    requires row.WellFormed()
    ensures MountOfMacLine(Join(" ", row.Words())) == Some(row.Mount())
  {
    var w := row.Words();
    assert LineFields(Join(" ", w), 9) == Some(w) by {
      IntToStringIsWord(row.totalKb);
      IntToStringIsWord(row.usedKb);
      IntToStringIsWord(row.availableKb);
      IntToStringIsWord(row.inodesUsed);
      IntToStringIsWord(row.inodesFree);
      WordsLineFields(w, 9);
    }
    RowFields(row);
  }

  /** The row's own fields are read back as its mount point. */
  lemma RowFields(row: MacRow)
    ensures MountOfMacFields(row.Words()) == row.Mount()
  {
    var w := row.Words();
    IntCastOfIntToString(row.totalKb);
    IntCastOfIntToString(row.usedKb);
    IntCastOfIntToString(row.availableKb);
    IntCastOfIntToString(row.inodesUsed);
    IntCastOfIntToString(row.inodesFree);
  }

  function RowWords(rows: seq<MacRow>): (r: seq<seq<string>>)
    ensures |r| == |rows| && forall i :: 0 <= i < |rows| ==> r[i] == rows[i].Words()
  {
    seq(|rows|, i requires 0 <= i < |rows| => rows[i].Words())
  }

  /** The mount points a list of rows stands for, in order. */
  function Mounts(rows: seq<MacRow>): (r: seq<MountPoint>)
    ensures |r| == |rows| && forall i :: 0 <= i < |rows| ==> r[i] == rows[i].Mount()
  {
    seq(|rows|, i requires 0 <= i < |rows| => rows[i].Mount())
  }

  /** A header and rows written out as df -ki prints them parse back to
      one mount point per row, in order; a header alone is too short. */
  lemma DfRoundTrip(header: seq<string>, rows: seq<MacRow>)
    requires |header| >= 1 && forall k :: 0 <= k < |header| ==> IsWord(header[k])
    requires forall i :: 0 <= i < |rows| ==> rows[i].WellFormed()
    ensures var r := Parsed(Join("\n", [Join(" ", header)] + JoinRows(RowWords(rows))));
      if rows == [] then r.Failure? else r == Success(Mounts(rows))
  {
    RowsAreWords(rows);
    WordTable(header, RowWords(rows));
    BodyRoundTrip(rows);
  }

  lemma RowsAreWords(rows: seq<MacRow>)
    requires forall i :: 0 <= i < |rows| ==> rows[i].WellFormed()
    ensures var words := RowWords(rows);
      forall i :: 0 <= i < |words| ==> |words[i]| >= 1 && forall k :: 0 <= k < |words[i]| ==> IsWord(words[i][k])
  {
    var words := RowWords(rows);
    forall i | 0 <= i < |words|
      ensures |words[i]| >= 1 && forall k :: 0 <= k < |words[i]| ==> IsWord(words[i][k])
    {
      IntToStringIsWord(rows[i].totalKb);
      IntToStringIsWord(rows[i].usedKb);
      IntToStringIsWord(rows[i].availableKb);
      IntToStringIsWord(rows[i].inodesUsed);
      IntToStringIsWord(rows[i].inodesFree);
    }
  }

  lemma BodyRoundTrip(rows: seq<MacRow>)
    requires forall i :: 0 <= i < |rows| ==> rows[i].WellFormed()
    ensures Seqs.FilterMap(JoinRows(RowWords(rows)), MountOfMacLine) == Mounts(rows)
  {
    var body := JoinRows(RowWords(rows));
    forall i | 0 <= i < |body|
      ensures MountOfMacLine(body[i]) == Some(rows[i].Mount())
    {
      RowRoundTrip(rows[i]);
    }
    Seqs.FilterMapTotal(body, MountOfMacLine);
  }
}
