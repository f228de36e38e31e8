/** The `df -k` and `df -i` parsers for Linux: a header line, then one
    row per filesystem, split on whitespace. */
module LinuxDfParser {
  import opened Wrappers
  import opened PhpText
  import Seqs
  import opened Storage

  // ---------------------------------------------------------------
  // parse (df -k)
  // ---------------------------------------------------------------

  /** One body line of `df -k`: skipped when blank or shorter than six
      fields; otherwise the device, the mount point and the three
      kilobyte counts, converted to bytes.  df -k names no filesystem
      type and no inode counts. */
  function MountOfLine(line: string): (r: Option<MountPoint>)
    ensures r.Some? <==> LineFields(line, 6).Some?
  {
    match LineFields(line, 6)
    case None => None
    case Some(f) =>
      Some(MountPoint(f[0], f[5], Other, IntCast(f[1]) * 1024, IntCast(f[2]) * 1024, IntCast(f[3]) * 1024, 0, 0, 0))
  }

  /** What parse returns: too few lines is an error; otherwise the
      header is dropped by position and each remaining line gives at
      most one mount point, in order. */
  function Parsed(output: string): Result<seq<MountPoint>> {
    var lines := OutputLines(output);
    if |lines| < 2 then Failure(ParseErrorWith("df output too short"))
    else Success(Seqs.FilterMap(lines[1..], MountOfLine))
  }

  method Parse(output: string) returns (r: Result<seq<MountPoint>>)
    ensures r == Parsed(output)
  {
    var lines := OutputLines(output);
    if |lines| < 2 {
      return Failure(ParseErrorWith("df output too short"));
    }
    var body := lines[1..];
    var mountPoints := Seqs.CollectFilterMap(body, MountOfLine);
    return Success(mountPoints);
  }

  /** Output of fewer than two lines, blank output included, is rejected
      with 'df output too short'; anything longer parses. */
  lemma ParseTooShort(output: string)
    ensures Parsed(output).Failure? <==> |OutputLines(output)| < 2
    ensures Parsed(output).Failure? ==> Parsed(output).error == Error(ParseError, "df output too short")
    ensures Trim(output) == "" ==> Parsed(output).Failure?
  {
    if Trim(output) == "" {
      OutputLinesOfBlank(output);
    }
  }

  /** Every mount point df -k yields has type Other, no inode counts and
      byte counts that are whole kilobytes. */
  lemma ParsedMountShape(output: string, m: MountPoint)
    requires Parsed(output).Success? && m in Parsed(output).value
    ensures m.fsType == Other && m.totalInodes == 0 && m.usedInodes == 0 && m.freeInodes == 0
    ensures m.totalBytes % 1024 == 0 && m.usedBytes % 1024 == 0 && m.availableBytes % 1024 == 0
  {
    var body := OutputLines(output)[1..];
    Seqs.FilterMapMembers(body, MountOfLine, m);
    var i :| 0 <= i < |body| && MountOfLine(body[i]) == Some(m);
    MountOfLineShape(body[i]);
  }

  /** A line that is blank or too short contributes nothing: dropping it
      leaves the result unchanged. */
  lemma MalformedLineSkipped(output: string, i: int)
    requires Parsed(output).Success?
    requires 1 <= i < |OutputLines(output)|
    requires var line := Trim(OutputLines(output)[i]); line == "" || |PregSplitWs(line)| < 6
    ensures var body := OutputLines(output)[1..];
      Parsed(output).value == Seqs.FilterMap(body[..i - 1] + body[i..], MountOfLine)
  {
    var body := OutputLines(output)[1..];
    assert body[i - 1] == OutputLines(output)[i];
    Seqs.FilterMapSkip(body, i - 1, MountOfLine);
  }

  /** The header is dropped by position: its text plays no part. */
  lemma HeaderTextIgnored(h1: string, h2: string, rest: string)
    requires '\n' !in h1 && h1 != "" && h1[0] !in TrimChars
    requires '\n' !in h2 && h2 != "" && h2[0] !in TrimChars
    requires rest != "" && rest[|rest| - 1] !in TrimChars
    ensures Parsed(h1 + "\n" + rest) == Parsed(h2 + "\n" + rest)
  {
    HeaderLine(h1, rest);
    HeaderLine(h2, rest);
  }

  /** A row of `df -k` output as the model writes it. */
  datatype DfRow = DfRow(device: string, totalKb: int, usedKb: int, availableKb: int, capacity: string, mountPoint: string)
  {
    predicate WellFormed() {
      IsWord(device) && IsWord(capacity) && IsWord(mountPoint)
    }

    function Words(): seq<string> {
      [device, IntToString(totalKb), IntToString(usedKb), IntToString(availableKb), capacity, mountPoint]
    }

    /** The mount point this row stands for. */
    function Mount(): MountPoint {
      MountPoint(device, mountPoint, Other, totalKb * 1024, usedKb * 1024, availableKb * 1024, 0, 0, 0)
    }
  }

  function RowWords(rows: seq<DfRow>): (r: seq<seq<string>>)
    ensures |r| == |rows| && forall i :: 0 <= i < |rows| ==> r[i] == rows[i].Words()
  {
    seq(|rows|, i requires 0 <= i < |rows| => rows[i].Words())
  }

  /** A written row is read back as its mount point. */
  lemma RowRoundTrip(row: DfRow)
    requires row.WellFormed()
    ensures MountOfLine(Join(" ", row.Words())) == Some(row.Mount())
  {
    var w := row.Words();
    var line := Join(" ", w);
    assert LineFields(line, 6) == Some(w) by {
      IntToStringIsWord(row.totalKb);
      IntToStringIsWord(row.usedKb);
      IntToStringIsWord(row.availableKb);
      WordsLineFields(w, 6);
    }
    MountOfFields(line, w);
    assert IntCast(w[1]) == row.totalKb by {
      IntCastOfIntToString(row.totalKb);
    }
    assert IntCast(w[2]) == row.usedKb by {
      IntCastOfIntToString(row.usedKb);
    }
    assert IntCast(w[3]) == row.availableKb by {
      IntCastOfIntToString(row.availableKb);
    }
  }

  /** How a line with known fields is read. */
  lemma MountOfFields(line: string, f: seq<string>)
    requires LineFields(line, 6) == Some(f)
    ensures MountOfLine(line) == Some(MountPoint(f[0], f[5], Other, IntCast(f[1]) * 1024, IntCast(f[2]) * 1024, IntCast(f[3]) * 1024, 0, 0, 0))
  {
  }

  /** What any accepted line yields: type Other, no inode counts, whole
      kilobytes. */
  lemma MountOfLineShape(line: string)
    requires MountOfLine(line).Some?
    ensures var m := MountOfLine(line).value;
      && m.fsType == Other && m.totalInodes == 0 && m.usedInodes == 0 && m.freeInodes == 0
      && m.totalBytes % 1024 == 0 && m.usedBytes % 1024 == 0 && m.availableBytes % 1024 == 0
  {
    var f := LineFields(line, 6).value;
    MountOfFields(line, f);
    WholeKilobytes(IntCast(f[1]));
    WholeKilobytes(IntCast(f[2]));
    WholeKilobytes(IntCast(f[3]));
  }

  /** The mount points a list of rows stands for, in order. */
  function Mounts(rows: seq<DfRow>): (r: seq<MountPoint>)
    ensures |r| == |rows| && forall i :: 0 <= i < |rows| ==> r[i] == rows[i].Mount()
  {
    seq(|rows|, i requires 0 <= i < |rows| => rows[i].Mount())
  }

  /** A header and rows written out as df -k prints them parse back to
      one mount point per row, in order; a header alone is too short. */
  lemma DfRoundTrip(header: seq<string>, rows: seq<DfRow>)
    requires |header| >= 1 && forall k :: 0 <= k < |header| ==> IsWord(header[k])
    requires forall i :: 0 <= i < |rows| ==> rows[i].WellFormed()
    ensures var r := Parsed(Join("\n", [Join(" ", header)] + JoinRows(RowWords(rows))));
      if rows == [] then r.Failure? else r == Success(Mounts(rows))
  {
    RowsAreWords(rows);
    WordTable(header, RowWords(rows));
    BodyRoundTrip(rows);
  }

  lemma RowsAreWords(rows: seq<DfRow>)
    requires forall i :: 0 <= i < |rows| ==> rows[i].WellFormed()
    ensures var words := RowWords(rows);
      forall i :: 0 <= i < |words| ==> |words[i]| >= 1 && forall k :: 0 <= k < |words[i]| ==> IsWord(words[i][k])
  {
    var words := RowWords(rows);
    forall i | 0 <= i < |words|
      ensures |words[i]| >= 1 && forall k :: 0 <= k < |words[i]| ==> IsWord(words[i][k])
    {
      IntToStringIsWord(rows[i].totalKb);
      IntToStringIsWord(rows[i].usedKb);
      IntToStringIsWord(rows[i].availableKb);
    }
  }

  lemma BodyRoundTrip(rows: seq<DfRow>)
    requires forall i :: 0 <= i < |rows| ==> rows[i].WellFormed()
    ensures Seqs.FilterMap(JoinRows(RowWords(rows)), MountOfLine) == Mounts(rows)
  {
    var body := JoinRows(RowWords(rows));
    forall i | 0 <= i < |body|
      ensures MountOfLine(body[i]) == Some(rows[i].Mount())
    {
      RowRoundTrip(rows[i]);
    }
    Seqs.FilterMapTotal(body, MountOfLine);
  }

  // ---------------------------------------------------------------
  // parseInodes (df -i)
  // ---------------------------------------------------------------

  /** The inode counts df -i reports for one mount point. */
  datatype InodeCounts = InodeCounts(total: int, used: int, free: int)

  /** One body line of `df -i`: skipped like a df -k line; otherwise the
      mount point (field 5) with the counts of fields 1 to 3. */
  function InodeEntryOfLine(line: string): (r: Option<(string, InodeCounts)>)
    ensures r.Some? <==> LineFields(line, 6).Some?
  {
    match LineFields(line, 6)
    case None => None
    case Some(f) => Some((f[5], InodeCounts(IntCast(f[1]), IntCast(f[2]), IntCast(f[3]))))
  }

  function ParsedInodes(output: string): Result<map<string, InodeCounts>> {
    var lines := OutputLines(output);
    if |lines| < 2 then Failure(ParseErrorWith("df -i output too short"))
    else Success(Seqs.Keyed(lines[1..], InodeEntryOfLine))
  }

  method ParseInodes(output: string) returns (r: Result<map<string, InodeCounts>>)
    ensures r == ParsedInodes(output)
  {
    var lines := OutputLines(output);
    if |lines| < 2 {
      return Failure(ParseErrorWith("df -i output too short"));
    }
    var body := lines[1..];
    var inodeData := Seqs.CollectKeyed(body, InodeEntryOfLine);
    return Success(inodeData);
  }

  /** A mount point gets an entry exactly when some accepted body line
      names it, and the entry holds the counts of the last such line. */
  lemma InodeEntries(output: string, k: string)
    requires ParsedInodes(output).Success?
    ensures var body := OutputLines(output)[1..];
      (k in ParsedInodes(output).value <==>
        exists j :: 0 <= j < |body| && Seqs.HasKey(InodeEntryOfLine, body[j], k))
      && (k in ParsedInodes(output).value ==>
        exists j :: (0 <= j < |body| && InodeEntryOfLine(body[j]) == Some((k, ParsedInodes(output).value[k]))
          && (forall j' :: j < j' < |body| ==> !Seqs.HasKey(InodeEntryOfLine, body[j'], k))))
  {
    var body := OutputLines(output)[1..];
    Seqs.KeyedKeys(body, InodeEntryOfLine, k);
    if k in ParsedInodes(output).value {
      Seqs.KeyedLastWins(body, InodeEntryOfLine, k);
    }
  }

  /** df -i output of fewer than two lines is rejected with its own message. */
  lemma ParseInodesTooShort(output: string)
    ensures ParsedInodes(output).Failure? <==> |OutputLines(output)| < 2
    ensures ParsedInodes(output).Failure? ==> ParsedInodes(output).error == Error(ParseError, "df -i output too short")
  {
  }
}
