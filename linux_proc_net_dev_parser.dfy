/** The /proc/net/dev parser: two header lines, then one line per
    interface, "name: " followed by sixteen counters, eight received and
    eight transmitted. */
module LinuxProcNetDevParser {
  import opened Wrappers
  import opened PhpText
  import Seqs
  import opened Network

  /** The interface a line describes, or None when the line is blank,
      has no ':' or has fewer than sixteen counters.  The counters used
      are bytes, packets, errors and drops in each direction (positions
      0-3 and 8-11); /proc/net/dev names no MAC address and no MTU, and
      every listed interface counts as up. */
  function InterfaceOfLine(line: string): (r: Option<NetworkInterface>)
    ensures r.Some? ==> r.value.macAddress == "" && r.value.mtu == 0 && r.value.isUp
    ensures r.Some? ==> r.value.kind == FromInterfaceName(r.value.name)
  {
    var t := Trim(line);
    if t == "" then None else InterfaceOfParts(SplitOnce(t, ':'))
  }

  /** The name before the first ':' and the counters after it. */
  function InterfaceOfParts(parts: Option<(string, string)>): Option<NetworkInterface> {
    match parts
    case None => None
    case Some(p) =>
      var stats := PregSplitWs(Trim(p.1));
      if |stats| < 16 then None else Some(InterfaceOfCounters(Trim(p.0), stats))
  }

  function InterfaceOfCounters(name: string, stats: seq<string>): NetworkInterface
    requires |stats| >= 16
  {
    NetworkInterface(name, FromInterfaceName(name), "",
      NetworkInterfaceStats(
        bytesReceived := IntCast(stats[0]), bytesSent := IntCast(stats[8]),
        packetsReceived := IntCast(stats[1]), packetsSent := IntCast(stats[9]),
        receiveErrors := IntCast(stats[2]), transmitErrors := IntCast(stats[10]),
        receiveDrops := IntCast(stats[3]), transmitDrops := IntCast(stats[11])),
      true, 0)
  }

  /** What parse returns: fewer than three lines is an error; otherwise
      the two header lines are dropped by position and each remaining
      line gives at most one interface, in order. */
  function Parsed(content: string): Result<seq<NetworkInterface>> {
    var lines := OutputLines(content);
    if |lines| < 3 then Failure(ParseErrorWith("/proc/net/dev content too short"))
    else Success(Seqs.FilterMap(lines[2..], InterfaceOfLine))
  }

  method Parse(content: string) returns (r: Result<seq<NetworkInterface>>)
    ensures r == Parsed(content)
  {
    var lines := OutputLines(content);
    if |lines| < 3 {
      return Failure(ParseErrorWith("/proc/net/dev content too short"));
    }
    var body := lines[2..];
    var interfaces := Seqs.CollectFilterMap(body, InterfaceOfLine);
    return Success(interfaces);
  }

  /** Content of fewer than three lines, blank content included, is
      rejected with its own message; anything longer parses. */
  lemma ParseTooShort(content: string)
    ensures Parsed(content).Failure? <==> |OutputLines(content)| < 3
    ensures Parsed(content).Failure? ==> Parsed(content).error == Error(ParseError, "/proc/net/dev content too short")
    ensures Trim(content) == "" ==> Parsed(content).Failure?
  {
    if Trim(content) == "" {
      OutputLinesOfBlank(content);
    }
  }

  /** Every interface read from /proc/net/dev has no MAC address, MTU 0,
      counts as up, and has the type its name suggests. */
  lemma ParsedInterfaceShape(content: string, i: NetworkInterface)
    requires Parsed(content).Success? && i in Parsed(content).value
    ensures i.macAddress == "" && i.mtu == 0 && i.isUp && i.kind == FromInterfaceName(i.name)
  {
    var body := OutputLines(content)[2..];
    Seqs.FilterMapMembers(body, InterfaceOfLine, i);
  }

  /** A line without a ':' contributes nothing. */
  lemma LineWithoutColonSkipped(line: string)
    requires ':' !in line
    ensures InterfaceOfLine(line).None?
  {
    if ':' in Trim(line) {
      TrimSetKeeps(line, TrimChars, ':');
    }
  }

  /** An interface as the kernel lists it: a name without ':' and the
      sixteen counters. */
  datatype DevRow = DevRow(name: string, counters: seq<int>)
  {
    predicate WellFormed() {
      IsWord(name) && ':' !in name && |counters| == 16
    }

    /** The line as the kernel prints it, up to padding. */
    function Line(): string {
      name + [':'] + (" " + Join(" ", NumberFields(counters)))
    }

    /** The interface this row stands for. */
    function Interface(): NetworkInterface
      requires WellFormed()
    {
      var c := counters;
      NetworkInterface(name, FromInterfaceName(name), "",
        NetworkInterfaceStats(c[0], c[8], c[1], c[9], c[2], c[10], c[3], c[11]),
        true, 0)
    }
  }

  /** A row written as "name: counters..." is read back as its interface. */
  lemma RowRoundTrip(row: DevRow)
    requires row.WellFormed()
    ensures InterfaceOfLine(row.Line()) == Some(row.Interface())
  {
    var numbers := NumberFields(row.counters);
    NumbersAreWords(row.counters);
    WordsLine(numbers);
    var tail := Join(" ", numbers);
    JoinStartsWithFirst(" ", numbers);
    NamedCounters(row.name, " " + tail);
    PaddedTail(tail);
    WordTrimmed(row.name);
    PartsRead(row.name, " " + tail, tail);
    CountersRead(row);
  }

  /** How a line "name:rest" is read when the name is a plain word
      without ':' and the line ends with a character trim() keeps. */
  lemma NamedCounters(name: string, rest: string)
    requires IsWord(name) && ':' !in name
    requires rest != "" && rest[|rest| - 1] !in TrimChars
    ensures InterfaceOfLine(name + [':'] + rest) == InterfaceOfParts(Some((name, rest)))
  {
    TrimmedConcat(name, [':'], rest);
    SplitOnceAt(name, rest, ':');
  }

  lemma PartsRead(name: string, rest: string, tail: string)
    requires Trim(name) == name && Trim(rest) == tail
    ensures var stats := PregSplitWs(tail);
      InterfaceOfParts(Some((name, rest))) ==
        if |stats| < 16 then None else Some(InterfaceOfCounters(name, stats))
  {
  }

  lemma PaddedTail(tail: string)
    requires tail != "" && tail[0] !in TrimChars && tail[|tail| - 1] !in TrimChars
    ensures Trim(" " + tail) == tail
  {
    TrimSetPadding(" ", tail, "", TrimChars);
    assert " " + tail + "" == " " + tail;
  }

  lemma WordTrimmed(name: string)
    requires IsWord(name)
    ensures Trim(name) == name
  {
    TrimSetNoop(name, TrimChars);
  }

  lemma NumbersAreWords(ns: seq<int>)
    requires |ns| >= 1
    ensures var w := NumberFields(ns); |w| >= 1 && forall k :: 0 <= k < |w| ==> IsWord(w[k])
  {
    var w := NumberFields(ns);
    forall k | 0 <= k < |w|
      ensures IsWord(w[k])
    {
      IntToStringIsWord(ns[k]);
    }
  }

  /** The counters a row writes are read back in their places. */
  lemma CountersRead(row: DevRow)
    requires row.WellFormed()
    ensures InterfaceOfCounters(row.name, NumberFields(row.counters)) == row.Interface()
  {
    NumberFieldsCast(row.counters);
  }

  function RowLines(rows: seq<DevRow>): (r: seq<string>)
    ensures |r| == |rows| && forall i :: 0 <= i < |rows| ==> r[i] == rows[i].Line()
  {
    seq(|rows|, i requires 0 <= i < |rows| => rows[i].Line())
  }

  function Interfaces(rows: seq<DevRow>): (r: seq<NetworkInterface>)
    requires forall i :: 0 <= i < |rows| ==> rows[i].WellFormed()
    ensures |r| == |rows| && forall i :: 0 <= i < |rows| ==> r[i] == rows[i].Interface()
  {
    seq(|rows|, i requires 0 <= i < |rows| && rows[i].WellFormed() => rows[i].Interface())
  }

  /** Two header lines and the rows, written out as the kernel prints
      them, parse back to one interface per row, in order; the headers
      alone are too short. */
  lemma DevRoundTrip(h1: seq<string>, h2: seq<string>, rows: seq<DevRow>)
    requires |h1| >= 1 && forall k :: 0 <= k < |h1| ==> IsWord(h1[k])
    requires |h2| >= 1 && forall k :: 0 <= k < |h2| ==> IsWord(h2[k])
    requires forall i :: 0 <= i < |rows| ==> rows[i].WellFormed()
    ensures var r := Parsed(Join("\n", [Join(" ", h1), Join(" ", h2)] + RowLines(rows)));
      if rows == [] then r.Failure? else r == Success(Interfaces(rows))
  {
    var body := RowLines(rows);
    var lines := [Join(" ", h1), Join(" ", h2)] + body;
    DevTableShape(h1, h2, rows);
    TableLines(lines);
    assert lines[2..] == body;
    BodyRoundTrip(rows);
  }

  lemma DevTableShape(h1: seq<string>, h2: seq<string>, rows: seq<DevRow>)
    requires |h1| >= 1 && forall k :: 0 <= k < |h1| ==> IsWord(h1[k])
    requires |h2| >= 1 && forall k :: 0 <= k < |h2| ==> IsWord(h2[k])
    requires forall i :: 0 <= i < |rows| ==> rows[i].WellFormed()
    ensures TableShape([Join(" ", h1), Join(" ", h2)] + RowLines(rows))
  {
    var body := RowLines(rows);
    var lines := [Join(" ", h1), Join(" ", h2)] + body;
    WordsLineEnds(h1);
    WordsLineEnds(h2);
    forall i | 0 <= i < |body|
      ensures LineOk(body[i])
    {
      RowLineOk(rows[i]);
    }
    forall i | 0 <= i < |lines|
      ensures LineOk(lines[i])
    {
      if i >= 2 {
        assert LineOk(body[i - 2]);
      }
    }
  }

  lemma BodyRoundTrip(rows: seq<DevRow>)
    requires forall i :: 0 <= i < |rows| ==> rows[i].WellFormed()
    ensures Seqs.FilterMap(RowLines(rows), InterfaceOfLine) == Interfaces(rows)
  {
    var body := RowLines(rows);
    forall i | 0 <= i < |body|
      ensures InterfaceOfLine(body[i]) == Some(rows[i].Interface())
    {
      RowRoundTrip(rows[i]);
    }
    Seqs.FilterMapTotal(body, InterfaceOfLine);
  }

  /** A row's line has no newline and nothing to trim at either end. */
  lemma RowLineOk(row: DevRow)
    requires row.WellFormed()
    ensures LineOk(row.Line())
  {
    var numbers := NumberFields(row.counters);
    NumbersAreWords(row.counters);
    WordsLineEnds(numbers);
    var tail := Join(" ", numbers);
    var line := row.Line();
    assert line[0] == row.name[0];
    assert line[|line| - 1] == tail[|tail| - 1];
    assert '\n' !in line by {
      assert line == row.name + ": " + tail;
      assert forall k :: 0 <= k < |row.name| ==> row.name[k] != '\n';
    }
  }
}
