/** The `iostat -Id` parser for macOS: disk names on the first line,
    column titles on the second, three rate figures per disk on the
    third.  macOS reports rates rather than running totals, so every disk
    is reported with all counters zero. */
module MacOsIostatParser {
  import opened Wrappers
  import opened PhpText
  import Seqs
  import opened Storage

  /** A disk reported without counters. */
  function Idle(device: string): (d: DiskIOStats)
    ensures d.device == device
  {
    DiskIOStats(device, 0, 0, 0, 0, 0, 0)
  }

  function NonEmpty(w: string): bool { w != "" }

  /** The disk names: the words of the first line, empty ones dropped. */
  function DiskNames(lines: seq<string>): seq<string>
    requires |lines| >= 1
  {
    Seqs.Filter(PregSplitWs(Trim(lines[0])), NonEmpty)
  }

  /** The rate figures: the words of the third line. */
  function DataFields(lines: seq<string>): seq<string>
    requires |lines| >= 3
  {
    PregSplitWs(Trim(lines[2]))
  }

  /** How many disks are reported: one per name, as long as the data
      line still holds all three figures of that disk. */
  function DiskCount(names: seq<string>, data: seq<string>): nat {
    if |names| <= |data| / 3 then |names| else |data| / 3
  }

  /** The disks reported for the given names and figures: the first
      DiskCount names, in order, each with zero counters. */
  function Disks(names: seq<string>, data: seq<string>): seq<DiskIOStats> {
    seq(DiskCount(names, data), i requires 0 <= i < |names| => Idle(names[i]))
  }

  /** What parse returns: fewer than three lines is an error; otherwise
      the disks the first and third lines describe. */
  function Parsed(output: string): Result<seq<DiskIOStats>> {
    var lines := OutputLines(output);
    if |lines| < 3 then Failure(ParseErrorWith("iostat output too short"))
    else Success(Disks(DiskNames(lines), DataFields(lines)))
  }

  method Parse(output: string) returns (r: Result<seq<DiskIOStats>>)
    ensures r == Parsed(output)
  {
    var lines := OutputLines(output);
    if |lines| < 3 {
      return Failure(ParseErrorWith("iostat output too short"));
    }
    var diskStats := CollectDisks(DiskNames(lines), DataFields(lines));
    return Success(diskStats);
  }

  /** The loop of parse: one disk per name, stopping at the first disk
      whose three figures the data line no longer holds. */
  method CollectDisks(diskNames: seq<string>, dataFields: seq<string>) returns (diskStats: seq<DiskIOStats>)
    ensures diskStats == Disks(diskNames, dataFields)
  {
    ghost var n := DiskCount(diskNames, dataFields);
    diskStats := [];
    var i := 0;
    while i < |diskNames|
      invariant 0 <= i <= n
      invariant |diskStats| == i
      invariant forall j :: 0 <= j < i ==> diskStats[j] == Idle(diskNames[j])
    {
      var offset := i * 3;
      if offset + 2 >= |dataFields| {
        break;
      }
      diskStats := diskStats + [Idle(diskNames[i])];
      i := i + 1;
    }
    assert i == n;
  }

  /** Output of fewer than three lines, blank output included, is
      rejected with 'iostat output too short'; anything longer parses. */
  lemma ParseTooShort(output: string)
    ensures Parsed(output).Failure? <==> |OutputLines(output)| < 3
    ensures Parsed(output).Failure? ==> Parsed(output).error == Error(ParseError, "iostat output too short")
    ensures Trim(output) == "" ==> Parsed(output).Failure?
  {
    if Trim(output) == "" {
      OutputLinesOfBlank(output);
    }
  }

  /** Disk i is reported exactly when it has a name and the data line
      holds its three figures; it is reported under that name with every
      counter zero. */
  lemma ReportedDisks(output: string, i: int)
    requires Parsed(output).Success?
    ensures var lines := OutputLines(output);
      var names := DiskNames(lines);
      var r := Parsed(output).value;
      && (0 <= i < |r| <==> 0 <= i < |names| && 3 * i + 2 < |DataFields(lines)|)
      && (0 <= i < |r| ==> r[i] == DiskIOStats(names[i], 0, 0, 0, 0, 0, 0))
  {
  }

  /** Every name written on the first line, with three figures each on
      the third, is reported, in order. */
  lemma IostatRoundTrip(names: seq<string>, titles: seq<string>, data: seq<string>)
    requires |names| >= 1 && forall k :: 0 <= k < |names| ==> IsWord(names[k])
    requires |titles| >= 1 && forall k :: 0 <= k < |titles| ==> IsWord(titles[k])
    requires |data| == 3 * |names| && forall k :: 0 <= k < |data| ==> IsWord(data[k])
    ensures Parsed(Join("\n", [Join(" ", names), Join(" ", titles), Join(" ", data)]))
      == Success(seq(|names|, i requires 0 <= i < |names| => Idle(names[i])))
  {
    var lines := [Join(" ", names), Join(" ", titles), Join(" ", data)];
    IostatLines(names, titles, data);
    NamesRead(names, lines);
    WordsLine(data);
    assert DataFields(lines) == data;
  }

  lemma IostatLines(names: seq<string>, titles: seq<string>, data: seq<string>)
    requires |names| >= 1 && forall k :: 0 <= k < |names| ==> IsWord(names[k])
    requires |titles| >= 1 && forall k :: 0 <= k < |titles| ==> IsWord(titles[k])
    requires |data| >= 1 && forall k :: 0 <= k < |data| ==> IsWord(data[k])
    ensures var lines := [Join(" ", names), Join(" ", titles), Join(" ", data)];
      OutputLines(Join("\n", lines)) == lines
  {
    WordsLineEnds(names);
    WordsLineEnds(titles);
    WordsLineEnds(data);
    ThreeLines(Join(" ", names), Join(" ", titles), Join(" ", data));
  }

  lemma NamesRead(names: seq<string>, lines: seq<string>)
    requires |names| >= 1 && forall k :: 0 <= k < |names| ==> IsWord(names[k])
    requires |lines| >= 1 && lines[0] == Join(" ", names)
    ensures DiskNames(lines) == names
  {
    WordsLine(names);
    assert forall k :: 0 <= k < |names| ==> NonEmpty(names[k]);
    Seqs.FilterAll(names, NonEmpty);
  }
}
