/** Per-process records and the parser for /proc/[pid]/stat. */
module Process {
  import opened Wrappers
  import opened PhpText
  import opened Cpu

  /** Ticks per second assumed by the CPU share of a process. */
  const TicksPerSecond: real := 100.0

  /** The change in a process's counters between two snapshots. */
  datatype ProcessDelta = ProcessDelta(
    pid: int, cpuDelta: CpuTimes, memoryDeltaBytes: int, durationSeconds: real)
  {
    /** CPU seconds used over wall seconds elapsed, as a percentage, at
        a fixed 100 ticks per second; 0 when no time elapsed. */
    function CpuUsagePercentage(): (r: real)
      ensures durationSeconds == 0.0 ==> r == 0.0
      ensures durationSeconds != 0.0 ==> r * durationSeconds == cpuDelta.Total() as real
    {
      if durationSeconds == 0.0 then 0.0
      else (cpuDelta.Total() as real / TicksPerSecond) / durationSeconds * 100.0
    }
  }

  /** Busy ticks over a positive interval never give a negative share,
      and one CPU fully used for the whole interval is 100 percent. */
  lemma ProcessUsageNonNegative(d: ProcessDelta)
    requires d.cpuDelta.NonNegative() && d.durationSeconds > 0.0
    ensures d.CpuUsagePercentage() >= 0.0
    ensures d.cpuDelta.Total() as real == d.durationSeconds * TicksPerSecond ==> d.CpuUsagePercentage() == 100.0
  {
    var r := d.CpuUsagePercentage();
    assert r * d.durationSeconds == d.cpuDelta.Total() as real;
    assert d.cpuDelta.Total() >= 0;
  }

  datatype ProcessResourceUsage = ProcessResourceUsage(
    cpuTimes: CpuTimes, memoryRssBytes: int, memoryVmsBytes: int,
    threadCount: int, openFileDescriptors: int, processCount: int)

  datatype ProcessSnapshot = ProcessSnapshot(pid: int, parentPid: int, resources: ProcessResourceUsage)

  /** "/proc/<pid>/stat". */
  function StatPath(pid: int): string {
    "/proc/" + IntToString(pid) + "/stat"
  }

  /** The whitespace-separated fields after the last ')' of a stat
      line, skipping the one character that follows it; None when there
      is no ')'. */
  function FieldsAfterName(content: string): (r: Option<seq<string>>)
    ensures r.None? <==> ')' !in content
  {
    match LastIndexOf(content, ')')
    case None => None
    case Some(i) => Some(PregSplitWs(Substr(content, i + 2)))
  }

  /** A command name may hold spaces and ')' without moving the fields:
      only the text after the last ')' is split. */
  lemma NameDoesNotShiftFields(head: string, tail: string)
    requires ')' !in tail
    ensures FieldsAfterName(head + ") " + tail) == Some(PregSplitWs(tail))
  {
    var s := head + ") " + tail;
    assert LastIndexOf(s, ')') == Some(|head|) by {
      assert s[|head|] == ')';
      assert s[|head| + 1..] == " " + tail;
      LastIndexOfAt(s, ')', |head|);
    }
    assert s[|head| + 2..] == tail;
  }

  /** The fields after the name are the split of the text two
      characters after the last ')'. */
  lemma FieldsAfterNameAt(content: string, p: nat)
    requires LastIndexOf(content, ')') == Some(p)
    ensures FieldsAfterName(content) == Some(PregSplitWs(Substr(content, p + 2)))
  {
  }

  /** At least two fields after the name leave room for the one
      character the parser skips after the ')'. */
  lemma FieldsAfterNameRoom(c: string)
    requires ')' in c && |FieldsAfterName(c).value| >= 2
    ensures LastIndexOf(c, ')').value + 2 <= |c|
  {
  }

  /** Two stat texts whose texts after the name are `tail` and
      `tail + rest` agree on the second field, given three fields in the
      first. */
  lemma FieldsAfterNameShift(content: string, c: string, tail: string, after: string, rest: string)
    requires FieldsAfterName(c) == Some(PregSplitWs(tail)) && |PregSplitWs(tail)| >= 3
    requires FieldsAfterName(content) == Some(PregSplitWs(after))
    requires after == tail + rest
    ensures FieldsAfterName(content).Some? && |FieldsAfterName(content).value| >= 2
    ensures FieldsAfterName(content).value[1] == FieldsAfterName(c).value[1]
  {
    PregSplitPrefixOf(tail, rest, after, 1);
  }

  /** Two stat texts with the same text after their last ')' have the
      same fields. */
  lemma FieldsFromEqualTails(x: string, y: string, p: nat, q: nat)
    requires LastIndexOf(x, ')') == Some(p) && LastIndexOf(y, ')') == Some(q)
    requires Substr(x, p + 2) == Substr(y, q + 2)
    ensures FieldsAfterName(x) == FieldsAfterName(y)
  {
    FieldsAfterNameAt(x, p);
    FieldsAfterNameAt(y, q);
  }

  /** Text in front of a stat line does not change its fields: the last
      ')' and everything after it move together. */
  lemma {:induction false} FieldsAfterNamePrefixed(a: string, s: string)
    requires ')' in s
    ensures FieldsAfterName(a + s) == FieldsAfterName(s)
  {
    var i := LastIndexOf(s, ')').value;
    LastIndexOfPrefixed(a, s, ')');
    SubstrPrefixed(a, s, i, 2);
    FieldsFromEqualTails(a + s, s, |a| + i, i);
  }

  /** Text after a stat line without a ')' only extends the text after the
      name, so with three fields or more the second one stays. */
  lemma {:induction false} FieldsAfterNameSuffixed(s: string, b: string)
    requires ')' in s && ')' !in b && |FieldsAfterName(s).value| >= 3
    ensures FieldsAfterName(s + b).Some? && |FieldsAfterName(s + b).value| >= 2
    ensures FieldsAfterName(s + b).value[1] == FieldsAfterName(s).value[1]
  {
    var i := LastIndexOf(s, ')').value;
    FieldsAfterNameRoom(s);
    LastIndexOfSuffixed(s, b, ')');
    SubstrSuffixed(s, b, i + 2);
    FieldsAfterNameAt(s, i);
    FieldsAfterNameAt(s + b, i);
    FieldsAfterNameShift(s + b, s, Substr(s, i + 2), Substr(s + b, i + 2), b);
  }

  /** Trimming the stat line first changes at most the last field after
      the name: with at least three fields in the trimmed line, the
      untrimmed line has the same second field. */
  lemma FieldsAfterNameUnderTrim(content: string)
    requires ')' in Trim(content) && |FieldsAfterName(Trim(content)).value| >= 3
    ensures FieldsAfterName(content).Some? && |FieldsAfterName(content).value| >= 2
    ensures FieldsAfterName(content).value[1] == FieldsAfterName(Trim(content)).value[1]
  {
    var l := TrimLeft(content, TrimChars);
    TrimParts(content);
    TrimTailNoParen(content);
    FieldsAfterNameSuffixed(Trim(content), l[|Trim(content)|..]);
    FieldsAfterNamePrefixed(content[..|content| - |l|], l);
  }

  /** LinuxProcPidStatParser::parse. The pid is the caller's, the page
      size and the open-descriptor count are passed in. */
  function ParsePidStat(content: string, pid: int, pageSize: int, openFds: int): (r: Result<ProcessSnapshot>)
    ensures Trim(content) == "" ==> r == Failure(ParseErrorForFile(StatPath(pid), "Empty content"))
    ensures Trim(content) != "" && ')' !in Trim(content) ==>
              r == Failure(ParseErrorForFile(StatPath(pid), "Invalid format: missing closing parenthesis"))
    ensures r.Success? <==> Trim(content) != "" && ')' in Trim(content) && |FieldsAfterName(Trim(content)).value| >= 22
    ensures r.Success? ==> r.value.pid == pid
  {
    var c := Trim(content);
    if c == "" then Failure(ParseErrorForFile(StatPath(pid), "Empty content"))
    else match FieldsAfterName(c)
      case None => Failure(ParseErrorForFile(StatPath(pid), "Invalid format: missing closing parenthesis"))
      case Some(fields) =>
        if |fields| < 22 then Failure(ParseErrorForFile(StatPath(pid), "Insufficient fields"))
        else
          var times := CpuTimes(IntCast(fields[11]), 0, IntCast(fields[12]), 0, 0, 0, 0, 0);
          var usage := ProcessResourceUsage(times, IntCast(fields[21]) * pageSize, IntCast(fields[20]),
                                            IntCast(fields[17]), openFds, 1);
          Success(ProcessSnapshot(pid, IntCast(fields[1]), usage))
  }

  /** The field layout of proc(5): with fields f after the name, the
      parent pid is f[1], user and system ticks f[11] and f[12], the
      thread count f[17], virtual size f[20] and resident pages f[21];
      resident bytes use the given page size and every other tick
      counter is zero. */
  lemma PidStatFieldMapping(content: string, pid: int, pageSize: int, openFds: int)
    requires ParsePidStat(content, pid, pageSize, openFds).Success?
    ensures var f := FieldsAfterName(Trim(content)).value;
      var p := ParsePidStat(content, pid, pageSize, openFds).value;
      && p.parentPid == IntCast(f[1])
      && p.resources.cpuTimes.user == IntCast(f[11])
      && p.resources.cpuTimes.system == IntCast(f[12])
      && p.resources.cpuTimes.Total() == IntCast(f[11]) + IntCast(f[12])
      && p.resources.threadCount == IntCast(f[17])
      && p.resources.memoryVmsBytes == IntCast(f[20])
      && p.resources.memoryRssBytes == IntCast(f[21]) * pageSize
      && p.resources.openFileDescriptors == openFds
      && p.resources.processCount == 1
  {
  }

  /** The stat line of a process: its pid, its command name in
      parentheses, its state and then 21 numeric fields. */
  function StatLine(pid: int, comm: string, state: string, ns: seq<int>): string {
    NamedLine(pid, comm, Join(" ", [state] + NumberFields(ns)))
  }

  /** A pid, a command name in parentheses, and the rest of the line. */
  function NamedLine(pid: int, comm: string, tail: string): string {
    IntToString(pid) + " (" + comm + ") " + tail
  }

  /** A stat line written from numbers is read back: the parent pid and
      the counters come out as written, whatever the command name holds. */
  lemma PidStatRoundTrip(pid: int, comm: string, state: string, ns: seq<int>, pageSize: int)
    requires |ns| == 21
    requires state != "" && NoSpace(state) && ')' !in state
    ensures var r := ParsePidStat(StatLine(pid, comm, state, ns), pid, pageSize, 0);
      && r.Success?
      && r.value.parentPid == ns[0]
      && r.value.resources.cpuTimes.user == ns[10]
      && r.value.resources.cpuTimes.system == ns[11]
      && r.value.resources.threadCount == ns[16]
      && r.value.resources.memoryVmsBytes == ns[19]
      && r.value.resources.memoryRssBytes == ns[20] * pageSize
  {
    var fields := [state] + NumberFields(ns);
    var content := StatLine(pid, comm, state, ns);
    assert SplitsInto(content, fields) by {
      NumberFieldsAreTokens(ns);
      assert forall k :: 0 <= k < |fields| ==> fields[k] != "" && NoSpace(fields[k]) && ')' !in fields[k];
      assert IsDigit(fields[|fields| - 1][|fields[|fields| - 1]| - 1]);
      StatLineFields(pid, comm, fields);
    }
    ReadsNumbersBack(content, state, ns, pid, pageSize);
  }

  lemma ReadsNumbersBack(content: string, state: string, ns: seq<int>, pid: int, pageSize: int)
    requires |ns| == 21
    requires SplitsInto(content, [state] + NumberFields(ns))
    ensures var r := ParsePidStat(content, pid, pageSize, 0);
      && r.Success?
      && r.value.parentPid == ns[0]
      && r.value.resources.cpuTimes.user == ns[10]
      && r.value.resources.cpuTimes.system == ns[11]
      && r.value.resources.threadCount == ns[16]
      && r.value.resources.memoryVmsBytes == ns[19]
      && r.value.resources.memoryRssBytes == ns[20] * pageSize
  {
    var fields := [state] + NumberFields(ns);
    ParseOfFields(content, fields, pid, pageSize, 0);
    NumberFieldsCast(ns);
    forall k | 0 <= k < 21
      ensures IntCast(fields[k + 1]) == ns[k]
    {
      assert IntCast(NumberFields(ns)[k]) == ns[k];
    }
    var rss := IntCast(fields[21]);
    assert rss == ns[20];
    assert rss * pageSize == ns[20] * pageSize;
  }

  /** A line with nothing to trim whose text after the name splits into
      `fields`. */
  predicate SplitsInto(content: string, fields: seq<string>) {
    Trim(content) == content && FieldsAfterName(content) == Some(fields)
  }

  /** How the parser reads a trimmed line once its fields are known. */
  lemma ParseOfFields(content: string, fields: seq<string>, pid: int, pageSize: int, openFds: int)
    requires SplitsInto(content, fields) && |fields| >= 22
    ensures var r := ParsePidStat(content, pid, pageSize, openFds);
      && r.Success?
      && r.value.parentPid == IntCast(fields[1])
      && r.value.resources.cpuTimes.user == IntCast(fields[11])
      && r.value.resources.cpuTimes.system == IntCast(fields[12])
      && r.value.resources.threadCount == IntCast(fields[17])
      && r.value.resources.memoryVmsBytes == IntCast(fields[20])
      && r.value.resources.memoryRssBytes == IntCast(fields[21]) * pageSize
  {
    assert content != "" by {
      assert ')' in content;
    }
  }

  /** A stat line whose fields are plain tokens, the last ending in a
      digit, has nothing to trim and splits back into those fields. */
  lemma StatLineFields(pid: int, comm: string, fields: seq<string>)
    requires |fields| >= 1 && Tokens(fields)
    requires forall k :: 0 <= k < |fields| ==> ')' !in fields[k]
    requires IsDigit(fields[|fields| - 1][|fields[|fields| - 1]| - 1])
    ensures var content := NamedLine(pid, comm, Join(" ", fields));
      SplitsInto(content, fields)
  {
    TokensLine(fields);
    NamedLineFields(pid, comm, Join(" ", fields), fields);
  }

  /** Tokens joined by spaces: the facts a stat line's tail needs. */
  lemma TokensLine(fields: seq<string>)
    requires |fields| >= 1 && Tokens(fields)
    requires forall k :: 0 <= k < |fields| ==> ')' !in fields[k]
    requires IsDigit(fields[|fields| - 1][|fields[|fields| - 1]| - 1])
    ensures var tail := Join(" ", fields);
      && tail != [] && tail[|tail| - 1] !in TrimChars && ')' !in tail
      && PregSplitWs(tail) == fields
  {
    var tail := Join(" ", fields);
    assert tail != [] && tail[|tail| - 1] !in TrimChars by {
      JoinEndsWithLast(" ", fields);
    }
    assert ')' !in tail by {
      JoinAvoids(fields, ')');
    }
    assert PregSplitWs(tail) == fields by {
      PregSplitJoin(fields);
    }
  }

  lemma NamedLineFields(pid: int, comm: string, tail: string, fields: seq<string>)
    requires tail != [] && tail[|tail| - 1] !in TrimChars && ')' !in tail
    requires PregSplitWs(tail) == fields
    ensures var content := NamedLine(pid, comm, tail);
      SplitsInto(content, fields)
  {
    NamedLineTrimmed(pid, comm, tail);
    NamedLineSplit(pid, comm, tail);
  }

  /** A named line that ends in a visible character has nothing to trim. */
  lemma NamedLineTrimmed(pid: int, comm: string, tail: string)
    requires tail != [] && tail[|tail| - 1] !in TrimChars
    ensures Trim(NamedLine(pid, comm, tail)) == NamedLine(pid, comm, tail)
  {
    var p := IntToString(pid);
    assert p != [] && p[0] !in TrimChars by {
      IntToStringShape(pid);
    }
    assert NamedLine(pid, comm, tail) == p + (" (" + comm + ") ") + tail;
    TrimmedConcat(p, " (" + comm + ") ", tail);
  }

  /** The fields of a named line are those of its tail. */
  lemma NamedLineSplit(pid: int, comm: string, tail: string)
    requires ')' !in tail
    ensures FieldsAfterName(NamedLine(pid, comm, tail)) == Some(PregSplitWs(tail))
  {
    var p := IntToString(pid);
    assert NamedLine(pid, comm, tail) == (p + " (" + comm) + ") " + tail;
    NameDoesNotShiftFields(p + " (" + comm, tail);
  }

  lemma NumberFieldsAreTokens(ns: seq<int>)
    ensures forall k :: 0 <= k < |ns| ==> var t := NumberFields(ns)[k];
      t != "" && NoSpace(t) && ')' !in t && t[|t| - 1] != '\0' && IsDigit(t[|t| - 1])
  {
    forall k | 0 <= k < |ns|
      ensures var t := NumberFields(ns)[k];
        t != "" && NoSpace(t) && ')' !in t && t[|t| - 1] != '\0' && IsDigit(t[|t| - 1])
    {
      IntToStringShape(ns[k]);
    }
  }
}
