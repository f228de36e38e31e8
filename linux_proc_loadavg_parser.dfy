/** The /proc/loadavg parser: the first three fields are the 1-, 5- and
    15-minute load averages. */
module LinuxProcLoadavgParser {
  import opened Wrappers
  import opened PhpText
  import opened LoadAverage

  /** What parse returns: blank content and fewer than three fields are
      errors about /proc/loadavg; otherwise the first three fields. */
  function Parsed(content: string): Result<LoadAverageSnapshot> {
    var t := Trim(content);
    if t == "" then Failure(ParseErrorForFile("/proc/loadavg", "Empty content"))
    else
      var fields := PregSplitWs(t);
      if |fields| < 3 then Failure(ParseErrorForFile("/proc/loadavg", "Insufficient fields"))
      else Success(SnapshotOfFields(fields))
  }

  /** Parsing fails exactly for blank content and for content of fewer
      than three fields, each with its own reason; otherwise it reads the
      first three fields. */
  lemma ParseErrors(content: string)
    ensures var t := Trim(content);
      var r := Parsed(content);
      && (r.Failure? <==> t == "" || |PregSplitWs(t)| < 3)
      && (t == "" ==> r.error == ParseErrorForFile("/proc/loadavg", "Empty content"))
      && (t != "" && |PregSplitWs(t)| < 3 ==> r.error == ParseErrorForFile("/proc/loadavg", "Insufficient fields"))
      && (r.Success? ==> r.value == SnapshotOfFields(PregSplitWs(t)))
  {
  }

  /** The line the kernel writes, three decimals, the running/total
      task counts and the last process id, is read back as the three
      averages. */
  lemma LoadavgRoundTrip(one: Decimal, five: Decimal, fifteen: Decimal, tasks: string, lastPid: nat)
    requires one.WellFormed() && five.WellFormed() && fifteen.WellFormed() && IsWord(tasks)
    ensures Parsed(Join(" ", [one.Text(), five.Text(), fifteen.Text(), tasks, NatToString(lastPid)]) + "\n")
      == Success(LoadAverageSnapshot(one.Value(), five.Value(), fifteen.Value()))
  {
    var ws := [one.Text(), five.Text(), fifteen.Text(), tasks, NatToString(lastPid)];
    DecimalIsWord(one);
    DecimalIsWord(five);
    DecimalIsWord(fifteen);
    IntToStringIsWord(lastPid);
    TerminatedWordsLine(ws);
    FieldsRead(Join(" ", ws) + "\n", ws);
    FloatCastOfDecimal(one);
    FloatCastOfDecimal(five);
    FloatCastOfDecimal(fifteen);
  }

  lemma FieldsRead(content: string, fields: seq<string>)
    requires Trim(content) != "" && PregSplitWs(Trim(content)) == fields && |fields| >= 3
    ensures Parsed(content) == Success(SnapshotOfFields(fields))
  {
  }
}
