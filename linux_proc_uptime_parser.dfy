/** The /proc/uptime parser: the first of two decimals is the seconds
    since boot.  The current instant is a parameter. */
module LinuxProcUptimeParser {
  import opened Wrappers
  import opened PhpText
  import opened Uptime

  /** What parse returns at instant `now`: blank content, fewer than two
      fields and a negative first field are errors; otherwise the whole
      seconds of the first field, and the boot instant that many seconds
      before `now`. */
  function Parsed(contents: string, now: int): Result<UptimeSnapshot> {
    var t := Trim(contents);
    if t == "" then Failure(ParseErrorWith("Empty /proc/uptime content"))
    else
      var parts := PregSplitWs(t);
      if |parts| < 2 then Failure(ParseErrorWith("Invalid /proc/uptime format"))
      else
        SnapshotOfSeconds(FloatCast(parts[0]), now)
  }

  /** The snapshot for an uptime in seconds: negative is an error;
      otherwise the whole seconds, and the boot instant that many
      seconds before `now`. */
  function SnapshotOfSeconds(seconds: real, now: int): Result<UptimeSnapshot> {
    if seconds < 0.0 then Failure(ParseErrorWith("Invalid uptime value: negative seconds"))
    else
      var totalSeconds := seconds.Floor;
      Success(UptimeSnapshot(totalSeconds, now - totalSeconds, now))
  }

  /** Each of the three failures happens exactly in its own case, with
      its own message. */
  lemma ParseErrors(contents: string, now: int)
    ensures var t := Trim(contents);
      var r := Parsed(contents, now);
      && (t == "" ==> r == Failure(Error(ParseError, "Empty /proc/uptime content")))
      && (t != "" && |PregSplitWs(t)| < 2 ==> r == Failure(Error(ParseError, "Invalid /proc/uptime format")))
      && (t != "" && |PregSplitWs(t)| >= 2 ==>
            (r.Failure? <==> FloatCast(PregSplitWs(t)[0]) < 0.0)
            && (r.Failure? ==> r.error == Error(ParseError, "Invalid uptime value: negative seconds")))
  {
  }

  /** A snapshot read from /proc/uptime holds the whole seconds of the
      first field, never negative, taken at `now`, with the boot instant
      that many seconds earlier. */
  lemma ParsedSnapshot(contents: string, now: int)
    requires Parsed(contents, now).Success?
    ensures var u := Parsed(contents, now).value;
      var seconds := FloatCast(PregSplitWs(Trim(contents))[0]);
      && u.totalSeconds >= 0 && u.timestamp == now && u.bootTime + u.totalSeconds == now
      && u.totalSeconds as real <= seconds < u.totalSeconds as real + 1.0
  {
  }

  /** The line the kernel writes, uptime and idle time as decimals, is
      read back as the whole seconds of the uptime. */
  lemma UptimeRoundTrip(uptime: Decimal, idle: Decimal, now: int)
    requires uptime.WellFormed() && idle.WellFormed()
    ensures Parsed(Join(" ", [uptime.Text(), idle.Text()]) + "\n", now)
      == Success(UptimeSnapshot(uptime.whole, now - uptime.whole, now))
  {
    var ws := [uptime.Text(), idle.Text()];
    var contents := Join(" ", ws) + "\n";
    LineRead(uptime, idle);
    FieldsRead(contents, ws, now);
    WholeSeconds(uptime, now);
  }

  lemma LineRead(uptime: Decimal, idle: Decimal)
    requires uptime.WellFormed() && idle.WellFormed()
    ensures var ws := [uptime.Text(), idle.Text()];
      var contents := Join(" ", ws) + "\n";
      Trim(contents) != "" && PregSplitWs(Trim(contents)) == ws
  {
    DecimalIsWord(uptime);
    DecimalIsWord(idle);
    TerminatedWordsLine([uptime.Text(), idle.Text()]);
  }

  lemma WholeSeconds(uptime: Decimal, now: int)
    requires uptime.WellFormed()
    ensures SnapshotOfSeconds(FloatCast(uptime.Text()), now) == Success(UptimeSnapshot(uptime.whole, now - uptime.whole, now))
  {
    FloatCastOfDecimal(uptime);
    SnapshotOfDecimal(FloatCast(uptime.Text()), uptime, now);
  }

  lemma SnapshotOfDecimal(seconds: real, uptime: Decimal, now: int)
    requires uptime.WellFormed() && seconds == uptime.Value()
    ensures SnapshotOfSeconds(seconds, now) == Success(UptimeSnapshot(uptime.whole, now - uptime.whole, now))
  {
    DecimalFloor(uptime);
  }

  lemma FieldsRead(contents: string, fields: seq<string>, now: int)
    requires Trim(contents) != "" && PregSplitWs(Trim(contents)) == fields && |fields| >= 2
    ensures Parsed(contents, now) == SnapshotOfSeconds(FloatCast(fields[0]), now)
  {
  }
}
