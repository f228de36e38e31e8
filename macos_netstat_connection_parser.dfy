/** The `netstat -an` parser for macOS: counts established, listening
    and time-wait TCP sockets and all UDP sockets.  It never fails. */
module MacOsNetstatConnectionParser {
  import opened Wrappers
  import opened PhpText
  import Seqs
  import opened Network

  /** Which counter a line feeds. */
  datatype Tally = Established | Listening | TimeWait | UdpSocket | Uncounted

  /** The counter a line feeds: none for blank lines, the two header
      lines (starting "Active" and "Proto") and lines of fewer than five
      fields; otherwise decided by the protocol (field 0) and the state
      (field 5, "" when absent). */
  function Classify(line: string): Tally {
    var t := Trim(line);
    if t == "" || StartsWith(t, "Active") || StartsWith(t, "Proto") then Uncounted
    else
      var fields := PregSplitWs(t);
      if |fields| < 5 then Uncounted
      else ClassifyFields(fields[0], if |fields| > 5 then fields[5] else "")
  }

  /** A tcp socket counts only in one of three states; every udp socket
      counts as listening; other protocols count nothing. */
  function ClassifyFields(proto: string, state: string): Tally {
    if StartsWith(proto, "tcp") then
      match state
      case "ESTABLISHED" => Established
      case "LISTEN" => Listening
      case "TIME_WAIT" => TimeWait
      case _ => Uncounted
    else if StartsWith(proto, "udp") then UdpSocket
    else Uncounted
  }

  /** The statistics the lines add up to; the total is the sum of the
      four counters. */
  function Stats(lines: seq<string>): NetworkConnectionStats {
    StatsBy(lines, Classify)
  }

  /** The statistics for any classification of lines. */
  function StatsBy(lines: seq<string>, classify: string -> Tally): NetworkConnectionStats {
    var established := Seqs.CountOf(lines, classify, Established);
    var listening := Seqs.CountOf(lines, classify, Listening);
    var timeWait := Seqs.CountOf(lines, classify, TimeWait);
    var udp := Seqs.CountOf(lines, classify, UdpSocket);
    NetworkConnectionStats(established, listening, timeWait, udp, established + listening + timeWait + udp)
  }

  function Parsed(output: string): Result<NetworkConnectionStats> {
    Success(Stats(OutputLines(output)))
  }

  method Parse(output: string) returns (r: Result<NetworkConnectionStats>)
    ensures r == Parsed(output)
  {
    var lines := OutputLines(output);
    var stats := Count(lines, Classify);
    return Success(stats);
  }

  /** The counting loop of parse(), for any classification of lines. */
  method Count(lines: seq<string>, classify: string -> Tally) returns (stats: NetworkConnectionStats)
    ensures stats == StatsBy(lines, classify)
  {
    var tcpEstablished, tcpListening, tcpTimeWait, udpListening :=
      Seqs.CountFour(lines, classify, Established, Listening, TimeWait, UdpSocket);
    var totalConnections := tcpEstablished + tcpListening + tcpTimeWait + udpListening;
    stats := NetworkConnectionStats(tcpEstablished, tcpListening, tcpTimeWait, udpListening, totalConnections);
  }

  /** Parsing always succeeds, and the total never exceeds the number of
      lines, since each line feeds at most one counter. */
  lemma TotalWithinLines(output: string)
    ensures Parsed(output).Success?
    ensures var s := Parsed(output).value;
      s.totalConnections == s.tcpEstablished + s.tcpListening + s.tcpTimeWait + s.udpListening
      && s.totalConnections <= |OutputLines(output)|
  {
    Seqs.FourCountsWithinLength(OutputLines(output), Classify, Established, Listening, TimeWait, UdpSocket);
  }

  /** Blank output counts nothing. */
  lemma BlankOutputCountsNothing(output: string)
    requires Trim(output) == ""
    ensures Parsed(output) == Success(NetworkConnectionStats(0, 0, 0, 0, 0))
  {
    OutputLinesOfBlank(output);
    assert Classify("") == Uncounted;
    assert [""][..0] == [];
  }

  /** One more line raises exactly the counter it feeds, and the total
      with it; a line that feeds no counter changes nothing. */
  lemma OneMoreLine(lines: seq<string>, line: string)
    ensures var before := Stats(lines);
      var after := Stats(lines + [line]);
      var bump := (k: Tally) => if Classify(line) == k then 1 else 0;
      && after.tcpEstablished == before.tcpEstablished + bump(Established)
      && after.tcpListening == before.tcpListening + bump(Listening)
      && after.tcpTimeWait == before.tcpTimeWait + bump(TimeWait)
      && after.udpListening == before.udpListening + bump(UdpSocket)
      && after.totalConnections == before.totalConnections + (if Classify(line) == Uncounted then 0 else 1)
  {
    Seqs.CountOfSnoc(lines, line, Classify, Established);
    Seqs.CountOfSnoc(lines, line, Classify, Listening);
    Seqs.CountOfSnoc(lines, line, Classify, TimeWait);
    Seqs.CountOfSnoc(lines, line, Classify, UdpSocket);
  }

  /** A socket line written as words starting with its protocol is
      counted by its protocol and its sixth field alone. */
  lemma SocketLine(ws: seq<string>)
    requires |ws| >= 5 && forall k :: 0 <= k < |ws| ==> IsWord(ws[k])
    requires StartsWith(ws[0], "tcp") || StartsWith(ws[0], "udp")
    ensures Classify(Join(" ", ws)) == ClassifyFields(ws[0], if |ws| > 5 then ws[5] else "")
  {
    var line := Join(" ", ws);
    WordsLine(ws);
    JoinStartsWithFirst(" ", ws);
    NotHeader(line, ws[0]);
    ClassifyOfFields(line, ws);
  }

  /** A line starting with a tcp or udp protocol name is no header. */
  lemma NotHeader(line: string, proto: string)
    requires StartsWith(proto, "tcp") || StartsWith(proto, "udp")
    requires |line| >= |proto| && line[..|proto|] == proto
    ensures !StartsWith(line, "Active") && !StartsWith(line, "Proto")
  {
    assert line[0] == proto[0];
    assert proto[0] == 't' || proto[0] == 'u';
    assert "Active"[0] == 'A' && "Proto"[0] == 'P';
  }

  lemma ClassifyOfFields(line: string, ws: seq<string>)
    requires Trim(line) == line && line != "" && PregSplitWs(line) == ws && |ws| >= 5
    requires !StartsWith(line, "Active") && !StartsWith(line, "Proto")
    ensures Classify(line) == ClassifyFields(ws[0], if |ws| > 5 then ws[5] else "")
  {
  }
}
