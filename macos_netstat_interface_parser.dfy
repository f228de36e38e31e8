/** The `netstat -ib` parser for macOS: a header line, then one row per
    interface address with packet, error and byte counters. */
module MacOsNetstatInterfaceParser {
  import opened Wrappers
  import opened PhpText
  import Seqs
  import opened Network

  // ---------------------------------------------------------------
  // The MAC address check
  // ---------------------------------------------------------------

  /** One to two hexadecimal digits, either case. */
  predicate IsHexGroup(g: string) {
    1 <= |g| <= 2 && forall j :: 0 <= j < |g| ==> IsHexDigit(g[j])
  }

  /** The address pattern the parser accepts: six groups of one or two
      hexadecimal digits separated by ':', nothing before or after (a
      field never holds the trailing newline PCRE's `$` would allow). */
  predicate IsMacAddress(s: string) {
    var groups := Explode(s, ':');
    |groups| == 6 && forall k :: 0 <= k < 6 ==> IsHexGroup(groups[k])
  }

  /** Six hex groups joined by ':' make an address, and the address
      splits back into those groups. */
  lemma MacOfGroups(groups: seq<string>)
    requires |groups| == 6 && forall k :: 0 <= k < 6 ==> IsHexGroup(groups[k])
    ensures IsMacAddress(Join(":", groups))
    ensures Explode(Join(":", groups), ':') == groups
  {
    forall k | 0 <= k < 6
      ensures ':' !in groups[k]
    {
      assert !IsHexDigit(':');
    }
    ExplodeJoined(groups, ':');
  }

  /** Text without ':' is never an address: the link column's
      "<Link#1>" is dropped. */
  lemma NoColonNoMac(s: string)
    requires ':' !in s
    ensures !IsMacAddress(s)
  {
    ExplodeNoSeparator(s, ':');
  }

  // ---------------------------------------------------------------
  // parse
  // ---------------------------------------------------------------

  /** The interface a line describes, or None when the line is blank or
      has fewer than eleven fields.  Fields: name 0, MTU 1, address 3,
      packets/errors/bytes received 4-6 and sent 7-9; an address that
      is not a MAC address becomes ""; netstat -ib reports no drops and
      every listed interface counts as up. */
  function InterfaceOfLine(line: string): (r: Option<NetworkInterface>)
    ensures r.Some? <==> LineFields(line, 11).Some?
  {
    match LineFields(line, 11)
    case None => None
    case Some(f) => Some(InterfaceOfFields(f))
  }

  function InterfaceOfFields(f: seq<string>): NetworkInterface
    requires |f| >= 11
  {
    var macAddress := if IsMacAddress(f[3]) then f[3] else "";
    NetworkInterface(f[0], FromInterfaceName(f[0]), macAddress,
      NetworkInterfaceStats(
        bytesReceived := IntCast(f[6]), bytesSent := IntCast(f[9]),
        packetsReceived := IntCast(f[4]), packetsSent := IntCast(f[7]),
        receiveErrors := IntCast(f[5]), transmitErrors := IntCast(f[8]),
        receiveDrops := 0, transmitDrops := 0),
      true, IntCast(f[1]))
  }

  /** What parse returns: too few lines is an error; otherwise the header
      is dropped by position and each remaining line gives at most one
      interface, in order. */
  function Parsed(output: string): Result<seq<NetworkInterface>> {
    var lines := OutputLines(output);
    if |lines| < 2 then Failure(ParseErrorWith("netstat output too short"))
    else Success(Seqs.FilterMap(lines[1..], InterfaceOfLine))
  }

  method Parse(output: string) returns (r: Result<seq<NetworkInterface>>)
    ensures r == Parsed(output)
  {
    var lines := OutputLines(output);
    if |lines| < 2 {
      return Failure(ParseErrorWith("netstat output too short"));
    }
    var body := lines[1..];
    var interfaces := Seqs.CollectFilterMap(body, InterfaceOfLine);
    return Success(interfaces);
  }

  /** Output of fewer than two lines, blank output included, is rejected
      with 'netstat output too short'; anything longer parses. */
  lemma ParseTooShort(output: string)
    ensures Parsed(output).Failure? <==> |OutputLines(output)| < 2
    ensures Parsed(output).Failure? ==> Parsed(output).error == Error(ParseError, "netstat output too short")
    ensures Trim(output) == "" ==> Parsed(output).Failure?
  {
    if Trim(output) == "" {
      OutputLinesOfBlank(output);
    }
  }

  /** Every interface netstat yields counts as up, reports no drops,
      carries either a MAC address or "", and has the type its name
      suggests. */
  lemma ParsedInterfaceShape(output: string, i: NetworkInterface)
    requires Parsed(output).Success? && i in Parsed(output).value
    ensures i.isUp && i.stats.receiveDrops == 0 && i.stats.transmitDrops == 0
    ensures i.macAddress == "" || IsMacAddress(i.macAddress)
    ensures i.kind == FromInterfaceName(i.name)
  {
    var body := OutputLines(output)[1..];
    Seqs.FilterMapMembers(body, InterfaceOfLine, i);
    var j :| 0 <= j < |body| && InterfaceOfLine(body[j]) == Some(i);
    FieldsShape(LineFields(body[j], 11).value);
  }

  lemma FieldsShape(f: seq<string>)
    requires |f| >= 11
    ensures var i := InterfaceOfFields(f);
      && i.isUp && i.stats.receiveDrops == 0 && i.stats.transmitDrops == 0
      && (i.macAddress == "" || IsMacAddress(i.macAddress))
      && i.kind == FromInterfaceName(i.name)
  {
  }

  /** A row of `netstat -ib` output as the model writes it. */
  datatype NetstatRow = NetstatRow(
    name: string, mtu: int, network: string, address: string,
    packetsIn: int, errorsIn: int, bytesIn: int,
    packetsOut: int, errorsOut: int, bytesOut: int, collisions: int)
  {
    predicate WellFormed() {
      IsWord(name) && IsWord(network) && IsWord(address)
    }

    function Words(): seq<string> {
      [name, IntToString(mtu), network, address,
       IntToString(packetsIn), IntToString(errorsIn), IntToString(bytesIn),
       IntToString(packetsOut), IntToString(errorsOut), IntToString(bytesOut),
       IntToString(collisions)]
    }

    /** The same row with the address column left empty, as netstat
        prints interfaces that have no link-level address. */
    function WordsWithoutAddress(): seq<string> {
      Words()[..3] + Words()[4..]
    }

    /** The interface this row stands for. */
    function Interface(): NetworkInterface {
      NetworkInterface(name, FromInterfaceName(name), if IsMacAddress(address) then address else "",
        NetworkInterfaceStats(bytesIn, bytesOut, packetsIn, packetsOut, errorsIn, errorsOut, 0, 0),
        true, mtu)
    }
  }

  lemma RowWordsAreWords(row: NetstatRow)
    requires row.WellFormed()
    ensures forall k :: 0 <= k < |row.Words()| ==> IsWord(row.Words()[k])
  {
    IntToStringIsWord(row.mtu);
    IntToStringIsWord(row.packetsIn);
    IntToStringIsWord(row.errorsIn);
    IntToStringIsWord(row.bytesIn);
    IntToStringIsWord(row.packetsOut);
    IntToStringIsWord(row.errorsOut);
    IntToStringIsWord(row.bytesOut);
    IntToStringIsWord(row.collisions);
  }

  /** A written row is read back as its interface. */
  lemma RowRoundTrip(row: NetstatRow)
    requires row.WellFormed()
    ensures InterfaceOfLine(Join(" ", row.Words())) == Some(row.Interface())
  {
    var w := row.Words();
    assert LineFields(Join(" ", w), 11) == Some(w) by {
      RowWordsAreWords(row);
      WordsLineFields(w, 11);
    }
    RowFields(row);
  }

  /** The row's own fields are read back as its interface. */
  lemma RowFields(row: NetstatRow)
    ensures InterfaceOfFields(row.Words()) == row.Interface()
  {
    IntCastOfIntToString(row.mtu);
    IntCastOfIntToString(row.packetsIn);
    IntCastOfIntToString(row.errorsIn);
    IntCastOfIntToString(row.bytesIn);
    IntCastOfIntToString(row.packetsOut);
    IntCastOfIntToString(row.errorsOut);
    IntCastOfIntToString(row.bytesOut);
  }

  /** A row printed without an address column has only ten fields and
      is skipped: such interfaces, the loopback among them, are not
      reported at all. */
  lemma AddresslessRowSkipped(row: NetstatRow)
    requires row.WellFormed()
    ensures InterfaceOfLine(Join(" ", row.WordsWithoutAddress())).None?
  {
    var w := row.WordsWithoutAddress();
    RowWordsAreWords(row);
    assert |w| == 10;
    assert forall k :: 0 <= k < |w| ==> IsWord(w[k]) by {
      forall k | 0 <= k < |w|
        ensures IsWord(w[k])
      {
        if k < 3 {
          assert w[k] == row.Words()[k];
        } else {
          assert w[k] == row.Words()[k + 1];
        }
      }
    }
    WordsLineFields(w, 11);
  }

  function RowWords(rows: seq<NetstatRow>): (r: seq<seq<string>>)
    ensures |r| == |rows| && forall i :: 0 <= i < |rows| ==> r[i] == rows[i].Words()
  {
    seq(|rows|, i requires 0 <= i < |rows| => rows[i].Words())
  }

  function Interfaces(rows: seq<NetstatRow>): (r: seq<NetworkInterface>)
    ensures |r| == |rows| && forall i :: 0 <= i < |rows| ==> r[i] == rows[i].Interface()
  {
    seq(|rows|, i requires 0 <= i < |rows| => rows[i].Interface())
  }

  /** A header and rows written out as netstat -ib prints them parse
      back to one interface per row, in order; a header alone is too
      short. */
  lemma NetstatRoundTrip(header: seq<string>, rows: seq<NetstatRow>)
    requires |header| >= 1 && forall k :: 0 <= k < |header| ==> IsWord(header[k])
    requires forall i :: 0 <= i < |rows| ==> rows[i].WellFormed()
    ensures var r := Parsed(Join("\n", [Join(" ", header)] + JoinRows(RowWords(rows))));
      if rows == [] then r.Failure? else r == Success(Interfaces(rows))
  {
    RowsAreWords(rows);
    WordTable(header, RowWords(rows));
    BodyRoundTrip(rows);
  }

  lemma RowsAreWords(rows: seq<NetstatRow>)
    requires forall i :: 0 <= i < |rows| ==> rows[i].WellFormed()
    ensures var words := RowWords(rows);
      forall i :: 0 <= i < |words| ==> |words[i]| >= 1 && forall k :: 0 <= k < |words[i]| ==> IsWord(words[i][k])
  {
    var words := RowWords(rows);
    forall i | 0 <= i < |words|
      ensures |words[i]| >= 1 && forall k :: 0 <= k < |words[i]| ==> IsWord(words[i][k])
    {
      RowWordsAreWords(rows[i]);
    }
  }

  lemma BodyRoundTrip(rows: seq<NetstatRow>)
    requires forall i :: 0 <= i < |rows| ==> rows[i].WellFormed()
    ensures Seqs.FilterMap(JoinRows(RowWords(rows)), InterfaceOfLine) == Interfaces(rows)
  {
    var body := JoinRows(RowWords(rows));
    forall i | 0 <= i < |body|
      ensures InterfaceOfLine(body[i]) == Some(rows[i].Interface())
    {
      RowRoundTrip(rows[i]);
    }
    Seqs.FilterMapTotal(body, InterfaceOfLine);
  }
}
