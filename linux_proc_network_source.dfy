/** The Linux network source: interfaces from /proc/net/dev (mandatory),
    connection counts from /proc/net/tcp and /proc/net/udp when both can
    be read and parsed.  Both parsers are constructor arguments of the
    source, so both are parameters here: the net/dev parser defaults to
    LinuxProcNetDevParser.Parsed, and the tcp/udp parser is not part of
    this model. */
module LinuxProcNetworkSource {
  import opened Wrappers
  import opened Network
  import opened Acquisition
  import opened PhpText
  import LinuxProcNetDevParser

  const NetDevPath := "/proc/net/dev"
  const TcpPath := "/proc/net/tcp"
  const UdpPath := "/proc/net/udp"
  const NetDevFailedMessage := "Failed to read /proc/net/dev"

  /** The connection counts: present only when both files are read and
      their parse succeeds. */
  function Connections(tcp: Result<string>, udp: Result<string>,
                       parseConnections: (string, string) -> Result<NetworkConnectionStats>): Option<NetworkConnectionStats>
  {
    if tcp.Success? && udp.Success? && parseConnections(tcp.value, udp.value).Success? then
      Some(parseConnections(tcp.value, udp.value).value)
    else None
  }

  /** What read returns, given the file contents and the two parsers. */
  function Read(contents: string -> Result<string>,
                parseNetDev: string -> Result<seq<NetworkInterface>>,
                parseConnections: (string, string) -> Result<NetworkConnectionStats>): Result<NetworkSnapshot>
  {
    var netDev := contents(NetDevPath);
    if netDev.Failure? then Failure(Error(SystemMetricsError, NetDevFailedMessage))
    else
      var interfaces := parseNetDev(netDev.value);
      if interfaces.Failure? then Failure(interfaces.error)
      else Success(NetworkSnapshot(interfaces.value, Connections(contents(TcpPath), contents(UdpPath), parseConnections)))
  }

  /** The files read reads: tcp and udp, both, once net/dev is read and
      parsed. */
  function Paths(contents: string -> Result<string>, parseNetDev: string -> Result<seq<NetworkInterface>>): seq<string> {
    var netDev := contents(NetDevPath);
    if netDev.Failure? || parseNetDev(netDev.value).Failure? then [NetDevPath]
    else [NetDevPath, TcpPath, UdpPath]
  }

  method ReadNetwork(reader: FileReader, parseNetDev: string -> Result<seq<NetworkInterface>>,
                     parseConnections: (string, string) -> Result<NetworkConnectionStats>)
    returns (r: Result<NetworkSnapshot>)
    modifies reader
    ensures r == Read(reader.contents, parseNetDev, parseConnections)
    ensures reader.readPaths == old(reader.readPaths) + Paths(reader.contents, parseNetDev)
  {
    var netDevResult := reader.Read(NetDevPath);
    if netDevResult.Failure? {
      return Failure(Error(SystemMetricsError, NetDevFailedMessage));
    }
    var interfacesResult := parseNetDev(netDevResult.value);
    if interfacesResult.Failure? {
      return Failure(interfacesResult.error);
    }
    var interfaces := interfacesResult.value;

    var connections := None;
    ghost var before := reader.readPaths;
    var tcpResult := reader.Read(TcpPath);
    var udpResult := reader.Read(UdpPath);
    assert reader.readPaths == before + [TcpPath, UdpPath];
    if tcpResult.Success? && udpResult.Success? {
      var connectionsResult := parseConnections(tcpResult.value, udpResult.value);
      if connectionsResult.Success? {
        connections := Some(connectionsResult.value);
      }
    }
    return Success(NetworkSnapshot(interfaces, connections));
  }

  /** read succeeds exactly when net/dev is read and parsed, and then
      holds the parsed interfaces; an unreadable net/dev always gives the
      same fixed message and a parse failure is passed on unchanged. */
  lemma ReadOutcome(contents: string -> Result<string>, parseNetDev: string -> Result<seq<NetworkInterface>>,
                    parseConnections: (string, string) -> Result<NetworkConnectionStats>)
    ensures var netDev := contents(NetDevPath);
      var r := Read(contents, parseNetDev, parseConnections);
      && (r.Success? <==> netDev.Success? && parseNetDev(netDev.value).Success?)
      && (r.Success? ==> r.value.interfaces == parseNetDev(netDev.value).value)
      && (netDev.Failure? ==> r == Failure(Error(SystemMetricsError, "Failed to read /proc/net/dev")))
      && (netDev.Success? && parseNetDev(netDev.value).Failure? ==> r == Failure(parseNetDev(netDev.value).error))
  {
  }

  /** With the default parser, a blank /proc/net/dev fails with that
      parser's own "too short" error. */
  lemma BlankNetDev(contents: string -> Result<string>,
                    parseConnections: (string, string) -> Result<NetworkConnectionStats>)
    requires contents(NetDevPath).Success? && Trim(contents(NetDevPath).value) == ""
    ensures Read(contents, LinuxProcNetDevParser.Parsed, parseConnections)
      == Failure(Error(ParseError, "/proc/net/dev content too short"))
    ensures Paths(contents, LinuxProcNetDevParser.Parsed) == [NetDevPath]
  {
    LinuxProcNetDevParser.ParseTooShort(contents(NetDevPath).value);
  }

  /** The connection counts are present exactly when both files are read
      and parsed, and then they are the parser's; their absence never
      makes read fail, and both files are read whatever the other gives. */
  lemma ConnectionsOptional(contents: string -> Result<string>, parseNetDev: string -> Result<seq<NetworkInterface>>,
                            parseConnections: (string, string) -> Result<NetworkConnectionStats>)
    requires Read(contents, parseNetDev, parseConnections).Success?
    ensures var tcp := contents(TcpPath);
      var udp := contents(UdpPath);
      var c := Read(contents, parseNetDev, parseConnections).value.connections;
      && (c.Some? <==> tcp.Success? && udp.Success? && parseConnections(tcp.value, udp.value).Success?)
      && (c.Some? ==> c.value == parseConnections(tcp.value, udp.value).value)
      && Paths(contents, parseNetDev) == [NetDevPath, TcpPath, UdpPath]
  {
  }
}
