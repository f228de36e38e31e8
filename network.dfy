/** Network interfaces, their traffic counters, the interface-name
    classifier and the snapshot that aggregates them. */
module Network {
  import opened Wrappers
  import opened PhpText
  import Seqs

  // ---------------------------------------------------------------
  // NetworkInterfaceStats
  // ---------------------------------------------------------------

  datatype NetworkInterfaceStats = NetworkInterfaceStats(
    bytesReceived: int, bytesSent: int, packetsReceived: int, packetsSent: int,
    receiveErrors: int, transmitErrors: int, receiveDrops: int, transmitDrops: int)
  {
    /** Traffic in both directions. */
    function TotalBytes(): (r: int)
      ensures r - bytesSent == bytesReceived
      ensures bytesReceived >= 0 && bytesSent >= 0 ==> r >= bytesReceived && r >= bytesSent
    {
      bytesReceived + bytesSent
    }

    function TotalPackets(): (r: int)
      ensures r - packetsSent == packetsReceived
      ensures packetsReceived >= 0 && packetsSent >= 0 ==> r >= packetsReceived && r >= packetsSent
    {
      packetsReceived + packetsSent
    }

    function TotalErrors(): (r: int)
      ensures r - transmitErrors == receiveErrors
      ensures receiveErrors >= 0 && transmitErrors >= 0 ==> r >= receiveErrors && r >= transmitErrors
    {
      receiveErrors + transmitErrors
    }

    function TotalDrops(): (r: int)
      ensures r - transmitDrops == receiveDrops
      ensures receiveDrops >= 0 && transmitDrops >= 0 ==> r >= receiveDrops && r >= transmitDrops
    {
      receiveDrops + transmitDrops
    }
  }

  // ---------------------------------------------------------------
  // NetworkInterfaceType
  // ---------------------------------------------------------------

  datatype NetworkInterfaceType =
    | Ethernet | Wifi | Loopback | Bridge | Vlan | Tun | Tap | Vpn
    | Cellular | Bluetooth | Other

  /** The prefixes fromInterfaceName tests, in the order it tests them. */
  const InterfacePrefixes: seq<(string, NetworkInterfaceType)> := [
    ("lo", Loopback), ("eth", Ethernet), ("en", Ethernet),
    ("wlan", Wifi), ("wl", Wifi), ("wi", Wifi), ("br", Bridge),
    ("vlan", Vlan), ("tun", Tun), ("tap", Tap), ("vpn", Vpn),
    ("ppp", Cellular), ("wwan", Cellular), ("bt", Bluetooth)]

  /** The type of the first rule in `rules` whose prefix starts `n`. */
  function FirstPrefixRule(n: string, rules: seq<(string, NetworkInterfaceType)>): (t: NetworkInterfaceType)
    requires forall k :: 0 <= k < |rules| ==> rules[k].1 != Other
    ensures t == Other <==> forall k :: 0 <= k < |rules| ==> !StartsWith(n, rules[k].0)
  {
    if rules == [] then Other
    else if StartsWith(n, rules[0].0) then rules[0].1
    else
      assert forall k :: 1 <= k < |rules| ==> rules[k] == rules[1..][k - 1];
      FirstPrefixRule(n, rules[1..])
  }

  /** The classifier on a name that is already trimmed and lower-cased. */
  function ClassifyNormalized(n: string): NetworkInterfaceType {
    FirstPrefixRule(n, InterfacePrefixes)
  }

  /** fromInterfaceName: trims and lower-cases the name, then the first
      prefix in the list decides; a name no prefix starts is Other. */
  function FromInterfaceName(name: string): (t: NetworkInterfaceType)
    ensures t == Other <==> forall k :: 0 <= k < |InterfacePrefixes| ==> !StartsWith(ToLower(Trim(name)), InterfacePrefixes[k].0)
  {
    ClassifyNormalized(ToLower(Trim(name)))
  }

  /** Case and surrounding whitespace do not matter. */
  lemma InterfaceTypeIgnoresCaseAndPadding(name: string)
    ensures FromInterfaceName(name) == FromInterfaceName(ToLower(Trim(name)))
  {
    NormalizeIdempotent(name);
  }

  /** The rule at position `k` decides exactly when its prefix starts
      the name and no earlier prefix does. */
  lemma {:induction false} FirstPrefixRuleDecides(n: string, rules: seq<(string, NetworkInterfaceType)>, k: nat)
    requires forall j :: 0 <= j < |rules| ==> rules[j].1 != Other
    requires k < |rules| && StartsWith(n, rules[k].0)
    requires forall j :: 0 <= j < k ==> !StartsWith(n, rules[j].0)
    ensures FirstPrefixRule(n, rules) == rules[k].1
  {
    if k > 0 {
      assert !StartsWith(n, rules[0].0);
      assert forall j :: 0 <= j < k - 1 ==> rules[1..][j] == rules[j + 1];
      FirstPrefixRuleDecides(n, rules[1..], k - 1);
    }
  }

  /** Only the first four characters of a normalised name matter: no
      tested prefix is longer than four. */
  lemma ClassifyReadsFourChars(n: string)
    requires |n| >= 4
    ensures ClassifyNormalized(n) == ClassifyNormalized(n[..4])
  {
    forall k | 0 <= k < |InterfacePrefixes|
      ensures StartsWith(n, InterfacePrefixes[k].0) <==> StartsWith(n[..4], InterfacePrefixes[k].0)
    {
      var p := InterfacePrefixes[k].0;
      assert |p| <= 4;
      assert n[..4][..|p|] == n[..|p|];
    }
    PrefixRulesAgree(n, n[..4], InterfacePrefixes);
  }

  /** Two names that every prefix treats alike are classified alike. */
  lemma {:induction false} PrefixRulesAgree(a: string, b: string, rules: seq<(string, NetworkInterfaceType)>)
    requires forall k :: 0 <= k < |rules| ==> rules[k].1 != Other
    requires forall k :: 0 <= k < |rules| ==> (StartsWith(a, rules[k].0) <==> StartsWith(b, rules[k].0))
    ensures FirstPrefixRule(a, rules) == FirstPrefixRule(b, rules)
  {
    if rules != [] {
      assert forall k :: 0 <= k < |rules| - 1 ==> rules[1..][k] == rules[k + 1];
      PrefixRulesAgree(a, b, rules[1..]);
    }
  }

  /** "lo0" is the loopback interface. */
  lemma LoopbackExample()
    ensures ClassifyNormalized("lo0") == Loopback
  {
    assert StartsWith("lo0", "lo");
    FirstPrefixRuleDecides("lo0", InterfacePrefixes, 0);
  }

  /** "eth0" is Ethernet: "lo", tested first, does not start it. */
  lemma EthernetExample()
    ensures ClassifyNormalized("eth0") == Ethernet
  {
    assert !StartsWith("eth0", "lo") by { assert "eth0"[0] != "lo"[0]; }
    assert StartsWith("eth0", "eth");
    FirstPrefixRuleDecides("eth0", InterfacePrefixes, 1);
  }

  /** "wlan0" is WiFi. */
  lemma WifiExample()
    ensures ClassifyNormalized("wlan0") == Wifi
  {
    assert !StartsWith("wlan0", "lo") by { assert "wlan0"[0] != "lo"[0]; }
    assert !StartsWith("wlan0", "eth") by { assert "wlan0"[0] != "eth"[0]; }
    assert !StartsWith("wlan0", "en") by { assert "wlan0"[0] != "en"[0]; }
    assert StartsWith("wlan0", "wlan");
    FirstPrefixRuleDecides("wlan0", InterfacePrefixes, 3);
  }

  // ---------------------------------------------------------------
  // NetworkInterface, NetworkConnectionStats, NetworkSnapshot
  // ---------------------------------------------------------------

  datatype NetworkInterface = NetworkInterface(
    name: string, kind: NetworkInterfaceType, macAddress: string,
    stats: NetworkInterfaceStats, isUp: bool, mtu: int)

  datatype NetworkConnectionStats = NetworkConnectionStats(
    tcpEstablished: int, tcpListening: int, tcpTimeWait: int,
    udpListening: int, totalConnections: int)

  function BytesReceived(i: NetworkInterface): int { i.stats.bytesReceived }
  function BytesSent(i: NetworkInterface): int { i.stats.bytesSent }
  function PacketsReceived(i: NetworkInterface): int { i.stats.packetsReceived }
  function PacketsSent(i: NetworkInterface): int { i.stats.packetsSent }
  function InterfaceBytes(i: NetworkInterface): int { i.stats.TotalBytes() }

  /** `k` is the first position where `p` holds. */
  predicate FirstWhere(ifaces: seq<NetworkInterface>, p: NetworkInterface -> bool, k: int) {
    0 <= k < |ifaces| && p(ifaces[k]) && forall j :: 0 <= j < k ==> !p(ifaces[j])
  }

  datatype NetworkSnapshot = NetworkSnapshot(interfaces: seq<NetworkInterface>, connections: Option<NetworkConnectionStats>)
  {
    function TotalBytesReceived(): int { Seqs.Sum(interfaces, BytesReceived) }
    function TotalBytesSent(): int { Seqs.Sum(interfaces, BytesSent) }
    function TotalPacketsReceived(): int { Seqs.Sum(interfaces, PacketsReceived) }
    function TotalPacketsSent(): int { Seqs.Sum(interfaces, PacketsSent) }

    /** The first interface with exactly this (case-sensitive) name. */
    function FindInterface(name: string): (r: Option<NetworkInterface>)
      ensures r.None? <==> forall k :: 0 <= k < |interfaces| ==> interfaces[k].name != name
      ensures r.Some? ==> exists k :: FirstWhere(interfaces, (i: NetworkInterface) => i.name == name, k) && interfaces[k] == r.value
    {
      Seqs.Find(interfaces, (i: NetworkInterface) => i.name == name)
    }

    /** The interfaces of one type, in list order. */
    function FindByType(t: NetworkInterfaceType): (r: seq<NetworkInterface>)
      ensures forall k :: 0 <= k < |r| ==> r[k] in interfaces && r[k].kind == t
      ensures forall k :: 0 <= k < |interfaces| && interfaces[k].kind == t ==> interfaces[k] in r
    {
      Seqs.Filter(interfaces, (i: NetworkInterface) => i.kind == t)
    }

    /** The interfaces that are up, in list order. */
    function FindActiveInterfaces(): (r: seq<NetworkInterface>)
      ensures forall k :: 0 <= k < |r| ==> r[k] in interfaces && r[k].isUp
      ensures forall k :: 0 <= k < |interfaces| && interfaces[k].isUp ==> interfaces[k] in r
    {
      Seqs.Filter(interfaces, (i: NetworkInterface) => i.isUp)
    }

    /** The first interface with exactly this (case-sensitive) MAC
        address; "" finds the first interface without one. */
    function FindByMacAddress(mac: string): (r: Option<NetworkInterface>)
      ensures r.None? <==> forall k :: 0 <= k < |interfaces| ==> interfaces[k].macAddress != mac
      ensures r.Some? ==> exists k :: FirstWhere(interfaces, (i: NetworkInterface) => i.macAddress == mac, k) && interfaces[k] == r.value
    {
      Seqs.Find(interfaces, (i: NetworkInterface) => i.macAddress == mac)
    }
  }

  /** findByType keeps list order and duplicates: filtering two
      concatenated interface lists gives the matches of the first followed
      by those of the second, and one interface is kept exactly when it
      has the type. */
  lemma FindByTypeInOrder(a: seq<NetworkInterface>, b: seq<NetworkInterface>, i: NetworkInterface,
                          c: Option<NetworkConnectionStats>, t: NetworkInterfaceType)
    ensures NetworkSnapshot(a + b, c).FindByType(t) == NetworkSnapshot(a, c).FindByType(t) + NetworkSnapshot(b, c).FindByType(t)
    ensures NetworkSnapshot([i], c).FindByType(t) == if i.kind == t then [i] else []
  {
    Seqs.FilterAppend(a, b, (x: NetworkInterface) => x.kind == t);
  }

  /** findActiveInterfaces keeps list order and duplicates in the same
      way, keeping one interface exactly when it is up. */
  lemma FindActiveInOrder(a: seq<NetworkInterface>, b: seq<NetworkInterface>, i: NetworkInterface,
                          c: Option<NetworkConnectionStats>)
    ensures NetworkSnapshot(a + b, c).FindActiveInterfaces()
      == NetworkSnapshot(a, c).FindActiveInterfaces() + NetworkSnapshot(b, c).FindActiveInterfaces()
    ensures NetworkSnapshot([i], c).FindActiveInterfaces() == if i.isUp then [i] else []
  {
    Seqs.FilterAppend(a, b, (x: NetworkInterface) => x.isUp);
  }

  /** The received and sent totals add up to the per-interface byte
      totals, and listing more interfaces adds their traffic. */
  lemma NetworkTotals(a: seq<NetworkInterface>, b: seq<NetworkInterface>, c: Option<NetworkConnectionStats>)
    ensures NetworkSnapshot(a, c).TotalBytesReceived() + NetworkSnapshot(a, c).TotalBytesSent() == Seqs.Sum(a, InterfaceBytes)
    ensures NetworkSnapshot(a + b, c).TotalBytesReceived() == NetworkSnapshot(a, c).TotalBytesReceived() + NetworkSnapshot(b, c).TotalBytesReceived()
    ensures NetworkSnapshot(a + b, c).TotalBytesSent() == NetworkSnapshot(a, c).TotalBytesSent() + NetworkSnapshot(b, c).TotalBytesSent()
    ensures NetworkSnapshot(a + b, c).TotalPacketsReceived() == NetworkSnapshot(a, c).TotalPacketsReceived() + NetworkSnapshot(b, c).TotalPacketsReceived()
    ensures NetworkSnapshot(a + b, c).TotalPacketsSent() == NetworkSnapshot(a, c).TotalPacketsSent() + NetworkSnapshot(b, c).TotalPacketsSent()
  {
    Seqs.SumAdd(a, BytesReceived, BytesSent, InterfaceBytes);
    Seqs.SumAppend(a, b, BytesReceived);
    Seqs.SumAppend(a, b, BytesSent);
    Seqs.SumAppend(a, b, PacketsReceived);
    Seqs.SumAppend(a, b, PacketsSent);
  }

  /** Every interface is either up or not, so the active filter and its
      complement together keep every interface. */
  lemma ActiveOrInactive(s: NetworkSnapshot)
    ensures |s.FindActiveInterfaces()| + |Seqs.Filter(s.interfaces, (i: NetworkInterface) => !i.isUp)| == |s.interfaces|
  {
    ActiveSplit(s.interfaces);
  }

  lemma {:induction false} ActiveSplit(ifaces: seq<NetworkInterface>)
    ensures |Seqs.Filter(ifaces, (i: NetworkInterface) => i.isUp)| + |Seqs.Filter(ifaces, (i: NetworkInterface) => !i.isUp)| == |ifaces|
    decreases |ifaces|
  {
    if ifaces != [] {
      ActiveSplit(ifaces[..|ifaces| - 1]);
    }
  }
}
