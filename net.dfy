/**
 * Vocabulary of the controller platform the application runs on: MAC and
 * IPv4 addresses, parsed Ethernet frames, topology elements (connect points,
 * links, paths, hosts), traffic selectors, treatments and flow rules.
 * Only the parts the application reads or builds are modelled.
 */
module Net {
  import opened Wrappers

  type Mac = m: int | 0 <= m < 0x1_0000_0000_0000
  type Ip4 = a: int | 0 <= a < 0x1_0000_0000
  type Octet = b: int | 0 <= b < 256

  // Ethernet type codes of the frames the application distinguishes.
  const TYPE_IPV4: int := 0x0800
  const TYPE_ARP: int := 0x0806
  const TYPE_LLDP: int := 0x88cc
  const TYPE_BSN: int := 0x8942

  // IPv4 protocol numbers.
  const PROTOCOL_ICMP: int := 1
  const PROTOCOL_TCP: int := 6
  const PROTOCOL_UDP: int := 17

  // ARP operation codes.
  const OP_REQUEST: int := 1
  const OP_REPLY: int := 2

  /** A protocol number the frame parser does not decode further. */
  type OtherProtocol = n: int | n != 1 && n != 6 && n != 17
  /** An Ethernet type whose payload the frame parser keeps as raw data. */
  type OtherEtherType = t: int | t != 0x0800 && t != 0x0806 witness 0x88cc

  /** The transport layer of an IPv4 packet as the frame parser decodes it. */
  datatype Transport =
    | Tcp(tcpSrc: int, tcpDst: int)
    | Udp(udpSrc: int, udpDst: int)
    | Icmp(icmpType: int, icmpCode: int)
    | RawTransport(protocol: OtherProtocol)

  function Protocol(t: Transport): (n: int)
    ensures n == PROTOCOL_UDP <==> t.Udp?
    ensures n == PROTOCOL_ICMP <==> t.Icmp?
    ensures n == PROTOCOL_TCP <==> t.Tcp?
  {
    match t
    case Tcp(_, _) => PROTOCOL_TCP
    case Udp(_, _) => PROTOCOL_UDP
    case Icmp(_, _) => PROTOCOL_ICMP
    case RawTransport(p) => p
  }

  datatype Ipv4Packet = Ipv4Packet(srcAddr: Ip4, dstAddr: Ip4, transport: Transport)

  datatype ArpPacket = ArpPacket(opCode: int, senderMac: Mac, senderIp: Ip4, targetMac: Mac, targetIp: Ip4)

  /** The payload class the frame parser picks from the Ethernet type. */
  datatype Payload =
    | Ipv4Payload(ip: Ipv4Packet)
    | ArpPayload(arp: ArpPacket)
    | OtherPayload(etherType: OtherEtherType)

  datatype Frame = Frame(srcMac: Mac, dstMac: Mac, payload: Payload)

  function EtherType(f: Frame): (t: int)
    ensures t == TYPE_IPV4 <==> f.payload.Ipv4Payload?
    ensures t == TYPE_ARP <==> f.payload.ArpPayload?
  {
    match f.payload
    case Ipv4Payload(_) => TYPE_IPV4
    case ArpPayload(_) => TYPE_ARP
    case OtherPayload(t) => t
  }

  datatype DeviceId = DeviceId(uri: string)
  datatype ConnectPoint = ConnectPoint(deviceId: DeviceId, port: int)
  datatype Link = Link(src: ConnectPoint, dst: ConnectPoint)
  datatype Path = Path(links: seq<Link>)

  /** A host identifier built from a MAC address and no VLAN. */
  datatype HostId = HostId(mac: Mac)
  datatype Host = Host(id: HostId, mac: Option<Mac>, location: ConnectPoint)

  /** A packet handed to a packet processor: where it came in and its parsed frame (`None` when unparsed). */
  datatype InboundPacket = InboundPacket(receivedFrom: ConnectPoint, parsed: Option<Frame>)
  datatype PacketContext = PacketContext(inPacket: InboundPacket, isHandled: bool)

  /** An unchecked exception the Java code can raise on the modelled paths. */
  datatype Fault = NullPointer | ClassCast | IndexOutOfBounds | NumberFormat

  /** The result of a Java call: a returned value or a thrown exception. */
  datatype Outcome<T> = Returned(value: T) | Threw(fault: Fault)

  // ---------------------------------------------------------------- addresses

  datatype IpVersion = INET | INET6
  datatype IpAddress = IpAddress(version: IpVersion, octets: seq<Octet>)
  datatype IpPrefix = IpPrefix(address: IpAddress, prefixLength: nat)

  function Pow2(n: nat): (p: nat)
    ensures p >= 1
  {
    if n == 0 then 1 else 2 * Pow2(n - 1)
  }

  /** The four octets of an IPv4 address, most significant first. */
  function Octets4(a: Ip4): (o: seq<Octet>)
    ensures |o| == 4
  {
    [a / 256 / 256 / 256, a / 256 / 256 % 256, a / 256 % 256, a % 256]
  }

  function Ip4Address(a: Ip4): IpAddress
  {
    IpAddress(INET, Octets4(a))
  }

  /** The address with every bit after the first `len` cleared. */
  function Mask(a: Ip4, len: nat): (m: Ip4)
    requires len <= 32
    ensures m <= a && a - m < Pow2(32 - len)
    ensures m == a / Pow2(32 - len) * Pow2(32 - len)
  {
    var p := Pow2(32 - len);
    ModBound(a, p);
    DivModSplit(a, p);
    a - a % p
  }

  /** Euclidean division: `a` is its quotient times `p` plus its remainder. */
  lemma DivModSplit(a: nat, p: nat)
    requires p > 0
    ensures a - a % p == a / p * p
  {
  }

  lemma ModBound(a: nat, p: nat)
    requires p > 0
    ensures 0 <= a % p < p && a % p <= a
  {
    if a < p {
      assert a == p * 0 + a;
    }
  }

  /** The IPv4 prefix of length `len` that contains `a`, as `Ip4Prefix.valueOf` builds it. */
  function Ip4PrefixOf(a: Ip4, len: nat): IpPrefix
    requires len <= 32
  {
    IpPrefix(Ip4Address(Mask(a, len)), len)
  }

  lemma Octets4Injective(a: Ip4, b: Ip4)
    requires Octets4(a) == Octets4(b)
    ensures a == b
  {
    assert Octets4(a)[0] == Octets4(b)[0] && Octets4(a)[1] == Octets4(b)[1];
    assert Octets4(a)[2] == Octets4(b)[2] && Octets4(a)[3] == Octets4(b)[3];
    DigitsAgree(a / 256 / 256, b / 256 / 256);
    DigitsAgree(a / 256, b / 256);
    DigitsAgree(a, b);
  }

  /** Two naturals with the same last base-256 digit and the same quotient by 256 are equal. */
  lemma DigitsAgree(x: nat, y: nat)
    requires x / 256 == y / 256 && x % 256 == y % 256
    ensures x == y
  {
  }

  /** A host prefix (/32) identifies its address: two addresses give equal /32 prefixes exactly when they are equal. */
  lemma HostPrefixIdentifies(a: Ip4, b: Ip4)
    ensures Ip4PrefixOf(a, 32) == Ip4PrefixOf(b, 32) <==> a == b
  {
    assert Pow2(0) == 1;
    if Ip4PrefixOf(a, 32) == Ip4PrefixOf(b, 32) {
      assert Octets4(a) == Octets4(b);
      Octets4Injective(a, b);
    }
  }

  /** Two addresses fall in the same /24 prefix exactly when they agree on everything but the last octet. */
  lemma Slash24Prefix(a: Ip4, b: Ip4)
    ensures Ip4PrefixOf(a, 24) == Ip4PrefixOf(b, 24) <==> a / 256 == b / 256
  {
    assert Pow2(8) == 256;
    assert Mask(a, 24) == a / 256 * 256;
    assert Mask(b, 24) == b / 256 * 256;
    if Ip4PrefixOf(a, 24) == Ip4PrefixOf(b, 24) {
      assert Octets4(Mask(a, 24)) == Octets4(Mask(b, 24));
      Octets4Injective(Mask(a, 24), Mask(b, 24));
    }
  }

  // ------------------------------------------------------- selectors and rules

  /**
   * A traffic selector: at most one criterion per header field, as the
   * selector builder keeps only the last criterion given for each field.
   */
  datatype Selector = Selector(
    ethType: Option<int>,
    ethSrc: Option<Mac>,
    ethDst: Option<Mac>,
    ipProto: Option<int>,
    ipSrc: Option<IpPrefix>,
    ipDst: Option<IpPrefix>,
    udpSrc: Option<int>,
    udpDst: Option<int>,
    icmpType: Option<int>,
    icmpCode: Option<int>)

  const EmptySelector: Selector := Selector(None, None, None, None, None, None, None, None, None, None)

  /** What a selector builder method hands back: a selector, `null`, or an exception. */
  datatype Built = Selected(selector: Selector) | NoSelector | Thrown(fault: Fault)

  /** The IPv4 prefix `p` contains the address `a`. */
  predicate ContainsAddress(p: IpPrefix, a: Ip4)
  {
    p.prefixLength <= 32 && Ip4PrefixOf(a, p.prefixLength) == p
  }

  /** A host prefix contains exactly its own address. */
  lemma HostPrefixContains(a: Ip4, b: Ip4)
    ensures ContainsAddress(Ip4PrefixOf(a, 32), b) <==> a == b
  {
    HostPrefixIdentifies(a, b);
  }

  /** The frame satisfies every criterion the selector holds; a criterion on a field the frame lacks fails. */
  predicate Matches(s: Selector, f: Frame)
  {
    && (s.ethType.Some? ==> EtherType(f) == s.ethType.value)
    && (s.ethSrc.Some? ==> f.srcMac == s.ethSrc.value)
    && (s.ethDst.Some? ==> f.dstMac == s.ethDst.value)
    && (s.ipProto.Some? ==> f.payload.Ipv4Payload? && Protocol(f.payload.ip.transport) == s.ipProto.value)
    && (s.ipSrc.Some? ==> f.payload.Ipv4Payload? && ContainsAddress(s.ipSrc.value, f.payload.ip.srcAddr))
    && (s.ipDst.Some? ==> f.payload.Ipv4Payload? && ContainsAddress(s.ipDst.value, f.payload.ip.dstAddr))
    && (s.udpSrc.Some? ==> f.payload.Ipv4Payload? && f.payload.ip.transport.Udp? && f.payload.ip.transport.udpSrc == s.udpSrc.value)
    && (s.udpDst.Some? ==> f.payload.Ipv4Payload? && f.payload.ip.transport.Udp? && f.payload.ip.transport.udpDst == s.udpDst.value)
    && (s.icmpType.Some? ==> f.payload.Ipv4Payload? && f.payload.ip.transport.Icmp? && f.payload.ip.transport.icmpType == s.icmpType.value)
    && (s.icmpCode.Some? ==> f.payload.Ipv4Payload? && f.payload.ip.transport.Icmp? && f.payload.ip.transport.icmpCode == s.icmpCode.value)
  }

  /** A treatment instruction, applied in sequence order. */
  datatype Instruction = SetEthDst(mac: Mac) | Output(port: int)

  /** `IdleTimeout(t)` is a rule built with `withIdleTimeout(t)`; `Temporary(t)` one built with `makeTemporary(t)`. */
  datatype Timeout = IdleTimeout(seconds: int) | Temporary(seconds: int)

  datatype FlowRule = FlowRule(
    deviceId: DeviceId,
    selector: Selector,
    treatment: seq<Instruction>,
    priority: int,
    timeout: Timeout,
    tableId: int)
}
