/**
 * The ICMP (ping) selector builders. Each matches the packet's addresses as
 * host prefixes and its ICMP type and code; the intra-region one also
 * matches the Ethernet addresses.
 */
module IcmpPolicyParsers {
  import opened Wrappers
  import opened Net
  import opened Policies

  /** The parser's match switches. */
  datatype IcmpFlags = IcmpFlags(matchIpv4Address: bool, matchIcmpFields: bool)

  /** Both switches are declared on. */
  const DefaultIcmpFlags: IcmpFlags := IcmpFlags(true, true)

  /**
   * The selector for the ping packet `ethPkt`, matching its Ethernet
   * addresses when `withMacs`. A frame that is not IPv4 fails the cast; a
   * packet that is not ICMP gets no selector.
   */
  function PingSelector(flags: IcmpFlags, ethPkt: Frame, withMacs: bool): (r: Built)
    ensures !ethPkt.payload.Ipv4Payload? <==> r == Thrown(ClassCast)
    ensures ethPkt.payload.Ipv4Payload? && Protocol(ethPkt.payload.ip.transport) != PROTOCOL_ICMP <==> r == NoSelector
    ensures r.Selected? ==> Matches(r.selector, ethPkt)
  {
    if !ethPkt.payload.Ipv4Payload? then Thrown(ClassCast)
    else
      var ip := ethPkt.payload.ip;
      if Protocol(ip.transport) != PROTOCOL_ICMP then NoSelector
      else
        var s0 := EmptySelector;
        var s1 :=
          if flags.matchIpv4Address then
            var withAddresses := s0.(ethType := Some(TYPE_IPV4), ipSrc := Some(Ip4PrefixOf(ip.srcAddr, 32)), ipDst := Some(Ip4PrefixOf(ip.dstAddr, 32)));
            if withMacs then withAddresses.(ethSrc := Some(ethPkt.srcMac), ethDst := Some(ethPkt.dstMac)) else withAddresses
          else s0;
        var s2 :=
          if flags.matchIcmpFields then
            s1.(ipProto := Some(PROTOCOL_ICMP), icmpCode := Some(ip.transport.icmpCode), icmpType := Some(ip.transport.icmpType))
          else s1;
        HostPrefixContains(ip.srcAddr, ip.srcAddr);
        HostPrefixContains(ip.dstAddr, ip.dstAddr);
        Selected(s2)
  }

  /** The intra-region ping selector; the path link and the policy play no part. */
  function IntraPingTrafficSelector(flags: IcmpFlags, pkt: InboundPacket, ethPkt: Frame, pathLink: Option<Link>, policy: DefaultPolicy): (r: Built)
    ensures r.Selected? ==> Matches(r.selector, ethPkt)
  {
    PingSelector(flags, ethPkt, true)
  }

  /** The inter-region ping selector; it never matches Ethernet addresses, and the resolved MAC plays no part. */
  function InterPingTrafficSelector(flags: IcmpFlags, pkt: InboundPacket, ethPkt: Frame, dstMac: Mac, policy: DefaultPolicy): (r: Built)
    ensures r.Selected? ==> Matches(r.selector, ethPkt) && r.selector.ethSrc.None? && r.selector.ethDst.None?
  {
    PingSelector(flags, ethPkt, false)
  }

  /**
   * With the default switches the intra selector is precise: a frame it
   * matches is an ICMP packet with the same addresses, Ethernet addresses,
   * ICMP type and ICMP code.
   */
  lemma IntraPingPrecise(pkt: InboundPacket, ethPkt: Frame, pathLink: Option<Link>, policy: DefaultPolicy, other: Frame)
    requires IntraPingTrafficSelector(DefaultIcmpFlags, pkt, ethPkt, pathLink, policy).Selected?
    requires Matches(IntraPingTrafficSelector(DefaultIcmpFlags, pkt, ethPkt, pathLink, policy).selector, other)
    ensures other.srcMac == ethPkt.srcMac && other.dstMac == ethPkt.dstMac
    ensures other.payload.Ipv4Payload? && other.payload.ip.srcAddr == ethPkt.payload.ip.srcAddr
    ensures other.payload.ip.dstAddr == ethPkt.payload.ip.dstAddr
    ensures other.payload.ip.transport == ethPkt.payload.ip.transport
  {
    var ip := ethPkt.payload.ip;
    HostPrefixContains(ip.srcAddr, other.payload.ip.srcAddr);
    HostPrefixContains(ip.dstAddr, other.payload.ip.dstAddr);
  }

  /**
   * With the default switches the inter selector matches exactly the ICMP
   * packets with the same addresses, type and code, whatever their Ethernet
   * addresses.
   */
  lemma InterPingMatchesExactly(pkt: InboundPacket, ethPkt: Frame, dstMac: Mac, policy: DefaultPolicy, other: Frame)
    requires InterPingTrafficSelector(DefaultIcmpFlags, pkt, ethPkt, dstMac, policy).Selected?
    ensures Matches(InterPingTrafficSelector(DefaultIcmpFlags, pkt, ethPkt, dstMac, policy).selector, other) <==>
      && other.payload.Ipv4Payload?
      && other.payload.ip.srcAddr == ethPkt.payload.ip.srcAddr
      && other.payload.ip.dstAddr == ethPkt.payload.ip.dstAddr
      && other.payload.ip.transport == ethPkt.payload.ip.transport
  {
    var ip := ethPkt.payload.ip;
    if other.payload.Ipv4Payload? {
      HostPrefixContains(ip.srcAddr, other.payload.ip.srcAddr);
      HostPrefixContains(ip.dstAddr, other.payload.ip.dstAddr);
    }
  }

  /**
   * Each switch guards its own criteria: with the address switch off the
   * selector holds no Ethernet type, address or MAC criterion; with the ICMP
   * switch off it holds no protocol, ICMP type or code criterion; with both
   * off it is empty.
   */
  lemma SwitchesOff(flags: IcmpFlags, ethPkt: Frame, withMacs: bool)
    requires PingSelector(flags, ethPkt, withMacs).Selected?
    ensures var s := PingSelector(flags, ethPkt, withMacs).selector;
      && (!flags.matchIpv4Address ==>
            s.ethType.None? && s.ipSrc.None? && s.ipDst.None? && s.ethSrc.None? && s.ethDst.None?)
      && (!flags.matchIcmpFields ==> s.ipProto.None? && s.icmpType.None? && s.icmpCode.None?)
      && (!flags.matchIpv4Address && !flags.matchIcmpFields ==> s == EmptySelector)
  {
  }
}
