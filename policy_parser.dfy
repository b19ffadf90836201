/**
 * The default policy parser: the host-list gate, the dispatch on the
 * policy's application type, and the voice-over-IP selector. The HTTP and
 * video-streaming matchers belong to other components and arrive as
 * functions whose results are not interpreted.
 */
module PolicyParsers {
  import opened Wrappers
  import opened Net
  import opened Enums
  import opened ApplicationTypes
  import opened TrafficProfiles
  import opened Policies
  import opened IcmpPolicyParsers

  /** The parser's match switches used by the voice-over-IP selector. */
  datatype ParserFlags = ParserFlags(matchIpv4Address: bool, matchTcpUdpPorts: bool)

  /** Both switches are declared on. */
  const DefaultParserFlags: ParserFlags := ParserFlags(true, true)

  /** The matchers of the components the parser delegates to, each answering a selector or `null`. */
  datatype Delegates = Delegates(
    intraHttp: (InboundPacket, Frame, DefaultPolicy) -> Option<Selector>,
    interHttp: (InboundPacket, Frame, Mac, DefaultPolicy) -> Option<Selector>,
    intraVideo: (InboundPacket, Frame, DefaultPolicy) -> Option<Selector>,
    interVideo: (InboundPacket, Frame, DefaultPolicy) -> Option<Selector>,
    icmpFlags: IcmpFlags)

  function FromOption(s: Option<Selector>): (r: Built)
    ensures r.Selected? <==> s.Some?
    ensures r.Selected? ==> r.selector == s.value
    ensures !r.Thrown?
  {
    if s.Some? then Selected(s.value) else NoSelector
  }

  // ----------------------------------------------------------- the VOIP matcher

  /**
   * The selector for a voice-over-IP packet: nothing unless it is UDP over
   * IPv4; otherwise its host addresses and Ethernet addresses when
   * addresses are matched, and its UDP ports when ports are matched.
   */
  function VoipTrafficSelector(flags: ParserFlags, pkt: InboundPacket, ethPkt: Frame, policy: DefaultPolicy): (r: Built)
    ensures !ethPkt.payload.Ipv4Payload? <==> r == Thrown(ClassCast)
    ensures ethPkt.payload.Ipv4Payload? && Protocol(ethPkt.payload.ip.transport) != PROTOCOL_UDP <==> r == NoSelector
    ensures r.Selected? ==> Matches(r.selector, ethPkt)
    ensures r.Selected? ==> r.selector.icmpType.None? && r.selector.icmpCode.None?
  {
    if !ethPkt.payload.Ipv4Payload? then Thrown(ClassCast)
    else
      var ip := ethPkt.payload.ip;
      if Protocol(ip.transport) != PROTOCOL_UDP then NoSelector
      else
        var s0 := EmptySelector;
        var s1 :=
          if flags.matchIpv4Address then
            s0.(ethType := Some(TYPE_IPV4), ipSrc := Some(Ip4PrefixOf(ip.srcAddr, 32)), ipDst := Some(Ip4PrefixOf(ip.dstAddr, 32)),
                ethSrc := Some(ethPkt.srcMac), ethDst := Some(ethPkt.dstMac))
          else s0;
        var s2 :=
          if flags.matchTcpUdpPorts then
            s1.(ipProto := Some(PROTOCOL_UDP), udpSrc := Some(ip.transport.udpSrc), udpDst := Some(ip.transport.udpDst))
          else s1;
        HostPrefixContains(ip.srcAddr, ip.srcAddr);
        HostPrefixContains(ip.dstAddr, ip.dstAddr);
        Selected(s2)
  }

  /**
   * With the default switches the voice selector matches exactly the UDP
   * packets with the same host addresses, Ethernet addresses and ports.
   */
  lemma VoipMatchesExactly(pkt: InboundPacket, ethPkt: Frame, policy: DefaultPolicy, other: Frame)
    requires VoipTrafficSelector(DefaultParserFlags, pkt, ethPkt, policy).Selected?
    ensures Matches(VoipTrafficSelector(DefaultParserFlags, pkt, ethPkt, policy).selector, other) <==>
      && other.srcMac == ethPkt.srcMac && other.dstMac == ethPkt.dstMac
      && other.payload.Ipv4Payload?
      && other.payload.ip.srcAddr == ethPkt.payload.ip.srcAddr
      && other.payload.ip.dstAddr == ethPkt.payload.ip.dstAddr
      && other.payload.ip.transport == ethPkt.payload.ip.transport
  {
    var ip := ethPkt.payload.ip;
    if other.payload.Ipv4Payload? {
      HostPrefixContains(ip.srcAddr, other.payload.ip.srcAddr);
      HostPrefixContains(ip.dstAddr, other.payload.ip.dstAddr);
    }
  }

  // ------------------------------------------------------------------ dispatch

  /**
   * The selector of the policy's application type for an intra-region
   * packet. The payload is cast to IPv4 first; a missing profile or
   * application type then fails. Web and video go to their matchers, voice
   * to the VOIP selector, ping to the intra ping selector; FTP and TFTP get
   * no selector.
   */
  function LocalIntraTrafficSelector(flags: ParserFlags, delegates: Delegates, pkt: InboundPacket, ethPkt: Frame, pathLink: Option<Link>, policy: DefaultPolicy): (r: Built)
    ensures !ethPkt.payload.Ipv4Payload? ==> r == Thrown(ClassCast)
    ensures ethPkt.payload.Ipv4Payload? && (policy.trafficProfile.None? || policy.trafficProfile.value.applicationType.None?) ==> r == Thrown(NullPointer)
  {
    if !ethPkt.payload.Ipv4Payload? then Thrown(ClassCast)
    else if policy.trafficProfile.None? || policy.trafficProfile.value.applicationType.None? then Thrown(NullPointer)
    else
      var app := policy.trafficProfile.value.applicationType.value;
      var transportProtocol := GetTransportProtocol(app);
      if transportProtocol == TCPv4 && app == WEB then FromOption(delegates.intraHttp(pkt, ethPkt, policy))
      else if transportProtocol == UDPv4 && app == VOIP then VoipTrafficSelector(flags, pkt, ethPkt, policy)
      else if transportProtocol == ICMPv4 && app == ApplicationType.PING then
        IntraPingTrafficSelector(delegates.icmpFlags, pkt, ethPkt, pathLink, policy)
      else if transportProtocol == TCPv4 && app == ApplicationType.VIDEO_STREAMING then FromOption(delegates.intraVideo(pkt, ethPkt, policy))
      else NoSelector
  }

  /** The inter-region counterpart: the same dispatch without a voice branch. */
  function LocalInterTrafficSelector(delegates: Delegates, pkt: InboundPacket, ethPkt: Frame, dstMac: Mac, policy: DefaultPolicy): (r: Built)
    ensures !ethPkt.payload.Ipv4Payload? ==> r == Thrown(ClassCast)
    ensures ethPkt.payload.Ipv4Payload? && (policy.trafficProfile.None? || policy.trafficProfile.value.applicationType.None?) ==> r == Thrown(NullPointer)
  {
    if !ethPkt.payload.Ipv4Payload? then Thrown(ClassCast)
    else if policy.trafficProfile.None? || policy.trafficProfile.value.applicationType.None? then Thrown(NullPointer)
    else
      var app := policy.trafficProfile.value.applicationType.value;
      var transportProtocol := GetTransportProtocol(app);
      if transportProtocol == TCPv4 && app == WEB then FromOption(delegates.interHttp(pkt, ethPkt, dstMac, policy))
      else if transportProtocol == ICMPv4 && app == ApplicationType.PING then
        InterPingTrafficSelector(delegates.icmpFlags, pkt, ethPkt, dstMac, policy)
      else if transportProtocol == TCPv4 && app == ApplicationType.VIDEO_STREAMING then FromOption(delegates.interVideo(pkt, ethPkt, policy))
      else NoSelector
  }

  /** The application type of a policy whose profile names one. */
  predicate HasApplication(policy: DefaultPolicy, a: ApplicationType)
  {
    policy.trafficProfile.Some? && policy.trafficProfile.value.applicationType == Some(a)
  }

  /**
   * On an IPv4 packet the intra dispatch depends on the application type
   * alone: web and video reach their matchers, voice the VOIP selector,
   * ping the intra ping selector, and FTP and TFTP nothing.
   */
  lemma IntraDispatch(flags: ParserFlags, delegates: Delegates, pkt: InboundPacket, ethPkt: Frame, pathLink: Option<Link>, policy: DefaultPolicy, a: ApplicationType)
    requires ethPkt.payload.Ipv4Payload? && HasApplication(policy, a)
    ensures var r := LocalIntraTrafficSelector(flags, delegates, pkt, ethPkt, pathLink, policy);
      && (a == WEB ==> r == FromOption(delegates.intraHttp(pkt, ethPkt, policy)))
      && (a == VOIP ==> r == VoipTrafficSelector(flags, pkt, ethPkt, policy))
      && (a == ApplicationType.PING ==> r == IntraPingTrafficSelector(delegates.icmpFlags, pkt, ethPkt, pathLink, policy))
      && (a == ApplicationType.VIDEO_STREAMING ==> r == FromOption(delegates.intraVideo(pkt, ethPkt, policy)))
      && (a == FTP || a == TFTP ==> r == NoSelector)
  {
    TransportOfEachType(a);
  }

  /** The inter dispatch has no voice branch: a voice policy, like FTP and TFTP, never yields an inter selector. */
  lemma InterDispatch(delegates: Delegates, pkt: InboundPacket, ethPkt: Frame, dstMac: Mac, policy: DefaultPolicy, a: ApplicationType)
    requires ethPkt.payload.Ipv4Payload? && HasApplication(policy, a)
    ensures var r := LocalInterTrafficSelector(delegates, pkt, ethPkt, dstMac, policy);
      && (a == WEB ==> r == FromOption(delegates.interHttp(pkt, ethPkt, dstMac, policy)))
      && (a == ApplicationType.PING ==> r == InterPingTrafficSelector(delegates.icmpFlags, pkt, ethPkt, dstMac, policy))
      && (a == ApplicationType.VIDEO_STREAMING ==> r == FromOption(delegates.interVideo(pkt, ethPkt, policy)))
      && (a == VOIP || a == FTP || a == TFTP ==> r == NoSelector)
  {
    TransportOfEachType(a);
  }

  // ----------------------------------------------------------------- host gate

  /**
   * The host-list test: the packet's pair of hosts is listed in either
   * orientation, or one list is empty and either host is in the other.
   */
  predicate HostGate(srcHosts: seq<HostId>, dstHosts: seq<HostId>, srcId: HostId, dstId: HostId)
  {
    || (srcId in srcHosts && dstId in dstHosts)
    || (dstId in srcHosts && srcId in dstHosts)
    || (|srcHosts| == 0 && (dstId in dstHosts || srcId in dstHosts))
    || (|dstHosts| == 0 && (srcId in srcHosts || dstId in srcHosts))
  }

  /** The gate does not care which host sent the packet, and it rejects everything when both lists are empty. */
  lemma HostGateProperties(srcHosts: seq<HostId>, dstHosts: seq<HostId>, srcId: HostId, dstId: HostId)
    ensures HostGate(srcHosts, dstHosts, srcId, dstId) == HostGate(srcHosts, dstHosts, dstId, srcId)
    ensures |srcHosts| == 0 && |dstHosts| == 0 ==> !HostGate(srcHosts, dstHosts, srcId, dstId)
    ensures |srcHosts| > 0 && |dstHosts| > 0 ==>
      (HostGate(srcHosts, dstHosts, srcId, dstId) <==>
        (srcId in srcHosts && dstId in dstHosts) || (dstId in srcHosts && srcId in dstHosts))
  {
  }

  /**
   * The selector for a packet travelling through `pathLink` inside a
   * region: with both host lists empty the dispatch runs unconditionally;
   * otherwise only when the host gate, applied to the frame's two Ethernet
   * addresses, accepts. A `null` host list fails.
   */
  function IntraBuildTrafficSelector(flags: ParserFlags, delegates: Delegates, pkt: InboundPacket, ethPkt: Frame, pathLink: Option<Link>, policy: DefaultPolicy): (r: Built)
    ensures policy.srcHostsList.None? || policy.dstHostsList.None? ==> r == Thrown(NullPointer)
  {
    if policy.srcHostsList.None? || policy.dstHostsList.None? then Thrown(NullPointer)
    else
      var srcHostsList := policy.srcHostsList.value;
      var dstHostsList := policy.dstHostsList.value;
      if |srcHostsList| == 0 && |dstHostsList| == 0 then LocalIntraTrafficSelector(flags, delegates, pkt, ethPkt, pathLink, policy)
      else if HostGate(srcHostsList, dstHostsList, HostId(ethPkt.srcMac), HostId(ethPkt.dstMac)) then
        LocalIntraTrafficSelector(flags, delegates, pkt, ethPkt, pathLink, policy)
      else NoSelector
  }

  /** The inter-region counterpart: the gate takes the destination host from the resolved MAC `dstMac`, not from the frame. */
  function InterBuildTrafficSelector(delegates: Delegates, pkt: InboundPacket, ethPkt: Frame, dstMac: Mac, policy: DefaultPolicy): (r: Built)
    ensures policy.srcHostsList.None? || policy.dstHostsList.None? ==> r == Thrown(NullPointer)
  {
    if policy.srcHostsList.None? || policy.dstHostsList.None? then Thrown(NullPointer)
    else
      var srcHostsList := policy.srcHostsList.value;
      var dstHostsList := policy.dstHostsList.value;
      if |srcHostsList| == 0 && |dstHostsList| == 0 then LocalInterTrafficSelector(delegates, pkt, ethPkt, dstMac, policy)
      else if HostGate(srcHostsList, dstHostsList, HostId(ethPkt.srcMac), HostId(dstMac)) then
        LocalInterTrafficSelector(delegates, pkt, ethPkt, dstMac, policy)
      else NoSelector
  }

  /**
   * What the intra builder promises, case by case on the two host lists
   * (`src` and `dst` are the frame's two Ethernet addresses): with both
   * lists empty every packet gets the dispatched selector; with both
   * non-empty, only a packet whose pair is listed in either orientation;
   * with one list empty, a packet either of whose hosts is in the other
   * list. Every other packet gets no selector.
   */
  lemma IntraHostFiltering(flags: ParserFlags, delegates: Delegates, pkt: InboundPacket, ethPkt: Frame, pathLink: Option<Link>, policy: DefaultPolicy)
    requires policy.srcHostsList.Some? && policy.dstHostsList.Some?
    ensures var srcHosts, dstHosts := policy.srcHostsList.value, policy.dstHostsList.value;
      var src, dst := HostId(ethPkt.srcMac), HostId(ethPkt.dstMac);
      var local := LocalIntraTrafficSelector(flags, delegates, pkt, ethPkt, pathLink, policy);
      var r := IntraBuildTrafficSelector(flags, delegates, pkt, ethPkt, pathLink, policy);
      && (|srcHosts| == 0 && |dstHosts| == 0 ==> r == local)
      && (|srcHosts| > 0 && |dstHosts| > 0 ==>
            r == if (src in srcHosts && dst in dstHosts) || (dst in srcHosts && src in dstHosts) then local else NoSelector)
      && (|srcHosts| == 0 && |dstHosts| > 0 ==> r == if src in dstHosts || dst in dstHosts then local else NoSelector)
      && (|srcHosts| > 0 && |dstHosts| == 0 ==> r == if src in srcHosts || dst in srcHosts then local else NoSelector)
  {
  }

  /**
   * The same cases for the inter builder, whose destination host is the
   * resolved MAC `dstMac` rather than the frame's destination.
   */
  lemma InterHostFiltering(delegates: Delegates, pkt: InboundPacket, ethPkt: Frame, dstMac: Mac, policy: DefaultPolicy)
    requires policy.srcHostsList.Some? && policy.dstHostsList.Some?
    ensures var srcHosts, dstHosts := policy.srcHostsList.value, policy.dstHostsList.value;
      var src, dst := HostId(ethPkt.srcMac), HostId(dstMac);
      var local := LocalInterTrafficSelector(delegates, pkt, ethPkt, dstMac, policy);
      var r := InterBuildTrafficSelector(delegates, pkt, ethPkt, dstMac, policy);
      && (|srcHosts| == 0 && |dstHosts| == 0 ==> r == local)
      && (|srcHosts| > 0 && |dstHosts| > 0 ==>
            r == if (src in srcHosts && dst in dstHosts) || (dst in srcHosts && src in dstHosts) then local else NoSelector)
      && (|srcHosts| == 0 && |dstHosts| > 0 ==> r == if src in dstHosts || dst in dstHosts then local else NoSelector)
      && (|srcHosts| > 0 && |dstHosts| == 0 ==> r == if src in srcHosts || dst in srcHosts then local else NoSelector)
  {
  }
}
