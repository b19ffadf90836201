/**
 * The inter-region packet processor: it answers ARP requests for the
 * virtual gateway and hands each IPv4 packet to the inter-region route
 * action once per current policy whose region pair is the packet's, in
 * either orientation.
 */
module InterPacketProcessors {
  import opened Wrappers
  import opened Net
  import opened Enums
  import opened Policies
  import opened PolicyStorage
  import opened RouteConfiguration
  import opened PacketProcessing

  /**
   * The walk over the current policies for an IPv4 packet from `srcAddr`
   * to `dstAddr`, whose /24 prefixes have the regions `src` and `dst`; each
   * match is handed to the inter-region route action, whose outcome is `act`.
   */
  method Walk(store: SimplePolicyStore, config: InterRouteConfiguration, order: seq<int>, act: RouteAction,
              srcAddr: Ip4, dstAddr: Ip4, ghost src: Option<string>, ghost dst: Option<string>)
      returns (d: Dispatch)
    requires IsEnumeration(order, store.current)
    requires src == PacketRegion(config, srcAddr) && dst == PacketRegion(config, dstAddr)
    ensures d == Scan(InOrder(store.current, order), p => InterTest(p, src, dst), act)
  {
    var ip4SrcPrefix := Ip4PrefixOf(srcAddr, 24);
    var ip4DstPrefix := Ip4PrefixOf(dstAddr, 24);
    ghost var test := p => InterTest(p, src, dst);
    var dispatched: seq<DefaultPolicy> := [];
    if CheckCurrentPolicies(store) == STATUS_OK {
      var tempMap := store.GetCurrentPolicyMap();
      ghost var ps := InOrder(tempMap, order);
      var i := 0;
      while i < |order|
        invariant 0 <= i <= |order|
        invariant Scan(ps, test, act) == After(dispatched, Scan(ps[i..], test, act))
      {
        var policy := tempMap[order[i]];
        var pktSrcRegion := config.GetRegion(ip4SrcPrefix);
        var pktDstRegion := config.GetRegion(ip4DstPrefix);
        // the action and region comparisons of the source's condition, a missing region failing when reached
        var outcome := InterTest(policy, pktSrcRegion, pktDstRegion);
        assert policy == ps[i] && outcome == test(ps[i]);
        ScanStep(ps, test, act, i, dispatched);
        match outcome {
          case Threw(f) =>
            return Dispatch(dispatched, Some(f));
          case Returned(matched) =>
            if matched {
              dispatched := dispatched + [policy];
              // the route action runs inside the walk: an exception from it ends the walk
              var thrown := act(policy);
              if thrown.Some? {
                return Dispatch(dispatched, thrown);
              }
            }
        }
        i := i + 1;
      }
      assert ps[i..] == [];
    } else {
      EnumerationSize(order, store.current);
    }
    d := Dispatch(dispatched, None);
  }

  /**
   * Handles one packet, walking the current policies in iteration order
   * `order`, with `act` the route action's outcome for each policy. The ARP
   * reply it would emit is returned rather than sent.
   */
  method Process(context: PacketContext, store: SimplePolicyStore, config: InterRouteConfiguration, order: seq<int>, act: RouteAction)
      returns (r: InterResult)
    requires IsEnumeration(order, store.current)
    ensures r == InterProcessing(context, InOrder(store.current, order), config, act)
  {
    var pkt := context.inPacket;
    if pkt.parsed.None? {
      // the control-packet test reads the Ethernet type of the missing frame
      return InterResult(Dispatch([], Some(NullPointer)), None);
    }
    var ethPkt := pkt.parsed.value;
    if IsControlPacket(ethPkt) {
      return InterResult(NoDispatch, None);
    }
    var srcConnectPoint := pkt.receivedFrom;
    match ethPkt.payload {
      case ArpPayload(arpPacket) =>
        var targetIpAddress := Ip4Address(arpPacket.targetIp);
        r := InterResult(NoDispatch, None);
        if arpPacket.opCode == OP_REQUEST && config.IsVirtualGatewayIpAddress(targetIpAddress) {
          var gatewayMacAddress := config.GetVirtualGatewayMacAddress();
          if gatewayMacAddress.Some? {
            var eth := ArpReply(arpPacket.targetIp, gatewayMacAddress.value, ethPkt);
            r := InterResult(NoDispatch, Some(OutboundPacket(srcConnectPoint.deviceId, [Output(srcConnectPoint.port)], eth)));
          }
        }
      case Ipv4Payload(ipv4Packet) =>
        ghost var src := PacketRegion(config, ipv4Packet.srcAddr);
        ghost var dst := PacketRegion(config, ipv4Packet.dstAddr);
        var dispatch := Walk(store, config, order, act, ipv4Packet.srcAddr, ipv4Packet.dstAddr, src, dst);
        r := InterResult(dispatch, None);
      case OtherPayload(_) =>
        r := InterResult(NoDispatch, None);
    }
  }
}
