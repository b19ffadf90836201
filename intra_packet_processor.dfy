/**
 * The intra-region packet processor of the route-action package: it hands each
 * IPv4 packet to the intra-region route action once per current policy
 * whose region pair is the packet's.
 */
module IntraPacketProcessors {
  import opened Wrappers
  import opened Net
  import opened Enums
  import opened Policies
  import opened PolicyStorage
  import opened RouteConfiguration
  import opened PacketProcessing

  /**
   * The walk over the current policies for an IPv4 packet from `srcAddr`
   * to `dstAddr`, whose /24 prefixes have the regions `src` and `dst`; each
   * match is handed to the intra-region route action, whose outcome is `act`.
   */
  method Walk(store: SimplePolicyStore, config: InterRouteConfiguration, order: seq<int>, act: RouteAction,
              srcAddr: Ip4, dstAddr: Ip4, ghost src: Option<string>, ghost dst: Option<string>)
      returns (d: Dispatch)
    requires IsEnumeration(order, store.current)
    requires src == PacketRegion(config, srcAddr) && dst == PacketRegion(config, dstAddr)
    ensures d == Scan(InOrder(store.current, order), p => IntraTest(p, src, dst), act)
  {
    var ip4SrcPrefix := Ip4PrefixOf(srcAddr, 24);
    var ip4DstPrefix := Ip4PrefixOf(dstAddr, 24);
    ghost var test := p => IntraTest(p, src, dst);
    var dispatched: seq<DefaultPolicy> := [];
    if CheckCurrentPolicies(store) == STATUS_OK {
      var tempMap := store.GetCurrentPolicyMap();
      ghost var ps := InOrder(tempMap, order);
      var i := 0;
      while i < |order|
        invariant 0 <= i <= |order|
        invariant Scan(ps, test, act) == After(dispatched, Scan(ps[i..], test, act))
      {
        var policy := tempMap[order[i]];
        var pktSrcRegion := config.GetRegion(ip4SrcPrefix);
        var pktDstRegion := config.GetRegion(ip4DstPrefix);
        // the action and region comparisons of the source's condition, a missing region failing when reached
        var outcome := IntraTest(policy, pktSrcRegion, pktDstRegion);
        assert policy == ps[i] && outcome == test(ps[i]);
        ScanStep(ps, test, act, i, dispatched);
        match outcome {
          case Threw(f) =>
            return Dispatch(dispatched, Some(f));
          case Returned(matched) =>
            if matched {
              dispatched := dispatched + [policy];
              // the route action runs inside the walk: an exception from it ends the walk
              var thrown := act(policy);
              if thrown.Some? {
                return Dispatch(dispatched, thrown);
              }
            }
        }
        i := i + 1;
      }
      assert ps[i..] == [];
    } else {
      EnumerationSize(order, store.current);
    }
    d := Dispatch(dispatched, None);
  }

  /**
   * Handles one packet: control, ARP and handled packets are skipped, an
   * IPv4 packet's /24 source and destination regions are looked up, and
   * every current policy, in iteration order `order`, that routes within
   * exactly that region pair is handed to the intra-region route action,
   * whose outcome for each policy is `act`.
   */
  method Process(context: PacketContext, store: SimplePolicyStore, config: InterRouteConfiguration, order: seq<int>, act: RouteAction)
      returns (r: Dispatch)
    requires IsEnumeration(order, store.current)
    ensures r == IntraProcessing(context, InOrder(store.current, order), config, act)
  {
    var pkt := context.inPacket;
    if pkt.parsed.None? {
      // the Ethernet type is read before the null test
      return Dispatch([], Some(NullPointer));
    }
    var ethPkt := pkt.parsed.value;
    var ethType := EtherType(ethPkt);
    if IsControlPacket(ethPkt) {
      return NoDispatch;
    }
    if ethType == TYPE_ARP {
      return NoDispatch;
    }
    if context.isHandled {
      return NoDispatch;
    }
    if !ethPkt.payload.Ipv4Payload? {
      return Dispatch([], Some(ClassCast));
    }
    var ipv4Packet := ethPkt.payload.ip;
    ghost var src := PacketRegion(config, ipv4Packet.srcAddr);
    ghost var dst := PacketRegion(config, ipv4Packet.dstAddr);
    r := Walk(store, config, order, act, ipv4Packet.srcAddr, ipv4Packet.dstAddr, src, dst);
  }
}
