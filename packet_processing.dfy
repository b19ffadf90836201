/**
 * What the packet processors share: the control-packet test, the region of
 * a packet address, the walk over the current policies in iteration order,
 * and the per-policy region tests of the intra- and inter-region
 * processors. A processor's calls into a route action are returned as the
 * list of policies it dispatched, in call order, with the exception that
 * ended the walk early, if any. The route action is called inside the walk,
 * so an exception it raises ends the walk too; what the action does with a
 * policy is given to the walk as `act`, the exception it raises for that
 * policy or `None`.
 */
module PacketProcessing {
  import opened Wrappers
  import opened Net
  import opened Enums
  import opened Policies
  import opened RouteConfiguration
  import opened PolicyStorage

  /** LLDP and BSN discovery frames are control traffic. */
  predicate IsControlPacket(eth: Frame)
  {
    EtherType(eth) == TYPE_LLDP || EtherType(eth) == TYPE_BSN
  }

  datatype StatusCode = STATUS_OK | STATUS_ERR

  /** OK when the store holds at least one current policy. */
  function CheckCurrentPolicies(store: SimplePolicyStore): (c: StatusCode)
    reads store
    ensures c == STATUS_OK <==> |store.current| > 0
  {
    if store.GetCurrentPolicyMap() != map[] then STATUS_OK else STATUS_ERR
  }

  /** The policies a processor handed to its route action, in order, and the exception that stopped it. */
  datatype Dispatch = Dispatch(policies: seq<DefaultPolicy>, fault: Option<Fault>)

  const NoDispatch: Dispatch := Dispatch([], None)

  /** `order` lists each key of the map exactly once: an iteration order of its entries. */
  predicate IsEnumeration(order: seq<int>, m: map<int, DefaultPolicy>)
  {
    && (forall i :: 0 <= i < |order| ==> order[i] in m)
    && (forall k :: k in m ==> k in order)
    && (forall i, j :: 0 <= i < j < |order| ==> order[i] != order[j])
  }

  /** The map's values in the iteration order `order`. */
  function InOrder(m: map<int, DefaultPolicy>, order: seq<int>): (ps: seq<DefaultPolicy>)
    requires forall i :: 0 <= i < |order| ==> order[i] in m
    ensures |ps| == |order| && forall i :: 0 <= i < |order| ==> ps[i] == m[order[i]]
  {
    seq(|order|, i requires 0 <= i < |order| => m[order[i]])
  }

  /** Every current policy appears in the iteration, and nothing else does. */
  lemma InOrderListsValues(m: map<int, DefaultPolicy>, order: seq<int>, p: DefaultPolicy)
    requires IsEnumeration(order, m)
    ensures p in InOrder(m, order) <==> p in m.Values
  {
    var ps := InOrder(m, order);
    if p in m.Values {
      var k := KeyOfValue(m, p);
      var i :| 0 <= i < |order| && order[i] == k;
      assert ps[i] == p;
    }
  }

  /** A sequence without repeats has as many elements as it has distinct values. */
  lemma {:induction false} DistinctSize(s: seq<int>)
    requires forall i, j :: 0 <= i < j < |s| ==> s[i] != s[j]
    ensures |set x | x in s| == |s|
  {
    if |s| > 0 {
      DistinctSize(s[1..]);
      assert (set x | x in s) == (set x | x in s[1..]) + {s[0]};
      assert s[0] !in (set x | x in s[1..]);
    }
  }

  /** An iteration order visits exactly as many entries as the map holds. */
  lemma EnumerationSize(order: seq<int>, m: map<int, DefaultPolicy>)
    requires IsEnumeration(order, m)
    ensures |order| == |m|
  {
    DistinctSize(order);
    var visited := set x | x in order;
    forall x | x in visited
      ensures x in m.Keys
    {
      var i :| 0 <= i < |order| && order[i] == x;
    }
    forall x | x in m.Keys
      ensures x in visited
    {
      assert x in order;
    }
    assert visited == m.Keys;
  }

  /**
   * The region configured for the /24 prefix holding the address; the
   * processors look packets up by that prefix (section 3.1 of RFC 4632).
   */
  function PacketRegion(config: InterRouteConfiguration, a: Ip4): Option<string>
    reads config
  {
    config.GetRegion(Ip4PrefixOf(a, 24))
  }

  /** Addresses in the same /24 prefix always get the same region. */
  lemma SameSlash24SameRegion(config: InterRouteConfiguration, a: Ip4, b: Ip4)
    requires a / 256 == b / 256
    ensures PacketRegion(config, a) == PacketRegion(config, b)
  {
    Slash24Prefix(a, b);
  }

  // ------------------------------------------------------- the walk over policies

  /**
   * What the route action does with a policy it is handed: the exception it
   * raises, or `None` when it returns normally.
   */
  type RouteAction = DefaultPolicy -> Option<Fault>

  /**
   * The walk: each policy is tested in order, and those answering true are
   * handed to the route action `act`. The first exception, from a test or
   * from the route action, stops the walk; a policy whose route action
   * threw has been dispatched.
   */
  function Scan(ps: seq<DefaultPolicy>, test: DefaultPolicy -> Outcome<bool>, act: RouteAction): Dispatch
    decreases |ps|
  {
    if |ps| == 0 then NoDispatch
    else
      match test(ps[0])
      case Threw(f) => Dispatch([], Some(f))
      case Returned(b) =>
        if !b then Scan(ps[1..], test, act)
        else if act(ps[0]).Some? then Dispatch([ps[0]], act(ps[0]))
        else
          var rest := Scan(ps[1..], test, act);
          Dispatch([ps[0]] + rest.policies, rest.fault)
  }

  /** What the walk produces after the policies `done` were dispatched by its first steps. */
  function After(done: seq<DefaultPolicy>, rest: Dispatch): Dispatch
  {
    Dispatch(done + rest.policies, rest.fault)
  }

  /** One step of the walk, seen from the policies `done` already dispatched. */
  lemma ScanStep(ps: seq<DefaultPolicy>, test: DefaultPolicy -> Outcome<bool>, act: RouteAction, i: nat, done: seq<DefaultPolicy>)
    requires i < |ps|
    ensures test(ps[i]).Threw? ==> After(done, Scan(ps[i..], test, act)) == Dispatch(done, Some(test(ps[i]).fault))
    ensures test(ps[i]) == Returned(true) && act(ps[i]).Some? ==>
      After(done, Scan(ps[i..], test, act)) == Dispatch(done + [ps[i]], act(ps[i]))
    ensures test(ps[i]) == Returned(true) && act(ps[i]).None? ==>
      After(done, Scan(ps[i..], test, act)) == After(done + [ps[i]], Scan(ps[i + 1..], test, act))
    ensures test(ps[i]) == Returned(false) ==>
      After(done, Scan(ps[i..], test, act)) == After(done, Scan(ps[i + 1..], test, act))
  {
    assert ps[i..][0] == ps[i] && ps[i..][1..] == ps[i + 1..];
    var rest := Scan(ps[i + 1..], test, act).policies;
    assert (done + [ps[i]]) + rest == done + ([ps[i]] + rest);
  }

  /** The walk ends without an exception exactly when every test answers and every route action it calls returns. */
  lemma {:induction false} ScanFault(ps: seq<DefaultPolicy>, test: DefaultPolicy -> Outcome<bool>, act: RouteAction)
    ensures Scan(ps, test, act).fault.None? <==>
      forall i :: 0 <= i < |ps| ==> test(ps[i]).Returned? && (test(ps[i]) == Returned(true) ==> act(ps[i]).None?)
    decreases |ps|
  {
    if |ps| > 0 {
      ScanFault(ps[1..], test, act);
      assert forall i :: 1 <= i < |ps| ==> ps[1..][i - 1] == ps[i];
    }
  }

  /**
   * Only policies whose test answers true are dispatched, and when the walk
   * completes every such policy is: all matches, not just the first.
   */
  lemma {:induction false} ScanMembers(ps: seq<DefaultPolicy>, test: DefaultPolicy -> Outcome<bool>, act: RouteAction, p: DefaultPolicy)
    ensures p in Scan(ps, test, act).policies ==> p in ps && test(p) == Returned(true)
    ensures Scan(ps, test, act).fault.None? && p in ps && test(p) == Returned(true) ==> p in Scan(ps, test, act).policies
    decreases |ps|
  {
    if |ps| > 0 {
      ScanMembers(ps[1..], test, act, p);
      if p in ps && p != ps[0] {
        var i :| 0 <= i < |ps| && ps[i] == p;
        assert ps[1..][i - 1] == p;
      }
    }
  }

  /**
   * The walk stops at the first route action that throws: every dispatched
   * policy before the last returned from its route action, and when the
   * last one's route action threw, that is the walk's exception.
   */
  lemma {:induction false} ScanStopsAtAction(ps: seq<DefaultPolicy>, test: DefaultPolicy -> Outcome<bool>, act: RouteAction)
    ensures var r := Scan(ps, test, act);
      && (forall i :: 0 <= i < |r.policies| - 1 ==> act(r.policies[i]).None?)
      && (|r.policies| > 0 && act(r.policies[|r.policies| - 1]).Some? ==> r.fault == act(r.policies[|r.policies| - 1]))
      && (r.fault.None? ==> forall i :: 0 <= i < |r.policies| ==> act(r.policies[i]).None?)
    decreases |ps|
  {
    if |ps| > 0 && test(ps[0]).Returned? {
      ScanStopsAtAction(ps[1..], test, act);
      var rest := Scan(ps[1..], test, act);
      if test(ps[0]).value && act(ps[0]).None? {
        var r := Scan(ps, test, act);
        assert r.policies == [ps[0]] + rest.policies;
        assert forall i :: 1 <= i < |r.policies| ==> r.policies[i] == rest.policies[i - 1];
      }
    }
  }

  // ------------------------------------------------------------ region tests

  /**
   * The intra-region test: the action is INTRA_ROUTE and the policy's
   * source and destination region ids equal the packet's, in that
   * orientation. A missing policy region fails once it is reached.
   */
  function IntraTest(p: DefaultPolicy, pktSrcRegion: Option<string>, pktDstRegion: Option<string>): (r: Outcome<bool>)
    ensures r == Returned(true) <==>
      p.action == Some(INTRA_ROUTE) && p.srcRegion.Some? && p.dstRegion.Some? &&
      pktSrcRegion == Some(p.srcRegion.value.id) && pktDstRegion == Some(p.dstRegion.value.id)
  {
    if p.action != Some(INTRA_ROUTE) then Returned(false)
    else if p.srcRegion.None? then Threw(NullPointer)
    else if pktSrcRegion != Some(p.srcRegion.value.id) then Returned(false)
    else if p.dstRegion.None? then Threw(NullPointer)
    else Returned(pktDstRegion == Some(p.dstRegion.value.id))
  }

  /**
   * The inter-region test: the action is INTER_ROUTE and the policy's region
   * pair equals the packet's in either orientation. A missing source region
   * fails; a missing destination region fails when the source region
   * equals either packet region.
   */
  function InterTest(p: DefaultPolicy, pktSrcRegion: Option<string>, pktDstRegion: Option<string>): (r: Outcome<bool>)
    ensures r == Returned(true) <==>
      p.action == Some(INTER_ROUTE) && p.srcRegion.Some? && p.dstRegion.Some? &&
      ((pktSrcRegion == Some(p.srcRegion.value.id) && pktDstRegion == Some(p.dstRegion.value.id)) ||
       (pktDstRegion == Some(p.srcRegion.value.id) && pktSrcRegion == Some(p.dstRegion.value.id)))
  {
    if p.action != Some(INTER_ROUTE) then Returned(false)
    else if p.srcRegion.None? then Threw(NullPointer)
    else
      var srcMatches := pktSrcRegion == Some(p.srcRegion.value.id);
      if srcMatches && p.dstRegion.None? then Threw(NullPointer)
      else if srcMatches && pktDstRegion == Some(p.dstRegion.value.id) then Returned(true)
      else if pktDstRegion == Some(p.srcRegion.value.id) && p.dstRegion.None? then Threw(NullPointer)
      else Returned(pktDstRegion == Some(p.srcRegion.value.id) && pktSrcRegion == Some(p.dstRegion.value.id))
  }

  /** The inter test, exceptions included, does not depend on which packet region is the source. */
  lemma InterTestSymmetric(p: DefaultPolicy, a: Option<string>, b: Option<string>)
    ensures InterTest(p, a, b) == InterTest(p, b, a)
  {
  }

  /** No policy passes both tests: a policy routes either within or between regions. */
  lemma TestsDisjoint(p: DefaultPolicy, a: Option<string>, b: Option<string>)
    ensures !(IntraTest(p, a, b) == Returned(true) && InterTest(p, a, b) == Returned(true))
  {
  }

  /** An unconfigured packet source region matches no intra policy. */
  lemma UnknownRegionMatchesNothing(ps: seq<DefaultPolicy>, dst: Option<string>, act: RouteAction)
    ensures Scan(ps, p => IntraTest(p, None, dst), act).policies == []
  {
    if Scan(ps, p => IntraTest(p, None, dst), act).policies != [] {
      var q := Scan(ps, p => IntraTest(p, None, dst), act).policies[0];
      ScanMembers(ps, p => IntraTest(p, None, dst), act, q);
    }
  }

  // ------------------------------------------------------ the processors' results

  /**
   * What an intra-region processor does with a packet: a missing frame
   * fails at the Ethernet-type read; control, ARP and already handled
   * packets are ignored; any other non-IPv4 frame fails the cast; an IPv4
   * packet walks the current policies with the intra test on the regions
   * of its /24 prefixes, handing each match to the route action `act`.
   */
  function IntraProcessing(context: PacketContext, policies: seq<DefaultPolicy>, config: InterRouteConfiguration, act: RouteAction): (r: Dispatch)
    reads config
    ensures context.inPacket.parsed.None? ==> r == Dispatch([], Some(NullPointer))
    ensures context.inPacket.parsed.Some? ==>
      var eth := context.inPacket.parsed.value;
      && (IsControlPacket(eth) || eth.payload.ArpPayload? || context.isHandled ==> r == NoDispatch)
      && (!IsControlPacket(eth) && !eth.payload.ArpPayload? && !context.isHandled && !eth.payload.Ipv4Payload? ==>
            r == Dispatch([], Some(ClassCast)))
  {
    if context.inPacket.parsed.None? then Dispatch([], Some(NullPointer))
    else
      var eth := context.inPacket.parsed.value;
      if IsControlPacket(eth) || EtherType(eth) == TYPE_ARP || context.isHandled then NoDispatch
      else if !eth.payload.Ipv4Payload? then Dispatch([], Some(ClassCast))
      else
        var src := PacketRegion(config, eth.payload.ip.srcAddr);
        var dst := PacketRegion(config, eth.payload.ip.dstAddr);
        Scan(policies, p => IntraTest(p, src, dst), act)
  }

  /**
   * An IPv4 packet that the intra processor walks dispatches exactly the
   * INTRA_ROUTE policies whose regions are the packet's, when neither a
   * region test nor a route action makes the walk fail.
   */
  lemma IntraDispatchesMatches(context: PacketContext, policies: seq<DefaultPolicy>, config: InterRouteConfiguration, act: RouteAction, p: DefaultPolicy)
    requires context.inPacket.parsed.Some? && context.inPacket.parsed.value.payload.Ipv4Payload? && !context.isHandled
    requires IntraProcessing(context, policies, config, act).fault.None?
    ensures var ip := context.inPacket.parsed.value.payload.ip;
      p in IntraProcessing(context, policies, config, act).policies <==>
        p in policies && p.action == Some(INTRA_ROUTE) && p.srcRegion.Some? && p.dstRegion.Some? &&
        PacketRegion(config, ip.srcAddr) == Some(p.srcRegion.value.id) &&
        PacketRegion(config, ip.dstAddr) == Some(p.dstRegion.value.id)
  {
    var ip := context.inPacket.parsed.value.payload.ip;
    var src := PacketRegion(config, ip.srcAddr);
    var dst := PacketRegion(config, ip.dstAddr);
    ScanMembers(policies, q => IntraTest(q, src, dst), act, p);
  }

  /** With no current policies the intra processor dispatches nothing. */
  lemma IntraNoPolicies(context: PacketContext, config: InterRouteConfiguration, act: RouteAction)
    requires context.inPacket.parsed.Some?
    ensures IntraProcessing(context, [], config, act).policies == []
  {
  }

  /** A packet sent to the processor on the wire. */
  datatype OutboundPacket = OutboundPacket(deviceId: DeviceId, treatment: seq<Instruction>, data: Frame)

  /**
   * The ARP reply to `request` announcing that `targetIp` is at `mac`:
   * addressed to the requester, with the requester as the reply's target
   * (the reply of the "Packet Reception" procedure of RFC 826).
   */
  function ArpReply(targetIp: Ip4, mac: Mac, request: Frame): Frame
    requires request.payload.ArpPayload?
  {
    var arp := request.payload.arp;
    Frame(mac, request.srcMac, ArpPayload(ArpPacket(OP_REPLY, mac, targetIp, arp.senderMac, arp.senderIp)))
  }

  /** What the inter-region processor does: the policies it dispatched and the ARP reply it sent, if any. */
  datatype InterResult = InterResult(dispatch: Dispatch, emitted: Option<OutboundPacket>)

  /**
   * What the inter-region processor does with a packet: a missing frame
   * fails at the control-packet test; control frames are ignored; an ARP
   * request for a virtual gateway address is answered on the port it came
   * in on when a gateway MAC is configured; an IPv4 packet walks the
   * current policies with the inter test, handing each match to the route
   * action `act`; anything else is ignored.
   */
  function InterProcessing(context: PacketContext, policies: seq<DefaultPolicy>, config: InterRouteConfiguration, act: RouteAction): (r: InterResult)
    reads config
    ensures context.inPacket.parsed.None? ==> r == InterResult(Dispatch([], Some(NullPointer)), None)
    ensures r.emitted.Some? ==> r.dispatch == NoDispatch
    ensures context.inPacket.parsed.Some? ==>
      var eth := context.inPacket.parsed.value;
      IsControlPacket(eth) || eth.payload.OtherPayload? ==> r == InterResult(NoDispatch, None)
  {
    if context.inPacket.parsed.None? then InterResult(Dispatch([], Some(NullPointer)), None)
    else
      var eth := context.inPacket.parsed.value;
      var srcConnectPoint := context.inPacket.receivedFrom;
      if IsControlPacket(eth) then InterResult(NoDispatch, None)
      else match eth.payload
        case ArpPayload(arp) =>
          var targetIpAddress := Ip4Address(arp.targetIp);
          if arp.opCode == OP_REQUEST && config.IsVirtualGatewayIpAddress(targetIpAddress) then
            var gatewayMacAddress := config.GetVirtualGatewayMacAddress();
            if gatewayMacAddress.None? then InterResult(NoDispatch, None)
            else
              var reply := ArpReply(arp.targetIp, gatewayMacAddress.value, eth);
              InterResult(NoDispatch, Some(OutboundPacket(srcConnectPoint.deviceId, [Output(srcConnectPoint.port)], reply)))
          else InterResult(NoDispatch, None)
        case Ipv4Payload(ip) =>
          var src := PacketRegion(config, ip.srcAddr);
          var dst := PacketRegion(config, ip.dstAddr);
          InterResult(Scan(policies, p => InterTest(p, src, dst), act), None)
        case OtherPayload(_) => InterResult(NoDispatch, None)
  }

  /**
   * An ARP reply is sent exactly for an ARP request whose target address is
   * a virtual gateway address when a gateway MAC is configured; it goes out
   * of the device and port the request came in on and carries the gateway
   * MAC. ARP handling consults no policy.
   */
  lemma InterArpReply(context: PacketContext, policies: seq<DefaultPolicy>, config: InterRouteConfiguration, act: RouteAction)
    requires context.inPacket.parsed.Some? && context.inPacket.parsed.value.payload.ArpPayload?
    ensures var eth := context.inPacket.parsed.value;
      var arp := eth.payload.arp;
      var r := InterProcessing(context, policies, config, act);
      && r.dispatch == NoDispatch
      && (r.emitted.Some? <==>
            arp.opCode == OP_REQUEST && Ip4Address(arp.targetIp) in config.gatewayIpAddresses &&
            config.virtualGatewayMacAddress.Some?)
      && (r.emitted.Some? ==>
            && r.emitted.value.deviceId == context.inPacket.receivedFrom.deviceId
            && r.emitted.value.treatment == [Output(context.inPacket.receivedFrom.port)]
            && r.emitted.value.data.srcMac == config.virtualGatewayMacAddress.value
            && r.emitted.value.data.dstMac == eth.srcMac
            && r.emitted.value.data.payload.arp.senderIp == arp.targetIp)
  {
    var eth := context.inPacket.parsed.value;
    assert !IsControlPacket(eth);
  }

  /**
   * An IPv4 packet that the inter processor walks dispatches exactly the
   * INTER_ROUTE policies whose region pair is the packet's in either
   * orientation, when neither a region test nor a route action makes the
   * walk fail.
   */
  lemma InterDispatchesMatches(context: PacketContext, policies: seq<DefaultPolicy>, config: InterRouteConfiguration, act: RouteAction, p: DefaultPolicy)
    requires context.inPacket.parsed.Some? && context.inPacket.parsed.value.payload.Ipv4Payload?
    requires InterProcessing(context, policies, config, act).dispatch.fault.None?
    ensures var ip := context.inPacket.parsed.value.payload.ip;
      var src := PacketRegion(config, ip.srcAddr);
      var dst := PacketRegion(config, ip.dstAddr);
      p in InterProcessing(context, policies, config, act).dispatch.policies <==>
        p in policies && p.action == Some(INTER_ROUTE) && p.srcRegion.Some? && p.dstRegion.Some? &&
        ((src == Some(p.srcRegion.value.id) && dst == Some(p.dstRegion.value.id)) ||
         (dst == Some(p.srcRegion.value.id) && src == Some(p.dstRegion.value.id)))
  {
    var eth := context.inPacket.parsed.value;
    assert !IsControlPacket(eth);
    var ip := eth.payload.ip;
    var src := PacketRegion(config, ip.srcAddr);
    var dst := PacketRegion(config, ip.dstAddr);
    ScanMembers(policies, q => InterTest(q, src, dst), act, p);
  }

  /** The inter walk gives the same result for a packet and for the same packet with its addresses swapped. */
  lemma InterSwapInvariant(ps: seq<DefaultPolicy>, a: Option<string>, b: Option<string>, act: RouteAction)
    ensures Scan(ps, p => InterTest(p, a, b), act) == Scan(ps, p => InterTest(p, b, a), act)
    decreases |ps|
  {
    if |ps| > 0 {
      InterTestSymmetric(ps[0], a, b);
      InterSwapInvariant(ps[1..], a, b, act);
    }
  }
}
