/**
 * The inter-region route action: for an IPv4 packet a policy matched, it
 * resolves the destination host by the packet's destination address and
 * installs rules along the chosen path; the rule on the first link also
 * rewrites the Ethernet destination to the resolved host's MAC. Rules carry
 * the policy's priority and the temporary time-out set by `makeTemporary(100)`.
 */
module InterRouteActions {
  import opened Wrappers
  import opened Net
  import opened Enums
  import opened Policies
  import opened PolicyStorage
  import opened PathSelection
  import opened PolicyParsers
  import opened RouteRules

  /** Declared by the action; its rules take the policy's own priority instead. */
  const DEFAULT_PRIORITY: int := 10

  /** The time-out of the rules this action installs. */
  const InterTimeout: Timeout := Temporary(DEFAULT_TIMEOUT)

  /** The MAC of the first host, in iteration order, that has one. */
  function FirstMac(hs: seq<Host>): (r: Option<Mac>)
    ensures r.None? <==> forall i :: 0 <= i < |hs| ==> hs[i].mac.None?
    ensures r.Some? ==> exists i :: 0 <= i < |hs| && hs[i].mac == r && forall j :: 0 <= j < i ==> hs[j].mac.None?
    decreases |hs|
  {
    if |hs| == 0 then None
    else if hs[0].mac.Some? then hs[0].mac
    else
      var r := FirstMac(hs[1..]);
      assert forall i :: 1 <= i < |hs| ==> hs[1..][i - 1] == hs[i];
      if r.Some? then
        ghost var k :| 0 <= k < |hs[1..]| && hs[1..][k].mac == r && forall j :: 0 <= j < k ==> hs[1..][j].mac.None?;
        assert hs[k + 1].mac == r && forall j :: 0 <= j < k + 1 ==> hs[j].mac.None?;
        r
      else r
  }

  /**
   * Walks the hosts holding the destination address in order and stops at
   * the first one that has a MAC.
   */
  method FindDestinationMac(hs: seq<Host>) returns (dstMac: Option<Mac>)
    ensures dstMac == FirstMac(hs)
  {
    dstMac := None;
    var i := 0;
    while i < |hs|
      invariant 0 <= i <= |hs|
      invariant FirstMac(hs) == FirstMac(hs[i..])
    {
      assert hs[i..][0] == hs[i] && hs[i..][1..] == hs[i + 1..];
      if hs[i].mac.Some? {
        dstMac := hs[i].mac;
        return;
      }
      i := i + 1;
    }
  }

  /** The rule on the path's first link also rewrites the Ethernet destination. */
  function InterHop(firstLink: Link, dstMac: Mac): Link -> seq<Instruction>
  {
    link => if link == firstLink then [SetEthDst(dstMac), Output(link.src.port)] else [Output(link.src.port)]
  }

  /** What the action does: the rules it installs, and the address it asks the host service to watch, if any. */
  datatype InterEffect = InterEffect(plan: Plan, monitored: Option<IpAddress>)

  /**
   * The effect of the action for `policy` and the packet in `context`. A
   * missing frame and a non-IPv4 frame get nothing. When no host holding
   * the destination address has a MAC, that address is watched instead.
   * The source and destination hosts are looked up by MAC, and an unknown
   * one fails. Hosts on one device get one rule there; otherwise the
   * policy's algorithm picks a path (`draw` stands for the random draw)
   * and rules go along its links, all with the one selector built for the
   * resolved MAC. A path without links fails when its last link is read.
   */
  function InterPlan(delegates: Delegates, policy: DefaultPolicy, context: PacketContext,
                     hosts: HostView, topology: Topology, draw: nat): (r: InterEffect)
  {
    var pkt := context.inPacket;
    if pkt.parsed.None? || !pkt.parsed.value.payload.Ipv4Payload? then InterEffect(Plan([], None), None)
    else
      var ethPkt := pkt.parsed.value;
      var dstIp := Ip4Address(ethPkt.payload.ip.dstAddr);
      var found := FirstMac(GetHostsByIp(hosts, dstIp));
      if found.None? then InterEffect(Plan([], None), Some(dstIp))
      else
        var dstMac := found.value;
        var dst := GetHost(hosts, HostId(dstMac));
        var src := GetHost(hosts, HostId(ethPkt.srcMac));
        if src.None? || dst.None? then InterEffect(Plan([], Some(NullPointer)), None)
        else
          var dstLocation := dst.value.location;
          var builderSelector := InterBuildTrafficSelector(delegates, pkt, ethPkt, dstMac, policy);
          if src.value.location.deviceId == dstLocation.deviceId then
            match builderSelector
            case Thrown(f) => InterEffect(Plan([], Some(f)), None)
            case NoSelector => InterEffect(Plan([], None), None)
            case Selected(s) =>
              InterEffect(Plan([RuleFor(dstLocation.deviceId, s, [Output(dstLocation.port)], policy.priority, InterTimeout)], None), None)
          else
            var paths := GetPaths(topology, src.value.location.deviceId, dstLocation.deviceId);
            match ChoosePath(policy, paths, draw)
            case Threw(f) => InterEffect(Plan([], Some(f)), None)
            case Returned(endPath) =>
              var links := endPath.links;
              if |links| == 0 then InterEffect(Plan([], Some(IndexOutOfBounds)), None)
              else InterEffect(PathRules(links, links[|links| - 1], _ => builderSelector, InterHop(links[0], dstMac),
                                         dstLocation, policy.priority, InterTimeout), None)
  }

  /** Every rule the action installs has the policy's priority, the temporary time-out set by `makeTemporary(100)` and table 0. */
  lemma InterRulesUniform(delegates: Delegates, policy: DefaultPolicy, context: PacketContext,
                          hosts: HostView, topology: Topology, draw: nat)
    ensures forall r :: r in InterPlan(delegates, policy, context, hosts, topology, draw).plan.rules ==>
      r.priority == policy.priority && r.timeout == Temporary(100) && r.tableId == 0
  {
    var pkt := context.inPacket;
    if pkt.parsed.Some? && pkt.parsed.value.payload.Ipv4Payload? {
      var ethPkt := pkt.parsed.value;
      var found := FirstMac(GetHostsByIp(hosts, Ip4Address(ethPkt.payload.ip.dstAddr)));
      if found.Some? {
        var dst := GetHost(hosts, HostId(found.value));
        var src := GetHost(hosts, HostId(ethPkt.srcMac));
        if src.Some? && dst.Some? && src.value.location.deviceId != dst.value.location.deviceId {
          var builderSelector := InterBuildTrafficSelector(delegates, pkt, ethPkt, found.value, policy);
          var chosen := ChoosePath(policy, GetPaths(topology, src.value.location.deviceId, dst.value.location.deviceId), draw);
          if chosen.Returned? && |chosen.value.links| > 0 {
            var links := chosen.value.links;
            PathRulesUniform(links, links[|links| - 1], _ => builderSelector, InterHop(links[0], found.value),
                             dst.value.location, policy.priority, InterTimeout);
          }
        }
      }
    }
  }

  /**
   * When no host holding the packet's destination address has a MAC,
   * nothing is installed and that address is watched; otherwise no address
   * is watched.
   */
  lemma InterUnresolvedDestination(delegates: Delegates, policy: DefaultPolicy, context: PacketContext,
                                   hosts: HostView, topology: Topology, draw: nat)
    requires context.inPacket.parsed.Some? && context.inPacket.parsed.value.payload.Ipv4Payload?
    ensures var dstIp := Ip4Address(context.inPacket.parsed.value.payload.ip.dstAddr);
      var hs := GetHostsByIp(hosts, dstIp);
      var r := InterPlan(delegates, policy, context, hosts, topology, draw);
      && ((forall i :: 0 <= i < |hs| ==> hs[i].mac.None?) ==> r == InterEffect(Plan([], None), Some(dstIp)))
      && (r.monitored.Some? <==> forall i :: 0 <= i < |hs| ==> hs[i].mac.None?)
  {
  }

  /**
   * Hosts on different devices: when a path is picked whose links are
   * distinct and the parser builds a selector, one rule goes on each link's
   * source device in path order, the first one rewriting the Ethernet
   * destination to the resolved MAC before forwarding and the others only
   * forwarding, and a last rule delivers on the destination host's device
   * and port; every rule has the same selector.
   */
  lemma InterAlongPath(delegates: Delegates, policy: DefaultPolicy, context: PacketContext,
                       hosts: HostView, topology: Topology, draw: nat)
    requires context.inPacket.parsed.Some? && context.inPacket.parsed.value.payload.Ipv4Payload?
    requires var eth := context.inPacket.parsed.value;
      var found := FirstMac(GetHostsByIp(hosts, Ip4Address(eth.payload.ip.dstAddr)));
      && found.Some? && HostId(eth.srcMac) in hosts.byId && HostId(found.value) in hosts.byId
      && hosts.byId[HostId(eth.srcMac)].location.deviceId != hosts.byId[HostId(found.value)].location.deviceId
      && InterBuildTrafficSelector(delegates, context.inPacket, eth, found.value, policy).Selected?
      && var chosen := ChoosePath(policy, GetPaths(topology, hosts.byId[HostId(eth.srcMac)].location.deviceId,
                                                  hosts.byId[HostId(found.value)].location.deviceId), draw);
         && chosen.Returned? && |chosen.value.links| > 0
         && (forall i, j :: 0 <= i < j < |chosen.value.links| ==> chosen.value.links[i] != chosen.value.links[j])
    ensures var eth := context.inPacket.parsed.value;
      var dstMac := FirstMac(GetHostsByIp(hosts, Ip4Address(eth.payload.ip.dstAddr))).value;
      var location := hosts.byId[HostId(dstMac)].location;
      var links := ChoosePath(policy, GetPaths(topology, hosts.byId[HostId(eth.srcMac)].location.deviceId, location.deviceId), draw).value.links;
      var s := InterBuildTrafficSelector(delegates, context.inPacket, eth, dstMac, policy).selector;
      var r := InterPlan(delegates, policy, context, hosts, topology, draw);
      && r.plan.fault.None? && r.monitored.None? && |r.plan.rules| == |links| + 1
      && r.plan.rules[0].deviceId == links[0].src.deviceId
      && r.plan.rules[0].treatment == [SetEthDst(dstMac), Output(links[0].src.port)]
      && (forall i :: 1 <= i < |links| ==>
            r.plan.rules[i].deviceId == links[i].src.deviceId && r.plan.rules[i].treatment == [Output(links[i].src.port)])
      && r.plan.rules[|links|].deviceId == location.deviceId && r.plan.rules[|links|].treatment == [Output(location.port)]
      && (forall i :: 0 <= i <= |links| ==> r.plan.rules[i].selector == s)
  {
    var pkt := context.inPacket;
    var eth := pkt.parsed.value;
    var dstMac := FirstMac(GetHostsByIp(hosts, Ip4Address(eth.payload.ip.dstAddr))).value;
    var location := hosts.byId[HostId(dstMac)].location;
    var links := ChoosePath(policy, GetPaths(topology, hosts.byId[HostId(eth.srcMac)].location.deviceId, location.deviceId), draw).value.links;
    var builderSelector := InterBuildTrafficSelector(delegates, pkt, eth, dstMac, policy);
    PathRulesComplete(links, _ => builderSelector, InterHop(links[0], dstMac), location, policy.priority, InterTimeout);
  }

  /**
   * The selector does not depend on the link, so when the parser builds
   * none, no rule at all is installed: along a path the action installs a
   * rule for every hop or for none.
   */
  lemma InterSelectorless(delegates: Delegates, policy: DefaultPolicy, context: PacketContext,
                          hosts: HostView, topology: Topology, draw: nat)
    requires context.inPacket.parsed.Some? && context.inPacket.parsed.value.payload.Ipv4Payload?
    requires var eth := context.inPacket.parsed.value;
      var found := FirstMac(GetHostsByIp(hosts, Ip4Address(eth.payload.ip.dstAddr)));
      found.Some? ==> !InterBuildTrafficSelector(delegates, context.inPacket, eth, found.value, policy).Selected?
    ensures InterPlan(delegates, policy, context, hosts, topology, draw).plan.rules == []
  {
    var pkt := context.inPacket;
    var eth := pkt.parsed.value;
    var found := FirstMac(GetHostsByIp(hosts, Ip4Address(eth.payload.ip.dstAddr)));
    if found.Some? {
      var dst := GetHost(hosts, HostId(found.value));
      var src := GetHost(hosts, HostId(eth.srcMac));
      if src.Some? && dst.Some? && src.value.location.deviceId != dst.value.location.deviceId {
        var builderSelector := InterBuildTrafficSelector(delegates, pkt, eth, found.value, policy);
        var chosen := ChoosePath(policy, GetPaths(topology, src.value.location.deviceId, dst.value.location.deviceId), draw);
        if chosen.Returned? && |chosen.value.links| > 0 {
          var links := chosen.value.links;
          PathRulesNone(links, links[|links| - 1], _ => builderSelector, InterHop(links[0], found.value),
                        dst.value.location, policy.priority, InterTimeout);
        }
      }
    }
  }

  /**
   * Handles a packet `policy` matched: only IPv4 frames are routed. The
   * plan's rules are installed one at a time, each applied on the backend
   * and then recorded for the policy; the exception that stopped the action
   * and the address it asked to watch are reported. The policy is a stored
   * one, so it has an id.
   */
  method InterRouteProcess(policy: DefaultPolicy, context: PacketContext, store: SimplePolicyStore,
                           pathSelection: DefaultPathSelection, delegates: Delegates,
                           hosts: HostView, topology: Topology, draw: nat)
      returns (fault: Option<Fault>, monitored: Option<IpAddress>)
    requires policy.policyId.Some?
    modifies store, store.flowRuleService
    ensures var effect := InterPlan(delegates, policy, context, hosts, topology, draw);
      && fault == effect.plan.fault && monitored == effect.monitored
      && store.flowRuleService.log == old(store.flowRuleService.log) + Applications(effect.plan.rules)
      && store.flowRuleList == Record(old(store.flowRuleList), Key(policy), effect.plan.rules)
    ensures store.current == old(store.current) && store.pending == old(store.pending) && store.notified == old(store.notified)
  {
    var pkt := context.inPacket;
    if pkt.parsed.None? || !pkt.parsed.value.payload.Ipv4Payload? {
      return None, None;
    }
    fault, monitored := LocalInterRoute(policy, pkt, pkt.parsed.value, store, pathSelection, delegates, hosts, topology, draw);
  }

  /** The routing of one IPv4 packet. */
  method LocalInterRoute(policy: DefaultPolicy, pkt: InboundPacket, ethPkt: Frame, store: SimplePolicyStore,
                         pathSelection: DefaultPathSelection, delegates: Delegates,
                         hosts: HostView, topology: Topology, draw: nat)
      returns (fault: Option<Fault>, monitored: Option<IpAddress>)
    requires policy.policyId.Some? && pkt.parsed == Some(ethPkt) && ethPkt.payload.Ipv4Payload?
    modifies store, store.flowRuleService
    ensures var effect := InterPlan(delegates, policy, PacketContext(pkt, false), hosts, topology, draw);
      && fault == effect.plan.fault && monitored == effect.monitored
      && store.flowRuleService.log == old(store.flowRuleService.log) + Applications(effect.plan.rules)
      && store.flowRuleList == Record(old(store.flowRuleList), Key(policy), effect.plan.rules)
    ensures store.current == old(store.current) && store.pending == old(store.pending) && store.notified == old(store.notified)
  {
    var ipv4Packet := ethPkt.payload.ip;
    var dstIp := Ip4Address(ipv4Packet.dstAddr);
    var srcMac := ethPkt.srcMac;
    var found := FindDestinationMac(GetHostsByIp(hosts, dstIp));
    if found.None? {
      return None, Some(dstIp);
    }
    var dstMac := found.value;
    var dst := GetHost(hosts, HostId(dstMac));
    var src := GetHost(hosts, HostId(srcMac));
    if src.None? || dst.None? {
      return Some(NullPointer), None;
    }
    monitored := None;
    var priority := policy.priority;
    var dstLocation := dst.value.location;
    if src.value.location.deviceId == dstLocation.deviceId {
      var builderSelector := InterBuildTrafficSelector(delegates, pkt, ethPkt, dstMac, policy);
      if builderSelector.Thrown? {
        return Some(builderSelector.fault), None;
      }
      if builderSelector.Selected? {
        var flowRule := RuleFor(dstLocation.deviceId, builderSelector.selector, [Output(dstLocation.port)], priority, InterTimeout);
        Install(store, policy, flowRule);
        RecordStep(old(store.flowRuleList), Key(policy), [], flowRule);
      }
      return None, None;
    }
    var endToEndPaths := GetPaths(topology, src.value.location.deviceId, dstLocation.deviceId);
    if policy.pathSelectionAlgo.None? {
      return Some(NullPointer), None;
    }
    var endPath: Option<Path>;
    match policy.pathSelectionAlgo.value {
      case RANDOM =>
        endPath := pathSelection.PickRandomPath(endToEndPaths, if |endToEndPaths| > 0 then draw % |endToEndPaths| else 0);
      case _ =>
        var chosen := pathSelection.GetEndtoEndPath(endToEndPaths, policy);
        if chosen.Threw? {
          return Some(chosen.fault), None;
        }
        endPath := chosen.value;
    }
    if endPath.None? {
      return Some(NullPointer), None;
    }
    var pathLinks := endPath.value.links;
    if |pathLinks| == 0 {
      return Some(IndexOutOfBounds), None;
    }
    var firstLink := pathLinks[0];
    var builderSelector := InterBuildTrafficSelector(delegates, pkt, ethPkt, dstMac, policy);
    fault := InstallPath(policy, store, _ => builderSelector, InterHop(firstLink, dstMac), pathLinks, dstLocation, priority, InterTimeout);
  }
}
