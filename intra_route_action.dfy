/**
 * The intra-region route action: for a packet a policy matched, it installs
 * rules carrying the packet's traffic from the source host to the
 * destination host inside the region, one rule per link of the chosen path
 * plus one delivering to the destination host, and records each rule for
 * the policy. Rules carry the policy's priority and an idle time-out.
 */
module IntraRouteActions {
  import opened Wrappers
  import opened Net
  import opened Enums
  import opened Policies
  import opened PolicyStorage
  import opened PathSelection
  import opened PolicyParsers
  import opened RouteRules

  /** Declared by the action; its rules take the policy's own priority instead. */
  const DEFAULT_PRIORITY: int := 10

  /** The action also skips ARP frames, unlike the packet processors. */
  predicate IsControlPacket(eth: Frame)
  {
    var t := EtherType(eth);
    t == TYPE_LLDP || t == TYPE_BSN || t == TYPE_ARP
  }

  /** The time-out of the rules this action installs. */
  const IntraTimeout: Timeout := IdleTimeout(DEFAULT_TIMEOUT)

  /** The selector the parser builds for one link of the path. */
  function IntraSelector(flags: ParserFlags, delegates: Delegates, pkt: InboundPacket, ethPkt: Frame, policy: DefaultPolicy): Link -> Built
  {
    link => IntraBuildTrafficSelector(flags, delegates, pkt, ethPkt, Some(link), policy)
  }

  /** Each link's rule only forwards out of the link's source port. */
  function IntraHop(link: Link): seq<Instruction>
  {
    [Output(link.src.port)]
  }

  /**
   * The rules the action installs for `policy` and the packet in `context`.
   * A missing frame fails at the control-packet test; control and ARP
   * frames, and packets whose source or destination host is unknown, get
   * nothing. Hosts on one device get one rule on that device, built without
   * a link; otherwise the policy's algorithm picks a path between the hosts'
   * devices (`draw` stands for the random draw) and rules go along its
   * links. A path without links fails when its last link is read.
   */
  function IntraPlan(flags: ParserFlags, delegates: Delegates, policy: DefaultPolicy, context: PacketContext,
                     hosts: HostView, topology: Topology, draw: nat): (r: Plan)
  {
    var pkt := context.inPacket;
    if pkt.parsed.None? then Plan([], Some(NullPointer))
    else
      var ethPkt := pkt.parsed.value;
      var dst := GetHost(hosts, HostId(ethPkt.dstMac));
      var src := GetHost(hosts, HostId(ethPkt.srcMac));
      if IsControlPacket(ethPkt) || src.None? || dst.None? then Plan([], None)
      else
        var dstLocation := dst.value.location;
        if src.value.location.deviceId == dstLocation.deviceId then
          match IntraBuildTrafficSelector(flags, delegates, pkt, ethPkt, None, policy)
          case Thrown(f) => Plan([], Some(f))
          case NoSelector => Plan([], None)
          case Selected(s) => Plan([RuleFor(dstLocation.deviceId, s, [Output(dstLocation.port)], policy.priority, IntraTimeout)], None)
        else
          var paths := GetPaths(topology, src.value.location.deviceId, dstLocation.deviceId);
          match ChoosePath(policy, paths, draw)
          case Threw(f) => Plan([], Some(f))
          case Returned(endPath) =>
            var links := endPath.links;
            if |links| == 0 then Plan([], Some(IndexOutOfBounds))
            else PathRules(links, links[|links| - 1], IntraSelector(flags, delegates, pkt, ethPkt, policy), IntraHop,
                           dstLocation, policy.priority, IntraTimeout)
  }

  /** Every rule the action installs has the policy's priority, the idle time-out of 100 seconds and table 0. */
  lemma IntraRulesUniform(flags: ParserFlags, delegates: Delegates, policy: DefaultPolicy, context: PacketContext,
                          hosts: HostView, topology: Topology, draw: nat)
    ensures forall r :: r in IntraPlan(flags, delegates, policy, context, hosts, topology, draw).rules ==>
      r.priority == policy.priority && r.timeout == IdleTimeout(100) && r.tableId == 0
  {
    var pkt := context.inPacket;
    if pkt.parsed.Some? {
      var ethPkt := pkt.parsed.value;
      var dst := GetHost(hosts, HostId(ethPkt.dstMac));
      var src := GetHost(hosts, HostId(ethPkt.srcMac));
      if !IsControlPacket(ethPkt) && src.Some? && dst.Some? && src.value.location.deviceId != dst.value.location.deviceId {
        var paths := GetPaths(topology, src.value.location.deviceId, dst.value.location.deviceId);
        var chosen := ChoosePath(policy, paths, draw);
        if chosen.Returned? && |chosen.value.links| > 0 {
          var links := chosen.value.links;
          PathRulesUniform(links, links[|links| - 1], IntraSelector(flags, delegates, pkt, ethPkt, policy), IntraHop,
                           dst.value.location, policy.priority, IntraTimeout);
        }
      }
    }
  }

  /** Nothing is installed for a packet whose source or destination host the host service does not know. */
  lemma IntraUnknownHost(flags: ParserFlags, delegates: Delegates, policy: DefaultPolicy, context: PacketContext,
                         hosts: HostView, topology: Topology, draw: nat)
    requires context.inPacket.parsed.Some?
    requires HostId(context.inPacket.parsed.value.srcMac) !in hosts.byId || HostId(context.inPacket.parsed.value.dstMac) !in hosts.byId
    ensures IntraPlan(flags, delegates, policy, context, hosts, topology, draw) == Plan([], None)
  {
  }

  /**
   * Hosts on one device get exactly one rule, on that device, sending the
   * traffic out of the destination host's port, when the parser builds a
   * selector.
   */
  lemma IntraSameDevice(flags: ParserFlags, delegates: Delegates, policy: DefaultPolicy, context: PacketContext,
                        hosts: HostView, topology: Topology, draw: nat)
    requires context.inPacket.parsed.Some? && !IsControlPacket(context.inPacket.parsed.value)
    requires var eth := context.inPacket.parsed.value;
      && HostId(eth.srcMac) in hosts.byId && HostId(eth.dstMac) in hosts.byId
      && hosts.byId[HostId(eth.srcMac)].location.deviceId == hosts.byId[HostId(eth.dstMac)].location.deviceId
    requires IntraBuildTrafficSelector(flags, delegates, context.inPacket, context.inPacket.parsed.value, None, policy).Selected?
    ensures var eth := context.inPacket.parsed.value;
      var location := hosts.byId[HostId(eth.dstMac)].location;
      var r := IntraPlan(flags, delegates, policy, context, hosts, topology, draw);
      && r.fault.None? && |r.rules| == 1
      && r.rules[0].deviceId == location.deviceId && r.rules[0].treatment == [Output(location.port)]
  {
  }

  /**
   * Hosts on different devices: when a path is picked whose links are
   * distinct and each get a selector, one rule is installed on each link's
   * source device forwarding out of the link's source port, in path order,
   * and a last one on the destination host's device and port.
   */
  lemma IntraAlongPath(flags: ParserFlags, delegates: Delegates, policy: DefaultPolicy, context: PacketContext,
                       hosts: HostView, topology: Topology, draw: nat)
    requires context.inPacket.parsed.Some? && !IsControlPacket(context.inPacket.parsed.value)
    requires var eth := context.inPacket.parsed.value;
      && HostId(eth.srcMac) in hosts.byId && HostId(eth.dstMac) in hosts.byId
      && hosts.byId[HostId(eth.srcMac)].location.deviceId != hosts.byId[HostId(eth.dstMac)].location.deviceId
    requires var eth := context.inPacket.parsed.value;
      var chosen := ChoosePath(policy, GetPaths(topology, hosts.byId[HostId(eth.srcMac)].location.deviceId,
                                               hosts.byId[HostId(eth.dstMac)].location.deviceId), draw);
      && chosen.Returned? && |chosen.value.links| > 0
      && (forall i, j :: 0 <= i < j < |chosen.value.links| ==> chosen.value.links[i] != chosen.value.links[j])
      && (forall i :: 0 <= i < |chosen.value.links| ==>
            IntraBuildTrafficSelector(flags, delegates, context.inPacket, eth, Some(chosen.value.links[i]), policy).Selected?)
    ensures var eth := context.inPacket.parsed.value;
      var location := hosts.byId[HostId(eth.dstMac)].location;
      var links := ChoosePath(policy, GetPaths(topology, hosts.byId[HostId(eth.srcMac)].location.deviceId, location.deviceId), draw).value.links;
      var r := IntraPlan(flags, delegates, policy, context, hosts, topology, draw);
      && r.fault.None? && |r.rules| == |links| + 1
      && (forall i :: 0 <= i < |links| ==>
            r.rules[i].deviceId == links[i].src.deviceId && r.rules[i].treatment == [Output(links[i].src.port)])
      && r.rules[|links|].deviceId == location.deviceId && r.rules[|links|].treatment == [Output(location.port)]
  {
    var pkt := context.inPacket;
    var eth := pkt.parsed.value;
    var location := hosts.byId[HostId(eth.dstMac)].location;
    var links := ChoosePath(policy, GetPaths(topology, hosts.byId[HostId(eth.srcMac)].location.deviceId, location.deviceId), draw).value.links;
    PathRulesComplete(links, IntraSelector(flags, delegates, pkt, eth, policy), IntraHop, location, policy.priority, IntraTimeout);
  }

  /**
   * Handles a packet `policy` matched: installs the plan's rules one at a
   * time, each applied on the backend and then recorded for the policy, and
   * reports the exception that stopped it, if any. The policy is a stored
   * one, so it has an id.
   */
  method IntraRouteProcess(policy: DefaultPolicy, context: PacketContext, store: SimplePolicyStore,
                           pathSelection: DefaultPathSelection, flags: ParserFlags, delegates: Delegates,
                           hosts: HostView, topology: Topology, draw: nat)
      returns (fault: Option<Fault>)
    requires policy.policyId.Some?
    modifies store, store.flowRuleService
    ensures var plan := IntraPlan(flags, delegates, policy, context, hosts, topology, draw);
      && fault == plan.fault
      && store.flowRuleService.log == old(store.flowRuleService.log) + Applications(plan.rules)
      && store.flowRuleList == Record(old(store.flowRuleList), Key(policy), plan.rules)
    ensures store.current == old(store.current) && store.pending == old(store.pending) && store.notified == old(store.notified)
  {
    var pkt := context.inPacket;
    if pkt.parsed.None? {
      return Some(NullPointer);
    }
    var ethPkt := pkt.parsed.value;
    if IsControlPacket(ethPkt) {
      return None;
    }
    var dstId := HostId(ethPkt.dstMac);
    var srcId := HostId(ethPkt.srcMac);
    var dst := GetHost(hosts, dstId);
    var src := GetHost(hosts, srcId);
    if src.None? || dst.None? {
      return None;
    }
    var dstLocation := dst.value.location;
    if src.value.location.deviceId == dstLocation.deviceId {
      var builderSelector := IntraBuildTrafficSelector(flags, delegates, pkt, ethPkt, None, policy);
      if builderSelector.Thrown? {
        return Some(builderSelector.fault);
      }
      if builderSelector.Selected? {
        var flowRule := RuleFor(dstLocation.deviceId, builderSelector.selector, [Output(dstLocation.port)], policy.priority, IntraTimeout);
        Install(store, policy, flowRule);
        RecordStep(old(store.flowRuleList), Key(policy), [], flowRule);
      }
      return None;
    }
    var endToEndPaths := GetPaths(topology, src.value.location.deviceId, dstLocation.deviceId);
    if policy.pathSelectionAlgo.None? {
      return Some(NullPointer);
    }
    var endPath: Option<Path>;
    match policy.pathSelectionAlgo.value {
      case RANDOM =>
        endPath := pathSelection.PickRandomPath(endToEndPaths, if |endToEndPaths| > 0 then draw % |endToEndPaths| else 0);
      case _ =>
        var chosen := pathSelection.GetEndtoEndPath(endToEndPaths, policy);
        if chosen.Threw? {
          return Some(chosen.fault);
        }
        endPath := chosen.value;
    }
    if endPath.None? {
      return Some(NullPointer);
    }
    var pathLinks := endPath.value.links;
    if |pathLinks| == 0 {
      return Some(IndexOutOfBounds);
    }
    fault := InstallPath(policy, store, IntraSelector(flags, delegates, pkt, ethPkt, policy), IntraHop, pathLinks, dstLocation,
                         policy.priority, IntraTimeout);
  }
}
