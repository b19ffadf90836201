/**
 * What the two route actions share: the snapshots of the host and topology
 * services they read, the choice of an end-to-end path by the policy's
 * selection algorithm, and the rules installed along a path. A route
 * action's effect is described by a `Plan`: the rules it installs, in
 * installation order, and the exception that cut it short, if any.
 */
module RouteRules {
  import opened Wrappers
  import opened Net
  import opened Enums
  import opened Policies
  import opened PolicyStorage
  import opened PathSelection

  /** The flow table both actions install into. */
  const TABLE_ID: int := 0

  /** The time-out both actions give their rules, in seconds. */
  const DEFAULT_TIMEOUT: int := 100

  /** The hosts the host service knows: by id, and by IP address in iteration order. */
  datatype HostView = HostView(byId: map<HostId, Host>, byIp: map<IpAddress, seq<Host>>)

  /** The host with the id; `None` for an unknown host. */
  function GetHost(hosts: HostView, id: HostId): Option<Host>
  {
    if id in hosts.byId then Some(hosts.byId[id]) else None
  }

  /** The hosts holding the address; none for an address no host holds. */
  function GetHostsByIp(hosts: HostView, a: IpAddress): seq<Host>
  {
    if a in hosts.byIp then hosts.byIp[a] else []
  }

  /** The current topology's paths between pairs of devices, each set in iteration order. */
  datatype Topology = Topology(paths: map<(DeviceId, DeviceId), seq<Path>>)

  /** The paths from `src` to `dst`; none for a pair the topology does not connect. */
  function GetPaths(topology: Topology, src: DeviceId, dst: DeviceId): seq<Path>
  {
    if (src, dst) in topology.paths then topology.paths[(src, dst)] else []
  }

  /** The rules an action installed, and the exception that stopped it. */
  datatype Plan = Plan(rules: seq<FlowRule>, fault: Option<Fault>)

  /** The plan of an action that installed `done` before carrying on as `rest`. */
  function Then(done: seq<FlowRule>, rest: Plan): Plan
  {
    Plan(done + rest.rules, rest.fault)
  }

  /**
   * The path the policy's algorithm picks among the candidates: RANDOM takes
   * the candidate at the drawn index, every other algorithm the partial-path
   * choice. A missing algorithm fails at the switch, and so does the missing
   * path of an empty candidate set once its links are asked for; the
   * partial-path choice also fails on a missing partial path.
   */
  function ChoosePath(policy: DefaultPolicy, paths: seq<Path>, draw: nat): (r: Outcome<Path>)
    ensures r.Threw? ==> r.fault == NullPointer
    ensures r.Threw? <==>
      policy.pathSelectionAlgo.None? || |paths| == 0 ||
      (policy.pathSelectionAlgo != Some(RANDOM) && policy.connectPointList.None?)
    ensures r.Returned? ==> r.value in paths
    ensures r.Returned? && policy.pathSelectionAlgo == Some(RANDOM) ==> r.value == paths[draw % |paths|]
  {
    if policy.pathSelectionAlgo.None? || |paths| == 0 then Threw(NullPointer)
    else if policy.pathSelectionAlgo.value == RANDOM then Returned(paths[draw % |paths|])
    else if policy.connectPointList.None? then Threw(NullPointer)
    else Returned(EndToEndChoice(paths, set c | c in policy.connectPointList.value).value)
  }

  /** The rule on `device` applying `treatment` to the traffic `s` selects, in the actions' table. */
  function RuleFor(device: DeviceId, s: Selector, treatment: seq<Instruction>, priority: int, timeout: Timeout): FlowRule
  {
    FlowRule(device, s, treatment, priority, timeout, TABLE_ID)
  }

  /**
   * The rules for one link of the path: one on the link's source device,
   * and, when the link is the path's last, one more delivering to the
   * destination host's port.
   */
  function HopRules(link: Link, last: Link, s: Selector, treatment: seq<Instruction>, dst: ConnectPoint, priority: int, timeout: Timeout): seq<FlowRule>
  {
    [RuleFor(link.src.deviceId, s, treatment, priority, timeout)] +
    (if link == last then [RuleFor(dst.deviceId, s, [Output(dst.port)], priority, timeout)] else [])
  }

  /**
   * The rules installed along `links`: each link's selector is built in
   * order; a link without one gets no rule, and the first exception stops
   * the walk with the rules of the earlier links installed.
   */
  function PathRules(links: seq<Link>, last: Link, sel: Link -> Built, hop: Link -> seq<Instruction>,
                     dst: ConnectPoint, priority: int, timeout: Timeout): Plan
    decreases |links|
  {
    if |links| == 0 then Plan([], None)
    else
      var rest := PathRules(links[1..], last, sel, hop, dst, priority, timeout);
      match sel(links[0])
      case Thrown(f) => Plan([], Some(f))
      case NoSelector => rest
      case Selected(s) => Then(HopRules(links[0], last, s, hop(links[0]), dst, priority, timeout), rest)
  }

  /** Every rule along a path carries the given priority, time-out and table. */
  lemma {:induction false} PathRulesUniform(links: seq<Link>, last: Link, sel: Link -> Built, hop: Link -> seq<Instruction>,
                                            dst: ConnectPoint, priority: int, timeout: Timeout)
    ensures forall r :: r in PathRules(links, last, sel, hop, dst, priority, timeout).rules ==>
      r.priority == priority && r.timeout == timeout && r.tableId == TABLE_ID
    decreases |links|
  {
    if |links| > 0 {
      PathRulesUniform(links[1..], last, sel, hop, dst, priority, timeout);
    }
  }

  /** The walk along a path completes exactly when no link's selector throws. */
  lemma {:induction false} PathRulesFault(links: seq<Link>, last: Link, sel: Link -> Built, hop: Link -> seq<Instruction>,
                                          dst: ConnectPoint, priority: int, timeout: Timeout)
    ensures PathRules(links, last, sel, hop, dst, priority, timeout).fault.None? <==>
      forall i :: 0 <= i < |links| ==> !sel(links[i]).Thrown?
    decreases |links|
  {
    if |links| > 0 {
      PathRulesFault(links[1..], last, sel, hop, dst, priority, timeout);
      assert forall i :: 1 <= i < |links| ==> links[1..][i - 1] == links[i];
    }
  }

  /** A path none of whose links gets a selector installs nothing. */
  lemma {:induction false} PathRulesNone(links: seq<Link>, last: Link, sel: Link -> Built, hop: Link -> seq<Instruction>,
                                         dst: ConnectPoint, priority: int, timeout: Timeout)
    requires forall i :: 0 <= i < |links| ==> !sel(links[i]).Selected?
    ensures PathRules(links, last, sel, hop, dst, priority, timeout).rules == []
    decreases |links|
  {
    if |links| > 0 {
      assert forall i :: 0 <= i < |links| - 1 ==> links[1..][i] == links[i + 1];
      PathRulesNone(links[1..], last, sel, hop, dst, priority, timeout);
    }
  }

  /**
   * Along a loop-free path whose every link gets a selector, one rule goes
   * on each link's source device with that link's treatment, in path order,
   * and one last rule delivers on the destination host's port: |links| + 1
   * rules in all.
   */
  lemma {:induction false} PathRulesComplete(links: seq<Link>, sel: Link -> Built, hop: Link -> seq<Instruction>,
                                             dst: ConnectPoint, priority: int, timeout: Timeout)
    requires |links| > 0
    requires forall i, j :: 0 <= i < j < |links| ==> links[i] != links[j]
    requires forall i :: 0 <= i < |links| ==> sel(links[i]).Selected?
    ensures var r := PathRules(links, links[|links| - 1], sel, hop, dst, priority, timeout);
      && r.fault.None?
      && |r.rules| == |links| + 1
      && (forall i :: 0 <= i < |links| ==>
            r.rules[i].deviceId == links[i].src.deviceId && r.rules[i].treatment == hop(links[i]) &&
            r.rules[i].selector == sel(links[i]).selector)
      && r.rules[|links|].deviceId == dst.deviceId && r.rules[|links|].treatment == [Output(dst.port)]
      && r.rules[|links|].selector == sel(links[|links| - 1]).selector
    decreases |links|
  {
    var last := links[|links| - 1];
    var r := PathRules(links, last, sel, hop, dst, priority, timeout);
    if |links| == 1 {
      assert links[1..] == [];
    } else {
      var tail := links[1..];
      assert tail[|tail| - 1] == last;
      assert links[0] != last;
      assert forall i, j :: 0 <= i < j < |tail| ==> tail[i] != tail[j] by {
        forall i, j | 0 <= i < j < |tail|
          ensures tail[i] != tail[j]
        {
          assert tail[i] == links[i + 1] && tail[j] == links[j + 1];
        }
      }
      PathRulesComplete(tail, sel, hop, dst, priority, timeout);
      var rest := PathRules(tail, last, sel, hop, dst, priority, timeout);
      PathRulesStep(links, last, sel, hop, dst, priority, timeout);
      forall i | 1 <= i < |links|
        ensures r.rules[i].deviceId == links[i].src.deviceId && r.rules[i].treatment == hop(links[i])
        ensures r.rules[i].selector == sel(links[i]).selector
      {
        assert r.rules[i] == rest.rules[i - 1] && tail[i - 1] == links[i];
      }
    }
  }

  /** A link that is not the last one and gets a selector contributes exactly one rule before the rest of the path's. */
  lemma PathRulesStep(links: seq<Link>, last: Link, sel: Link -> Built, hop: Link -> seq<Instruction>,
                      dst: ConnectPoint, priority: int, timeout: Timeout)
    requires |links| > 0 && links[0] != last && sel(links[0]).Selected?
    ensures PathRules(links, last, sel, hop, dst, priority, timeout) ==
      Then([RuleFor(links[0].src.deviceId, sel(links[0]).selector, hop(links[0]), priority, timeout)],
           PathRules(links[1..], last, sel, hop, dst, priority, timeout))
  {
  }

  /** The recorded rule lists after `rules` were added for the policy with key `k`; nothing is recorded for no rules. */
  function Record(list: map<int, seq<FlowRule>>, k: int, rules: seq<FlowRule>): map<int, seq<FlowRule>>
  {
    if rules == [] then list else list[k := (if k in list then list[k] else []) + rules]
  }

  /** Recording rules one call at a time records them all, in order. */
  lemma RecordStep(list: map<int, seq<FlowRule>>, k: int, rules: seq<FlowRule>, rule: FlowRule)
    ensures var before := Record(list, k, rules);
      before[k := (if k in before then before[k] else []) + [rule]] == Record(list, k, rules + [rule])
  {
    var prior := if k in list then list[k] else [];
    if rules == [] {
      assert rules + [rule] == [rule];
    } else {
      var before := list[k := prior + rules];
      assert before[k] == prior + rules;
      assert prior + rules + [rule] == prior + (rules + [rule]);
    }
  }

  /** Logging one more application extends the log of the rules applied so far. */
  lemma AppliedStep(log: seq<RuleOp>, done: seq<FlowRule>, rule: FlowRule)
    ensures log + Applications(done) + [Applied(rule)] == log + Applications(done + [rule])
  {
    assert Applications(done) + [Applied(rule)] == Applications(done + [rule]);
  }

  /**
   * Installs one rule: the backend is asked to apply it and the store
   * records it for the policy. The backend and the store are the same
   * services both actions use.
   */
  method Install(store: SimplePolicyStore, policy: DefaultPolicy, rule: FlowRule)
    requires policy.policyId.Some?
    modifies store, store.flowRuleService
    ensures store.flowRuleService.log == old(store.flowRuleService.log) + [Applied(rule)]
    ensures store.flowRuleList == old(store.flowRuleList)[Key(policy) := old(store.RulesOf(Key(policy))) + [rule]]
    ensures store.current == old(store.current) && store.pending == old(store.pending) && store.notified == old(store.notified)
  {
    store.flowRuleService.ApplyFlowRules(rule);
    store.AddFlowRule(policy, rule);
  }

  /**
   * Installs the rules for one link of the path: the rule on the link's
   * source device, then, when the link is the last one, the rule
   * delivering to the destination host. `done` are the rules installed
   * before, on top of the backend log `log0` and the recorded lists `list0`.
   */
  method InstallHop(store: SimplePolicyStore, policy: DefaultPolicy, link: Link, lastLink: Link, s: Selector,
                    treatment: seq<Instruction>, dstLocation: ConnectPoint, priority: int, timeout: Timeout,
                    ghost log0: seq<RuleOp>, ghost list0: map<int, seq<FlowRule>>, ghost done: seq<FlowRule>)
    requires policy.policyId.Some?
    requires store.flowRuleService.log == log0 + Applications(done)
    requires store.flowRuleList == Record(list0, Key(policy), done)
    modifies store, store.flowRuleService
    ensures var here := HopRules(link, lastLink, s, treatment, dstLocation, priority, timeout);
      && store.flowRuleService.log == log0 + Applications(done + here)
      && store.flowRuleList == Record(list0, Key(policy), done + here)
    ensures store.current == old(store.current) && store.pending == old(store.pending) && store.notified == old(store.notified)
  {
    var flowRule := RuleFor(link.src.deviceId, s, treatment, priority, timeout);
    Install(store, policy, flowRule);
    AppliedStep(log0, done, flowRule);
    RecordStep(list0, Key(policy), done, flowRule);
    if lastLink == link {
      var dstRule := RuleFor(dstLocation.deviceId, s, [Output(dstLocation.port)], priority, timeout);
      Install(store, policy, dstRule);
      AppliedStep(log0, done + [flowRule], dstRule);
      RecordStep(list0, Key(policy), done + [flowRule], dstRule);
      assert done + [flowRule] + [dstRule] == done + HopRules(link, lastLink, s, treatment, dstLocation, priority, timeout);
    } else {
      assert done + [flowRule] == done + HopRules(link, lastLink, s, treatment, dstLocation, priority, timeout);
    }
  }

  /**
   * The loop over the chosen path's links: the path's rules, in order, until
   * a selector throws. `sel` is the parser's selector for a link and `hop`
   * the treatment of the rule on the link's source device.
   */
  method InstallPath(policy: DefaultPolicy, store: SimplePolicyStore, sel: Link -> Built, hop: Link -> seq<Instruction>,
                     pathLinks: seq<Link>, dstLocation: ConnectPoint, priority: int, timeout: Timeout)
      returns (fault: Option<Fault>)
    requires policy.policyId.Some? && |pathLinks| > 0
    modifies store, store.flowRuleService
    ensures var plan := PathRules(pathLinks, pathLinks[|pathLinks| - 1], sel, hop, dstLocation, priority, timeout);
      && fault == plan.fault
      && store.flowRuleService.log == old(store.flowRuleService.log) + Applications(plan.rules)
      && store.flowRuleList == Record(old(store.flowRuleList), Key(policy), plan.rules)
    ensures store.current == old(store.current) && store.pending == old(store.pending) && store.notified == old(store.notified)
  {
    var lastLink := pathLinks[|pathLinks| - 1];
    ghost var plan := PathRules(pathLinks, lastLink, sel, hop, dstLocation, priority, timeout);
    ghost var done: seq<FlowRule> := [];
    var i := 0;
    assert pathLinks[0..] == pathLinks;
    while i < |pathLinks|
      invariant 0 <= i <= |pathLinks|
      invariant plan == Then(done, PathRules(pathLinks[i..], lastLink, sel, hop, dstLocation, priority, timeout))
      invariant store.flowRuleService.log == old(store.flowRuleService.log) + Applications(done)
      invariant store.flowRuleList == Record(old(store.flowRuleList), Key(policy), done)
      invariant store.current == old(store.current) && store.pending == old(store.pending) && store.notified == old(store.notified)
    {
      var link := pathLinks[i];
      assert pathLinks[i..][0] == link && pathLinks[i..][1..] == pathLinks[i + 1..];
      ghost var rest := PathRules(pathLinks[i + 1..], lastLink, sel, hop, dstLocation, priority, timeout);
      var builderSelector := sel(link);
      if builderSelector.Thrown? {
        assert plan.rules == done + [] == done;
        return Some(builderSelector.fault);
      }
      if builderSelector.Selected? {
        ghost var here := HopRules(link, lastLink, builderSelector.selector, hop(link), dstLocation, priority, timeout);
        var treatment := hop(link);
        InstallHop(store, policy, link, lastLink, builderSelector.selector, treatment, dstLocation, priority, timeout,
                   old(store.flowRuleService.log), old(store.flowRuleList), done);
        done := done + here;
        assert plan == Then(done, rest);
      }
      i := i + 1;
    }
    assert pathLinks[i..] == [];
    assert plan.rules == done + [] == done;
    fault := None;
  }
}
