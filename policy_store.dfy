/**
 * The policy store: the current and pending policies keyed by policy id,
 * the flow rules recorded for each policy, and the events posted to the
 * store's delegate. The flow-rule backend is a log of the calls made to it.
 */
module PolicyStorage {
  import opened Wrappers
  import opened Net
  import opened Enums
  import opened Policies
  import opened PolicyEvents
  import opened ParseInts

  /** A call made to the flow-rule backend. */
  datatype RuleOp = Applied(rule: FlowRule) | Removed(rule: FlowRule)

  /** The rules the backend holds after a sequence of calls: applying adds a rule, removing deletes it. */
  ghost function Installed(log: seq<RuleOp>): set<FlowRule>
    decreases |log|
  {
    if |log| == 0 then {}
    else
      var before := Installed(log[..|log| - 1]);
      match log[|log| - 1]
      case Applied(r) => before + {r}
      case Removed(r) => before - {r}
  }

  function Applications(rules: seq<FlowRule>): (ops: seq<RuleOp>)
    ensures |ops| == |rules| && forall i :: 0 <= i < |rules| ==> ops[i] == Applied(rules[i])
  {
    seq(|rules|, i requires 0 <= i < |rules| => Applied(rules[i]))
  }

  function Removals(rules: seq<FlowRule>): (ops: seq<RuleOp>)
    ensures |ops| == |rules| && forall i :: 0 <= i < |rules| ==> ops[i] == Removed(rules[i])
  {
    seq(|rules|, i requires 0 <= i < |rules| => Removed(rules[i]))
  }

  /** Removing a list of rules, one call per rule, leaves the backend without any of them and with every other rule it held. */
  lemma {:induction false} InstalledAfterRemovals(log: seq<RuleOp>, rules: seq<FlowRule>)
    ensures Installed(log + Removals(rules)) == Installed(log) - set r | r in rules
    decreases |rules|
  {
    if |rules| > 0 {
      var front, last := rules[..|rules| - 1], rules[|rules| - 1];
      var whole := log + Removals(rules);
      assert whole[..|whole| - 1] == log + Removals(front);
      assert whole[|whole| - 1] == Removed(last);
      assert Installed(whole) == Installed(log + Removals(front)) - {last};
      InstalledAfterRemovals(log, front);
      assert (set r | r in rules) == (set r | r in front) + {last} by {
        assert rules == front + [last];
      }
    } else {
      assert log + Removals(rules) == log;
    }
  }

  /** Applying a list of rules, one call per rule, adds exactly those rules to what the backend holds. */
  lemma {:induction false} InstalledAfterApplications(log: seq<RuleOp>, rules: seq<FlowRule>)
    ensures Installed(log + Applications(rules)) == Installed(log) + set r | r in rules
    decreases |rules|
  {
    if |rules| > 0 {
      var front, last := rules[..|rules| - 1], rules[|rules| - 1];
      var whole := log + Applications(rules);
      assert whole[..|whole| - 1] == log + Applications(front);
      assert whole[|whole| - 1] == Applied(last);
      assert Installed(whole) == Installed(log + Applications(front)) + {last};
      InstalledAfterApplications(log, front);
      assert (set r | r in rules) == (set r | r in front) + {last} by {
        assert rules == front + [last];
      }
    } else {
      assert log + Applications(rules) == log;
    }
  }

  /** The flow-rule backend, seen through the calls made to it. */
  class FlowRuleService {
    ghost var log: seq<RuleOp>

    constructor()
      ensures log == []
    {
      log := [];
    }

    method ApplyFlowRules(rule: FlowRule)
      modifies this
      ensures log == old(log) + [Applied(rule)]
    {
      log := log + [Applied(rule)];
    }

    method RemoveFlowRules(rule: FlowRule)
      modifies this
      ensures log == old(log) + [Removed(rule)]
    {
      log := log + [Removed(rule)];
    }
  }

  /** The key a policy is stored under: the number of its id. */
  function Key(p: DefaultPolicy): int
    requires p.policyId.Some?
  {
    p.policyId.value.policyId
  }

  /** Every policy in the map is stored under its own id. */
  predicate KeyedById(m: map<int, DefaultPolicy>)
  {
    forall k :: k in m ==> m[k].policyId.Some? && Key(m[k]) == k
  }

  /**
   * The search of the store's `getPolicy`: the policies of `m` are visited
   * one at a time, the text is parsed at each visit, and the first policy
   * whose id number is the parsed value is returned.
   */
  method FindPolicy(m: map<int, DefaultPolicy>, policyId: string) returns (r: Outcome<Option<DefaultPolicy>>)
    requires KeyedById(m)
    ensures |m| == 0 ==> r == Returned(None)
    ensures |m| > 0 && ParseInt(policyId).None? ==> r == Threw(NumberFormat)
    ensures |m| > 0 && ParseInt(policyId).Some? ==>
      var n := ParseInt(policyId).value;
      r == Returned(if n in m then Some(m[n]) else None)
  {
    var remaining := m.Keys;
    ghost var visited: set<int> := {};
    while remaining != {}
      invariant remaining + visited == m.Keys && remaining !! visited
      invariant visited != {} ==> ParseInt(policyId).Some? && ParseInt(policyId).value !in visited
      decreases |remaining|
    {
      var k := Pick(remaining);
      var parsed := ParseInt(policyId);
      if parsed.None? {
        return Threw(NumberFormat);
      }
      if Key(m[k]) == parsed.value {
        return Returned(Some(m[k]));
      }
      remaining := remaining - {k};
      visited := visited + {k};
    }
    assert visited == m.Keys;
    r := Returned(None);
  }

  class SimplePolicyStore {
    var current: map<int, DefaultPolicy>
    var pending: map<int, DefaultPolicy>
    var flowRuleList: map<int, seq<FlowRule>>
    /** The events posted to the store's delegate, oldest first. */
    var notified: seq<PolicyEvent>
    const flowRuleService: FlowRuleService

    ghost predicate Valid()
      reads this
    {
      KeyedById(current) && KeyedById(pending)
    }

    constructor(backend: FlowRuleService)
      ensures Valid() && flowRuleService == backend
      ensures current == map[] && pending == map[] && flowRuleList == map[] && notified == []
    {
      current, pending, flowRuleList, notified := map[], map[], map[], [];
      flowRuleService := backend;
    }

    /** The rules recorded for id `k`; a key never used has an empty list. */
    function RulesOf(k: int): seq<FlowRule>
      reads this
    {
      if k in flowRuleList then flowRuleList[k] else []
    }

    function GetPolicies(): set<DefaultPolicy>
      reads this
    {
      current.Values
    }

    function GetCurrentPolicies(): set<DefaultPolicy>
      reads this
    {
      current.Values
    }

    function GetPendingPolicies(): set<DefaultPolicy>
      reads this
    {
      pending.Values
    }

    function GetCurrentPolicyMap(): map<int, DefaultPolicy>
      reads this
    {
      current
    }

    /** Both policy listings read the current map, and every policy listed is the one stored under its own id. */
    lemma CurrentListing(p: DefaultPolicy)
      requires Valid()
      ensures GetPolicies() == GetCurrentPolicies()
      ensures p in GetCurrentPolicies() <==> p.policyId.Some? && Key(p) in current && current[Key(p)] == p
    {
      if p in GetCurrentPolicies() {
        var k := KeyOfValue(current, p);
      }
    }

    function GetRulesCount(p: DefaultPolicy): (n: nat)
      requires p.policyId.Some?
      reads this
      ensures n == |GetFlowRulesForPolicy(p)|
    {
      |RulesOf(Key(p))|
    }

    function GetFlowRulesForPolicy(p: DefaultPolicy): seq<FlowRule>
      requires p.policyId.Some?
      reads this
    {
      RulesOf(Key(p))
    }

    /**
     * Stores `p` as current under its id, replacing any policy with that id,
     * and posts the event for its state. A `null` state fails after the
     * policy has been stored, with no event posted.
     */
    method AddCurrent(p: DefaultPolicy) returns (fault: Option<Fault>)
      requires Valid() && p.policyId.Some?
      modifies this
      ensures Valid()
      ensures current == old(current)[Key(p) := p]
      ensures pending == old(pending) && flowRuleList == old(flowRuleList)
      ensures p.policyState.None? ==> fault == Some(NullPointer) && notified == old(notified)
      ensures p.policyState.Some? ==> fault.None? && notified == old(notified) + [GetEvent(p.policyState.value, p).value]
    {
      current := current[Key(p) := p];
      var event := GetEventOf(p);
      if event.Threw? {
        return Some(event.fault);
      }
      if event.value.Some? {
        notified := notified + [event.value.value];
      }
      fault := None;
    }

    /** Stores `p` as pending under its id and posts the event for its state; the current map is not touched. */
    method AddPending(p: DefaultPolicy) returns (fault: Option<Fault>)
      requires Valid() && p.policyId.Some?
      modifies this
      ensures Valid()
      ensures pending == old(pending)[Key(p) := p]
      ensures current == old(current) && flowRuleList == old(flowRuleList)
      ensures p.policyState.None? ==> fault == Some(NullPointer) && notified == old(notified)
      ensures p.policyState.Some? ==> fault.None? && notified == old(notified) + [GetEvent(p.policyState.value, p).value]
    {
      pending := pending[Key(p) := p];
      var event := GetEventOf(p);
      if event.Threw? {
        return Some(event.fault);
      }
      if event.value.Some? {
        notified := notified + [event.value.value];
      }
      fault := None;
    }

    /** Appends `rule` to the rules recorded for `p`; a rule added twice is kept twice. */
    method AddFlowRule(p: DefaultPolicy, rule: FlowRule)
      requires p.policyId.Some?
      modifies this
      ensures flowRuleList == old(flowRuleList)[Key(p) := old(RulesOf(Key(p))) + [rule]]
      ensures GetRulesCount(p) == old(GetRulesCount(p)) + 1
      ensures forall k :: k != Key(p) ==> RulesOf(k) == old(RulesOf(k))
      ensures current == old(current) && pending == old(pending) && notified == old(notified)
    {
      flowRuleList := flowRuleList[Key(p) := RulesOf(Key(p)) + [rule]];
    }

    /**
     * Asks the backend to remove each rule recorded for the policy, in list
     * order, then drops its id from the current map. The recorded list is
     * kept and no event is posted. A `null` policy fails at once; a policy
     * without an id has no recorded rules and fails when its `null` id is
     * removed from the concurrent map; either way nothing changes.
     */
    method RemoveCurrentPolicy(policy: Option<DefaultPolicy>) returns (fault: Option<Fault>)
      requires Valid()
      modifies this, flowRuleService
      ensures Valid()
      ensures policy.None? || policy.value.policyId.None? ==>
        fault == Some(NullPointer) && current == old(current) && flowRuleService.log == old(flowRuleService.log)
      ensures policy.Some? && policy.value.policyId.Some? ==>
        var p := policy.value;
        && fault.None?
        && flowRuleService.log == old(flowRuleService.log) + Removals(old(RulesOf(Key(p))))
        && Installed(flowRuleService.log) == Installed(old(flowRuleService.log)) - set r | r in old(RulesOf(Key(p)))
        && current == old(current) - {Key(p)}
      ensures flowRuleList == old(flowRuleList) && pending == old(pending) && notified == old(notified)
    {
      if policy.None? {
        return Some(NullPointer);
      }
      var p := policy.value;
      if p.policyId.None? {
        // no rule is ever recorded without an id, and removing the null key throws
        return Some(NullPointer);
      }
      var flowRules := RulesOf(Key(p));
      var i := 0;
      while i < |flowRules|
        invariant 0 <= i <= |flowRules|
        invariant flowRuleService.log == old(flowRuleService.log) + Removals(flowRules[..i])
        invariant current == old(current) && flowRuleList == old(flowRuleList)
        invariant pending == old(pending) && notified == old(notified)
      {
        flowRuleService.RemoveFlowRules(flowRules[i]);
        assert Removals(flowRules[..i + 1]) == Removals(flowRules[..i]) + [Removed(flowRules[i])];
        i := i + 1;
      }
      assert flowRules[..i] == flowRules;
      InstalledAfterRemovals(old(flowRuleService.log), flowRules);
      current := current - {Key(p)};
      fault := None;
    }

    /**
     * The current policy whose id number is the decimal `policyId`, or `None`.
     * The argument is parsed only when there is a policy to compare it with,
     * so an empty store answers `None` even for text that is not a number.
     */
    method GetPolicy(policyId: string) returns (r: Outcome<Option<DefaultPolicy>>)
      requires Valid()
      ensures |current| == 0 ==> r == Returned(None)
      ensures |current| > 0 && ParseInt(policyId).None? ==> r == Threw(NumberFormat)
      ensures |current| > 0 && ParseInt(policyId).Some? ==>
        var n := ParseInt(policyId).value;
        r == Returned(if n in current then Some(current[n]) else None)
    {
      r := FindPolicy(current, policyId);
    }
  }
}
