/**
 * Routing policies: the id/priority/state/version core every policy has and
 * the default policy's routing fields (partial path, host lists, regions,
 * action, path-selection algorithm and traffic profile), with the builder
 * that assembles them.
 */
module Policies {
  import opened Wrappers
  import opened Net
  import opened Enums
  import opened TrafficProfiles

  const DEFAULT_POLICY_PRIORITY: int := 100
  const POLICY_MIN_PRIORITY: int := 1
  const POLICY_MAX_PRIORITY: int := 0x1_0000 - 1

  /** The value of a policy-id object once its id has been allocated: the number and the policy name. */
  datatype PolicyId = PolicyId(policyId: int, policyName: Option<string>)

  /** A region, known to the policies by its id. */
  datatype Region = Region(id: string)

  /**
   * A policy; `None` stands for a field left `null`. Priorities and versions
   * are stored as given: nothing checks them against the priority bounds.
   */
  datatype DefaultPolicy = DefaultPolicy(
    policyId: Option<PolicyId>,
    priority: int,
    policyState: Option<PolicyState>,
    version: int,
    connectPointList: Option<seq<ConnectPoint>>,
    srcHostsList: Option<seq<HostId>>,
    dstHostsList: Option<seq<HostId>>,
    pathSelectionAlgo: Option<PathSelectionAlgo>,
    trafficProfile: Option<DefaultTrafficProfile>,
    srcRegion: Option<Region>,
    dstRegion: Option<Region>,
    action: Option<Action>)

  /** The policy the no-argument constructors build. */
  function DefaultConstructed(): (p: DefaultPolicy)
    ensures p.policyId.None? && p.policyState.None?
    ensures p.priority == DEFAULT_POLICY_PRIORITY && p.version == 0
    ensures p.connectPointList.None? && p.srcHostsList.None? && p.dstHostsList.None?
    ensures p.pathSelectionAlgo.None? && p.trafficProfile.None?
    ensures p.srcRegion.None? && p.dstRegion.None? && p.action.None?
  {
    DefaultPolicy(None, DEFAULT_POLICY_PRIORITY, None, 0, None, None, None, None, None, None, None, None)
  }

  /** The default priority lies inside the declared bounds, whose upper end is 2^16 - 1. */
  lemma PriorityBounds()
    ensures POLICY_MIN_PRIORITY <= DEFAULT_POLICY_PRIORITY <= POLICY_MAX_PRIORITY
    ensures POLICY_MAX_PRIORITY == 65535
  {
  }

  /**
   * The policy builder. `Build()` is the policy holding the builder's
   * current fields; each setter changes exactly its own field of it and
   * returns the builder itself.
   */
  class Builder {
    var policyId: Option<PolicyId>
    var priority: int
    var policyState: Option<PolicyState>
    var version: int
    var connectPointList: Option<seq<ConnectPoint>>
    var srcHostsList: Option<seq<HostId>>
    var dstHostsList: Option<seq<HostId>>
    var pathSelectionAlgo: Option<PathSelectionAlgo>
    var trafficProfile: Option<DefaultTrafficProfile>
    var srcRegion: Option<Region>
    var dstRegion: Option<Region>
    var action: Option<Action>

    function Build(): DefaultPolicy
      reads this
    {
      DefaultPolicy(policyId, priority, policyState, version, connectPointList, srcHostsList, dstHostsList,
                    pathSelectionAlgo, trafficProfile, srcRegion, dstRegion, action)
    }

    /** A fresh builder: numeric fields 0, every other field `null`. */
    constructor()
      ensures Build() == DefaultConstructed().(priority := 0)
    {
      policyId, priority, policyState, version := None, 0, None, 0;
      connectPointList, srcHostsList, dstHostsList := None, None, None;
      pathSelectionAlgo, trafficProfile, srcRegion, dstRegion, action := None, None, None, None, None;
    }

    /** The copy builder: every field of `p` except the version, which stays 0. */
    constructor FromPolicy(p: DefaultPolicy)
      ensures Build() == p.(version := 0)
    {
      priority := p.priority;
      trafficProfile := p.trafficProfile;
      pathSelectionAlgo := p.pathSelectionAlgo;
      srcRegion := p.srcRegion;
      dstRegion := p.dstRegion;
      policyId := p.policyId;
      policyState := p.policyState;
      connectPointList := p.connectPointList;
      srcHostsList := p.srcHostsList;
      dstHostsList := p.dstHostsList;
      action := p.action;
      version := 0;
    }

    method SetPolicyId(id: Option<PolicyId>) returns (b: Builder)
      modifies this
      ensures b == this && Build() == old(Build()).(policyId := id)
    {
      policyId := id;
      b := this;
    }

    method SetPriority(n: int) returns (b: Builder)
      modifies this
      ensures b == this && Build() == old(Build()).(priority := n)
    {
      priority := n;
      b := this;
    }

    method SetPolicyState(s: Option<PolicyState>) returns (b: Builder)
      modifies this
      ensures b == this && Build() == old(Build()).(policyState := s)
    {
      policyState := s;
      b := this;
    }

    method SetVersion(v: int) returns (b: Builder)
      modifies this
      ensures b == this && Build() == old(Build()).(version := v)
    {
      version := v;
      b := this;
    }

    method SetTrafficProfile(t: Option<DefaultTrafficProfile>) returns (b: Builder)
      modifies this
      ensures b == this && Build() == old(Build()).(trafficProfile := t)
    {
      trafficProfile := t;
      b := this;
    }

    method SetConnectPointList(l: Option<seq<ConnectPoint>>) returns (b: Builder)
      modifies this
      ensures b == this && Build() == old(Build()).(connectPointList := l)
    {
      connectPointList := l;
      b := this;
    }

    method SetAction(a: Option<Action>) returns (b: Builder)
      modifies this
      ensures b == this && Build() == old(Build()).(action := a)
    {
      action := a;
      b := this;
    }

    method SetSrcHostsList(l: Option<seq<HostId>>) returns (b: Builder)
      modifies this
      ensures b == this && Build() == old(Build()).(srcHostsList := l)
    {
      srcHostsList := l;
      b := this;
    }

    method SetDstHostsList(l: Option<seq<HostId>>) returns (b: Builder)
      modifies this
      ensures b == this && Build() == old(Build()).(dstHostsList := l)
    {
      dstHostsList := l;
      b := this;
    }

    method SetPathSelectionAlgo(a: Option<PathSelectionAlgo>) returns (b: Builder)
      modifies this
      ensures b == this && Build() == old(Build()).(pathSelectionAlgo := a)
    {
      pathSelectionAlgo := a;
      b := this;
    }

    method SetSrcRegion(r: Option<Region>) returns (b: Builder)
      modifies this
      ensures b == this && Build() == old(Build()).(srcRegion := r)
    {
      srcRegion := r;
      b := this;
    }

    method SetDstRegion(r: Option<Region>) returns (b: Builder)
      modifies this
      ensures b == this && Build() == old(Build()).(dstRegion := r)
    {
      dstRegion := r;
      b := this;
    }
  }

  /** Copying a policy through the copy builder gives it back with its version reset to 0. */
  method CopyPolicy(p: DefaultPolicy) returns (q: DefaultPolicy)
    ensures q == p.(version := 0)
    ensures p.version == 0 ==> q == p
  {
    var b := new Builder.FromPolicy(p);
    q := b.Build();
  }

  /** Setting every field on a fresh builder yields a policy whose getters return exactly the values set. */
  method BuildFromFields(id: Option<PolicyId>, priority: int, state: Option<PolicyState>, version: int,
                         devices: Option<seq<ConnectPoint>>, srcHosts: Option<seq<HostId>>, dstHosts: Option<seq<HostId>>,
                         algo: Option<PathSelectionAlgo>, profile: Option<DefaultTrafficProfile>,
                         srcRegion: Option<Region>, dstRegion: Option<Region>, action: Option<Action>)
    returns (p: DefaultPolicy)
    ensures p.policyId == id && p.priority == priority && p.policyState == state && p.version == version
    ensures p.connectPointList == devices && p.srcHostsList == srcHosts && p.dstHostsList == dstHosts
    ensures p.pathSelectionAlgo == algo && p.trafficProfile == profile
    ensures p.srcRegion == srcRegion && p.dstRegion == dstRegion && p.action == action
  {
    var b := new Builder();
    b := b.SetPolicyId(id);
    b := b.SetPriority(priority);
    b := b.SetPolicyState(state);
    b := b.SetVersion(version);
    b := b.SetConnectPointList(devices);
    b := b.SetSrcHostsList(srcHosts);
    b := b.SetDstHostsList(dstHosts);
    b := b.SetPathSelectionAlgo(algo);
    b := b.SetTrafficProfile(profile);
    b := b.SetSrcRegion(srcRegion);
    b := b.SetDstRegion(dstRegion);
    b := b.SetAction(action);
    p := b.Build();
  }
}
