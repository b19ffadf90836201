/**
 * Policy creation: a policy is built from the given fields under a fresh
 * policy id computed against the store's current policies, and kept as the
 * last created policy.
 */
module CreatePolicies {
  import opened Wrappers
  import opened Net
  import opened Enums
  import opened Atomics
  import opened TrafficProfiles
  import opened Policies
  import opened PolicyStorage
  import opened PolicyIds

  class DefaultCreatePolicy {
    /** The last created policy; `None` before the first creation. */
    var policy: Option<DefaultPolicy>

    /** Activation clears the last created policy. */
    constructor()
      ensures policy.None?
    {
      policy := None;
    }

    /**
     * Builds the policy from the given fields under a new id: the id's name
     * is `policyName` and its number the least non-negative number no
     * current policy uses (every id the store holds is non-negative when all
     * were allocated this way). The policy is not inserted into the store,
     * so creating twice before an insertion hands out the same number.
     */
    method CreatePolicy(policyName: Option<string>, priority: int, policyState: Option<PolicyState>, version: int,
                        connectPointList: Option<seq<ConnectPoint>>, srcHostsList: Option<seq<HostId>>,
                        dstHostsList: Option<seq<HostId>>, pathSelectionAlgo: Option<PathSelectionAlgo>,
                        trafficProfile: Option<DefaultTrafficProfile>, srcRegion: Option<Region>, dstRegion: Option<Region>,
                        action: Option<Action>, store: SimplePolicyStore, uniqueId: AtomicCounter)
      modifies this, uniqueId
      ensures policy.Some? && policy.value.policyId.Some?
      ensures var id := policy.value.policyId.value;
        && id.policyName == policyName
        && policy.value == DefaultPolicy(Some(id), priority, policyState, version, connectPointList, srcHostsList,
                                         dstHostsList, pathSelectionAlgo, trafficProfile, srcRegion, dstRegion, action)
        && 0 <= id.policyId <= |store.current|
        && ((forall k :: k in store.current ==> k >= 0) ==> IsLeastMissing(store.current.Keys, id.policyId))
      ensures uniqueId.value == old(uniqueId.value)
    {
      var defaultPolicyId := new DefaultPolicyId();
      defaultPolicyId.CreatePolicyId(policyName, store, uniqueId);
      var built := BuildFromFields(Some(defaultPolicyId.Value()), priority, policyState, version, connectPointList,
                                   srcHostsList, dstHostsList, pathSelectionAlgo, trafficProfile, srcRegion, dstRegion, action);
      policy := Some(built);
    }

    /** The last created policy, `null` before any. */
    function GetPolicy(): Option<DefaultPolicy>
      reads this
    {
      policy
    }
  }

  /**
   * Ids handed out between insertions are increasing: once the policy with
   * the least missing number is inserted, the next creation gets a larger
   * number, and with no insertion it gets the same one.
   */
  lemma {:induction false} SuccessiveIds(ids: set<int>, first: int, second: int)
    requires IsLeastMissing(ids, first)
    ensures IsLeastMissing(ids, second) ==> second == first
    ensures IsLeastMissing(ids + {first}, second) ==> second > first
  {
    if IsLeastMissing(ids, second) {
      LeastMissingUnique(ids, first, second);
    }
  }
}
