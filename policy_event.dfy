/** Policy life-cycle events: the event a policy's state announces. */
module PolicyEvents {
  import opened Wrappers
  import opened Net
  import opened Enums
  import opened Policies

  datatype EventType = INSTALL_REQ | INSTALLED | FAILED | WITHDRAW_REQ | WITHDRAWN | CORRUPT | PURGED

  datatype PolicyEvent = PolicyEvent(eventType: EventType, subject: DefaultPolicy)

  function StateName(s: PolicyState): string
  {
    match s
    case INSTALL_REQ => "INSTALL_REQ"
    case INSTALLED => "INSTALLED"
    case FAILED => "FAILED"
    case WITHDRAW_REQ => "WITHDRAW_REQ"
    case WITHDRAWN => "WITHDRAWN"
    case CORRUPT => "CORRUPT"
    case PURGED => "PURGED"
  }

  function TypeName(t: EventType): string
  {
    match t
    case INSTALL_REQ => "INSTALL_REQ"
    case INSTALLED => "INSTALLED"
    case FAILED => "FAILED"
    case WITHDRAW_REQ => "WITHDRAW_REQ"
    case WITHDRAWN => "WITHDRAWN"
    case CORRUPT => "CORRUPT"
    case PURGED => "PURGED"
  }

  /**
   * The event for a policy in state `state`. The switch covers all seven
   * states, so the empty result of its default branch never arises.
   */
  function GetEvent(state: PolicyState, policy: DefaultPolicy): (r: Option<PolicyEvent>)
    ensures r.Some? && r.value.subject == policy
    ensures TypeName(r.value.eventType) == StateName(state)
  {
    match state
    case INSTALL_REQ => Some(PolicyEvent(EventType.INSTALL_REQ, policy))
    case INSTALLED => Some(PolicyEvent(EventType.INSTALLED, policy))
    case FAILED => Some(PolicyEvent(EventType.FAILED, policy))
    case WITHDRAW_REQ => Some(PolicyEvent(EventType.WITHDRAW_REQ, policy))
    case WITHDRAWN => Some(PolicyEvent(EventType.WITHDRAWN, policy))
    case CORRUPT => Some(PolicyEvent(EventType.CORRUPT, policy))
    case PURGED => Some(PolicyEvent(EventType.PURGED, policy))
  }

  /** The event for a policy's own state; a `null` state fails at the switch. */
  function GetEventOf(policy: DefaultPolicy): (r: Outcome<Option<PolicyEvent>>)
    ensures policy.policyState.None? <==> r == Threw(NullPointer)
    ensures policy.policyState.Some? ==> r == Returned(GetEvent(policy.policyState.value, policy))
  {
    if policy.policyState.None? then Threw(NullPointer)
    else Returned(GetEvent(policy.policyState.value, policy))
  }

  /** Distinct states announce distinct event types, so the event type recovers the state. */
  lemma GetEventInjective(s1: PolicyState, s2: PolicyState, p1: DefaultPolicy, p2: DefaultPolicy)
    requires GetEvent(s1, p1).value.eventType == GetEvent(s2, p2).value.eventType
    ensures s1 == s2
  {
  }
}
