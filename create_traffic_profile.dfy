/** The traffic-profile factory: turns an application-type name into a profile and keeps the last one built. */
module CreateTrafficProfiles {
  import opened Wrappers
  import opened Net
  import opened Enums
  import opened ApplicationTypes
  import opened Atomics
  import opened TrafficProfiles

  /** The application type a name selects in the factory's switch; names outside the four cases select none. */
  function ApplicationTypeOf(name: string): (r: Option<ApplicationType>)
    ensures r.Some? ==> r.value in {WEB, VOIP, ApplicationType.PING, ApplicationType.VIDEO_STREAMING}
  {
    match name
    case "WEB" => Some(WEB)
    case "VOIP" => Some(VOIP)
    case "PING" => Some(ApplicationType.PING)
    case "VIDEO_STREAMING" => Some(ApplicationType.VIDEO_STREAMING)
    case _ => None
  }

  /** The catalogue name of an application type. */
  function TypeName(a: ApplicationType): string
  {
    match a
    case WEB => "WEB"
    case FTP => "FTP"
    case VOIP => "VOIP"
    case TFTP => "TFTP"
    case PING => "PING"
    case VIDEO_STREAMING => "VIDEO_STREAMING"
  }

  /**
   * The four switch cases select the type of the same name, and every other
   * name — including the catalogue's own "FTP" and "TFTP" — selects none.
   */
  lemma ApplicationTypeOfNames(a: ApplicationType)
    ensures a in {FTP, TFTP} ==> ApplicationTypeOf(TypeName(a)) == None
    ensures a !in {FTP, TFTP} ==> ApplicationTypeOf(TypeName(a)) == Some(a)
  {
  }

  /** A name selects a type exactly when it is the catalogue name of WEB, VOIP, PING or VIDEO_STREAMING. */
  lemma ApplicationTypeOfInverse(name: string)
    ensures ApplicationTypeOf(name).Some? <==> name in {"WEB", "VOIP", "PING", "VIDEO_STREAMING"}
    ensures ApplicationTypeOf(name).Some? ==> TypeName(ApplicationTypeOf(name).value) == name
  {
  }

  class DefaultCreateTrafficProfile {
    var trafficProfile: Option<DefaultTrafficProfile>

    /** Activation clears the stored profile. */
    constructor()
      ensures trafficProfile.None?
    {
      trafficProfile := None;
    }

    function GetTrafficProfile(): Option<DefaultTrafficProfile>
      reads this
    {
      trafficProfile
    }

    /**
     * Builds a profile for the named application type under a fresh profile
     * id and stores it. The id is taken from the counter before the name is
     * examined, so a `null` name (`None`) still consumes a counter value and
     * then fails at the switch with the stored profile left as it was.
     */
    method CreateTrafficProfile(applicationType: Option<string>, trafficProfileId: Option<string>, uniqueId: AtomicCounter)
      returns (fault: Option<Fault>)
      modifies this, uniqueId
      ensures uniqueId.value == Next(old(uniqueId.value))
      ensures applicationType.None? ==> fault == Some(NullPointer) && trafficProfile == old(trafficProfile)
      ensures applicationType.Some? ==>
        var a := ApplicationTypeOf(applicationType.value);
        && fault.None?
        && trafficProfile.Some?
        && trafficProfile.value.trafficProfileId.Some?
        && fresh(trafficProfile.value.trafficProfileId.value)
        && trafficProfile.value.trafficProfileId.value.profileId == old(uniqueId.value)
        && trafficProfile.value.trafficProfileId.value.profileName == trafficProfileId
        && trafficProfile.value.applicationType == a
        && trafficProfile.value.trafficClass == (if a.Some? then Some(GetTrafficClass(a.value)) else None)
        && trafficProfile.value.criteriaSet.None?
    {
      var ids := new DefaultTrafficProfileId(trafficProfileId, uniqueId);
      if applicationType.None? {
        return Some(NullPointer);
      }
      var applicationTypes := ApplicationTypeOf(applicationType.value);
      var trafficClass: Option<TrafficClass> := None;
      if applicationTypes.Some? {
        trafficClass := Some(GetTrafficClass(applicationTypes.value));
      }
      var b := new Builder();
      b := b.SetTrafficProfileId(Some(ids));
      b := b.SetApplicationType(applicationTypes);
      b := b.SetTrafficClass(trafficClass);
      trafficProfile := Some(b.Build());
      fault := None;
    }
  }
}
