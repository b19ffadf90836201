/** Traffic profiles: an application type, its traffic class and optional header criteria, under a counter-issued id. */
module TrafficProfiles {
  import opened Wrappers
  import opened Net
  import opened Enums
  import opened ApplicationTypes
  import opened Atomics

  /** A profile id: a number taken from the process-wide counter, and a name. */
  class DefaultTrafficProfileId {
    const profileId: Int32
    const profileName: Option<string>

    /** Takes the counter's current value as the id and advances the counter. */
    constructor(name: Option<string>, uniqueId: AtomicCounter)
      modifies uniqueId
      ensures profileId == old(uniqueId.value)
      ensures uniqueId.value == Next(old(uniqueId.value))
      ensures profileName == name
    {
      profileId := uniqueId.value;
      profileName := name;
      new;
      var _ := uniqueId.GetAndIncrement();
    }

    function GetProfileId(): Int32
    {
      profileId
    }

    function GetProfileName(): Option<string>
    {
      profileName
    }
  }

  /** An immutable traffic profile; `None` stands for a field left `null`. */
  datatype DefaultTrafficProfile = DefaultTrafficProfile(
    trafficProfileId: Option<DefaultTrafficProfileId>,
    criteriaSet: Option<Selector>,
    applicationType: Option<ApplicationType>,
    trafficClass: Option<TrafficClass>)

  /** The profile the no-argument constructor builds: every field `null`. */
  const EmptyProfile: DefaultTrafficProfile := DefaultTrafficProfile(None, None, None, None)

  /** The profile builder: each setter assigns one field and returns the builder itself. */
  class Builder {
    var trafficProfileId: Option<DefaultTrafficProfileId>
    var criteriaSet: Option<Selector>
    var applicationType: Option<ApplicationType>
    var trafficClass: Option<TrafficClass>

    constructor()
      ensures trafficProfileId.None? && criteriaSet.None? && applicationType.None? && trafficClass.None?
    {
      trafficProfileId := None;
      criteriaSet := None;
      applicationType := None;
      trafficClass := None;
    }

    method SetTrafficProfileId(id: Option<DefaultTrafficProfileId>) returns (b: Builder)
      modifies this
      ensures b == this && trafficProfileId == id
      ensures criteriaSet == old(criteriaSet) && applicationType == old(applicationType) && trafficClass == old(trafficClass)
    {
      trafficProfileId := id;
      b := this;
    }

    method SetCriteriaSet(c: Option<Selector>) returns (b: Builder)
      modifies this
      ensures b == this && criteriaSet == c
      ensures trafficProfileId == old(trafficProfileId) && applicationType == old(applicationType) && trafficClass == old(trafficClass)
    {
      criteriaSet := c;
      b := this;
    }

    method SetApplicationType(a: Option<ApplicationType>) returns (b: Builder)
      modifies this
      ensures b == this && applicationType == a
      ensures trafficProfileId == old(trafficProfileId) && criteriaSet == old(criteriaSet) && trafficClass == old(trafficClass)
    {
      applicationType := a;
      b := this;
    }

    method SetTrafficClass(c: Option<TrafficClass>) returns (b: Builder)
      modifies this
      ensures b == this && trafficClass == c
      ensures trafficProfileId == old(trafficProfileId) && criteriaSet == old(criteriaSet) && applicationType == old(applicationType)
    {
      trafficClass := c;
      b := this;
    }

    /** The profile holding exactly the builder's fields. */
    function Build(): (p: DefaultTrafficProfile)
      reads this
      ensures p.trafficProfileId == trafficProfileId && p.criteriaSet == criteriaSet
      ensures p.applicationType == applicationType && p.trafficClass == trafficClass
    {
      DefaultTrafficProfile(trafficProfileId, criteriaSet, applicationType, trafficClass)
    }
  }
}
