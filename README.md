# OSDF reactive policy routing — a Dafny model

OSDF-REACTIVE is an ONOS application that routes traffic by policy. An
operator creates policies. Each policy names a traffic profile (an
application type such as VOIP or PING), a priority, source and destination
hosts and regions, a path-selection algorithm and an action (route within a
region or between regions).

The policies live in a store keyed by their numeric id. Ids are allocated
as the least non-negative number no current policy holds.

When a packet reaches the controller, a packet processor works out the
packet's source and destination region from a /24 prefix of its addresses.
It walks the current policies and hands every policy whose regions match
to a route action. The inter-region processor also answers ARP requests
for the virtual gateway.

A route action looks up the two hosts and picks a path between their
devices. It asks the policy parser for a traffic selector for each link and
installs one flow rule per link, plus one on the destination's device. Each
rule goes to the flow-rule service and is recorded in the store under the
policy.

The model follows the shape of the Java code:

- Objects the code updates in place are Dafny classes with `modifies` and
  `reads` frames: the policy store, the policy-id object, the policy and
  profile builders, the path selector, the inter-route configuration, the
  flow-rule service and the atomic id counter.
- Loops are methods with invariants. Each is proved equal to a pure
  specification function:
  - the packet processors' policy walk (`Scan`);
  - the rule-installation loop along a path (`PathRules`);
  - the binary-key builder (`BinaryString`);
  - the configuration loaders (`PutAll`);
  - the destination-MAC search (`FirstMac`).
- The selector builders, the region tests and the route plans are pure
  functions over datatypes. Lemmas state what they promise.
- Java `null` is `Option.None`. An exception the code can raise on a
  modelled path is a `Fault` value in the result: `NullPointer`,
  `ClassCast`, `IndexOutOfBounds` or `NumberFormat`.

Two behaviours of the code are kept as written:

- `getEndtoEndPath` never clears its set of endpoints, so the connect
  points of every candidate seen so far count when the policy's points are
  tested. A candidate can thus be chosen because of points only an earlier
  candidate has; `CoverageIsCumulative` exhibits such a case.
- The processors test `Region.id().toString()` against the configured
  region string, and a policy with a `null` region throws.

## Model

Source paths are under `osdf-reactive/src/main/java/org/osdfreactive/`; the
table writes them in full.

| member | source | states |
|---|---|---|
| Atomics.Next | osdf-reactive/src/main/java/org/osdfreactive/policies/DefaultPolicyId.java:42 | one `getAndIncrement` step: the successor, wrapping from 2^31-1 to -2^31 as Java's `int` does |
| Atomics.IssuedConsecutive | osdf-reactive/src/main/java/org/osdfreactive/trafficprofiles/DefaultTrafficProfileId.java:25-38 | until the counter wraps, `n` successive ids are `v, v+1, …, v+n-1` |
| Atomics.IssuedStrictlyIncreasing | osdf-reactive/src/main/java/org/osdfreactive/trafficprofiles/DefaultTrafficProfileId.java:25-38 | until the counter wraps, the ids handed out are strictly increasing, hence distinct |
| Atomics.AtomicCounter.GetAndIncrement | osdf-reactive/src/main/java/org/osdfreactive/trafficprofiles/DefaultTrafficProfileId.java:36 | returns the old value and advances the counter by one wrapped step |
| ApplicationTypes.FromPortNumber | osdf-reactive/src/main/java/org/osdfreactive/applicationinfo/ApplicationPorts.java:27-47 | a recognised port number maps to the type declared on that port |
| ApplicationTypes.PortNumberIdentifiesType | osdf-reactive/src/main/java/org/osdfreactive/appsinfo/ApplicationTypes.java:29-62 | no two application types share a port: the port number recovers the type |
| ApplicationTypes.TransportOfEachType | osdf-reactive/src/main/java/org/osdfreactive/appsinfo/ApplicationTypes.java:29-62 | UDP exactly for VOIP, ICMP exactly for PING, TCP otherwise; real-time exactly for VOIP and video streaming |
| TrafficProfiles.DefaultTrafficProfileId.constructor | osdf-reactive/src/main/java/org/osdfreactive/trafficprofiles/DefaultTrafficProfileId.java:34-39 | the id is the counter's old value, the counter advances, the name is kept |
| TrafficProfiles.Builder.constructor | osdf-reactive/src/main/java/org/osdfreactive/trafficprofiles/DefaultTrafficProfile.java:107-109 | every field starts `null` |
| TrafficProfiles.Builder.SetTrafficProfileId | osdf-reactive/src/main/java/org/osdfreactive/trafficprofiles/DefaultTrafficProfile.java:116-118 | sets the id, returns the same builder, keeps the other fields |
| TrafficProfiles.Builder.SetCriteriaSet | osdf-reactive/src/main/java/org/osdfreactive/trafficprofiles/DefaultTrafficProfile.java:127-131 | sets the criteria, returns the same builder, keeps the other fields |
| TrafficProfiles.Builder.SetApplicationType | osdf-reactive/src/main/java/org/osdfreactive/trafficprofiles/DefaultTrafficProfile.java:139-142 | sets the application type, returns the same builder, keeps the other fields |
| TrafficProfiles.Builder.SetTrafficClass | osdf-reactive/src/main/java/org/osdfreactive/trafficprofiles/DefaultTrafficProfile.java:150-153 | sets the traffic class, returns the same builder, keeps the other fields |
| TrafficProfiles.Builder.Build | osdf-reactive/src/main/java/org/osdfreactive/trafficprofiles/DefaultTrafficProfile.java:160-162 | the built profile carries exactly the builder's four fields |
| CreateTrafficProfiles.ApplicationTypeOf | osdf-reactive/src/main/java/org/osdfreactive/trafficprofiles/DefaultCreateTrafficProfile.java:78-97 | the name switch only ever yields WEB, VOIP, PING or VIDEO_STREAMING |
| CreateTrafficProfiles.ApplicationTypeOfNames | osdf-reactive/src/main/java/org/osdfreactive/trafficprofiles/DefaultCreateTrafficProfile.java:78-97 | FTP and TFTP are not recognised by name; every other type is recognised by its own name |
| CreateTrafficProfiles.ApplicationTypeOfInverse | osdf-reactive/src/main/java/org/osdfreactive/trafficprofiles/DefaultCreateTrafficProfile.java:78-97 | a name is recognised iff it is one of the four case labels, and the type's name gives the name back |
| CreateTrafficProfiles.DefaultCreateTrafficProfile.constructor | osdf-reactive/src/main/java/org/osdfreactive/trafficprofiles/DefaultCreateTrafficProfile.java:36 | no profile yet |
| CreateTrafficProfiles.DefaultCreateTrafficProfile.CreateTrafficProfile | osdf-reactive/src/main/java/org/osdfreactive/trafficprofiles/DefaultCreateTrafficProfile.java:70-106 | the id is drawn first, so the counter always advances; a `null` type name throws and keeps the old profile; otherwise the new profile has that id, the recognised type and its class, or `null` for both |
| Policies.DefaultConstructed | osdf-reactive/src/main/java/org/osdfreactive/policies/DefaultPolicy.java:50-62 | the no-argument policy: default priority 100, version 0, every reference field `null` |
| Policies.PriorityBounds | osdf-reactive/src/main/java/org/osdfreactive/policies/Policy.java:26-28 | 1 <= default priority 100 <= 65535 = 2^16-1 |
| Policies.Builder.constructor | osdf-reactive/src/main/java/org/osdfreactive/policies/DefaultPolicy.java:221-224 | a fresh builder would build the default policy with priority 0 |
| Policies.Builder.FromPolicy | osdf-reactive/src/main/java/org/osdfreactive/policies/DefaultPolicy.java:226-240 | the copy builder holds every field of the policy except the version, which it does not copy |
| Policies.Builder.SetPolicyId | osdf-reactive/src/main/java/org/osdfreactive/policies/DefaultPolicy.java:250-252 | the built policy changes only in its id |
| Policies.Builder.SetPriority | osdf-reactive/src/main/java/org/osdfreactive/policies/DefaultPolicy.java:262-264 | the built policy changes only in its priority |
| Policies.Builder.SetPolicyState | osdf-reactive/src/main/java/org/osdfreactive/policies/DefaultPolicy.java:274-276 | the built policy changes only in its state |
| Policies.Builder.SetVersion | osdf-reactive/src/main/java/org/osdfreactive/policies/DefaultPolicy.java:285-287 | the built policy changes only in its version |
| Policies.Builder.SetTrafficProfile | osdf-reactive/src/main/java/org/osdfreactive/policies/DefaultPolicy.java:296-299 | the built policy changes only in its traffic profile |
| Policies.Builder.SetConnectPointList | osdf-reactive/src/main/java/org/osdfreactive/policies/DefaultPolicy.java:307-310 | the built policy changes only in its connect points |
| Policies.Builder.SetAction | osdf-reactive/src/main/java/org/osdfreactive/policies/DefaultPolicy.java:318-321 | the built policy changes only in its action |
| Policies.Builder.SetSrcHostsList | osdf-reactive/src/main/java/org/osdfreactive/policies/DefaultPolicy.java:329-332 | the built policy changes only in its source hosts |
| Policies.Builder.SetDstHostsList | osdf-reactive/src/main/java/org/osdfreactive/policies/DefaultPolicy.java:338-341 | the built policy changes only in its destination hosts |
| Policies.Builder.SetPathSelectionAlgo | osdf-reactive/src/main/java/org/osdfreactive/policies/DefaultPolicy.java:350-353 | the built policy changes only in its algorithm |
| Policies.Builder.SetSrcRegion | osdf-reactive/src/main/java/org/osdfreactive/policies/DefaultPolicy.java:361-364 | the built policy changes only in its source region |
| Policies.Builder.SetDstRegion | osdf-reactive/src/main/java/org/osdfreactive/policies/DefaultPolicy.java:372-375 | the built policy changes only in its destination region |
| Policies.CopyPolicy | osdf-reactive/src/main/java/org/osdfreactive/policies/DefaultPolicy.java:124-126 | copying through the copy builder gives the policy back with version 0; it is unchanged when its version is already 0 |
| Policies.BuildFromFields | osdf-reactive/src/main/java/org/osdfreactive/policies/DefaultPolicy.java:383-397 | setting every field and building gives a policy whose getters return exactly the values set |
| PolicyEvents.GetEvent | osdf-reactive/src/main/java/org/osdfreactive/policystorage/PolicyEvent.java:43-71 | every state yields an event about the policy, with the event type of the same name; the empty default never arises |
| PolicyEvents.GetEventOf | osdf-reactive/src/main/java/org/osdfreactive/policystorage/PolicyEvent.java:39-41 | a `null` state throws at the switch, and only then |
| PolicyEvents.GetEventInjective | osdf-reactive/src/main/java/org/osdfreactive/policystorage/PolicyEvent.java:43-71 | the event type determines the state |
| ParseInts.ParseInt | osdf-reactive/src/main/java/org/osdfreactive/policystorage/SimplePolicyStore.java:189 | `Integer.parseInt`: a 32-bit decimal value, or a `NumberFormatException` (`None`); the empty string never parses |
| ParseInts.ParseDecimalString | osdf-reactive/src/main/java/org/osdfreactive/policystorage/SimplePolicyStore.java:189 | printing a non-negative `int` in decimal and parsing it gives it back |
| ParseInts.ParseRejectsLetters | osdf-reactive/src/main/java/org/osdfreactive/policystorage/SimplePolicyStore.java:189 | a string whose first character is a lower-case ASCII letter `a`-`z` is rejected, as `Integer.parseInt` rejects it |
| PolicyStorage.Applications | osdf-reactive/src/main/java/org/osdfreactive/abstractactions/IntraRouteAction.java:294 | one `applyFlowRules` call per rule, in order |
| PolicyStorage.Removals | osdf-reactive/src/main/java/org/osdfreactive/policystorage/SimplePolicyStore.java:165-175 | one `removeFlowRules` call per rule, in order |
| PolicyStorage.InstalledAfterApplications | osdf-reactive/src/main/java/org/osdfreactive/abstractactions/IntraRouteAction.java:294-312 | applying rules adds exactly those rules to what the backend holds |
| PolicyStorage.InstalledAfterRemovals | osdf-reactive/src/main/java/org/osdfreactive/policystorage/SimplePolicyStore.java:165-175 | removing rules deletes exactly those rules and keeps every other |
| PolicyStorage.FlowRuleService.ApplyFlowRules | osdf-reactive/src/main/java/org/osdfreactive/abstractactions/IntraRouteAction.java:234 | records one application of the rule |
| PolicyStorage.FlowRuleService.RemoveFlowRules | osdf-reactive/src/main/java/org/osdfreactive/policystorage/SimplePolicyStore.java:169 | records one removal of the rule |
| PolicyStorage.SimplePolicyStore.constructor | osdf-reactive/src/main/java/org/osdfreactive/policystorage/SimplePolicyStore.java:56-65 | empty maps, no rules, no events, every policy keyed by its id |
| PolicyStorage.SimplePolicyStore.CurrentListing | osdf-reactive/src/main/java/org/osdfreactive/policystorage/SimplePolicyStore.java:104-127 | `getPolicies` and `getCurrentPolicies` list the same policies: exactly those stored under their own id |
| PolicyStorage.SimplePolicyStore.GetRulesCount | osdf-reactive/src/main/java/org/osdfreactive/policystorage/SimplePolicyStore.java:208-211 | the count is the length of the list the rule getter returns; each `addFlowRule` raises the policy's count by one and leaves every other policy's list alone (`AddFlowRule`) |
| PolicyStorage.SimplePolicyStore.AddCurrent | osdf-reactive/src/main/java/org/osdfreactive/policystorage/SimplePolicyStore.java:136-144 | stores the policy under its id, then posts its event; a `null` state throws after the store |
| PolicyStorage.SimplePolicyStore.AddPending | osdf-reactive/src/main/java/org/osdfreactive/policystorage/SimplePolicyStore.java:112-117 | the same for the pending map |
| PolicyStorage.SimplePolicyStore.AddFlowRule | osdf-reactive/src/main/java/org/osdfreactive/policystorage/SimplePolicyStore.java:153-156 | appends the rule to the policy's list, so its rule count grows by one and other policies' lists stay, and changes nothing else |
| PolicyStorage.SimplePolicyStore.RemoveCurrentPolicy | osdf-reactive/src/main/java/org/osdfreactive/policystorage/SimplePolicyStore.java:165-175 | a `null` policy or a policy without an id throws `NullPointerException` and changes nothing; otherwise removes each of the policy's rules from the backend, in order, then drops the policy; the rule list is kept |
| PolicyStorage.FindPolicy | osdf-reactive/src/main/java/org/osdfreactive/policystorage/SimplePolicyStore.java:184-195 | the loop over the map: no entries gives `null`; an unparsable id with entries present throws; otherwise the entry whose key is the parsed number, or `null` |
| PolicyStorage.SimplePolicyStore.GetPolicy | osdf-reactive/src/main/java/org/osdfreactive/policystorage/SimplePolicyStore.java:184-195 | no policies: `null`; an unparsable id with policies present throws; otherwise a policy whose id equals the parsed number, or `null` when none has it |
| PolicyIds.LeastMissingUnique | osdf-reactive/src/main/java/org/osdfreactive/policies/DefaultPolicyId.java:94-116 | the least missing id is unique |
| PolicyIds.FindFirstMissing | osdf-reactive/src/main/java/org/osdfreactive/policies/DefaultPolicyId.java:70-87 | the answer lies in `start..end+1` |
| PolicyIds.FindFirstMissingFindsCut | osdf-reactive/src/main/java/org/osdfreactive/policies/DefaultPolicyId.java:70-87 | when the elements equal their positions exactly below a cut that lies in the searched range, the search returns that cut |
| PolicyIds.IdentityCut | osdf-reactive/src/main/java/org/osdfreactive/policies/DefaultPolicyId.java:70-87 | a strictly increasing non-negative list equals its positions up to a cut and exceeds them from there on, which is what makes the binary search sound |
| PolicyIds.FirstMissingIsLeast | osdf-reactive/src/main/java/org/osdfreactive/policies/DefaultPolicyId.java:70-87 | on the whole list, the answer is the least non-negative number missing from it |
| PolicyIds.SearchExamples | osdf-reactive/src/main/java/org/osdfreactive/policies/DefaultPolicyId.java:70-87 | `[0,1,3]` gives 2, `[]` gives 0, `[0,1,2]` gives 3 |
| PolicyIds.SortCorrect | osdf-reactive/src/main/java/org/osdfreactive/policies/DefaultPolicyId.java:106 | `Collections.sort` permutes the list into ascending order, strictly ascending without duplicates |
| PolicyIds.AllocationCorrect | osdf-reactive/src/main/java/org/osdfreactive/policies/DefaultPolicyId.java:99-114 | sorting the current ids and searching yields the least missing non-negative id |
| PolicyIds.DefaultPolicyId.constructor | osdf-reactive/src/main/java/org/osdfreactive/policies/DefaultPolicyId.java:47-48 | no name, id 0 |
| PolicyIds.DefaultPolicyId.CreatePolicyId | osdf-reactive/src/main/java/org/osdfreactive/policies/DefaultPolicyId.java:94-116 | keeps the name; the id is at most the number of current policies, and, when every stored id is non-negative, is not in use and is the least missing id (with a negative stored id only the bound is promised); the counter is never consulted |
| CreatePolicies.DefaultCreatePolicy.CreatePolicy | osdf-reactive/src/main/java/org/osdfreactive/policies/DefaultCreatePolicy.java:83-118 | the new policy carries every argument, the name and a fresh least-missing id |
| CreatePolicies.SuccessiveIds | osdf-reactive/src/main/java/org/osdfreactive/policies/DefaultCreatePolicy.java:96-98 | two policies created without storing the first get the same id; storing the first makes the second's id differ |
| PathSelection.AlgoOf | osdf-reactive/src/main/java/org/osdfreactive/policyparser/DefaultPathSelection.java:72-95 | each of ECMP, RANDOM and ON_DEMAND is chosen exactly by its name; every other name gives BEST_POSSIBLE_PATH |
| PathSelection.AlgoOfName | osdf-reactive/src/main/java/org/osdfreactive/policyparser/DefaultPathSelection.java:72-95 | each algorithm's name selects it |
| PathSelection.FirstCovering | osdf-reactive/src/main/java/org/osdfreactive/policyparser/DefaultPathSelection.java:142-158 | the first index from which the paths seen so far cover the needed points, or the last index |
| PathSelection.EndToEndChoice | osdf-reactive/src/main/java/org/osdfreactive/policyparser/DefaultPathSelection.java:137-163 | `null` exactly for no candidates; otherwise one of the candidates |
| PathSelection.EmptyConstraintChoosesFirst | osdf-reactive/src/main/java/org/osdfreactive/policyparser/DefaultPathSelection.java:137-163 | with no points to cover, the first candidate is chosen |
| PathSelection.UncoveredChoosesLast | osdf-reactive/src/main/java/org/osdfreactive/policyparser/DefaultPathSelection.java:137-163 | when all candidates together miss a point, the last is chosen |
| PathSelection.CoverageIsCumulative | osdf-reactive/src/main/java/org/osdfreactive/policyparser/DefaultPathSelection.java:140-153 | a second path is chosen although the first path's points cover the constraint only together with the second's |
| PathSelection.DefaultPathSelection.GetPathSelectionAlgo | osdf-reactive/src/main/java/org/osdfreactive/policyparser/DefaultPathSelection.java:72-95 | a `null` name throws; otherwise the field and the result are the name's algorithm |
| PathSelection.DefaultPathSelection.PickRandomPath | osdf-reactive/src/main/java/org/osdfreactive/policyparser/DefaultPathSelection.java:105-127 | `null` exactly for no paths; otherwise the path at the drawn position |
| PathSelection.DefaultPathSelection.GetEndtoEndPath | osdf-reactive/src/main/java/org/osdfreactive/policyparser/DefaultPathSelection.java:137-163 | no paths: `null`; a `null` constraint with paths throws; otherwise the choice of `EndToEndChoice` |
| Net.Protocol | osdf-reactive/src/main/java/org/osdfreactive/policyparser/DefaultPolicyParser.java:395-404 | the IPv4 protocol number is UDP, ICMP or TCP exactly for that transport |
| Net.EtherType | osdf-reactive/src/main/java/org/osdfreactive/abstractactions/IntraPacketProcessor.java:216 | the Ethernet type is IPv4 or ARP exactly for that payload |
| Net.Mask | osdf-reactive/src/main/java/org/osdfreactive/policyparser/DefaultPolicyParser.java:407-411 | the result is the address rounded down to a multiple of 2^(32-len): every bit after the first `len` is cleared and the leading `len` bits are kept |
| Net.HostPrefixIdentifies | osdf-reactive/src/main/java/org/osdfreactive/policyparser/DefaultPolicyParser.java:407-411 | two /32 prefixes are equal exactly when their addresses are |
| Net.Slash24Prefix | osdf-reactive/src/main/java/org/osdfreactive/abstractactions/IntraPacketProcessor.java:240-245 | two addresses have the same /24 prefix exactly when they agree on the first three octets |
| Net.HostPrefixContains | osdf-reactive/src/main/java/org/osdfreactive/policyparser/DefaultPolicyParser.java:407-411 | a /32 prefix matches exactly its own address |
| IcmpPolicyParsers.PingSelector | osdf-reactive/src/main/java/org/osdfreactive/policyparser/IcmpPolicyParser.java:285-330 | a non-IPv4 frame throws at the cast, a non-ICMP packet gives `null`, and a built selector matches the packet it came from |
| IcmpPolicyParsers.IntraPingTrafficSelector | osdf-reactive/src/main/java/org/osdfreactive/policyparser/IcmpPolicyParser.java:285-330 | a built selector matches the packet |
| IcmpPolicyParsers.InterPingTrafficSelector | osdf-reactive/src/main/java/org/osdfreactive/policyparser/IcmpPolicyParser.java:334-377 | a built selector matches the packet and holds no Ethernet address |
| IcmpPolicyParsers.IntraPingPrecise | osdf-reactive/src/main/java/org/osdfreactive/policyparser/IcmpPolicyParser.java:296-325 | with the default switches, a frame the selector matches has the packet's MACs, IPv4 addresses and ICMP type and code |
| IcmpPolicyParsers.InterPingMatchesExactly | osdf-reactive/src/main/java/org/osdfreactive/policyparser/IcmpPolicyParser.java:345-372 | with the default switches, the selector matches exactly the IPv4 ICMP frames with the packet's addresses, type and code |
| IcmpPolicyParsers.SwitchesOff | osdf-reactive/src/main/java/org/osdfreactive/policyparser/IcmpPolicyParser.java:298-373 | the address switch alone guards the Ethernet type, address and MAC criteria, the ICMP switch alone guards the protocol, type and code criteria, and with both off the selector is empty |
| PolicyParsers.FromOption | osdf-reactive/src/main/java/org/osdfreactive/policyparser/DefaultPolicyParser.java:322-349 | a delegate's answer is passed on as is; delegates never throw |
| PolicyParsers.VoipTrafficSelector | osdf-reactive/src/main/java/org/osdfreactive/policyparser/DefaultPolicyParser.java:388-432 | non-IPv4 throws, non-UDP gives `null`, a built selector matches the packet and holds no ICMP criterion |
| PolicyParsers.VoipMatchesExactly | osdf-reactive/src/main/java/org/osdfreactive/policyparser/DefaultPolicyParser.java:402-428 | with the default switches, the selector matches exactly the UDP frames with the packet's MACs, addresses and ports |
| PolicyParsers.LocalIntraTrafficSelector | osdf-reactive/src/main/java/org/osdfreactive/policyparser/DefaultPolicyParser.java:351-386 | non-IPv4 throws at the cast; a policy without profile or application type throws |
| PolicyParsers.LocalInterTrafficSelector | osdf-reactive/src/main/java/org/osdfreactive/policyparser/DefaultPolicyParser.java:322-349 | the same for the inter dispatch |
| PolicyParsers.IntraDispatch | osdf-reactive/src/main/java/org/osdfreactive/policyparser/DefaultPolicyParser.java:358-385 | the application type picks the VOIP, HTTP, video or ping builder; any other type gives `null` |
| PolicyParsers.InterDispatch | osdf-reactive/src/main/java/org/osdfreactive/policyparser/DefaultPolicyParser.java:328-348 | the inter dispatch has no VOIP branch: VOIP, FTP and TFTP give `null` |
| PolicyParsers.HostGateProperties | osdf-reactive/src/main/java/org/osdfreactive/policyparser/DefaultPolicyParser.java:484-514 | the host gate is symmetric in the two hosts and refuses everything when both host lists are empty |
| PolicyParsers.IntraBuildTrafficSelector | osdf-reactive/src/main/java/org/osdfreactive/policyparser/DefaultPolicyParser.java:525-545 | a policy with a `null` host list throws |
| PolicyParsers.InterBuildTrafficSelector | osdf-reactive/src/main/java/org/osdfreactive/policyparser/DefaultPolicyParser.java:548-566 | a policy with a `null` host list throws |
| PolicyParsers.IntraHostFiltering | osdf-reactive/src/main/java/org/osdfreactive/policyparser/DefaultPolicyParser.java:484-545 | with both host lists empty every packet gets the dispatched selector; with both non-empty, exactly a packet whose source and destination MACs are listed as a pair in either orientation; with one list empty, exactly a packet either of whose MACs is in the other list; every other packet gets `null` |
| PolicyParsers.InterHostFiltering | osdf-reactive/src/main/java/org/osdfreactive/policyparser/DefaultPolicyParser.java:442-471 | the same four cases for the inter builder, with the resolved destination MAC in place of the frame's destination; the both-empty bypass is at lines 548-566 |
| RouteConfiguration.Bits | osdf-reactive/src/main/java/org/osdfreactive/interrouteconfigs/InterRouteConfiguration.java:97-104 | the `n` leading bits of the address, most significant first |
| RouteConfiguration.BinaryString | osdf-reactive/src/main/java/org/osdfreactive/interrouteconfigs/InterRouteConfiguration.java:93-106 | "0" and then one character per prefix bit, '1' exactly for a set bit |
| RouteConfiguration.CreateBinaryString | osdf-reactive/src/main/java/org/osdfreactive/interrouteconfigs/InterRouteConfiguration.java:93-106 | the loop builds exactly `BinaryString` |
| RouteConfiguration.BinaryStringInjective | osdf-reactive/src/main/java/org/osdfreactive/interrouteconfigs/InterRouteConfiguration.java:93-106 | two prefixes get the same key exactly when they have the same length and the same prefix bits |
| RouteConfiguration.KeyCovers | osdf-reactive/src/main/java/org/osdfreactive/interrouteconfigs/InterRouteConfiguration.java:168-181 | a shorter prefix's key begins a longer one's exactly when they agree on the shorter one's bits |
| RouteConfiguration.PutAllKeys | osdf-reactive/src/main/java/org/osdfreactive/interrouteconfigs/InterRouteConfiguration.java:142-154 | loading keeps the old keys and adds exactly the entries' keys |
| RouteConfiguration.PutAllLast | osdf-reactive/src/main/java/org/osdfreactive/interrouteconfigs/InterRouteConfiguration.java:142-154 | a key holds the value of the last entry put under it |
| RouteConfiguration.InterRouteConfiguration.constructor | osdf-reactive/src/main/java/org/osdfreactive/interrouteconfigs/InterRouteConfiguration.java:60-79 | empty tables and no gateway MAC |
| RouteConfiguration.InterRouteConfiguration.SetUpConfiguration | osdf-reactive/src/main/java/org/osdfreactive/interrouteconfigs/InterRouteConfiguration.java:128-159 | no configuration changes nothing; otherwise the IPv4 entries, then the IPv6 entries are loaded and the gateway MAC is set |
| RouteConfiguration.InterRouteConfiguration.LoadIp4Entries | osdf-reactive/src/main/java/org/osdfreactive/interrouteconfigs/InterRouteConfiguration.java:142-148 | the IPv4 tables and the gateways after the loop; the IPv6 tables untouched |
| RouteConfiguration.InterRouteConfiguration.LoadIp6Entries | osdf-reactive/src/main/java/org/osdfreactive/interrouteconfigs/InterRouteConfiguration.java:149-154 | the IPv6 tables and the gateways after the loop; the IPv4 tables untouched |
| RouteConfiguration.InterRouteConfiguration.GetRegion | osdf-reactive/src/main/java/org/osdfreactive/interrouteconfigs/InterRouteConfiguration.java:206-210 | a region exactly when the prefix's key is in the IPv4 region map, and then the value stored there |
| RouteConfiguration.InterRouteConfiguration.GetPrefixLen | osdf-reactive/src/main/java/org/osdfreactive/interrouteconfigs/InterRouteConfiguration.java:213-215 | the prefix's length |
| RouteConfiguration.InterRouteConfiguration.RegionAfterLoading | osdf-reactive/src/main/java/org/osdfreactive/interrouteconfigs/InterRouteConfiguration.java:142-148 | after loading, a configured prefix's region is that of the last entry with its key |
| RouteConfiguration.InterRouteConfiguration.NoRegionForUnknownKey | osdf-reactive/src/main/java/org/osdfreactive/interrouteconfigs/InterRouteConfiguration.java:206-210 | a prefix whose key no entry put has no region |
| RouteConfiguration.InterRouteConfiguration.CoveredAddressIsLocal | osdf-reactive/src/main/java/org/osdfreactive/interrouteconfigs/InterRouteConfiguration.java:168-181 | an IPv4 address is local when a stored prefix agrees with it on all the prefix's bits |
| PacketProcessing.CheckCurrentPolicies | osdf-reactive/src/main/java/org/osdfreactive/abstractactions/IntraPacketProcessor.java:201-208 | OK exactly when the store holds a current policy |
| PacketProcessing.InOrder | osdf-reactive/src/main/java/org/osdfreactive/abstractactions/IntraPacketProcessor.java:258-259 | the map's values in iteration order |
| PacketProcessing.InOrderListsValues | osdf-reactive/src/main/java/org/osdfreactive/abstractactions/IntraPacketProcessor.java:258-259 | the iteration visits every current policy and nothing else |
| PacketProcessing.EnumerationSize | osdf-reactive/src/main/java/org/osdfreactive/abstractactions/IntraPacketProcessor.java:257-261 | an iteration order has as many entries as the map |
| PacketProcessing.SameSlash24SameRegion | osdf-reactive/src/main/java/org/osdfreactive/abstractactions/IntraPacketProcessor.java:240-245 | addresses in the same /24 always get the same packet region |
| PacketProcessing.ScanFault | osdf-reactive/src/main/java/org/osdfreactive/abstractactions/IntraPacketProcessor.java:261-302 | the walk ends without an exception exactly when every policy's test answers and no dispatched policy's route action throws |
| PacketProcessing.ScanMembers | osdf-reactive/src/main/java/org/osdfreactive/abstractactions/IntraPacketProcessor.java:261-302 | a dispatched policy was in the walk and passed its test; without an exception, every policy that passes is dispatched |
| PacketProcessing.ScanStopsAtAction | osdf-reactive/src/main/java/org/osdfreactive/abstractactions/IntraPacketProcessor.java:264-294 | the route action runs inside the walk: every dispatched policy but the last returned normally from it, and an exception from the last one is the walk's exception |
| PacketProcessing.IntraTest | osdf-reactive/src/main/java/org/osdfreactive/abstractactions/IntraPacketProcessor.java:274-294 | true exactly for an intra-route policy whose two regions equal the packet's regions |
| PacketProcessing.InterTest | osdf-reactive/src/main/java/org/osdfreactive/abstractactions/InterPacketProcessor.java:250-266 | true exactly for an inter-route policy whose regions equal the packet's, in either direction |
| PacketProcessing.InterTestSymmetric | osdf-reactive/src/main/java/org/osdfreactive/abstractactions/InterPacketProcessor.java:258-261 | the inter test, exceptions included, does not change when the packet's regions swap |
| PacketProcessing.TestsDisjoint | osdf-reactive/src/main/java/org/osdfreactive/abstractactions/InterPacketProcessor.java:258 | no policy passes both the intra and the inter test |
| PacketProcessing.UnknownRegionMatchesNothing | osdf-reactive/src/main/java/org/osdfreactive/abstractactions/IntraPacketProcessor.java:284-286 | a packet from an unconfigured region dispatches no intra policy |
| PacketProcessing.IntraProcessing | osdf-reactive/src/main/java/org/osdfreactive/abstractactions/IntraPacketProcessor.java:211-305 | an unparsed packet throws; control, ARP and already-handled packets dispatch nothing; any other non-IPv4 packet throws at the cast; an IPv4 packet is walked over the policies, and a region test or a route action that throws ends the walk |
| PacketProcessing.IntraDispatchesMatches | osdf-reactive/src/main/java/org/osdfreactive/abstractactions/IntraPacketProcessor.java:259-302 | when neither a region test nor a route action throws, a policy is dispatched exactly when it is current and its regions match the packet's |
| PacketProcessing.IntraNoPolicies | osdf-reactive/src/main/java/org/osdfreactive/abstractactions/IntraPacketProcessor.java:257 | an empty store dispatches nothing |
| PacketProcessing.InterProcessing | osdf-reactive/src/main/java/org/osdfreactive/abstractactions/InterPacketProcessor.java:164-273 | an unparsed packet throws; an ARP reply is never sent together with a dispatch; an IPv4 packet is walked over the policies, ending at the first region test or route action that throws |
| PacketProcessing.InterArpReply | osdf-reactive/src/main/java/org/osdfreactive/abstractactions/InterPacketProcessor.java:181-215 | an ARP request for a gateway address, with a gateway MAC configured, gets a reply out of the port it came in on; any other ARP packet gets nothing; policies play no part |
| PacketProcessing.InterDispatchesMatches | osdf-reactive/src/main/java/org/osdfreactive/abstractactions/InterPacketProcessor.java:217-268 | when neither a region test nor a route action throws, a policy is dispatched exactly when it is current and its regions match the packet's in either direction |
| PacketProcessing.InterSwapInvariant | osdf-reactive/src/main/java/org/osdfreactive/abstractactions/InterPacketProcessor.java:258-261 | swapping the packet's regions dispatches the same policies |
| IntraPacketProcessors.Process | osdf-reactive/src/main/java/org/osdfreactive/abstractactions/IntraPacketProcessor.java:211-305 | the processor dispatches, and throws, exactly as `IntraProcessing` says for the store's policies in iteration order and the route action's outcome per policy |
| IntraPacketProcessors.Walk | osdf-reactive/src/main/java/org/osdfreactive/abstractactions/IntraPacketProcessor.java:262-302 | the loop over the policies gives exactly `Scan` with the intra test: it stops at the first test or route action that throws |
| NetworkOperationsIntraPacketProcessors.Process | osdf-reactive/src/main/java/org/osdfreactive/networkoperations/IntraPacketProcessor.java:170-255 | the same for the network-operations copy of the processor |
| NetworkOperationsIntraPacketProcessors.Walk | osdf-reactive/src/main/java/org/osdfreactive/networkoperations/IntraPacketProcessor.java:218-250 | the same loop in the network-operations copy: exactly `Scan` with the intra test |
| InterPacketProcessors.Process | osdf-reactive/src/main/java/org/osdfreactive/abstractactions/InterPacketProcessor.java:164-273 | the processor dispatches, replies and throws exactly as `InterProcessing` says, given the route action's outcome per policy |
| InterPacketProcessors.Walk | osdf-reactive/src/main/java/org/osdfreactive/abstractactions/InterPacketProcessor.java:237-264 | the loop over the policies gives exactly `Scan` with the inter test: it stops at the first test or route action that throws |
| RouteRules.ChoosePath | osdf-reactive/src/main/java/org/osdfreactive/abstractactions/IntraRouteAction.java:251-269 | throws exactly for a `null` algorithm, no paths, or a non-random algorithm with a `null` constraint; otherwise returns a candidate, the drawn one under RANDOM |
| RouteRules.PathRulesUniform | osdf-reactive/src/main/java/org/osdfreactive/abstractactions/IntraRouteAction.java:273-316 | every rule along a path has the given priority and time-out and table 0 |
| RouteRules.PathRulesFault | osdf-reactive/src/main/java/org/osdfreactive/abstractactions/IntraRouteAction.java:273-316 | the loop ends without an exception exactly when no selector call throws |
| RouteRules.PathRulesNone | osdf-reactive/src/main/java/org/osdfreactive/abstractactions/InterRouteAction.java:278-351 | links without a selector install nothing |
| RouteRules.PathRulesComplete | osdf-reactive/src/main/java/org/osdfreactive/abstractactions/IntraRouteAction.java:273-316 | along a loop-free path where every link gets a selector: one rule per link on its source device with that link's output, then one on the destination device out of the destination port |
| RouteRules.Install | osdf-reactive/src/main/java/org/osdfreactive/abstractactions/IntraRouteAction.java:294-295 | a rule is applied and then recorded under its policy, nothing else changes |
| RouteRules.InstallHop | osdf-reactive/src/main/java/org/osdfreactive/abstractactions/IntraRouteAction.java:278-315 | one iteration: the link's rule and, on the last link, the destination rule |
| RouteRules.InstallPath | osdf-reactive/src/main/java/org/osdfreactive/abstractactions/IntraRouteAction.java:269-316 | the loop applies exactly the rules of `PathRules`, in order, records the same rules under the policy, and throws exactly as `PathRules` does |
| IntraRouteActions.IntraRulesUniform | osdf-reactive/src/main/java/org/osdfreactive/abstractactions/IntraRouteAction.java:224-309 | every rule has the policy's priority, idle time-out 100 and table 0 |
| IntraRouteActions.IntraUnknownHost | osdf-reactive/src/main/java/org/osdfreactive/abstractactions/IntraRouteAction.java:200-207 | an unknown source or destination host installs nothing and does not throw |
| IntraRouteActions.IntraSameDevice | osdf-reactive/src/main/java/org/osdfreactive/abstractactions/IntraRouteAction.java:214-237 | hosts on one device get exactly one rule there, out of the destination port |
| IntraRouteActions.IntraAlongPath | osdf-reactive/src/main/java/org/osdfreactive/abstractactions/IntraRouteAction.java:250-316 | on different devices with a loop-free path and a selector for every link: a rule per link plus one at the destination |
| IntraRouteActions.IntraRouteProcess | osdf-reactive/src/main/java/org/osdfreactive/abstractactions/IntraRouteAction.java:185-331 | applies and records exactly the rules of `IntraPlan`, throws as it does, and leaves the policy maps alone |
| InterRouteActions.FirstMac | osdf-reactive/src/main/java/org/osdfreactive/abstractactions/InterRouteAction.java:203-213 | no MAC exactly when no host has one; otherwise the MAC of the first host that has one |
| InterRouteActions.FindDestinationMac | osdf-reactive/src/main/java/org/osdfreactive/abstractactions/InterRouteAction.java:203-213 | the search loop returns `FirstMac` |
| InterRouteActions.InterRulesUniform | osdf-reactive/src/main/java/org/osdfreactive/abstractactions/InterRouteAction.java:228-351 | every rule has the policy's priority, the temporary time-out set by `makeTemporary(100)` and table 0 |
| InterRouteActions.InterUnresolvedDestination | osdf-reactive/src/main/java/org/osdfreactive/abstractactions/InterRouteAction.java:203-216 | when no host at the destination address has a MAC, nothing is installed and the address is monitored; an address is monitored only then |
| InterRouteActions.InterAlongPath | osdf-reactive/src/main/java/org/osdfreactive/abstractactions/InterRouteAction.java:278-351 | along a loop-free path with a selector: a rule per link, the first rewriting the Ethernet destination, plus one at the destination |
| InterRouteActions.InterSelectorless | osdf-reactive/src/main/java/org/osdfreactive/abstractactions/InterRouteAction.java:278-351 | the selector does not depend on the link, so a path gets rules for every hop or for none |
| InterRouteActions.LocalInterRoute | osdf-reactive/src/main/java/org/osdfreactive/abstractactions/InterRouteAction.java:191-366 | applies and records exactly the rules of `InterPlan`, monitors as it does, throws as it does |
| InterRouteActions.InterRouteProcess | osdf-reactive/src/main/java/org/osdfreactive/abstractactions/InterRouteAction.java:385-406 | only IPv4 packets reach the local route; the others do nothing |

## Left out

- Packet emission, host monitoring and the host and topology services are
  not called. The ARP reply is returned as a value. The address to monitor
  is returned as `monitored`. Host and topology lookups read snapshots
  (`HostView`, `Topology`) passed in.
- `Random.nextInt` is not modelled. The random index is an input: `item`
  for `pickRandomPath`, `draw % |paths|` in the route actions.
- Concurrency is not modelled: the concurrent maps and the thread-safe
  counter are plain state. Logging is left out too.
- The processors call the route action synchronously for each matching
  policy. The model takes the outcome of each call as the parameter `act`
  (the exception it raises, if any, as `IntraRouteProcess` and
  `InterRouteProcess` report it). The rules the route action installs are
  modelled by the route-action modules, not by the walk.
- Component activation, `readComponentConfiguration` and the ONOS event
  plumbing are not modelled. The parsers' match switches are parameters,
  with the declared defaults (`DefaultParserFlags`, `DefaultIcmpFlags`).
- The HTTP and video-streaming matchers belong to components outside this
  model. They are function fields of `Delegates`, and their selectors are
  passed on uninterpreted.
- The ONOS classes `Ethernet`, `IPv4`, `ARP`, `TrafficSelector` and
  `FlowRule` are records of the fields the code reads. A selector is a
  record of optional criteria; setting a criterion twice keeps the last.
  Serialisation is left out.
- `ActionList` and `OperationsList` declare the same two constants and
  become one `Action` type.
- Java sets iterated by the code (host sets, path sets, map values) are
  sequences in iteration order. The processors' map iteration order is a
  parameter `order` that lists each key once.
- The concurrent-trees inverted radix tree is a map from keys to entries.
  `getValuesForKeysPrefixing` becomes "some stored key is a leading part
  of the query key".
- PolicyIds.DefaultPolicyId.CreatePolicyId: the counter branch
  (`missingNumber == size + 1`) can never be taken, because the search
  returns at most `size`. The model never draws from the counter.
- RouteRules.InstallPath: the route actions' flow-rule service and the
  store's are taken to be one object. The policy passed in must carry an
  id, as every stored policy does.
- InterRouteActions.LocalInterRoute: the `dstConnectPoint` lookup the code
  makes is never used afterwards. The destination host is looked up again
  by MAC.
- Each route action tags its rules with its own application id:
  `org.onosproject.PolicyBasedRouting` for the intra action,
  `org.onosproject.InterRouting` for the inter action. The model drops the
  flow-rule `appId` and the `fromApp` tag.
- `removeCurrentPolicy` leaves the removed policy's rules in its rule list,
  as the code does.
- PolicyStorage.SimplePolicyStore.AddFlowRule: requires a policy with an
  id, so no rule is ever recorded under a `null` key. The code would record
  one there.
- PolicyStorage.SimplePolicyStore: the maps are keyed by the id's number,
  whereas the code keys them by `DefaultPolicyId` objects. Policy ids are
  compared by their number: this assumes `AbstractPolicyID` equality does
  so. `AbstractPolicyID` is not part of this model. If its equality were
  object identity, two current policies could share a number.
- PolicyIds.DefaultPolicyId.CreatePolicyId: the least-missing guarantee
  rests on the same assumption. With a number stored twice the sorted list
  has a duplicate and the search can return a number in use
  (`[0, 0, 1]` gives 1).
- ParseInts.ParseInt: accepts only the ASCII digits `0`-`9`.
  `Integer.parseInt` also accepts any other Unicode decimal digit through
  `Character.digit`. For such text the model answers `NumberFormat` where
  the code parses a number. Unicode character classes are not modelled.
- Policies.DefaultPolicy: the code keeps the host lists and the
  connect-point list by reference. The model holds them as sequence values.
  A change the caller makes to its list after building the policy is
  therefore not reflected in the policy.
- The commented-out code (sleeps, alternative path choices) is not modelled.
