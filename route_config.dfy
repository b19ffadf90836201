/**
 * The inter-region routing configuration: prefix tables keyed by the bit
 * string of a prefix, the prefix-to-region maps, the virtual gateway
 * addresses and the virtual gateway MAC address.
 */
module RouteConfiguration {
  import opened Wrappers
  import opened Net

  // ------------------------------------------------------------ prefix keys

  /** A prefix no longer than its address. */
  predicate ValidPrefix(p: IpPrefix)
  {
    p.prefixLength <= 8 * |p.address.octets|
  }

  /** Bit `i` of the octets, counted from the most significant bit of the first octet. */
  predicate BitOf(octets: seq<Octet>, i: nat)
    requires i / 8 < |octets|
  {
    octets[i / 8] / Pow2(7 - i % 8) % 2 == 1
  }

  function BitChar(octets: seq<Octet>, i: nat): char
    requires i / 8 < |octets|
  {
    if BitOf(octets, i) then '1' else '0'
  }

  /** The first `n` bits of the prefix's address, as characters. */
  function Bits(p: IpPrefix, n: nat): (s: string)
    requires ValidPrefix(p) && n <= p.prefixLength
    ensures |s| == n
    ensures forall i :: 0 <= i < n ==> s[i] == BitChar(p.address.octets, i)
  {
    seq(n, i requires 0 <= i < n => BitChar(p.address.octets, i))
  }

  /** The key of a prefix: "0" followed by its `prefixLength` leading address bits. */
  function BinaryString(p: IpPrefix): (s: string)
    requires ValidPrefix(p)
    ensures |s| == p.prefixLength + 1 && s[0] == '0'
    ensures forall i :: 0 <= i < p.prefixLength ==> (s[i + 1] == '1' <==> BitOf(p.address.octets, i))
    ensures forall i :: 0 <= i < p.prefixLength ==> (s[i + 1] == '0' <==> !BitOf(p.address.octets, i))
  {
    "0" + Bits(p, p.prefixLength)
  }

  /** Builds the key character by character. */
  method CreateBinaryString(ipPrefix: IpPrefix) returns (r: string)
    requires ValidPrefix(ipPrefix)
    ensures r == BinaryString(ipPrefix)
  {
    var octets := ipPrefix.address.octets;
    var result := "0";
    var i := 0;
    while i < ipPrefix.prefixLength
      invariant 0 <= i <= ipPrefix.prefixLength
      invariant result == "0" + Bits(ipPrefix, i)
    {
      var byteOffset := i / 8;
      var bitOffset := i % 8;
      var value := octets[byteOffset];
      var isSet := value / Pow2(8 - 1 - bitOffset) % 2 == 1;
      result := result + (if isSet then "1" else "0");
      assert Bits(ipPrefix, i + 1) == Bits(ipPrefix, i) + [BitChar(octets, i)];
      i := i + 1;
    }
    r := result;
  }

  /**
   * Two prefixes have the same key exactly when they have the same length
   * and agree on every bit within it: prefixes of different lengths never
   * share a key.
   */
  lemma {:induction false} BinaryStringInjective(p: IpPrefix, q: IpPrefix)
    requires ValidPrefix(p) && ValidPrefix(q)
    ensures BinaryString(p) == BinaryString(q) <==>
      p.prefixLength == q.prefixLength &&
      forall i :: 0 <= i < p.prefixLength ==> (BitOf(p.address.octets, i) <==> BitOf(q.address.octets, i))
  {
    var s, t := BinaryString(p), BinaryString(q);
    if s == t {
      forall i | 0 <= i < p.prefixLength
        ensures BitOf(p.address.octets, i) <==> BitOf(q.address.octets, i)
      {
        assert s[i + 1] == t[i + 1];
      }
    }
    if p.prefixLength == q.prefixLength &&
      forall i :: 0 <= i < p.prefixLength ==> (BitOf(p.address.octets, i) <==> BitOf(q.address.octets, i))
    {
      forall k | 0 <= k < |s|
        ensures s[k] == t[k]
      {
        if k > 0 {
          assert s[k] == BitChar(p.address.octets, k - 1);
        }
      }
    }
  }

  /**
   * The key of a prefix is a leading part of the key of a longer prefix
   * exactly when the two agree on the shorter one's bits: this is how a
   * stored prefix covers an address.
   */
  lemma {:induction false} KeyCovers(stored: IpPrefix, query: IpPrefix)
    requires ValidPrefix(stored) && ValidPrefix(query) && stored.prefixLength <= query.prefixLength
    ensures BinaryString(stored) <= BinaryString(query) <==>
      forall i :: 0 <= i < stored.prefixLength ==> (BitOf(stored.address.octets, i) <==> BitOf(query.address.octets, i))
  {
    var s, t := BinaryString(stored), BinaryString(query);
    if s <= t {
      forall i | 0 <= i < stored.prefixLength
        ensures BitOf(stored.address.octets, i) <==> BitOf(query.address.octets, i)
      {
        assert s[i + 1] == t[i + 1];
      }
    }
    if forall i :: 0 <= i < stored.prefixLength ==> (BitOf(stored.address.octets, i) <==> BitOf(query.address.octets, i)) {
      forall k | 0 <= k < |s|
        ensures s[k] == t[k]
      {
        if k > 0 {
          assert s[k] == BitChar(stored.address.octets, k - 1);
        }
      }
    }
  }

  // ------------------------------------------------------- configuration data

  /** A local prefix, its gateway address and the region it belongs to. */
  datatype LocalIpPrefixEntry = LocalIpPrefixEntry(ipPrefix: IpPrefix, gatewayIpAddress: IpAddress, region: string)

  datatype InterRouteConfig = InterRouteConfig(
    localIp4PrefixEntries: seq<LocalIpPrefixEntry>,
    localIp6PrefixEntries: seq<LocalIpPrefixEntry>,
    virtualGatewayMacAddress: Option<Mac>)

  predicate ValidEntries(entries: seq<LocalIpPrefixEntry>)
  {
    forall e :: e in entries ==> ValidPrefix(e.ipPrefix)
  }

  predicate ValidConfig(config: InterRouteConfig)
  {
    ValidEntries(config.localIp4PrefixEntries) && ValidEntries(config.localIp6PrefixEntries)
  }

  function EntryKey(e: LocalIpPrefixEntry): string
    requires ValidPrefix(e.ipPrefix)
  {
    BinaryString(e.ipPrefix)
  }

  /** The map after putting each entry, in order, under its key with the value `f` gives it. */
  function PutAll<V>(m: map<string, V>, entries: seq<LocalIpPrefixEntry>, f: LocalIpPrefixEntry -> V): map<string, V>
    requires ValidEntries(entries)
    decreases |entries|
  {
    if |entries| == 0 then m
    else
      var last := entries[|entries| - 1];
      PutAll(m, entries[..|entries| - 1], f)[EntryKey(last) := f(last)]
  }

  /** Putting never removes a key: the keys afterwards are the old keys plus the entries' keys. */
  lemma {:induction false} PutAllKeys<V>(m: map<string, V>, entries: seq<LocalIpPrefixEntry>, f: LocalIpPrefixEntry -> V, k: string)
    requires ValidEntries(entries)
    ensures k in PutAll(m, entries, f) <==> k in m || exists i :: 0 <= i < |entries| && EntryKey(entries[i]) == k
    decreases |entries|
  {
    if |entries| > 0 {
      var front := entries[..|entries| - 1];
      PutAllKeys(m, front, f, k);
      if exists i :: 0 <= i < |front| && EntryKey(front[i]) == k {
        var i :| 0 <= i < |front| && EntryKey(front[i]) == k;
        assert entries[i] == front[i];
      }
      if exists i :: 0 <= i < |entries| && EntryKey(entries[i]) == k {
        var i :| 0 <= i < |entries| && EntryKey(entries[i]) == k;
        if i < |front| {
          assert front[i] == entries[i];
        }
      }
    }
  }

  /** A key holds the value of the last entry put under it: later duplicates overwrite earlier ones. */
  lemma {:induction false} PutAllLast<V>(m: map<string, V>, entries: seq<LocalIpPrefixEntry>, f: LocalIpPrefixEntry -> V, i: nat)
    requires ValidEntries(entries) && i < |entries|
    requires forall j :: i < j < |entries| ==> EntryKey(entries[j]) != EntryKey(entries[i])
    ensures EntryKey(entries[i]) in PutAll(m, entries, f)
    ensures PutAll(m, entries, f)[EntryKey(entries[i])] == f(entries[i])
    decreases |entries|
  {
    if i < |entries| - 1 {
      var front := entries[..|entries| - 1];
      assert front[i] == entries[i];
      PutAllLast(m, front, f, i);
    }
  }

  function Gateways(entries: seq<LocalIpPrefixEntry>): set<IpAddress>
  {
    set e | e in entries :: e.gatewayIpAddress
  }

  /** The region of an entry, as the region maps store it. */
  function RegionOf(e: LocalIpPrefixEntry): string
  {
    e.region
  }

  /** The entry itself, as the prefix tables store it. */
  function EntryOf(e: LocalIpPrefixEntry): LocalIpPrefixEntry
  {
    e
  }

  /** The full-length prefix of an address: 32 bits for IPv4, 128 for IPv6. */
  function HostPrefix(a: IpAddress): IpPrefix
  {
    IpPrefix(a, if a.version == INET then 32 else 128)
  }

  predicate ValidAddress(a: IpAddress)
  {
    |a.octets| == if a.version == INET then 4 else 16
  }

  class InterRouteConfiguration {
    var ipPrefixRegionMap4: map<string, string>
    var ipPrefixRegionMap6: map<string, string>
    var gatewayIpAddresses: set<IpAddress>
    var localPrefixTable4: map<string, LocalIpPrefixEntry>
    var localPrefixTable6: map<string, LocalIpPrefixEntry>
    var virtualGatewayMacAddress: Option<Mac>

    constructor()
      ensures ipPrefixRegionMap4 == map[] && ipPrefixRegionMap6 == map[] && gatewayIpAddresses == {}
      ensures localPrefixTable4 == map[] && localPrefixTable6 == map[] && virtualGatewayMacAddress.None?
    {
      ipPrefixRegionMap4, ipPrefixRegionMap6, gatewayIpAddresses := map[], map[], {};
      localPrefixTable4, localPrefixTable6, virtualGatewayMacAddress := map[], map[], None;
    }

    /**
     * Loads the configuration on top of what is already loaded: each IPv4
     * and IPv6 entry is put into its table and region map under its key and
     * its gateway is added; nothing is removed. Without a configuration
     * nothing changes.
     */
    method SetUpConfiguration(config: Option<InterRouteConfig>)
      requires config.Some? ==> ValidConfig(config.value)
      modifies this
      ensures config.None? ==>
        && ipPrefixRegionMap4 == old(ipPrefixRegionMap4) && ipPrefixRegionMap6 == old(ipPrefixRegionMap6)
        && gatewayIpAddresses == old(gatewayIpAddresses) && virtualGatewayMacAddress == old(virtualGatewayMacAddress)
        && localPrefixTable4 == old(localPrefixTable4) && localPrefixTable6 == old(localPrefixTable6)
      ensures config.Some? ==>
        var c := config.value;
        && localPrefixTable4 == PutAll(old(localPrefixTable4), c.localIp4PrefixEntries, EntryOf)
        && ipPrefixRegionMap4 == PutAll(old(ipPrefixRegionMap4), c.localIp4PrefixEntries, RegionOf)
        && localPrefixTable6 == PutAll(old(localPrefixTable6), c.localIp6PrefixEntries, EntryOf)
        && ipPrefixRegionMap6 == PutAll(old(ipPrefixRegionMap6), c.localIp6PrefixEntries, RegionOf)
        && gatewayIpAddresses == old(gatewayIpAddresses) + Gateways(c.localIp4PrefixEntries) + Gateways(c.localIp6PrefixEntries)
        && virtualGatewayMacAddress == c.virtualGatewayMacAddress
    {
      if config.None? {
        return;
      }
      var c := config.value;
      LoadIp4Entries(c.localIp4PrefixEntries);
      LoadIp6Entries(c.localIp6PrefixEntries);
      virtualGatewayMacAddress := c.virtualGatewayMacAddress;
    }

    /** The IPv4 loop of the set-up: each entry into the IPv4 table and region map, its gateway into the set. */
    method LoadIp4Entries(v4: seq<LocalIpPrefixEntry>)
      requires ValidEntries(v4)
      modifies this
      ensures localPrefixTable4 == PutAll(old(localPrefixTable4), v4, EntryOf)
      ensures ipPrefixRegionMap4 == PutAll(old(ipPrefixRegionMap4), v4, RegionOf)
      ensures gatewayIpAddresses == old(gatewayIpAddresses) + Gateways(v4)
      ensures localPrefixTable6 == old(localPrefixTable6) && ipPrefixRegionMap6 == old(ipPrefixRegionMap6)
      ensures virtualGatewayMacAddress == old(virtualGatewayMacAddress)
    {
      var i := 0;
      while i < |v4|
        invariant 0 <= i <= |v4|
        invariant localPrefixTable4 == PutAll(old(localPrefixTable4), v4[..i], EntryOf)
        invariant ipPrefixRegionMap4 == PutAll(old(ipPrefixRegionMap4), v4[..i], RegionOf)
        invariant gatewayIpAddresses == old(gatewayIpAddresses) + Gateways(v4[..i])
        invariant localPrefixTable6 == old(localPrefixTable6) && ipPrefixRegionMap6 == old(ipPrefixRegionMap6)
        invariant virtualGatewayMacAddress == old(virtualGatewayMacAddress)
      {
        var entry := v4[i];
        var key := CreateBinaryString(entry.ipPrefix);
        localPrefixTable4 := localPrefixTable4[key := entry];
        gatewayIpAddresses := gatewayIpAddresses + {entry.gatewayIpAddress};
        ipPrefixRegionMap4 := ipPrefixRegionMap4[key := entry.region];
        assert v4[..i + 1][..i] == v4[..i];
        assert Gateways(v4[..i + 1]) == Gateways(v4[..i]) + {entry.gatewayIpAddress};
        i := i + 1;
      }
      assert v4[..i] == v4;
    }

    /** The IPv6 loop of the set-up, into the IPv6 table and region map. */
    method LoadIp6Entries(v6: seq<LocalIpPrefixEntry>)
      requires ValidEntries(v6)
      modifies this
      ensures localPrefixTable6 == PutAll(old(localPrefixTable6), v6, EntryOf)
      ensures ipPrefixRegionMap6 == PutAll(old(ipPrefixRegionMap6), v6, RegionOf)
      ensures gatewayIpAddresses == old(gatewayIpAddresses) + Gateways(v6)
      ensures localPrefixTable4 == old(localPrefixTable4) && ipPrefixRegionMap4 == old(ipPrefixRegionMap4)
      ensures virtualGatewayMacAddress == old(virtualGatewayMacAddress)
    {
      var i := 0;
      while i < |v6|
        invariant 0 <= i <= |v6|
        invariant localPrefixTable6 == PutAll(old(localPrefixTable6), v6[..i], EntryOf)
        invariant ipPrefixRegionMap6 == PutAll(old(ipPrefixRegionMap6), v6[..i], RegionOf)
        invariant gatewayIpAddresses == old(gatewayIpAddresses) + Gateways(v6[..i])
        invariant localPrefixTable4 == old(localPrefixTable4) && ipPrefixRegionMap4 == old(ipPrefixRegionMap4)
        invariant virtualGatewayMacAddress == old(virtualGatewayMacAddress)
      {
        var entry := v6[i];
        var key := CreateBinaryString(entry.ipPrefix);
        localPrefixTable6 := localPrefixTable6[key := entry];
        gatewayIpAddresses := gatewayIpAddresses + {entry.gatewayIpAddress};
        ipPrefixRegionMap6 := ipPrefixRegionMap6[key := entry.region];
        assert v6[..i + 1][..i] == v6[..i];
        assert Gateways(v6[..i + 1]) == Gateways(v6[..i]) + {entry.gatewayIpAddress};
        i := i + 1;
      }
      assert v6[..i] == v6;
    }

    /** Some stored IPv4 (or IPv6) prefix key is a leading part of the address's full-length key. */
    predicate IsIpAddressLocal(ipAddress: IpAddress)
      requires ValidAddress(ipAddress)
      reads this
    {
      var key := BinaryString(HostPrefix(ipAddress));
      if ipAddress.version == INET then exists k :: k in localPrefixTable4 && k <= key
      else exists k :: k in localPrefixTable6 && k <= key
    }

    /** The prefix's key is stored in the IPv4 or the IPv6 table. */
    predicate IsIpPrefixLocal(ipPrefix: IpPrefix)
      requires ValidPrefix(ipPrefix)
      reads this
    {
      BinaryString(ipPrefix) in localPrefixTable4 || BinaryString(ipPrefix) in localPrefixTable6
    }

    /** The region configured for exactly this prefix, looked up in the IPv4 map only. */
    function GetRegion(ipPrefix: IpPrefix): (r: Option<string>)
      requires ValidPrefix(ipPrefix)
      reads this
      ensures r.Some? <==> BinaryString(ipPrefix) in ipPrefixRegionMap4
      ensures r.Some? ==> r.value == ipPrefixRegionMap4[BinaryString(ipPrefix)]
    {
      var key := BinaryString(ipPrefix);
      if key in ipPrefixRegionMap4 then Some(ipPrefixRegionMap4[key]) else None
    }

    function GetPrefixLen(ipPrefix: IpPrefix): (n: nat)
      ensures n == ipPrefix.prefixLength
    {
      ipPrefix.prefixLength
    }

    predicate IsVirtualGatewayIpAddress(ipAddress: IpAddress)
      reads this
    {
      ipAddress in gatewayIpAddresses
    }

    function GetVirtualGatewayMacAddress(): Option<Mac>
      reads this
    {
      virtualGatewayMacAddress
    }

    /**
     * After loading, the region of a configured IPv4 prefix is the region of
     * the last IPv4 entry with that prefix's key. A key no entry puts keeps
     * its earlier answer (`NoRegionForUnknownKey`).
     */
    lemma RegionAfterLoading(entries: seq<LocalIpPrefixEntry>, i: nat, old4: map<string, string>)
      requires ValidEntries(entries) && i < |entries|
      requires forall j :: i < j < |entries| ==> EntryKey(entries[j]) != EntryKey(entries[i])
      requires ipPrefixRegionMap4 == PutAll(old4, entries, RegionOf)
      ensures GetRegion(entries[i].ipPrefix) == Some(entries[i].region)
    {
      PutAllLast(old4, entries, RegionOf, i);
    }

    /** A prefix the loaded map knows nothing about has no region unless the map held it before. */
    lemma NoRegionForUnknownKey(entries: seq<LocalIpPrefixEntry>, old4: map<string, string>, p: IpPrefix)
      requires ValidEntries(entries) && ValidPrefix(p)
      requires ipPrefixRegionMap4 == PutAll(old4, entries, RegionOf)
      requires BinaryString(p) !in old4
      requires forall j :: 0 <= j < |entries| ==> EntryKey(entries[j]) != BinaryString(p)
      ensures GetRegion(p).None?
    {
      PutAllKeys(old4, entries, RegionOf, BinaryString(p));
    }

    /** An address is local when a stored IPv4 entry's prefix agrees with it on all the prefix's bits. */
    lemma CoveredAddressIsLocal(ipAddress: IpAddress, e: LocalIpPrefixEntry)
      requires ValidAddress(ipAddress) && ipAddress.version == INET && ValidPrefix(e.ipPrefix)
      requires EntryKey(e) in localPrefixTable4 && e.ipPrefix.prefixLength <= 32
      requires forall i :: 0 <= i < e.ipPrefix.prefixLength ==> (BitOf(e.ipPrefix.address.octets, i) <==> BitOf(ipAddress.octets, i))
      ensures IsIpAddressLocal(ipAddress)
    {
      KeyCovers(e.ipPrefix, HostPrefix(ipAddress));
    }
  }
}
