/** The `details` statistics of the comparisons
    (`_generate_comparison_details` and `_generate_comprehensive_details` in
    services/comparison_service.py): flag tallies over the matched items,
    match-type tallies, and coverage percentages. Percentages are exact
    rationals (`real`); the source's floating point and its rounding to two
    decimals are not modelled. */
module ComparisonStats {
  import opened Seqs
  import opened Records
  import opened Partition
  import opened Matching
  import opened Comprehensive

  /** A `*_matches` / `*_mismatches` pair. */
  datatype FlagTally = FlagTally(matches: nat, mismatches: nat)

  /** The loop over matched items that counts one boolean flag: the items
      whose flag is set, and the others. */
  function TallyFlag(items: seq<MatchItem>, flag: MatchItem -> bool): (t: FlagTally)
    ensures t.matches == |Filter(items, flag)|
    ensures t.matches + t.mismatches == |items|
  {
    if |items| == 0 then FlagTally(0, 0)
    else
      var rest := TallyFlag(items[1..], flag);
      if flag(items[0]) then FlagTally(rest.matches + 1, rest.mismatches)
      else FlagTally(rest.matches, rest.mismatches + 1)
  }

  function StatusFlag(m: MatchItem): bool { m.statusMatch }

  function PlatformFlag(m: MatchItem): bool { m.platformMatch }

  /** `matched / total * 100` when `total > 0`, and 0 otherwise. */
  function Coverage(matched: nat, total: nat): (p: real)
    ensures total == 0 ==> p == 0.0
    ensures total > 0 ==> p * (total as real) == (matched as real) * 100.0
    ensures 0.0 <= p
    ensures matched <= total ==> p <= 100.0
    ensures 0 < total ==> (p == 100.0 <==> matched == total)
  {
    if total > 0 then (matched as real) / (total as real) * 100.0 else 0.0
  }

  /** `details` of a single-collection comparison. */
  datatype ComparisonDetails = ComparisonDetails(
    status: FlagTally,
    platform: FlagTally,
    nessusCoverage: real,
    netboxCoverage: real)

  /** `_generate_comparison_details`: the status and platform tallies over
      the matched items, and the share of agents and of targets matched. */
  function Details(c: Comparison): (d: ComparisonDetails)
    ensures d.status.matches + d.status.mismatches == |c.matchedItems|
    ensures d.platform.matches + d.platform.mismatches == |c.matchedItems|
    ensures d.status.matches == |Filter(c.matchedItems, StatusFlag)|
    ensures d.platform.matches == |Filter(c.matchedItems, PlatformFlag)|
    ensures d.nessusCoverage == Coverage(c.summary.matched, c.summary.totalAgents)
    ensures d.netboxCoverage == Coverage(c.summary.matched, c.summary.totalTargets)
    ensures c.summary.totalAgents == 0 ==> d.nessusCoverage == 0.0
    ensures c.summary.totalTargets == 0 ==> d.netboxCoverage == 0.0
  {
    ComparisonDetails(
      TallyFlag(c.matchedItems, StatusFlag),
      TallyFlag(c.matchedItems, PlatformFlag),
      Coverage(c.summary.matched, c.summary.totalAgents),
      Coverage(c.summary.matched, c.summary.totalTargets))
  }

  /** With distinct ids, neither coverage exceeds 100%, and each reaches
      100% exactly when nothing on that side is left unmatched. */
  lemma CoverageBounded(agents: seq<Agent>, targets: seq<Target>, order: seq<string>)
    requires IsEnumeration(order, HostnameIntersection(agents, targets))
    requires DistinctBy(agents, AgentIdOf) && DistinctBy(targets, TargetIdOf)
    ensures var c := Compare(agents, targets, order);
      var d := Details(c);
      && 0.0 <= d.nessusCoverage <= 100.0
      && 0.0 <= d.netboxCoverage <= 100.0
      && (|agents| > 0 ==> (d.nessusCoverage == 100.0 <==> |c.unmatchedAgents| == 0))
      && (|targets| > 0 ==> (d.netboxCoverage == 100.0 <==> |c.unmatchedTargets| == 0))
  {
    var c := Compare(agents, targets, order);
    CompareCompleteness(agents, targets, order);
    CoverageOfPartition(c.summary.matched, c.summary.unmatchedAgents, c.summary.totalAgents);
    CoverageOfPartition(c.summary.matched, c.summary.unmatchedTargets, c.summary.totalTargets);
  }

  /** When `total` splits into `matched` and `unmatched`, coverage is at
      most 100% and reaches it exactly when nothing is unmatched. */
  lemma CoverageOfPartition(matched: nat, unmatched: nat, total: nat)
    requires matched + unmatched == total
    ensures 0.0 <= Coverage(matched, total) <= 100.0
    ensures total > 0 ==> (Coverage(matched, total) == 100.0 <==> unmatched == 0)
  {
  }

  /** `coverage_analysis` of the three-way comparison. */
  datatype CoverageAnalysis = CoverageAnalysis(
    totalNetboxItems: nat,
    totalMatched: nat,
    coveragePercentage: real,
    unmatchedNetboxItems: nat)

  /** `details` of the three-way comparison. */
  datatype ComprehensiveDetails = ComprehensiveDetails(
    coverage: CoverageAnalysis,
    hostnameMatches: nat,
    ipMatches: nat,
    status: FlagTally,
    platform: FlagTally)

  function IsHostnameMatch(m: MatchItem): bool { m.matchType == HostnameMatch }

  function IsIpMatch(m: MatchItem): bool { m.matchType == IpMatch }

  /** `_generate_comprehensive_details`: Netbox-side totals, the share of
      Netbox items matched, and match-type, status and platform tallies over
      the device matches followed by the VM matches. Every match is either a
      hostname or an IP match, so the two match-type counts add up to all
      matches. */
  function ComprehensiveDetailsOf(c: ComprehensiveResult): (d: ComprehensiveDetails)
    ensures d.coverage.totalNetboxItems == c.summary.totalDevices + c.summary.totalVms
    ensures d.coverage.totalMatched == c.summary.matchedWithDevices + c.summary.matchedWithVms
    ensures d.coverage.unmatchedNetboxItems == c.summary.unmatchedDevices + c.summary.unmatchedVms
    ensures d.coverage.coveragePercentage == Coverage(d.coverage.totalMatched, d.coverage.totalNetboxItems)
    ensures d.coverage.totalNetboxItems == 0 ==> d.coverage.coveragePercentage == 0.0
    ensures d.hostnameMatches == |Filter(c.deviceMatches + c.vmMatches, IsHostnameMatch)|
    ensures d.ipMatches == |Filter(c.deviceMatches + c.vmMatches, IsIpMatch)|
    ensures d.hostnameMatches + d.ipMatches == |c.deviceMatches| + |c.vmMatches|
    ensures d.status.matches == |Filter(c.deviceMatches + c.vmMatches, StatusFlag)|
    ensures d.platform.matches == |Filter(c.deviceMatches + c.vmMatches, PlatformFlag)|
    ensures d.status.matches + d.status.mismatches == |c.deviceMatches| + |c.vmMatches|
    ensures d.platform.matches + d.platform.mismatches == |c.deviceMatches| + |c.vmMatches|
  {
    var s := c.summary;
    var all := c.deviceMatches + c.vmMatches;
    var totalNetbox := s.totalDevices + s.totalVms;
    var totalMatched := s.matchedWithDevices + s.matchedWithVms;
    var kinds := TallyFlag(all, IsHostnameMatch);
    FilterComplement(all, IsHostnameMatch, IsIpMatch);
    ComprehensiveDetails(
      CoverageAnalysis(totalNetbox, totalMatched, Coverage(totalMatched, totalNetbox), s.unmatchedDevices + s.unmatchedVms),
      kinds.matches,
      kinds.mismatches,
      TallyFlag(all, StatusFlag),
      TallyFlag(all, PlatformFlag))
  }

  /** Hostname matches followed by IP matches: the hostname count is the
      length of the first part and the IP count that of the second. */
  lemma KindCounts(host: seq<MatchItem>, ips: seq<MatchItem>)
    requires forall m :: m in host ==> m.matchType == HostnameMatch
    requires forall m :: m in ips ==> m.matchType == IpMatch
    ensures |Filter(host + ips, IsHostnameMatch)| == |host|
    ensures |Filter(host + ips, IsIpMatch)| == |ips|
  {
    FilterAppend(host, ips, IsHostnameMatch);
    FilterAppend(host, ips, IsIpMatch);
    FilterAll(host, IsHostnameMatch);
    FilterAll(ips, IsIpMatch);
    FilterComplement(host, IsHostnameMatch, IsIpMatch);
    FilterComplement(ips, IsHostnameMatch, IsIpMatch);
  }

  /** The hostname count is the number of pairs the two hostname phases
      made and the IP count the number the IP phase made. */
  lemma MatchTypeCounts(agents: seq<Agent>, devices: seq<Target>, vms: seq<Target>, devOrder: seq<string>, vmOrder: seq<string>)
    requires ValidOrders(agents, devices, vms, devOrder, vmOrder)
    ensures var c := CompareAll(agents, devices, vms, devOrder, vmOrder);
      var d := ComprehensiveDetailsOf(c);
      var ip := ThreeWayIp(agents, devices, vms, devOrder, vmOrder);
      && d.hostnameMatches == |HostnameMatches(agents, devices, devOrder)| + |VmHostnameMatches(agents, devices, vms, vmOrder)|
      && d.ipMatches == |ip.devices| + |ip.vms|
  {
    var c := CompareAll(agents, devices, vms, devOrder, vmOrder);
    var dh := HostnameMatches(agents, devices, devOrder);
    var vh := VmHostnameMatches(agents, devices, vms, vmOrder);
    var ip := ThreeWayIp(agents, devices, vms, devOrder, vmOrder);
    assert forall m :: m in dh ==> m.matchType == HostnameMatch;
    assert forall m :: m in vh ==> m.matchType == HostnameMatch;
    KindCounts(dh, ip.devices);
    KindCounts(vh, ip.vms);
    FilterAppend(c.deviceMatches, c.vmMatches, IsHostnameMatch);
    FilterAppend(c.deviceMatches, c.vmMatches, IsIpMatch);
  }

  /** With distinct ids, the three-way coverage never exceeds 100%, and it
      reaches 100% exactly when no device and no VM is left unmatched. */
  lemma ComprehensiveCoverageBounded(agents: seq<Agent>, devices: seq<Target>, vms: seq<Target>, devOrder: seq<string>, vmOrder: seq<string>)
    requires ValidOrders(agents, devices, vms, devOrder, vmOrder)
    requires DistinctBy(agents, AgentIdOf) && DistinctBy(devices, TargetIdOf) && DistinctBy(vms, TargetIdOf)
    ensures var c := CompareAll(agents, devices, vms, devOrder, vmOrder);
      var d := ComprehensiveDetailsOf(c);
      && 0.0 <= d.coverage.coveragePercentage <= 100.0
      && (|devices| + |vms| > 0 ==>
            (d.coverage.coveragePercentage == 100.0 <==> d.coverage.unmatchedNetboxItems == 0))
  {
    var c := CompareAll(agents, devices, vms, devOrder, vmOrder);
    var s := c.summary;
    ThreeWayCompleteness(agents, devices, vms, devOrder, vmOrder);
    CoverageOfPartition(s.matchedWithDevices + s.matchedWithVms, s.unmatchedDevices + s.unmatchedVms,
                        s.totalDevices + s.totalVms);
  }
}
