/** Inventory statistics and agent filters: `get_device_statistics` and
    `get_vm_statistics` (services/netbox_service.py), `get_agent_statistics`
    and the comprehensions of `fetch_agents_by_status` /
    `fetch_agents_by_platform` (services/nessus_service.py). A statistics
    result of `None` stands for the empty dictionary returned for an empty
    input. */
module InventoryStats {
  import opened Wrappers
  import opened Seqs
  import opened Records
  import opened Tally

  /** The bucket of a record for one field: the field's value, or `unknown`
      when the field (or the nested object holding it) is absent. */
  function Bucket(field: Option<string>): string {
    field.GetOr("unknown")
  }

  /** The records actually counted: the device and VM loops skip `None` and
      empty entries, represented here by `None`. */
  function Present(ts: seq<Option<Target>>): (r: seq<Target>)
    ensures |r| <= |ts|
    ensures forall t :: t in r <==> Some(t) in ts
    ensures |r| == |Filter(ts, IsPresent)|
    ensures forall i :: 0 <= i < |r| ==> Filter(ts, IsPresent)[i] == Some(r[i])
  {
    if |ts| == 0 then []
    else
      var rest := Present(ts[1..]);
      assert forall x :: x in ts <==> x == ts[0] || x in ts[1..];
      if ts[0].Some? then
        assert Filter(ts, IsPresent) == [ts[0]] + Filter(ts[1..], IsPresent);
        [ts[0].value] + rest
      else rest
  }

  predicate IsPresent(t: Option<Target>) { t.Some? }

  /** The bucket of every record for one field, in list order. */
  function Buckets<R>(rs: seq<R>, field: R -> Option<string>): (r: seq<string>)
    ensures |r| == |rs|
    ensures forall i :: 0 <= i < |rs| ==> r[i] == Bucket(field(rs[i]))
  {
    seq(|rs|, i requires 0 <= i < |rs| => Bucket(field(rs[i])))
  }

  function StatusOf(t: Target): Option<string> { t.status }
  function SiteOf(t: Target): Option<string> { t.site }
  function DeviceTypeOf(t: Target): Option<string> { t.deviceType }
  function PlatformOf(t: Target): Option<string> { t.platform }
  function ClusterOf(t: Target): Option<string> { t.cluster }

  /** A histogram that counts, for every bucket, the present records that
      fall in it, and nothing else. */
  ghost predicate CountsBuckets(h: Histogram, ts: seq<Target>, field: Target -> Option<string>) {
    && NoDuplicates(Labels(h))
    && Total(h) == |ts|
    && (forall b :: Count(h, b) == multiset(Buckets(ts, field))[b])
    && (forall t :: t in ts && field(t).None? ==> Count(h, "unknown") > 0)
  }

  lemma TallyCountsBuckets(ts: seq<Target>, field: Target -> Option<string>)
    ensures CountsBuckets(TallyOf(Buckets(ts, field)), ts, field)
  {
    var bs := Buckets(ts, field);
    forall t | t in ts && field(t).None? ensures Count(TallyOf(bs), "unknown") > 0 {
      var i :| 0 <= i < |ts| && ts[i] == t;
      assert bs[i] == "unknown";
    }
  }

  datatype DeviceStats = DeviceStats(
    totalDevices: nat,
    byStatus: Histogram,
    bySite: Histogram,
    byDeviceType: Histogram,
    byPlatform: Histogram)

  /** `get_device_statistics`: nothing for an empty list; otherwise the
      number of entries (skipped ones included) and, for status, site,
      device type and platform, a histogram over the present devices. */
  function DeviceStatistics(devices: seq<Option<Target>>): (r: Option<DeviceStats>)
    ensures r.None? <==> |devices| == 0
    ensures r.Some? ==>
      var ds := Present(devices);
      && r.value.totalDevices == |devices|
      && CountsBuckets(r.value.byStatus, ds, StatusOf)
      && CountsBuckets(r.value.bySite, ds, SiteOf)
      && CountsBuckets(r.value.byDeviceType, ds, DeviceTypeOf)
      && CountsBuckets(r.value.byPlatform, ds, PlatformOf)
  {
    if |devices| == 0 then None
    else
      var ds := Present(devices);
      TallyCountsBuckets(ds, StatusOf);
      TallyCountsBuckets(ds, SiteOf);
      TallyCountsBuckets(ds, DeviceTypeOf);
      TallyCountsBuckets(ds, PlatformOf);
      Some(DeviceStats(|devices|,
        TallyOf(Buckets(ds, StatusOf)), TallyOf(Buckets(ds, SiteOf)),
        TallyOf(Buckets(ds, DeviceTypeOf)), TallyOf(Buckets(ds, PlatformOf))))
  }

  datatype VmStats = VmStats(
    totalVms: nat,
    byStatus: Histogram,
    bySite: Histogram,
    byPlatform: Histogram,
    byCluster: Histogram)

  /** `get_vm_statistics`: as for devices, with a cluster histogram in place
      of the device-type one. */
  function VmStatistics(vms: seq<Option<Target>>): (r: Option<VmStats>)
    ensures r.None? <==> |vms| == 0
    ensures r.Some? ==>
      var vs := Present(vms);
      && r.value.totalVms == |vms|
      && CountsBuckets(r.value.byStatus, vs, StatusOf)
      && CountsBuckets(r.value.bySite, vs, SiteOf)
      && CountsBuckets(r.value.byPlatform, vs, PlatformOf)
      && CountsBuckets(r.value.byCluster, vs, ClusterOf)
  {
    if |vms| == 0 then None
    else
      var vs := Present(vms);
      TallyCountsBuckets(vs, StatusOf);
      TallyCountsBuckets(vs, SiteOf);
      TallyCountsBuckets(vs, PlatformOf);
      TallyCountsBuckets(vs, ClusterOf);
      Some(VmStats(|vms|,
        TallyOf(Buckets(vs, StatusOf)), TallyOf(Buckets(vs, SiteOf)),
        TallyOf(Buckets(vs, PlatformOf)), TallyOf(Buckets(vs, ClusterOf))))
  }

  /** When no entry is skipped, every histogram of the device statistics
      adds up to the total. */
  lemma DeviceHistogramsAddUp(devices: seq<Option<Target>>)
    requires |devices| > 0 && forall i :: 0 <= i < |devices| ==> devices[i].Some?
    ensures var r := DeviceStatistics(devices);
      && r.Some?
      && Total(r.value.byStatus) == r.value.totalDevices
      && Total(r.value.bySite) == r.value.totalDevices
      && Total(r.value.byDeviceType) == r.value.totalDevices
      && Total(r.value.byPlatform) == r.value.totalDevices
  {
    PresentAllSome(devices);
  }

  /** With no skipped entry, every entry is present. */
  lemma {:induction false} PresentAllSome(ts: seq<Option<Target>>)
    requires forall i :: 0 <= i < |ts| ==> ts[i].Some?
    ensures |Present(ts)| == |ts|
  {
    if |ts| > 0 {
      PresentAllSome(ts[1..]);
    }
  }

  datatype AgentStats = AgentStats(
    totalAgents: nat,
    byStatus: Histogram,
    byPlatform: Histogram,
    byVersion: Histogram)

  function AgentStatusOf(a: Agent): Option<string> { a.status }
  function AgentPlatformOf(a: Agent): Option<string> { a.platform }
  function AgentVersionOf(a: Agent): Option<string> { a.version }

  /** `get_agent_statistics`: nothing for an empty list; otherwise the
      number of agents and status, platform and version histograms, each
      counting every agent once (`unknown` when the field is missing). */
  function AgentStatistics(agents: seq<Agent>): (r: Option<AgentStats>)
    ensures r.None? <==> |agents| == 0
    ensures r.Some? ==>
      && r.value.totalAgents == |agents|
      && Total(r.value.byStatus) == |agents|
      && Total(r.value.byPlatform) == |agents|
      && Total(r.value.byVersion) == |agents|
      && (forall b :: Count(r.value.byStatus, b) == multiset(Buckets(agents, AgentStatusOf))[b])
      && (forall b :: Count(r.value.byPlatform, b) == multiset(Buckets(agents, AgentPlatformOf))[b])
      && (forall b :: Count(r.value.byVersion, b) == multiset(Buckets(agents, AgentVersionOf))[b])
  {
    if |agents| == 0 then None
    else
      Some(AgentStats(|agents|,
        TallyOf(Buckets(agents, AgentStatusOf)),
        TallyOf(Buckets(agents, AgentPlatformOf)),
        TallyOf(Buckets(agents, AgentVersionOf))))
  }

  /** An agent without a status is counted under `unknown`. */
  lemma MissingStatusIsUnknown(agents: seq<Agent>, i: nat)
    requires i < |agents| && agents[i].status.None?
    ensures AgentStatistics(agents).Some?
    ensures Count(AgentStatistics(agents).value.byStatus, "unknown") > 0
  {
    assert Buckets(agents, AgentStatusOf)[i] == "unknown";
  }

  /** The agent's field equals the argument (a missing field never does). */
  function HasStatus(status: string): Agent -> bool {
    (a: Agent) => a.status == Some(status)
  }

  function HasPlatform(platform: string): Agent -> bool {
    (a: Agent) => a.platform == Some(platform)
  }

  /** `[agent for agent in agents if agent.get('status') == status]`. */
  function AgentsByStatus(agents: seq<Agent>, status: string): (r: seq<Agent>)
    ensures forall a :: a in r <==> a in agents && a.status == Some(status)
    ensures IsSubsequence(r, agents)
  {
    FilterIsSubsequence(agents, HasStatus(status));
    forall a | a in agents && a.status == Some(status) ensures a in Filter(agents, HasStatus(status)) {
      FilterKeeps(agents, HasStatus(status), a);
    }
    Filter(agents, HasStatus(status))
  }

  /** `[agent for agent in agents if agent.get('platform') == platform]`. */
  function AgentsByPlatform(agents: seq<Agent>, platform: string): (r: seq<Agent>)
    ensures forall a :: a in r <==> a in agents && a.platform == Some(platform)
    ensures IsSubsequence(r, agents)
  {
    FilterIsSubsequence(agents, HasPlatform(platform));
    forall a | a in agents && a.platform == Some(platform) ensures a in Filter(agents, HasPlatform(platform)) {
      FilterKeeps(agents, HasPlatform(platform), a);
    }
    Filter(agents, HasPlatform(platform))
  }

  /** The status filter and the status histogram agree: for any status
      other than `unknown`, the filter keeps as many agents as the
      histogram counts under that status. */
  lemma StatusFilterMatchesHistogram(agents: seq<Agent>, status: string)
    requires status != "unknown"
    requires |agents| > 0
    ensures |AgentsByStatus(agents, status)| == Count(AgentStatistics(agents).value.byStatus, status)
  {
    FilterOccurrences(agents, HasStatus(status));
    BucketOccurrences(agents, status);
  }

  /** Outside `unknown`, a bucket's occurrences are the agents with that
      status. */
  lemma {:induction false} BucketOccurrences(agents: seq<Agent>, status: string)
    requires status != "unknown"
    ensures multiset(Buckets(agents, AgentStatusOf))[status] == |Filter(agents, HasStatus(status))|
  {
    if |agents| > 0 {
      BucketOccurrences(agents[1..], status);
      assert Buckets(agents, AgentStatusOf) == [Bucket(agents[0].status)] + Buckets(agents[1..], AgentStatusOf);
    }
  }
}
