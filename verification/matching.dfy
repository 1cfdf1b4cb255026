/** Two-phase reconciliation of scanner agents against one Netbox collection
    (`compare_agents_with_devices` and `compare_agents_with_vms` in
    services/comparison_service.py, which run the same algorithm over devices
    and over virtual machines).

    Phase 1 pairs every hostname shared by the agent and target name indexes.
    Phase 2 walks the agents in list order and pairs each one not yet
    consumed, whose IP is a key of the target IP index, with the indexed
    target if that target is not yet consumed. Everything left over is
    unmatched. */
module Matching {
  import opened Wrappers
  import opened Seqs
  import opened Records
  import opened Addressing
  import opened Indexing
  import opened Partition

  datatype MatchType = HostnameMatch | IpMatch

  /** One entry of `matched_items`: the hostname-derived name, how the pair
      was found, both records, the target's primary and full IP lists, and
      the two comparison flags. */
  datatype MatchItem = MatchItem(
    name: string,
    matchType: MatchType,
    agent: Agent,
    target: Target,
    targetPrimaryIp: Option<string>,
    targetAllIps: seq<string>,
    statusMatch: bool,
    platformMatch: bool)

  /** `status_match`: the agent is online and the target is active. A
      missing status on either side is a mismatch. */
  predicate StatusMatches(a: Agent, t: Target): (b: bool)
    ensures b ==> a.status == Some("online")
    ensures b ==> t.status == Some("active")
    ensures a.status.None? || t.status.None? ==> !b
  {
    a.status == Some("online") && t.status == Some("active")
  }

  /** `platform_match`: false when the target has no platform, otherwise
      exact equality of the platform names. So the flag holds exactly when
      the agent reports a platform and the target has the same one; two
      records without a platform do not match. */
  predicate PlatformMatches(a: Agent, t: Target): (b: bool)
    ensures b <==> a.platform.Some? && a.platform == t.platform
    ensures t.platform.None? ==> !b
  {
    t.platform.Some? && a.platform == t.platform
  }

  function MakeMatch(name: string, kind: MatchType, a: Agent, t: Target): MatchItem {
    MatchItem(name, kind, a, t, GetPrimaryIp(t), GetAllIps(t), StatusMatches(a, t), PlatformMatches(a, t))
  }

  function ItemAgentId(m: MatchItem): int { m.agent.id }

  function ItemTargetId(m: MatchItem): int { m.target.id }

  /** Agent ids consumed by a list of matches (`matched_agents`). */
  function AgentIds(items: seq<MatchItem>): set<int> { IdSet(items, ItemAgentId) }

  /** Target ids consumed by a list of matches (`matched_devices` / `matched_vms`). */
  function TargetIds(items: seq<MatchItem>): set<int> { IdSet(items, ItemTargetId) }

  /** `set(agent_names.keys()) & set(device_names.keys())`. */
  function HostnameIntersection(agents: seq<Agent>, targets: seq<Target>): set<string> {
    AgentNames(agents).Keys * TargetNames(targets).Keys
  }

  /** The hostname loop, visiting the shared hostnames in `order`: one
      hostname match per visited name, in that order, pairing the agent and
      the target stored under it. */
  function HostnamePhase(order: seq<string>, an: map<string, Agent>, tn: map<string, Target>): (r: seq<MatchItem>)
    requires forall i :: 0 <= i < |order| ==> order[i] in an && order[i] in tn
    ensures |r| == |order|
    ensures forall i :: 0 <= i < |r| ==>
      && r[i].name == order[i] && r[i].matchType == HostnameMatch
      && r[i].agent == an[order[i]] && r[i].target == tn[order[i]]
      && r[i].statusMatch == StatusMatches(r[i].agent, r[i].target)
      && r[i].platformMatch == PlatformMatches(r[i].agent, r[i].target)
  {
    seq(|order|, i requires 0 <= i < |order| => MakeMatch(order[i], HostnameMatch, an[order[i]], tn[order[i]]))
  }

  /** The condition under which the IP loop pairs agent `a`, given the ids
      consumed so far. The agent's IP is looked up verbatim. */
  predicate IpCandidate(a: Agent, index: map<string, Target>, usedA: set<int>, usedT: set<int>) {
    a.id !in usedA && Truthy(a.ip) && a.ip.value in index && index[a.ip.value].id !in usedT
  }

  /** A match whose agent and target are new, put in front of a list with
      no repeated agent or target id, keeps the ids distinct. */
  lemma PrependDistinct(m: MatchItem, rest: seq<MatchItem>)
    requires DistinctBy(rest, ItemAgentId) && DistinctBy(rest, ItemTargetId)
    requires forall x :: x in rest ==> x.agent.id != m.agent.id && x.target.id != m.target.id
    ensures DistinctBy([m] + rest, ItemAgentId) && DistinctBy([m] + rest, ItemTargetId)
    ensures forall x :: x in [m] + rest <==> x == m || x in rest
  {
    IdSetSingleton(m, ItemAgentId);
    IdSetSingleton(m, ItemTargetId);
    DistinctByAppend([m], rest, ItemAgentId);
    DistinctByAppend([m], rest, ItemTargetId);
  }

  /** The IP loop over `agents` in list order, starting from the consumed id
      sets `usedA` and `usedT`. Every pair it emits is an unconsumed agent
      whose verbatim IP indexes an unconsumed target, and it never uses an
      agent id or a target id twice. */
  function IpPhase(agents: seq<Agent>, index: map<string, Target>, usedA: set<int>, usedT: set<int>): (r: seq<MatchItem>)
    ensures forall m :: m in r ==>
      && m.matchType == IpMatch
      && m.agent in agents && m.agent.id !in usedA && m.target.id !in usedT
      && Truthy(m.agent.ip) && m.agent.ip.value in index && index[m.agent.ip.value] == m.target
      && m == MakeMatch(ExtractHostname(m.agent.name), IpMatch, m.agent, m.target)
    ensures DistinctBy(r, ItemAgentId) && DistinctBy(r, ItemTargetId)
    decreases |agents|
  {
    if |agents| == 0 then []
    else
      var a := agents[0];
      assert forall x :: x in agents[1..] ==> x in agents;
      if IpCandidate(a, index, usedA, usedT) then
        var t := index[a.ip.value];
        var rest := IpPhase(agents[1..], index, usedA + {a.id}, usedT + {t.id});
        var m := MakeMatch(ExtractHostname(a.name), IpMatch, a, t);
        PrependDistinct(m, rest);
        [m] + rest
      else IpPhase(agents[1..], index, usedA, usedT)
  }

  /** The IP loop misses nothing: when it is done, every agent it did not
      consume (before or during the loop) whose IP is a key of the index
      finds the indexed target consumed. */
  lemma {:induction false} IpPhaseComplete(agents: seq<Agent>, index: map<string, Target>, usedA: set<int>, usedT: set<int>)
    ensures var r := IpPhase(agents, index, usedA, usedT);
      forall a :: a in agents && a.id !in usedA + AgentIds(r) && Truthy(a.ip) && a.ip.value in index ==>
        index[a.ip.value].id in usedT + TargetIds(r)
    decreases |agents|
  {
    if |agents| > 0 {
      var a0 := agents[0];
      var r := IpPhase(agents, index, usedA, usedT);
      assert agents == [a0] + agents[1..];
      if IpCandidate(a0, index, usedA, usedT) {
        var t := index[a0.ip.value];
        var rest := IpPhase(agents[1..], index, usedA + {a0.id}, usedT + {t.id});
        IpPhaseComplete(agents[1..], index, usedA + {a0.id}, usedT + {t.id});
        var m := MakeMatch(ExtractHostname(a0.name), IpMatch, a0, t);
        assert r == [m] + rest;
        IdSetSingleton(m, ItemAgentId);
        IdSetSingleton(m, ItemTargetId);
        IdSetAppend([m], rest, ItemAgentId);
        IdSetAppend([m], rest, ItemTargetId);
      } else {
        IpPhaseComplete(agents[1..], index, usedA, usedT);
      }
    }
  }

  /** `summary` of a single-collection comparison. */
  datatype Summary = Summary(
    totalAgents: nat,
    totalTargets: nat,
    matched: nat,
    unmatchedAgents: nat,
    unmatchedTargets: nat)

  /** Result of a single-collection comparison (without `details`, which
      ComparisonStats derives from it). */
  datatype Comparison = Comparison(
    summary: Summary,
    matchedItems: seq<MatchItem>,
    unmatchedAgents: seq<Agent>,
    unmatchedTargets: seq<Target>)

  function HostnameMatches(agents: seq<Agent>, targets: seq<Target>, order: seq<string>): seq<MatchItem>
    requires IsEnumeration(order, HostnameIntersection(agents, targets))
  {
    HostnamePhase(order, AgentNames(agents), TargetNames(targets))
  }

  function IpMatches(agents: seq<Agent>, targets: seq<Target>, order: seq<string>): seq<MatchItem>
    requires IsEnumeration(order, HostnameIntersection(agents, targets))
  {
    var host := HostnameMatches(agents, targets, order);
    IpPhase(agents, IpIndex(targets), AgentIds(host), TargetIds(host))
  }

  /** A match pairs records of the two inputs and carries the primary IP,
      the full IP list and the two flags derived from them. */
  predicate WellFormedMatch(m: MatchItem, agents: seq<Agent>, targets: seq<Target>) {
    && m.agent in agents && m.target in targets
    && (m.statusMatch <==> m.agent.status == Some("online") && m.target.status == Some("active"))
    && (m.platformMatch <==> m.target.platform.Some? && m.agent.platform == m.target.platform)
    && m.targetPrimaryIp == GetPrimaryIp(m.target) && m.targetAllIps == GetAllIps(m.target)
  }

  lemma MatchesWellFormed(agents: seq<Agent>, targets: seq<Target>, order: seq<string>)
    requires IsEnumeration(order, HostnameIntersection(agents, targets))
    ensures forall m :: m in HostnameMatches(agents, targets, order) + IpMatches(agents, targets, order) ==>
      WellFormedMatch(m, agents, targets)
  {
    HostnameMatchesWellFormed(agents, targets, order);
    IpMatchesWellFormed(agents, targets, order);
  }

  lemma HostnameMatchesWellFormed(agents: seq<Agent>, targets: seq<Target>, order: seq<string>)
    requires IsEnumeration(order, HostnameIntersection(agents, targets))
    ensures forall m :: m in HostnameMatches(agents, targets, order) ==> WellFormedMatch(m, agents, targets)
  {
  }

  lemma IpMatchesWellFormed(agents: seq<Agent>, targets: seq<Target>, order: seq<string>)
    requires IsEnumeration(order, HostnameIntersection(agents, targets))
    ensures forall m :: m in IpMatches(agents, targets, order) ==> WellFormedMatch(m, agents, targets)
  {
    forall m | m in IpMatches(agents, targets, order) ensures WellFormedMatch(m, agents, targets) {
      assert m.target in targets;
    }
  }

  /** The whole comparison; `order` is the iteration order of the set of
      shared hostnames. Matches pair records of the two inputs with the
      flags the source computes; the unmatched lists are exactly the records
      whose id no match consumed, in input order; the summary counts the
      lists. */
  function Compare(agents: seq<Agent>, targets: seq<Target>, order: seq<string>): (c: Comparison)
    requires IsEnumeration(order, HostnameIntersection(agents, targets))
    ensures c.matchedItems == HostnameMatches(agents, targets, order) + IpMatches(agents, targets, order)
    ensures c.summary == Summary(|agents|, |targets|, |c.matchedItems|, |c.unmatchedAgents|, |c.unmatchedTargets|)
    ensures forall m :: m in c.matchedItems ==> WellFormedMatch(m, agents, targets)
    ensures forall a :: a in c.unmatchedAgents ==> a in agents && a.id !in AgentIds(c.matchedItems)
    ensures forall a :: a in agents && a.id !in AgentIds(c.matchedItems) ==> a in c.unmatchedAgents
    ensures forall t :: t in c.unmatchedTargets ==> t in targets && t.id !in TargetIds(c.matchedItems)
    ensures forall t :: t in targets && t.id !in TargetIds(c.matchedItems) ==> t in c.unmatchedTargets
    ensures IsSubsequence(c.unmatchedAgents, agents) && IsSubsequence(c.unmatchedTargets, targets)
    ensures c.unmatchedAgents == Filter(agents, NotConsumed(AgentIdOf, AgentIds(c.matchedItems)))
    ensures c.unmatchedTargets == Filter(targets, NotConsumed(TargetIdOf, TargetIds(c.matchedItems)))
  {
    var matched := HostnameMatches(agents, targets, order) + IpMatches(agents, targets, order);
    MatchesWellFormed(agents, targets, order);
    var unA := Unconsumed(agents, AgentIdOf, AgentIds(matched));
    var unT := Unconsumed(targets, TargetIdOf, TargetIds(matched));
    UnconsumedMembers(agents, AgentIdOf, AgentIds(matched));
    UnconsumedMembers(targets, TargetIdOf, TargetIds(matched));
    Comparison(Summary(|agents|, |targets|, |matched|, |unA|, |unT|), matched, unA, unT)
  }

  /** Distinct shared hostnames select distinct agents and distinct targets,
      so with distinct ids in the inputs the hostname phase never pairs an
      id twice. */
  lemma HostnamePhaseDistinct(agents: seq<Agent>, targets: seq<Target>, order: seq<string>)
    requires IsEnumeration(order, HostnameIntersection(agents, targets))
    requires DistinctBy(agents, AgentIdOf) && DistinctBy(targets, TargetIdOf)
    ensures DistinctBy(HostnameMatches(agents, targets, order), ItemAgentId)
    ensures DistinctBy(HostnameMatches(agents, targets, order), ItemTargetId)
  {
    var an := AgentNames(agents);
    var tn := TargetNames(targets);
    var host := HostnameMatches(agents, targets, order);
    forall i, j | 0 <= i < j < |host|
      ensures ItemAgentId(host[i]) != ItemAgentId(host[j])
      ensures ItemTargetId(host[i]) != ItemTargetId(host[j])
    {
      assert AgentHostKey(an[order[i]]) == Some(order[i]);
      assert AgentHostKey(an[order[j]]) == Some(order[j]);
      DistinctByInjective(agents, AgentIdOf, an[order[i]], an[order[j]]);
      assert TargetHostKey(tn[order[i]]) == Some(order[i]);
      assert TargetHostKey(tn[order[j]]) == Some(order[j]);
      DistinctByInjective(targets, TargetIdOf, tn[order[i]], tn[order[j]]);
    }
  }

  /** At most one match per agent and per target: given distinct ids in
      the inputs, no agent id and no target id occurs in two matched items. */
  lemma CompareAtMostOnce(agents: seq<Agent>, targets: seq<Target>, order: seq<string>)
    requires IsEnumeration(order, HostnameIntersection(agents, targets))
    requires DistinctBy(agents, AgentIdOf) && DistinctBy(targets, TargetIdOf)
    ensures DistinctBy(Compare(agents, targets, order).matchedItems, ItemAgentId)
    ensures DistinctBy(Compare(agents, targets, order).matchedItems, ItemTargetId)
  {
    var host := HostnameMatches(agents, targets, order);
    var ips := IpMatches(agents, targets, order);
    HostnamePhaseDistinct(agents, targets, order);
    DistinctByAppend(host, ips, ItemAgentId);
    DistinctByAppend(host, ips, ItemTargetId);
  }

  /** Completeness of the summary: with distinct ids, every agent is either
      matched or unmatched, and so is every target. */
  lemma CompareCompleteness(agents: seq<Agent>, targets: seq<Target>, order: seq<string>)
    requires IsEnumeration(order, HostnameIntersection(agents, targets))
    requires DistinctBy(agents, AgentIdOf) && DistinctBy(targets, TargetIdOf)
    ensures var s := Compare(agents, targets, order).summary;
      && s.matched + s.unmatchedAgents == s.totalAgents
      && s.matched + s.unmatchedTargets == s.totalTargets
  {
    var c := Compare(agents, targets, order);
    var matched := c.matchedItems;
    CompareAtMostOnce(agents, targets, order);
    DistinctIdSetSize(matched, ItemAgentId);
    DistinctIdSetSize(matched, ItemTargetId);
    assert AgentIds(matched) * IdSet(agents, AgentIdOf) == AgentIds(matched) by {
      forall x | x in AgentIds(matched) ensures x in IdSet(agents, AgentIdOf) {
        var m :| m in matched && ItemAgentId(m) == x;
        assert WellFormedMatch(m, agents, targets);
      }
    }
    assert TargetIds(matched) * IdSet(targets, TargetIdOf) == TargetIds(matched) by {
      forall x | x in TargetIds(matched) ensures x in IdSet(targets, TargetIdOf) {
        var m :| m in matched && ItemTargetId(m) == x;
        assert WellFormedMatch(m, agents, targets);
      }
    }
    UnconsumedCount(agents, AgentIdOf, AgentIds(matched));
    UnconsumedCount(targets, TargetIdOf, TargetIds(matched));
  }

  /** No IP match is missed: after the comparison, an unmatched agent whose
      IP is a key of the target IP index finds the indexed target matched. */
  lemma CompareIpComplete(agents: seq<Agent>, targets: seq<Target>, order: seq<string>)
    requires IsEnumeration(order, HostnameIntersection(agents, targets))
    ensures var c := Compare(agents, targets, order);
      forall a :: a in c.unmatchedAgents && Truthy(a.ip) && a.ip.value in IpIndex(targets) ==>
        IpIndex(targets)[a.ip.value].id in TargetIds(c.matchedItems)
  {
    var host := HostnameMatches(agents, targets, order);
    var ips := IpMatches(agents, targets, order);
    IpPhaseComplete(agents, IpIndex(targets), AgentIds(host), TargetIds(host));
    IdSetAppend(host, ips, ItemAgentId);
    IdSetAppend(host, ips, ItemTargetId);
  }

  /** Hostname matches take priority: every shared hostname yields a
      hostname match between the records stored under it, and neither of
      those two records' ids takes part in an IP match. */
  lemma HostnameBeforeIp(agents: seq<Agent>, targets: seq<Target>, order: seq<string>, h: string)
    requires IsEnumeration(order, HostnameIntersection(agents, targets))
    requires h in HostnameIntersection(agents, targets)
    ensures MakeMatch(h, HostnameMatch, AgentNames(agents)[h], TargetNames(targets)[h])
      in Compare(agents, targets, order).matchedItems
    ensures forall m :: m in IpMatches(agents, targets, order) ==>
      m.agent.id != AgentNames(agents)[h].id && m.target.id != TargetNames(targets)[h].id
  {
    var host := HostnameMatches(agents, targets, order);
    var i :| 0 <= i < |order| && order[i] == h;
    assert host[i] == MakeMatch(h, HostnameMatch, AgentNames(agents)[h], TargetNames(targets)[h]);
    assert ItemAgentId(host[i]) in AgentIds(host);
    assert ItemTargetId(host[i]) in TargetIds(host);
  }

  /** What an IP match is: the agent's IP, compared verbatim, is a non-empty
      address without a prefix length that is a key of the index over ALL
      targets, and the target is the one stored under it (the last target
      with that primary IP). An agent whose IP carries a `/prefix` is
      therefore never matched by IP. */
  lemma IpMatchCharacterised(agents: seq<Agent>, targets: seq<Target>, order: seq<string>)
    requires IsEnumeration(order, HostnameIntersection(agents, targets))
    ensures forall m :: m in Compare(agents, targets, order).matchedItems && m.matchType == IpMatch ==>
      && m.agent.ip.Some? && m.agent.ip.value != "" && '/' !in m.agent.ip.value
      && m.agent.ip.value in IpIndex(targets)
      && m.target == IpIndex(targets)[m.agent.ip.value]
      && GetPrimaryIp(m.target) == m.agent.ip
      && m.name == ExtractHostname(m.agent.name)
  {
    var host := HostnameMatches(agents, targets, order);
    assert forall m :: m in host ==> m.matchType == HostnameMatch;
  }

  /** The hostname phase emits the same set of matches in every visiting
      order of the shared hostnames. */
  lemma HostnamePhaseSameMembers(agents: seq<Agent>, targets: seq<Target>, o1: seq<string>, o2: seq<string>)
    requires IsEnumeration(o1, HostnameIntersection(agents, targets))
    requires IsEnumeration(o2, HostnameIntersection(agents, targets))
    ensures forall m :: m in HostnameMatches(agents, targets, o1) ==> m in HostnameMatches(agents, targets, o2)
  {
    var h1 := HostnameMatches(agents, targets, o1);
    var h2 := HostnameMatches(agents, targets, o2);
    forall m | m in h1 ensures m in h2 {
      var i :| 0 <= i < |h1| && h1[i] == m;
      var j :| 0 <= j < |o2| && o2[j] == o1[i];
      assert h2[j] == m;
    }
  }

  /** Whatever order the set of shared hostnames is visited in, the
      comparison produces the same matches (possibly listed in a different
      order), the same unmatched lists and the same summary. */
  lemma CompareOrderIndependent(agents: seq<Agent>, targets: seq<Target>, o1: seq<string>, o2: seq<string>)
    requires IsEnumeration(o1, HostnameIntersection(agents, targets))
    requires IsEnumeration(o2, HostnameIntersection(agents, targets))
    ensures var c1 := Compare(agents, targets, o1);
      var c2 := Compare(agents, targets, o2);
      && (forall m :: m in c1.matchedItems <==> m in c2.matchedItems)
      && c1.summary == c2.summary
      && c1.unmatchedAgents == c2.unmatchedAgents
      && c1.unmatchedTargets == c2.unmatchedTargets
  {
    var h1 := HostnameMatches(agents, targets, o1);
    var h2 := HostnameMatches(agents, targets, o2);
    var S := HostnameIntersection(agents, targets);
    EnumerationLength(o1, S);
    EnumerationLength(o2, S);
    HostnamePhaseSameMembers(agents, targets, o1, o2);
    HostnamePhaseSameMembers(agents, targets, o2, o1);
    SameMembersSameIds(h1, h2, ItemAgentId);
    SameMembersSameIds(h1, h2, ItemTargetId);
    var ips := IpMatches(agents, targets, o1);
    assert ips == IpMatches(agents, targets, o2);
    assert forall m :: m in h1 + ips <==> m in h2 + ips;
    SameMembersSameIds(h1 + ips, h2 + ips, ItemAgentId);
    SameMembersSameIds(h1 + ips, h2 + ips, ItemTargetId);
  }
}
