/** Three-way reconciliation of agents against devices and virtual machines
    together (`comprehensive_comparison` in services/comparison_service.py).
    Devices take priority: hostnames shared with a device are paired first;
    a hostname already paired with a device is never paired with a VM; and
    in the IP phase an unconsumed device with the agent's IP wins over a VM. */
module Comprehensive {
  import opened Wrappers
  import opened Seqs
  import opened Records
  import opened Addressing
  import opened Indexing
  import opened Partition
  import opened Matching

  /** The VM hostname loop: visits the hostnames shared by agents and VMs in
      `order`, skipping those in `deviceNames`. */
  function VmHostnamePhase(order: seq<string>, an: map<string, Agent>, vn: map<string, Target>, deviceNames: set<string>): (r: seq<MatchItem>)
    requires forall i :: 0 <= i < |order| ==> order[i] in an && order[i] in vn
    ensures forall m :: m in r ==>
      && m.name in order && m.name !in deviceNames
      && m == MakeMatch(m.name, HostnameMatch, an[m.name], vn[m.name])
    ensures NoDuplicates(order) ==> forall i, j :: 0 <= i < j < |r| ==> r[i].name != r[j].name
  {
    if |order| == 0 then []
    else
      var rest := VmHostnamePhase(order[1..], an, vn, deviceNames);
      assert forall x :: x in order[1..] ==> x in order;
      if order[0] in deviceNames then rest
      else
        var m := MakeMatch(order[0], HostnameMatch, an[order[0]], vn[order[0]]);
        assert NoDuplicates(order) ==> forall x :: x in rest ==> x.name != m.name by {
          if NoDuplicates(order) {
            assert order[0] !in order[1..];
          }
        }
        [m] + rest
  }

  /** The two lists of matches a three-way phase produces. */
  datatype Split = Split(devices: seq<MatchItem>, vms: seq<MatchItem>)

  /** The three-way IP loop over `agents` in list order: an unconsumed agent
      with a non-empty IP is paired with the device indexed under that IP if
      the device is unconsumed, otherwise with the VM indexed under it if
      that VM is unconsumed. Every device pair is an unconsumed agent whose
      verbatim IP indexes an unconsumed device; every VM pair likewise. */
  function IpPhase3(agents: seq<Agent>, devIdx: map<string, Target>, vmIdx: map<string, Target>,
                    usedA: set<int>, usedD: set<int>, usedV: set<int>): (r: Split)
    ensures forall m :: m in r.devices ==>
      && m.matchType == IpMatch && m.agent in agents && m.agent.id !in usedA && m.target.id !in usedD
      && Truthy(m.agent.ip) && m.agent.ip.value in devIdx && devIdx[m.agent.ip.value] == m.target
      && m == MakeMatch(ExtractHostname(m.agent.name), IpMatch, m.agent, m.target)
    ensures forall m :: m in r.vms ==>
      && m.matchType == IpMatch && m.agent in agents && m.agent.id !in usedA && m.target.id !in usedV
      && Truthy(m.agent.ip) && m.agent.ip.value in vmIdx && vmIdx[m.agent.ip.value] == m.target
      && m == MakeMatch(ExtractHostname(m.agent.name), IpMatch, m.agent, m.target)
    decreases |agents|
  {
    if |agents| == 0 then Split([], [])
    else
      var a := agents[0];
      assert forall x :: x in agents[1..] ==> x in agents;
      if a.id in usedA || !Truthy(a.ip) then IpPhase3(agents[1..], devIdx, vmIdx, usedA, usedD, usedV)
      else if IpCandidate(a, devIdx, usedA, usedD) then
        var d := devIdx[a.ip.value];
        var rest := IpPhase3(agents[1..], devIdx, vmIdx, usedA + {a.id}, usedD + {d.id}, usedV);
        var devs := [MakeMatch(ExtractHostname(a.name), IpMatch, a, d)] + rest.devices;
        assert forall k :: 0 < k < |devs| ==> devs[k] in rest.devices;
        Split(devs, rest.vms)
      else if IpCandidate(a, vmIdx, usedA, usedV) then
        var v := vmIdx[a.ip.value];
        var rest := IpPhase3(agents[1..], devIdx, vmIdx, usedA + {a.id}, usedD, usedV + {v.id});
        var vms := [MakeMatch(ExtractHostname(a.name), IpMatch, a, v)] + rest.vms;
        assert forall k :: 0 < k < |vms| ==> vms[k] in rest.vms;
        Split(rest.devices, vms)
      else IpPhase3(agents[1..], devIdx, vmIdx, usedA, usedD, usedV)
  }

  /** Putting a match whose agent and target are new in front of a list
      without repeated ids keeps the ids distinct, and keeps the agent ids
      apart from those of a second list that lacks the new agent. */
  lemma PrependFresh(m: MatchItem, rest: seq<MatchItem>, other: seq<MatchItem>)
    requires DistinctBy(rest, ItemAgentId) && DistinctBy(rest, ItemTargetId)
    requires AgentIds(rest) !! AgentIds(other)
    requires forall x :: x in rest ==> x.agent.id != m.agent.id && x.target.id != m.target.id
    requires forall x :: x in other ==> x.agent.id != m.agent.id
    ensures DistinctBy([m] + rest, ItemAgentId) && DistinctBy([m] + rest, ItemTargetId)
    ensures AgentIds([m] + rest) !! AgentIds(other)
  {
    PrependDistinct(m, rest);
    IdSetSingleton(m, ItemAgentId);
    IdSetAppend([m], rest, ItemAgentId);
  }

  /** The three-way IP loop uses no agent twice across both lists, and no
      device or VM twice. */
  lemma {:induction false} IpPhase3Distinct(agents: seq<Agent>, devIdx: map<string, Target>, vmIdx: map<string, Target>,
                                            usedA: set<int>, usedD: set<int>, usedV: set<int>)
    ensures var r := IpPhase3(agents, devIdx, vmIdx, usedA, usedD, usedV);
      && DistinctBy(r.devices, ItemAgentId) && DistinctBy(r.vms, ItemAgentId)
      && AgentIds(r.devices) !! AgentIds(r.vms)
      && DistinctBy(r.devices, ItemTargetId) && DistinctBy(r.vms, ItemTargetId)
    decreases |agents|
  {
    if |agents| > 0 {
      var a := agents[0];
      var r := IpPhase3(agents, devIdx, vmIdx, usedA, usedD, usedV);
      if a.id in usedA || !Truthy(a.ip) {
        IpPhase3Distinct(agents[1..], devIdx, vmIdx, usedA, usedD, usedV);
      } else if IpCandidate(a, devIdx, usedA, usedD) {
        var d := devIdx[a.ip.value];
        var rest := IpPhase3(agents[1..], devIdx, vmIdx, usedA + {a.id}, usedD + {d.id}, usedV);
        IpPhase3Distinct(agents[1..], devIdx, vmIdx, usedA + {a.id}, usedD + {d.id}, usedV);
        PrependFresh(MakeMatch(ExtractHostname(a.name), IpMatch, a, d), rest.devices, rest.vms);
      } else if IpCandidate(a, vmIdx, usedA, usedV) {
        var v := vmIdx[a.ip.value];
        var rest := IpPhase3(agents[1..], devIdx, vmIdx, usedA + {a.id}, usedD, usedV + {v.id});
        IpPhase3Distinct(agents[1..], devIdx, vmIdx, usedA + {a.id}, usedD, usedV + {v.id});
        PrependFresh(MakeMatch(ExtractHostname(a.name), IpMatch, a, v), rest.vms, rest.devices);
      } else {
        IpPhase3Distinct(agents[1..], devIdx, vmIdx, usedA, usedD, usedV);
      }
    }
  }

  /** The three-way IP loop misses nothing: when it is done, every agent it
      did not consume whose IP is a key of the device index finds that
      device consumed, and likewise for the VM index. */
  lemma {:induction false} IpPhase3Complete(agents: seq<Agent>, devIdx: map<string, Target>, vmIdx: map<string, Target>,
                                            usedA: set<int>, usedD: set<int>, usedV: set<int>)
    ensures var r := IpPhase3(agents, devIdx, vmIdx, usedA, usedD, usedV);
      forall a :: a in agents && a.id !in usedA + AgentIds(r.devices) + AgentIds(r.vms) && Truthy(a.ip) ==>
        && (a.ip.value in devIdx ==> devIdx[a.ip.value].id in usedD + TargetIds(r.devices))
        && (a.ip.value in vmIdx ==> vmIdx[a.ip.value].id in usedV + TargetIds(r.vms))
    decreases |agents|
  {
    if |agents| > 0 {
      var a0 := agents[0];
      var r := IpPhase3(agents, devIdx, vmIdx, usedA, usedD, usedV);
      assert agents == [a0] + agents[1..];
      if a0.id in usedA || !Truthy(a0.ip) {
        IpPhase3Complete(agents[1..], devIdx, vmIdx, usedA, usedD, usedV);
      } else if IpCandidate(a0, devIdx, usedA, usedD) {
        var d := devIdx[a0.ip.value];
        var rest := IpPhase3(agents[1..], devIdx, vmIdx, usedA + {a0.id}, usedD + {d.id}, usedV);
        IpPhase3Complete(agents[1..], devIdx, vmIdx, usedA + {a0.id}, usedD + {d.id}, usedV);
        ConsIds(MakeMatch(ExtractHostname(a0.name), IpMatch, a0, d), rest.devices);
      } else if IpCandidate(a0, vmIdx, usedA, usedV) {
        var v := vmIdx[a0.ip.value];
        var rest := IpPhase3(agents[1..], devIdx, vmIdx, usedA + {a0.id}, usedD, usedV + {v.id});
        IpPhase3Complete(agents[1..], devIdx, vmIdx, usedA + {a0.id}, usedD, usedV + {v.id});
        ConsIds(MakeMatch(ExtractHostname(a0.name), IpMatch, a0, v), rest.vms);
      } else {
        IpPhase3Complete(agents[1..], devIdx, vmIdx, usedA, usedD, usedV);
      }
    }
  }

  /** The ids consumed by a match put in front of a list. */
  lemma ConsIds(m: MatchItem, rest: seq<MatchItem>)
    ensures AgentIds([m] + rest) == {m.agent.id} + AgentIds(rest)
    ensures TargetIds([m] + rest) == {m.target.id} + TargetIds(rest)
  {
    IdSetSingleton(m, ItemAgentId);
    IdSetSingleton(m, ItemTargetId);
    IdSetAppend([m], rest, ItemAgentId);
    IdSetAppend([m], rest, ItemTargetId);
  }

  /** An agent is paired with a VM by IP only when its IP indexes no device,
      or indexes a device that was consumed before or during the loop. */
  lemma {:induction false} IpPhase3DevicePriority(agents: seq<Agent>, devIdx: map<string, Target>, vmIdx: map<string, Target>,
                                                  usedA: set<int>, usedD: set<int>, usedV: set<int>)
    ensures var r := IpPhase3(agents, devIdx, vmIdx, usedA, usedD, usedV);
      forall m :: m in r.vms ==>
        m.agent.ip.Some? && (m.agent.ip.value !in devIdx || devIdx[m.agent.ip.value].id in usedD + TargetIds(r.devices))
    decreases |agents|
  {
    if |agents| > 0 {
      var a := agents[0];
      var r := IpPhase3(agents, devIdx, vmIdx, usedA, usedD, usedV);
      if a.id in usedA || !Truthy(a.ip) {
        IpPhase3DevicePriority(agents[1..], devIdx, vmIdx, usedA, usedD, usedV);
      } else if IpCandidate(a, devIdx, usedA, usedD) {
        var d := devIdx[a.ip.value];
        var rest := IpPhase3(agents[1..], devIdx, vmIdx, usedA + {a.id}, usedD + {d.id}, usedV);
        IpPhase3DevicePriority(agents[1..], devIdx, vmIdx, usedA + {a.id}, usedD + {d.id}, usedV);
        var m := MakeMatch(ExtractHostname(a.name), IpMatch, a, d);
        assert r.devices == [m] + rest.devices;
        IdSetSingleton(m, ItemTargetId);
        IdSetAppend([m], rest.devices, ItemTargetId);
      } else if IpCandidate(a, vmIdx, usedA, usedV) {
        var v := vmIdx[a.ip.value];
        IpPhase3DevicePriority(agents[1..], devIdx, vmIdx, usedA + {a.id}, usedD, usedV + {v.id});
      } else {
        IpPhase3DevicePriority(agents[1..], devIdx, vmIdx, usedA, usedD, usedV);
      }
    }
  }

  /** `summary` of the three-way comparison. */
  datatype ComprehensiveSummary = ComprehensiveSummary(
    totalAgents: nat,
    totalDevices: nat,
    totalVms: nat,
    matchedWithDevices: nat,
    matchedWithVms: nat,
    unmatchedAgents: nat,
    unmatchedDevices: nat,
    unmatchedVms: nat)

  /** Result of the three-way comparison (without `details`). */
  datatype ComprehensiveResult = ComprehensiveResult(
    summary: ComprehensiveSummary,
    deviceMatches: seq<MatchItem>,
    vmMatches: seq<MatchItem>,
    unmatchedAgents: seq<Agent>,
    unmatchedDevices: seq<Target>,
    unmatchedVms: seq<Target>)

  /** Both visiting orders enumerate their sets of shared hostnames. */
  predicate ValidOrders(agents: seq<Agent>, devices: seq<Target>, vms: seq<Target>, devOrder: seq<string>, vmOrder: seq<string>) {
    IsEnumeration(devOrder, HostnameIntersection(agents, devices))
    && IsEnumeration(vmOrder, HostnameIntersection(agents, vms))
  }

  function VmHostnameMatches(agents: seq<Agent>, devices: seq<Target>, vms: seq<Target>, vmOrder: seq<string>): seq<MatchItem>
    requires IsEnumeration(vmOrder, HostnameIntersection(agents, vms))
  {
    VmHostnamePhase(vmOrder, AgentNames(agents), TargetNames(vms), HostnameIntersection(agents, devices))
  }

  function ThreeWayIp(agents: seq<Agent>, devices: seq<Target>, vms: seq<Target>, devOrder: seq<string>, vmOrder: seq<string>): Split
    requires ValidOrders(agents, devices, vms, devOrder, vmOrder)
  {
    var devHost := HostnameMatches(agents, devices, devOrder);
    var vmHost := VmHostnameMatches(agents, devices, vms, vmOrder);
    IpPhase3(agents, IpIndex(devices), IpIndex(vms),
             AgentIds(devHost) + AgentIds(vmHost), TargetIds(devHost), TargetIds(vmHost))
  }

  /** The three-way comparison. Device matches are the device hostname
      matches followed by the device IP matches, VM matches likewise; every
      match pairs records of the inputs; the unmatched lists are exactly the
      records whose id no match consumed, in input order; the summary counts
      the lists. */
  function CompareAll(agents: seq<Agent>, devices: seq<Target>, vms: seq<Target>, devOrder: seq<string>, vmOrder: seq<string>): (c: ComprehensiveResult)
    requires ValidOrders(agents, devices, vms, devOrder, vmOrder)
    ensures c.deviceMatches == HostnameMatches(agents, devices, devOrder) + ThreeWayIp(agents, devices, vms, devOrder, vmOrder).devices
    ensures c.vmMatches == VmHostnameMatches(agents, devices, vms, vmOrder) + ThreeWayIp(agents, devices, vms, devOrder, vmOrder).vms
    ensures c.summary == ComprehensiveSummary(|agents|, |devices|, |vms|, |c.deviceMatches|, |c.vmMatches|,
                                              |c.unmatchedAgents|, |c.unmatchedDevices|, |c.unmatchedVms|)
    ensures forall m :: m in c.deviceMatches ==> WellFormedMatch(m, agents, devices)
    ensures forall m :: m in c.vmMatches ==> WellFormedMatch(m, agents, vms)
    ensures forall a :: a in c.unmatchedAgents ==>
      a in agents && a.id !in AgentIds(c.deviceMatches) + AgentIds(c.vmMatches)
    ensures forall a :: a in agents && a.id !in AgentIds(c.deviceMatches) + AgentIds(c.vmMatches) ==>
      a in c.unmatchedAgents
    ensures forall t :: t in c.unmatchedDevices <==> t in devices && t.id !in TargetIds(c.deviceMatches)
    ensures forall t :: t in c.unmatchedVms <==> t in vms && t.id !in TargetIds(c.vmMatches)
  {
    var devHost := HostnameMatches(agents, devices, devOrder);
    var vmHost := VmHostnameMatches(agents, devices, vms, vmOrder);
    var ip := ThreeWayIp(agents, devices, vms, devOrder, vmOrder);
    var dev := devHost + ip.devices;
    var vm := vmHost + ip.vms;
    WellFormedParts(agents, devices, vms, devOrder, vmOrder);
    var used := AgentIds(dev) + AgentIds(vm);
    var unA := Unconsumed(agents, AgentIdOf, used);
    var unD := Unconsumed(devices, TargetIdOf, TargetIds(dev));
    var unV := Unconsumed(vms, TargetIdOf, TargetIds(vm));
    UnconsumedMembers(agents, AgentIdOf, used);
    UnconsumedMembers(devices, TargetIdOf, TargetIds(dev));
    UnconsumedMembers(vms, TargetIdOf, TargetIds(vm));
    ComprehensiveResult(
      ComprehensiveSummary(|agents|, |devices|, |vms|, |dev|, |vm|, |unA|, |unD|, |unV|),
      dev, vm, unA, unD, unV)
  }

  lemma WellFormedParts(agents: seq<Agent>, devices: seq<Target>, vms: seq<Target>, devOrder: seq<string>, vmOrder: seq<string>)
    requires ValidOrders(agents, devices, vms, devOrder, vmOrder)
    ensures forall m :: m in HostnameMatches(agents, devices, devOrder) + ThreeWayIp(agents, devices, vms, devOrder, vmOrder).devices ==>
      WellFormedMatch(m, agents, devices)
    ensures forall m :: m in VmHostnameMatches(agents, devices, vms, vmOrder) + ThreeWayIp(agents, devices, vms, devOrder, vmOrder).vms ==>
      WellFormedMatch(m, agents, vms)
  {
    HostnameMatchesWellFormed(agents, devices, devOrder);
    VmHostnameWellFormed(agents, devices, vms, vmOrder);
    ThreeWayIpDevicesWellFormed(agents, devices, vms, devOrder, vmOrder);
    ThreeWayIpVmsWellFormed(agents, devices, vms, devOrder, vmOrder);
  }

  lemma VmHostnameWellFormed(agents: seq<Agent>, devices: seq<Target>, vms: seq<Target>, vmOrder: seq<string>)
    requires IsEnumeration(vmOrder, HostnameIntersection(agents, vms))
    ensures forall m :: m in VmHostnameMatches(agents, devices, vms, vmOrder) ==> WellFormedMatch(m, agents, vms)
  {
  }

  lemma ThreeWayIpDevicesWellFormed(agents: seq<Agent>, devices: seq<Target>, vms: seq<Target>, devOrder: seq<string>, vmOrder: seq<string>)
    requires ValidOrders(agents, devices, vms, devOrder, vmOrder)
    ensures forall m :: m in ThreeWayIp(agents, devices, vms, devOrder, vmOrder).devices ==> WellFormedMatch(m, agents, devices)
  {
    var ip := ThreeWayIp(agents, devices, vms, devOrder, vmOrder);
    forall m | m in ip.devices ensures WellFormedMatch(m, agents, devices) {
      assert m.target in devices;
    }
  }

  lemma ThreeWayIpVmsWellFormed(agents: seq<Agent>, devices: seq<Target>, vms: seq<Target>, devOrder: seq<string>, vmOrder: seq<string>)
    requires ValidOrders(agents, devices, vms, devOrder, vmOrder)
    ensures forall m :: m in ThreeWayIp(agents, devices, vms, devOrder, vmOrder).vms ==> WellFormedMatch(m, agents, vms)
  {
    var ip := ThreeWayIp(agents, devices, vms, devOrder, vmOrder);
    forall m | m in ip.vms ensures WellFormedMatch(m, agents, vms) {
      assert m.target in vms;
    }
  }

  /** No IP match is missed: after the three-way comparison, an unmatched
      agent whose IP is a key of the device IP index finds that device
      matched, and one whose IP is a key of the VM IP index finds that VM
      matched. */
  lemma ThreeWayIpComplete(agents: seq<Agent>, devices: seq<Target>, vms: seq<Target>, devOrder: seq<string>, vmOrder: seq<string>)
    requires ValidOrders(agents, devices, vms, devOrder, vmOrder)
    ensures var c := CompareAll(agents, devices, vms, devOrder, vmOrder);
      forall a :: a in c.unmatchedAgents && Truthy(a.ip) ==>
        && (a.ip.value in IpIndex(devices) ==> IpIndex(devices)[a.ip.value].id in TargetIds(c.deviceMatches))
        && (a.ip.value in IpIndex(vms) ==> IpIndex(vms)[a.ip.value].id in TargetIds(c.vmMatches))
  {
    var dh := HostnameMatches(agents, devices, devOrder);
    var vh := VmHostnameMatches(agents, devices, vms, vmOrder);
    var ip := ThreeWayIp(agents, devices, vms, devOrder, vmOrder);
    var c := CompareAll(agents, devices, vms, devOrder, vmOrder);
    var usedA := AgentIds(dh) + AgentIds(vh);
    IpPhase3Complete(agents, IpIndex(devices), IpIndex(vms), usedA, TargetIds(dh), TargetIds(vh));
    ThreeWayIds(dh, vh, ip);
    forall a | a in c.unmatchedAgents && Truthy(a.ip)
      ensures a.ip.value in IpIndex(devices) ==> IpIndex(devices)[a.ip.value].id in TargetIds(c.deviceMatches)
      ensures a.ip.value in IpIndex(vms) ==> IpIndex(vms)[a.ip.value].id in TargetIds(c.vmMatches)
    {
      assert a in agents && a.id !in usedA + AgentIds(ip.devices) + AgentIds(ip.vms);
    }
  }

  /** The ids consumed by hostname matches followed by IP matches, on each
      side. */
  lemma ThreeWayIds(dh: seq<MatchItem>, vh: seq<MatchItem>, ip: Split)
    ensures AgentIds(dh + ip.devices) + AgentIds(vh + ip.vms)
         == (AgentIds(dh) + AgentIds(vh)) + AgentIds(ip.devices) + AgentIds(ip.vms)
    ensures TargetIds(dh + ip.devices) == TargetIds(dh) + TargetIds(ip.devices)
    ensures TargetIds(vh + ip.vms) == TargetIds(vh) + TargetIds(ip.vms)
  {
    IdSetAppend(dh, ip.devices, ItemAgentId);
    IdSetAppend(dh, ip.devices, ItemTargetId);
    IdSetAppend(vh, ip.vms, ItemAgentId);
    IdSetAppend(vh, ip.vms, ItemTargetId);
  }

  /** With distinct ids in the inputs, the VM hostname phase pairs no id
      twice. */
  lemma VmHostnamePhaseDistinct(agents: seq<Agent>, devices: seq<Target>, vms: seq<Target>, vmOrder: seq<string>)
    requires IsEnumeration(vmOrder, HostnameIntersection(agents, vms))
    requires DistinctBy(agents, AgentIdOf) && DistinctBy(vms, TargetIdOf)
    ensures DistinctBy(VmHostnameMatches(agents, devices, vms, vmOrder), ItemAgentId)
    ensures DistinctBy(VmHostnameMatches(agents, devices, vms, vmOrder), ItemTargetId)
  {
    var an := AgentNames(agents);
    var vn := TargetNames(vms);
    var vh := VmHostnameMatches(agents, devices, vms, vmOrder);
    forall i, j | 0 <= i < j < |vh|
      ensures ItemAgentId(vh[i]) != ItemAgentId(vh[j])
      ensures ItemTargetId(vh[i]) != ItemTargetId(vh[j])
    {
      var ni, nj := vh[i].name, vh[j].name;
      assert vh[i] in vh && vh[j] in vh;
      assert AgentHostKey(an[ni]) == Some(ni) && AgentHostKey(an[nj]) == Some(nj);
      DistinctByInjective(agents, AgentIdOf, an[ni], an[nj]);
      assert TargetHostKey(vn[ni]) == Some(ni) && TargetHostKey(vn[nj]) == Some(nj);
      DistinctByInjective(vms, TargetIdOf, vn[ni], vn[nj]);
    }
  }

  /** The device and VM hostname phases pair different agents: a VM
      hostname match never uses a hostname shared with a device, and
      different hostnames index different agents. */
  lemma HostnamePhasesDisjoint(agents: seq<Agent>, devices: seq<Target>, vms: seq<Target>, devOrder: seq<string>, vmOrder: seq<string>)
    requires ValidOrders(agents, devices, vms, devOrder, vmOrder)
    requires DistinctBy(agents, AgentIdOf)
    ensures AgentIds(HostnameMatches(agents, devices, devOrder)) !! AgentIds(VmHostnameMatches(agents, devices, vms, vmOrder))
  {
    var an := AgentNames(agents);
    var dh := HostnameMatches(agents, devices, devOrder);
    var vh := VmHostnameMatches(agents, devices, vms, vmOrder);
    forall m1, m2 | m1 in dh && m2 in vh ensures ItemAgentId(m1) != ItemAgentId(m2) {
      var i :| 0 <= i < |dh| && dh[i] == m1;
      var n1, n2 := devOrder[i], m2.name;
      assert n1 in HostnameIntersection(agents, devices);
      assert AgentHostKey(an[n1]) == Some(n1) && AgentHostKey(an[n2]) == Some(n2);
      DistinctByInjective(agents, AgentIdOf, an[n1], an[n2]);
    }
  }

  /** At most one match per record in three-way mode: given distinct ids in
      each input, no agent id occurs twice among all device and VM matches
      together, and no device id or VM id occurs twice in its list. */
  lemma ThreeWayAtMostOnce(agents: seq<Agent>, devices: seq<Target>, vms: seq<Target>, devOrder: seq<string>, vmOrder: seq<string>)
    requires ValidOrders(agents, devices, vms, devOrder, vmOrder)
    requires DistinctBy(agents, AgentIdOf) && DistinctBy(devices, TargetIdOf) && DistinctBy(vms, TargetIdOf)
    ensures var c := CompareAll(agents, devices, vms, devOrder, vmOrder);
      && DistinctBy(c.deviceMatches, ItemAgentId) && DistinctBy(c.vmMatches, ItemAgentId)
      && AgentIds(c.deviceMatches) !! AgentIds(c.vmMatches)
      && DistinctBy(c.deviceMatches, ItemTargetId) && DistinctBy(c.vmMatches, ItemTargetId)
  {
    var dh := HostnameMatches(agents, devices, devOrder);
    var vh := VmHostnameMatches(agents, devices, vms, vmOrder);
    var usedA, usedD, usedV := AgentIds(dh) + AgentIds(vh), TargetIds(dh), TargetIds(vh);
    var ip := IpPhase3(agents, IpIndex(devices), IpIndex(vms), usedA, usedD, usedV);
    HostnamePhaseDistinct(agents, devices, devOrder);
    VmHostnamePhaseDistinct(agents, devices, vms, vmOrder);
    HostnamePhasesDisjoint(agents, devices, vms, devOrder, vmOrder);
    IpPhase3Distinct(agents, IpIndex(devices), IpIndex(vms), usedA, usedD, usedV);
    DistinctByAppend(dh, ip.devices, ItemAgentId);
    DistinctByAppend(dh, ip.devices, ItemTargetId);
    DistinctByAppend(vh, ip.vms, ItemAgentId);
    DistinctByAppend(vh, ip.vms, ItemTargetId);
    IdSetAppend(dh, ip.devices, ItemAgentId);
    IdSetAppend(vh, ip.vms, ItemAgentId);
  }

  /** Completeness of the three-way summary: with distinct ids, every agent
      is matched with a device, matched with a VM, or unmatched; every device
      and every VM is matched or unmatched. */
  lemma ThreeWayCompleteness(agents: seq<Agent>, devices: seq<Target>, vms: seq<Target>, devOrder: seq<string>, vmOrder: seq<string>)
    requires ValidOrders(agents, devices, vms, devOrder, vmOrder)
    requires DistinctBy(agents, AgentIdOf) && DistinctBy(devices, TargetIdOf) && DistinctBy(vms, TargetIdOf)
    ensures var s := CompareAll(agents, devices, vms, devOrder, vmOrder).summary;
      && s.matchedWithDevices + s.matchedWithVms + s.unmatchedAgents == s.totalAgents
      && s.matchedWithDevices + s.unmatchedDevices == s.totalDevices
      && s.matchedWithVms + s.unmatchedVms == s.totalVms
  {
    var c := CompareAll(agents, devices, vms, devOrder, vmOrder);
    var dev, vm := c.deviceMatches, c.vmMatches;
    ThreeWayAtMostOnce(agents, devices, vms, devOrder, vmOrder);
    DistinctByAppend(dev, vm, ItemAgentId);
    IdSetAppend(dev, vm, ItemAgentId);
    forall m | m in dev + vm ensures ItemAgentId(m) in IdSet(agents, AgentIdOf) {
      assert m.agent in agents;
    }
    forall m | m in dev ensures ItemTargetId(m) in IdSet(devices, TargetIdOf) {
      assert WellFormedMatch(m, agents, devices);
    }
    forall m | m in vm ensures ItemTargetId(m) in IdSet(vms, TargetIdOf) {
      assert WellFormedMatch(m, agents, vms);
    }
    UnconsumedCountBy(agents, AgentIdOf, dev + vm, ItemAgentId);
    UnconsumedCountBy(devices, TargetIdOf, dev, ItemTargetId);
    UnconsumedCountBy(vms, TargetIdOf, vm, ItemTargetId);
  }

  /** Every hostname shared by agents and devices yields a device hostname
      match between the records stored under it. */
  lemma SharedDeviceHostnameMatched(agents: seq<Agent>, devices: seq<Target>, devOrder: seq<string>, h: string)
    requires IsEnumeration(devOrder, HostnameIntersection(agents, devices))
    requires h in HostnameIntersection(agents, devices)
    ensures MakeMatch(h, HostnameMatch, AgentNames(agents)[h], TargetNames(devices)[h]) in HostnameMatches(agents, devices, devOrder)
  {
    var i :| 0 <= i < |devOrder| && devOrder[i] == h;
    assert HostnameMatches(agents, devices, devOrder)[i] == MakeMatch(h, HostnameMatch, AgentNames(agents)[h], TargetNames(devices)[h]);
  }

  /** Devices take priority over VMs: every hostname shared with a device
      yields a device match; a VM hostname match never uses a hostname
      shared with a device; and a VM IP match happens only when the agent's
      IP indexes no device, or a device that is itself matched. */
  lemma DevicePriority(agents: seq<Agent>, devices: seq<Target>, vms: seq<Target>, devOrder: seq<string>, vmOrder: seq<string>)
    requires ValidOrders(agents, devices, vms, devOrder, vmOrder)
    ensures var c := CompareAll(agents, devices, vms, devOrder, vmOrder);
      && (forall h :: h in HostnameIntersection(agents, devices) ==>
            MakeMatch(h, HostnameMatch, AgentNames(agents)[h], TargetNames(devices)[h]) in c.deviceMatches)
      && (forall m :: m in c.vmMatches && m.matchType == HostnameMatch ==>
            m.name !in HostnameIntersection(agents, devices))
      && (forall m :: m in c.vmMatches && m.matchType == IpMatch ==>
            m.agent.ip.Some? && (m.agent.ip.value !in IpIndex(devices)
              || IpIndex(devices)[m.agent.ip.value].id in TargetIds(c.deviceMatches)))
  {
    var c := CompareAll(agents, devices, vms, devOrder, vmOrder);
    var dh := HostnameMatches(agents, devices, devOrder);
    var vh := VmHostnameMatches(agents, devices, vms, vmOrder);
    var usedA, usedD, usedV := AgentIds(dh) + AgentIds(vh), TargetIds(dh), TargetIds(vh);
    var ip := IpPhase3(agents, IpIndex(devices), IpIndex(vms), usedA, usedD, usedV);
    assert c.deviceMatches == dh + ip.devices && c.vmMatches == vh + ip.vms;
    forall h | h in HostnameIntersection(agents, devices)
      ensures MakeMatch(h, HostnameMatch, AgentNames(agents)[h], TargetNames(devices)[h]) in c.deviceMatches
    {
      SharedDeviceHostnameMatched(agents, devices, devOrder, h);
    }
    IpPhase3DevicePriority(agents, IpIndex(devices), IpIndex(vms), usedA, usedD, usedV);
    IdSetAppend(dh, ip.devices, ItemTargetId);
    forall m | m in c.vmMatches
      ensures m.matchType == HostnameMatch ==> m.name !in HostnameIntersection(agents, devices)
      ensures m.matchType == IpMatch ==>
        m.agent.ip.Some? && (m.agent.ip.value !in IpIndex(devices)
          || IpIndex(devices)[m.agent.ip.value].id in TargetIds(c.deviceMatches))
    {
      if m in vh {
        assert m.matchType == HostnameMatch;
      } else {
        assert m in ip.vms;
      }
    }
  }

  /** Every hostname the VM loop visits that is not shared with a device
      yields a VM hostname match. */
  lemma {:induction false} VmHostnamePhaseComplete(order: seq<string>, an: map<string, Agent>, vn: map<string, Target>, deviceNames: set<string>)
    requires forall i :: 0 <= i < |order| ==> order[i] in an && order[i] in vn
    ensures forall i :: 0 <= i < |order| && order[i] !in deviceNames ==>
      MakeMatch(order[i], HostnameMatch, an[order[i]], vn[order[i]]) in VmHostnamePhase(order, an, vn, deviceNames)
    decreases |order|
  {
    if |order| > 0 {
      var tail := order[1..];
      VmHostnamePhaseComplete(tail, an, vn, deviceNames);
      var r := VmHostnamePhase(order, an, vn, deviceNames);
      var rest := VmHostnamePhase(tail, an, vn, deviceNames);
      var head := if order[0] in deviceNames then [] else [MakeMatch(order[0], HostnameMatch, an[order[0]], vn[order[0]])];
      assert r == head + rest;
      forall i | 0 < i < |order| && order[i] !in deviceNames
        ensures MakeMatch(order[i], HostnameMatch, an[order[i]], vn[order[i]]) in r
      {
        assert order[i] == tail[i - 1];
      }
    }
  }

  /** The names of a list of matches. */
  function MatchNames(items: seq<MatchItem>): (r: seq<string>)
    ensures |r| == |items| && forall i :: 0 <= i < |r| ==> r[i] == items[i].name
  {
    seq(|items|, i requires 0 <= i < |items| => items[i].name)
  }

  /** The VM hostname phase makes exactly one match per hostname shared by
      agents and VMs but not by agents and devices. */
  lemma VmHostnameCount(agents: seq<Agent>, devices: seq<Target>, vms: seq<Target>, vmOrder: seq<string>)
    requires IsEnumeration(vmOrder, HostnameIntersection(agents, vms))
    ensures |VmHostnameMatches(agents, devices, vms, vmOrder)|
            == |HostnameIntersection(agents, vms) - HostnameIntersection(agents, devices)|
  {
    var S := HostnameIntersection(agents, vms) - HostnameIntersection(agents, devices);
    var an, vn := AgentNames(agents), TargetNames(vms);
    var vh := VmHostnameMatches(agents, devices, vms, vmOrder);
    var names := MatchNames(vh);
    VmHostnamePhaseComplete(vmOrder, an, vn, HostnameIntersection(agents, devices));
    forall i | 0 <= i < |names| ensures names[i] in S {
      assert vh[i] in vh;
    }
    forall x | x in S ensures x in names {
      var i :| 0 <= i < |vmOrder| && vmOrder[i] == x;
      var m := MakeMatch(x, HostnameMatch, an[x], vn[x]);
      var j :| 0 <= j < |vh| && vh[j] == m;
      assert names[j] == x;
    }
    EnumerationLength(names, S);
  }

  /** The VM hostname phase emits the same set of matches in every visiting
      order of the shared hostnames. */
  lemma VmHostnameSameMembers(agents: seq<Agent>, devices: seq<Target>, vms: seq<Target>, o1: seq<string>, o2: seq<string>)
    requires IsEnumeration(o1, HostnameIntersection(agents, vms))
    requires IsEnumeration(o2, HostnameIntersection(agents, vms))
    ensures forall m :: m in VmHostnameMatches(agents, devices, vms, o1) ==> m in VmHostnameMatches(agents, devices, vms, o2)
  {
    var an, vn := AgentNames(agents), TargetNames(vms);
    VmHostnamePhaseComplete(o2, an, vn, HostnameIntersection(agents, devices));
    forall m | m in VmHostnameMatches(agents, devices, vms, o1) ensures m in VmHostnameMatches(agents, devices, vms, o2) {
      var i :| 0 <= i < |o1| && o1[i] == m.name;
      var j :| 0 <= j < |o2| && o2[j] == m.name;
    }
  }

  /** The hostname phases in two visiting orders consume the same agents,
      devices and VMs and emit the same number of matches. */
  lemma HostnamePhasesSameIds(agents: seq<Agent>, devices: seq<Target>, vms: seq<Target>,
                              d1: seq<string>, v1: seq<string>, d2: seq<string>, v2: seq<string>)
    requires ValidOrders(agents, devices, vms, d1, v1) && ValidOrders(agents, devices, vms, d2, v2)
    ensures var dh1, dh2 := HostnameMatches(agents, devices, d1), HostnameMatches(agents, devices, d2);
      var vh1, vh2 := VmHostnameMatches(agents, devices, vms, v1), VmHostnameMatches(agents, devices, vms, v2);
      && (forall m :: m in dh1 <==> m in dh2) && (forall m :: m in vh1 <==> m in vh2)
      && |dh1| == |dh2| && |vh1| == |vh2|
      && AgentIds(dh1) == AgentIds(dh2) && TargetIds(dh1) == TargetIds(dh2)
      && AgentIds(vh1) == AgentIds(vh2) && TargetIds(vh1) == TargetIds(vh2)
  {
    var dh1, dh2 := HostnameMatches(agents, devices, d1), HostnameMatches(agents, devices, d2);
    var vh1, vh2 := VmHostnameMatches(agents, devices, vms, v1), VmHostnameMatches(agents, devices, vms, v2);
    var S := HostnameIntersection(agents, devices);
    EnumerationLength(d1, S);
    EnumerationLength(d2, S);
    VmHostnameCount(agents, devices, vms, v1);
    VmHostnameCount(agents, devices, vms, v2);
    HostnamePhaseSameMembers(agents, devices, d1, d2);
    HostnamePhaseSameMembers(agents, devices, d2, d1);
    VmHostnameSameMembers(agents, devices, vms, v1, v2);
    VmHostnameSameMembers(agents, devices, vms, v2, v1);
    SameMembersSameIds(dh1, dh2, ItemAgentId);
    SameMembersSameIds(dh1, dh2, ItemTargetId);
    SameMembersSameIds(vh1, vh2, ItemAgentId);
    SameMembersSameIds(vh1, vh2, ItemTargetId);
  }

  /** Lists with the same members, extended by the same tail, consume the
      same agent and target ids. */
  lemma SameTailSameIds(h1: seq<MatchItem>, h2: seq<MatchItem>, tail: seq<MatchItem>)
    requires forall m :: m in h1 <==> m in h2
    ensures forall m :: m in h1 + tail <==> m in h2 + tail
    ensures AgentIds(h1 + tail) == AgentIds(h2 + tail) && TargetIds(h1 + tail) == TargetIds(h2 + tail)
  {
    assert forall m :: m in h1 + tail <==> m in h2 + tail;
    SameMembersSameIds(h1 + tail, h2 + tail, ItemAgentId);
    SameMembersSameIds(h1 + tail, h2 + tail, ItemTargetId);
  }

  /** Whatever order the two sets of shared hostnames are visited in, the
      three-way comparison produces the same device matches and the same
      VM matches (possibly listed in a different order), the same unmatched
      lists and the same summary. */
  lemma ThreeWayOrderIndependent(agents: seq<Agent>, devices: seq<Target>, vms: seq<Target>,
                                 d1: seq<string>, v1: seq<string>, d2: seq<string>, v2: seq<string>)
    requires ValidOrders(agents, devices, vms, d1, v1) && ValidOrders(agents, devices, vms, d2, v2)
    ensures var c1 := CompareAll(agents, devices, vms, d1, v1);
      var c2 := CompareAll(agents, devices, vms, d2, v2);
      && (forall m :: m in c1.deviceMatches <==> m in c2.deviceMatches)
      && (forall m :: m in c1.vmMatches <==> m in c2.vmMatches)
      && c1.summary == c2.summary
      && c1.unmatchedAgents == c2.unmatchedAgents
      && c1.unmatchedDevices == c2.unmatchedDevices
      && c1.unmatchedVms == c2.unmatchedVms
  {
    var dh1, dh2 := HostnameMatches(agents, devices, d1), HostnameMatches(agents, devices, d2);
    var vh1, vh2 := VmHostnameMatches(agents, devices, vms, v1), VmHostnameMatches(agents, devices, vms, v2);
    HostnamePhasesSameIds(agents, devices, vms, d1, v1, d2, v2);
    ThreeWayIpSame(agents, devices, vms, d1, v1, d2, v2);
    var ip := ThreeWayIp(agents, devices, vms, d1, v1);
    SameTailSameIds(dh1, dh2, ip.devices);
    SameTailSameIds(vh1, vh2, ip.vms);
    UnmatchedFromIds(agents, devices, vms, d1, v1);
    UnmatchedFromIds(agents, devices, vms, d2, v2);
  }

  /** The three-way IP loop starts from the ids the hostname phases
      consumed, which do not depend on the visiting orders. */
  lemma ThreeWayIpSame(agents: seq<Agent>, devices: seq<Target>, vms: seq<Target>,
                       d1: seq<string>, v1: seq<string>, d2: seq<string>, v2: seq<string>)
    requires ValidOrders(agents, devices, vms, d1, v1) && ValidOrders(agents, devices, vms, d2, v2)
    ensures ThreeWayIp(agents, devices, vms, d1, v1) == ThreeWayIp(agents, devices, vms, d2, v2)
  {
    HostnamePhasesSameIds(agents, devices, vms, d1, v1, d2, v2);
  }

  /** The unmatched lists of the three-way comparison keep the input order:
      each is the input filtered by "id not consumed by a match". */
  lemma CompareAllKeepsOrder(agents: seq<Agent>, devices: seq<Target>, vms: seq<Target>, devOrder: seq<string>, vmOrder: seq<string>)
    requires ValidOrders(agents, devices, vms, devOrder, vmOrder)
    ensures var c := CompareAll(agents, devices, vms, devOrder, vmOrder);
      && IsSubsequence(c.unmatchedAgents, agents)
      && IsSubsequence(c.unmatchedDevices, devices) && IsSubsequence(c.unmatchedVms, vms)
      && c.unmatchedAgents == Filter(agents, NotConsumed(AgentIdOf, AgentIds(c.deviceMatches) + AgentIds(c.vmMatches)))
      && c.unmatchedDevices == Filter(devices, NotConsumed(TargetIdOf, TargetIds(c.deviceMatches)))
      && c.unmatchedVms == Filter(vms, NotConsumed(TargetIdOf, TargetIds(c.vmMatches)))
  {
    UnmatchedFromIds(agents, devices, vms, devOrder, vmOrder);
  }

  /** The unmatched lists of the three-way comparison are the records whose
      ids the matches did not consume, in input order. */
  lemma UnmatchedFromIds(agents: seq<Agent>, devices: seq<Target>, vms: seq<Target>, devOrder: seq<string>, vmOrder: seq<string>)
    requires ValidOrders(agents, devices, vms, devOrder, vmOrder)
    ensures var c := CompareAll(agents, devices, vms, devOrder, vmOrder);
      && c.unmatchedAgents == Unconsumed(agents, AgentIdOf, AgentIds(c.deviceMatches) + AgentIds(c.vmMatches))
      && c.unmatchedDevices == Unconsumed(devices, TargetIdOf, TargetIds(c.deviceMatches))
      && c.unmatchedVms == Unconsumed(vms, TargetIdOf, TargetIds(c.vmMatches))
  {
  }
}
