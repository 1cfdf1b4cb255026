/** Concrete runs of the two-phase comparison that pin down the quirks of
    services/comparison_service.py as written: the weak guard on names, the
    last-writer-wins indexes, the verbatim agent IP, and the dependence of
    the IP phase on agent order. */
module Scenarios {
  import opened Wrappers
  import opened Text
  import opened Seqs
  import opened Records
  import opened Addressing
  import opened Indexing
  import opened Partition
  import opened Matching

  /** An agent with only a name and an IP. */
  function NamedAgent(id: int, name: Option<string>, ip: Option<string>): Agent {
    Agent(id, name, None, None, None, None, ip)
  }

  /** A device or VM with only a name and a `primary_ip` address. */
  function NamedTarget(id: int, name: Option<string>, primary: Option<string>): Target {
    Target(id, name, None, None, None, None, None, primary, None, None)
  }

  /** Names `.x` and `.y` pass the only guard (a non-empty name) and both
      normalise to the empty hostname, so the agent and the target are paired
      as a hostname match under the name "". */
  lemma EmptyHostnamesMatch()
    ensures var a := NamedAgent(1, Some(".x"), None);
      var t := NamedTarget(2, Some(".y"), None);
      && HostnameIntersection([a], [t]) == {""}
      && Compare([a], [t], [""]).matchedItems == [MakeMatch("", HostnameMatch, a, t)]
  {
    var a := NamedAgent(1, Some(".x"), None);
    var t := NamedTarget(2, Some(".y"), None);
    LeadingDotGivesEmptyHostname("x");
    LeadingDotGivesEmptyHostname("y");
    assert ".x" == "." + "x" && ".y" == "." + "y";
    assert AgentNames([a]) == map["" := a];
    assert TargetNames([t]) == map["" := t];
    assert IpIndex([t]) == map[];
  }

  /** Two devices named `web` and `WEB.corp`: the name index keeps the later
      one, so the agent `web` is paired with device 3 and device 2 is left
      unmatched. */
  lemma LaterNameWins()
    ensures var a := NamedAgent(1, Some("web"), None);
      var d2 := NamedTarget(2, Some("web"), None);
      var d3 := NamedTarget(3, Some("WEB.corp"), None);
      && HostnameIntersection([a], [d2, d3]) == {"web"}
      && Compare([a], [d2, d3], ["web"]).matchedItems == [MakeMatch("web", HostnameMatch, a, d3)]
      && d2 in Compare([a], [d2, d3], ["web"]).unmatchedTargets
  {
    var a := NamedAgent(1, Some("web"), None);
    var d2 := NamedTarget(2, Some("web"), None);
    var d3 := NamedTarget(3, Some("WEB.corp"), None);
    WebPhases();
    var m := MakeMatch("web", HostnameMatch, a, d3);
    var c := Compare([a], [d2, d3], ["web"]);
    SingleMatchIds(m);
    assert d2 in [d2, d3];
  }

  /** Both phases of the run above: one hostname match, no IP match. */
  lemma WebPhases()
    ensures var a := NamedAgent(1, Some("web"), None);
      var d2 := NamedTarget(2, Some("web"), None);
      var d3 := NamedTarget(3, Some("WEB.corp"), None);
      && HostnameIntersection([a], [d2, d3]) == {"web"}
      && HostnameMatches([a], [d2, d3], ["web"]) == [MakeMatch("web", HostnameMatch, a, d3)]
      && IpMatches([a], [d2, d3], ["web"]) == []
  {
    WebIndexes();
  }

  /** The ids consumed by a single match. */
  lemma SingleMatchIds(m: MatchItem)
    ensures AgentIds([m]) == {m.agent.id} && TargetIds([m]) == {m.target.id}
  {
    assert ItemAgentId(m) == m.agent.id && ItemTargetId(m) == m.target.id;
    assert forall x :: x in [m] ==> x == m;
  }

  /** The three indexes of the run above. */
  lemma WebIndexes()
    ensures var a := NamedAgent(1, Some("web"), None);
      var d2 := NamedTarget(2, Some("web"), None);
      var d3 := NamedTarget(3, Some("WEB.corp"), None);
      && AgentNames([a]) == map["web" := a]
      && TargetNames([d2, d3]) == map["web" := d3]
      && IpIndex([d2, d3]) == map[]
  {
    WebAgentIndex(NamedAgent(1, Some("web"), None));
    WebTargetIndex(NamedTarget(2, Some("web"), None), NamedTarget(3, Some("WEB.corp"), None));
  }

  /** An agent named `web` is indexed under `web`. */
  lemma WebAgentIndex(a: Agent)
    requires a.name == Some("web")
    ensures AgentNames([a]) == map["web" := a]
  {
    WebHostnames();
  }

  /** `web` and `WEB.corp` share the key `web`, which keeps the later
      device; neither has an IP to index. */
  lemma WebTargetIndex(d2: Target, d3: Target)
    requires d2.name == Some("web") && d3.name == Some("WEB.corp")
    requires d2.primaryIp.None? && d2.primaryIp4.None? && d3.primaryIp.None? && d3.primaryIp4.None?
    ensures TargetNames([d2, d3]) == map["web" := d3]
    ensures IpIndex([d2, d3]) == map[]
  {
    WebHostnames();
    assert TargetHostKey(d2) == Some("web") && TargetHostKey(d3) == Some("web");
    assert [d2, d3][..1] == [d2];
  }

  /** `web` and `WEB.corp` both normalise to `web`. */
  lemma WebHostnames()
    ensures ExtractHostname(Some("web")) == "web"
    ensures ExtractHostname(Some("WEB.corp")) == "web"
  {
    HostnameIgnoresDomain("web", "");
    HostnameIgnoresDomain("WEB", "corp");
    assert "WEB.corp" == "WEB" + "." + "corp";
    assert Lower("WEB") == "web";
    assert Lower("web") == "web";
  }

  /** The agent's IP is compared verbatim while the target's is stripped of
      its prefix length: an agent reporting `10.0.0.5/24` is not paired with
      a device whose primary IP is `10.0.0.5/24`. */
  lemma AgentIpNotStripped()
    ensures var a := NamedAgent(1, None, Some("10.0.0.5/24"));
      var t := NamedTarget(2, None, Some("10.0.0.5/24"));
      && HostnameIntersection([a], [t]) == {}
      && Compare([a], [t], []).matchedItems == []
  {
    var a := NamedAgent(1, None, Some("10.0.0.5/24"));
    var t := NamedTarget(2, None, Some("10.0.0.5/24"));
    assert AgentNames([a]) == map[];
    var ip := GetPrimaryIp(t).value;
    assert '/' !in ip;
    assert "10.0.0.5/24"[8] == '/';
    assert IpIndex([t]).Keys == {ip};
  }

  /** Two agents report the same IP as one device. The IP phase walks the
      agents in list order and the first one takes the device, so swapping
      the agents swaps which one is matched. */
  lemma IpPhaseOrderMatters()
    ensures var a1 := NamedAgent(1, None, Some("10.0.0.5"));
      var a2 := NamedAgent(2, None, Some("10.0.0.5"));
      var t := NamedTarget(9, None, Some("10.0.0.5/24"));
      && HostnameIntersection([a1, a2], [t]) == {}
      && HostnameIntersection([a2, a1], [t]) == {}
      && Compare([a1, a2], [t], []).matchedItems == [MakeMatch("", IpMatch, a1, t)]
      && Compare([a2, a1], [t], []).matchedItems == [MakeMatch("", IpMatch, a2, t)]
      && Compare([a1, a2], [t], []).unmatchedAgents == [a2]
      && Compare([a2, a1], [t], []).unmatchedAgents == [a1]
  {
    var a1 := NamedAgent(1, None, Some("10.0.0.5"));
    var a2 := NamedAgent(2, None, Some("10.0.0.5"));
    var t := NamedTarget(9, None, Some("10.0.0.5/24"));
    FirstAgentTakesTarget(a1, a2, t);
    FirstAgentTakesTarget(a2, a1, t);
  }

  /** One run of the scenario above, with the agents in the given order. */
  lemma FirstAgentTakesTarget(first: Agent, second: Agent, t: Target)
    requires first.name.None? && second.name.None?
    requires first.ip == second.ip == Some("10.0.0.5") && first.id != second.id
    requires t == NamedTarget(9, None, Some("10.0.0.5/24"))
    ensures HostnameIntersection([first, second], [t]) == {}
    ensures Compare([first, second], [t], []).matchedItems == [MakeMatch("", IpMatch, first, t)]
    ensures Compare([first, second], [t], []).unmatchedAgents == [second]
  {
    SharedIpPhases(first, second, t);
    var m := MakeMatch("", IpMatch, first, t);
    SingleMatchIds(m);
    SecondAgentLeftOver(first, second);
  }

  /** Once the first agent's id is consumed, only the second is left over. */
  lemma SecondAgentLeftOver(first: Agent, second: Agent)
    requires first.id != second.id
    ensures Unconsumed([first, second], AgentIdOf, {first.id}) == [second]
  {
    assert [first, second][1..] == [second];
    assert [second][1..] == [];
  }

  /** Both phases of the run above: no hostname match, then the first agent
      takes the target by IP and the second finds it consumed. */
  lemma SharedIpPhases(first: Agent, second: Agent, t: Target)
    requires first.name.None? && second.name.None?
    requires first.ip == second.ip == Some("10.0.0.5") && first.id != second.id
    requires t == NamedTarget(9, None, Some("10.0.0.5/24"))
    ensures HostnameIntersection([first, second], [t]) == {}
    ensures HostnameMatches([first, second], [t], []) == []
    ensures IpMatches([first, second], [t], []) == [MakeMatch("", IpMatch, first, t)]
  {
    SharedIpIndex(t);
    NamelessAgents(first, second);
    assert HostnameMatches([first, second], [t], []) == [];
    assert AgentIds([]) == {} && TargetIds([]) == {};
    SharedIpLoop(first, second, t);
  }

  /** Agents without names contribute no hostname key. */
  lemma NamelessAgents(first: Agent, second: Agent)
    requires first.name.None? && second.name.None?
    ensures AgentNames([first, second]) == map[]
  {
    assert [first, second][..1] == [first];
  }

  /** The IP loop over the two agents against the one-entry index. */
  lemma SharedIpLoop(first: Agent, second: Agent, t: Target)
    requires first.name.None?
    requires first.ip == second.ip == Some("10.0.0.5") && first.id != second.id
    requires t.id == 9
    ensures IpPhase([first, second], map["10.0.0.5" := t], {}, {}) == [MakeMatch("", IpMatch, first, t)]
  {
    var index := map["10.0.0.5" := t];
    assert IpCandidate(first, index, {}, {});
    assert [first, second][1..] == [second];
    assert index[first.ip.value] == t;
    assert ExtractHostname(first.name) == "";
    assert {} + {first.id} == {first.id} && {} + {t.id} == {9};
    SecondFindsTargetTaken(second, index, first.id);
  }

  /** The second agent finds the target's id already consumed. */
  lemma SecondFindsTargetTaken(second: Agent, index: map<string, Target>, firstId: int)
    requires second.ip == Some("10.0.0.5") && "10.0.0.5" in index && index["10.0.0.5"].id == 9
    ensures IpPhase([second], index, {firstId}, {9}) == []
  {
    assert !IpCandidate(second, index, {firstId}, {9});
    assert [second][1..] == [];
  }

  /** The IP index of the single target `10.0.0.5/24`. */
  lemma SharedIpIndex(t: Target)
    requires t == NamedTarget(9, None, Some("10.0.0.5/24"))
    ensures IpIndex([t]) == map["10.0.0.5" := t]
  {
    StripExample();
    assert IpKey(t) == Some("10.0.0.5");
  }

  /** `10.0.0.5/24` loses its prefix length. */
  lemma StripExample()
    ensures BeforeFirst("10.0.0.5/24", '/') == "10.0.0.5"
  {
    assert "10.0.0.5/24"[8] == '/';
    BeforeFirstUnique("10.0.0.5/24", '/', "10.0.0.5");
  }
}
