/** The lookup tables built at the start of every comparison
    (services/comparison_service.py): hostname -> record dictionaries built by
    dict comprehensions, and the primary-IP -> target index built by a loop.
    Both are "last writer wins": a later record with the same key replaces
    an earlier one. */
module Indexing {
  import opened Wrappers
  import opened Records
  import opened Addressing

  /** `{key(e): e for e in es if key(e)}` — or the equivalent loop — over a
      list, where `key` returns `None` for records that are skipped. */
  function LastWins<E>(es: seq<E>, key: E -> Option<string>): (m: map<string, E>)
    ensures forall k :: k in m ==> key(m[k]) == Some(k) && m[k] in es
    ensures forall i :: 0 <= i < |es| && key(es[i]).Some? ==> key(es[i]).value in m
    decreases |es|
  {
    if |es| == 0 then map[]
    else
      var m := LastWins(es[..|es| - 1], key);
      var e := es[|es| - 1];
      assert forall x :: x in es[..|es| - 1] ==> x in es;
      if key(e).Some? then m[key(e).value := e] else m
  }

  /** The record stored under a key is the last one in the list that has it. */
  lemma {:induction false} LastWinsIsLast<E>(es: seq<E>, key: E -> Option<string>, i: nat)
    requires i < |es| && key(es[i]).Some?
    requires forall j :: i < j < |es| ==> key(es[j]) != key(es[i])
    ensures LastWins(es, key)[key(es[i]).value] == es[i]
    decreases |es|
  {
    if i < |es| - 1 {
      var prefix := es[..|es| - 1];
      assert prefix[i] == es[i];
      LastWinsIsLast(prefix, key, i);
    }
  }

  /** Hostname key of an agent: present only for agents with a non-empty name. */
  function AgentHostKey(a: Agent): Option<string> {
    if Truthy(a.name) then Some(ExtractHostname(a.name)) else None
  }

  /** Hostname key of a device or VM: present only for a non-empty name. */
  function TargetHostKey(t: Target): Option<string> {
    if Truthy(t.name) then Some(ExtractHostname(t.name)) else None
  }

  /** `agent_names` (services/comparison_service.py:195): every key is the
      hostname of the named agent stored under it, and every named agent's
      hostname is a key. */
  function AgentNames(agents: seq<Agent>): (m: map<string, Agent>)
    ensures forall h :: h in m ==> m[h] in agents && Truthy(m[h].name) && ExtractHostname(m[h].name) == h
    ensures forall a :: a in agents && Truthy(a.name) ==> ExtractHostname(a.name) in m
  {
    var m := LastWins(agents, AgentHostKey);
    forall a | a in agents && Truthy(a.name) ensures ExtractHostname(a.name) in m {
      var i :| 0 <= i < |agents| && agents[i] == a;
      assert AgentHostKey(agents[i]).Some?;
    }
    m
  }

  /** `device_names` / `vm_names` (services/comparison_service.py:196), with
      the same key property. */
  function TargetNames(targets: seq<Target>): (m: map<string, Target>)
    ensures forall h :: h in m ==> m[h] in targets && Truthy(m[h].name) && ExtractHostname(m[h].name) == h
    ensures forall t :: t in targets && Truthy(t.name) ==> ExtractHostname(t.name) in m
  {
    var m := LastWins(targets, TargetHostKey);
    forall t | t in targets && Truthy(t.name) ensures ExtractHostname(t.name) in m {
      var i :| 0 <= i < |targets| && targets[i] == t;
      assert TargetHostKey(targets[i]).Some?;
    }
    m
  }

  /** `device_ips` / `vm_ips` (services/comparison_service.py:199-204): every
      key is a non-empty address without a prefix length and is the
      primary IP of the target stored under it; every target with such a
      primary IP has its address indexed. */
  function IpIndex(targets: seq<Target>): (m: map<string, Target>)
    ensures forall k :: k in m ==> m[k] in targets && k != "" && '/' !in k && GetPrimaryIp(m[k]) == Some(k)
    ensures forall t :: t in targets && Truthy(GetPrimaryIp(t)) ==> GetPrimaryIp(t).value in m
  {
    var m := LastWins(targets, IpKey);
    forall t | t in targets && Truthy(GetPrimaryIp(t)) ensures GetPrimaryIp(t).value in m {
      var i :| 0 <= i < |targets| && targets[i] == t;
      assert IpKey(targets[i]).Some?;
    }
    m
  }
}
