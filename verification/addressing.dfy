/** Hostname normalisation and IP-address extraction for the records being
    reconciled (`_extract_hostname`, `_get_primary_ip` and the interface part
    of `_get_all_ips` in services/comparison_service.py). */
module Addressing {
  import opened Wrappers
  import opened Text
  import opened Seqs
  import opened Records

  /** `_extract_hostname`: the lower-cased text before the first `.`; the
      empty string when the name is absent or empty. */
  function ExtractHostname(name: Option<string>): (r: string)
    ensures !Truthy(name) ==> r == ""
    ensures '.' !in r
    ensures forall i :: 0 <= i < |r| ==> !IsUpper(r[i])
    ensures Truthy(name) ==>
      && |r| <= |name.value|
      && (|r| == |name.value| || name.value[|r|] == '.')
      && forall i :: 0 <= i < |r| ==> r[i] == LowerChar(name.value[i])
  {
    if !Truthy(name) then ""
    else
      var first := BeforeFirst(name.value, '.');
      LowerKeepsNonLetter(first, '.'); LowerProperties(first);
      Lower(first)
  }

  /** Normalising a hostname again changes nothing. */
  lemma ExtractHostnameIdempotent(name: Option<string>)
    ensures ExtractHostname(Some(ExtractHostname(name))) == ExtractHostname(name)
  {
    var h := ExtractHostname(name);
    if h != "" {
      BeforeFirstUnique(h, '.', h);
      LowerProperties(h);
      assert Lower(h) == h;
    }
  }

  /** A fully qualified name and its first first (in any letter case) give
      the same hostname: `web01.corp.com` and `WEB01` both become `web01`. */
  lemma HostnameIgnoresDomain(first: string, domain: string)
    requires '.' !in first && first != ""
    ensures ExtractHostname(Some(first + "." + domain)) == Lower(first)
    ensures ExtractHostname(Some(first)) == Lower(first)
  {
    var full := first + "." + domain;
    BeforeFirstUnique(full, '.', first);
    BeforeFirstUnique(first, '.', first);
  }

  /** The only guard on names is that they are non-empty, so a name that
      starts with a dot has the empty hostname, which still takes part in
      hostname matching. */
  lemma LeadingDotGivesEmptyHostname(rest: string)
    ensures ExtractHostname(Some("." + rest)) == ""
  {
    BeforeFirstUnique("." + rest, '.', "");
  }

  /** `address.split('/')[0]`: the address without its prefix length. */
  function StripPrefixLength(address: string): (r: string)
    ensures '/' !in r
    ensures r <= address
    ensures |r| == |address| || address[|r|] == '/'
  {
    BeforeFirst(address, '/')
  }

  /** `_get_primary_ip`: the `primary_ip` object wins over `primary_ip4`; the
      address of the chosen one, up to its first `/`; `None` when neither
      object is present. */
  function GetPrimaryIp(t: Target): (r: Option<string>)
    ensures r.None? <==> t.primaryIp.None? && t.primaryIp4.None?
    ensures r.Some? ==>
      var chosen := if t.primaryIp.Some? then t.primaryIp.value else t.primaryIp4.value;
      && '/' !in r.value
      && r.value <= chosen
      && (|r.value| == |chosen| || chosen[|r.value|] == '/')
  {
    if t.primaryIp.Some? then Some(StripPrefixLength(t.primaryIp.value))
    else if t.primaryIp4.Some? then Some(StripPrefixLength(t.primaryIp4.value))
    else None
  }

  /** The key under which a target enters an IP index: its primary IP when
      that is present and non-empty. */
  function IpKey(t: Target): (r: Option<string>)
    ensures r.Some? ==> r == GetPrimaryIp(t) && r.value != "" && '/' !in r.value
    ensures r.None? ==> !Truthy(GetPrimaryIp(t))
  {
    if Truthy(GetPrimaryIp(t)) then GetPrimaryIp(t) else None
  }

  /** The prefix-stripped, non-empty-before-stripping addresses of a list of
      IP records, in order and with repetitions. */
  function RecordAddresses(recs: seq<IpRecord>): seq<string>
  {
    if |recs| == 0 then []
    else (if Truthy(recs[0].address) then [StripPrefixLength(recs[0].address.value)] else [])
         + RecordAddresses(recs[1..])
  }

  /** All the addresses found on a list of interfaces, in order. */
  function InterfaceAddresses(ifaces: seq<Interface>): seq<string>
  {
    if |ifaces| == 0 then []
    else RecordAddresses(ifaces[0].ipAddresses.GetOr([])) + InterfaceAddresses(ifaces[1..])
  }

  /** The inner loop of `_get_all_ips`: append each record's stripped address
      unless it is already listed. */
  function AddRecordAddresses(ips: seq<string>, recs: seq<IpRecord>): (r: seq<string>)
    ensures ips <= r
    ensures NoDuplicates(ips) ==> NoDuplicates(r)
    ensures forall x :: x in r <==> x in ips || x in RecordAddresses(recs)
    decreases |recs|
  {
    if |recs| == 0 then ips
    else
      var next :=
        if Truthy(recs[0].address) && StripPrefixLength(recs[0].address.value) !in ips
        then ips + [StripPrefixLength(recs[0].address.value)]
        else ips;
      AddRecordAddresses(next, recs[1..])
  }

  /** The outer loop of `_get_all_ips`, over the interfaces. */
  function AddInterfaceAddresses(ips: seq<string>, ifaces: seq<Interface>): (r: seq<string>)
    ensures ips <= r
    ensures NoDuplicates(ips) ==> NoDuplicates(r)
    ensures forall x :: x in r <==> x in ips || x in InterfaceAddresses(ifaces)
    decreases |ifaces|
  {
    if |ifaces| == 0 then ips
    else AddInterfaceAddresses(AddRecordAddresses(ips, ifaces[0].ipAddresses.GetOr([])), ifaces[1..])
  }

  /** `_get_all_ips` without the remote fallback: the primary IP first when it
      is non-empty, then every interface address not already listed. The
      result has no repetitions and holds exactly those addresses. */
  function GetAllIps(t: Target): (r: seq<string>)
    ensures NoDuplicates(r)
    ensures Truthy(GetPrimaryIp(t)) ==> |r| > 0 && r[0] == GetPrimaryIp(t).value
    ensures forall x :: x in r <==>
      (Truthy(GetPrimaryIp(t)) && x == GetPrimaryIp(t).value)
      || x in InterfaceAddresses(t.interfaces.GetOr([]))
  {
    var primary := GetPrimaryIp(t);
    var start := if Truthy(primary) then [primary.value] else [];
    AddInterfaceAddresses(start, t.interfaces.GetOr([]))
  }

  /** The inner loop is the append-if-absent loop over the records'
      addresses. */
  lemma {:induction false} AddRecordAddressesLoop(ips: seq<string>, recs: seq<IpRecord>)
    ensures AddRecordAddresses(ips, recs) == AppendNew(ips, RecordAddresses(recs))
    decreases |recs|
  {
    if |recs| > 0 {
      var rest := RecordAddresses(recs[1..]);
      if Truthy(recs[0].address) {
        var x := StripPrefixLength(recs[0].address.value);
        assert RecordAddresses(recs) == [x] + rest;
        assert ([x] + rest)[1..] == rest;
        AddRecordAddressesLoop(if x in ips then ips else ips + [x], recs[1..]);
      } else {
        assert RecordAddresses(recs) == [] + rest == rest;
        AddRecordAddressesLoop(ips, recs[1..]);
      }
    }
  }

  /** The outer loop is the append-if-absent loop over all interface
      addresses in order. */
  lemma {:induction false} AddInterfaceAddressesLoop(ips: seq<string>, ifaces: seq<Interface>)
    ensures AddInterfaceAddresses(ips, ifaces) == AppendNew(ips, InterfaceAddresses(ifaces))
    decreases |ifaces|
  {
    if |ifaces| > 0 {
      var recs := ifaces[0].ipAddresses.GetOr([]);
      AddRecordAddressesLoop(ips, recs);
      AddInterfaceAddressesLoop(AddRecordAddresses(ips, recs), ifaces[1..]);
      AppendNewAppend(ips, RecordAddresses(recs), InterfaceAddresses(ifaces[1..]));
    }
  }

  /** `_get_all_ips` lists the first occurrence of every address, in order
      of first occurrence, of the primary IP (when non-empty) followed by the
      interface addresses. */
  lemma GetAllIpsFirstOccurrence(t: Target)
    ensures GetAllIps(t) == Dedup((if Truthy(GetPrimaryIp(t)) then [GetPrimaryIp(t).value] else [])
                                  + InterfaceAddresses(t.interfaces.GetOr([])))
  {
    var start := if Truthy(GetPrimaryIp(t)) then [GetPrimaryIp(t).value] else [];
    AddInterfaceAddressesLoop(start, t.interfaces.GetOr([]));
    AppendNewIsDedup(start, InterfaceAddresses(t.interfaces.GetOr([])));
  }

  /** No address listed by `_get_all_ips` carries a prefix length. */
  lemma AllIpsAreStripped(t: Target)
    ensures forall x :: x in GetAllIps(t) ==> '/' !in x
  {
    forall x | x in GetAllIps(t) ensures '/' !in x {
      if x !in InterfaceAddresses(t.interfaces.GetOr([])) {
        assert x == GetPrimaryIp(t).value;
      } else {
        InterfaceAddressesStripped(t.interfaces.GetOr([]), x);
      }
    }
  }

  lemma {:induction false} InterfaceAddressesStripped(ifaces: seq<Interface>, x: string)
    requires x in InterfaceAddresses(ifaces)
    ensures '/' !in x
  {
    var recs := ifaces[0].ipAddresses.GetOr([]);
    if x in RecordAddresses(recs) {
      RecordAddressesStripped(recs, x);
    } else {
      InterfaceAddressesStripped(ifaces[1..], x);
    }
  }

  lemma {:induction false} RecordAddressesStripped(recs: seq<IpRecord>, x: string)
    requires x in RecordAddresses(recs)
    ensures '/' !in x
  {
    if !(Truthy(recs[0].address) && x == StripPrefixLength(recs[0].address.value)) {
      RecordAddressesStripped(recs[1..], x);
    }
  }
}
