/** The IP cell of the HTML comparison report (`_format_ip_comparison` in
    utils/html_reporter.py): the Nessus IP and the Netbox primary IP compared
    after removing any prefix length, with the entity's other Netbox IPs
    listed after them. */
module IpFormat {
  import opened Wrappers
  import opened Seqs
  import opened Text
  import opened Addressing

  /** The CSS classes the cell uses. */
  datatype SpanClass = NetboxOnly | NessusOnly | Matching | Mismatch

  function ClassName(c: SpanClass): string {
    match c
    case NetboxOnly => "ip-netbox-only"
    case NessusOnly => "ip-nessus-only"
    case Matching => "ip-match"
    case Mismatch => "ip-mismatch"
  }

  /** `<span class="...">ip</span>`. */
  function Span(c: SpanClass, ip: string): string {
    "<span class=\"" + ClassName(c) + "\">" + ip + "</span>"
  }

  /** One span of class `c` per address, in order. */
  function Spans(c: SpanClass, ips: seq<string>): (r: seq<string>)
    ensures |r| == |ips|
    ensures forall i :: 0 <= i < |ips| ==> r[i] == Span(c, ips[i])
  {
    seq(|ips|, i requires 0 <= i < |ips| => Span(c, ips[i]))
  }

  /** The list is present and has more than one entry. */
  predicate SeveralIps(allIps: Option<seq<string>>) {
    allIps.Some? && |allIps.value| > 1
  }

  /** The additional Netbox IPs shown after the comparison: when there are
      several, every one that differs from the stripped primary, in order. */
  function ExtraIps(allIps: Option<seq<string>>, netboxClean: string): (r: seq<string>)
    ensures forall x :: x in r ==> x != netboxClean
    ensures SeveralIps(allIps) ==> IsSubsequence(r, allIps.value)
    ensures !SeveralIps(allIps) ==> r == []
  {
    if SeveralIps(allIps) then
      FilterIsSubsequence(allIps.value, ip => ip != netboxClean);
      Filter(allIps.value, ip => ip != netboxClean)
    else []
  }

  /** Every other Netbox IP is listed: an entry of a list of several is
      among the extras exactly when it differs from the stripped primary. */
  lemma ExtraIpsComplete(allIps: Option<seq<string>>, netboxClean: string)
    requires SeveralIps(allIps)
    ensures forall x :: x in ExtraIps(allIps, netboxClean) <==> x in allIps.value && x != netboxClean
  {
    forall x | x in allIps.value && x != netboxClean ensures x in ExtraIps(allIps, netboxClean) {
      FilterKeeps(allIps.value, ip => ip != netboxClean, x);
    }
  }

  /** `head`, followed by the extra IPs as netbox-only spans, each after a
      `<br>`: the `<br>`-join of `head` and those spans. */
  function WithExtras(head: string, extras: seq<string>): (r: string)
    ensures StartsWith(r, head)
    ensures |extras| == 0 ==> r == head
    ensures r == Join([head] + Spans(NetboxOnly, extras), "<br>")
  {
    if |extras| == 0 then head
    else
      var spans := Spans(NetboxOnly, extras);
      var r := head + "<br>" + Join(spans, "<br>");
      assert r[..|head|] == head;
      assert ([head] + spans)[1..] == spans;
      r
  }

  /** `_format_ip_comparison`. `N/A` when both IPs are empty; the Netbox
      side alone (every IP when there are several) when the Nessus IP is
      empty; the raw Nessus IP alone when the Netbox IP is empty. Otherwise
      both are stripped of their prefix length and the cell starts with one
      match span when they agree and with two mismatch spans separated by
      ` / ` when they differ, followed by the extra IPs. */
  function FormatIpComparison(nessusIp: Option<string>, netboxIp: Option<string>, allIps: Option<seq<string>>): (r: string)
    ensures !Truthy(nessusIp) && !Truthy(netboxIp) ==> r == "N/A"
    ensures !Truthy(nessusIp) && Truthy(netboxIp) ==>
      r == if SeveralIps(allIps) then Join(Spans(NetboxOnly, allIps.value), "<br>") else Span(NetboxOnly, netboxIp.value)
    ensures Truthy(nessusIp) && !Truthy(netboxIp) ==> r == Span(NessusOnly, nessusIp.value)
    ensures Truthy(nessusIp) && Truthy(netboxIp) ==>
      var a := StripPrefixLength(nessusIp.value);
      var b := StripPrefixLength(netboxIp.value);
      && (a == b ==> StartsWith(r, Span(Matching, a)))
      && (a != b ==> StartsWith(r, Span(Mismatch, a) + " / " + Span(Mismatch, b)))
      && (!SeveralIps(allIps) ==> r == if a == b then Span(Matching, a) else Span(Mismatch, a) + " / " + Span(Mismatch, b))
      && r == WithExtras(if a == b then Span(Matching, a) else Span(Mismatch, a) + " / " + Span(Mismatch, b),
                         ExtraIps(allIps, b))
  {
    if !Truthy(nessusIp) && !Truthy(netboxIp) then "N/A"
    else if !Truthy(nessusIp) then
      if SeveralIps(allIps) then Join(Spans(NetboxOnly, allIps.value), "<br>")
      else Span(NetboxOnly, netboxIp.value)
    else if !Truthy(netboxIp) then Span(NessusOnly, nessusIp.value)
    else
      var nessusClean := StripPrefixLength(nessusIp.value);
      var netboxClean := StripPrefixLength(netboxIp.value);
      var head :=
        if nessusClean == netboxClean then Span(Matching, nessusClean)
        else Span(Mismatch, nessusClean) + " / " + Span(Mismatch, netboxClean);
      WithExtras(head, ExtraIps(allIps, netboxClean))
  }

  /** Only the address part matters when both IPs are present: adding a
      prefix length to either one gives the same cell. */
  lemma PrefixLengthIgnored(nessus: string, netbox: string, p: string, q: string, allIps: Option<seq<string>>)
    requires nessus != "" && netbox != "" && '/' !in nessus && '/' !in netbox
    ensures FormatIpComparison(Some(nessus + "/" + p), Some(netbox + "/" + q), allIps)
         == FormatIpComparison(Some(nessus), Some(netbox), allIps)
  {
    BeforeFirstUnique(nessus + "/" + p, '/', nessus);
    BeforeFirstUnique(nessus, '/', nessus);
    BeforeFirstUnique(netbox + "/" + q, '/', netbox);
    BeforeFirstUnique(netbox, '/', netbox);
  }
}
