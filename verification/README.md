# netbox-nessus reconciliation core in Dafny

This project models the reconciliation engine of netbox-nessus, a tool that
pairs Nessus scanner agents with the devices and virtual machines recorded
in Netbox. It also proves properties of that model. The engine works as
follows:

- It normalises names to hostnames and primary IPs to bare addresses.
- It builds hostname and IP lookup tables.
- It matches agents to one Netbox collection in two phases: shared
  hostnames first, then the agent's IP.
- In comprehensive mode it matches against devices and VMs together, and
  devices take priority.
- It derives the summary and `details` statistics of each comparison.

The project also models the smaller pure pieces around the engine:

- the interface/IP join done after fetching devices or VMs;
- the inventory and agent statistics, and the agent filters;
- the snapshot envelope and its unwrapping;
- the file-name and list helpers;
- the IP cell of the HTML report.

Records are typed datatypes with `Option` fields rather than dictionaries
(`records.dfy`). Each nested Netbox object (`status`, `site`, `platform`,
`device_type`, `cluster`, `primary_ip`, `primary_ip4`, an interface owner)
is represented by the one field of it the engine reads.

The hostname phase iterates over a Python set. The model therefore takes
the visiting order as a parameter `order`, which must enumerate the set of
shared hostnames. Lemmas show that the result does not depend on that
order. The IP phase walks the agents in list order, and that order does
matter (`Scenarios.IpPhaseOrderMatters`). Percentages are exact rationals
(`real`).

Modules, one per file:

| module | models |
|---|---|
| `Wrappers`, `Seqs`, `Text` | `Option`, list filtering, the Python `str` operations used |
| `Records` | agents, IP records, interfaces, devices/VMs |
| `Addressing` | `_extract_hostname`, `_get_primary_ip`, `_get_all_ips` |
| `Indexing` | the hostname and IP lookup tables (last writer wins) |
| `Partition` | consumed-id sets and the unmatched lists |
| `Matching` | `compare_agents_with_devices` / `compare_agents_with_vms` (one algorithm) |
| `Comprehensive` | `comprehensive_comparison` |
| `ComparisonStats` | `_generate_comparison_details`, `_generate_comprehensive_details` |
| `Snapshot` | `_load_cached_data` after decoding, `create_output_data`, cache-or-fetch |
| `InterfaceJoin` | the interface/IP join in `fetch_all_devices` / `fetch_all_virtual_machines` |
| `Tally`, `InventoryStats` | `get_device_statistics`, `get_vm_statistics`, `get_agent_statistics`, agent filters |
| `Helpers` | `sanitize_filename`, `ensure_file_extension`, `merge_data_sources`, `filter_data` |
| `IpFormat` | `_format_ip_comparison` |
| `Scenarios` | concrete runs that pin down quirks of the code as written |

Where the code and the design description disagree, the model follows the
code:

- `_get_primary_ip` prefers `primary_ip` over `primary_ip4`. The design
  description prefers the IPv4 field.
- The only guard on names is that they are non-empty. A name such as `.x`
  therefore has the empty hostname, and that hostname still takes part in
  matching (`Scenarios.EmptyHostnamesMatch`). The design description
  excludes empty hostnames.
- The IP index covers every target, not only the unconsumed ones. An IP
  match is refused only when the indexed target is already consumed.
- `_get_all_ips` tests an interface address for emptiness before removing
  the prefix length. An address `/24` therefore contributes the empty
  string.

## Model

| member | source | states |
|---|---|---|
| Text.BeforeFirst | services/comparison_service.py:45 | `split(c)[0]`: the result has no `c`, is a prefix of the input, and stops at the first `c` or the end |
| Text.BeforeFirstUnique | services/comparison_service.py:45 | those three properties determine `split(c)[0]` completely |
| Text.LowerProperties | services/comparison_service.py:45 | `lower()` leaves no upper-case letter, changes exactly the upper-case letters, and is idempotent |
| Text.Strip | utils/helpers.py:125 | `strip(chars)` is the slice of the input that follows its leading run of `chars`; everything after the slice is in `chars` too, the slice neither starts nor ends with one of `chars`, and it is empty exactly when every character of the input is in `chars` |
| Text.StripNothing | utils/helpers.py:125 | a string with nothing to strip at either end is returned unchanged |
| Addressing.ExtractHostname | services/comparison_service.py:32-45 | `""` for an absent or empty name; otherwise the lower-cased text up to the first `.`, which holds no `.` and no upper-case letter |
| Addressing.ExtractHostnameIdempotent | services/comparison_service.py:42-45 | normalising a hostname again changes nothing |
| Addressing.HostnameIgnoresDomain | services/comparison_service.py:42-45 | `web01.corp.com` and `WEB01` give the same hostname |
| Addressing.LeadingDotGivesEmptyHostname | services/comparison_service.py:42-45 | any name starting with `.` normalises to the empty hostname |
| Addressing.StripPrefixLength | services/comparison_service.py:60 | `address.split('/')[0]` has no `/` and is the address up to its first `/` |
| Addressing.GetPrimaryIp | services/comparison_service.py:47-66 | `None` exactly when both IP objects are absent; otherwise the address of `primary_ip` when present, else of `primary_ip4`, cut at the first `/` |
| Addressing.IpKey | services/comparison_service.py:199-204 | a target enters the IP index exactly when its primary IP is present and non-empty, under that address |
| Addressing.AddRecordAddressesLoop | services/comparison_service.py:941-948 | the inner loop's result is the list followed by the records' stripped addresses with repetitions dropped, each kept at its first occurrence |
| Addressing.AddInterfaceAddressesLoop | services/comparison_service.py:937-948 | the same over all interfaces, in interface order |
| Addressing.GetAllIpsFirstOccurrence | services/comparison_service.py:928-948 | `_get_all_ips` is the non-empty primary IP followed by the interface addresses, in order, with every repetition after the first dropped |
| Seqs.AppendNewIsDedup | services/comparison_service.py:946-947 | appending each item not yet present, starting from a list without repetitions, gives the concatenation with later repetitions dropped |
| Addressing.AddRecordAddresses | services/comparison_service.py:941-948 | the inner loop only appends, never introduces a repetition, and yields exactly the old entries plus the records' stripped addresses |
| Addressing.AddInterfaceAddresses | services/comparison_service.py:937-948 | the same, over all interfaces |
| Addressing.GetAllIps | services/comparison_service.py:929-948 | no repetitions; the non-empty primary IP comes first; exactly the primary IP and the interface addresses |
| Addressing.AllIpsAreStripped | services/comparison_service.py:929-948 | no listed address carries a prefix length |
| Indexing.LastWins | services/comparison_service.py:195-204 | every key maps to a record of the list carrying that key, and every keyed record's key is present |
| Indexing.LastWinsIsLast | services/comparison_service.py:195-204 | the record stored under a key is the last one in the list with that key |
| Indexing.AgentNames | services/comparison_service.py:195 | every key is the normalised hostname of the named agent stored under it, and every agent with a non-empty name has its hostname as a key |
| Indexing.TargetNames | services/comparison_service.py:196 | the same key property for the device or VM name index |
| Indexing.IpIndex | services/comparison_service.py:199-204 | every key is a non-empty address without a prefix length and is the primary IP of the target stored under it; every target with a non-empty stripped primary IP has its address indexed |
| Matching.StatusMatches | services/comparison_service.py:235 | the status flag holds only for an online agent and an active target; a missing status on either side is a mismatch |
| Matching.PlatformMatches | services/comparison_service.py:236 | the platform flag holds exactly when the agent reports a platform and the target has the same one; a target without a platform never matches |
| Matching.HostnamePhase | services/comparison_service.py:207-242 | one hostname match per visited shared name, in visiting order, pairing the agent and the target stored under that name with their status and platform flags |
| Matching.IpPhase | services/comparison_service.py:244-280 | every IP pair is an unconsumed agent whose verbatim IP indexes the paired target, which was unconsumed; no agent or target is used twice |
| Matching.IpPhaseComplete | services/comparison_service.py:244-280 | no IP match is missed: an agent left unconsumed whose IP is indexed finds the indexed target consumed, before or by the loop |
| Matching.CompareIpComplete | services/comparison_service.py:244-308 | an unmatched agent whose IP is a key of the IP index finds the target stored under it among the matched targets |
| Matching.MatchesWellFormed | services/comparison_service.py:211-280 | every match pairs an input agent with an input target and carries that target's primary IP, full IP list, and the status and platform flags |
| Partition.Unconsumed | services/comparison_service.py:283-308 | the unmatched list is the input filtered to the records whose id was not consumed: a subsequence of the input holding exactly those records |
| Matching.Compare | services/comparison_service.py:167-320 | matches are hostname matches then IP matches; each unmatched list is the input filtered to the records no match consumed, hence a subsequence in input order; the summary counts the lists |
| Matching.HostnamePhaseDistinct | services/comparison_service.py:207-240 | with distinct input ids, the hostname phase never pairs an agent or a target twice |
| Matching.CompareAtMostOnce | services/comparison_service.py:207-280 | with distinct input ids, each agent id and each target id occurs in at most one match |
| Matching.CompareCompleteness | services/comparison_service.py:283-308 | with distinct ids, `matched + unmatched_agents == total_agents` and `matched + unmatched_devices == total_devices` |
| Matching.HostnameBeforeIp | services/comparison_service.py:207-247 | every shared hostname yields a hostname match between the records stored under it, and neither record takes part in an IP match |
| Matching.IpMatchCharacterised | services/comparison_service.py:244-250 | an IP match uses the agent's IP verbatim: a non-empty, prefix-free key of the index over all targets, paired with the target stored under it |
| Matching.HostnamePhaseSameMembers | services/comparison_service.py:207-211 | the hostname phase produces the same matches in any visiting order of the shared hostnames |
| Matching.CompareOrderIndependent | services/comparison_service.py:207-211 | the whole comparison yields the same matches, unmatched lists and summary in any visiting order |
| Comprehensive.VmHostnamePhase | services/comparison_service.py:676-712 | every VM hostname match uses a shared agent/VM hostname that is not shared with a device, pairing the records stored under it; names are distinct |
| Comprehensive.VmHostnamePhaseComplete | services/comparison_service.py:676-712 | every visited hostname not shared with a device yields a VM hostname match |
| Comprehensive.VmHostnameCount | services/comparison_service.py:676-712 | the VM hostname phase makes one match per hostname shared with VMs but not with devices |
| Comprehensive.IpPhase3 | services/comparison_service.py:714-788 | every device IP pair and every VM IP pair is an unconsumed agent whose verbatim IP indexes the unconsumed target |
| Comprehensive.IpPhase3Complete | services/comparison_service.py:714-788 | no IP match is missed: an agent left unconsumed with a non-empty IP finds the device and the VM indexed under that IP consumed, before or by the loop |
| Comprehensive.ThreeWayIpComplete | services/comparison_service.py:714-793 | an unmatched agent whose IP is a key of the device (VM) IP index finds the device (VM) stored under it among the matched devices (VMs) |
| Comprehensive.IpPhase3Distinct | services/comparison_service.py:714-788 | the three-way IP loop uses no agent twice across both lists, and no device or VM twice |
| Comprehensive.IpPhase3DevicePriority | services/comparison_service.py:718-754 | an agent is paired with a VM by IP only when its IP indexes no device or a device already consumed |
| Comprehensive.CompareAll | services/comparison_service.py:582-843 | device and VM matches are hostname matches then IP matches; the unmatched lists are exactly the unconsumed records in input order; the summary counts the lists |
| Comprehensive.CompareAllKeepsOrder | services/comparison_service.py:790-831 | each of the three unmatched lists is its input filtered to the records whose id no match consumed, hence a subsequence in input order |
| Comprehensive.WellFormedParts | services/comparison_service.py:640-788 | every device or VM match pairs input records and carries the derived IPs and flags |
| Comprehensive.VmHostnamePhaseDistinct | services/comparison_service.py:676-712 | with distinct ids, the VM hostname phase pairs no agent or VM twice |
| Comprehensive.HostnamePhasesDisjoint | services/comparison_service.py:640-712 | the device and VM hostname phases never pair the same agent |
| Comprehensive.ThreeWayAtMostOnce | services/comparison_service.py:640-788 | with distinct ids, an agent appears in at most one of `device_matches` and `vm_matches`, and at most once there; no device or VM is matched twice |
| Comprehensive.ThreeWayCompleteness | services/comparison_service.py:790-831 | with distinct ids, device matches + VM matches + unmatched agents = total agents, and likewise for devices and for VMs |
| Comprehensive.SharedDeviceHostnameMatched | services/comparison_service.py:641-673 | every hostname shared by agents and devices yields a device hostname match |
| Comprehensive.DevicePriority | services/comparison_service.py:676-754 | shared device hostnames always become device matches; a VM hostname match never uses one; a VM IP match happens only when no unconsumed device holds the IP |
| Comprehensive.VmHostnameSameMembers | services/comparison_service.py:676-678 | the VM hostname phase produces the same matches in any visiting order |
| Comprehensive.ThreeWayOrderIndependent | services/comparison_service.py:641-678 | the three-way comparison yields the same matches, unmatched lists and summary in any visiting orders of both hostname sets |
| ComparisonStats.TallyFlag | services/comparison_service.py:510-519 | the matches count the items with the flag set, and matches + mismatches = number of items |
| ComparisonStats.Coverage | services/comparison_service.py:522-533 | 0 when the total is 0, otherwise `matched / total * 100`; within [0, 100] when matched ≤ total; 100 exactly when all are matched |
| ComparisonStats.Details | services/comparison_service.py:484-535 | status and platform matches count the matched items with the flag set and add up with the mismatches to all matched items; the agent and device coverages are `matched / total * 100` for their side, 0 for an empty side |
| ComparisonStats.CoverageBounded | services/comparison_service.py:522-533 | with distinct ids both coverages lie in [0, 100] and reach 100 exactly when nothing on that side is unmatched |
| ComparisonStats.ComprehensiveDetailsOf | services/comparison_service.py:845-917 | `total_netbox_items = total_devices + total_vms`; the coverage percentage is `total_matched / total_netbox_items * 100`, 0 when there is nothing; `hostname_matches` and `ip_matches` count the matches of each kind and add up to all device and VM matches; status and platform matches count the matches with the flag set |
| ComparisonStats.MatchTypeCounts | services/comparison_service.py:883-905 | the hostname count is what the two hostname phases made, and the IP count what the IP phase made |
| ComparisonStats.ComprehensiveCoverageBounded | services/comparison_service.py:876-881 | with distinct ids, coverage lies in [0, 100] and reaches 100 exactly when no device or VM is unmatched |
| Snapshot.Objects | services/comparison_service.py:99-108 | the dict-only filter keeps exactly the objects of the list, in order |
| Snapshot.ObjectsOfDicts | services/comparison_service.py:99-108 | a list of objects loses nothing to the filter |
| Snapshot.LoadCached | services/comparison_service.py:93-107 | an object with a list under `data` gives that list's objects; a bare list gives its objects; anything else gives `None` |
| Snapshot.CreateOutputData | utils/helpers.py:72-88 | the envelope has exactly the four keys, keeps `data` unchanged, and `total_count` is its length |
| Snapshot.EnvelopeRoundTrip | services/comparison_service.py:93-107 | loading an envelope written by the tool, or a bare list of objects, gives back the written list |
| Snapshot.CacheOrFetch | services/comparison_service.py:113-130 | a loaded non-empty cache is used as is; otherwise the fetched list's objects are used |
| Snapshot.EmptyCacheIsMiss | services/comparison_service.py:122 | an empty cached list behaves exactly like a missing cache |
| Snapshot.SnapshotPreferred | services/comparison_service.py:113-130 | a non-empty snapshot written by the tool is used and the service is not consulted |
| InterfaceJoin.GroupBy | services/netbox_service.py:89-106 | each group is exactly the input elements with that key, in order; only keys that occur get a group |
| InterfaceJoin.Join | services/netbox_service.py:89-121 | every device keeps its other fields and gets exactly the interfaces it owns, in order, each with exactly the IP records assigned to it, in order (the VM join at services/netbox_service.py:339-371 is `Kind.VirtualMachines`) |
| InterfaceJoin.AttachMatchesExpected | services/netbox_service.py:108-119 | attaching through the two group maps equals the filter-based reference join |
| InterfaceJoin.JoinOwnership | services/netbox_service.py:89-112 | every attached interface has a truthy owner id equal to the device's id, and every interface the device owns is attached |
| InterfaceJoin.JoinAttachesOnlyAssignedIps | services/netbox_service.py:99-119 | an interface gets exactly the IP records with the right type tag and a truthy assigned id equal to its id; the VM join never attaches a `dcim.interface` record |
| InterfaceJoin.UnownedGetsEmptyList | services/netbox_service.py:109-121 | a device that owns no interface gets `interfaces == []` |
| Tally.Bump | services/netbox_service.py:294 | `d[k] = d.get(k, 0) + 1` raises `k`'s count by one, changes no other count, keeps labels distinct |
| Tally.TallyOf | services/netbox_service.py:287-309 | a histogram has one entry per distinct label, each counting that label's occurrences, and the counts sum to the number of labels |
| InventoryStats.Present | services/netbox_service.py:287-289 | the loop counts exactly the non-skipped entries, in order: one record per present entry |
| InventoryStats.TallyCountsBuckets | services/netbox_service.py:291-309 | every histogram counts each bucket's records, sums to the number counted, and has an `unknown` entry when a field is missing |
| InventoryStats.DeviceStatistics | services/netbox_service.py:266-311 | `{}` exactly for an empty list; `total_devices` is the list length; each histogram counts the present devices per bucket, with missing objects under `unknown` |
| InventoryStats.VmStatistics | services/netbox_service.py:416-461 | the same for VMs, with `by_cluster` |
| InventoryStats.DeviceHistogramsAddUp | services/netbox_service.py:279-309 | with no skipped entry, each device histogram sums to `total_devices` |
| InventoryStats.AgentStatistics | services/nessus_service.py:118-151 | `{}` exactly for an empty list; `total_agents` is the length; each histogram counts every agent once per bucket and sums to the total |
| InventoryStats.MissingStatusIsUnknown | services/nessus_service.py:140-141 | an agent without a status is counted under `unknown` |
| InventoryStats.AgentsByStatus | services/nessus_service.py:89 | keeps exactly the agents with that status, in order |
| InventoryStats.AgentsByPlatform | services/nessus_service.py:102 | keeps exactly the agents with that platform, in order |
| InventoryStats.StatusFilterMatchesHistogram | services/nessus_service.py:88-141 | for a status other than `unknown`, the status filter keeps as many agents as the histogram counts for it |
| Helpers.ReplaceEach | utils/helpers.py:120-122 | each invalid character becomes `_`, every other character is kept |
| Helpers.SanitizeFilename | utils/helpers.py:109-131 | the result is non-empty, holds none of `<>:"/\|?*`, and neither starts nor ends with `.` or a space; it is `output` when the name is made only of dots and spaces (the empty name included), and otherwise the replaced name stripped of dots and spaces at both ends |
| Helpers.SanitizeKeepsSafeNames | utils/helpers.py:119-131 | a non-empty safe name without a dot or space at either end is left unchanged |
| Helpers.SanitizeIdempotent | utils/helpers.py:119-131 | sanitizing twice is the same as once |
| Helpers.DottedExtension | utils/helpers.py:145-146 | an extension starting with `.` is kept as it is; any other gains a leading `.` |
| Helpers.EnsureFileExtension | utils/helpers.py:134-151 | the result ends with the dotted extension; it is the input when that already ends with it, and the input plus the extension otherwise |
| Helpers.EnsureFileExtensionIdempotent | utils/helpers.py:148-151 | ensuring the extension twice is the same as once |
| Helpers.MergeDataSources | utils/helpers.py:154-168 | the result is the concatenation of the sources in argument order |
| Helpers.ItemMatches | utils/helpers.py:186-191 | the field loop accepts an item exactly when it has every filter field with an equal value |
| Helpers.FilterData | utils/helpers.py:171-195 | the input unchanged without filters; otherwise exactly the items passing every filter, in order |
| IpFormat.ExtraIps | utils/html_reporter.py:60-64 | the extra IPs differ from the stripped Netbox IP, come from the list in order, and exist only when the list has several entries |
| IpFormat.ExtraIpsComplete | utils/html_reporter.py:72-76 | every listed IP other than the stripped Netbox IP is among the extras |
| IpFormat.WithExtras | utils/html_reporter.py:60-76 | the head and the extra IPs as netbox-only spans, joined by `<br>`; just the head when there are no extras |
| IpFormat.FormatIpComparison | utils/html_reporter.py:25-78 | `N/A` when both are empty; netbox-only spans when the Nessus IP is empty; one nessus-only span when the Netbox IP is empty; otherwise one match span or two mismatch spans joined by ` / `, followed by the extra IPs as netbox-only spans, each after a `<br>` |
| IpFormat.PrefixLengthIgnored | utils/html_reporter.py:51-55 | when both IPs are present, adding a prefix length to either gives the same cell |
| Scenarios.EmptyHostnamesMatch | services/comparison_service.py:195-196 | agent `.x` and device `.y` are paired as a hostname match under the empty name |
| Scenarios.LaterNameWins | services/comparison_service.py:196 | with devices `web` and `WEB.corp`, agent `web` is paired with the later one and the earlier one stays unmatched |
| Scenarios.AgentIpNotStripped | services/comparison_service.py:246-248 | an agent reporting `10.0.0.5/24` is not paired with a device whose primary IP is `10.0.0.5/24` |
| Scenarios.IpPhaseOrderMatters | services/comparison_service.py:244-250 | two agents with a device's IP: whichever comes first in the list takes the device |

## Left out

- HTTP clients, pagination and every other network call. The fetched lists
  and the service fallback are parameters (`Snapshot.CacheOrFetch` takes
  the fetched list).
- File reads and writes, the JSON text encoding, and `create_output_data_dict`.
  Only the unwrap of an already-decoded value and the envelope are modelled.
- The clock. `create_output_data`'s timestamp is a parameter.
- Float arithmetic and `round(..., 2)` for coverage, which is modelled as an
  exact rational.
- The `_get_all_ips` fallback through `get_ips_for_vm` / `get_ips_for_device`.
  It is a remote call, made whenever the interface list is absent or
  empty. After the interface/IP join that is every device or VM that owns
  no interface (`InterfaceJoin.UnownedGetsEmptyList`). For those records
  `Addressing.GetAllIps` returns only the primary IP, where the source
  would also list the addresses the API returns.
- Progress bars, spinners and printing.
- The field-by-field projections (`nessus_agent`, `netbox_device`,
  `netbox_vm`, the unmatched-item dictionaries). A match keeps the whole
  records instead. VM fields the engine only copies (`vcpus`, `memory`,
  `disk`) are not in the record type.
- Conversion of raw dictionaries to typed records, and malformed nested
  values (a key present with `null`, a nested object without the field).
  These are assumed absent or well-formed.
- Matching.CompareCompleteness: the source also skips falsy (`{}`) records
  in its loops while counting them in the totals. The model has no empty
  record, so its completeness identities assume every entry is a real
  record.
- Comprehensive.ThreeWayCompleteness: the same assumption about empty
  records as above.
- Helpers.FilterData: filter values and item values are compared with
  the model's equality on `Json`, which keeps booleans apart from numbers
  and has integer numbers only. Python's `True == 1` and `1 == 1.0` are
  therefore not modelled.
- Helpers.ItemMatches: the same equality as `Helpers.FilterData`.
- Helpers.MatchesFilters: the same equality; a `Json` value is a null, a
  boolean, an integer, a string, a list or an object, and values of
  different kinds are never equal.
- Matching.PlatformMatches: a Netbox platform object without a `name` is
  represented as no platform, so the flag is false. The source compares
  the agent's platform with `None` in that case, which is true for an
  agent without a platform.
- Text.Lower: lower-cases ASCII letters only. Python's `lower()` also maps
  other Unicode letters.
- `sync_nessus_agents_to_devices`, the HTML report generators, the
  interactive menu and configuration loading.
