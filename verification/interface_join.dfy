/** The interface/IP join performed after fetching devices or virtual
    machines (`fetch_all_devices` and `fetch_all_virtual_machines` in
    services/netbox_service.py): interfaces are grouped by owner id, IP
    records by the interface they are assigned to (only records carrying
    the right type tag), and every device or VM receives its interfaces,
    each with its IP records. */
module InterfaceJoin {
  import opened Wrappers
  import opened Seqs
  import opened Records

  /** Which collection is being joined. */
  datatype Kind = Devices | VirtualMachines

  /** The owner reference of an interface: `device.id` for devices,
      `virtual_machine.id` for VMs. */
  function Owner(kind: Kind, i: Interface): Option<int> {
    if kind == Devices then i.device else i.virtualMachine
  }

  /** The `assigned_object_type` of IP records on this kind of interface. */
  function Tag(kind: Kind): string {
    if kind == Devices then "dcim.interface" else "virtualization.vminterface"
  }

  /** Interface `i` belongs to the record with id `id`: its owner id is
      present, non-zero and equal to `id`. */
  predicate OwnedBy(kind: Kind, i: Interface, id: int) {
    TruthyId(Owner(kind, i)) && Owner(kind, i).value == id
  }

  /** IP record `r` is assigned to the interface with id `id`: it carries
      the kind's type tag and a non-zero assigned id equal to `id`. */
  predicate AssignedTo(kind: Kind, r: IpRecord, id: int) {
    r.assignedObjectType == Some(Tag(kind)) && TruthyId(r.assignedObjectId) && r.assignedObjectId.value == id
  }

  /** `e` is grouped under `id`. */
  function HasKey<E>(key: E -> Option<int>, id: int): E -> bool {
    (e: E) => key(e) == Some(id)
  }

  /** Grouping key of an interface: its owner id when truthy. */
  function OwnerKey(kind: Kind): Interface -> Option<int> {
    (i: Interface) => if TruthyId(Owner(kind, i)) then Owner(kind, i) else None
  }

  /** Grouping key of an IP record: its assigned id when the tag matches and
      the id is truthy. */
  function AssignedKey(kind: Kind): IpRecord -> Option<int> {
    (r: IpRecord) => if r.assignedObjectType == Some(Tag(kind)) && TruthyId(r.assignedObjectId) then r.assignedObjectId else None
  }

  lemma FilterSnoc<T>(s: seq<T>, x: T, p: T -> bool)
    ensures Filter(s + [x], p) == Filter(s, p) + (if p(x) then [x] else [])
  {
    FilterAppend(s, [x], p);
    assert [x][1..] == [];
  }

  /** The grouping loops: `groups.setdefault(key, []).append(e)` for every
      element with a key, in list order. Each group is exactly the list's
      elements with that key, in order, and only keys that occur have a
      group. */
  function GroupBy<E>(es: seq<E>, key: E -> Option<int>): (g: map<int, seq<E>>)
    ensures forall id :: id in g ==> g[id] == Filter(es, HasKey(key, id)) && |g[id]| > 0
    ensures forall id :: id !in g ==> Filter(es, HasKey(key, id)) == []
    decreases |es|
  {
    if |es| == 0 then map[]
    else
      var prefix := es[..|es| - 1];
      var e := es[|es| - 1];
      var g := GroupBy(prefix, key);
      assert es == prefix + [e];
      GroupStep(prefix, e, key);
      if key(e).Some? then
        var id := key(e).value;
        g[id := (if id in g then g[id] else []) + [e]]
      else g
  }

  lemma GroupStep<E>(prefix: seq<E>, e: E, key: E -> Option<int>)
    ensures forall id :: Filter(prefix + [e], HasKey(key, id)) == Filter(prefix, HasKey(key, id)) + (if key(e) == Some(id) then [e] else [])
  {
    forall id ensures Filter(prefix + [e], HasKey(key, id)) == Filter(prefix, HasKey(key, id)) + (if key(e) == Some(id) then [e] else []) {
      FilterSnoc(prefix, e, HasKey(key, id));
    }
  }

  /** The reference join: the interfaces owned by `id`, in order, each with
      the IP records assigned to it, in order (none when it has no id). */
  function OwnedInterfaces(kind: Kind, ifaces: seq<Interface>, id: int): seq<Interface> {
    Filter(ifaces, HasKey(OwnerKey(kind), id))
  }

  function AssignedIps(kind: Kind, ips: seq<IpRecord>, i: Interface): seq<IpRecord> {
    if i.id.Some? then Filter(ips, HasKey(AssignedKey(kind), i.id.value)) else []
  }

  function Expected(kind: Kind, ifaces: seq<Interface>, ips: seq<IpRecord>, id: int): (r: seq<Interface>)
  {
    var owned := OwnedInterfaces(kind, ifaces, id);
    seq(|owned|, j requires 0 <= j < |owned| => owned[j].(ipAddresses := Some(AssignedIps(kind, ips, owned[j]))))
  }

  /** The attachment step for one interface: its group of IP records, or
      `[]` when its id has none. */
  function AttachIps(ipGroups: map<int, seq<IpRecord>>, i: Interface): Interface {
    i.(ipAddresses := Some(if i.id.Some? && i.id.value in ipGroups then ipGroups[i.id.value] else []))
  }

  /** The attachment step for one device or VM: its group of interfaces
      (or `[]`), each given its IP records. */
  function AttachInterfaces(ifGroups: map<int, seq<Interface>>, ipGroups: map<int, seq<IpRecord>>, t: Target): Target {
    var owned := if t.id in ifGroups then ifGroups[t.id] else [];
    t.(interfaces := Some(seq(|owned|, j requires 0 <= j < |owned| => AttachIps(ipGroups, owned[j]))))
  }

  /** The whole join. Every record keeps all its other fields and gets an
      interface list: exactly the interfaces it owns, in input order, each
      carrying exactly the IP records assigned to it, in input order. */
  function Join(kind: Kind, targets: seq<Target>, ifaces: seq<Interface>, ips: seq<IpRecord>): (r: seq<Target>)
    ensures |r| == |targets|
    ensures forall k :: 0 <= k < |r| ==> r[k].(interfaces := targets[k].interfaces) == targets[k]
    ensures forall k :: 0 <= k < |r| ==> r[k].interfaces == Some(Expected(kind, ifaces, ips, targets[k].id))
  {
    var ifGroups := GroupBy(ifaces, OwnerKey(kind));
    var ipGroups := GroupBy(ips, AssignedKey(kind));
    AttachMatchesExpected(kind, ifaces, ips);
    seq(|targets|, k requires 0 <= k < |targets| => AttachInterfaces(ifGroups, ipGroups, targets[k]))
  }

  lemma AttachMatchesExpected(kind: Kind, ifaces: seq<Interface>, ips: seq<IpRecord>)
    ensures forall t :: AttachInterfaces(GroupBy(ifaces, OwnerKey(kind)), GroupBy(ips, AssignedKey(kind)), t).interfaces
                        == Some(Expected(kind, ifaces, ips, t.id))
  {
    var ifGroups := GroupBy(ifaces, OwnerKey(kind));
    var ipGroups := GroupBy(ips, AssignedKey(kind));
    forall i: Interface ensures AttachIps(ipGroups, i) == i.(ipAddresses := Some(AssignedIps(kind, ips, i))) {
    }
    forall t: Target ensures AttachInterfaces(ifGroups, ipGroups, t).interfaces == Some(Expected(kind, ifaces, ips, t.id)) {
      var owned := if t.id in ifGroups then ifGroups[t.id] else [];
      assert owned == OwnedInterfaces(kind, ifaces, t.id);
      var got := AttachInterfaces(ifGroups, ipGroups, t).interfaces.value;
      var want := Expected(kind, ifaces, ips, t.id);
      assert |got| == |want|;
      forall j | 0 <= j < |got| ensures got[j] == want[j] {
        assert got[j] == AttachIps(ipGroups, owned[j]);
      }
      assert got == want;
    }
  }

  /** Every attached interface is owned by the record it is attached to (so
      interfaces without an owner id are dropped), and every interface the
      record owns is attached. */
  lemma JoinOwnership(kind: Kind, targets: seq<Target>, ifaces: seq<Interface>, ips: seq<IpRecord>, k: nat)
    requires k < |targets|
    ensures var attached := Join(kind, targets, ifaces, ips)[k].interfaces.value;
      && (forall i :: i in attached ==> OwnedBy(kind, i, targets[k].id))
      && (forall j :: 0 <= j < |ifaces| && OwnedBy(kind, ifaces[j], targets[k].id) ==>
            ifaces[j].(ipAddresses := Some(AssignedIps(kind, ips, ifaces[j]))) in attached)
  {
    var id := targets[k].id;
    var owned := OwnedInterfaces(kind, ifaces, id);
    var attached := Join(kind, targets, ifaces, ips)[k].interfaces.value;
    forall i | i in attached ensures OwnedBy(kind, i, id) {
      var j :| 0 <= j < |attached| && attached[j] == i;
      assert owned[j] in owned;
    }
    forall j | 0 <= j < |ifaces| && OwnedBy(kind, ifaces[j], id)
      ensures ifaces[j].(ipAddresses := Some(AssignedIps(kind, ips, ifaces[j]))) in attached
    {
      FilterKeeps(ifaces, HasKey(OwnerKey(kind), id), ifaces[j]);
      var m :| 0 <= m < |owned| && owned[m] == ifaces[j];
      assert attached[m] == ifaces[j].(ipAddresses := Some(AssignedIps(kind, ips, ifaces[j])));
    }
  }

  /** Every IP record attached to an interface carries the kind's type tag
      and is assigned to that interface's id; every record assigned to it is
      attached. In particular the VM join never attaches a record tagged
      `dcim.interface`. */
  lemma JoinAttachesOnlyAssignedIps(kind: Kind, targets: seq<Target>, ifaces: seq<Interface>, ips: seq<IpRecord>, k: nat, j: nat)
    requires k < |targets|
    requires j < |Join(kind, targets, ifaces, ips)[k].interfaces.value|
    ensures var i := Join(kind, targets, ifaces, ips)[k].interfaces.value[j];
      && i.ipAddresses.Some?
      && (forall r :: r in i.ipAddresses.value ==> i.id.Some? && AssignedTo(kind, r, i.id.value))
      && (forall r :: r in ips && i.id.Some? && AssignedTo(kind, r, i.id.value) ==> r in i.ipAddresses.value)
      && (kind == VirtualMachines ==> forall r :: r in i.ipAddresses.value ==> r.assignedObjectType != Some("dcim.interface"))
  {
    var i := Join(kind, targets, ifaces, ips)[k].interfaces.value[j];
    if i.id.Some? {
      var p := HasKey(AssignedKey(kind), i.id.value);
      forall r | r in ips && AssignedTo(kind, r, i.id.value) ensures r in i.ipAddresses.value {
        FilterKeeps(ips, p, r);
      }
    }
  }

  /** A record that owns no interface gets an empty interface list. */
  lemma UnownedGetsEmptyList(kind: Kind, targets: seq<Target>, ifaces: seq<Interface>, ips: seq<IpRecord>, k: nat)
    requires k < |targets|
    requires forall i :: i in ifaces ==> !OwnedBy(kind, i, targets[k].id)
    ensures Join(kind, targets, ifaces, ips)[k].interfaces == Some([])
  {
    assert forall j :: 0 <= j < |ifaces| ==> ifaces[j] in ifaces;
    FilterNone(ifaces, HasKey(OwnerKey(kind), targets[k].id));
    assert Expected(kind, ifaces, ips, targets[k].id) == [];
  }
}
