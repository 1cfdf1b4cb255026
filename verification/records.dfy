/** The records the reconciliation engine works on, as typed datatypes.

    The source keeps every record as a JSON dictionary. A field that may be
    missing is an `Option`. A nested Netbox object (`status`, `site`,
    `cluster`, `platform`, `device_type`, `primary_ip`, `primary_ip4`, or the
    owner reference of an interface) is represented by the one field of it
    the engine reads (`value`, `name`, `model`, `address` or `id`): `None`
    means the object is absent, `Some(v)` that it is present with that field. */
module Records {
  import opened Wrappers

  /** A Nessus scanner agent. */
  datatype Agent = Agent(
    id: int,
    name: Option<string>,
    status: Option<string>,
    platform: Option<string>,
    version: Option<string>,
    lastConnect: Option<string>,
    ip: Option<string>)

  /** A Netbox IP-address record: `address`, `assigned_object_type`,
      `assigned_object_id`. */
  datatype IpRecord = IpRecord(
    address: Option<string>,
    assignedObjectType: Option<string>,
    assignedObjectId: Option<int>)

  /** A Netbox interface. A device interface carries its owner in `device.id`,
      a VM interface in `virtual_machine.id`; `ipAddresses` is absent until
      the interface/IP join attaches a list. */
  datatype Interface = Interface(
    id: Option<int>,
    name: Option<string>,
    device: Option<int>,
    virtualMachine: Option<int>,
    ipAddresses: Option<seq<IpRecord>>)

  /** A Netbox device or virtual machine: the targets agents are matched
      against. `status` is `status.value`, `site`/`cluster`/`platform` are the
      objects' `name`, `deviceType` is `device_type.model`, and the two
      primary-IP fields are the objects' `address`. `interfaces` is absent
      until the interface/IP join attaches a list. */
  datatype Target = Target(
    id: int,
    name: Option<string>,
    status: Option<string>,
    site: Option<string>,
    cluster: Option<string>,
    platform: Option<string>,
    deviceType: Option<string>,
    primaryIp: Option<string>,
    primaryIp4: Option<string>,
    interfaces: Option<seq<Interface>>)

  /** Record identifiers, as functions for the generic partition lemmas. */
  function AgentIdOf(a: Agent): int { a.id }

  function TargetIdOf(t: Target): int { t.id }
}
