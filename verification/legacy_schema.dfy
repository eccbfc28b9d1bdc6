/**
  The registry's first schema: a single `registerDevice` mutation that stores a bare device, with no
  controller and no capabilities, in a `Store` of base devices. The fresh id (`uuid()`) is supplied by the caller.
 */
module LegacySchema {
  import opened Wrappers
  import opened KeyValueStore
  import opened RegistryTypes

  /** `CreateDeviceInputDevice` of this schema: three optional strings and nothing else. */
  datatype DeviceInput = DeviceInput(description: Option<string>, name: Option<string>, powerSource: Option<string>)

  /** The device the resolver builds: the name defaults to the id, and the exposes start empty and of unknown kind. */
  function ResolvedDevice(device: DeviceInput, id: string): (r: BaseDevice)
    ensures r.id == id
    ensures device.name.None? ==> r.name == id
    ensures device.name.Some? ==> r.name == device.name.value
    ensures r.description == device.description && r.powerSource == device.powerSource
    ensures r.exposes.kind == "unknown" && r.exposes.capabilities == []
  {
    BaseDevice(id, Coalesce(device.name, id), device.description, device.powerSource, Exposes("unknown", []))
  }

  /** The `registerDevice` resolver: the device is stored under its own id and returned as stored. */
  method CreateDevice(store: Store<BaseDevice>, device: DeviceInput, id: string) returns (r: BaseDevice)
    requires store.Valid()
    modifies store
    ensures store.Valid()
    ensures r == ResolvedDevice(device, id)
    ensures store.db == old(store.db)[id := r]
    ensures store.Lookup(r.id) == Some(r)
    ensures forall k :: k != id ==> store.Lookup(k) == old(store.Lookup(k))
  {
    r := ResolvedDevice(device, id);
    store.Set(id, r);
  }
}
