/**
  The two services together: what the registry stores for the registration inputs the controller sends,
  and the registry's state after the controller's unregister-then-register exchange.
 */
module EndToEnd {
  import opened Wrappers
  import opened Sequences
  import BridgeTypes
  import GraphQL
  import Handlers
  import RegistryTypes
  import Registering
  import RegistryStore

  /** The registry capability a snapshot leaf should end up as, given its decoded access. */
  function Expected(c: BridgeTypes.NonLightCapability, access: GraphQL.Access): RegistryTypes.Capability
  {
    var description := Coalesce(c.description, "");
    match c
    case Binary(property, _, _, _, _, _, _) => RegistryTypes.BinaryCapability(property, description, access)
    case Numeric(property, _, _, _, valueMax, valueMin, unit) =>
      RegistryTypes.NumericCapability(property, description, access, Some(valueMax), Some(valueMin), Some(unit))
    case Enum(property, _, _, _, values) => RegistryTypes.EnumCapability(property, description, access, values)
  }

  /** A leaf the controller maps resolves, in the registry, to exactly one capability of the same kind and fields. */
  lemma LeafResolves(c: BridgeTypes.NonLightCapability)
    requires Handlers.MapCapability(c).Success?
    ensures Registering.EntryCapabilities(Registering.Entries(Handlers.MapCapability(c).value))
            == Success([Expected(c, Handlers.MapAccess(c.access).value)])
  {
    var o := Handlers.MapCapability(c).value;
    var entries := Registering.Entries(o);
    var key, fields := c.TypeName(), entries[if c.Binary? then 0 else if c.Numeric? then 1 else 2].1.value;
    assert entries[1..] == [entries[1], entries[2]] && [entries[1], entries[2]][1..] == [entries[2]];
    assert [entries[2]][1..] == [];
    var p2 := Registering.Present([entries[2]]);
    var p1 := Registering.Present([entries[1], entries[2]]);
    assert p2 == (if c.Enum? then [(key, fields)] else []);
    assert p1 == (if c.Numeric? then [(key, fields)] else []) + p2;
    assert Registering.Present(entries) == [(key, fields)];
    assert Registering.MapInputCapability(key, fields) == Success(Expected(c, Handlers.MapAccess(c.access).value));
    var r := Registering.EntryCapabilities(entries);
    assert Registering.KnownKey(key);
    assert r.Success? && |r.value| == 1;
    assert r.value == [r.value[0]];
  }

  /** Mapped leaves resolve one-for-one, in order. */
  lemma {:induction false} LeavesResolve(leaves: seq<BridgeTypes.NonLightCapability>, objs: seq<GraphQL.CapabilityInputObject>)
    requires |objs| == |leaves|
    requires forall i :: 0 <= i < |leaves| ==> Handlers.MapCapability(leaves[i]) == Success(objs[i])
    ensures Registering.ObjectsCapabilities(objs).Success?
    ensures |Registering.ObjectsCapabilities(objs).value| == |leaves|
    ensures forall i :: 0 <= i < |leaves| ==>
              && Handlers.MapAccess(leaves[i].access).Success?
              && Registering.ObjectsCapabilities(objs).value[i] == Expected(leaves[i], Handlers.MapAccess(leaves[i].access).value)
  {
    if leaves != [] {
      LeafResolves(leaves[0]);
      LeavesResolve(leaves[1..], objs[1..]);
      var rest := Registering.ObjectsCapabilities(objs[1..]).value;
      var first := Expected(leaves[0], Handlers.MapAccess(leaves[0].access).value);
      assert Registering.ObjectsCapabilities(objs) == Success([first] + rest);
      forall i | 0 < i < |leaves|
        ensures ([first] + rest)[i] == Expected(leaves[i], Handlers.MapAccess(leaves[i].access).value)
      {
        assert leaves[1..][i - 1] == leaves[i];
      }
    }
  }

  /**
    Every registration input the controller builds for a supported device is accepted by the registry, which
    stores one capability per leaf of the device's exposes (Σ (light ? |features| : 1) in all), each with the
    leaf's kind, property, decoded access, description (empty when absent) and range, unit or values.
   */
  lemma RegistrationResolves(bd: BridgeTypes.BridgeDevice)
    requires bd.Supported()
    requires Handlers.Registration(bd).Success?
    ensures var capabilities := Registering.DeviceCapabilities(Handlers.Registration(bd).value.capabilities);
            && capabilities.Success?
            && |capabilities.value| == Handlers.Width(bd.definition.value.exposes)
            && forall i :: 0 <= i < |capabilities.value| ==>
                 var leaf := Handlers.Leaves(bd.definition.value.exposes)[i];
                 && Handlers.MapAccess(leaf.access).Success?
                 && capabilities.value[i] == Expected(leaf, Handlers.MapAccess(leaf.access).value)
  {
    LeavesResolve(Handlers.Leaves(bd.definition.value.exposes), Handlers.Registration(bd).value.capabilities.value);
  }

  /**
    The registry's side of one `bridge/devices` snapshot: the controller's devices are unregistered, then the
    new registration inputs are registered under fresh ids. Every input resolves, so afterwards the controller
    owns exactly the fresh ids, each holding its resolved device, and outside the fresh ids the store is the
    old one without the controller's devices.
   */
  method Resynchronise(store: RegistryStore.DeviceStore, controller: string,
                       payload: seq<GraphQL.CreateDeviceInputDevice>, ids: seq<string>)
    returns (deletedDeviceIds: seq<string>, r: Result<seq<RegistryTypes.Device>, Registering.RegistryError>)
    requires store.store.Valid() && RegistryStore.KeyedById(store.store.db)
    requires |ids| == |payload|
    requires forall i, j :: 0 <= i < j < |ids| ==> ids[i] != ids[j]
    requires forall id :: id in ids ==> id !in store.store.db
    modifies store.store
    ensures store.store.Valid() && RegistryStore.KeyedById(store.store.db)
    ensures forall id :: id in deletedDeviceIds <==> id in RegistryStore.OwnedBy(old(store.store.db), controller)
    ensures r == Registering.ResolveDevices(payload, controller, ids) && r.Success?
    ensures RegistryStore.OwnedBy(store.store.db, controller) == set id | id in ids
    ensures forall k :: k in old(store.store.db) && old(store.store.db)[k].controller != controller ==>
              k in store.store.db && store.store.db[k] == old(store.store.db)[k]
    ensures store.store.db - (set id | id in ids)
            == old(store.store.db) - RegistryStore.OwnedBy(old(store.store.db), controller)
    ensures forall i :: 0 <= i < |ids| ==> ids[i] in store.store.db && store.store.db[ids[i]] == r.value[i]
  {
    deletedDeviceIds := Registering.UnregisterAllDevicesForController(store, controller);
    ghost var cleared := store.store.db;
    r := Registering.RegisterManyDevices(store, GraphQL.CreateManyDevicesInput(payload, controller), ids);
    Registering.SchemaInputsResolve(payload, controller, ids);
    forall i | 0 <= i < |ids|
      ensures ids[i] in store.store.db && store.store.db[ids[i]] == r.value[i]
      ensures store.store.db[ids[i]].controller == controller
    {
      assert store.store.Lookup(ids[i]) == Some(r.value[i]);
    }
    Reassigned(old(store.store.db), cleared, store.store.db, controller, ids);
  }

  /**
    Clearing a controller's devices and then writing devices of that controller under ids no entry had
    before leaves the controller owning exactly those ids, and every other controller's entries as they were.
   */
  lemma Reassigned(start: map<string, RegistryTypes.Device>, cleared: map<string, RegistryTypes.Device>,
                   final: map<string, RegistryTypes.Device>, controller: string, ids: seq<string>)
    requires cleared == start - RegistryStore.OwnedBy(start, controller)
    requires forall id :: id in ids ==> id !in start
    requires final - (set id | id in ids) == cleared - (set id | id in ids)
    requires forall i :: 0 <= i < |ids| ==> ids[i] in final && final[ids[i]].controller == controller
    ensures RegistryStore.OwnedBy(final, controller) == set id | id in ids
    ensures forall k :: k in start && start[k].controller != controller ==> k in final && final[k] == start[k]
    ensures final - (set id | id in ids) == start - RegistryStore.OwnedBy(start, controller)
  {
    var issued := set id | id in ids;
    forall k | k in final && k !in issued
      ensures final[k].controller != controller
    {
      assert k in final - issued;
    }
    forall k | k in start && start[k].controller != controller
      ensures k in final && final[k] == start[k]
    {
      assert k in cleared - issued;
    }
  }
}
