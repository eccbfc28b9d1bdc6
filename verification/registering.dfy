/**
  The registry's registration resolvers: inputs get their defaults and a fresh id, capability inputs
  become tagged capabilities, and the results are written to the device store.
  Fresh ids (`uuid()`) are supplied by the caller, one per device.
 */
module Registering {
  import opened Wrappers
  import opened LevelDb
  import opened KeyValueStore
  import opened GraphQL
  import opened RegistryTypes
  import opened RegistryStore

  /** The error thrown for a capability key the lookup table lacks; its message names the key. */
  datatype RegistryError = UnimplementedCapabilityType(key: string)

  /** The fields a capability input object may carry, whatever its kind; a missing field is `None`. */
  datatype CapabilityInputFields = CapabilityInputFields(
    property: string,
    description: Option<string>,
    access: Access,
    min: Option<real>,
    max: Option<real>,
    unit: Option<string>,
    values: Option<seq<string>>)

  /** One key/value pair of a capability input object; an absent or null field has no value. */
  type Entry = (string, Option<CapabilityInputFields>)

  /**
    The `[type, inputCapability]` pairs of a capability input object, in the type's field order: one per kind,
    carrying that kind's fields when the object sets it.
   */
  function Entries(o: CapabilityInputObject): (r: seq<Entry>)
    ensures |r| == 3
    ensures r[0].0 == "binary" && r[1].0 == "numeric" && r[2].0 == "enum"
    ensures r[0].1.Some? <==> o.binary.Some?
    ensures r[1].1.Some? <==> o.numeric.Some?
    ensures r[2].1.Some? <==> o.enum.Some?
    ensures o.binary.Some? ==>
              && r[0].1.value.property == o.binary.value.property
              && r[0].1.value.description == o.binary.value.description
              && r[0].1.value.access == o.binary.value.access
    ensures o.numeric.Some? ==>
              && r[1].1.value.property == o.numeric.value.property
              && r[1].1.value.description == o.numeric.value.description
              && r[1].1.value.access == o.numeric.value.access
              && r[1].1.value.min == o.numeric.value.min
              && r[1].1.value.max == o.numeric.value.max
              && r[1].1.value.unit == o.numeric.value.unit
    ensures o.enum.Some? ==>
              && r[2].1.value.property == o.enum.value.property
              && r[2].1.value.description == o.enum.value.description
              && r[2].1.value.access == o.enum.value.access
              && r[2].1.value.values == o.enum.value.values
  {
    [ ("binary", match o.binary
                 case Some(b) => Some(CapabilityInputFields(b.property, b.description, b.access, None, None, None, None))
                 case None => None),
      ("numeric", match o.numeric
                  case Some(n) => Some(CapabilityInputFields(n.property, n.description, n.access, n.min, n.max, n.unit, None))
                  case None => None),
      ("enum", match o.enum
               case Some(e) => Some(CapabilityInputFields(e.property, e.description, e.access, None, None, None, e.values))
               case None => None) ]
  }

  /** The keys the capability lookup table knows. */
  predicate KnownKey(key: string)
  {
    key == "binary" || key == "numeric" || key == "enum"
  }

  function MapInputDevice(device: CreateDeviceInputDevice, id: string): (r: BaseDevice)
    ensures r.id == id
    ensures device.name.None? ==> r.name == id
    ensures device.name.Some? ==> r.name == device.name.value
    ensures r.description == device.description && r.powerSource == device.powerSource
    ensures r.exposes == Exposes("unknown", [])
  {
    BaseDevice(id, Coalesce(device.name, id), device.description, device.powerSource, Exposes("unknown", []))
  }

  function MapInputCapability(key: string, input: CapabilityInputFields): (r: Result<Capability, RegistryError>)
    ensures r.Failure? <==> !KnownKey(key)
    ensures r.Failure? ==> r.error == UnimplementedCapabilityType(key)
    ensures key == "binary" <==> r.Success? && r.value.BinaryCapability?
    ensures key == "numeric" <==> r.Success? && r.value.NumericCapability?
    ensures key == "enum" <==> r.Success? && r.value.EnumCapability?
    ensures r.Success? ==> r.value.property == input.property && r.value.access == input.access
    ensures r.Success? && input.description.Some? ==> r.value.description == input.description.value
    ensures r.Success? && input.description.None? ==> r.value.description == ""
    ensures r.Success? && r.value.NumericCapability? ==>
              r.value.max == input.max && r.value.min == input.min && r.value.unit == input.unit
    ensures r.Success? && r.value.EnumCapability? ==>
              (input.values.Some? ==> r.value.values == input.values.value)
              && (input.values.None? ==> r.value.values == [])
  {
    if !KnownKey(key) then Failure(UnimplementedCapabilityType(key))
    else
      var description := Coalesce(input.description, "");
      if key == "binary" then
        Success(BinaryCapability(input.property, description, input.access))
      else if key == "numeric" then
        Success(NumericCapability(input.property, description, input.access, input.max, input.min, input.unit))
      else
        Success(EnumCapability(input.property, description, input.access, Coalesce(input.values, [])))
  }

  /** The entries that carry a value, in order (see `PresentMembers` for which entries and `PresentAppend` for their order). */
  function Present(entries: seq<Entry>): (r: seq<(string, CapabilityInputFields)>)
    ensures |r| <= |entries|
  {
    if entries == [] then []
    else (if entries[0].1.Some? then [(entries[0].0, entries[0].1.value)] else []) + Present(entries[1..])
  }

  /** The present entries are exactly the entries that carry a value. */
  lemma {:induction false} PresentMembers(entries: seq<Entry>)
    ensures forall p :: p in Present(entries) <==> exists i :: 0 <= i < |entries| && entries[i] == (p.0, Some(p.1))
  {
    if entries != [] {
      PresentMembers(entries[1..]);
      assert forall i :: 0 < i < |entries| ==> entries[i] == entries[1..][i - 1];
    }
  }

  /** The present entries of two runs of entries are those of the first run, then those of the second. */
  lemma {:induction false} PresentAppend(a: seq<Entry>, b: seq<Entry>)
    ensures Present(a + b) == Present(a) + Present(b)
  {
    if a == [] {
      assert a + b == b;
    } else {
      var head := if a[0].1.Some? then [(a[0].0, a[0].1.value)] else [];
      assert (a + b)[0] == a[0] && (a + b)[1..] == a[1..] + b;
      assert Present(a + b) == head + Present(a[1..] + b);
      PresentAppend(a[1..], b);
      assert Present(a) == head + Present(a[1..]);
    }
  }

  /** Every key is one the lookup table knows. */
  predicate AllKnown(present: seq<(string, CapabilityInputFields)>)
  {
    forall i :: 0 <= i < |present| ==> KnownKey(present[i].0)
  }

  lemma AllKnownCons(p: (string, CapabilityInputFields), rest: seq<(string, CapabilityInputFields)>)
    requires KnownKey(p.0) && AllKnown(rest)
    ensures AllKnown([p] + rest)
  {
    forall j | 0 < j <= |rest|
      ensures KnownKey(([p] + rest)[j].0)
    {
      assert ([p] + rest)[j] == rest[j - 1];
    }
  }

  /**
    The capabilities of the present entries, mapped in order; the first entry with an unknown key throws
    its error and ends the loop.
   */
  function PresentCapabilities(present: seq<(string, CapabilityInputFields)>): (r: Result<seq<Capability>, RegistryError>)
    ensures r.Success? <==> AllKnown(present)
    ensures r.Success? ==>
              && |r.value| == |present|
              && forall i :: 0 <= i < |present| ==> MapInputCapability(present[i].0, present[i].1) == Success(r.value[i])
    ensures r.Failure? ==> exists i :: 0 <= i < |present| && !KnownKey(present[i].0)
                                       && r.error == UnimplementedCapabilityType(present[i].0)
                                       && AllKnown(present[..i])
  {
    if present == [] then Success([])
    else
      var rest := PresentCapabilities(present[1..]);
      match MapInputCapability(present[0].0, present[0].1)
      case Failure(e) =>
        assert present[..0] == [];
        Failure(e)
      case Success(c) =>
        if rest.Failure? then
          ghost var i :| 0 <= i < |present[1..]| && !KnownKey(present[1..][i].0)
                         && rest.error == UnimplementedCapabilityType(present[1..][i].0) && AllKnown(present[1..][..i]);
          assert present[1..][i] == present[i + 1];
          assert present[..i + 1] == [present[0]] + present[1..][..i];
          AllKnownCons(present[0], present[1..][..i]);
          rest
        else
          assert forall i :: 0 < i < |present| ==> present[i] == present[1..][i - 1];
          Success([c] + rest.value)
  }

  /** Every present entry has a key the lookup table knows. */
  predicate AllPresentKnown(entries: seq<Entry>)
  {
    forall i :: 0 <= i < |entries| && entries[i].1.Some? ==> KnownKey(entries[i].0)
  }

  /** Entry `j` is the first present entry whose key the lookup table does not know. */
  ghost predicate FirstUnknownEntry(entries: seq<Entry>, j: int)
  {
    && 0 <= j < |entries|
    && entries[j].1.Some?
    && !KnownKey(entries[j].0)
    && forall i :: 0 <= i < j && entries[i].1.Some? ==> KnownKey(entries[i].0)
  }

  /**
    What the loop over a capability object's entries collects: the present entries mapped in order; the
    first present entry with an unknown key throws its error.
   */
  function EntryCapabilities(entries: seq<Entry>): (r: Result<seq<Capability>, RegistryError>)
    ensures r.Success? ==>
              && |r.value| == |Present(entries)|
              && forall i :: 0 <= i < |r.value| ==> MapInputCapability(Present(entries)[i].0, Present(entries)[i].1) == Success(r.value[i])
    ensures r.Failure? ==> exists i :: 0 <= i < |Present(entries)| && !KnownKey(Present(entries)[i].0)
                                       && r.error == UnimplementedCapabilityType(Present(entries)[i].0)
  {
    PresentCapabilities(Present(entries))
  }

  /** The entry loop throws exactly at the first present entry with an unknown key. */
  lemma {:induction false} EntryErrors(entries: seq<Entry>)
    ensures EntryCapabilities(entries).Success? <==> AllPresentKnown(entries)
    ensures EntryCapabilities(entries).Failure? ==>
              exists j :: FirstUnknownEntry(entries, j) && EntryCapabilities(entries).error == UnimplementedCapabilityType(entries[j].0)
  {
    if entries != [] {
      var tail := entries[1..];
      EntryErrors(tail);
      HeadCapabilities(entries);
      var r := EntryCapabilities(entries);
      var rest := EntryCapabilities(tail);
      if entries[0].1.Some? && !KnownKey(entries[0].0) {
        assert FirstUnknownEntry(entries, 0);
      } else {
        assert AllPresentKnown(entries) <==> AllPresentKnown(tail) by {
          assert forall i :: 0 < i < |entries| ==> entries[i] == tail[i - 1];
        }
        if r.Failure? {
          var j :| FirstUnknownEntry(tail, j) && rest.error == UnimplementedCapabilityType(tail[j].0);
          assert entries[j + 1] == tail[j];
          forall i | 0 <= i < j + 1 && entries[i].1.Some? ensures KnownKey(entries[i].0) {
            if i > 0 {
              assert entries[i] == tail[i - 1];
            }
          }
          assert FirstUnknownEntry(entries, j + 1);
        }
      }
    }
  }

  /** The first entry, when present, is mapped first: an unknown key throws, a known one leaves the rest to decide. */
  lemma HeadCapabilities(entries: seq<Entry>)
    requires entries != []
    ensures entries[0].1.Some? && !KnownKey(entries[0].0) ==>
              EntryCapabilities(entries) == Failure(UnimplementedCapabilityType(entries[0].0))
    ensures entries[0].1.None? || KnownKey(entries[0].0) ==>
              && (EntryCapabilities(entries).Success? <==> EntryCapabilities(entries[1..]).Success?)
              && (EntryCapabilities(entries).Failure? ==> EntryCapabilities(entries).error == EntryCapabilities(entries[1..]).error)
  {
    var present := Present(entries);
    if entries[0].1.None? {
      assert present == Present(entries[1..]);
    } else {
      assert present[0] == (entries[0].0, entries[0].1.value) && present[1..] == Present(entries[1..]);
    }
  }


  /** The entry loop from position `i` on: an absent entry is skipped, a present one is mapped, then the rest. */
  lemma EntryCapabilitiesFrom(entries: seq<Entry>, i: nat)
    requires i < |entries|
    ensures entries[i].1.None? ==> EntryCapabilities(entries[i..]) == EntryCapabilities(entries[i + 1..])
    ensures entries[i].1.Some? ==>
              EntryCapabilities(entries[i..])
              == Join(Single(MapInputCapability(entries[i].0, entries[i].1.value)), EntryCapabilities(entries[i + 1..]))
  {
    assert entries[i..][0] == entries[i] && entries[i..][1..] == entries[i + 1..];
    if entries[i].1.None? {
      assert Present(entries[i..]) == Present(entries[i + 1..]);
    } else {
      var present := Present(entries[i..]);
      assert present == [(entries[i].0, entries[i].1.value)] + Present(entries[i + 1..]);
      assert present[0] == (entries[i].0, entries[i].1.value) && present[1..] == Present(entries[i + 1..]);
    }
  }

  /** Object `j` is the first whose entries throw, and `e` is what they throw. */
  ghost predicate FirstObjectError(objs: seq<CapabilityInputObject>, j: int, e: RegistryError)
  {
    && 0 <= j < |objs|
    && EntryCapabilities(Entries(objs[j])) == Failure(e)
    && forall i :: 0 <= i < j ==> EntryCapabilities(Entries(objs[i])).Success?
  }

  /** The capabilities of the capability objects, one object after another, in order; the first error ends it. */
  function ObjectsCapabilities(objs: seq<CapabilityInputObject>): Result<seq<Capability>, RegistryError>
  {
    if objs == [] then Success([]) else Join(EntryCapabilities(Entries(objs[0])), ObjectsCapabilities(objs[1..]))
  }

  /** A device's capabilities: none when the input lists none, otherwise those of its capability objects. */
  function DeviceCapabilities(capabilities: Option<seq<CapabilityInputObject>>): Result<seq<Capability>, RegistryError>
  {
    match capabilities
    case None => Success([])
    case Some(objs) => ObjectsCapabilities(objs)
  }

  /** The objects' capabilities fail exactly when some object's entries throw, and with the first such error. */
  lemma {:induction false} ObjectsErrors(objs: seq<CapabilityInputObject>)
    ensures ObjectsCapabilities(objs).Success? <==> forall i :: 0 <= i < |objs| ==> EntryCapabilities(Entries(objs[i])).Success?
    ensures ObjectsCapabilities(objs).Failure? ==> exists j :: FirstObjectError(objs, j, ObjectsCapabilities(objs).error)
  {
    if objs != [] {
      var rest := ObjectsCapabilities(objs[1..]);
      ObjectsErrors(objs[1..]);
      if EntryCapabilities(Entries(objs[0])).Failure? {
        assert FirstObjectError(objs, 0, ObjectsCapabilities(objs).error);
      } else if rest.Failure? {
        var j :| FirstObjectError(objs[1..], j, rest.error);
        forall i | 0 <= i < j + 1 ensures EntryCapabilities(Entries(objs[i])).Success? {
          if i > 0 {
            assert objs[i] == objs[1..][i - 1];
          }
        }
        assert objs[j + 1] == objs[1..][j];
        assert FirstObjectError(objs, j + 1, rest.error);
      } else {
        assert forall i :: 0 < i < |objs| ==> objs[i] == objs[1..][i - 1];
      }
    }
  }

  /** A device without capability objects has none; otherwise its capabilities fail with the first object's error. */
  lemma DeviceErrors(capabilities: Option<seq<CapabilityInputObject>>)
    ensures capabilities.None? ==> DeviceCapabilities(capabilities) == Success([])
    ensures DeviceCapabilities(capabilities).Failure? ==>
              capabilities.Some? && exists j :: FirstObjectError(capabilities.value, j, DeviceCapabilities(capabilities).error)
  {
    if capabilities.Some? {
      ObjectsErrors(capabilities.value);
    }
  }

  lemma {:induction false} ObjectsCapabilitiesAppend(a: seq<CapabilityInputObject>, b: seq<CapabilityInputObject>)
    ensures ObjectsCapabilities(a + b) == Join(ObjectsCapabilities(a), ObjectsCapabilities(b))
  {
    if a == [] {
      assert a + b == b;
      if ObjectsCapabilities(b).Success? {
        assert [] + ObjectsCapabilities(b).value == ObjectsCapabilities(b).value;
      }
    } else {
      assert (a + b)[0] == a[0];
      assert (a + b)[1..] == a[1..] + b;
      ObjectsCapabilitiesAppend(a[1..], b);
      JoinAssociative(EntryCapabilities(Entries(a[0])), ObjectsCapabilities(a[1..]), ObjectsCapabilities(b));
    }
  }

  /** The capabilities from object `i` on are object `i`'s, then those of the rest. */
  lemma ObjectsCapabilitiesFrom(objs: seq<CapabilityInputObject>, i: nat)
    requires i < |objs|
    ensures ObjectsCapabilities(objs[i..]) == Join(EntryCapabilities(Entries(objs[i])), ObjectsCapabilities(objs[i + 1..]))
  {
    assert objs[i..][0] == objs[i] && objs[i..][1..] == objs[i + 1..];
  }

  /** One resolved device, or the error its capabilities throw. */
  function ResolveDevice(device: CreateDeviceInputDevice, controller: string, id: string): (r: Result<Device, RegistryError>)
    ensures r.Failure? <==> DeviceCapabilities(device.capabilities).Failure?
    ensures r.Failure? ==> DeviceCapabilities(device.capabilities) == Failure(r.error)
    ensures r.Success? ==>
              && r.value.Id() == id
              && r.value.base == MapInputDevice(device, id)
              && r.value.controller == controller
              && DeviceCapabilities(device.capabilities) == Success(r.value.capabilities)
  {
    match DeviceCapabilities(device.capabilities)
    case Failure(e) => Failure(e)
    case Success(capabilities) => Success(Device(MapInputDevice(device, id), controller, capabilities))
  }

  /** The devices `registerManyDevices` resolves: one device per input, same order, or the first error. */
  function ResolveDevices(devices: seq<CreateDeviceInputDevice>, controller: string, ids: seq<string>)
    : (r: Result<seq<Device>, RegistryError>)
    requires |ids| == |devices|
    ensures r.Success? <==> forall i :: 0 <= i < |devices| ==> ResolveDevice(devices[i], controller, ids[i]).Success?
    ensures r.Success? ==>
              && |r.value| == |devices|
              && forall i :: 0 <= i < |devices| ==> ResolveDevice(devices[i], controller, ids[i]) == Success(r.value[i])
    ensures r.Failure? ==> exists i :: 0 <= i < |devices| && ResolveDevice(devices[i], controller, ids[i]) == Failure(r.error)
  {
    if devices == [] then Success([])
    else
      var rest := ResolveDevices(devices[1..], controller, ids[1..]);
      var r := Join(Single(ResolveDevice(devices[0], controller, ids[0])), rest);
      assert forall i :: 0 < i < |devices| ==> devices[i] == devices[1..][i - 1] && ids[i] == ids[1..][i - 1];
      r
  }

  /** Resolving from position `i` on resolves device `i`, then the rest. */
  lemma ResolveDevicesFrom(devices: seq<CreateDeviceInputDevice>, controller: string, ids: seq<string>, i: nat)
    requires |ids| == |devices| && i < |devices|
    ensures ResolveDevices(devices[i..], controller, ids[i..])
            == Join(Single(ResolveDevice(devices[i], controller, ids[i])), ResolveDevices(devices[i + 1..], controller, ids[i + 1..]))
  {
    assert devices[i..][0] == devices[i] && devices[i..][1..] == devices[i + 1..];
    assert ids[i..][0] == ids[i] && ids[i..][1..] == ids[i + 1..];
  }

  /** A capability input object only has fields whose keys the lookup table knows, so its entries never throw. */
  lemma KnownKeysResolve(o: CapabilityInputObject)
    ensures EntryCapabilities(Entries(o)).Success?
  {
    var entries := Entries(o);
    assert AllPresentKnown(entries) by {
      assert |entries| == 3 && entries[0].0 == "binary" && entries[1].0 == "numeric" && entries[2].0 == "enum";
    }
    EntryErrors(entries);
  }

  /** The capabilities of any input device resolve. */
  lemma SchemaCapabilitiesResolve(capabilities: Option<seq<CapabilityInputObject>>)
    ensures DeviceCapabilities(capabilities).Success?
  {
    if capabilities.Some? {
      forall i | 0 <= i < |capabilities.value| ensures EntryCapabilities(Entries(capabilities.value[i])).Success? {
        KnownKeysResolve(capabilities.value[i]);
      }
      ObjectsErrors(capabilities.value);
    }
  }

  /** Every list of input devices resolves: the error path of `registerManyDevices` is never taken for them. */
  lemma SchemaInputsResolve(devices: seq<CreateDeviceInputDevice>, controller: string, ids: seq<string>)
    requires |ids| == |devices|
    ensures ResolveDevices(devices, controller, ids).Success?
  {
    forall i | 0 <= i < |devices| ensures ResolveDevice(devices[i], controller, ids[i]).Success? {
      SchemaCapabilitiesResolve(devices[i].capabilities);
    }
  }

  /** The store entries of resolved devices: each device keyed by its own id, in order. */
  function KeyedEntries(devices: seq<Device>): (r: seq<DeviceEntry>)
    ensures |r| == |devices|
    ensures forall i :: 0 <= i < |devices| ==> r[i] == DeviceEntry(devices[i].Id(), devices[i])
  {
    if devices == [] then [] else [DeviceEntry(devices[0].Id(), devices[0])] + KeyedEntries(devices[1..])
  }

  /** The resolved devices carry the fresh ids, in order. */
  lemma ResolvedIds(devices: seq<CreateDeviceInputDevice>, controller: string, ids: seq<string>)
    requires |ids| == |devices|
    requires ResolveDevices(devices, controller, ids).Success?
    ensures |ResolveDevices(devices, controller, ids).value| == |ids|
    ensures forall j :: 0 <= j < |ids| ==> ResolveDevices(devices, controller, ids).value[j].Id() == ids[j]
  {
    var resolved := ResolveDevices(devices, controller, ids).value;
    forall j | 0 <= j < |ids|
      ensures resolved[j].Id() == ids[j]
    {
      assert ResolveDevice(devices[j], controller, ids[j]) == Success(resolved[j]);
    }
  }

  /** The ids `unregisterManyDevices` deletes: those of its input devices, in order. */
  function InputIds(devices: seq<UnregisterDeviceInputDevice>): (r: seq<string>)
    ensures |r| == |devices|
    ensures forall i :: 0 <= i < |devices| ==> r[i] == devices[i].id
  {
    seq(|devices|, i requires 0 <= i < |devices| => devices[i].id)
  }

  /** The loop over a capability object's entries: skips null entries and maps the rest, or throws. */
  method CollectCapabilities(capability: CapabilityInputObject) returns (r: Result<seq<Capability>, RegistryError>)
    ensures r == EntryCapabilities(Entries(capability))
  {
    var entries := Entries(capability);
    var deviceCapabilities: seq<Capability> := [];
    var i := 0;
    JoinUnit(EntryCapabilities(entries));
    while i < |entries|
      invariant 0 <= i <= |entries|
      invariant EntryCapabilities(entries) == Join(Success(deviceCapabilities), EntryCapabilities(entries[i..]))
    {
      EntryCapabilitiesFrom(entries, i);
      var (key, inputCapability) := entries[i];
      if inputCapability.None? {
        i := i + 1;
        continue;
      }
      var mapped := MapInputCapability(key, inputCapability.value);
      JoinStep(deviceCapabilities, Single(mapped), EntryCapabilities(entries[i + 1..]));
      if mapped.Failure? {
        return Failure(mapped.error);
      }
      deviceCapabilities := deviceCapabilities + [mapped.value];
      i := i + 1;
    }
    assert entries[i..] == [];
    JoinUnit<Capability, RegistryError>(Success(deviceCapabilities));
    r := Success(deviceCapabilities);
  }


  /** A device's capabilities, computed object by object; none when the input lists no capability objects. */
  method ResolveCapabilities(capabilities: Option<seq<CapabilityInputObject>>) returns (r: Result<seq<Capability>, RegistryError>)
    ensures r == DeviceCapabilities(capabilities)
  {
    if capabilities.None? {
      return Success([]);
    }
    r := ResolveObjects(capabilities.value);
  }

  /** The capabilities of the capability objects: each object's capabilities in turn, stopping at the first error. */
  method ResolveObjects(objs: seq<CapabilityInputObject>) returns (r: Result<seq<Capability>, RegistryError>)
    ensures r == ObjectsCapabilities(objs)
  {
    var collected: seq<Capability> := [];
    var i := 0;
    JoinUnit(ObjectsCapabilities(objs));
    while i < |objs|
      invariant 0 <= i <= |objs|
      invariant ObjectsCapabilities(objs) == Join(Success(collected), ObjectsCapabilities(objs[i..]))
    {
      ObjectsCapabilitiesFrom(objs, i);
      var part := CollectCapabilities(objs[i]);
      JoinStep(collected, part, ObjectsCapabilities(objs[i + 1..]));
      if part.Failure? {
        return Failure(part.error);
      }
      collected := collected + part.value;
      i := i + 1;
    }
    assert objs[i..] == [];
    JoinUnit<Capability, RegistryError>(Success(collected));
    r := Success(collected);
  }


  /** The devices `registerManyDevices` resolves, device by device; the first error thrown ends it. */
  method ResolveAll(devices: seq<CreateDeviceInputDevice>, controller: string, ids: seq<string>)
    returns (r: Result<seq<Device>, RegistryError>)
    requires |ids| == |devices|
    ensures r == ResolveDevices(devices, controller, ids)
  {
    var resolvedDevices: seq<Device> := [];
    var i := 0;
    JoinUnit(ResolveDevices(devices, controller, ids));
    while i < |devices|
      invariant 0 <= i <= |devices|
      invariant ResolveDevices(devices, controller, ids)
                == Join(Success(resolvedDevices), ResolveDevices(devices[i..], controller, ids[i..]))
    {
      ResolveDevicesFrom(devices, controller, ids, i);
      JoinStep(resolvedDevices, Single(ResolveDevice(devices[i], controller, ids[i])),
               ResolveDevices(devices[i + 1..], controller, ids[i + 1..]));
      var capabilities := ResolveCapabilities(devices[i].capabilities);
      if capabilities.Failure? {
        return Failure(capabilities.error);
      }
      var device := Device(MapInputDevice(devices[i], ids[i]), controller, capabilities.value);
      assert Single(ResolveDevice(devices[i], controller, ids[i])) == Success([device]);
      resolvedDevices := resolvedDevices + [device];
      i := i + 1;
    }
    assert devices[i..] == [] && ids[i..] == [];
    JoinUnit<Device, RegistryError>(Success(resolvedDevices));
    r := Success(resolvedDevices);
  }

  /** Devices that carry the given ids are keyed by exactly those ids, in order. */
  lemma KeyedEntriesIds(resolved: seq<Device>, ids: seq<string>)
    requires |resolved| == |ids|
    requires forall j :: 0 <= j < |ids| ==> resolved[j].Id() == ids[j]
    ensures EntryIds(KeyedEntries(resolved)) == ids
    ensures forall j :: 0 <= j < |ids| ==> KeyedEntries(resolved)[j] == DeviceEntry(ids[j], resolved[j])
  {
    var keyed := EntryIds(KeyedEntries(resolved));
    forall j | 0 <= j < |ids|
      ensures keyed[j] == ids[j]
    {
      assert KeyedEntries(resolved)[j] == DeviceEntry(ids[j], resolved[j]);
    }
  }

  /** The store write of `registerManyDevices`: one batch setting each resolved device under its id. */
  method StoreResolved(store: DeviceStore, resolved: seq<Device>, ids: seq<string>)
    requires store.store.Valid()
    requires |resolved| == |ids|
    requires forall j :: 0 <= j < |ids| ==> resolved[j].Id() == ids[j]
    modifies store.store
    ensures store.store.Valid()
    ensures store.store.db == ApplyBatch(old(store.store.db), EntryOps(KeyedEntries(resolved)))
    ensures (forall i, j :: 0 <= i < j < |ids| ==> ids[i] != ids[j]) ==>
              forall i :: 0 <= i < |ids| ==> store.store.Lookup(ids[i]) == Some(resolved[i])
    ensures store.store.db - (set id | id in ids) == old(store.store.db) - (set id | id in ids)
    ensures old(KeyedById(store.store.db)) ==> KeyedById(store.store.db)
  {
    var entries := KeyedEntries(resolved);
    KeyedEntriesIds(resolved, ids);
    assert SelfKeyed(entries);
    if forall i, j :: 0 <= i < j < |ids| ==> ids[i] != ids[j] {
      assert DistinctEntries(entries);
    }
    assert (set id | id in EntryIds(entries)) == (set id | id in ids);
    store.CreateOrUpdateDevices(entries);
  }

  /** The `registerManyDevices` resolver: resolves every device first, then stores them all in one batch. */
  method RegisterManyDevices(store: DeviceStore, input: CreateManyDevicesInput, ids: seq<string>)
    returns (r: Result<seq<Device>, RegistryError>)
    requires store.store.Valid()
    requires |ids| == |input.devices|
    modifies store.store
    ensures store.store.Valid()
    ensures r == ResolveDevices(input.devices, input.controller, ids)
    ensures r.Failure? ==> unchanged(store.store)
    ensures r.Success? ==> store.store.db == ApplyBatch(old(store.store.db), EntryOps(KeyedEntries(r.value)))
    ensures r.Success? && (forall i, j :: 0 <= i < j < |ids| ==> ids[i] != ids[j]) ==>
              forall i :: 0 <= i < |ids| ==> store.store.Lookup(ids[i]) == Some(r.value[i])
    ensures store.store.db - (set id | id in ids) == old(store.store.db) - (set id | id in ids)
    ensures old(KeyedById(store.store.db)) ==> KeyedById(store.store.db)
  {
    r := ResolveAll(input.devices, input.controller, ids);
    if r.Failure? {
      return;
    }
    ResolvedIds(input.devices, input.controller, ids);
    StoreResolved(store, r.value, ids);
  }

  /** The `registerDevice` resolver: stores the device with no capabilities, whatever the input lists. */
  method RegisterDevice(store: DeviceStore, input: CreateDeviceInput, id: string) returns (r: Device)
    requires store.store.Valid()
    modifies store.store
    ensures store.store.Valid()
    ensures r.base == MapInputDevice(input.device, id) && r.controller == input.controller && r.capabilities == []
    ensures store.store.db == old(store.store.db)[id := r]
    ensures old(KeyedById(store.store.db)) ==> KeyedById(store.store.db)
  {
    r := Device(MapInputDevice(input.device, id), input.controller, []);
    var entries := [DeviceEntry(r.Id(), r)];
    var ops := [Put(id, r)];
    assert ToLevelOps(EntryOps(entries)) == ops;
    store.CreateOrUpdateDevices(entries);
    assert ops[1..] == [];
    assert store.store.db == ApplyAll(LevelDb.Write(old(store.store.db), ops[0]), ops[1..]);
  }

  /** The `unregisterManyDevices` resolver: deletes the given ids and reports them, in order. */
  method UnregisterManyDevices(store: DeviceStore, devices: seq<UnregisterDeviceInputDevice>)
    returns (deletedDeviceIds: seq<string>)
    requires store.store.Valid()
    modifies store.store
    ensures store.store.Valid()
    ensures |deletedDeviceIds| == |devices|
    ensures forall i :: 0 <= i < |devices| ==> deletedDeviceIds[i] == devices[i].id
    ensures store.store.db == old(store.store.db) - (set id | id in deletedDeviceIds)
    ensures old(KeyedById(store.store.db)) ==> KeyedById(store.store.db)
  {
    var ids := InputIds(devices);
    store.RemoveDevices(ids);
    deletedDeviceIds := ids;
  }

  /** The `unregisterAllDevicesForController` resolver: deletes and reports the ids of the controller's devices. */
  method UnregisterAllDevicesForController(store: DeviceStore, controller: string)
    returns (deletedDeviceIds: seq<string>)
    requires store.store.Valid()
    modifies store.store
    ensures store.store.Valid()
    ensures deletedDeviceIds == IdsOf(ForController(old(store.store.Listing()), controller))
    ensures store.store.db == old(store.store.db) - (set id | id in deletedDeviceIds)
    ensures old(KeyedById(store.store.db)) ==>
              && (forall id :: id in deletedDeviceIds <==> id in OwnedBy(old(store.store.db), controller))
              && store.store.db == old(store.store.db) - OwnedBy(old(store.store.db), controller)
              && KeyedById(store.store.db)
  {
    var devices := store.GetAllDevicesForController(controller);
    var ids := IdsOf(devices);
    if KeyedById(store.store.db) {
      OwnedIds(store.store.db, store.store.order, controller);
    }
    store.RemoveDevices(ids);
    deletedDeviceIds := ids;
  }
}
