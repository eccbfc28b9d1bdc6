/**
  The controller's `bridge/devices` handler: it unregisters every device of this controller from the
  registry, turns the supported devices of the snapshot into registration inputs (normalising each
  capability and unwrapping lights into their features), registers them, and pairs the returned ids
  with the snapshot's devices by position.
 */
module Handlers {
  import opened Wrappers
  import opened Sequences
  import opened BridgeTypes
  import opened GraphQL

  /** The errors the handler throws. */
  datatype HandlerError =
    | UnregisterFailed                   // the registry answered the unregister call with errors
    | AccessNotImplemented(access: int)  // an access code the registry schema has no value for; the message names it
    | RegisterFailed                     // the registry answered the register call with errors

  /** A registry response: an `errors` list (even an empty one is truthy) or the data. */
  datatype GqlResponse<T> = Errors(errors: seq<string>) | Data(data: T)

  /** The calls the handler makes to the registry, in the order made. */
  datatype RegistryCall =
    | UnregisterAllDevicesForController(controller: string)
    | RegisterManyDevices(controller: string, devices: seq<CreateDeviceInputDevice>)

  /** The access codes the lookup table knows. */
  predicate KnownAccess(access: int)
  {
    access == 1 || access == 2 || access == 7
  }

  function MapAccess(access: int): (r: Result<Access, HandlerError>)
    ensures r == Success(Read) <==> access == 1
    ensures r == Success(Write) <==> access == 2
    ensures r == Success(Readwrite) <==> access == 7
    ensures r.Failure? <==> access != 1 && access != 2 && access != 7
    ensures r.Failure? ==> r.error == AccessNotImplemented(access)
  {
    if access == 1 then Success(Read)
    else if access == 2 then Success(Write)
    else if access == 7 then Success(Readwrite)
    else Failure(AccessNotImplemented(access))
  }

  /** One leaf capability as a registration input: exactly one field set, named by the capability's type. */
  function MapCapability(c: NonLightCapability): (r: Result<CapabilityInputObject, HandlerError>)
    ensures r.Success? <==> KnownAccess(c.access)
    ensures r.Failure? ==> r.error == AccessNotImplemented(c.access)
    ensures r.Success? ==> SetKeys(r.value) == [c.TypeName()]
    ensures r.Success? && c.Binary? ==>
              r.value.binary.Some? &&
              var b := r.value.binary.value;
              b.property == c.property && b.description == c.description && MapAccess(c.access) == Success(b.access)
    ensures r.Success? && c.Numeric? ==>
              r.value.numeric.Some? &&
              var n := r.value.numeric.value;
              && n.property == c.property && n.description == c.description && MapAccess(c.access) == Success(n.access)
              && n.max == Some(c.valueMax) && n.min == Some(c.valueMin) && n.unit == Some(c.unit)
    ensures r.Success? && c.Enum? ==>
              r.value.enum.Some? &&
              var e := r.value.enum.value;
              && e.property == c.property && e.description == c.description && MapAccess(c.access) == Success(e.access)
              && e.values == Some(c.values)
  {
    match MapAccess(c.access)
    case Failure(e) => Failure(e)
    case Success(access) =>
      match c
      case Binary(property, _, _, description, _, _, _) =>
        Success(CapabilityInputObject(Some(BinaryCapabilityInput(property, description, access)), None, None))
      case Numeric(property, _, _, description, valueMax, valueMin, unit) =>
        Success(CapabilityInputObject(None, Some(NumericCapabilityInput(property, description, access,
                                                                        Some(valueMin), Some(valueMax), Some(unit))), None))
      case Enum(property, _, _, description, values) =>
        Success(CapabilityInputObject(None, None, Some(EnumCapabilityInput(property, description, access, Some(values)))))
  }

  /** A light's features mapped one by one, in order; the first unknown access code ends the map. */
  function MapFeatures(fs: seq<NonLightCapability>): (r: Result<seq<CapabilityInputObject>, HandlerError>)
    ensures r.Success? <==> forall i :: 0 <= i < |fs| ==> KnownAccess(fs[i].access)
    ensures r.Success? ==> |r.value| == |fs| && forall i :: 0 <= i < |fs| ==> MapCapability(fs[i]) == Success(r.value[i])
    ensures r.Failure? ==> exists j :: 0 <= j < |fs| && r.error == AccessNotImplemented(fs[j].access)
                                      && !KnownAccess(fs[j].access)
                                      && forall i :: 0 <= i < j ==> KnownAccess(fs[i].access)
  {
    if fs == [] then Success([])
    else
      var rest := MapFeatures(fs[1..]);
      match MapCapability(fs[0])
      case Failure(e) => Failure(e)
      case Success(o) =>
        if rest.Failure? then
          ghost var j :| 0 <= j < |fs[1..]| && rest.error == AccessNotImplemented(fs[1..][j].access)
                         && !KnownAccess(fs[1..][j].access)
                         && forall i :: 0 <= i < j ==> KnownAccess(fs[1..][i].access);
          assert fs[1..][j] == fs[j + 1];
          assert forall i :: 0 < i < j + 1 ==> fs[i] == fs[1..][i - 1];
          rest
        else
          assert forall i :: 0 < i < |fs| ==> fs[i] == fs[1..][i - 1];
          Success([o] + rest.value)
  }

  /** What one exposed capability contributes to the flat list: a light its features, anything else itself. */
  function Contribution(c: Capability): seq<NonLightCapability>
  {
    match c
    case Light(_, features) => features
    case Single(capability) => [capability]
  }

  /** The leaf capabilities of an `exposes` list, depth first. */
  function Leaves(cs: seq<Capability>): seq<NonLightCapability>
  {
    if cs == [] then [] else Contribution(cs[0]) + Leaves(cs[1..])
  }

  /** Σ (light ? |features| : 1). */
  function Width(cs: seq<Capability>): nat
  {
    if cs == [] then 0 else (if cs[0].Light? then |cs[0].features| else 1) + Width(cs[1..])
  }

  /** What one exposed capability flattens to: a light's mapped features, or the one mapped capability. */
  function MapExpose(c: Capability): (r: Result<seq<CapabilityInputObject>, HandlerError>)
    ensures r == MapFeatures(Contribution(c))
  {
    match c
    case Light(_, features) => MapFeatures(features)
    case Single(capability) =>
      assert [capability][1..] == [];
      match MapCapability(capability)
      case Success(o) => assert [o] + [] == [o]; Success([o])
      case Failure(e) => Failure(e)
  }

  /** The flattening of a device's exposes: each capability's part in turn, stopping at the first error. */
  function MapExposes(cs: seq<Capability>): (r: Result<seq<CapabilityInputObject>, HandlerError>)
    ensures r.Success? <==> forall i :: 0 <= i < |cs| ==> MapExpose(cs[i]).Success?
    ensures r.Success? ==> |r.value| == Width(cs)
  {
    if cs == [] then Success([])
    else
      var r := Join(MapExpose(cs[0]), MapExposes(cs[1..]));
      assert forall i :: 0 < i < |cs| ==> cs[i] == cs[1..][i - 1];
      r
  }

  lemma {:induction false} LeavesWidth(cs: seq<Capability>)
    ensures |Leaves(cs)| == Width(cs)
  {
    if cs != [] {
      LeavesWidth(cs[1..]);
    }
  }

  lemma {:induction false} MapFeaturesAppend(a: seq<NonLightCapability>, b: seq<NonLightCapability>)
    ensures MapFeatures(a + b) == Join(MapFeatures(a), MapFeatures(b))
  {
    if a != [] {
      assert (a + b)[0] == a[0];
      assert (a + b)[1..] == a[1..] + b;
      MapFeaturesAppend(a[1..], b);
      var head := match MapCapability(a[0]) case Success(o) => Success([o]) case Failure(e) => Failure(e);
      JoinAssociative(head, MapFeatures(a[1..]), MapFeatures(b));
    } else {
      assert a + b == b;
      if MapFeatures(b).Success? {
        assert [] + MapFeatures(b).value == MapFeatures(b).value;
      }
    }
  }

  /** Flattening maps exactly the leaves: a light contributes its features, in order, and never itself. */
  lemma {:induction false} MapExposesIsMapOfLeaves(cs: seq<Capability>)
    ensures MapExposes(cs) == MapFeatures(Leaves(cs))
  {
    if cs != [] {
      MapExposesIsMapOfLeaves(cs[1..]);
      MapFeaturesAppend(Contribution(cs[0]), Leaves(cs[1..]));
      if cs[0].Single? {
        assert MapFeatures([cs[0].capability])
            == Join(match MapCapability(cs[0].capability) case Success(o) => Success([o]) case Failure(e) => Failure(e),
                    MapFeatures([]));
      }
    }
  }

  /** The flattened list has one entry per leaf, Σ (light ? |features| : 1) in all, each the mapped leaf. */
  lemma FlattenedCapabilities(cs: seq<Capability>)
    requires MapExposes(cs).Success?
    ensures |MapExposes(cs).value| == Width(cs) == |Leaves(cs)|
    ensures forall i :: 0 <= i < |Leaves(cs)| ==> MapCapability(Leaves(cs)[i]) == Success(MapExposes(cs).value[i])
  {
    MapExposesIsMapOfLeaves(cs);
    LeavesWidth(cs);
  }

  /** A light's own access code is never looked up: flattening fails only on a leaf's unknown code. */
  lemma FlattenFailsOnlyOnLeaves(cs: seq<Capability>)
    ensures MapExposes(cs).Success? <==> forall i :: 0 <= i < |Leaves(cs)| ==> KnownAccess(Leaves(cs)[i].access)
  {
    MapExposesIsMapOfLeaves(cs);
  }

  /** The supported devices of a snapshot, in snapshot order, each as often as it occurs there. */
  function Supported(bds: seq<BridgeDevice>): (r: seq<BridgeDevice>)
    ensures forall d :: d in r <==> d in bds && d.Supported()
    ensures SubsequenceOf(r, bds)
    ensures (forall d :: d in bds ==> d.Supported()) ==> r == bds
    ensures forall d :: multiset(r)[d] == if d.Supported() then multiset(bds)[d] else 0
  {
    if bds == [] then []
    else if bds[0].Supported() then
      var r := [bds[0]] + Supported(bds[1..]);
      assert r[1..] == Supported(bds[1..]);
      assert bds == [bds[0]] + bds[1..];
      r
    else
      assert bds == [bds[0]] + bds[1..];
      Supported(bds[1..])
  }

  /** Leaf `j` has the first unknown access code, and `e` is its error. */
  ghost predicate FirstUnknownAccess(fs: seq<NonLightCapability>, j: int, e: HandlerError)
  {
    && 0 <= j < |fs|
    && !KnownAccess(fs[j].access)
    && e == AccessNotImplemented(fs[j].access)
    && forall i :: 0 <= i < j ==> KnownAccess(fs[i].access)
  }

  /** The registration input built for one supported device. */
  function Registration(bd: BridgeDevice): (r: Result<CreateDeviceInputDevice, HandlerError>)
    requires bd.Supported()
    ensures r.Success? <==> forall i :: 0 <= i < |Leaves(bd.definition.value.exposes)| ==>
                                          KnownAccess(Leaves(bd.definition.value.exposes)[i].access)
    ensures r.Success? ==>
              && r.value.name == Some(bd.friendlyName)
              && r.value.description == Some(bd.definition.value.description)
              && r.value.powerSource == Some(bd.powerSource)
              && r.value.capabilities.Some?
              && |r.value.capabilities.value| == Width(bd.definition.value.exposes) == |Leaves(bd.definition.value.exposes)|
              && forall i :: 0 <= i < |Leaves(bd.definition.value.exposes)| ==>
                   MapCapability(Leaves(bd.definition.value.exposes)[i]) == Success(r.value.capabilities.value[i])
    ensures r.Failure? ==> MapExposes(bd.definition.value.exposes) == Failure(r.error)
    ensures r.Failure? ==> exists j :: FirstUnknownAccess(Leaves(bd.definition.value.exposes), j, r.error)
  {
    var exposes := bd.definition.value.exposes;
    FlattenFailsOnlyOnLeaves(exposes);
    MapExposesIsMapOfLeaves(exposes);
    match MapExposes(exposes)
    case Failure(e) =>
      ghost var j :| 0 <= j < |Leaves(exposes)| && e == AccessNotImplemented(Leaves(exposes)[j].access)
                     && !KnownAccess(Leaves(exposes)[j].access)
                     && forall i :: 0 <= i < j ==> KnownAccess(Leaves(exposes)[i].access);
      assert FirstUnknownAccess(Leaves(exposes), j, e);
      Failure(e)
    case Success(capabilities) =>
      FlattenedCapabilities(exposes);
      Success(CreateDeviceInputDevice(Some(bd.definition.value.description), Some(bd.friendlyName),
                                      Some(bd.powerSource), Some(capabilities)))
  }

  /** Device `j` is the first whose registration fails, and it fails with `e`. */
  ghost predicate FirstRegistrationError(ds: seq<BridgeDevice>, j: int, e: HandlerError)
    requires forall d :: d in ds ==> d.Supported()
  {
    && 0 <= j < |ds|
    && Registration(ds[j]) == Failure(e)
    && forall i :: 0 <= i < j ==> Registration(ds[i]).Success?
  }

  /** The registration inputs of the supported devices: one per device, same order, or the first error. */
  function RegisterAll(ds: seq<BridgeDevice>): (r: Result<seq<CreateDeviceInputDevice>, HandlerError>)
    requires forall d :: d in ds ==> d.Supported()
    ensures r.Success? <==> forall i :: 0 <= i < |ds| ==> Registration(ds[i]).Success?
    ensures r.Success? ==> |r.value| == |ds| && forall i :: 0 <= i < |ds| ==> Registration(ds[i]) == Success(r.value[i])
    ensures r.Failure? ==> exists j :: FirstRegistrationError(ds, j, r.error)
  {
    var rs := Registrations(ds);
    var r := Collect(rs);
    assert r.Failure? ==> exists j :: FirstRegistrationError(ds, j, r.error) by {
      if r.Failure? {
        var j :| FirstFailure(rs, j) && rs[j] == Failure(r.error);
        assert FirstRegistrationError(ds, j, r.error);
      }
    }
    r
  }

  /** One registration result per device, in order. */
  function Registrations(ds: seq<BridgeDevice>): (r: seq<Result<CreateDeviceInputDevice, HandlerError>>)
    requires forall d :: d in ds ==> d.Supported()
    ensures |r| == |ds| && forall i :: 0 <= i < |ds| ==> r[i] == Registration(ds[i])
  {
    seq(|ds|, i requires 0 <= i < |ds| => assert ds[i] in ds; Registration(ds[i]))
  }


  /** The `devices` argument of the register call: only supported devices, in snapshot order. */
  function RegisterPayload(bds: seq<BridgeDevice>): (r: Result<seq<CreateDeviceInputDevice>, HandlerError>)
    ensures r.Success? ==> |r.value| == |Supported(bds)|
    ensures r.Success? ==> forall i :: 0 <= i < |r.value| ==> Registration(Supported(bds)[i]) == Success(r.value[i])
    ensures r.Success? <==> forall d :: d in bds && d.Supported() ==> Registration(d).Success?
    ensures r.Failure? ==> exists j :: FirstRegistrationError(Supported(bds), j, r.error)
  {
    var ds := Supported(bds);
    var r := RegisterAll(ds);
    assert r.Success? <==> forall d :: d in ds ==> Registration(d).Success? by {
      if forall i :: 0 <= i < |ds| ==> Registration(ds[i]).Success? {
        forall d | d in ds ensures Registration(d).Success? {
          var i :| 0 <= i < |ds| && ds[i] == d;
        }
      }
    }
    r
  }

  /** Indexing the snapshot: the device at a position, or undefined past the end. */
  function At(bds: seq<BridgeDevice>, i: nat): (r: Option<BridgeDevice>)
    ensures r.Some? <==> i < |bds|
    ensures r.Some? ==> r.value == bds[i]
  {
    if i < |bds| then Some(bds[i]) else None
  }

  /** The record object: each returned id keyed to the snapshot device at the same position; a later duplicate id wins. */
  function Records(ids: seq<string>, bds: seq<BridgeDevice>): (r: map<string, Option<BridgeDevice>>)
    ensures forall id :: id in r <==> id in ids
    decreases |ids|
  {
    if ids == [] then map[]
    else
      var r := Records(ids[..|ids| - 1], bds)[ids[|ids| - 1] := At(bds, |ids| - 1)];
      assert forall id :: id in ids <==> id in ids[..|ids| - 1] || id == ids[|ids| - 1] by {
        assert ids == ids[..|ids| - 1] + [ids[|ids| - 1]];
      }
      r
  }

  /** Id `i` is recorded against `bridgeDevices[i]` of the unfiltered snapshot (a later duplicate id overrides). */
  lemma {:induction false} RecordsPairByPosition(ids: seq<string>, bds: seq<BridgeDevice>, i: nat)
    requires i < |ids|
    requires forall j :: i < j < |ids| ==> ids[j] != ids[i]
    ensures Records(ids, bds)[ids[i]] == At(bds, i)
    decreases |ids|
  {
    if i < |ids| - 1 {
      var front := ids[..|ids| - 1];
      assert front[i] == ids[i];
      RecordsPairByPosition(front, bds, i);
    }
  }

  /** When every device is supported, each returned id is recorded against the device its request entry came from. */
  lemma RecordsMatchRequests(bds: seq<BridgeDevice>, ids: seq<string>, payload: seq<CreateDeviceInputDevice>)
    requires forall d :: d in bds ==> d.Supported()
    requires RegisterPayload(bds) == Success(payload)
    requires |ids| == |payload|
    requires forall i, j :: 0 <= i < j < |ids| ==> ids[i] != ids[j]
    ensures forall i :: 0 <= i < |ids| ==>
              Records(ids, bds)[ids[i]] == Some(bds[i]) && Registration(bds[i]) == Success(payload[i])
  {
    assert Supported(bds) == bds;
    forall i | 0 <= i < |ids|
      ensures Records(ids, bds)[ids[i]] == Some(bds[i]) && Registration(bds[i]) == Success(payload[i])
    {
      RecordsPairByPosition(ids, bds, i);
    }
  }

  /**
    A snapshot whose first device is unsupported (here a coordinator with no definition) ahead of one supported
    lamp: the one id the registry returns is recorded against the coordinator, not the lamp it was issued for.
   */
  lemma UnsupportedDeviceTakesNextId()
    ensures
      var coordinator := BridgeDevice("0x00124b0018e2", "Coordinator", "Mains (single phase)", true, false, None);
      var lamp := BridgeDevice("0x0017880104a1", "lamp", "Mains (single phase)", true, false,
                               Some(Definition("Hue white ambiance", [])));
      && RegisterPayload([coordinator, lamp])
           == Success([CreateDeviceInputDevice(Some("Hue white ambiance"), Some("lamp"), Some("Mains (single phase)"), Some([]))])
      && Records(["d1"], [coordinator, lamp])["d1"] == Some(coordinator)
  {
    var coordinator := BridgeDevice("0x00124b0018e2", "Coordinator", "Mains (single phase)", true, false, None);
    var lamp := BridgeDevice("0x0017880104a1", "lamp", "Mains (single phase)", true, false,
                             Some(Definition("Hue white ambiance", [])));
    assert Supported([coordinator, lamp]) == [lamp] by {
      assert [coordinator, lamp][1..] == [lamp];
      assert [lamp][1..] == [];
    }
    assert [lamp][1..] == [];
    var input := CreateDeviceInputDevice(Some("Hue white ambiance"), Some("lamp"), Some("Mains (single phase)"), Some([]));
    assert MapExposes([]) == Success([]);
    assert Registration(lamp) == Success(input);
    assert RegisterAll([]) == Success([]);
    assert [input] + [] == [input];
    assert RegisterAll([lamp]) == Success([input]);
    RecordsPairByPosition(["d1"], [coordinator, lamp], 0);
  }

  /**
    The handler for one snapshot. `unregisterAll` and `registerMany` stand for the registry's answers to the
    two mutations. Returns the calls made and either the error thrown or the id-to-device records built for the store.
   */
  method BridgeDeviceHandler(
    controllerName: string,
    bridgeDevices: seq<BridgeDevice>,
    unregisterAll: string -> GqlResponse<seq<string>>,
    registerMany: (string, seq<CreateDeviceInputDevice>) -> GqlResponse<seq<string>>)
    returns (calls: seq<RegistryCall>, outcome: Result<map<string, Option<BridgeDevice>>, HandlerError>)
    ensures |calls| > 0 && calls[0] == UnregisterAllDevicesForController(controllerName)
    ensures unregisterAll(controllerName).Errors? ==>
              calls == [UnregisterAllDevicesForController(controllerName)] && outcome == Failure(UnregisterFailed)
    ensures unregisterAll(controllerName).Data? && RegisterPayload(bridgeDevices).Failure? ==>
              calls == [UnregisterAllDevicesForController(controllerName)]
              && outcome == Failure(RegisterPayload(bridgeDevices).error)
    ensures unregisterAll(controllerName).Data? && RegisterPayload(bridgeDevices).Success? ==>
              var payload := RegisterPayload(bridgeDevices).value;
              && calls == [UnregisterAllDevicesForController(controllerName), RegisterManyDevices(controllerName, payload)]
              && (registerMany(controllerName, payload).Errors? ==> outcome == Failure(RegisterFailed))
              && (registerMany(controllerName, payload).Data? ==>
                    outcome == Success(Records(registerMany(controllerName, payload).data, bridgeDevices)))
  {
    calls := [UnregisterAllDevicesForController(controllerName)];
    var unregisterResponse := unregisterAll(controllerName);
    if unregisterResponse.Errors? {
      return calls, Failure(UnregisterFailed);
    }
    var payload := RegisterPayload(bridgeDevices);
    if payload.Failure? {
      return calls, Failure(payload.error);
    }
    calls := calls + [RegisterManyDevices(controllerName, payload.value)];
    var registerResponse := registerMany(controllerName, payload.value);
    if registerResponse.Errors? {
      return calls, Failure(RegisterFailed);
    }
    outcome := Success(Records(registerResponse.data, bridgeDevices));
  }
}
