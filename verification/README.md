# Zigbee2MQTT controller and device registry: a Dafny model

Two services cooperate to keep a registry of smart-home devices:

- **The zigbee2mqtt controller service** subscribes to the bridge's `bridge/devices` snapshot. For each
  snapshot it first asks the device registry to unregister every device of this controller. It then turns the
  supported devices of the snapshot into registration inputs and registers them all in one mutation. To build
  an input it decodes each capability's integer access code, copies each capability's fields explicitly into a
  one-key `CapabilityInputObject`, and unwraps every `light` into its features. Finally it pairs the ids the
  registry returns with the snapshot's devices by position. Its `Dao` keeps `DeviceRecord`s in a key/value store.
- **The device registry service** resolves the registration mutations. Each device gets a fresh id and default
  fields. Each non-null entry of each capability input object becomes a capability tagged by its key, and an
  unknown key is rejected. The devices are written to a `DeviceStore` keyed by id. The two unregister mutations
  report exactly the ids they delete. An older schema file has a simpler `registerDevice` that writes a bare
  device straight to a `Store`.
- **`lib/store`** is a generic `Store<T>` over a LevelDB handle. `get` turns LevelDB's not-found error into
  `null`. `set` and `delete` write one key. `keys` and `values` collect LevelDB's streams. `batch` translates
  `set`/`delete` operations into LevelDB's `put`/`del`.

The model follows the code's own shape.

- The mapping code (access table, capability mapping, flattening, default filling) is made of Dafny functions
  on datatypes. Each function has a contract, and lemmas relate the functions to each other.
- The stores are classes:
  - `Store<T>` holds the LevelDB handle as a map `db` plus the ascending key `order` that LevelDB's streams
    follow;
  - `Dao` and `DeviceStore` wrap a `Store`.
- Their methods have `modifies` clauses and are proved against the functions that describe the batches they
  issue.
- The loops of the source are methods with loop invariants:
  - `keys` and `values`;
  - the `Object.entries` loop;
  - the `flatMap` and `map` of `registerManyDevices`.
- Thrown errors are `Failure` results.
- The controller's two network calls are function parameters that give the registry's answer.
- Fresh ids (`uuid()`) are parameters.

Module layout:

| file | module | models |
|---|---|---|
| `wrappers.dfy` | `Wrappers` | `T \| null`, thrown errors, `??`, first-error-wins concatenation |
| `sequences.dfy` | `Sequences` | order-preserving subsequence |
| `leveldb.dfy` | `LevelDb` | the LevelDB handle: entries, key order, `get`, `batch` |
| `store.dfy` | `KeyValueStore` | `lib/store/src/index.ts` |
| `bridge_types.dfy`, `graphql.dfy`, `registry_types.dfy` | `BridgeTypes`, `GraphQL`, `RegistryTypes` | the snapshot, wire-input and stored shapes |
| `handlers.dfy` | `Handlers` | the controller's `handlers.ts` |
| `dao.dfy` | `ControllerDao` | the controller's `dao.ts` |
| `device_store.dfy` | `RegistryStore` | the registry's `device-store.ts` |
| `registering.dfy` | `Registering` | the registry's `schema/registering.ts` |
| `legacy_schema.dfy` | `LegacySchema` | the registry's older `schema.ts` resolver |
| `end_to_end.dfy` | `EndToEnd` | what the registry makes of the controller's inputs, and the two calls together |

## Model

| member | source | states |
|---|---|---|
| Handlers.MapAccess | services/zigbee2mqtt-controller-service/src/handlers.ts:90-107 | 1 ↦ Read, 2 ↦ Write, 7 ↦ Readwrite, each in both directions; every other code fails with the access-not-implemented error carrying that code, never a default |
| Handlers.MapCapability | services/zigbee2mqtt-controller-service/src/handlers.ts:109-147 | succeeds exactly when the access code is known and fails with that code's error otherwise; the result has exactly one key set, the capability's `type`; binary carries property, description and decoded access; numeric also carries `max = value_max`, `min = value_min`, `unit`; enum also carries `values` unchanged |
| Handlers.MapFeatures | services/zigbee2mqtt-controller-service/src/handlers.ts:55-57 | a light's features map one-for-one and in order; the map fails exactly when some feature's code is unknown, with the error of the first such feature |
| Handlers.MapExpose | services/zigbee2mqtt-controller-service/src/handlers.ts:53-58 | one exposed capability contributes its mapped features when it is a light and its single mapping otherwise |
| Handlers.MapExposes | services/zigbee2mqtt-controller-service/src/handlers.ts:53-59 | the exposes `flatMap` succeeds exactly when every exposed capability maps, and then yields Σ (light ? \|features\| : 1) entries |
| Handlers.LeavesWidth | services/zigbee2mqtt-controller-service/src/handlers.ts:53-59 | the flattened leaves number Σ (light ? \|features\| : 1) |
| Handlers.MapFeaturesAppend | services/zigbee2mqtt-controller-service/src/handlers.ts:53-59 | mapping a concatenation is the in-order join of the mapped parts, the first failure winning |
| Handlers.MapExposesIsMapOfLeaves | services/zigbee2mqtt-controller-service/src/handlers.ts:53-59 | the `flatMap` over exposes equals mapping the leaf list: a light contributes its mapped features in order and never itself, any other capability exactly one entry |
| Handlers.FlattenedCapabilities | services/zigbee2mqtt-controller-service/src/handlers.ts:53-59 | on success the flattened list has Σ (light ? \|features\| : 1) entries, entry i being the mapped leaf i |
| Handlers.FlattenFailsOnlyOnLeaves | services/zigbee2mqtt-controller-service/src/handlers.ts:53-59 | flattening fails exactly when some leaf has an unknown code; a light's own access code is never decoded |
| Handlers.Supported | services/zigbee2mqtt-controller-service/src/handlers.ts:48 | keeps exactly the supported devices, as a subsequence in snapshot order and with each supported device as often as the snapshot lists it (unsupported ones never); an all-supported snapshot is kept whole |
| Handlers.Registration | services/zigbee2mqtt-controller-service/src/handlers.ts:49-59 | `name = friendly_name`, `description = definition.description`, `powerSource = power_source`, and the capabilities are the mapped leaves, Σ (light ? \|features\| : 1) of them; it fails exactly when some leaf's code is unknown, with the error of the first such leaf in depth-first order (the error the exposes `flatMap` throws) |
| Handlers.RegisterAll | services/zigbee2mqtt-controller-service/src/handlers.ts:49-60 | one registration input per device, same order, exactly when every registration succeeds; otherwise the error of the first device whose registration fails |
| Handlers.RegisterPayload | services/zigbee2mqtt-controller-service/src/handlers.ts:47-60 | the register payload lists only supported devices, in snapshot order, each as its registration input; it is built exactly when every supported device's registration succeeds, and otherwise fails with the error of the first supported device whose registration fails |
| Handlers.At | services/zigbee2mqtt-controller-service/src/handlers.ts:75 | `bridgeDevices[index]` is the device at that position, or undefined exactly past the end of the snapshot |
| Handlers.Records | services/zigbee2mqtt-controller-service/src/handlers.ts:70-79 | the record map's keys are exactly the returned ids |
| Handlers.RecordsPairByPosition | services/zigbee2mqtt-controller-service/src/handlers.ts:69-79 | returned id i (not repeated later) is recorded against `bridgeDevices[i]` of the unfiltered snapshot, or undefined past its end |
| Handlers.RecordsMatchRequests | services/zigbee2mqtt-controller-service/src/handlers.ts:47-79 | when every device is supported and the ids are distinct, id i is recorded against snapshot device i, whose registration input is payload entry i |
| Handlers.UnsupportedDeviceTakesNextId | services/zigbee2mqtt-controller-service/src/handlers.ts:47-79 | for the snapshot [coordinator, lamp] the payload holds only the lamp, yet the one returned id is recorded against the coordinator |
| Handlers.BridgeDeviceHandler | services/zigbee2mqtt-controller-service/src/handlers.ts:27-80 | the unregister call always comes first, and its error stops everything; a capability error stops the handler before the register call; the register call carries the controller and the payload; a register error stops before the records are built; otherwise the outcome is the positional record map |
| LevelDb.Get | lib/store/src/index.ts:24-27 | LevelDB's `get` yields the stored value, or rejects with NotFoundError exactly when the key is absent |
| LevelDb.Write | lib/store/src/index.ts:68-85 | one LevelDB operation: a put stores its value under its key, a del removes its key, and every other key keeps its presence and value |
| LevelDb.ApplyAll | lib/store/src/index.ts:68-85 | after a LevelDB batch a key is newly present only if some operation puts it, and newly absent only if some operation deletes it |
| LevelDb.ApplyAllUntouched | lib/store/src/index.ts:68-85 | a key no operation touches keeps its presence and value |
| LevelDb.ApplyAllLastWins | lib/store/src/index.ts:68-85 | the last operation on a key decides it: a put leaves its value, a del leaves the key absent |
| LevelDb.ApplyAllPreserves | lib/store/src/index.ts:68-85 | a property every put respects and every old entry has holds of every entry after the batch |
| LevelDb.ApplyAllConsistent | lib/store/src/index.ts:68-85 | a batch keeps the key order ascending and equal to the key set |
| LevelDb.InsertSorted | lib/store/src/index.ts:37-39 | a put keeps the key order ascending, adding its key |
| LevelDb.RemoveSorted | lib/store/src/index.ts:41-43 | a del keeps the key order ascending, dropping its key |
| LevelDb.SortedDistinct | lib/store/src/index.ts:45-54 | an ascending key order lists each key once |
| KeyValueStore.ToLevelOps | lib/store/src/index.ts:68-85 | one LevelDB operation per store operation, same order and key; `set` becomes `put` with the same value and `delete` becomes `del` |
| KeyValueStore.ApplyBatch | lib/store/src/index.ts:68-85 | after a store batch a key is newly present only if some operation sets it, and newly absent only if some operation deletes it |
| KeyValueStore.CatchNotFound | lib/store/src/index.ts:24-35 | `null` exactly for a NotFoundError; a value is returned as is; any other error is rethrown unchanged |
| KeyValueStore.DeleteOps | services/device-registry-service/src/device-store.ts:29-36 | one `delete` operation per id, in order |
| KeyValueStore.BatchUntouched | lib/store/src/index.ts:68-85 | keys that no store operation names are unchanged by `batch` |
| KeyValueStore.BatchLastWins | lib/store/src/index.ts:68-85 | the last store operation naming a key decides its final value or absence |
| KeyValueStore.BatchPreserves | lib/store/src/index.ts:68-85 | an entry property every `set` respects survives `batch` |
| KeyValueStore.DeleteAllEffect | lib/store/src/index.ts:68-85 | a batch of deletes removes exactly the named keys |
| KeyValueStore.ValuesOf | lib/store/src/index.ts:56-66 | one value per listed key, the value stored under it |
| KeyValueStore.DistinctListingCount | lib/store/src/index.ts:56-66 | a key order listing each key once has as many entries as the store has keys |
| KeyValueStore.ListingContents | lib/store/src/index.ts:56-66 | the value stream of a consistent database has one value per entry and exactly the stored values |
| KeyValueStore.Store.constructor | lib/store/src/index.ts:13-22 | a store over a freshly opened database is empty |
| KeyValueStore.Store.Get | lib/store/src/index.ts:24-35 | `get` never rejects: it returns `null` exactly when the key is absent and the stored value otherwise |
| KeyValueStore.Store.Set | lib/store/src/index.ts:37-39 | afterwards `get(key)` is the value and every other key is unchanged |
| KeyValueStore.Store.Delete | lib/store/src/index.ts:41-43 | afterwards the key is absent and every other key is unchanged |
| KeyValueStore.Store.Keys | lib/store/src/index.ts:45-54 | every stored key exactly once, in ascending stream order |
| KeyValueStore.Store.Values | lib/store/src/index.ts:56-66 | one value per stored entry, in key order, and exactly the stored values |
| KeyValueStore.Store.Batch | lib/store/src/index.ts:68-85 | the entries become those of the translated operations applied in order |
| ControllerDao.StoreOps | services/zigbee2mqtt-controller-service/src/dao.ts:13-21 | one `set` per record, keyed by the record's id, with the record as value, in order |
| ControllerDao.Dao.constructor | services/zigbee2mqtt-controller-service/src/dao.ts:11 | the DAO wraps the given store |
| ControllerDao.Dao.StoreDevices | services/zigbee2mqtt-controller-service/src/dao.ts:13-21 | with distinct ids, `getDevice(r.id)` is then `r` for every record; keys no record names are unchanged |
| ControllerDao.Dao.RemoveDevices | services/zigbee2mqtt-controller-service/src/dao.ts:23-30 | every given id is then absent and every other key unchanged |
| ControllerDao.Dao.GetDevice | services/zigbee2mqtt-controller-service/src/dao.ts:32-34 | the record stored under the id, or `null` when none is stored |
| ControllerDao.Dao.GetAllDevices | services/zigbee2mqtt-controller-service/src/dao.ts:36-38 | one record per stored entry, in key order |
| RegistryStore.EntryOps | services/device-registry-service/src/device-store.ts:17-27 | one `set` per entry, same order, with key the entry's id and value its device |
| RegistryStore.EntryIds | services/device-registry-service/src/device-store.ts:21-23 | the batch keys: one id per entry, in order |
| RegistryStore.EntriesStored | services/device-registry-service/src/device-store.ts:17-27 | with distinct ids the batch leaves every entry's device under its id |
| RegistryStore.EntriesUntouched | services/device-registry-service/src/device-store.ts:17-27 | the batch changes no key outside the entries' ids |
| RegistryStore.EntriesKeyed | services/device-registry-service/src/device-store.ts:17-27 | entries keyed by their own device's id keep a store keyed by id |
| RegistryStore.ForController | services/device-registry-service/src/device-store.ts:11-15 | exactly the devices whose controller matches, as a subsequence in listing order, each as often as it is listed (other controllers' devices never) |
| RegistryStore.IdsOf | services/device-registry-service/src/schema/registering.ts:239 | the ids of the devices, in order |
| RegistryStore.OwnedIds | services/device-registry-service/src/schema/registering.ts:235-245 | when every device is stored under its own id, the ids of a controller's listed devices are exactly the keys of that controller's devices |
| RegistryStore.ListedIsOwned | services/device-registry-service/src/schema/registering.ts:235-245 | each listed id of a controller's device is a key that controller owns |
| RegistryStore.OwnedIsListed | services/device-registry-service/src/schema/registering.ts:235-245 | each key a controller owns is the id of one of its listed devices |
| RegistryStore.DeviceStore.constructor | services/device-registry-service/src/device-store.ts:5 | the device store wraps the given store |
| RegistryStore.DeviceStore.GetAllDevices | services/device-registry-service/src/device-store.ts:7-9 | every stored device, in key order |
| RegistryStore.DeviceStore.GetAllDevicesForController | services/device-registry-service/src/device-store.ts:11-15 | exactly the stored devices of that controller, in store order, a subsequence of all devices |
| RegistryStore.DeviceStore.CreateOrUpdateDevices | services/device-registry-service/src/device-store.ts:17-27 | with distinct ids every device is then stored under its id; keys outside the entries' ids are unchanged; storing devices under their own ids keeps the store keyed by id |
| RegistryStore.DeviceStore.RemoveDevices | services/device-registry-service/src/device-store.ts:29-36 | no given id remains a key and every other key is unchanged |
| Registering.MapInputDevice | services/device-registry-service/src/schema/registering.ts:14-27 | the fresh id; `name` is the input name, or the fresh id when absent; `description` and `powerSource` kept, `null` when absent; `exposes` is always `{type: 'unknown', capabilities: []}` |
| Registering.MapInputCapability | services/device-registry-service/src/schema/registering.ts:86-140 | `binary`/`numeric`/`enum` give the Binary/Numeric/Enum tag, in both directions; any other key fails with "Unimplemented capability type"; property and access copied; a missing description becomes `''`; numeric `max`/`min`/`unit` copied, `null` when absent; enum `values` copied, `[]` when absent |
| Registering.Entries | services/device-registry-service/src/schema/registering.ts:157 | a capability input object has three entries, keyed `binary`, `numeric` and `enum` in that order, each carrying a value exactly when the object sets that kind, with that kind's property, description and access, plus `min`/`max`/`unit` for numeric and `values` for enum |
| Registering.Present | services/device-registry-service/src/schema/registering.ts:157-160 | the non-null entries never outnumber the entries |
| Registering.PresentMembers | services/device-registry-service/src/schema/registering.ts:157-160 | the entries the loop does not skip are exactly the entries carrying a value, with their key |
| Registering.PresentAppend | services/device-registry-service/src/schema/registering.ts:157-160 | the non-null entries of two runs of entries are those of the first run, then those of the second: the loop keeps entry order |
| Registering.PresentCapabilities | services/device-registry-service/src/schema/registering.ts:157-165 | the non-null entries are mapped one-for-one and in order; it fails exactly when some entry's key is unknown, and then with the error of the first such key |
| Registering.EntryCapabilities | services/device-registry-service/src/schema/registering.ts:154-166 | the loop collects, one-for-one and in order, the mapping of each non-null entry; when it throws it is with the error of a non-null entry whose key is unknown |
| Registering.EntryErrors | services/device-registry-service/src/schema/registering.ts:157-163 | the loop throws exactly when some non-null entry has an unknown key, and then with the first such key's error |
| Registering.EntryCapabilitiesFrom | services/device-registry-service/src/schema/registering.ts:157-163 | the loop from entry i on: a null entry is skipped, a non-null one is mapped ahead of the rest |
| Registering.ObjectsCapabilitiesAppend | services/device-registry-service/src/schema/registering.ts:153-166 | the capabilities of a concatenation of capability objects are the in-order join of the parts' |
| Registering.ObjectsErrors | services/device-registry-service/src/schema/registering.ts:154-166 | the `flatMap` over capability objects succeeds exactly when every object's loop does, and otherwise throws the error of the first object whose loop throws |
| Registering.DeviceErrors | services/device-registry-service/src/schema/registering.ts:153-166 | absent capabilities give `[]`; a device's capabilities throw only the error of the first capability object whose loop throws |
| Registering.KnownKeysResolve | services/device-registry-service/src/schema/registering.ts:157-163 | the loop over any capability input object never throws: its keys are all ones the lookup table knows |
| Registering.SchemaCapabilitiesResolve | services/device-registry-service/src/schema/registering.ts:153-166 | the capabilities of any input device resolve |
| Registering.SchemaInputsResolve | services/device-registry-service/src/schema/registering.ts:150-167 | every list of input devices resolves, so the error path of `registerManyDevices` is never taken for inputs of the schema's types |
| Registering.ResolveDevice | services/device-registry-service/src/schema/registering.ts:150-167 | a resolved device carries its fresh id's defaults, the given controller and its input's capabilities; it throws exactly when those capabilities throw, and then their error (a path no input of the schema's types takes, see `SchemaCapabilitiesResolve`) |
| Registering.ResolveDevices | services/device-registry-service/src/schema/registering.ts:150-167 | one device per input, same order, each with its fresh id's defaults, the given controller and its input's capabilities; it throws exactly when some input's capabilities throw (a path `SchemaInputsResolve` shows is never taken) |
| Registering.KeyedEntries | services/device-registry-service/src/schema/registering.ts:169-174 | one entry per device, keyed by the device's id, same order |
| Registering.ResolvedIds | services/device-registry-service/src/schema/registering.ts:150-152 | resolved device i carries fresh id i |
| Registering.KeyedEntriesIds | services/device-registry-service/src/schema/registering.ts:169-174 | devices carrying the fresh ids are written under exactly those ids, in order |
| Registering.InputIds | services/device-registry-service/src/schema/registering.ts:211 | the input ids, in order |
| Registering.CollectCapabilities | services/device-registry-service/src/schema/registering.ts:154-166 | the `Object.entries` loop collects exactly the mapped non-null entries, or throws the first unknown key's error |
| Registering.ResolveCapabilities | services/device-registry-service/src/schema/registering.ts:153-166 | absent capabilities give `[]`; otherwise the `flatMap` result; the method equals `DeviceCapabilities`, the specification function whose properties `DeviceErrors` and `SchemaCapabilitiesResolve` state |
| Registering.ResolveObjects | services/device-registry-service/src/schema/registering.ts:154-166 | the `flatMap` over the capability objects concatenates each object's capabilities in order, or throws the first error; the method equals `ObjectsCapabilities`, the specification function whose properties `ObjectsErrors` and `ObjectsCapabilitiesAppend` state |
| Registering.ResolveAll | services/device-registry-service/src/schema/registering.ts:150-167 | the `devices.map` loop yields the resolved devices, or the first error thrown |
| Registering.StoreResolved | services/device-registry-service/src/schema/registering.ts:169-174 | the batch writes each resolved device under its own id: with distinct ids device i is then stored under id i, no key outside the ids changes, and the store stays keyed by id |
| Registering.RegisterManyDevices | services/device-registry-service/src/schema/registering.ts:149-177 | returns the resolved devices (always a success, by `SchemaInputsResolve`); with distinct ids device i is then stored under id i, no other key changes, and the store stays keyed by id; the error half, nothing written, is the source's throw path |
| Registering.RegisterDevice | services/device-registry-service/src/schema/registering.ts:60-73 | the device gets the input's defaults, the given controller and no capabilities whatever the input lists; it is stored under its own id and returned as stored |
| Registering.UnregisterManyDevices | services/device-registry-service/src/schema/registering.ts:210-216 | the reported ids are the input ids in order, and exactly those keys are deleted |
| Registering.UnregisterAllDevicesForController | services/device-registry-service/src/schema/registering.ts:235-245 | the reported ids are exactly the controller's devices, which are exactly the devices deleted; all others stay |
| LegacySchema.ResolvedDevice | services/device-registry-service/src/schema.ts:122-134 | the fresh id; `name` is the input name or the id; `description` and `powerSource` kept, `null` when absent; `exposes` is `{type: 'unknown', capabilities: []}` |
| LegacySchema.CreateDevice | services/device-registry-service/src/schema.ts:122-137 | the device is written under exactly its own id, the returned value is the stored one, and no other key changes |
| EndToEnd.LeafResolves | services/device-registry-service/src/schema/registering.ts:86-140 | a capability object built by the controller resolves in the registry to exactly one capability of the same kind, property, decoded access and range, unit or values, with a missing description as `''` |
| EndToEnd.LeavesResolve | services/device-registry-service/src/schema/registering.ts:153-166 | the controller's mapped leaves resolve one-for-one and in order |
| EndToEnd.RegistrationResolves | services/zigbee2mqtt-controller-service/src/handlers.ts:49-59 | the registry accepts every registration input the controller builds, and stores one capability per leaf, Σ (light ? \|features\| : 1) of them |
| EndToEnd.Reassigned | services/zigbee2mqtt-controller-service/src/handlers.ts:28-62 | clearing a controller and writing its devices under ids no entry had leaves it owning exactly those ids; outside those ids the store is exactly the start minus the controller's old entries, so every other controller's entries are as they were and none is added |
| EndToEnd.Resynchronise | services/zigbee2mqtt-controller-service/src/handlers.ts:28-62 | unregister-all then register-many with fresh distinct ids always succeeds; fresh id i then holds resolved device i, the controller owns exactly the fresh ids, its old devices are reported as deleted, and outside the fresh ids the store is exactly the old store minus the controller's devices |

## Left out

- The MQTT connection, subscription, topic matching and JSON decoding of the snapshot: the handler receives the
  decoded snapshot.
- `fetchGql` and the network. The registry's answer to each of the two mutations is a function parameter: an
  errors list or the returned ids.
- The Koa API, the Apollo server and the Nexus type declarations. The `__typename`-based union resolution is
  represented by the capability's constructor.
- `uuid()`. Fresh ids are parameters, and the registry resolvers take one id per device.
- JSON encoding in LevelDB. Values are stored and read back unchanged.
- Asynchrony, promises and concurrent calls. Every operation runs to completion in sequence.
- LevelDB errors other than not-found. `LevelError` lists them, but the in-memory handle never raises one, so
  `KeyValueStore.Store.Get` always succeeds.
- The `Store` constructor's two sources, a location to open and an injected handle: the model starts from an
  empty database.
- `console.log` in `values` and in the handler.
- The handler's final `dao.storeDevices(records)` call. The records form an id-to-record object, not the array
  that `storeDevices` maps over. `Handlers.BridgeDeviceHandler` returns the records and does not claim the
  store call succeeds.
- Extra fields copied by object spread (`...device`, `...inputCapability`): the input types have none beyond
  the modelled ones.
- `Registering.MapInputCapability` is defined on any key, but the entries of a capability object only ever
  carry `binary`, `numeric` and `enum` (`Registering.KnownKeysResolve`), so the rejection path of the
  registry resolvers is modelled but never taken. Keys inherited from `Object.prototype` (which the lookup
  table would find) are not modelled.
- Floating-point `min`/`max`/`value_min`/`value_max` are `real` and only copied.
- Reconciliation by difference: the code unregisters all of a controller's devices and registers the snapshot
  afresh, and so does the model.
