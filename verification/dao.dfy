/** The controller's local memory of registered devices: `DeviceRecord`s in a key/value store, keyed by registry id. */
module ControllerDao {
  import opened Wrappers
  import opened LevelDb
  import opened KeyValueStore
  import opened BridgeTypes

  datatype DeviceRecord = DeviceRecord(bridgeDevice: BridgeDevice, id: string)

  /** The batch `storeDevices` issues: one set per record, keyed by its id, in order. */
  function StoreOps(devices: seq<DeviceRecord>): (r: seq<BatchOperation<DeviceRecord>>)
    ensures |r| == |devices|
    ensures forall i :: 0 <= i < |devices| ==> r[i] == SetOp(devices[i].id, devices[i])
  {
    if devices == [] then [] else [SetOp(devices[0].id, devices[0])] + StoreOps(devices[1..])
  }

  predicate DistinctIds(devices: seq<DeviceRecord>)
  {
    forall i, j :: 0 <= i < j < |devices| ==> devices[i].id != devices[j].id
  }

  class Dao {
    const store: Store<DeviceRecord>

    constructor (store: Store<DeviceRecord>)
      ensures this.store == store
    {
      this.store := store;
    }

    method StoreDevices(devices: seq<DeviceRecord>)
      requires store.Valid()
      modifies store
      ensures store.Valid()
      ensures store.db == ApplyBatch(old(store.db), StoreOps(devices))
      ensures DistinctIds(devices) ==>
                forall i :: 0 <= i < |devices| ==> store.Lookup(devices[i].id) == Some(devices[i])
      ensures forall k :: (forall i :: 0 <= i < |devices| ==> devices[i].id != k) ==>
                store.Lookup(k) == old(store.Lookup(k))
    {
      var ops := StoreOps(devices);
      store.Batch(ops);
      forall k | forall i :: 0 <= i < |devices| ==> devices[i].id != k
        ensures store.Lookup(k) == old(store.Lookup(k))
      {
        BatchUntouched(old(store.db), ops, k);
      }
      if DistinctIds(devices) {
        forall i | 0 <= i < |devices|
          ensures store.Lookup(devices[i].id) == Some(devices[i])
        {
          BatchLastWins(old(store.db), ops, i);
        }
      }
    }

    method RemoveDevices(deviceIds: seq<string>)
      requires store.Valid()
      modifies store
      ensures store.Valid()
      ensures store.db == old(store.db) - (set id | id in deviceIds)
      ensures forall id :: id in deviceIds ==> store.Lookup(id) == None
      ensures forall k :: k !in deviceIds ==> store.Lookup(k) == old(store.Lookup(k))
    {
      store.Batch(DeleteOps(deviceIds));
      DeleteAllEffect(old(store.db), deviceIds);
    }

    method GetDevice(uuid: string) returns (r: Result<Option<DeviceRecord>, LevelError>)
      ensures r == Success(store.Lookup(uuid))
    {
      r := store.Get(uuid);
    }

    method GetAllDevices() returns (r: seq<DeviceRecord>)
      requires store.Valid()
      ensures r == store.Listing()
      ensures |r| == |store.db|
    {
      r := store.Values();
    }
  }
}
