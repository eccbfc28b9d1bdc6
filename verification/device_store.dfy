/** The registry's device store: `Device`s in a key/value store, keyed by id. */
module RegistryStore {
  import opened Wrappers
  import opened Sequences
  import opened LevelDb
  import opened KeyValueStore
  import opened RegistryTypes

  datatype DeviceEntry = DeviceEntry(id: string, device: Device)

  /** The batch `createOrUpdateDevices` issues: one set per entry, keyed by the entry's id, in order. */
  function EntryOps(entries: seq<DeviceEntry>): (r: seq<BatchOperation<Device>>)
    ensures |r| == |entries|
    ensures forall i :: 0 <= i < |entries| ==> r[i] == SetOp(entries[i].id, entries[i].device)
  {
    if entries == [] then [] else [SetOp(entries[0].id, entries[0].device)] + EntryOps(entries[1..])
  }

  /** No two entries share an id. */
  predicate DistinctEntries(entries: seq<DeviceEntry>)
  {
    forall i, j :: 0 <= i < j < |entries| ==> entries[i].id != entries[j].id
  }

  /** Every entry is keyed by its own device's id. */
  predicate SelfKeyed(entries: seq<DeviceEntry>)
  {
    forall i :: 0 <= i < |entries| ==> entries[i].id == entries[i].device.Id()
  }

  /** The ids of the entries, in order. */
  function EntryIds(entries: seq<DeviceEntry>): (r: seq<string>)
    ensures |r| == |entries|
    ensures forall i :: 0 <= i < |entries| ==> r[i] == entries[i].id
  {
    seq(|entries|, i requires 0 <= i < |entries| => entries[i].id)
  }

  /** The devices registered by `controller`, in the order given. */
  function ForController(devices: seq<Device>, controller: string): (r: seq<Device>)
    ensures forall d :: d in r <==> d in devices && d.controller == controller
    ensures SubsequenceOf(r, devices)
    ensures forall d :: multiset(r)[d] == if d.controller == controller then multiset(devices)[d] else 0
  {
    if devices == [] then []
    else if devices[0].controller == controller then
      var r := [devices[0]] + ForController(devices[1..], controller);
      assert r[1..] == ForController(devices[1..], controller);
      assert devices == [devices[0]] + devices[1..];
      r
    else
      assert devices == [devices[0]] + devices[1..];
      ForController(devices[1..], controller)
  }

  /** The ids of the devices, in order. */
  function IdsOf(devices: seq<Device>): (r: seq<string>)
    ensures |r| == |devices|
    ensures forall i :: 0 <= i < |devices| ==> r[i] == devices[i].Id()
  {
    seq(|devices|, i requires 0 <= i < |devices| => devices[i].Id())
  }

  /** Every device is stored under its own id, as every resolver writes it. */
  ghost predicate KeyedById(db: map<string, Device>)
  {
    forall k :: k in db ==> db[k].Id() == k
  }

  /** The keys of the devices registered by `controller`. */
  ghost function OwnedBy(db: map<string, Device>, controller: string): set<string>
  {
    set k | k in db && db[k].controller == controller
  }

  /**
    When every device is stored under its own id, the ids of the listed devices of a controller are exactly
    the keys that controller owns.
   */
  lemma OwnedIds(db: map<string, Device>, order: seq<string>, controller: string)
    requires Consistent(db, order)
    requires KeyedById(db)
    ensures forall id :: id in IdsOf(ForController(ValuesOf(db, order), controller)) <==> id in OwnedBy(db, controller)
    ensures (set id | id in IdsOf(ForController(ValuesOf(db, order), controller))) == OwnedBy(db, controller)
  {
    var ids := IdsOf(ForController(ValuesOf(db, order), controller));
    forall id ensures id in ids <==> id in OwnedBy(db, controller) {
      if id in ids {
        var i :| 0 <= i < |ids| && ids[i] == id;
        ListedIsOwned(db, order, controller, i);
      }
      if id in OwnedBy(db, controller) {
        OwnedIsListed(db, order, controller, id);
      }
    }
  }

  /** Each listed id of a controller's device is a key the controller owns. */
  lemma ListedIsOwned(db: map<string, Device>, order: seq<string>, controller: string, i: nat)
    requires Consistent(db, order)
    requires KeyedById(db)
    requires i < |ForController(ValuesOf(db, order), controller)|
    ensures IdsOf(ForController(ValuesOf(db, order), controller))[i] in OwnedBy(db, controller)
  {
    var listing := ValuesOf(db, order);
    var owned := ForController(listing, controller);
    assert owned[i] in listing;
    var j :| 0 <= j < |listing| && listing[j] == owned[i];
    assert db[order[j]] == owned[i];
  }

  /** Each key a controller owns is the id of one of its listed devices. */
  lemma OwnedIsListed(db: map<string, Device>, order: seq<string>, controller: string, id: string)
    requires Consistent(db, order)
    requires KeyedById(db)
    requires id in OwnedBy(db, controller)
    ensures id in IdsOf(ForController(ValuesOf(db, order), controller))
  {
    var listing := ValuesOf(db, order);
    var owned := ForController(listing, controller);
    var j :| 0 <= j < |order| && order[j] == id;
    assert listing[j] == db[id];
    assert db[id] in owned;
    var i :| 0 <= i < |owned| && owned[i] == db[id];
    assert IdsOf(owned)[i] == id;
  }

  /** With distinct ids, the batch of `createOrUpdateDevices` leaves every entry's device under its id. */
  lemma EntriesStored(m: map<string, Device>, entries: seq<DeviceEntry>)
    requires DistinctEntries(entries)
    ensures forall i :: 0 <= i < |entries| ==>
              entries[i].id in ApplyBatch(m, EntryOps(entries)) && ApplyBatch(m, EntryOps(entries))[entries[i].id] == entries[i].device
  {
    forall i | 0 <= i < |entries|
      ensures entries[i].id in ApplyBatch(m, EntryOps(entries)) && ApplyBatch(m, EntryOps(entries))[entries[i].id] == entries[i].device
    {
      BatchLastWins(m, EntryOps(entries), i);
    }
  }

  /** The batch of `createOrUpdateDevices` changes no key outside the entries' ids. */
  lemma EntriesUntouched(m: map<string, Device>, entries: seq<DeviceEntry>)
    ensures ApplyBatch(m, EntryOps(entries)) - (set id | id in EntryIds(entries)) == m - (set id | id in EntryIds(entries))
  {
    var ops := EntryOps(entries);
    forall k | k !in EntryIds(entries)
      ensures (k in ApplyBatch(m, ops) <==> k in m) && (k in m ==> ApplyBatch(m, ops)[k] == m[k])
    {
      assert forall i :: 0 <= i < |ops| ==> ops[i].key != k by {
        assert forall i :: 0 <= i < |entries| ==> EntryIds(entries)[i] == entries[i].id;
      }
      BatchUntouched(m, ops, k);
    }
  }

  /** Entries that key each device by its own id keep the store keyed by id. */
  lemma EntriesKeyed(m: map<string, Device>, entries: seq<DeviceEntry>)
    requires KeyedById(m)
    requires SelfKeyed(entries)
    ensures KeyedById(ApplyBatch(m, EntryOps(entries)))
  {
    BatchPreserves(m, EntryOps(entries), (k: string, d: Device) => d.Id() == k);
  }

  class DeviceStore {
    const store: Store<Device>

    constructor (store: Store<Device>)
      ensures this.store == store
    {
      this.store := store;
    }

    method GetAllDevices() returns (r: seq<Device>)
      requires store.Valid()
      ensures r == store.Listing()
    {
      r := store.Values();
    }

    method GetAllDevicesForController(controller: string) returns (r: seq<Device>)
      requires store.Valid()
      ensures r == ForController(store.Listing(), controller)
      ensures forall d :: d in r <==> d.controller == controller && exists k :: k in store.db && store.db[k] == d
    {
      var allDevices := store.Values();
      r := ForController(allDevices, controller);
    }

    method CreateOrUpdateDevices(devices: seq<DeviceEntry>)
      requires store.Valid()
      modifies store
      ensures store.Valid()
      ensures store.db == ApplyBatch(old(store.db), EntryOps(devices))
      ensures DistinctEntries(devices) ==>
                forall i :: 0 <= i < |devices| ==> store.Lookup(devices[i].id) == Some(devices[i].device)
      ensures store.db - (set id | id in EntryIds(devices)) == old(store.db) - (set id | id in EntryIds(devices))
      ensures old(KeyedById(store.db)) && SelfKeyed(devices) ==>
                KeyedById(store.db)
    {
      ghost var before := store.db;
      EntriesUntouched(before, devices);
      if DistinctEntries(devices) {
        EntriesStored(before, devices);
      }
      if KeyedById(before) && SelfKeyed(devices) {
        EntriesKeyed(before, devices);
      }
      store.Batch(EntryOps(devices));
    }

    method RemoveDevices(deviceIds: seq<string>)
      requires store.Valid()
      modifies store
      ensures store.Valid()
      ensures store.db == old(store.db) - (set id | id in deviceIds)
      ensures forall id :: id in deviceIds ==> store.Lookup(id) == None
      ensures forall k :: k !in deviceIds ==> store.Lookup(k) == old(store.Lookup(k))
      ensures old(KeyedById(store.db)) ==> KeyedById(store.db)
    {
      store.Batch(DeleteOps(deviceIds));
      DeleteAllEffect(old(store.db), deviceIds);
    }
  }
}
