/**
  The generic key/value store of `lib/store`: a `Store<T>` object wrapping a LevelDB handle. The handle
  is the pair of fields `db` (the entries) and `order` (the order in which LevelDB's streams visit them).
 */
module KeyValueStore {
  import opened Wrappers
  import opened LevelDb

  /** An operation accepted by `Store.batch`. */
  datatype BatchOperation<T> = SetOp(key: string, value: T) | DeleteOp(key: string)

  /** The operation list handed to LevelDB: one operation per input, same order; set becomes put, delete becomes del. */
  function ToLevelOps<T>(ops: seq<BatchOperation<T>>): (r: seq<LevelOp<T>>)
    ensures |r| == |ops|
    ensures forall i :: 0 <= i < |ops| ==>
              && r[i].key == ops[i].key
              && (r[i].Put? <==> ops[i].SetOp?)
              && (ops[i].SetOp? ==> r[i].value == ops[i].value)
  {
    if ops == [] then []
    else
      var head := match ops[0] case SetOp(k, v) => Put(k, v) case DeleteOp(k) => Del(k);
      [head] + ToLevelOps(ops[1..])
  }

  /**
    The entries after a store batch: a key ends up present only if it was present or some operation sets it,
    and absent only if it was absent or some operation deletes it.
   */
  function ApplyBatch<T>(m: map<string, T>, ops: seq<BatchOperation<T>>): (r: map<string, T>)
    ensures forall k :: k in r && k !in m ==> exists i :: 0 <= i < |ops| && ops[i].SetOp? && ops[i].key == k
    ensures forall k :: k in m && k !in r ==> exists i :: 0 <= i < |ops| && ops[i].DeleteOp? && ops[i].key == k
  {
    ApplyAll(m, ToLevelOps(ops))
  }

  /** The catch block of `Store.get`: a NotFoundError becomes null, any other error is rethrown. */
  function CatchNotFound<T>(raw: Result<T, LevelError>): (r: Result<Option<T>, LevelError>)
    ensures (r.Success? && r.value.None?) <==> raw == Failure(NotFoundError)
    ensures raw.Success? ==> r == Success(Some(raw.value))
    ensures raw.Failure? && raw.error != NotFoundError ==> r == Failure(raw.error)
  {
    match raw
    case Success(v) => Success(Some(v))
    case Failure(e) => if e == NotFoundError then Success(None) else Failure(e)
  }

  /** The operation list that removes `ids`: one delete per id, in order. */
  function DeleteOps<T>(ids: seq<string>): (r: seq<BatchOperation<T>>)
    ensures |r| == |ids|
    ensures forall i :: 0 <= i < |ids| ==> r[i] == DeleteOp(ids[i])
  {
    if ids == [] then [] else [DeleteOp(ids[0])] + DeleteOps(ids[1..])
  }

  /** A key that no operation names keeps its entry, or stays absent. */
  lemma BatchUntouched<T>(m: map<string, T>, ops: seq<BatchOperation<T>>, k: string)
    requires forall i :: 0 <= i < |ops| ==> ops[i].key != k
    ensures k in ApplyBatch(m, ops) <==> k in m
    ensures k in m ==> ApplyBatch(m, ops)[k] == m[k]
  {
    ApplyAllUntouched(m, ToLevelOps(ops), k);
  }

  /** The last operation naming a key decides it: after a set the key holds its value, after a delete it is absent. */
  lemma BatchLastWins<T>(m: map<string, T>, ops: seq<BatchOperation<T>>, i: nat)
    requires i < |ops|
    requires forall j :: i < j < |ops| ==> ops[j].key != ops[i].key
    ensures ops[i].SetOp? ==> ops[i].key in ApplyBatch(m, ops) && ApplyBatch(m, ops)[ops[i].key] == ops[i].value
    ensures ops[i].DeleteOp? ==> ops[i].key !in ApplyBatch(m, ops)
  {
    ApplyAllLastWins(m, ToLevelOps(ops), i);
  }

  /** A property every entry has, and every set writes, holds of every entry after the batch. */
  lemma BatchPreserves<T>(m: map<string, T>, ops: seq<BatchOperation<T>>, p: (string, T) -> bool)
    requires forall k :: k in m ==> p(k, m[k])
    requires forall i :: 0 <= i < |ops| && ops[i].SetOp? ==> p(ops[i].key, ops[i].value)
    ensures forall k :: k in ApplyBatch(m, ops) ==> p(k, ApplyBatch(m, ops)[k])
  {
    ApplyAllPreserves(m, ToLevelOps(ops), p);
  }

  /** Deleting `ids` removes exactly those keys and keeps every other entry. */
  lemma {:induction false} DeleteAllEffect<T>(m: map<string, T>, ids: seq<string>)
    ensures ApplyBatch(m, DeleteOps<T>(ids)) == m - (set id | id in ids)
    decreases |ids|
  {
    if ids != [] {
      var ops := DeleteOps<T>(ids);
      assert ToLevelOps(ops) == [Del(ids[0])] + ToLevelOps(ops[1..]);
      assert ops[1..] == DeleteOps<T>(ids[1..]);
      DeleteAllEffect(m - {ids[0]}, ids[1..]);
      assert (m - {ids[0]}) - (set id | id in ids[1..]) == m - (set id | id in ids);
    }
  }

  /** The stored values listed in the order of `ks`. */
  function ValuesOf<T>(m: map<string, T>, ks: seq<string>): (r: seq<T>)
    requires forall k :: k in ks ==> k in m
    ensures |r| == |ks|
    ensures forall i :: 0 <= i < |ks| ==> r[i] == m[ks[i]]
    decreases |ks|
  {
    if ks == [] then [] else ValuesOf(m, ks[..|ks| - 1]) + [m[ks[|ks| - 1]]]
  }

  /** A list of distinct keys that names exactly the keys of a set is as long as the set is large. */
  lemma {:induction false} DistinctListingCount(ks: seq<string>, keys: set<string>)
    requires forall i, j :: 0 <= i < j < |ks| ==> ks[i] != ks[j]
    requires forall k :: k in ks <==> k in keys
    ensures |ks| == |keys|
    decreases |ks|
  {
    if ks != [] {
      var rest := keys - {ks[0]};
      forall k ensures k in ks[1..] <==> k in rest {
        if k in ks[1..] {
          var j :| 0 <= j < |ks[1..]| && ks[1..][j] == k;
          assert ks[j + 1] == k;
        }
      }
      DistinctListingCount(ks[1..], rest);
    }
  }

  /** The listing of a consistent database holds one value per entry, and exactly the stored values. */
  lemma ListingContents<T>(db: map<string, T>, order: seq<string>)
    requires Consistent(db, order)
    ensures |ValuesOf(db, order)| == |db|
    ensures forall v :: v in ValuesOf(db, order) <==> exists k :: k in db && db[k] == v
  {
    var values := ValuesOf(db, order);
    SortedDistinct(order);
    DistinctListingCount(order, db.Keys);
    forall v ensures v in values <==> exists k :: k in db && db[k] == v {
      if v in values {
        var j :| 0 <= j < |values| && values[j] == v;
        assert order[j] in db;
      }
      if exists k :: k in db && db[k] == v {
        var k :| k in db && db[k] == v;
        var j :| 0 <= j < |order| && order[j] == k;
        assert values[j] == v;
      }
    }
  }

  class Store<T> {
    var db: map<string, T>
    var order: seq<string>

    ghost predicate Valid()
      reads this
    {
      Consistent(db, order)
    }

    /** A store over a freshly opened, empty database. */
    constructor ()
      ensures Valid()
      ensures db == map[] && order == []
    {
      db := map[];
      order := [];
    }

    /** The value stored under `key`, if any. */
    function Lookup(key: string): Option<T>
      reads this
    {
      if key in db then Some(db[key]) else None
    }

    /** The values in stream order. */
    function Listing(): (r: seq<T>)
      reads this
      requires Valid()
    {
      ValuesOf(db, order)
    }

    method Get(key: string) returns (r: Result<Option<T>, LevelError>)
      ensures r.Success?
      ensures r.value.None? <==> key !in db
      ensures r.value.Some? ==> r.value.value == db[key]
    {
      var raw := LevelDb.Get(db, key);
      r := CatchNotFound(raw);
    }

    method Set(key: string, value: T)
      requires Valid()
      modifies this
      ensures Valid()
      ensures db == old(db)[key := value]
      ensures Lookup(key) == Some(value)
      ensures forall k :: k != key ==> Lookup(k) == old(Lookup(k))
    {
      InsertSorted(order, key);
      db := Write(db, Put(key, value));
      order := Reorder(order, Put(key, value));
    }

    method Delete(key: string)
      requires Valid()
      modifies this
      ensures Valid()
      ensures db == old(db) - {key}
      ensures Lookup(key) == None
      ensures forall k :: k != key ==> Lookup(k) == old(Lookup(k))
    {
      RemoveSorted(order, key);
      db := Write(db, LevelOp<T>.Del(key));
      order := Reorder(order, LevelOp<T>.Del(key));
    }

    /** Collects the key stream: every stored key exactly once, ascending. */
    method Keys() returns (keys: seq<string>)
      requires Valid()
      ensures forall k :: k in keys <==> k in db
      ensures forall i, j :: 0 <= i < j < |keys| ==> keys[i] != keys[j]
      ensures Sorted(keys)
    {
      keys := [];
      var i := 0;
      while i < |order|
        invariant 0 <= i <= |order|
        invariant keys == order[..i]
      {
        keys := keys + [order[i]];
        i := i + 1;
      }
      assert keys == order;
      SortedDistinct(keys);
    }

    /** Collects the value stream: one value per stored entry, in key order. */
    method Values() returns (values: seq<T>)
      requires Valid()
      ensures values == Listing()
      ensures |values| == |db|
      ensures forall v :: v in values <==> exists k :: k in db && db[k] == v
    {
      values := [];
      var i := 0;
      while i < |order|
        invariant 0 <= i <= |order|
        invariant values == ValuesOf(db, order[..i])
      {
        assert order[..i + 1][..i] == order[..i];
        values := values + [db[order[i]]];
        i := i + 1;
      }
      assert order[..i] == order;
      ListingContents(db, order);
    }

    /** Hands LevelDB one translated operation per input operation, which it applies in order. */
    method Batch(ops: seq<BatchOperation<T>>)
      requires Valid()
      modifies this
      ensures Valid()
      ensures db == ApplyBatch(old(db), ops)
    {
      var levelOps := ToLevelOps(ops);
      ApplyAllConsistent(db, order, levelOps);
      db, order := ApplyAll(db, levelOps), ReorderAll(order, levelOps);
    }
  }
}
