/**
  The LevelDB handle that the key/value store wraps. It is a foreign library; here it is an in-memory
  map from keys to values together with the order in which its key and value streams visit the keys.
  LevelDB's default comparator orders keys bytewise, which for UTF-8 text is the order of code points:
  `Below` below.
 */
module LevelDb {
  import opened Wrappers

  /** The `level.errors` classes a LevelDB call can reject with. */
  datatype LevelError =
    | LevelUPError
    | InitializationError
    | OpenError
    | ReadError
    | WriteError
    | NotFoundError
    | EncodingError

  /** One operation of `db.batch`. */
  datatype LevelOp<T> = Put(key: string, value: T) | Del(key: string)

  /** Strict lexicographic order of keys, character by character. */
  predicate Below(a: string, b: string)
    decreases |a|
  {
    |b| > 0 && (|a| == 0 || a[0] < b[0] || (a[0] == b[0] && Below(a[1..], b[1..])))
  }

  lemma {:induction false} BelowIrreflexive(a: string)
    ensures !Below(a, a)
    decreases |a|
  {
    if |a| > 0 {
      BelowIrreflexive(a[1..]);
    }
  }

  lemma {:induction false} BelowTransitive(a: string, b: string, c: string)
    requires Below(a, b) && Below(b, c)
    ensures Below(a, c)
    decreases |a|
  {
    if |a| > 0 && a[0] == b[0] && b[0] == c[0] {
      BelowTransitive(a[1..], b[1..], c[1..]);
    }
  }

  lemma {:induction false} BelowTotal(a: string, b: string)
    requires a != b
    ensures Below(a, b) || Below(b, a)
    decreases |a|
  {
    if |a| > 0 && |b| > 0 && a[0] == b[0] {
      assert a == [a[0]] + a[1..] && b == [b[0]] + b[1..];
      BelowTotal(a[1..], b[1..]);
    }
  }

  /** Strictly ascending: the order in which LevelDB's streams visit keys, each key once. */
  ghost predicate Sorted(s: seq<string>)
  {
    forall i, j :: 0 <= i < j < |s| ==> Below(s[i], s[j])
  }

  lemma SortedDistinct(s: seq<string>)
    requires Sorted(s)
    ensures forall i, j :: 0 <= i < j < |s| ==> s[i] != s[j]
  {
    forall i, j | 0 <= i < j < |s| ensures s[i] != s[j] {
      BelowIrreflexive(s[i]);
    }
  }

  /** The key order after `k` is put: `k` takes its place among the keys unless it is already there. */
  function Insert(s: seq<string>, k: string): (r: seq<string>)
  {
    if s == [] then [k]
    else if s[0] == k then s
    else if Below(k, s[0]) then [k] + s
    else [s[0]] + Insert(s[1..], k)
  }

  /** The key order after `k` is deleted. */
  function Remove(s: seq<string>, k: string): (r: seq<string>)
  {
    if s == [] then []
    else if s[0] == k then Remove(s[1..], k)
    else [s[0]] + Remove(s[1..], k)
  }

  lemma {:induction false} InsertSorted(s: seq<string>, k: string)
    requires Sorted(s)
    ensures Sorted(Insert(s, k))
    ensures forall x :: x in Insert(s, k) <==> x in s || x == k
  {
    if s == [] {
    } else if s[0] == k {
    } else if Below(k, s[0]) {
      var r := [k] + s;
      forall i, j | 0 <= i < j < |r| ensures Below(r[i], r[j]) {
        if i == 0 && j > 1 {
          BelowTransitive(k, s[0], s[j - 1]);
        }
      }
    } else {
      BelowTotal(k, s[0]);
      var t := s[1..];
      assert Sorted(t);
      InsertSorted(t, k);
      var r := [s[0]] + Insert(t, k);
      forall i, j | 0 <= i < j < |r| ensures Below(r[i], r[j]) {
        if i == 0 {
          assert r[j] in Insert(t, k);
          if r[j] != k {
            var m :| 0 <= m < |t| && t[m] == r[j];
            assert s[m + 1] == r[j];
          }
        }
      }
      forall x ensures x in r <==> x in s || x == k {
        assert x in s <==> x == s[0] || x in t;
      }
    }
  }

  lemma {:induction false} RemoveSorted(s: seq<string>, k: string)
    requires Sorted(s)
    ensures Sorted(Remove(s, k))
    ensures forall x :: x in Remove(s, k) <==> x in s && x != k
  {
    if s != [] {
      var t := s[1..];
      assert Sorted(t);
      RemoveSorted(t, k);
      forall x ensures x in s <==> x == s[0] || x in t {
      }
      if s[0] != k {
        var r := [s[0]] + Remove(t, k);
        forall i, j | 0 <= i < j < |r| ensures Below(r[i], r[j]) {
          if i == 0 {
            assert r[j] in t;
            var m :| 0 <= m < |t| && t[m] == r[j];
            assert s[m + 1] == r[j];
          }
        }
      }
    }
  }

  /** The underlying `db.get`: the stored value, or a NotFoundError rejection. */
  function Get<T>(m: map<string, T>, key: string): (r: Result<T, LevelError>)
    ensures r.Failure? <==> key !in m
    ensures r.Failure? ==> r.error == NotFoundError
    ensures r.Success? ==> r.value == m[key]
  {
    if key in m then Success(m[key]) else Failure(NotFoundError)
  }

  /** The entries after one batch operation: a put stores its value under its key, a del removes its key. */
  function Write<T>(m: map<string, T>, op: LevelOp<T>): (r: map<string, T>)
    ensures op.Put? ==> op.key in r && r[op.key] == op.value
    ensures op.Del? ==> op.key !in r
    ensures forall k :: k != op.key ==> (k in r <==> k in m) && (k in r ==> r[k] == m[k])
  {
    match op
    case Put(k, v) => m[k := v]
    case Del(k) => m - {k}
  }

  /** The key order after one batch operation. */
  function Reorder<T>(s: seq<string>, op: LevelOp<T>): seq<string>
  {
    match op
    case Put(k, _) => Insert(s, k)
    case Del(k) => Remove(s, k)
  }

  /**
    A LevelDB batch: the operations take effect one after another, in the order given. A key ends up present
    only if it was present or some operation puts it, and absent only if it was absent or some operation
    deletes it.
   */
  function ApplyAll<T>(m: map<string, T>, ops: seq<LevelOp<T>>): (r: map<string, T>)
    ensures forall k :: k in r && k !in m ==> exists i :: 0 <= i < |ops| && ops[i].Put? && ops[i].key == k
    ensures forall k :: k in m && k !in r ==> exists i :: 0 <= i < |ops| && ops[i].Del? && ops[i].key == k
    decreases |ops|
  {
    if ops == [] then m
    else
      var r := ApplyAll(Write(m, ops[0]), ops[1..]);
      assert forall i :: 0 < i < |ops| ==> ops[i] == ops[1..][i - 1];
      r
  }

  function ReorderAll<T>(s: seq<string>, ops: seq<LevelOp<T>>): seq<string>
    decreases |ops|
  {
    if ops == [] then s else ReorderAll(Reorder(s, ops[0]), ops[1..])
  }

  /** The key order lists exactly the keys of the entries, ascending. */
  ghost predicate Consistent<T>(m: map<string, T>, s: seq<string>)
  {
    Sorted(s) && forall k :: k in s <==> k in m
  }

  /** A batch keeps the key order consistent with the entries. */
  lemma {:induction false} ApplyAllConsistent<T>(m: map<string, T>, s: seq<string>, ops: seq<LevelOp<T>>)
    requires Consistent(m, s)
    ensures Consistent(ApplyAll(m, ops), ReorderAll(s, ops))
    decreases |ops|
  {
    if ops != [] {
      match ops[0] {
        case Put(k, _) => InsertSorted(s, k);
        case Del(k) => RemoveSorted(s, k);
      }
      ApplyAllConsistent(Write(m, ops[0]), Reorder(s, ops[0]), ops[1..]);
    }
  }

  /** A key that no operation of the batch names keeps its entry (or its absence). */
  lemma {:induction false} ApplyAllUntouched<T>(m: map<string, T>, ops: seq<LevelOp<T>>, k: string)
    requires forall i :: 0 <= i < |ops| ==> ops[i].key != k
    ensures k in ApplyAll(m, ops) <==> k in m
    ensures k in m ==> ApplyAll(m, ops)[k] == m[k]
    decreases |ops|
  {
    if ops != [] {
      ApplyAllUntouched(Write(m, ops[0]), ops[1..], k);
    }
  }

  /** The last operation that names a key decides that key's final entry: a put stores its value, a del removes it. */
  lemma {:induction false} ApplyAllLastWins<T>(m: map<string, T>, ops: seq<LevelOp<T>>, i: nat)
    requires i < |ops|
    requires forall j :: i < j < |ops| ==> ops[j].key != ops[i].key
    ensures ops[i].Put? ==> ops[i].key in ApplyAll(m, ops) && ApplyAll(m, ops)[ops[i].key] == ops[i].value
    ensures ops[i].Del? ==> ops[i].key !in ApplyAll(m, ops)
    decreases |ops|
  {
    if i == 0 {
      ApplyAllUntouched(Write(m, ops[0]), ops[1..], ops[0].key);
    } else {
      ApplyAllLastWins(Write(m, ops[0]), ops[1..], i - 1);
    }
  }

  /** A property every entry has, and every put writes, holds of every entry after a batch. */
  lemma {:induction false} ApplyAllPreserves<T>(m: map<string, T>, ops: seq<LevelOp<T>>, p: (string, T) -> bool)
    requires forall k :: k in m ==> p(k, m[k])
    requires forall i :: 0 <= i < |ops| && ops[i].Put? ==> p(ops[i].key, ops[i].value)
    ensures forall k :: k in ApplyAll(m, ops) ==> p(k, ApplyAll(m, ops)[k])
    decreases |ops|
  {
    if ops != [] {
      ApplyAllPreserves(Write(m, ops[0]), ops[1..], p);
    }
  }
}
