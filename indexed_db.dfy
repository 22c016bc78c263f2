/**
 * An IndexedDB object store created with `{ keyPath: 'id', autoIncrement: true }`: records
 * indexed by a numeric key, and a key generator whose current number starts at 1
 * (section 2.11 of the W3C Indexed Database API). `getAll` lists records in ascending key order.
 */
module IndexedDb {

  datatype ObjectStore<V> = ObjectStore(records: map<nat, V>, current: nat)

  /** The key generator is ahead of every key in the store. */
  ghost predicate WellKeyed<V>(s: ObjectStore<V>) {
    s.current >= 1 && forall k :: k in s.records ==> k < s.current
  }

  /** A freshly created object store. */
  function Empty<V>(): (s: ObjectStore<V>)
    ensures WellKeyed(s) && s.records == map[] && s.current == 1
  {
    ObjectStore(map[], 1)
  }

  /**
   * `store.add(value)` where the value has no key: the key is the generator's current
   * number, which then goes up by one. The caller builds `v` with that key in its `id`.
   */
  function Add<V>(s: ObjectStore<V>, v: V): (r: ObjectStore<V>)
    requires WellKeyed(s)
    ensures WellKeyed(r)
    ensures s.current !in s.records && forall k :: k in s.records ==> k < s.current
    ensures r.records.Keys == s.records.Keys + {s.current}
    ensures r.records[s.current] == v
    ensures forall k :: k in s.records ==> r.records[k] == s.records[k]
    ensures r.current == s.current + 1
  {
    ObjectStore(s.records[s.current := v], s.current + 1)
  }

  /**
   * `store.put(value)` where the value carries its key: inserts or overwrites the record
   * under `key`; a key at or above the current number moves the generator past it.
   */
  function Put<V>(s: ObjectStore<V>, key: nat, v: V): (r: ObjectStore<V>)
    requires WellKeyed(s)
    ensures WellKeyed(r)
    ensures r.records.Keys == s.records.Keys + {key}
    ensures r.records[key] == v
    ensures forall k :: k in s.records && k != key ==> r.records[k] == s.records[k]
    ensures r.current >= s.current && r.current > key
    ensures key < s.current ==> r.current == s.current
    ensures key >= s.current ==> r.current == key + 1
  {
    ObjectStore(s.records[key := v], if key >= s.current then key + 1 else s.current)
  }

  /** `store.delete(key)`: removes the record under `key`; deleting a missing key changes nothing. */
  function Delete<V>(s: ObjectStore<V>, key: nat): (r: ObjectStore<V>)
    requires WellKeyed(s)
    ensures WellKeyed(r)
    ensures r.records.Keys == s.records.Keys - {key}
    ensures forall k :: k in r.records ==> r.records[k] == s.records[k]
    ensures r.current == s.current
    ensures key !in s.records ==> r == s
  {
    ObjectStore(s.records - {key}, s.current)
  }

  /** The keys of `keys` that lie below `n`, in ascending order. */
  function KeysBelow(keys: set<nat>, n: nat): (r: seq<nat>)
    ensures forall i, j :: 0 <= i < j < |r| ==> r[i] < r[j]
    ensures forall k :: k in r <==> k in keys && k < n
    decreases n
  {
    if n == 0 then []
    else
      var below := KeysBelow(keys, n - 1);
      forall i | 0 <= i < |below|
        ensures below[i] < n - 1
      {
        assert below[i] in below;
      }
      below + (if n - 1 in keys then [n - 1] else [])
  }

  /** The store's keys in ascending order. */
  function Keys<V>(s: ObjectStore<V>): (r: seq<nat>)
    requires WellKeyed(s)
    ensures forall i, j :: 0 <= i < j < |r| ==> r[i] < r[j]
    ensures forall k :: k in r <==> k in s.records
  {
    KeysBelow(s.records.Keys, s.current)
  }

  /** `store.getAll()`: every record, in ascending key order. */
  function GetAll<V>(s: ObjectStore<V>): (r: seq<V>)
    requires WellKeyed(s)
    ensures |r| == |Keys(s)|
    ensures forall i :: 0 <= i < |r| ==> r[i] == s.records[Keys(s)[i]]
  {
    var ks := Keys(s);
    seq(|ks|, i requires 0 <= i < |ks| => s.records[ks[i]])
  }

  /** `getAll` lists every record in the store. */
  lemma GetAllListsEveryRecord<V>(s: ObjectStore<V>)
    requires WellKeyed(s)
    ensures forall k :: k in s.records ==> s.records[k] in GetAll(s)
  {
    forall k | k in s.records
      ensures s.records[k] in GetAll(s)
    {
      var ks := Keys(s);
      var i :| 0 <= i < |ks| && ks[i] == k;
      assert GetAll(s)[i] == s.records[k];
    }
  }

  /** `KeysBelow` only looks at the keys below its bound. */
  lemma {:induction false} KeysBelowAgree(a: set<nat>, b: set<nat>, n: nat)
    requires forall k :: k < n ==> (k in a <==> k in b)
    ensures KeysBelow(a, n) == KeysBelow(b, n)
  {
    if n > 0 {
      KeysBelowAgree(a, b, n - 1);
    }
  }

  /**
   * Adding with a generated key appends the record at the end of `getAll`: key order is
   * the order in which records were added.
   */
  lemma AddAppends<V>(s: ObjectStore<V>, v: V)
    requires WellKeyed(s)
    ensures GetAll(Add(s, v)) == GetAll(s) + [v]
  {
    var r := Add(s, v);
    KeysAfterAdd(s, v);
    var all, all' := GetAll(s), GetAll(r);
    forall i | 0 <= i < |all'|
      ensures all'[i] == (all + [v])[i]
    {
      if i < |all| {
        assert Keys(s)[i] in s.records;
      }
    }
  }

  /** The generated key is the largest: it comes last among the keys. */
  lemma KeysAfterAdd<V>(s: ObjectStore<V>, v: V)
    requires WellKeyed(s)
    ensures Keys(Add(s, v)) == Keys(s) + [s.current]
  {
    KeysBelowAgree(Add(s, v).records.Keys, s.records.Keys, s.current);
  }
}
