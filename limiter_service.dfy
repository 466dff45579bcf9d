/**
 * The counter store of src/limiter.service.ts.
 *
 * Each key maps to the number of its requests still inside their window.
 * Recording a request adds one and schedules a decrement of the same key
 * `ttl` seconds later. As with the timestamp store, the scheduled decrements
 * are runtime state, kept here as the ghost multisets `added` (one key per
 * `addRecord`) and `fired` (one key per decrement that has run).
 */
module LimiterService {
  import opened Wrappers

  /** `this.storage[key] || 0`: a missing key, and a key at zero, both read as 0. */
  function CountOf(storage: map<string, int>, key: string): (r: int)
    ensures key !in storage ==> r == 0
    ensures key in storage ==> r == storage[key]
  {
    if key in storage && storage[key] != 0 then storage[key] else 0
  }

  /** The class as written declares `storage` without ever assigning it. */
  datatype Read = Count(n: int) | TypeError

  /** `getRecord` over a field that may still be `undefined`. */
  function GetRecordAsWritten(storage: Option<map<string, int>>, key: string): (r: Read)
    ensures storage.None? <==> r == TypeError
    ensures storage.Some? ==> r == Count(CountOf(storage.value, key))
  {
    match storage
    case None => TypeError
    case Some(m) => Count(CountOf(m, key))
  }

  /** `addRecord` over a field that may still be `undefined`. */
  function AddRecordAsWritten(storage: Option<map<string, int>>, key: string): (r: Option<map<string, int>>)
    ensures storage.None? <==> r.None?
    ensures storage.Some? ==> r.Some? && r.value.Keys == storage.value.Keys + {key}
    ensures storage.Some? ==> r == Some(storage.value[key := CountOf(storage.value, key) + 1])
  {
    match storage
    case None => None
    case Some(m) => Some(m[key := if key in m && m[key] != 0 then m[key] + 1 else 1])
  }

  /** A freshly constructed store fails on its very first read and its very first write. */
  lemma ConstructedStoreFails(key: string)
    ensures GetRecordAsWritten(None, key) == TypeError
    ensures AddRecordAsWritten(None, key) == None
  {
  }

  class LocalLimitStorage {
    var storage: map<string, int>
    ghost var added: multiset<string>
    ghost var fired: multiset<string>

    /** Each key counts its recorded requests whose decrement has not run. */
    ghost predicate Valid()
      reads this
    {
      forall key :: fired[key] <= added[key] && CountOf(storage, key) == added[key] - fired[key]
    }

    /** Starts from an empty map, the initialisation the source leaves out. */
    constructor ()
      ensures Valid()
      ensures storage == map[] && added == multiset{} && fired == multiset{}
    {
      storage := map[];
      added := multiset{};
      fired := multiset{};
    }

    /** The key's outstanding request count; 0 for a key never seen. */
    method GetRecord(key: string) returns (r: int)
      requires Valid()
      ensures r >= 0
      ensures r == added[key] - fired[key]
      ensures key !in storage ==> r == 0
      ensures key in storage ==> r == storage[key]
    {
      assert CountOf(storage, key) == added[key] - fired[key];
      r := if key in storage && storage[key] != 0 then storage[key] else 0;
    }

    /** Raises the key's count by one, an absent or zero count becoming 1, and schedules its decrement. */
    method AddRecord(key: string, ttl: int)
      requires Valid()
      modifies this
      ensures Valid()
      ensures storage == old(storage)[key := old(CountOf(storage, key)) + 1]
      ensures added == old(added) + multiset{key} && fired == old(fired)
    {
      storage := storage[key := if key in storage && storage[key] != 0 then storage[key] + 1 else 1];
      added := added + multiset{key};
      assert forall k :: k != key ==> CountOf(storage, k) == old(CountOf(storage, k));
    }

    /** The decrement scheduled by an earlier AddRecord on `key`. */
    method Decrement(key: string)
      requires Valid()
      requires fired[key] < added[key]
      modifies this
      ensures Valid()
      ensures key in old(storage) && old(storage[key]) >= 1
      ensures storage == old(storage)[key := old(storage[key]) - 1]
      ensures fired == old(fired) + multiset{key} && added == old(added)
    {
      assert CountOf(storage, key) >= 1;
      storage := storage[key := storage[key] - 1];
      fired := fired + multiset{key};
      assert forall k :: k != key ==> CountOf(storage, k) == old(CountOf(storage, k));
    }
  }
}
