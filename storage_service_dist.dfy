/**
 * The compiled store of dist/throttler.service.js.
 *
 * Same timestamp queues as the TypeScript store, plus the list `timeoutIds` of
 * every timer the store has armed, which `onApplicationShutdown` cancels. The
 * runtime's table of armed timers (timer id to the key whose callback it runs)
 * is the field `timers`: `setTimeout` adds an entry, a callback that runs or a
 * `clearTimeout` removes it. Timer ids are handed out in order, 0, 1, 2, ...
 */
module StorageServiceDist {
  import opened StorageService

  /** The armed timers whose callback shifts `key`'s list. */
  ghost function ArmedFor(timers: map<nat, string>, key: string): set<nat>
  {
    set id | id in timers && timers[id] == key
  }

  lemma ArmedAfterCancel(timers: map<nat, string>, id: nat, key: string)
    ensures ArmedFor(timers - {id}, key) == ArmedFor(timers, key) - {id}
    ensures |ArmedFor(timers - {id}, key)| <= |ArmedFor(timers, key)|
  {
  }

  lemma ArmedAfterArm(timers: map<nat, string>, id: nat, key: string, k: string)
    requires id !in timers
    ensures k == key ==> |ArmedFor(timers[id := key], k)| == |ArmedFor(timers, k)| + 1
    ensures k != key ==> ArmedFor(timers[id := key], k) == ArmedFor(timers, k)
  {
    if k == key {
      assert ArmedFor(timers[id := key], k) == ArmedFor(timers, k) + {id};
    } else {
      assert ArmedFor(timers[id := key], k) == ArmedFor(timers, k);
    }
  }

  /**
   * One key's part of the invariant: an entry per recorded request whose timer
   * has not fired, and at least as many entries as armed timers.
   */
  ghost predicate KeyConsistent(storage: map<string, seq<int>>, timers: map<nat, string>,
                                added: multiset<string>, fired: multiset<string>, key: string)
  {
    && fired[key] <= added[key]
    && |RecordsOf(storage, key)| == added[key] - fired[key]
    && |ArmedFor(timers, key)| <= |RecordsOf(storage, key)|
  }

  /** The store's invariant, on the values of its fields. */
  ghost predicate Consistent(storage: map<string, seq<int>>, timeoutIds: seq<nat>, timers: map<nat, string>,
                             added: multiset<string>, fired: multiset<string>)
  {
    && (forall i :: 0 <= i < |timeoutIds| ==> timeoutIds[i] == i)
    && (forall id :: id in timers ==> id < |timeoutIds|)
    && (forall key :: KeyConsistent(storage, timers, added, fired, key))
  }

  lemma AddKeepsConsistent(storage: map<string, seq<int>>, timeoutIds: seq<nat>, timers: map<nat, string>,
                           added: multiset<string>, fired: multiset<string>, key: string, expiry: int)
    requires Consistent(storage, timeoutIds, timers, added, fired)
    ensures |timeoutIds| !in timers
    ensures Consistent(storage[key := RecordsOf(storage, key) + [expiry]], timeoutIds + [|timeoutIds|],
                       timers[|timeoutIds| := key], added + multiset{key}, fired)
  {
    var storage' := storage[key := RecordsOf(storage, key) + [expiry]];
    var timers' := timers[|timeoutIds| := key];
    forall k ensures KeyConsistent(storage', timers', added + multiset{key}, fired, k) {
      assert KeyConsistent(storage, timers, added, fired, k);
      ArmedAfterArm(timers, |timeoutIds|, key, k);
    }
  }

  lemma ExpireKeepsConsistent(storage: map<string, seq<int>>, timeoutIds: seq<nat>, timers: map<nat, string>,
                              added: multiset<string>, fired: multiset<string>, id: nat)
    requires Consistent(storage, timeoutIds, timers, added, fired)
    requires id in timers
    ensures timers[id] in storage && |storage[timers[id]]| > 0
    ensures Consistent(storage[timers[id] := storage[timers[id]][1..]], timeoutIds,
                       timers - {id}, added, fired + multiset{timers[id]})
  {
    var key := timers[id];
    assert KeyConsistent(storage, timers, added, fired, key);
    assert id in ArmedFor(timers, key);
    var storage' := storage[key := storage[key][1..]];
    forall k ensures KeyConsistent(storage', timers - {id}, added, fired + multiset{key}, k) {
      assert KeyConsistent(storage, timers, added, fired, k);
      ArmedAfterCancel(timers, id, k);
      if k != key {
        assert id !in ArmedFor(timers, k);
      }
    }
  }

  lemma CancelKeepsConsistent(storage: map<string, seq<int>>, timeoutIds: seq<nat>, timers: map<nat, string>,
                              added: multiset<string>, fired: multiset<string>, id: nat)
    requires Consistent(storage, timeoutIds, timers, added, fired)
    ensures Consistent(storage, timeoutIds, timers - {id}, added, fired)
  {
    forall k ensures KeyConsistent(storage, timers - {id}, added, fired, k) {
      assert KeyConsistent(storage, timers, added, fired, k);
      ArmedAfterCancel(timers, id, k);
    }
  }

  class ThrottlerStorageService {
    var storage: map<string, seq<int>>
    var timeoutIds: seq<nat>
    var timers: map<nat, string>
    ghost var added: multiset<string>
    ghost var fired: multiset<string>

    /**
     * Ids are registered in order; every armed timer was registered; each key
     * holds one entry per recorded request whose timer has not fired, and at
     * least as many entries as it has armed timers.
     */
    ghost predicate Valid()
      reads this
    {
      Consistent(storage, timeoutIds, timers, added, fired)
    }

    constructor ()
      ensures Valid()
      ensures storage == map[] && timeoutIds == [] && timers == map[]
      ensures added == multiset{} && fired == multiset{}
    {
      storage := map[];
      timeoutIds := [];
      timers := map[];
      added := multiset{};
      fired := multiset{};
    }

    /** The key's list; an unseen key gives the empty list. */
    method GetRecord(key: string) returns (r: seq<int>)
      requires Valid()
      ensures key !in storage ==> r == []
      ensures key in storage ==> r == storage[key]
      ensures |r| == added[key] - fired[key] >= |ArmedFor(timers, key)|
    {
      assert KeyConsistent(storage, timers, added, fired, key);
      r := if key in storage then storage[key] else [];
    }

    /** Appends one expiry to the key's list, arms one timer for that key and registers its id. */
    method AddRecord(key: string, ttl: int, now: int)
      requires Valid()
      modifies this
      ensures Valid()
      ensures storage == old(storage)[key := old(RecordsOf(storage, key)) + [ExpiryOf(now, ttl)]]
      ensures |old(timeoutIds)| !in old(timers)
      ensures timeoutIds == old(timeoutIds) + [|old(timeoutIds)|]
      ensures timers == old(timers)[|old(timeoutIds)| := key]
      ensures added == old(added) + multiset{key} && fired == old(fired)
    {
      var ttlMilliseconds := ttl * 1000;
      if key !in storage {
        storage := storage[key := []];
      }
      storage := storage[key := storage[key] + [now + ttlMilliseconds]];
      var timeoutId := |timeoutIds|;
      timers := timers[timeoutId := key];
      timeoutIds := timeoutIds + [timeoutId];
      added := added + multiset{key};
      AddKeepsConsistent(old(storage), old(timeoutIds), old(timers), old(added), fired, key, ExpiryOf(now, ttl));
    }

    /** The callback of armed timer `id`: drops the oldest entry of its own key, then the timer is spent. */
    method Expire(id: nat)
      requires Valid()
      requires id in timers
      modifies this
      ensures Valid()
      ensures var key := old(timers[id]);
        && key in old(storage) && |old(storage[key])| > 0
        && storage == old(storage)[key := old(storage[key])[1..]]
        && fired == old(fired) + multiset{key}
      ensures timers == old(timers) - {id}
      ensures timeoutIds == old(timeoutIds) && added == old(added)
    {
      ExpireKeepsConsistent(storage, timeoutIds, timers, added, fired, id);
      var key := timers[id];
      storage := storage[key := storage[key][1..]];
      timers := timers - {id};
      fired := fired + multiset{key};
    }

    /** Cancels every registered timer, one id at a time; no callback can run afterwards. */
    method OnApplicationShutdown()
      requires Valid()
      modifies this
      ensures Valid()
      ensures timers == map[]
      ensures storage == old(storage) && timeoutIds == old(timeoutIds)
      ensures added == old(added) && fired == old(fired)
    {
      var i := 0;
      while i < |timeoutIds|
        invariant 0 <= i <= |timeoutIds|
        invariant Valid()
        invariant forall id :: id in timers ==> i <= id
        invariant storage == old(storage) && timeoutIds == old(timeoutIds)
        invariant added == old(added) && fired == old(fired)
      {
        CancelKeepsConsistent(storage, timeoutIds, timers, added, fired, timeoutIds[i]);
        timers := timers - {timeoutIds[i]};
        i := i + 1;
      }
      assert timers.Keys == {};
    }
  }
}
