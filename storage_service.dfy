/**
 * The in-memory timestamp-queue store of src/throttler.service.ts.
 *
 * For every key the store keeps the expiry times (integer milliseconds) of the
 * requests recorded under that key, oldest first. Recording a request appends
 * `now + ttl * 1000` and arms a timer; when that timer fires it drops the
 * oldest entry of the same key. The timers belong to the JavaScript runtime,
 * not to the class, so they are ghost state here: `added` holds one key per
 * `addRecord` call and `fired` one key per timer callback that has run.
 */
module StorageService {

  /** `this.storage[key] || []`: the list of a key, or the empty list. */
  function RecordsOf(storage: map<string, seq<int>>, key: string): (r: seq<int>)
    ensures key !in storage ==> r == []
    ensures key in storage ==> r == storage[key]
  {
    if key in storage then storage[key] else []
  }

  /** The expiry time pushed by `addRecord`: `now` plus the ttl in seconds. */
  function ExpiryOf(now: int, ttl: int): (t: int)
    ensures ttl >= 0 ==> t >= now
  {
    now + ttl * 1000
  }

  /** Ascending order, stated on neighbours. */
  ghost predicate Sorted(s: seq<int>) {
    forall i :: 0 <= i < |s| - 1 ==> s[i] <= s[i + 1]
  }

  /** In a sorted list the first entry is the nearest expiry. */
  lemma {:induction false} SortedHeadIsNearest(s: seq<int>)
    requires Sorted(s) && |s| > 0
    ensures forall j :: 0 <= j < |s| ==> s[0] <= s[j]
  {
    if |s| > 1 {
      assert Sorted(s[1..]) by {
        forall i | 0 <= i < |s[1..]| - 1 ensures s[1..][i] <= s[1..][i + 1] {
          assert s[1..][i] == s[i + 1] && s[1..][i + 1] == s[i + 2];
        }
      }
      SortedHeadIsNearest(s[1..]);
      forall j | 1 <= j < |s| ensures s[0] <= s[j] {
        assert s[1..][j - 1] == s[j];
      }
    }
  }

  /** What happens to one key's list over time: a recorded request, or one of its timers firing. */
  datatype KeyEvent = Add(now: int, ttl: int) | Expired

  /** The key's list after a run of events; a timer never fires on an empty list in a valid store. */
  function Replay(events: seq<KeyEvent>): seq<int>
  {
    if events == [] then []
    else
      var s := Replay(events[..|events| - 1]);
      match events[|events| - 1]
      case Add(now, ttl) => s + [ExpiryOf(now, ttl)]
      case Expired => if s == [] then [] else s[1..]
  }

  /** The clock reading of every Add, in order. */
  function AddTimes(events: seq<KeyEvent>): seq<int>
  {
    if events == [] then []
    else
      var rest := AddTimes(events[..|events| - 1]);
      match events[|events| - 1]
      case Add(now, _) => rest + [now]
      case Expired => rest
  }

  /** Every Add of the run used this ttl. */
  ghost predicate UsesTtl(events: seq<KeyEvent>, ttl: int) {
    forall i :: 0 <= i < |events| && events[i].Add? ==> events[i].ttl == ttl
  }

  ghost predicate NonDecreasing(s: seq<int>) {
    forall i, j :: 0 <= i < j < |s| ==> s[i] <= s[j]
  }

  /** Both hypotheses of ReplaySorted carry over to a run without its last event. */
  lemma PrefixKeepsHypotheses(events: seq<KeyEvent>, ttl: int)
    requires events != []
    requires UsesTtl(events, ttl)
    requires NonDecreasing(AddTimes(events))
    ensures UsesTtl(events[..|events| - 1], ttl)
    ensures NonDecreasing(AddTimes(events[..|events| - 1]))
    ensures events[|events| - 1].Add? ==> events[|events| - 1].ttl == ttl
    ensures events[|events| - 1].Add? && AddTimes(events[..|events| - 1]) != [] ==>
      AddTimes(events[..|events| - 1])[|AddTimes(events[..|events| - 1])| - 1] <= events[|events| - 1].now
  {
    var prefix := events[..|events| - 1];
    var times := AddTimes(prefix);
    var all := AddTimes(events);
    assert all[..|times|] == times;
    forall i | 0 <= i < |prefix| && prefix[i].Add? ensures prefix[i].ttl == ttl {
      assert prefix[i] == events[i];
    }
    if events[|events| - 1].Add? && times != [] {
      assert all[|times| - 1] == times[|times| - 1] && all[|times|] == events[|events| - 1].now;
    }
  }

  /**
   * With one ttl for the key and a clock that never runs backwards, the list
   * stays sorted and every entry is at most the last Add's expiry; so entry 0,
   * which the guard reads, is the nearest expiry.
   */
  lemma {:induction false} ReplaySorted(events: seq<KeyEvent>, ttl: int)
    requires UsesTtl(events, ttl)
    requires NonDecreasing(AddTimes(events))
    ensures Sorted(Replay(events))
    ensures AddTimes(events) != [] ==>
      forall x :: x in Replay(events) ==> x <= ExpiryOf(AddTimes(events)[|AddTimes(events)| - 1], ttl)
    ensures AddTimes(events) == [] ==> Replay(events) == []
  {
    if events != [] {
      var prefix := events[..|events| - 1];
      PrefixKeepsHypotheses(events, ttl);
      ReplaySorted(prefix, ttl);
      var s := Replay(prefix);
      match events[|events| - 1]
      case Add(now, t) => {
        assert AddTimes(events) == AddTimes(prefix) + [now];
        if s != [] {
          assert s[|s| - 1] in s;
        }
      }
      case Expired => {
        if s != [] {
          forall x | x in s[1..] ensures x in s { }
        }
      }
    }
  }

  /** `history[key]`, or no event yet. */
  function HistoryOf(history: map<string, seq<KeyEvent>>, key: string): seq<KeyEvent>
  {
    if key in history then history[key] else []
  }

  /**
   * One key's part of the store's invariant: its list is the replay of its
   * history, with one entry per recorded request whose timer has not fired.
   */
  ghost predicate KeyReplayed(storage: map<string, seq<int>>, history: map<string, seq<KeyEvent>>,
                                added: multiset<string>, fired: multiset<string>, key: string)
  {
    && fired[key] <= added[key]
    && |RecordsOf(storage, key)| == added[key] - fired[key]
    && RecordsOf(storage, key) == Replay(HistoryOf(history, key))
  }

  class ThrottlerStorageService {
    var storage: map<string, seq<int>>
    ghost var history: map<string, seq<KeyEvent>>
    ghost var added: multiset<string>
    ghost var fired: multiset<string>

    /**
     * Each key's list is the replay of what happened to it, and holds one
     * entry per recorded request whose timer has not fired yet.
     */
    ghost predicate Valid()
      reads this
    {
      forall key :: KeyReplayed(storage, history, added, fired, key)
    }

    constructor ()
      ensures Valid()
      ensures storage == map[] && history == map[] && added == multiset{} && fired == multiset{}
    {
      storage := map[];
      history := map[];
      added := multiset{};
      fired := multiset{};
    }

    /** The key's list; an unseen key gives the empty list. */
    method GetRecord(key: string) returns (r: seq<int>)
      requires Valid()
      ensures key !in storage ==> r == []
      ensures key in storage ==> r == storage[key]
      ensures fired[key] <= added[key] && |r| == added[key] - fired[key]
      ensures r == Replay(HistoryOf(history, key))
    {
      assert KeyReplayed(storage, history, added, fired, key);
      r := if key in storage then storage[key] else [];
    }

    /** Appends one expiry at the end of the key's list and arms one timer for it. */
    method AddRecord(key: string, ttl: int, now: int)
      requires Valid()
      modifies this
      ensures Valid()
      ensures storage == old(storage)[key := old(RecordsOf(storage, key)) + [ExpiryOf(now, ttl)]]
      ensures history == old(history)[key := old(HistoryOf(history, key)) + [Add(now, ttl)]]
      ensures added == old(added) + multiset{key} && fired == old(fired)
    {
      var ttlMilliseconds := ttl * 1000;
      if key !in storage {
        storage := storage[key := []];
      }
      storage := storage[key := storage[key] + [now + ttlMilliseconds]];
      history := history[key := HistoryOf(history, key) + [Add(now, ttl)]];
      added := added + multiset{key};
      forall k ensures KeyReplayed(storage, history, added, fired, k) {
        assert old(KeyReplayed(storage, history, added, fired, k));
        if k == key {
          var events := HistoryOf(history, k);
          assert events[..|events| - 1] == old(HistoryOf(history, k));
        }
      }
    }

    /** The body of a timer armed by an earlier AddRecord on `key`: drops the oldest entry. */
    method Expire(key: string)
      requires Valid()
      requires fired[key] < added[key]
      modifies this
      ensures Valid()
      ensures key in old(storage) && |old(storage[key])| > 0
      ensures storage == old(storage)[key := old(storage[key])[1..]]
      ensures history == old(history)[key := old(HistoryOf(history, key)) + [Expired]]
      ensures fired == old(fired) + multiset{key} && added == old(added)
    {
      assert KeyReplayed(storage, history, added, fired, key);
      storage := storage[key := storage[key][1..]];
      history := history[key := HistoryOf(history, key) + [Expired]];
      fired := fired + multiset{key};
      forall k ensures KeyReplayed(storage, history, added, fired, k) {
        assert old(KeyReplayed(storage, history, added, fired, k));
        if k == key {
          var events := HistoryOf(history, k);
          assert events[..|events| - 1] == old(HistoryOf(history, k));
        }
      }
    }
  }

  /**
   * A key of the store whose requests all used one ttl, recorded at clock
   * readings that never go back, holds its expiries in ascending order, so
   * the entry the guard reads first is the nearest one.
   */
  lemma StoredListSorted(store: ThrottlerStorageService, key: string, ttl: int)
    requires store.Valid()
    requires UsesTtl(HistoryOf(store.history, key), ttl)
    requires NonDecreasing(AddTimes(HistoryOf(store.history, key)))
    ensures Sorted(RecordsOf(store.storage, key))
    ensures RecordsOf(store.storage, key) != [] ==>
      forall j :: 0 <= j < |RecordsOf(store.storage, key)| ==>
        RecordsOf(store.storage, key)[0] <= RecordsOf(store.storage, key)[j]
  {
    assert KeyReplayed(store.storage, store.history, store.added, store.fired, key);
    ReplaySorted(HistoryOf(store.history, key), ttl);
    if RecordsOf(store.storage, key) != [] {
      SortedHeadIsNearest(RecordsOf(store.storage, key));
    }
  }
}
