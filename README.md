# nestjs/throttler: the rate-limiting core, in Dafny

This project models the request throttling of `@nestjs/throttler`:

- the in-memory stores that remember, per key, the requests still inside their window;
- the guard that admits or rejects a request against a limit per ttl and writes the rate-limit headers;
- the options normalisation and storage factory behind the module's providers;
- the time-unit helpers.

Each source file is its own module:

| module | file | form |
|---|---|---|
| `StorageService` | `storage_service.dfy` | class over `map<string, seq<int>>` (src/throttler.service.ts) |
| `StorageServiceDist` | `storage_service_dist.dfy` | class with timer ids and the runtime's armed timers (dist/throttler.service.js) |
| `LimiterService` | `limiter_service.dfy` | class over a counter map (src/limiter.service.ts) |
| `GuardRules` | `guard_rules.dfy` | the pure decision rule both guard builds share |
| `Guard`, `GuardDist` | `guard.dfy`, `guard_dist.dfy` | the guard classes (src/throttler.guard.ts, dist/throttler.guard.js) |
| `Providers` | `providers.dfy` | src/throttler.providers.ts |
| `Utilities` | `utilities.dfy` | src/utilities.ts |

Time is in whole milliseconds and is always a parameter `now`. One request step reads one instant: the guard's `Date.now()` and the store's clock reading are the same `now`.

Timer callbacks are explicit steps:

- `Expire` in both timestamp stores;
- `Decrement` in the counter store.

Each of these steps may run only for a timer that an earlier `AddRecord` armed. The stores' invariants count those timers:

- In the TypeScript stores, ghost multisets `added` and `fired` keep the count. Each key's list length, or its counter, equals the key's adds minus its fired timers, and is never negative.
- In the compiled store, the runtime's timer table is the field `timers`, from timer id to key. Each key has at least as many entries as armed timers. So a callback's `shift` never meets an empty list, and after `OnApplicationShutdown` no callback is left to run.

The guard's per-request contract is the predicate `GuardRules.Handled`:

- An ignored user agent is let through with no header and no store change.
- Otherwise `Decide` on the key's list gives the headers.
- A rejected request carries `Retry-After` only and stores nothing.
- An admitted request emits `X-RateLimit-Limit`, `-Remaining` and `-Reset`, in that order. It then appends exactly one expiry, `now + ttl * 1000`.

`Burst` replays requests on one key from an empty store. `BurstLength` and `BurstDecision` prove the outcome: calls 1 to `limit` pass, with `Remaining` running from `limit - 1` down to 0, and call `limit + 1` is rejected. `HandledStepIsAdmitted` ties `Handled` to that replay.

The `-Limit`, `-Remaining` and `-Reset` headers are modelled on the fields of the IETF draft "RateLimit Header Fields for HTTP" (draft-polli-ratelimit-headers-00, section "Header Specifications"), under the older `X-` prefix the source writes (`X-RateLimit-`, where the draft has `RateLimit-`); `Retry-After` is not one of the draft's fields. The rejection status is 429 Too Many Requests (section 4 of RFC 6585).

The stores modelled here implement `getRecord`/`addRecord` with one timer per request. The guard and the providers also come from different versions of the library:

- the guard reads `options.limit` and `options.ttl`;
- the providers build a `throttles` array.

Each is modelled as written.

## Model

| member | source | states |
|---|---|---|
| `StorageService.ThrottlerStorageService.constructor` | src/throttler.service.ts:6 | a new store holds no key and has armed no timer |
| `StorageService.ThrottlerStorageService.GetRecord` | src/throttler.service.ts:8-10 | an unseen key gives `[]`; otherwise the key's list, whose length is its adds minus its fired timers and which is the replay of the key's history of adds and expiries |
| `StorageService.ThrottlerStorageService.AddRecord` | src/throttler.service.ts:12-19 | the key's list, created empty when absent, gains exactly `now + ttl*1000` at its end; earlier entries and other keys are unchanged; one timer is armed for the key, and the key's history gains `Add(now, ttl)` |
| `StorageService.ThrottlerStorageService.Expire` | src/throttler.service.ts:20-23 | a timer armed for the key finds its list non-empty and removes only its first entry, keeping the order of the rest; other keys are unchanged, and the key's history gains `Expired` |
| `StorageService.RecordsOf` | src/throttler.service.ts:9 | the key's list when present, `[]` otherwise |
| `StorageService.ExpiryOf` | src/throttler.service.ts:13-18 | the pushed expiry is never before `now` for a non-negative ttl |
| `StorageService.SortedHeadIsNearest` | src/throttler.guard.ts:81 | in a sorted list, entry 0, the one the guard reads, is the smallest expiry |
| `StorageService.ReplaySorted` | src/throttler.service.ts:12-23 | when every add of a run used one ttl and the clock never went back, the replayed list is sorted ascending and bounded by the last add's expiry |
| `StorageService.StoredListSorted` | src/throttler.service.ts:12-23 | in a valid store, a key whose history used one ttl with a clock that never went back holds its expiries ascending, so entry 0 is the nearest |
| `StorageServiceDist.ThrottlerStorageService.constructor` | dist/throttler.service.js:25-28 | a new store has no key, no registered timer id and no armed timer |
| `StorageServiceDist.ThrottlerStorageService.GetRecord` | dist/throttler.service.js:32-34 | an unseen key gives `[]`; a key's list is never shorter than its armed timers |
| `StorageServiceDist.ThrottlerStorageService.AddRecord` | dist/throttler.service.js:35-46 | appends `now + ttl*1000` to the key's list, creating it if absent; arms one timer for that key under a fresh id; `timeoutIds` grows by exactly that id |
| `StorageServiceDist.ThrottlerStorageService.Expire` | dist/throttler.service.js:41-44 | an armed timer's callback removes only the oldest entry of its own key, and that timer is spent |
| `StorageServiceDist.ThrottlerStorageService.OnApplicationShutdown` | dist/throttler.service.js:47-49 | cancelling every registered id leaves no armed timer, so no expiry can run; storage and `timeoutIds` are untouched |
| `StorageServiceDist.AddKeepsConsistent` | dist/throttler.service.js:35-46 | registering a request keeps ids in order and every key at least as long as its armed timers |
| `StorageServiceDist.ExpireKeepsConsistent` | dist/throttler.service.js:41-44 | an armed timer's key has a non-empty list, and firing it keeps the invariant |
| `StorageServiceDist.CancelKeepsConsistent` | dist/throttler.service.js:48 | `clearTimeout` of any id keeps the invariant |
| `LimiterService.LocalLimitStorage.constructor` | src/limiter.service.ts:6 | the store starts as an empty map (see Findings) |
| `LimiterService.LocalLimitStorage.GetRecord` | src/limiter.service.ts:8-10 | an absent or zero key reads 0; the count is the key's adds minus its fired decrements, never negative; the store is not changed |
| `LimiterService.LocalLimitStorage.AddRecord` | src/limiter.service.ts:12-14 | the key's count rises by exactly 1, an absent or zero count becoming 1; no other key changes; one decrement of the key is scheduled |
| `LimiterService.LocalLimitStorage.Decrement` | src/limiter.service.ts:14 | a scheduled decrement finds its key at 1 or more and lowers it by exactly 1 |
| `LimiterService.GetRecordAsWritten` | src/limiter.service.ts:6-10 | with the field never initialised, reading fails; with a map, it reads the key's count |
| `LimiterService.CountOf` | src/limiter.service.ts:9 | `storage[key] \|\| 0`: 0 for an absent key, the stored count otherwise (a stored 0 reads 0 either way) |
| `LimiterService.AddRecordAsWritten` | src/limiter.service.ts:6-13 | with the field never initialised, writing fails; with a map, the key's count becomes its previous count plus 1 (an absent key becoming 1) and no other key changes |
| `LimiterService.ConstructedStoreFails` | src/limiter.service.ts:6-14 | a freshly constructed store fails on its first read and its first write |
| `GuardRules.Fallback` | src/throttler.guard.ts:51-52 | the route or class value when set and non-zero; an unset value or 0 falls back to the global one |
| `GuardRules.CeilSeconds` | src/throttler.guard.ts:81 | `Math.ceil(ms/1000)` for any sign: the least r with `ms <= 1000*r` |
| `GuardRules.NearestExpiryTime` | src/throttler.guard.ts:81 | 0 for an empty list; otherwise the seconds, rounded up, until the first entry expires, at least 1 when it lies in the future |
| `GuardRules.IsIgnoredUserAgent` | src/throttler.guard.ts:71-77 | true exactly when `ignoreUserAgents` is an array and one of its patterns accepts the user agent |
| `GuardRules.KeyMaterialInjective` | src/throttler.guard.ts:110-113 | for class and handler names without a dash, the hashed text determines class name, handler name and tracker, so two distinct (class, handler, tracker) triples never share a record list (short of an md5 collision) |
| `GuardRules.Decide` | src/throttler.guard.ts:81-93 | rejects exactly when the key holds `limit` entries or more, with `Retry-After` the nearest expiry; otherwise `Limit = limit`, `Remaining = limit - count - 1 >= 0`, `Reset` the nearest expiry |
| `GuardRules.HeadersOf` | src/throttler.guard.ts:84-93 | a rejection writes `Retry-After` alone and an admission never writes it; header names are pairwise distinct; a client reading the headers back recovers the decision exactly |
| `GuardRules.HandledStepIsAdmitted` | src/throttler.guard.ts:79-96 | a request step that is not ignored changes only its own key, adding one entry exactly when it is allowed |
| `GuardRules.BurstLength` | src/throttler.guard.ts:84-95 | from an empty store with no expiries, the key's list grows by one per request up to `limit` and then stays there |
| `GuardRules.BurstDecision` | src/throttler.guard.ts:84-95 | request n+1 is admitted exactly when n < limit, with `Remaining` limit-n-1; call limit+1 is the first rejected |
| `Guard.ThrottlerGuard.constructor` | src/throttler.guard.ts:20-24 | the guard keeps the options, the store and the hash and pattern test it is given |
| `Guard.ThrottlerGuard.HandleRequest` | src/throttler.guard.ts:62-97 | ignored user agent: allowed, no header, no store change; over the limit: 429, `Retry-After` only, nothing stored; otherwise three headers in order and exactly one record `now + ttl*1000` for the key of (class, handler, `req.ip`), logged in that key's history as `Add(now, ttl)` |
| `Guard.ThrottlerGuard.CanActivate` | src/throttler.guard.ts:31-54 | a skipped route is allowed with no header and an untouched store; otherwise HandleRequest with the route or class limit and ttl when truthy, the global ones else |
| `GuardDist.ExceptionMessage` | dist/throttler.exception.js:5-8 | the exception message is never empty: the given message, or `throttlerMessage` when it is empty |
| `GuardDist.ThrottlerGuard.constructor` | dist/throttler.guard.js:44-50 | `errorMessage` starts as `throttlerMessage` |
| `GuardDist.ThrottlerGuard.ThrottlingException` | dist/throttler.guard.js:105-107 | the rejection is a 429 carrying the guard's `errorMessage`, or the default when that is empty |
| `GuardDist.ThrottlerGuard.HandleRequest` | dist/throttler.guard.js:71-104 | as the TypeScript guard, with the key of (class, handler, `getTracker(req)` = `req.ip`) and the rejection of `throwThrottlingException`; a timer id is registered, and one timer armed for the request's key under that id, exactly when a record is added; otherwise the timer table is unchanged |
| `GuardDist.ThrottlerGuard.CanActivate` | dist/throttler.guard.js:51-70 | skip short-circuits with no effect; limit and ttl are the route or class values when truthy, the options' otherwise; as HandleRequest, one timer id and one armed timer exactly when a record is added |
| `Providers.GetOptionsToken` | src/throttler.providers.ts:46-52 | the options token, distinct from the storage token |
| `Providers.CreateThrottlerProviders` | src/throttler.providers.ts:11-32 | exactly one provider, under the options token; options with a `throttles` array pass unchanged; otherwise one throttle with the top-level `limit` and `ttl`, `ignoreUserAgents` and `storage` copied, every other field dropped |
| `Providers.NormalisationIsIdempotent` | src/throttler.providers.ts:12-25 | normalised options always hold a `throttles` array, so normalising them again changes nothing |
| `Providers.UseFactory` | src/throttler.providers.ts:34-40 | the given `storage` when set, otherwise a fresh, empty in-memory store |
| `Utilities.Seconds` | src/utilities.ts:1 | n seconds are 1000·n ms |
| `Utilities.Minutes` | src/utilities.ts:2 | a minute is 60 seconds: 60000·n ms |
| `Utilities.Hours` | src/utilities.ts:3 | an hour is 60 minutes: 3600000·n ms |
| `Utilities.Days` | src/utilities.ts:4 | a day is 24 hours: 86400000·n ms |
| `Utilities.Weeks` | src/utilities.ts:5 | a week is 7 days: 604800000·n ms |
| `Utilities.ConversionsAreLinear` | src/utilities.ts:1-5 | every helper maps 0 to 0, is additive and is monotone |

## Left out

- The clock and the timers (`Date.now`, `new Date()`, `setTimeout`, `clearTimeout`) are not modelled. Time is the parameter `now`. A timer's callback is a step that callers may run for any armed timer, in any order, so the invariants shown here hold whatever order the runtime picks. The sortedness of `StoredListSorted` assumes one ttl per key and a clock that never goes back; it says nothing about timers whose delay Node.js clamps (a delay above 2147483647 ms fires after 1 ms).
- The guard does not model `md5` or `RegExp.prototype.test`. They are functions given to the guard's constructor.
- The route metadata behind `Reflector.getAllAndOverride` is not modelled. The skip flag and the route or class limit and ttl are inputs of `CanActivate`.
- Dependency injection, module wiring and decorators are not modelled. That covers the module files, `ThrottlerStorageProvider.provide` and `inject`, and `getStorageToken` beyond its constant value.
- The exception classes are not modelled as classes. Rejection is the value `Reject(429, message)`.
- The HTTP, WebSocket and GraphQL plumbing (`getRequestResponse`, `res.header`) is not modelled. The header writes are the returned sequence.
- Concurrency is not modelled, including the `await` gap between `getRecord` and `addRecord`. Requests are strictly sequential, so the check-then-act race under parallel requests is not captured.
- The stores' plain JavaScript objects are modelled as Dafny maps. This affects `StorageService.ThrottlerStorageService.GetRecord` and `AddRecord`, `StorageServiceDist.ThrottlerStorageService.GetRecord` and `AddRecord`, and `LimiterService.LocalLimitStorage.GetRecord` and `AddRecord`. The model assumes keys never name an inherited `Object.prototype` property such as `constructor` or `toString`: such a key would read a function rather than `[]` or 0, make the list store's `addRecord` throw on `push`, and make the counter store concatenate a string. The guard's keys are md5 hex digests and never do, but the model's `md5` may be any `string -> string`. A list returned by `getRecord` is the live stored array; the model returns a value, so aliasing through it is not captured.
- The guard's pattern `test` is a pure function here. `RegExp.prototype.test` on a pattern with the `g` or `y` flag advances `lastIndex`, so its answer can change between requests; that is not captured.
- JavaScript number semantics are not modelled: fractions, `NaN`, and `undefined` for the global limit or ttl. Numbers are whole. The guard's global `limit` and `ttl` are always present.
- `GuardDist.ThrottlerGuard.GetTracker`, `GuardRules.KeyMaterial` and the guards' `GenerateKey` carry no contract of their own. What they promise is stated by `KeyMaterialInjective` and by the `HandleRequest` contracts.
- `GuardRules.KeyMaterialInjective` holds only for class and handler names without a dash. A handler named by a string literal holding a dash falls outside it. The key also uses only the class's and the handler's `name`, so two controllers with the same class name and handler name (say `AppController.getHello` declared in two modules) share one record list per caller.
- The `increment`/block-duration storage interface, named policies and per-policy skips are not modelled. The tests and `src/throttler-storage-options.interface.ts` refer to them, but no file modelled here implements them.

## Findings

| source | as written | input that shows it | evidently intended | confidence | as-written member | corrected member |
|---|---|---|---|---|---|---|
| src/limiter.service.ts:6 | `storage` is declared but never assigned, so it is `undefined` | `new LocalLimitStorage()` followed by `getRecord("k")` or `addRecord("k", 1)`: reading a property of `undefined` throws a TypeError | start from an empty record `{}` | high (not executed) | `LimiterService.ConstructedStoreFails` | `LimiterService.LocalLimitStorage.constructor` |
