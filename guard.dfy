/**
 * ThrottlerGuard as written in src/throttler.guard.ts, over the TypeScript
 * store. The reflector's answers (skip flag, route or class limit and ttl)
 * are inputs of CanActivate; md5 and `RegExp.prototype.test` are functions
 * handed to the constructor; `Date.now()` is the parameter `now`.
 */
module Guard {
  import opened Wrappers
  import opened GuardRules
  import opened StorageService

  /** The `error` field of the ThrottlerException body in src/throttler.exception.ts. */
  const ThrottlerError: string := "Too Many Requests"

  class ThrottlerGuard {
    const options: Options
    const storageService: ThrottlerStorageService
    const md5: string -> string
    const test: (Pattern, Option<string>) -> bool

    constructor (options: Options, storageService: ThrottlerStorageService,
                 md5: string -> string, test: (Pattern, Option<string>) -> bool)
      ensures this.options == options && this.storageService == storageService
      ensures this.md5 == md5 && this.test == test
    {
      this.options := options;
      this.storageService := storageService;
      this.md5 := md5;
      this.test := test;
    }

    /** The storage key: a hash of class name, handler name and the suffix (the caller's IP). */
    function GenerateKey(context: Context, suffix: string): string
    {
      md5(KeyMaterial(context.className, context.handlerName, suffix))
    }

    ghost predicate Ignored(context: Context)
    {
      options.ignoreUserAgents.Some? &&
      AnyPatternMatches(options.ignoreUserAgents.value, context.request.userAgent, test)
    }

    /** Checks the request against `limit` per `ttl` seconds and records it when admitted. */
    method HandleRequest(context: Context, limit: int, ttl: int, now: int)
      returns (outcome: Outcome, headers: seq<Header>)
      requires storageService.Valid()
      modifies storageService
      ensures storageService.Valid() && storageService.fired == old(storageService.fired)
      ensures Handled(Ignored(context), GenerateKey(context, context.request.ip), limit, ttl, now,
                      Reject(TooManyRequests, ThrottlerError),
                      old(storageService.storage), storageService.storage, outcome, headers)
      ensures storageService.history ==
        if storageService.storage == old(storageService.storage) then old(storageService.history)
        else old(storageService.history)[GenerateKey(context, context.request.ip) :=
          old(HistoryOf(storageService.history, GenerateKey(context, context.request.ip))) + [Add(now, ttl)]]
    {
      var req := context.request;
      var ignored := IsIgnoredUserAgent(options.ignoreUserAgents, req.userAgent, test);
      if ignored {
        return Allow, [];
      }
      var key := GenerateKey(context, req.ip);
      var ttls := storageService.GetRecord(key);
      var nearestExpiryTime := NearestExpiryTime(ttls, now);
      if |ttls| >= limit {
        headers := [Header(RetryAfter, nearestExpiryTime)];
        return Reject(TooManyRequests, ThrottlerError), headers;
      }
      headers := [Header(HeaderPrefix + "-Limit", limit)];
      headers := headers + [Header(HeaderPrefix + "-Remaining", Max(0, limit - (|ttls| + 1)))];
      headers := headers + [Header(HeaderPrefix + "-Reset", nearestExpiryTime)];
      storageService.AddRecord(key, ttl, now);
      assert |RecordsOf(storageService.storage, key)| == |ttls| + 1;
      outcome := Allow;
    }

    /**
     * A skipped route is let through untouched; otherwise the route or class
     * limit and ttl, when truthy, override the global ones.
     */
    method CanActivate(context: Context, skip: bool, routeOrClassLimit: Option<int>,
                       routeOrClassTtl: Option<int>, now: int)
      returns (outcome: Outcome, headers: seq<Header>)
      requires storageService.Valid()
      modifies storageService
      ensures storageService.Valid() && storageService.fired == old(storageService.fired)
      ensures skip ==> outcome == Allow && headers == [] && unchanged(storageService)
      ensures !skip ==>
        Handled(Ignored(context), GenerateKey(context, context.request.ip),
                Fallback(routeOrClassLimit, options.limit), Fallback(routeOrClassTtl, options.ttl), now,
                Reject(TooManyRequests, ThrottlerError),
                old(storageService.storage), storageService.storage, outcome, headers)
      ensures !skip ==> (storageService.history ==
        if storageService.storage == old(storageService.storage) then old(storageService.history)
        else old(storageService.history)[GenerateKey(context, context.request.ip) :=
          old(HistoryOf(storageService.history, GenerateKey(context, context.request.ip)))
            + [Add(now, Fallback(routeOrClassTtl, options.ttl))]])
    {
      if skip {
        return Allow, [];
      }
      var limit := Fallback(routeOrClassLimit, options.limit);
      var ttl := Fallback(routeOrClassTtl, options.ttl);
      outcome, headers := HandleRequest(context, limit, ttl, now);
    }
  }
}
