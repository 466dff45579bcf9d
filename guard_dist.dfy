/**
 * ThrottlerGuard as compiled in dist/throttler.guard.js, over the compiled
 * store. Next to the TypeScript guard it derives the tracker through
 * `getTracker`, and rejects through `throwThrottlingException`, whose
 * exception carries the guard's `errorMessage` (dist/throttler.exception.js).
 */
module GuardDist {
  import opened Wrappers
  import opened GuardRules
  import opened StorageService
  import StorageServiceDist

  /** `throttlerMessage`, the default text of a ThrottlerException. */
  const ThrottlerMessage: string := "ThrottlerException: Too Many Requests"

  /** `${message || throttlerMessage}`: an empty message gives way to the default one. */
  function ExceptionMessage(message: string): (r: string)
    ensures r != ""
    ensures message != "" ==> r == message
    ensures message == "" ==> r == ThrottlerMessage
  {
    if message != "" then message else ThrottlerMessage
  }

  class ThrottlerGuard {
    const options: Options
    const storageService: StorageServiceDist.ThrottlerStorageService
    const md5: string -> string
    const test: (Pattern, Option<string>) -> bool
    var errorMessage: string

    constructor (options: Options, storageService: StorageServiceDist.ThrottlerStorageService,
                 md5: string -> string, test: (Pattern, Option<string>) -> bool)
      ensures this.options == options && this.storageService == storageService
      ensures this.md5 == md5 && this.test == test
      ensures errorMessage == ThrottlerMessage
    {
      this.options := options;
      this.storageService := storageService;
      this.md5 := md5;
      this.test := test;
      this.errorMessage := ThrottlerMessage;
    }

    /** The identity requests are counted under: the caller's IP. */
    function GetTracker(req: Request): string
    {
      req.ip
    }

    /** The storage key: a hash of class name, handler name and tracker. */
    function GenerateKey(context: Context, suffix: string): string
    {
      md5(KeyMaterial(context.className, context.handlerName, suffix))
    }

    /** The rejection `throwThrottlingException` raises: 429 with the guard's message. */
    function ThrottlingException(): (e: Outcome)
      reads this
      ensures e.Reject? && e.status == TooManyRequests && e.message != ""
      ensures errorMessage != "" ==> e.message == errorMessage
    {
      Reject(TooManyRequests, ExceptionMessage(errorMessage))
    }

    ghost predicate Ignored(context: Context)
    {
      options.ignoreUserAgents.Some? &&
      AnyPatternMatches(options.ignoreUserAgents.value, context.request.userAgent, test)
    }

    /**
     * Checks the request against `limit` per `ttl` seconds; an admitted request
     * is recorded and registers exactly one timer id, any other registers none.
     */
    method HandleRequest(context: Context, limit: int, ttl: int, now: int)
      returns (outcome: Outcome, headers: seq<Header>)
      requires storageService.Valid()
      modifies storageService
      ensures storageService.Valid() && storageService.fired == old(storageService.fired)
      ensures Handled(Ignored(context), GenerateKey(context, GetTracker(context.request)), limit, ttl, now,
                      ThrottlingException(),
                      old(storageService.storage), storageService.storage, outcome, headers)
      ensures storageService.timeoutIds == old(storageService.timeoutIds) +
        (if storageService.storage == old(storageService.storage) then [] else [|old(storageService.timeoutIds)|])
      ensures storageService.timers ==
        if storageService.storage == old(storageService.storage) then old(storageService.timers)
        else old(storageService.timers)[|old(storageService.timeoutIds)| := GenerateKey(context, GetTracker(context.request))]
    {
      var req := context.request;
      var ignored := IsIgnoredUserAgent(options.ignoreUserAgents, req.userAgent, test);
      if ignored {
        return Allow, [];
      }
      var tracker := GetTracker(req);
      var key := GenerateKey(context, tracker);
      var ttls := storageService.GetRecord(key);
      var nearestExpiryTime := NearestExpiryTime(ttls, now);
      if |ttls| >= limit {
        headers := [Header(RetryAfter, nearestExpiryTime)];
        outcome := ThrottlingException();
        return;
      }
      headers := [Header(HeaderPrefix + "-Limit", limit)];
      headers := headers + [Header(HeaderPrefix + "-Remaining", Max(0, limit - (|ttls| + 1)))];
      headers := headers + [Header(HeaderPrefix + "-Reset", nearestExpiryTime)];
      storageService.AddRecord(key, ttl, now);
      assert |RecordsOf(storageService.storage, key)| == |ttls| + 1;
      outcome := Allow;
    }

    /**
     * A skipped route is let through untouched; otherwise the route or class
     * limit and ttl, when truthy, override the global ones.
     */
    method CanActivate(context: Context, skip: bool, routeOrClassLimit: Option<int>,
                       routeOrClassTtl: Option<int>, now: int)
      returns (outcome: Outcome, headers: seq<Header>)
      requires storageService.Valid()
      modifies storageService
      ensures storageService.Valid() && storageService.fired == old(storageService.fired)
      ensures skip ==> outcome == Allow && headers == [] && unchanged(storageService)
      ensures !skip ==>
        Handled(Ignored(context), GenerateKey(context, GetTracker(context.request)),
                Fallback(routeOrClassLimit, options.limit), Fallback(routeOrClassTtl, options.ttl), now,
                ThrottlingException(),
                old(storageService.storage), storageService.storage, outcome, headers)
      ensures storageService.timeoutIds == old(storageService.timeoutIds) +
        (if storageService.storage == old(storageService.storage) then [] else [|old(storageService.timeoutIds)|])
      ensures storageService.timers ==
        if storageService.storage == old(storageService.storage) then old(storageService.timers)
        else old(storageService.timers)[|old(storageService.timeoutIds)| := GenerateKey(context, GetTracker(context.request))]
    {
      if skip {
        return Allow, [];
      }
      var limit := Fallback(routeOrClassLimit, options.limit);
      var ttl := Fallback(routeOrClassTtl, options.ttl);
      outcome, headers := HandleRequest(context, limit, ttl, now);
    }
  }
}
