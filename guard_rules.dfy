/**
 * The decision rule shared by both builds of ThrottlerGuard
 * (src/throttler.guard.ts and dist/throttler.guard.js): the fallback from a
 * route or class setting to the global one, the user-agent ignore list, the
 * storage key, and the accept/reject arithmetic with its headers. The
 * `-Limit`, `-Remaining` and `-Reset` headers are modelled on the fields of
 * the IETF draft "RateLimit Header Fields for HTTP"
 * (draft-polli-ratelimit-headers-00, section "Header Specifications"), under
 * the older `X-RateLimit-` prefix; `Retry-After` is not one of the draft's
 * fields. A rejection is HTTP 429 Too Many Requests (section 4 of RFC 6585).
 */
module GuardRules {
  import opened Wrappers
  import opened StorageService

  /** A user-agent pattern (a regular expression, kept as its source text). */
  type Pattern = string

  /** The global options a guard reads. */
  datatype Options = Options(limit: int, ttl: int, ignoreUserAgents: Option<seq<Pattern>>)

  /** The parts of the HTTP request a guard reads: `req.ip` and the User-Agent header. */
  datatype Request = Request(ip: string, userAgent: Option<string>)

  /** The execution context: names of the controller class and handler, and the request. */
  datatype Context = Context(className: string, handlerName: string, request: Request)

  /** One `res.header(name, value)` write. */
  datatype Header = Header(name: string, value: int)

  /** What `canActivate` ends in: `true`, or a thrown ThrottlerException. */
  datatype Outcome = Allow | Reject(status: int, message: string)

  const TooManyRequests: int := 429
  const HeaderPrefix: string := "X-RateLimit"
  const RetryAfter: string := "Retry-After"

  function Max(a: int, b: int): int { if a < b then b else a }
  function Min(a: int, b: int): int { if a < b then a else b }

  /**
   * `routeOrClass || global`: the route or class value when it is set and
   * truthy; an unset value and a 0 both fall back to the global value.
   */
  function Fallback(routeOrClass: Option<int>, global: int): (r: int)
    ensures routeOrClass.Some? && routeOrClass.value != 0 ==> r == routeOrClass.value
    ensures routeOrClass == None || routeOrClass == Some(0) ==> r == global
  {
    match routeOrClass
    case Some(v) => if v != 0 then v else global
    case None => global
  }

  /** `Math.ceil(ms / 1000)` for any sign of `ms`: the least whole number of seconds covering `ms`. */
  function CeilSeconds(ms: int): (r: int)
    ensures 1000 * (r - 1) < ms <= 1000 * r
  {
    -((-ms) / 1000)
  }

  /** Whole seconds until the oldest recorded entry expires, 0 when there is none. */
  function NearestExpiryTime(ttls: seq<int>, now: int): (r: int)
    ensures ttls == [] ==> r == 0
    ensures ttls != [] ==> 1000 * (r - 1) < ttls[0] - now <= 1000 * r
    ensures ttls != [] && ttls[0] > now ==> r >= 1
  {
    if |ttls| > 0 then CeilSeconds(ttls[0] - now) else 0
  }

  /** Some pattern of the list accepts the user agent. */
  predicate AnyPatternMatches(patterns: seq<Pattern>, userAgent: Option<string>,
                              test: (Pattern, Option<string>) -> bool)
  {
    exists i :: 0 <= i < |patterns| && test(patterns[i], userAgent)
  }

  /**
   * The loop over `ignoreUserAgents`: when the option is an array, true as
   * soon as one pattern accepts the user agent; otherwise false.
   */
  method IsIgnoredUserAgent(ignoreUserAgents: Option<seq<Pattern>>, userAgent: Option<string>,
                            test: (Pattern, Option<string>) -> bool) returns (ignored: bool)
    ensures ignored <==> ignoreUserAgents.Some? && AnyPatternMatches(ignoreUserAgents.value, userAgent, test)
  {
    if ignoreUserAgents.Some? {
      var patterns := ignoreUserAgents.value;
      for i := 0 to |patterns|
        invariant forall j :: 0 <= j < i ==> !test(patterns[j], userAgent)
      {
        if test(patterns[i], userAgent) {
          return true;
        }
      }
    }
    return false;
  }

  /** The text `generateKey` hashes: class name, handler name and tracker joined by dashes. */
  function KeyMaterial(className: string, handlerName: string, suffix: string): string
  {
    className + "-" + handlerName + "-" + suffix
  }

  /** A dash-free prefix puts the first dash of `a + "-" + r` right after it. */
  lemma DashNotBefore(a: string, r: string, i: int)
    requires '-' !in a
    requires 0 <= i < |a + "-" + r| && (a + "-" + r)[i] == '-'
    ensures i >= |a|
  {
  }

  lemma SplitAtFirstDash(a1: string, r1: string, a2: string, r2: string)
    requires '-' !in a1 && '-' !in a2
    requires a1 + "-" + r1 == a2 + "-" + r2
    ensures a1 == a2 && r1 == r2
  {
    var s := a1 + "-" + r1;
    assert s[|a1|] == '-' && s[|a2|] == '-';
    DashNotBefore(a2, r2, |a1|);
    DashNotBefore(a1, r1, |a2|);
    assert a1 == s[..|a1|] == a2;
    assert r1 == s[|a1| + 1..] == r2;
  }

  /**
   * Provided the class and handler names hold no dash (the tracker may), the
   * key text determines the class, the handler and the tracker: requests
   * differing in any of the three never share a record list, short of an md5
   * collision. A handler named by a string literal with a dash is outside this.
   */
  lemma {:induction false} KeyMaterialInjective(c1: string, h1: string, t1: string,
                                                c2: string, h2: string, t2: string)
    requires '-' !in c1 && '-' !in h1 && '-' !in c2 && '-' !in h2
    requires KeyMaterial(c1, h1, t1) == KeyMaterial(c2, h2, t2)
    ensures c1 == c2 && h1 == h2 && t1 == t2
  {
    assert KeyMaterial(c1, h1, t1) == c1 + "-" + (h1 + "-" + t1);
    assert KeyMaterial(c2, h2, t2) == c2 + "-" + (h2 + "-" + t2);
    SplitAtFirstDash(c1, h1 + "-" + t1, c2, h2 + "-" + t2);
    SplitAtFirstDash(h1, t1, h2, t2);
  }

  /** The guard's verdict on a key whose list is `ttls`, before any header is written. */
  datatype Decision = Throttle(retryAfter: int) | Admit(limit: int, remaining: int, reset: int)

  /**
   * Rejects exactly when the key already holds `limit` entries or more; on
   * acceptance, `Remaining` counts the request being admitted, so it is
   * `limit - count - 1`, never negative.
   */
  function Decide(ttls: seq<int>, limit: int, now: int): (d: Decision)
    ensures d.Throttle? <==> |ttls| >= limit
    ensures d.Throttle? ==> d.retryAfter == NearestExpiryTime(ttls, now)
    ensures d.Admit? ==> d.limit == limit && d.reset == NearestExpiryTime(ttls, now)
    ensures d.Admit? ==> d.remaining == limit - |ttls| - 1 >= 0
  {
    var nearestExpiryTime := NearestExpiryTime(ttls, now);
    if |ttls| >= limit then Throttle(nearestExpiryTime)
    else Admit(limit, Max(0, limit - (|ttls| + 1)), nearestExpiryTime)
  }

  /** What a client reads back from the headers of one response; `None` for any other set. */
  function ReadHeaders(headers: seq<Header>): Option<Decision>
  {
    if |headers| == 1 && headers[0].name == RetryAfter then
      Some(Throttle(headers[0].value))
    else if |headers| == 3 && headers[0].name == HeaderPrefix + "-Limit"
         && headers[1].name == HeaderPrefix + "-Remaining" && headers[2].name == HeaderPrefix + "-Reset" then
      Some(Admit(headers[0].value, headers[1].value, headers[2].value))
    else None
  }

  /** The header writes of a decision, in the order the guard makes them. */
  function HeadersOf(d: Decision): (r: seq<Header>)
    ensures forall i, j :: 0 <= i < j < |r| ==> r[i].name != r[j].name
    ensures (exists i :: 0 <= i < |r| && r[i].name == RetryAfter) <==> d.Throttle?
    ensures ReadHeaders(r) == Some(d)
  {
    match d
    case Throttle(retryAfter) =>
      var r := [Header(RetryAfter, retryAfter)];
      assert r[0].name == RetryAfter;
      r
    case Admit(limit, remaining, reset) =>
      assert (HeaderPrefix + "-Limit")[12] == 'L' && (HeaderPrefix + "-Remaining")[12] == 'R';
      assert (HeaderPrefix + "-Reset")[12] == 'R' && (HeaderPrefix + "-Reset")[13] == 'e';
      assert (HeaderPrefix + "-Remaining")[13] == 'e' && (HeaderPrefix + "-Reset")[14] == 's';
      assert (HeaderPrefix + "-Remaining")[14] == 'm';
      [Header(HeaderPrefix + "-Limit", limit),
       Header(HeaderPrefix + "-Remaining", remaining),
       Header(HeaderPrefix + "-Reset", reset)]
  }

  /**
   * One request step of `handleRequest`, on the store's map before and after:
   * an ignored user agent is let through with no header and no store change;
   * otherwise the headers are those of Decide on the key's list, a throttled
   * request ends in `rejection` with the store unchanged, and an admitted one
   * appends exactly one expiry, `now + ttl * 1000`, to the key's list.
   */
  ghost predicate Handled(ignored: bool, key: string, limit: int, ttl: int, now: int, rejection: Outcome,
                          before: map<string, seq<int>>, after: map<string, seq<int>>,
                          outcome: Outcome, headers: seq<Header>)
  {
    if ignored then outcome == Allow && headers == [] && after == before
    else
      var ttls := RecordsOf(before, key);
      var d := Decide(ttls, limit, now);
      && headers == HeadersOf(d)
      && (d.Throttle? ==> outcome == rejection && after == before)
      && (d.Admit? ==> outcome == Allow && after == before[key := ttls + [ExpiryOf(now, ttl)]])
  }

  /** The key's list after one request at `now`: one entry more when admitted, untouched when throttled. */
  function Admitted(ttls: seq<int>, limit: int, ttl: int, now: int): seq<int>
  {
    if Decide(ttls, limit, now).Admit? then ttls + [ExpiryOf(now, ttl)] else ttls
  }

  /** The key's list after requests at the instants `times`, starting empty, no timer firing in between. */
  function Burst(times: seq<int>, limit: int, ttl: int): seq<int>
  {
    if times == [] then []
    else Admitted(Burst(times[..|times| - 1], limit, ttl), limit, ttl, times[|times| - 1])
  }

  /**
   * A request step that is not ignored changes only its own key, and leaves
   * that key's list as Admitted says; so a run of steps on one key, with no
   * timer firing, builds exactly Burst's list.
   */
  lemma HandledStepIsAdmitted(key: string, limit: int, ttl: int, now: int, rejection: Outcome,
                                                 before: map<string, seq<int>>, after: map<string, seq<int>>,
                                                 outcome: Outcome, headers: seq<Header>)
    requires rejection.Reject?
    requires Handled(false, key, limit, ttl, now, rejection, before, after, outcome, headers)
    ensures RecordsOf(after, key) == Admitted(RecordsOf(before, key), limit, ttl, now)
    ensures forall k :: k != key ==> RecordsOf(after, k) == RecordsOf(before, k)
    ensures outcome == Allow <==> |RecordsOf(after, key)| == |RecordsOf(before, key)| + 1
  {
  }

  /** The list grows by one per request until it reaches the limit, and no further. */
  lemma {:induction false} BurstLength(times: seq<int>, limit: int, ttl: int)
    ensures |Burst(times, limit, ttl)| == Min(|times|, Max(limit, 0))
  {
    if times != [] {
      BurstLength(times[..|times| - 1], limit, ttl);
    }
  }

  /**
   * From an empty store, request n + 1 (after n at any instants, none expired)
   * is admitted exactly when n < limit, with `Remaining` limit - n - 1: calls
   * 1 to limit pass with Remaining limit - 1 down to 0, and call limit + 1 is
   * the first one rejected.
   */
  lemma {:induction false} BurstDecision(times: seq<int>, limit: int, ttl: int, now: int)
    ensures var d := Decide(Burst(times, limit, ttl), limit, now);
      && (d.Admit? <==> |times| < limit)
      && (d.Admit? ==> d.remaining == limit - |times| - 1)
  {
    BurstLength(times, limit, ttl);
  }
}
