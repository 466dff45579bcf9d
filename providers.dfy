/**
 * The providers of src/throttler.providers.ts: the options normalisation
 * behind `createThrottlerProviders`, the storage factory and the two token
 * getters. Dependency injection itself is not modelled: a provider is a
 * token with the value it supplies.
 */
module Providers {
  import opened Wrappers
  import StorageService
  import GuardRules

  /** References to values the options carry and this model never looks into. */
  type SkipRef = nat
  type StorageRef = nat

  datatype Throttle = Throttle(limit: Option<int>, ttl: Option<int>)

  /** The module options; a field left out of the object literal is `None`. */
  datatype ModuleOptions = ModuleOptions(
    limit: Option<int>,
    ttl: Option<int>,
    ignoreUserAgents: Option<seq<GuardRules.Pattern>>,
    skip: Option<SkipRef>,
    storage: Option<StorageRef>,
    throttles: Option<seq<Throttle>>)

  /** Injection tokens: THROTTLER_OPTIONS and the ThrottlerStorage symbol. */
  datatype Token = ThrottlerOptionsToken | ThrottlerStorageToken

  datatype Provider = Provider(provide: Token, useValue: ModuleOptions)

  function GetStorageToken(): Token
  {
    ThrottlerStorageToken
  }

  /** The options token, never to be confused with the storage token. */
  function GetOptionsToken(): (t: Token)
    ensures t != GetStorageToken()
  {
    ThrottlerOptionsToken
  }

  /**
   * One provider under the options token. Options that already hold a
   * `throttles` array pass through as they are; otherwise the top-level
   * `limit` and `ttl` become the single throttle, `ignoreUserAgents` and
   * `storage` are carried across, and every other field is dropped.
   */
  function CreateThrottlerProviders(options: ModuleOptions): (providers: seq<Provider>)
    ensures |providers| == 1 && providers[0].provide == GetOptionsToken()
    ensures options.throttles.Some? ==> providers[0].useValue == options
    ensures options.throttles.None? ==>
      var normal := providers[0].useValue;
      && normal.throttles == Some([Throttle(options.limit, options.ttl)])
      && normal.ignoreUserAgents == options.ignoreUserAgents
      && normal.storage == options.storage
      && normal.limit == None && normal.ttl == None && normal.skip == None
  {
    var normal :=
      if options.throttles.Some? then options
      else ModuleOptions(
        limit := None, ttl := None,
        ignoreUserAgents := options.ignoreUserAgents,
        skip := None,
        storage := options.storage,
        throttles := Some([Throttle(options.limit, options.ttl)]));
    [Provider(GetOptionsToken(), normal)]
  }

  /** Normalised options are already in the multi-throttle form: normalising twice changes nothing. */
  lemma NormalisationIsIdempotent(options: ModuleOptions)
    ensures var once := CreateThrottlerProviders(options)[0].useValue;
      && once.throttles.Some?
      && CreateThrottlerProviders(once)[0].useValue == once
  {
  }

  /** The storage factory: the user's storage when one is given, else a fresh empty in-memory store. */
  method UseFactory(options: ModuleOptions)
    returns (supplied: Option<StorageRef>, created: StorageService.ThrottlerStorageService?)
    ensures options.storage.Some? ==> supplied == options.storage && created == null
    ensures options.storage.None? ==>
      && supplied == None && created != null && fresh(created)
      && created.Valid() && created.storage == map[]
  {
    if options.storage.Some? {
      return options.storage, null;
    }
    created := new StorageService.ThrottlerStorageService();
    supplied := None;
  }
}
