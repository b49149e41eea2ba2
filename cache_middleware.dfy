/** The response-caching middleware built on the shared `CacheManager`
    (`cacheMiddleware` in backend/utils/cache.js): a GET request is answered
    from the cache when a truthy entry is stored under its key; otherwise the
    request goes on to the route, and the JSON body the route sends back is
    stored for later GETs unless it reports `success: false`. */
module CacheMiddleware {
  import opened Common
  import opened Cache

  /** The parts of an Express request the middleware reads. */
  datatype Request = Request(httpMethod: string, path: string)

  /** What the middleware does with a request before the route runs:
      answer it with the cached body (sent with `_cached: true` added), or
      pass it on. */
  datatype Reply<V> = Cached(body: V) | PassOn

  /** The cache key: the caller's key generator when one is given, else
      `METHOD:path`. */
  function CacheKey(req: Request, keyGenerator: Option<Request -> Key>): Key {
    match keyGenerator
    case Some(g) => g(req)
    case None => req.httpMethod + ":" + req.path
  }

  /** The lookup before the route runs. Only GET consults the cache; a hit
      is served only when the stored value is truthy. */
  function LookupOp<V>(s: CacheState<V>, req: Request, keyGenerator: Option<Request -> Key>,
                       now: int, truthy: V -> bool): (CacheState<V>, Reply<V>)
  {
    if req.httpMethod == "GET" then
      var (t, hit) := GetOp(s, CacheKey(req, keyGenerator), now);
      (t, if hit.Some? && truthy(hit.value) then Cached(hit.value) else PassOn)
    else
      (s, PassOn)
  }

  /** The intercepted `res.json(data)`: a GET response is stored under the
      request's key for `ttlMs`, unless its `success` field is `false`. */
  function RecordOp<V>(s: CacheState<V>, req: Request, keyGenerator: Option<Request -> Key>,
                       data: V, ttlMs: int, now: int, successIsFalse: V -> bool,
                       sizeOf: V -> nat, serializes: V -> bool): CacheState<V>
    requires OrderInCache(s)
  {
    if req.httpMethod == "GET" && !successIsFalse(data) then
      SetOp(s, CacheKey(req, keyGenerator), data, ttlMs, now, sizeOf, serializes).0
    else
      s
  }

  /** With the default key, two requests whose methods contain no colon
      share a cache entry exactly when they have the same method and path. */
  lemma {:induction false} DefaultKeyInjective(a: Request, b: Request)
    requires ':' !in a.httpMethod && ':' !in b.httpMethod
    ensures CacheKey(a, None) == CacheKey(b, None) <==> a == b
  {
    if CacheKey(a, None) == CacheKey(b, None) {
      var ka := CacheKey(a, None);
      assert ka[|a.httpMethod|] == ':' && ka[|b.httpMethod|] == ':';
      assert |a.httpMethod| == |b.httpMethod|;
      assert a.httpMethod == ka[..|a.httpMethod|] == b.httpMethod;
      assert a.path == ka[|a.httpMethod| + 1..] == b.path;
    }
  }

  /** Requests other than GET neither read nor write the cache. */
  lemma OnlyGetUsesCache<V>(s: CacheState<V>, req: Request, keyGenerator: Option<Request -> Key>,
                            data: V, ttlMs: int, now: int, truthy: V -> bool,
                            successIsFalse: V -> bool, sizeOf: V -> nat, serializes: V -> bool)
    requires OrderInCache(s) && req.httpMethod != "GET"
    ensures LookupOp(s, req, keyGenerator, now, truthy) == (s, PassOn)
    ensures RecordOp(s, req, keyGenerator, data, ttlMs, now, successIsFalse, sizeOf, serializes) == s
  {
  }

  /** A request is answered from the cache exactly when it is a GET whose
      key holds a truthy value, and the answer is that value. */
  lemma LookupServes<V>(s: CacheState<V>, req: Request, keyGenerator: Option<Request -> Key>,
                        now: int, truthy: V -> bool, v: V)
    ensures var key := CacheKey(req, keyGenerator);
      LookupOp(s, req, keyGenerator, now, truthy).1 == Cached(v) <==>
        req.httpMethod == "GET" && key in s.cache && s.cache[key].value == v && truthy(v)
  {
  }

  /** A response that reports `success: false` is never stored. */
  lemma FailureNotRecorded<V>(s: CacheState<V>, req: Request, keyGenerator: Option<Request -> Key>,
                              data: V, ttlMs: int, now: int, successIsFalse: V -> bool,
                              sizeOf: V -> nat, serializes: V -> bool)
    requires OrderInCache(s) && successIsFalse(data)
    ensures RecordOp(s, req, keyGenerator, data, ttlMs, now, successIsFalse, sizeOf, serializes) == s
  {
  }

  /** Recording a GET response that is storable and truthy makes the next
      identical GET an answer from the cache with that same body. */
  lemma RecordThenLookup<V>(s: CacheState<V>, req: Request, keyGenerator: Option<Request -> Key>,
                            data: V, ttlMs: int, now: int, later: int, truthy: V -> bool,
                            successIsFalse: V -> bool, sizeOf: V -> nat, serializes: V -> bool)
    requires Inv(s, serializes)
    requires req.httpMethod == "GET" && !successIsFalse(data) && serializes(data) && truthy(data)
    ensures var t := RecordOp(s, req, keyGenerator, data, ttlMs, now, successIsFalse, sizeOf, serializes);
      LookupOp(t, req, keyGenerator, later, truthy).1 == Cached(data)
  {
    SetThenGet(s, CacheKey(req, keyGenerator), data, ttlMs, now, later, serializes, sizeOf);
  }

  /** The middleware's step before the route runs, on the shared cache. */
  method Lookup<V>(cm: CacheManager<V>, req: Request, keyGenerator: Option<Request -> Key>,
                   now: int, truthy: V -> bool) returns (reply: Reply<V>)
    requires cm.Valid()
    modifies cm
    ensures cm.Valid()
    ensures (cm.State(), reply) == LookupOp(old(cm.State()), req, keyGenerator, now, truthy)
  {
    var cacheKey := CacheKey(req, keyGenerator);
    reply := PassOn;
    if req.httpMethod == "GET" {
      var cached := cm.Get(cacheKey, now);
      if cached.Some? && truthy(cached.value) {
        reply := Cached(cached.value);
      }
    }
  }

  /** The replaced `res.json`: stores the body when the rule allows, then
      sends it unchanged. `ttlMs` is the factory's argument, 30 seconds when
      left out. */
  method Record<V>(cm: CacheManager<V>, req: Request, keyGenerator: Option<Request -> Key>,
                   data: V, ttlMs: Option<int>, now: int, successIsFalse: V -> bool) returns (sent: V)
    requires cm.Valid()
    modifies cm
    ensures cm.Valid()
    ensures cm.State() == RecordOp(old(cm.State()), req, keyGenerator, data, ArgOr(ttlMs, DefaultTtlMs), now,
                                   successIsFalse, cm.sizeOf, cm.serializes)
    ensures sent == data
  {
    if req.httpMethod == "GET" && !successIsFalse(data) {
      var _ := cm.Set(CacheKey(req, keyGenerator), data, Some(ArgOr(ttlMs, DefaultTtlMs)), now);
    }
    sent := data;
  }
}
