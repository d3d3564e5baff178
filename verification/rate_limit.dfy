/** The rate-limit middleware (src/middleware/rate-limit.ts): which key a request
    counts against, what the limiter's answer turns into, and the headers that report
    it. Request headers are a lookup function; the limiter call is a function that
    answers `None` where it (or anything before it) throws. */
module RateLimit {
  import opened Wrappers
  import opened Text
  import opened Dicts
  import Cors
  import opened RateLimiter

  /** `buildRateLimitHeaders`, also exported as `withRateLimitHeaders`. */
  function BuildRateLimitHeaders(r: Option<LimitResponse>): (h: Dict<string>)
    ensures r.None? ==> h == []
    ensures r.Some? ==> Keys(h) == ["X-RateLimit-Limit", "X-RateLimit-Remaining", "X-RateLimit-Reset"]
    ensures r.Some? ==> Get(h, "X-RateLimit-Limit") == Some(ShowInt(r.value.limit))
                        && Get(h, "X-RateLimit-Remaining") == Some(ShowInt(r.value.remaining))
  {
    match r
    case None => []
    case Some(data) =>
      var h := [("X-RateLimit-Limit", ShowInt(data.limit)),
                ("X-RateLimit-Remaining", ShowInt(data.remaining)),
                ("X-RateLimit-Reset", ShowInt(data.resetAt / 1000))];
      assert UniqueKeys(h);
      GetAt(h, 0);
      GetAt(h, 1);
      h
  }

  /** The reset header, read back, is the reset time in whole seconds, rounded down. */
  lemma ResetHeaderSeconds(r: LimitResponse)
    ensures var h := BuildRateLimitHeaders(Some(r));
            Get(h, "X-RateLimit-Reset").Some?
            && var secs := JsParseInt(Get(h, "X-RateLimit-Reset").value);
            secs.Some? && secs.value * 1000 <= r.resetAt < (secs.value + 1) * 1000
  {
    var h := BuildRateLimitHeaders(Some(r));
    assert UniqueKeys(h);
    GetAt(h, 2);
    JsParseIntShowInt(r.resetAt / 1000);
  }

  /** The stringified counts read back as the counts. */
  lemma CountHeadersRoundTrip(r: LimitResponse)
    ensures var h := BuildRateLimitHeaders(Some(r));
            JsParseInt(Get(h, "X-RateLimit-Limit").value) == Some(r.limit)
            && JsParseInt(Get(h, "X-RateLimit-Remaining").value) == Some(r.remaining)
  {
    JsParseIntShowInt(r.limit);
    JsParseIntShowInt(r.remaining);
  }

  /** A header value as `if (value)` sees it. */
  predicate Truthy(v: Option<string>) {
    v.Some? && v.value != ""
  }

  /** `getClientIp`: `cf-connecting-ip`, else the first comma-separated element of
      `x-forwarded-for`, trimmed, else `unknown`. */
  function ClientIp(header: string -> Option<string>): (ip: string)
    ensures Truthy(header("cf-connecting-ip")) ==> ip == header("cf-connecting-ip").value
    ensures !Truthy(header("cf-connecting-ip")) && Truthy(header("x-forwarded-for")) ==>
              ip == Trim(Split(header("x-forwarded-for").value, ',')[0])
    ensures !Truthy(header("cf-connecting-ip")) && !Truthy(header("x-forwarded-for")) ==> ip == "unknown"
  {
    var cfIp := header("cf-connecting-ip");
    if Truthy(cfIp) then cfIp.value
    else
      var forwarded := header("x-forwarded-for");
      if Truthy(forwarded) then Trim(Split(forwarded.value, ',')[0]) else "unknown"
  }

  /** Without `cf-connecting-ip`, a forwarding chain `client, proxy…` yields the client
      address with its surrounding white space removed. */
  lemma ForwardedClientFirst(header: string -> Option<string>, client: string, proxies: string)
    requires !Truthy(header("cf-connecting-ip"))
    requires header("x-forwarded-for") == Some(client + "," + proxies)
    requires ',' !in client
    ensures ClientIp(header) == Trim(client)
  {
    SplitFirstPiece(client, proxies, ',');
    assert client + "," + proxies == client + [','] + proxies;
  }

  /** The address Cloudflare Workers present when one worker calls another. */
  const WorkerIp: string := "2a06:98c0:3600::103"

  /** The limiter key: per calling worker for that address, per client address otherwise. */
  function LimiterKey(clientIp: string, workerHeader: Option<string>): (key: string)
    ensures clientIp == WorkerIp ==> key == "api:worker:" + (if Truthy(workerHeader) then workerHeader.value else "unknown")
    ensures clientIp != WorkerIp ==> key == "api:ip:" + clientIp
  {
    if clientIp == WorkerIp then "api:worker:" + (if Truthy(workerHeader) then workerHeader.value else "unknown")
    else "api:ip:" + clientIp
  }

  /** Distinct clients never share a key, and a worker key is never a client key. */
  lemma KeysSeparateClients(ip1: string, w1: Option<string>, ip2: string, w2: Option<string>)
    ensures ip1 != WorkerIp && ip2 != WorkerIp ==> (LimiterKey(ip1, w1) == LimiterKey(ip2, w2) <==> ip1 == ip2)
    ensures ip1 == WorkerIp && ip2 != WorkerIp ==> LimiterKey(ip1, w1) != LimiterKey(ip2, w2)
  {
    var k1, k2 := LimiterKey(ip1, w1), LimiterKey(ip2, w2);
    if ip1 != WorkerIp && ip2 != WorkerIp && k1 == k2 {
      assert ip1 == k1[7..] && ip2 == k2[7..];
    }
    if ip1 == WorkerIp && ip2 != WorkerIp {
      assert k1[4] == 'w' && k2[4] == 'i';
    }
  }

  const RateLimitMessage: string := "Rate limit exceeded. Try again later."

  /** What the middleware does with a request. */
  datatype Outcome =
    | Deny(status: int, message: string, headers: Dict<string>)
    | Continue(rateLimit: Option<LimitResponse>)

  /** The middleware. `limiter(key, limit, windowSeconds)` is the limiter's answer for
      the key, `None` where the call fails. */
  function Middleware(header: string -> Option<string>, limit: int, windowSeconds: int,
                      limiter: (string, int, int) -> Option<LimitResponse>): (o: Outcome)
    ensures var key := LimiterKey(ClientIp(header), header("cf-worker"));
            match limiter(key, limit, windowSeconds)
            case None => o == Continue(None)
            case Some(data) =>
              && (data.allowed ==> o == Continue(Some(data)))
              && (!data.allowed ==>
                    (o.Deny? && o.status == 429 && o.message == RateLimitMessage
                     && Get(o.headers, "Retry-After")
                        == Some(ShowInt(if data.retryAfter != 0 then data.retryAfter else windowSeconds))))
  {
    var key := LimiterKey(ClientIp(header), header("cf-worker"));
    match limiter(key, limit, windowSeconds)
    case None => Continue(None)
    case Some(data) =>
      if data.allowed then Continue(Some(data))
      else
        var retryAfter := if data.retryAfter != 0 then data.retryAfter else windowSeconds;
        var headers := Spread(Spread(Cors.CorsHeaders, BuildRateLimitHeaders(Some(data))),
                              [("Retry-After", ShowInt(retryAfter))]);
        GetSpread(Spread(Cors.CorsHeaders, BuildRateLimitHeaders(Some(data))), [("Retry-After", ShowInt(retryAfter))], "Retry-After");
        Deny(429, RateLimitMessage, headers)
  }

  /** A refusal still carries every CORS header and the rate-limit headers, besides `Retry-After`. */
  lemma DenyHeaders(header: string -> Option<string>, limit: int, windowSeconds: int,
                    limiter: (string, int, int) -> Option<LimitResponse>, k: string)
    requires Middleware(header, limit, windowSeconds, limiter).Deny?
    requires k != "Retry-After"
    ensures var key := LimiterKey(ClientIp(header), header("cf-worker"));
            var rl := BuildRateLimitHeaders(limiter(key, limit, windowSeconds));
            var h := Middleware(header, limit, windowSeconds, limiter).headers;
            Get(h, k) == if HasKey(rl, k) then Get(rl, k) else Get(Cors.CorsHeaders, k)
  {
    var key := LimiterKey(ClientIp(header), header("cf-worker"));
    var data := limiter(key, limit, windowSeconds).value;
    var retryAfter := if data.retryAfter != 0 then data.retryAfter else windowSeconds;
    var rl := BuildRateLimitHeaders(Some(data));
    var tail := [("Retry-After", ShowInt(retryAfter))];
    GetSpread(Spread(Cors.CorsHeaders, rl), tail, k);
    GetSpread(Cors.CorsHeaders, rl, k);
    GetSomeIffHasKey(tail, k);
  }

  /** Fed by the limiter itself, a refusal always asks the client to wait a positive
      number of seconds: the time left in the window, or the window length when that
      rounds to zero. */
  lemma DenyWaitsPositive(header: string -> Option<string>, limit: int, windowSeconds: int,
                          limiter: (string, int, int) -> Option<LimitResponse>)
    requires windowSeconds > 0
    requires var key := LimiterKey(ClientIp(header), header("cf-worker"));
             var data := limiter(key, limit, windowSeconds);
             data.Some? && !data.value.allowed && data.value.retryAfter >= 0
    ensures var o := Middleware(header, limit, windowSeconds, limiter);
            o.Deny? && Get(o.headers, "Retry-After").Some?
            && var wait := JsParseInt(Get(o.headers, "Retry-After").value);
            wait.Some? && wait.value > 0
  {
    var key := LimiterKey(ClientIp(header), header("cf-worker"));
    var data := limiter(key, limit, windowSeconds).value;
    JsParseIntShowInt(if data.retryAfter != 0 then data.retryAfter else windowSeconds);
  }

  /** The limiter as the Durable Object answers it: one counter step on the record
      stored for the key, at time `now`. */
  function DurableLimiter(stored: string -> Option<LimitRecord>, now: int): (string, int, int) -> Option<LimitResponse> {
    (key, limit, windowSeconds) => Some(Fetch(stored(key), limit, windowSeconds, now).response)
  }

  /** Against the Durable Object, a refusal's `Retry-After` is the whole seconds left
      in the window, and that is never zero: a refusal only happens inside an open
      window. */
  lemma DurableDenyWaitsPositive(header: string -> Option<string>, limit: int, windowSeconds: int,
                                 stored: string -> Option<LimitRecord>, now: int)
    requires Middleware(header, limit, windowSeconds, DurableLimiter(stored, now)).Deny?
    ensures var key := LimiterKey(ClientIp(header), header("cf-worker"));
            var data := Fetch(stored(key), limit, windowSeconds, now).response;
            var o := Middleware(header, limit, windowSeconds, DurableLimiter(stored, now));
            && data.retryAfter >= 1
            && Get(o.headers, "Retry-After") == Some(ShowInt(data.retryAfter))
            && JsParseInt(Get(o.headers, "Retry-After").value) == Some(data.retryAfter)
  {
    var key := LimiterKey(ClientIp(header), header("cf-worker"));
    var t := Fetch(stored(key), limit, windowSeconds, now);
    var rec := CurrentRecord(stored(key), windowSeconds, now);
    assert rec.resetAt > now;
    assert t.response.resetAt - now > 0;
    JsParseIntShowInt(t.response.retryAfter);
  }
}
