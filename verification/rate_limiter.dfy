/** The fixed-window counter behind each rate-limit key (src/rate-limiter.ts). One
    instance holds one record; each request either counts against the current window
    or is refused. The clock and the record store are parameters. */
module RateLimiter {
  import opened Wrappers
  import opened Text

  /** The stored `record`. */
  datatype LimitRecord = LimitRecord(count: int, resetAt: int)

  /** The JSON answer. */
  datatype LimitResponse = LimitResponse(allowed: bool, limit: int, remaining: int, resetAt: int, retryAfter: int)

  /** An answer together with the record written back, if any. */
  datatype Transition = Transition(response: LimitResponse, written: Option<LimitRecord>)

  const DefaultParam: string := "60"

  /** `Number.parseInt(param || '60', 10)`: an absent or empty parameter means 60;
      `None` is `NaN`. */
  function Param(param: Option<string>): (r: Option<int>)
    ensures param.None? || param.value == "" ==> r == JsParseInt(DefaultParam)
    ensures param.Some? && param.value != "" ==> r == JsParseInt(param.value)
  {
    JsParseInt(if param.Some? && param.value != "" then param.value else DefaultParam)
  }

  /** Missing parameters give a limit of 60 requests per 60 seconds. */
  lemma DefaultIsSixty(param: Option<string>)
    requires param.None? || param.value == ""
    ensures Param(param) == Some(60)
  {
    JsParseIntShowInt(60);
    assert ShowNat(60) == DefaultParam by {
      assert ShowNat(6) == "6";
    }
  }

  function Max(a: int, b: int): int {
    if a >= b then a else b
  }

  /** `Math.ceil(n / 1000)`. */
  function CeilSeconds(ms: int): (s: int)
    ensures (s - 1) * 1000 < ms <= s * 1000
  {
    -((-ms) / 1000)
  }

  /** The record a request counts against: the stored one while its window is open,
      else a fresh window of `max(window, 1)` seconds starting now. */
  function CurrentRecord(stored: Option<LimitRecord>, windowSeconds: int, now: int): (r: LimitRecord)
    ensures stored.Some? && now < stored.value.resetAt ==> r == stored.value
    ensures stored.None? || now >= stored.value.resetAt ==> r.count == 0 && r.resetAt > now
    ensures stored.None? || now >= stored.value.resetAt ==> r.resetAt - now == (if windowSeconds >= 1 then windowSeconds else 1) * 1000
  {
    if stored.None? || now >= stored.value.resetAt then LimitRecord(0, now + Max(windowSeconds, 1) * 1000)
    else stored.value
  }

  /** `RateLimiter.fetch` with its parameters already parsed. */
  function Fetch(stored: Option<LimitRecord>, limit: int, windowSeconds: int, now: int): (t: Transition)
    ensures var rec := CurrentRecord(stored, windowSeconds, now);
            && (t.response.allowed <==> rec.count < limit)
            && (t.response.allowed ==> t.written == Some(LimitRecord(rec.count + 1, rec.resetAt)))
            && (!t.response.allowed ==> t.written.None?)
            && t.response.resetAt == rec.resetAt && t.response.limit == limit
    ensures t.response.remaining >= 0
    ensures t.response.remaining == (if t.written.Some? then Max(limit - t.written.value.count, 0)
                                     else Max(limit - CurrentRecord(stored, windowSeconds, now).count, 0))
    ensures t.response.retryAfter >= 0
    ensures t.response.retryAfter * 1000 >= t.response.resetAt - now
    ensures t.response.retryAfter > 0 ==> (t.response.retryAfter - 1) * 1000 < t.response.resetAt - now
  {
    var rec := CurrentRecord(stored, windowSeconds, now);
    var allowed := rec.count < limit;
    var after := if allowed then LimitRecord(rec.count + 1, rec.resetAt) else rec;
    var response := LimitResponse(allowed, limit, Max(limit - after.count, 0), after.resetAt,
                                  Max(CeilSeconds(after.resetAt - now), 0));
    Transition(response, if allowed then Some(after) else None)
  }

  /** A whole request, parameters included; `None` when a parameter is not a number. */
  function Handle(stored: Option<LimitRecord>, limitParam: Option<string>, windowParam: Option<string>, now: int)
    : (t: Option<Transition>)
    ensures Param(limitParam).Some? && Param(windowParam).Some? <==> t.Some?
    ensures t.Some? ==> t.value == Fetch(stored, Param(limitParam).value, Param(windowParam).value, now)
  {
    match (Param(limitParam), Param(windowParam))
    case (Some(limit), Some(windowSeconds)) => Some(Fetch(stored, limit, windowSeconds, now))
    case _ => None
  }

  /** The record after a run of requests at the given times: what the last write left. */
  function Run(stored: Option<LimitRecord>, limit: int, windowSeconds: int, times: seq<int>): Option<LimitRecord>
    decreases |times|
  {
    if |times| == 0 then stored
    else
      var t := Fetch(stored, limit, windowSeconds, times[0]);
      Run(if t.written.Some? then t.written else stored, limit, windowSeconds, times[1..])
  }

  /** One request keeps a stored count within the limit. */
  lemma StepWithinLimit(stored: Option<LimitRecord>, limit: int, windowSeconds: int, now: int)
    requires limit >= 0
    requires stored.Some? ==> 0 <= stored.value.count <= limit
    ensures var t := Fetch(stored, limit, windowSeconds, now);
            t.written.Some? ==> 0 < t.written.value.count <= limit
  {
  }

  /** However requests arrive, the stored count never exceeds a non-negative limit. */
  lemma {:induction false} RunWithinLimit(stored: Option<LimitRecord>, limit: int, windowSeconds: int, times: seq<int>)
    requires limit >= 0
    requires stored.Some? ==> 0 <= stored.value.count <= limit
    ensures var r := Run(stored, limit, windowSeconds, times);
            r.Some? ==> 0 <= r.value.count <= limit
    decreases |times|
  {
    if |times| > 0 {
      var t := Fetch(stored, limit, windowSeconds, times[0]);
      StepWithinLimit(stored, limit, windowSeconds, times[0]);
      RunWithinLimit(if t.written.Some? then t.written else stored, limit, windowSeconds, times[1..]);
    }
  }

  /** Within one window, exactly `limit` requests are admitted: a record at the limit
      refuses and stays as it is. */
  lemma FullWindowRefuses(r: LimitRecord, limit: int, windowSeconds: int, now: int)
    requires now < r.resetAt && r.count >= limit
    ensures !Fetch(Some(r), limit, windowSeconds, now).response.allowed
    ensures Fetch(Some(r), limit, windowSeconds, now).written.None?
    ensures Fetch(Some(r), limit, windowSeconds, now).response.remaining == 0
  {
  }
}
