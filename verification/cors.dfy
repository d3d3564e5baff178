/** The CORS headers every JSON response carries (src/middleware/cors.ts). */
module Cors {
  import opened Wrappers
  import opened Dicts

  /** `corsHeaders`. */
  const CorsHeaders: Dict<string> := [
    ("Content-Type", "application/json"),
    ("Access-Control-Allow-Origin", "*"),
    ("Access-Control-Allow-Methods", "GET, PUT, POST, DELETE, OPTIONS"),
    ("Access-Control-Allow-Headers",
     "Origin, Accept, Content-Type, X-Requested-With, X-CSRF-Token, cf-access-client-id, cf-access-client-secret")
  ]

  /** `mergeCorsHeaders(headers)`: `{...corsHeaders, ...headers}`. A key the caller
      supplies takes the caller's value; every other CORS key keeps its CORS value; the
      keys are those of both objects, the CORS keys first and in their order. */
  function MergeCorsHeaders(headers: Dict<string>): (h: Dict<string>)
    ensures forall k :: HasKey(headers, k) ==> Get(h, k) == Get(headers, k)
    ensures forall k :: !HasKey(headers, k) ==> Get(h, k) == Get(CorsHeaders, k)
    ensures forall k :: HasKey(h, k) <==> HasKey(CorsHeaders, k) || HasKey(headers, k)
    ensures |h| >= |CorsHeaders| && Keys(h)[..|CorsHeaders|] == Keys(CorsHeaders)
  {
    var h := Spread(CorsHeaders, headers);
    forall k ensures Get(h, k) == if HasKey(headers, k) then Get(headers, k) else Get(CorsHeaders, k) {
      GetSpread(CorsHeaders, headers, k);
    }
    KeysSpread(CorsHeaders, headers);
    SpreadKeepsOrder(CorsHeaders, headers);
    h
  }

  /** Called with no argument, the result is `corsHeaders` itself. */
  lemma MergeNothing()
    ensures MergeCorsHeaders([]) == CorsHeaders
  {
  }

  /** No key is listed twice in a merged header set, whatever the caller passes in. */
  lemma MergedKeysUnique(headers: Dict<string>)
    ensures UniqueKeys(MergeCorsHeaders(headers))
  {
    assert UniqueKeys(CorsHeaders);
    UniqueSpread(CorsHeaders, headers);
  }
}
