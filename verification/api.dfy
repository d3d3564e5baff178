/** The lookup route `/api/v1/<targets>` (src/routes/api.ts): splitting the request
    into targets, the cache keys a target is read and written under, and the result
    reported for each target.

    The key-value store is a `Dict<Entry>` threaded through the targets; every
    per-target dependency (validators, bootstrap maps, fetch, WHOIS socket, parser
    libraries, the configured TTL) is a field of `Env`. */
module Api {
  import opened Wrappers
  import opened Text
  import opened Dicts
  import Bootstrap
  import Parser
  import Cors
  import RateLimiter
  import RateLimit
  import opened Lookup

  const MaxUniqueLookups: nat := 10

  // ---------------------------------------------------------------------------
  // Cache keys
  // ---------------------------------------------------------------------------

  /** `getCacheKeyForInput`: the key a raw target is read under, before any lookup. */
  function CacheKeyForInput(target: string, v: Validators): (k: Option<string>)
    ensures IsDigits(AsnDigits(target)) ==> k == Some("rdap:asn:" + AsnDigits(target))
    ensures !IsDigits(AsnDigits(target)) && IsDigits(target) ==> k == Some("rdap:asn:" + target)
  {
    if StartsWithIgnoringCase(target, "asn") && IsDigits(target[3..]) then Some("rdap:asn:" + target[3..])
    else if StartsWithIgnoringCase(target, "as") && IsDigits(target[2..]) then
      assert !StartsWithIgnoringCase(target, "asn") by {
        assert IsDigit(target[2]);
      }
      Some("rdap:asn:" + target[2..])
    else if IsDigits(target) then Some("rdap:asn:" + target)
    else if v.isIP(target) then Some("rdap:ip:" + target)
    else if v.isFQDN(target) then
      match v.tldextract("http://" + target)
      case None => None
      case Some(parsed) => if parsed.domain != "" then Some("rdap:domain:" + parsed.domain) else None
    else None
  }

  /** `getCacheKeyForResolved`: the key a finished lookup is written under. */
  function CacheKeyForResolved(kind: Kind, target: string): (k: Option<string>)
    ensures k.Some? <==> kind in {Domain, Ip, Asn}
  {
    match kind
    case Domain => Some("rdap:domain:" + target)
    case Ip => Some("rdap:ip:" + target)
    case Asn => Some("rdap:asn:" + target)
    case _ => None
  }

  /** Resolved keys of different kinds or targets never collide. */
  lemma ResolvedKeysInjective(k1: Kind, t1: string, k2: Kind, t2: string)
    requires CacheKeyForResolved(k1, t1).Some? && CacheKeyForResolved(k1, t1) == CacheKeyForResolved(k2, t2)
    ensures k1 == k2 && t1 == t2
  {
    var a, b := CacheKeyForResolved(k1, t1).value, CacheKeyForResolved(k2, t2).value;
    assert a[5] == b[5];
    if k1 == Domain && k2 == Domain {
      assert t1 == a[12..] && t2 == b[12..];
    } else if k1 == Ip && k2 == Ip {
      assert t1 == a[8..] && t2 == b[8..];
    } else if k1 == Asn && k2 == Asn {
      assert t1 == a[9..] && t2 == b[9..];
    }
  }

  /** An ASN written the way `String` writes numbers, behind any accepted prefix, is
      read under the very key its result is written under. */
  lemma AsnKeysAgree(p: string, digits: string, v: Validators, s: LookupServices)
    requires AsnPrefix(p) && Canonical(digits) && !v.isIP(p + digits)
    requires GetType(NewLookup(Some(p + digits)), v, s).kind == Asn
    ensures var l := GetType(NewLookup(Some(p + digits)), v, s);
            CacheKeyForInput(p + digits, v) == CacheKeyForResolved(l.kind, l.target) == Some("rdap:asn:" + digits)
  {
    AsnPrefixNormalised(p, digits, v, s);
    var t := p + digits;
    assert t[|p|..] == digits;
    assert !StartsWithIgnoringCase(digits, "as") by { assert IsDigit(digits[0]); }
    if |p| == 2 {
      assert !StartsWithIgnoringCase(t, "asn") by { assert t[2] == digits[0]; }
    } else if |p| == 0 {
      assert t == digits;
    }
  }

  /** With a leading zero the two keys differ: `AS013335` is read under
      `rdap:asn:013335` but its result is written under `rdap:asn:13335`, so such a
      target misses the cache on every request. */
  lemma AsnLeadingZeroKeysDiffer(d: string, v: Validators, s: LookupServices)
    requires IsDigits(d) && |d| > 1 && d[0] == '0' && !v.isIP("AS" + d)
    ensures CacheKeyForInput("AS" + d, v) == Some("rdap:asn:" + d)
    ensures var l := GetType(NewLookup(Some("AS" + d)), v, s);
            CacheKeyForResolved(l.kind, l.target) != CacheKeyForInput("AS" + d, v)
  {
    AsDigits(d);
    var l := GetType(NewLookup(Some("AS" + d)), v, s);
    LeadingZeroRewritten(d, v, s);
    AsnKeyDiffers(l.kind, l.target, d);
  }

  /** The lookup rewrites a zero-padded ASN to its canonical digits. */
  lemma LeadingZeroRewritten(d: string, v: Validators, s: LookupServices)
    requires IsDigits(d) && |d| > 1 && d[0] == '0' && !v.isIP("AS" + d) && AsnDigits("AS" + d) == d
    ensures GetType(NewLookup(Some("AS" + d)), v, s).target != d
  {
    assert GetType(NewLookup(Some("AS" + d)), v, s).target == ShowNat(DigitsValue(d));
    assert !Canonical(d);
  }

  /** A result written under another target misses the `rdap:asn:` key of `d`. */
  lemma AsnKeyDiffers(kind: Kind, target: string, d: string)
    requires target != d
    ensures CacheKeyForResolved(kind, target) != Some("rdap:asn:" + d)
  {
    if kind == Asn {
      var a, b := "rdap:asn:" + target, "rdap:asn:" + d;
      assert a[9..] == target && b[9..] == d;
    } else if kind == Domain {
      assert ("rdap:domain:" + target)[5] != ("rdap:asn:" + d)[5];
    } else if kind == Ip {
      assert ("rdap:ip:" + target)[5] != ("rdap:asn:" + d)[5];
    }
  }

  /** `AS` followed by digits normalises to those digits. */
  lemma AsDigits(d: string)
    requires IsDigits(d) && |d| > 0
    ensures AsnDigits("AS" + d) == d
  {
    var t := "AS" + d;
    assert t[2..] == d;
    assert !StartsWithIgnoringCase(t, "asn") by { assert t[2] == d[0]; }
    assert StartsWithIgnoringCase(t, "as") by { assert t[..2] == "AS"; }
  }

  /** A domain name that resolves is read under the key its result is written under. */
  lemma DomainKeysAgree(target: string, v: Validators, s: LookupServices)
    requires !v.isIP(target) && !IsDigits(AsnDigits(target)) && !IsDigits(target) && v.isFQDN(target)
    requires GetType(NewLookup(Some(target)), v, s).kind == Domain
    ensures var l := GetType(NewLookup(Some(target)), v, s);
            l.target != "" ==> CacheKeyForInput(target, v) == CacheKeyForResolved(l.kind, l.target)
  {
    DomainClassification(NewLookup(Some(target)), v, s);
    AsnInputBranch(target, v);
  }

  /** An address is read under the key its result is written under. */
  lemma IpKeysAgree(target: string, v: Validators, s: LookupServices)
    requires v.isIP(target) && !IsDigits(AsnDigits(target)) && !IsDigits(target)
    ensures var l := GetType(NewLookup(Some(target)), v, s);
            l.kind == Ip ==> CacheKeyForInput(target, v) == CacheKeyForResolved(l.kind, l.target)
  {
    AsnInputBranch(target, v);
  }

  /** The input key is an ASN key exactly when `getType` would read an ASN. */
  lemma AsnInputBranch(target: string, v: Validators)
    ensures (StartsWithIgnoringCase(target, "asn") && IsDigits(target[3..]))
            || (StartsWithIgnoringCase(target, "as") && IsDigits(target[2..]))
            || IsDigits(target)
            <==> IsDigits(AsnDigits(target))
  {
    if StartsWithIgnoringCase(target, "asn") {
      assert LowerChar(target[2]) == 'n';
      assert target[2..][0] == target[2];
      assert !IsDigits(target[2..]);
      assert !IsDigit(target[0]);
    } else if StartsWithIgnoringCase(target, "as") {
      assert !IsDigit(target[0]);
    }
  }

  // ---------------------------------------------------------------------------
  // Targets
  // ---------------------------------------------------------------------------

  /** `.map(trim)`. */
  function TrimEach(parts: seq<string>): (ts: seq<string>)
    ensures |ts| == |parts| && forall j :: 0 <= j < |parts| ==> ts[j] == Trim(parts[j])
  {
    seq(|parts|, j requires 0 <= j < |parts| => Trim(parts[j]))
  }

  /** `.filter(length > 0)`: the non-empty strings, each as often as in `xs`. */
  function NonEmpty(xs: seq<string>): (ys: seq<string>)
    ensures forall t :: t in ys <==> t in xs && t != ""
    ensures multiset(ys) == multiset(xs)["" := 0]
  {
    if |xs| == 0 then []
    else
      assert xs == [xs[0]] + xs[1..];
      if xs[0] == "" then NonEmpty(xs[1..])
      else [xs[0]] + NonEmpty(xs[1..])
  }

  /** Filtering keeps the order: it distributes over concatenation. */
  lemma {:induction false} NonEmptyAppend(a: seq<string>, b: seq<string>)
    ensures NonEmpty(a + b) == NonEmpty(a) + NonEmpty(b)
  {
    if |a| > 0 {
      assert (a + b)[1..] == a[1..] + b;
      NonEmptyAppend(a[1..], b);
    } else {
      assert a + b == b;
    }
  }

  /** The requested targets: the path split on commas, trimmed, empties dropped. */
  function Targets(path: string): (ts: seq<string>)
    ensures forall t :: t in ts <==> t != "" && exists p :: p in Split(path, ',') && Trim(p) == t
  {
    var parts := Split(path, ',');
    forall t | t != "" && (exists p :: p in parts && Trim(p) == t)
      ensures t in TrimEach(parts)
    {
      var p :| p in parts && Trim(p) == t;
      var j :| 0 <= j < |parts| && parts[j] == p;
      assert TrimEach(parts)[j] == t;
    }
    forall t | t in TrimEach(parts)
      ensures exists p :: p in parts && Trim(p) == t
    {
      var j :| 0 <= j < |parts| && TrimEach(parts)[j] == t;
      assert parts[j] in parts;
    }
    NonEmpty(TrimEach(parts))
  }

  /** A comma-free path is one target, or none when it is blank. */
  lemma TargetsPiece(x: string)
    requires ',' !in x
    ensures Targets(x) == if Trim(x) == "" then [] else [Trim(x)]
  {
    SplitNoSeparator(x, ',');
    var y := Trim(x);
    assert TrimEach([x]) == [y];
    assert [y][1..] == [];
    assert NonEmpty([y]) == if y == "" then [] else [y];
  }

  /** Targets of a path are those of its comma-separated halves, in order. */
  lemma TargetsConcat(a: string, b: string)
    ensures Targets(a + [','] + b) == Targets(a) + Targets(b)
  {
    SplitAppend(a, b, ',');
    var pa, pb := Split(a, ','), Split(b, ',');
    assert TrimEach(pa + pb) == TrimEach(pa) + TrimEach(pb);
    NonEmptyAppend(TrimEach(pa), TrimEach(pb));
  }

  /** Every target is non-empty, free of commas and already trimmed. */
  lemma TargetsAreClean(path: string)
    ensures forall t :: t in Targets(path) ==> t != "" && ',' !in t && Trim(t) == t
  {
    var parts := Split(path, ',');
    forall t | t in Targets(path) ensures t != "" && ',' !in t && Trim(t) == t {
      var j :| 0 <= j < |parts| && TrimEach(parts)[j] == t;
      SplitJoin(path, ',');
      assert parts[j] in parts;
      TrimKeepsCharacters(parts[j]);
      TrimIdempotent(parts[j]);
    }
  }

  predicate Distinct(ts: seq<string>) {
    forall i, j :: 0 <= i < j < |ts| ==> ts[i] != ts[j]
  }

  /** The position of the first occurrence of `x`. */
  function FirstIndex(ts: seq<string>, x: string): (r: nat)
    requires x in ts
    ensures r < |ts| && ts[r] == x && x !in ts[..r]
  {
    if ts[0] == x then 0
    else
      var r := FirstIndex(ts[1..], x);
      assert ts[1..][..r] == ts[1..r + 1];
      r + 1
  }

  lemma FirstIndexPrefix(ts: seq<string>, m: nat, x: string)
    requires m <= |ts| && x in ts[..m]
    ensures FirstIndex(ts[..m], x) == FirstIndex(ts, x)
  {
    var a, b := FirstIndex(ts[..m], x), FirstIndex(ts, x);
    assert ts[..m][..a] == ts[..a];
    assert ts[a] == x;
  }

  /** `Array.from(new Set(ts))`: each target once, in order of first occurrence. */
  function Dedup(ts: seq<string>): (us: seq<string>)
    ensures forall t :: t in us <==> t in ts
    ensures Distinct(us) && |us| <= |ts|
    ensures forall i, j :: 0 <= i < j < |us| ==> FirstIndex(ts, us[i]) < FirstIndex(ts, us[j])
  {
    if |ts| == 0 then []
    else
      var u := Dedup(ts[..|ts| - 1]);
      DedupStep(ts, u);
      if ts[|ts| - 1] in u then u else u + [ts[|ts| - 1]]
  }

  /** What keeps `Dedup` in order: adding the last target of `ts`, unless already
      seen, to the deduplicated rest. */
  lemma DedupStep(ts: seq<string>, u: seq<string>)
    requires |ts| > 0
    requires var init := ts[..|ts| - 1];
             && (forall t :: t in u <==> t in init)
             && Distinct(u) && |u| <= |init|
             && (forall i, j :: 0 <= i < j < |u| ==> FirstIndex(init, u[i]) < FirstIndex(init, u[j]))
    ensures var us := if ts[|ts| - 1] in u then u else u + [ts[|ts| - 1]];
            && (forall t :: t in us <==> t in ts)
            && Distinct(us) && |us| <= |ts|
            && (forall i, j :: 0 <= i < j < |us| ==> FirstIndex(ts, us[i]) < FirstIndex(ts, us[j]))
  {
    if ts[|ts| - 1] in u {
      DedupSeen(ts, u);
    } else {
      DedupFresh(ts, u);
    }
  }

  /** A repeated last target leaves the distinct list unchanged. */
  lemma DedupSeen(ts: seq<string>, u: seq<string>)
    requires |ts| > 0 && ts[|ts| - 1] in u
    requires var init := ts[..|ts| - 1];
             && (forall t :: t in u <==> t in init)
             && |u| <= |init|
             && (forall i, j :: 0 <= i < j < |u| ==> FirstIndex(init, u[i]) < FirstIndex(init, u[j]))
    ensures forall t :: t in u <==> t in ts
    ensures |u| <= |ts|
    ensures forall i, j :: 0 <= i < j < |u| ==> FirstIndex(ts, u[i]) < FirstIndex(ts, u[j])
  {
    assert ts == ts[..|ts| - 1] + [ts[|ts| - 1]];
    FirstIndexKept(ts, u);
  }

  /** A new last target is appended, and its first position is the last one. */
  lemma DedupFresh(ts: seq<string>, u: seq<string>)
    requires |ts| > 0 && ts[|ts| - 1] !in u
    requires var init := ts[..|ts| - 1];
             && (forall t :: t in u <==> t in init)
             && Distinct(u) && |u| <= |init|
             && (forall i, j :: 0 <= i < j < |u| ==> FirstIndex(init, u[i]) < FirstIndex(init, u[j]))
    ensures var us := u + [ts[|ts| - 1]];
            && (forall t :: t in us <==> t in ts)
            && Distinct(us) && |us| <= |ts|
            && (forall i, j :: 0 <= i < j < |us| ==> FirstIndex(ts, us[i]) < FirstIndex(ts, us[j]))
  {
    var n := |ts| - 1;
    var init := ts[..n];
    assert ts == init + [ts[n]];
    FirstIndexKept(ts, u);
    var us := u + [ts[n]];
    assert FirstIndex(ts, ts[n]) == n;
    forall i, j | 0 <= i < j < |us| ensures FirstIndex(ts, us[i]) < FirstIndex(ts, us[j]) {
      if j == |u| {
        assert us[i] in init;
      }
    }
  }

  /** Targets already seen before the last one keep their first position. */
  lemma FirstIndexKept(ts: seq<string>, u: seq<string>)
    requires |ts| > 0 && forall t :: t in u ==> t in ts[..|ts| - 1]
    ensures forall t :: t in u ==> FirstIndex(ts, t) == FirstIndex(ts[..|ts| - 1], t)
  {
    var init := ts[..|ts| - 1];
    forall t | t in u ensures FirstIndex(ts, t) == FirstIndex(init, t) {
      FirstIndexPrefix(ts, |ts| - 1, t);
    }
  }

  /** The distinct targets of a request. */
  function UniqueTargets(path: string): seq<string> {
    Dedup(Targets(path))
  }

  /** The distinct targets are distinct, trimmed, and exactly the non-empty pieces. */
  lemma UniqueTargetsClean(path: string)
    ensures Distinct(UniqueTargets(path))
    ensures forall t :: t in UniqueTargets(path) ==> t != "" && ',' !in t && Trim(t) == t
    ensures forall p :: p in Split(path, ',') && Trim(p) != "" ==> Trim(p) in UniqueTargets(path)
    ensures forall t :: t in UniqueTargets(path) ==> exists p :: p in Split(path, ',') && Trim(p) == t
  {
    TargetsAreClean(path);
  }

  // ---------------------------------------------------------------------------
  // Per-target results
  // ---------------------------------------------------------------------------

  /** Why a target failed; the reported message is `Message(reason, target)`. */
  datatype Reason = NotRegistered | NotValid | NotSupported

  /** One entry of `results`: what a target reports and what is cached for it. A
      failure carries its reason and the target its message names. */
  datatype Entry =
    | Found(kind: Kind, server: string)
    | WithData(data: Data)
    | Failed(reason: Reason, target: string)

  /** The `message` of a failed entry. */
  function Message(reason: Reason, i: string): string {
    i + MessageTail(reason)
  }

  /** The fixed text after the target. */
  function MessageTail(reason: Reason): string {
    match reason
    case NotRegistered => " does not appear to be a registered domain name, IP address or ASN"
    case NotValid => " does not appear to be a valid domain name, IP address or ASN"
    case NotSupported => " is not supported by RDAP. This may be because the domain belongs to a ccTLD, or the gTLD has not deployed RDAP"
  }

  /** Every message starts with the target it is about. */
  lemma MessageNamesTarget(reason: Reason, i: string)
    ensures StartsWith(Message(reason, i), i)
  {
    PrefixOfAppend(i, MessageTail(reason));
  }

  lemma PrefixOfAppend(a: string, b: string)
    ensures StartsWith(a + b, a)
  {
    assert (a + b)[..|a|] == a;
  }

  const TooManyMessage: string := "Too many lookups requested. Max 10 unique targets per request."

  /** Everything a lookup consults besides the store. */
  datatype Env = Env(
    v: Validators,
    services: LookupServices,
    httpAllowlist: set<string>,
    fetch: string -> FetchResponse,
    query: (string, int, string) -> Result<string, string>,
    engine: Parser.Engine,
    ttl: int)

  /** `d === null || d === "" || d.success === false`, as written: reading `success`
      of `undefined` throws. */
  function DataFailedAsWritten(d: Data): (r: Result<bool, string>)
    ensures d.Undefined? <==> r.Failure?
  {
    match d
    case Undefined => Failure("TypeError: Cannot read properties of undefined (reading 'success')")
    case Value(j) => Success(FailedJson(j))
    case Record(_) => Success(false)
  }

  predicate FailedJson(j: Json) {
    j == JNull || j == JString("") || (j.JObject? && Get(j.fields, "success") == Some(JBool(false)))
  }

  /** The check with `undefined` counted as a failed lookup. */
  function DataFailed(d: Data): (failed: bool)
    ensures DataFailedAsWritten(d).Success? ==> failed == DataFailedAsWritten(d).value
    ensures d.Undefined? ==> failed
  {
    match d
    case Undefined => true
    case Value(j) => FailedJson(j)
    case Record(_) => false
  }

  /** An RDAP server's error response reads as `null`, which both checks count as a
      failed lookup; an OK response fails exactly when its body does. */
  lemma FetchFailureIsFailed(resp: FetchResponse)
    ensures DataFailed(Value(FetchResult(resp))) <==> !resp.ok || FailedJson(resp.body)
    ensures DataFailedAsWritten(Value(FetchResult(resp))) == Success(!resp.ok || FailedJson(resp.body))
  {
  }

  /** What one target contributes: its entry and the write it causes. */
  datatype Step = Step(entry: Entry, write: Option<Bootstrap.CacheWrite<Entry>>)

  /** The lookup of a target: `getType` on a fresh lookup of it. */
  function Classify(i: string, env: Env): Lookup {
    GetType(NewLookup(Some(i)), env.v, env.services)
  }

  /** `getData`, which is consulted only when a server was found. */
  function Fetched(l: Lookup, env: Env): Data {
    if l.server != "" then GetData(l, env.httpAllowlist, env.fetch, env.query, env.engine) else Undefined
  }

  /** What a target reports, given its lookup `l` and the data `d` fetched for it. */
  function Report(i: string, l: Lookup, d: Data): Entry {
    if l.server != "" then (if DataFailed(d) then Failed(NotRegistered, i) else WithData(d))
    else if l.kind in {Invalid, InvalidDomain, InvalidIp} then Failed(NotValid, i)
    else if l.kind == UnsupportedDomain then Failed(NotSupported, i)
    else Found(l.kind, l.server)
  }

  /** The step for a target that was looked up: its report, written under the resolved
      key with the configured TTL unless it failed. */
  function StepFor(i: string, l: Lookup, d: Data, ttl: int): (step: Step)
    ensures step.entry == Report(i, l, d)
    ensures step.entry.Failed? ==> step.write.None?
    ensures step.write.Some? <==> l.kind in {Domain, Ip, Asn} && !step.entry.Failed?
    ensures step.write.Some? ==>
              && step.write.value.value == step.entry && step.write.value.ttl == ttl
              && StartsWith(step.write.value.key, "rdap:")
              && Some(step.write.value.key) == CacheKeyForResolved(l.kind, l.target)
  {
    var entry := Report(i, l, d);
    var cacheKey := CacheKeyForResolved(l.kind, l.target);
    Step(entry, if cacheKey.Some? && !entry.Failed? then Some(Bootstrap.CacheWrite(cacheKey.value, entry, ttl)) else None)
  }

  /** The reported outcome follows the classification: invalid input and unsupported
      domains fail with their message; a found server reports its data or, when the data
      is missing or a failure, the "not registered" message; `invalid-asn` is reported as
      a success with an empty server. */
  lemma ReportOutcomes(i: string, l: Lookup, d: Data)
    requires l.kind in {Ip, Asn, Domain} <==> l.server != ""
    ensures l.kind in {Invalid, InvalidDomain, InvalidIp} ==> Report(i, l, d) == Failed(NotValid, i)
    ensures l.kind == UnsupportedDomain ==> Report(i, l, d) == Failed(NotSupported, i)
    ensures l.kind == InvalidAsn ==> Report(i, l, d) == Found(InvalidAsn, "")
    ensures l.kind in {Ip, Asn, Domain} ==>
              Report(i, l, d) == if DataFailed(d) then Failed(NotRegistered, i) else WithData(d)
  {
    if l.kind in {Ip, Asn, Domain} {
      assert l.server != "";
    } else {
      assert l.server == "";
    }
  }

  /** The result for a target whose input key missed the cache. */
  function Resolve(i: string, env: Env): Step {
    var l := Classify(i, env);
    StepFor(i, l, Fetched(l, env), env.ttl)
  }

  /** For a fresh lookup the outcomes above are exactly what the route reports, with the
      data coming from `getData` whenever a server was found. */
  lemma ResolveOutcomes(i: string, env: Env)
    ensures var l := Classify(i, env);
            && (l.kind in {Invalid, InvalidDomain, InvalidIp} ==> Resolve(i, env).entry == Failed(NotValid, i))
            && (l.kind == UnsupportedDomain ==> Resolve(i, env).entry == Failed(NotSupported, i))
            && (l.kind == InvalidAsn ==> Resolve(i, env).entry == Found(InvalidAsn, ""))
            && (l.kind in {Ip, Asn, Domain} ==>
                  var d := GetData(l, env.httpAllowlist, env.fetch, env.query, env.engine);
                  Resolve(i, env).entry == if DataFailed(d) then Failed(NotRegistered, i) else WithData(d))
  {
    var l := Classify(i, env);
    FoundIffServer(Some(i), env.v, env.services);
    ReportOutcomes(i, l, Fetched(l, env));
  }

  /** One target: a cache hit under its input key is reported verbatim; anything else
      is looked up. */
  function TargetStep(i: string, env: Env, store: Dict<Entry>): (step: Step)
    ensures var key := CacheKeyForInput(i, env.v);
            key.Some? && Get(store, key.value).Some? ==> step == Step(Get(store, key.value).value, None)
    ensures var key := CacheKeyForInput(i, env.v);
            !(key.Some? && Get(store, key.value).Some?) ==> step == Resolve(i, env)
  {
    var key := CacheKeyForInput(i, env.v);
    if key.Some? && Get(store, key.value).Some? then Step(Get(store, key.value).value, None)
    else Resolve(i, env)
  }

  /** The step each target takes against the store as it stands. */
  type Stepper = (string, Dict<Entry>) -> Step

  function RouteStepper(env: Env): Stepper {
    (i, store) => TargetStep(i, env, store)
  }

  /** The state after some targets: results so far, the store, and the writes made. */
  datatype Run = Run(results: Dict<Entry>, store: Dict<Entry>, writes: seq<Bootstrap.CacheWrite<Entry>>)

  function Apply(store: Dict<Entry>, write: Option<Bootstrap.CacheWrite<Entry>>): Dict<Entry> {
    if write.Some? then Set(store, write.value.key, write.value.value) else store
  }

  /** The per-target loop over `ts`: each trimmed target's entry goes into `results`
      and its write, if any, into the store. */
  function Process(ts: seq<string>, step: Stepper, store0: Dict<Entry>): Run {
    if |ts| == 0 then Run([], store0, [])
    else
      var r := Process(ts[..|ts| - 1], step, store0);
      var i := Trim(ts[|ts| - 1]);
      var s := step(i, r.store);
      Run(Set(r.results, i, s.entry), Apply(r.store, s.write),
          r.writes + (if s.write.Some? then [s.write.value] else []))
  }

  /** `Process` one target further. */
  lemma ProcessStep(ts: seq<string>, step: Stepper, store0: Dict<Entry>, k: nat)
    requires k < |ts|
    ensures var r := Process(ts[..k], step, store0);
            var s := step(Trim(ts[k]), r.store);
            Process(ts[..k + 1], step, store0)
            == Run(Set(r.results, Trim(ts[k]), s.entry), Apply(r.store, s.write),
                   r.writes + (if s.write.Some? then [s.write.value] else []))
  {
    assert ts[..k + 1][..k] == ts[..k];
  }

  /** A write that caches a success under an `rdap:` key with the TTL. */
  predicate GoodWrite(w: Bootstrap.CacheWrite<Entry>, ttl: int) {
    !w.value.Failed? && w.ttl == ttl && StartsWith(w.key, "rdap:")
  }

  predicate GoodStep(s: Step, ttl: int) {
    s.write.Some? ==> GoodWrite(s.write.value, ttl)
  }

  ghost predicate GoodStepper(step: Stepper, ttl: int) {
    forall i, store :: GoodStep(step(i, store), ttl)
  }

  /** The route's steps only ever write successes under resolved keys. */
  lemma RouteStepperGood(env: Env)
    ensures GoodStepper(RouteStepper(env), env.ttl)
  {
    forall i, store ensures GoodStep(RouteStepper(env)(i, store), env.ttl) {
      var l := Classify(i, env);
      var s := StepFor(i, l, Fetched(l, env), env.ttl);
      assert TargetStep(i, env, store).write.Some? ==> TargetStep(i, env, store) == s;
    }
  }

  /** Writes made by good steps are good, however many targets there are. */
  lemma {:induction false} ProcessWritesGood(ts: seq<string>, step: Stepper, ttl: int, store0: Dict<Entry>)
    requires GoodStepper(step, ttl)
    ensures forall w :: w in Process(ts, step, store0).writes ==> GoodWrite(w, ttl)
  {
    if |ts| > 0 {
      ProcessWritesGood(ts[..|ts| - 1], step, ttl, store0);
      var r := Process(ts[..|ts| - 1], step, store0);
      assert GoodStep(step(Trim(ts[|ts| - 1]), r.store), ttl);
    }
  }

  /** No failure is ever cached, every write uses the configured TTL, and every key
      written is a resolved `rdap:` key. */
  lemma WritesAreResolvedSuccesses(ts: seq<string>, env: Env, store0: Dict<Entry>)
    ensures forall w :: w in Process(ts, RouteStepper(env), store0).writes ==>
              !w.value.Failed? && w.ttl == env.ttl && StartsWith(w.key, "rdap:")
  {
    RouteStepperGood(env);
    ProcessWritesGood(ts, RouteStepper(env), env.ttl, store0);
  }

  /** With distinct trimmed targets, `results` is created with exactly the targets as
      keys, in order, each once. */
  lemma {:induction false} ResultsCreatedInOrder(ts: seq<string>, step: Stepper, store0: Dict<Entry>)
    requires Distinct(ts) && forall t :: t in ts ==> Trim(t) == t
    ensures Keys(Process(ts, step, store0).results) == ts
  {
    if |ts| > 0 {
      var init := ts[..|ts| - 1];
      ResultsCreatedInOrder(init, step, store0);
      var r := Process(init, step, store0);
      assert ts[|ts| - 1] !in init;
      assert !HasKey(r.results, ts[|ts| - 1]);
      assert ts == init + [ts[|ts| - 1]];
    }
  }

  /** The JSON body lists the targets in the own-key order: a purely numeric ASN
      target before every name, names in request order. */
  lemma ResultsFollowTargets(ts: seq<string>, step: Stepper, store0: Dict<Entry>)
    requires Distinct(ts) && forall t :: t in ts ==> Trim(t) == t
    ensures Keys(Process(ts, step, store0).results) == ts
    ensures OwnKeys(Process(ts, step, store0).results) == JsKeyOrder(ts)
  {
    ResultsCreatedInOrder(ts, step, store0);
  }

  /** When no target is a bare number (names, addresses, `AS`-prefixed numbers), the
      body lists the targets in request order. */
  lemma NamedTargetsKeepOrder(ts: seq<string>, step: Stepper, store0: Dict<Entry>)
    requires Distinct(ts) && forall t :: t in ts ==> Trim(t) == t
    requires forall i :: 0 <= i < |ts| ==> !IsArrayIndex(ts[i])
    ensures OwnKeys(Process(ts, step, store0).results) == ts
  {
    ResultsFollowTargets(ts, step, store0);
    JsKeyOrderNoIndex(ts);
  }

  /** The response: status, body and headers. */
  datatype Body = TooMany(message: string) | Results(results: Dict<Entry>)
  datatype ApiResponse = ApiResponse(status: int, body: Body, headers: Dict<string>)

  /** The lookup route handler over the decoded path. */
  method HandleLookups(path: string, env: Env, rateLimit: Option<RateLimiter.LimitResponse>, store0: Dict<Entry>)
    returns (resp: ApiResponse, store: Dict<Entry>, writes: seq<Bootstrap.CacheWrite<Entry>>)
    ensures resp.headers == Cors.MergeCorsHeaders(RateLimit.BuildRateLimitHeaders(rateLimit))
    ensures |UniqueTargets(path)| > MaxUniqueLookups ==>
              resp.status == 400 && resp.body == TooMany(TooManyMessage) && store == store0 && writes == []
    ensures |UniqueTargets(path)| <= MaxUniqueLookups ==>
              resp.status == 200 && resp.body.Results? && Keys(resp.body.results) == UniqueTargets(path)
              && OwnKeys(resp.body.results) == JsKeyOrder(UniqueTargets(path))
              && Run(resp.body.results, store, writes) == Process(UniqueTargets(path), RouteStepper(env), store0)
  {
    var headers := Cors.MergeCorsHeaders(RateLimit.BuildRateLimitHeaders(rateLimit));
    var targets := UniqueTargets(path);
    if |targets| > MaxUniqueLookups {
      return ApiResponse(400, TooMany(TooManyMessage), headers), store0, [];
    }
    var results;
    results, store, writes := RunTargets(targets, RouteStepper(env), store0);
    UniqueTargetsClean(path);
    ResultsFollowTargets(targets, RouteStepper(env), store0);
    resp := ApiResponse(200, Results(results), headers);
  }

  /** The `for` loop over the targets, threading the store. */
  method RunTargets(targets: seq<string>, step: Stepper, store0: Dict<Entry>)
    returns (results: Dict<Entry>, store: Dict<Entry>, writes: seq<Bootstrap.CacheWrite<Entry>>)
    ensures Run(results, store, writes) == Process(targets, step, store0)
  {
    results, store, writes := [], store0, [];
    var k := 0;
    while k < |targets|
      invariant 0 <= k <= |targets|
      invariant Run(results, store, writes) == Process(targets[..k], step, store0)
    {
      ProcessStep(targets, step, store0, k);
      var i := Trim(targets[k]);
      var s := step(i, store);
      results := Set(results, i, s.entry);
      if s.write.Some? {
        store := Set(store, s.write.value.key, s.write.value.value);
        writes := writes + [s.write.value];
      }
      k := k + 1;
    }
    assert targets[..k] == targets;
  }

  // ---------------------------------------------------------------------------
  // The unhandled-scheme crash
  // ---------------------------------------------------------------------------

  /** The per-target step as written: a lookup whose data is `undefined` throws, which
      fails the whole request. */
  function ResolveAsWritten(i: string, env: Env): (r: Result<Step, string>)
    ensures r.Failure? <==> Classify(i, env).server != "" && Fetched(Classify(i, env), env).Undefined?
    ensures r.Success? ==> r.value == Resolve(i, env)
  {
    var l := Classify(i, env);
    if l.server != "" then
      var d := GetData(l, env.httpAllowlist, env.fetch, env.query, env.engine);
      match DataFailedAsWritten(d)
      case Failure(e) => Failure(e)
      case Success(_) => Success(Resolve(i, env))
    else Success(Resolve(i, env))
  }

  /** A domain whose RDAP server is plain `http://` and whose TLD is not allow-listed
      gets no request at all: `getData` falls through to `undefined`, and the route as
      written throws on it. The corrected check reports the target as not registered. */
  lemma HttpServerCrashes(i: string, env: Env)
    requires var l := Classify(i, env);
             l.kind == Domain && StartsWith(l.server, "http://")
             && l.metadata.Some? && l.metadata.value.tld !in env.httpAllowlist
    ensures ResolveAsWritten(i, env).Failure?
    ensures Resolve(i, env).entry == Failed(NotRegistered, i)
  {
    var l := Classify(i, env);
    HttpUnhandled(l, env.httpAllowlist);
    assert Fetched(l, env) == Undefined;
  }

  /** A plain `http://` server for a TLD off the allow-list matches no dispatch rule. */
  lemma HttpUnhandled(l: Lookup, httpAllowlist: set<string>)
    requires l.kind == Domain && StartsWith(l.server, "http://")
    requires l.metadata.Some? && l.metadata.value.tld !in httpAllowlist
    ensures DispatchFor(l, httpAllowlist) == Unhandled
  {
    assert !StartsWith(l.server, "https://") by { assert l.server[4] == ':' && "https://"[4] == 's'; }
    assert !StartsWith(l.server, "whois://") by { assert l.server[0] == 'h'; }
  }
}
