/** Classification, server resolution and data retrieval for one lookup target
    (modules/lookup.ts).

    The validator, CIDR and public-suffix libraries are the fields of a `Validators`
    value; the HTTP fetch and the WHOIS socket are function parameters; the bootstrap
    maps come in as a `LookupServices` value. */
module Lookup {
  import opened Wrappers
  import opened Text
  import opened Dicts
  import Bootstrap
  import Parser

  /** The values of `Lookup.type`. */
  datatype Kind = Invalid | Ip | InvalidIp | Asn | InvalidAsn | Domain | UnsupportedDomain | InvalidDomain | Autnum

  function KindName(k: Kind): string {
    match k
    case Invalid => "invalid"
    case Ip => "ip"
    case InvalidIp => "invalid-ip"
    case Asn => "asn"
    case InvalidAsn => "invalid-asn"
    case Domain => "domain"
    case UnsupportedDomain => "unsupported-domain"
    case InvalidDomain => "invalid-domain"
    case Autnum => "autnum"
  }

  lemma KindNamesDistinct(a: Kind, b: Kind)
    ensures KindName(a) == KindName(b) <==> a == b
  {
  }

  /** What `tldextract` reports: the subdomain part, the registrable domain and the public suffix. */
  datatype Metadata = Metadata(subdomains: string, domain: string, tld: string)

  /** The libraries classification consults. `tldextract` answers `None` where the
      library throws. */
  datatype Validators = Validators(
    isIP: string -> bool,
    isFQDN: string -> bool,
    containsCidr: (string, string) -> bool,
    tldextract: string -> Option<Metadata>)

  /** The maps `getServices` gathers: the RDAP tables, the WHOIS tables and the RDAP fallback table. */
  datatype LookupServices = LookupServices(rdap: Bootstrap.Services, whois: Bootstrap.Services,
                                           rdapFallback: Bootstrap.Table)

  /** A `Lookup` instance's state. */
  datatype Lookup = Lookup(target: string, kind: Kind, server: string, metadata: Option<Metadata>)

  /** `new Lookup(target)`. */
  function NewLookup(target: Option<string>): (l: Lookup)
    ensures l.kind == Invalid && l.server == "" && l.metadata.None?
    ensures l.target == if target.Some? then target.value else ""
  {
    Lookup(target.GetOr(""), Invalid, "", None)
  }

  /** `Lookup.getServices`: both bootstrap maps, each from its own cache or feed. */
  function GetServices(rdap: Bootstrap.RdapOutcome, whois: Bootstrap.WhoisOutcome): (s: LookupServices)
    ensures s.rdap == rdap.services && s.whois == whois.maps.services && s.rdapFallback == whois.maps.rdapFallback
  {
    LookupServices(rdap.services, whois.maps.services, whois.maps.rdapFallback)
  }

  /** A lookup made with both caches empty sees exactly the maps built from the feeds. */
  lemma GetServicesFresh(store: bool, feeds: Bootstrap.RdapFeeds, directory: Bootstrap.Directory, ttl: Option<int>)
    ensures var s := GetServices(Bootstrap.RdapGetServices(store, None, feeds, ttl),
                                 Bootstrap.WhoisGetServices(Bootstrap.DefaultWhoisOptions, store, None, directory, ttl));
            s.rdap == Bootstrap.BuildRdapServices(feeds)
            && s.whois == Bootstrap.BuildWhois(directory).services
            && s.rdapFallback == Bootstrap.BuildWhois(directory).rdapFallback
  {
  }

  // ---------------------------------------------------------------------------
  // Range scans
  // ---------------------------------------------------------------------------

  /** `for (r in ranges) if (matches(r)) server = ranges[r]`. */
  function Scan(ranges: Bootstrap.Table, matches: string -> bool, server: string): string
    decreases |ranges|
  {
    if |ranges| == 0 then server
    else Scan(ranges[1..], matches, if matches(ranges[0].0) then ranges[0].1 else server)
  }

  predicate MatchesAt(ranges: Bootstrap.Table, matches: string -> bool, i: int) {
    0 <= i < |ranges| && matches(ranges[i].0)
  }

  /** The scan ends on the value of the last matching key, or on the starting value when no key matches. */
  lemma ScanLastMatch(ranges: Bootstrap.Table, matches: string -> bool, server: string)
    ensures (forall i :: !MatchesAt(ranges, matches, i)) ==> Scan(ranges, matches, server) == server
    ensures forall i :: MatchesAt(ranges, matches, i) && (forall j :: i < j ==> !MatchesAt(ranges, matches, j)) ==>
              Scan(ranges, matches, server) == ranges[i].1
  {
    if forall i :: !MatchesAt(ranges, matches, i) {
      ScanNoMatch(ranges, matches, server);
    }
    forall i | MatchesAt(ranges, matches, i) && (forall j :: i < j ==> !MatchesAt(ranges, matches, j))
      ensures Scan(ranges, matches, server) == ranges[i].1
    {
      ScanMatchAt(ranges, matches, server, i);
    }
  }

  lemma {:induction false} ScanNoMatch(ranges: Bootstrap.Table, matches: string -> bool, server: string)
    requires forall i :: !MatchesAt(ranges, matches, i)
    ensures Scan(ranges, matches, server) == server
    decreases |ranges|
  {
    if |ranges| > 0 {
      var rest := ranges[1..];
      assert !MatchesAt(ranges, matches, 0);
      forall j
        ensures !MatchesAt(rest, matches, j)
      {
        assert !MatchesAt(ranges, matches, j + 1);
      }
      ScanNoMatch(rest, matches, server);
    }
  }

  lemma {:induction false} ScanMatchAt(ranges: Bootstrap.Table, matches: string -> bool, server: string, i: int)
    requires MatchesAt(ranges, matches, i) && forall j :: i < j ==> !MatchesAt(ranges, matches, j)
    ensures Scan(ranges, matches, server) == ranges[i].1
    decreases |ranges|
  {
    var rest := ranges[1..];
    var next := if matches(ranges[0].0) then ranges[0].1 else server;
    if i > 0 {
      assert MatchesAt(rest, matches, i - 1);
      forall j | i - 1 < j
        ensures !MatchesAt(rest, matches, j)
      {
        assert !MatchesAt(ranges, matches, j + 1);
      }
      ScanMatchAt(rest, matches, next, i - 1);
    } else {
      forall j
        ensures !MatchesAt(rest, matches, j)
      {
        if 0 <= j {
          assert !MatchesAt(ranges, matches, j + 1);
        }
      }
      ScanNoMatch(rest, matches, next);
    }
  }

  /** Scanning one table after another is scanning their concatenation. */
  lemma {:induction false} ScanAppend(a: Bootstrap.Table, b: Bootstrap.Table, matches: string -> bool, server: string)
    ensures Scan(b, matches, Scan(a, matches, server)) == Scan(a + b, matches, server)
    decreases |a|
  {
    if |a| > 0 {
      var next := if matches(a[0].0) then a[0].1 else server;
      ScanAppend(a[1..], b, matches, next);
      assert (a + b)[0] == a[0];
      assert (a + b)[1..] == a[1..] + b;
      assert Scan(a, matches, server) == Scan(a[1..], matches, next);
      assert Scan(a + b, matches, server) == Scan(a[1..] + b, matches, next);
    } else {
      assert a + b == b;
    }
  }

  // ---------------------------------------------------------------------------
  // getType
  // ---------------------------------------------------------------------------

  /** The ASN candidate: the target without a case-insensitive `asn`, else `as`, prefix. */
  function AsnDigits(target: string): (n: string)
    ensures StartsWithIgnoringCase(target, "asn") ==> target == target[..3] + n
    ensures !StartsWithIgnoringCase(target, "asn") && StartsWithIgnoringCase(target, "as") ==> target == target[..2] + n
    ensures !StartsWithIgnoringCase(target, "as") ==> n == target
  {
    if StartsWithIgnoringCase(target, "asn") then target[3..]
    else if StartsWithIgnoringCase(target, "as") then target[2..]
    else target
  }

  /** An `asn` range key `start-end` contains `asn`: both ends parse and bound it inclusively. */
  predicate AsnRangeContains(range: string, asn: int) {
    var parts := Split(range, '-');
    var start := JsParseInt(parts[0]);
    var end := if |parts| > 1 then JsParseInt(parts[1]) else None;
    start.Some? && end.Some? && start.value <= asn <= end.value
  }

  /** A key written `a-b` covers exactly the numbers from a to b. */
  lemma AsnRangeRoundTrip(a: nat, b: nat, asn: int)
    ensures AsnRangeContains(ShowNat(a) + "-" + ShowNat(b), asn) <==> a <= asn <= b
  {
    var x, y := ShowNat(a), ShowNat(b);
    assert '-' !in x by { assert AllDigits(x); }
    assert '-' !in y by { assert AllDigits(y); }
    SplitFirstPiece(x, y, '-');
    SplitNoSeparator(y, '-');
    assert x + "-" + y == x + ['-'] + y;
    JsParseIntShowInt(a);
    JsParseIntShowInt(b);
  }

  /** The truthiness of a looked-up string. */
  predicate Truthy(v: Option<string>) {
    v.Some? && v.value != ""
  }

  /** The domain server: `rdap.domains[tld]`, else `whois.domains[tld]`, else
      `rdapFallback[tld]`, each taken only when non-empty. */
  function DomainServer(s: LookupServices, tld: string): (r: Option<string>)
    ensures r.Some? ==> r.value != ""
    ensures r.Some? <==> Truthy(Get(Get(s.rdap, "domains").GetOr([]), tld))
                         || Truthy(Get(Get(s.whois, "domains").GetOr([]), tld)) || Truthy(Get(s.rdapFallback, tld))
  {
    var rdapDomains := Get(s.rdap, "domains").GetOr([]);
    var whoisDomains := Get(s.whois, "domains").GetOr([]);
    if Truthy(Get(rdapDomains, tld)) then Get(rdapDomains, tld)
    else if Truthy(Get(whoisDomains, tld)) then Get(whoisDomains, tld)
    else if Truthy(Get(s.rdapFallback, tld)) then Get(s.rdapFallback, tld)
    else None
  }

  /** The RDAP table outranks the WHOIS table, which outranks the fallback: changing a
      lower table never changes a server a higher one provides. */
  lemma DomainServerPrecedence(s: LookupServices, tld: string, whois': Bootstrap.Services, fallback': Bootstrap.Table)
    ensures Truthy(Get(Get(s.rdap, "domains").GetOr([]), tld)) ==>
              DomainServer(s, tld) == DomainServer(s.(whois := whois', rdapFallback := fallback'), tld)
    ensures Truthy(Get(Get(s.whois, "domains").GetOr([]), tld)) ==>
              DomainServer(s, tld) == DomainServer(s.(rdapFallback := fallback'), tld)
  {
  }

  /** `containsCidr(r, target)` as a test on range keys. */
  function CidrMatcher(v: Validators, target: string): string -> bool {
    r => v.containsCidr(r, target)
  }

  /** `AsnRangeContains(r, asn)` as a test on range keys. */
  function AsnMatcher(asn: int): string -> bool {
    r => AsnRangeContains(r, asn)
  }

  function IpTable(s: LookupServices, kind: string): Bootstrap.Table {
    Get(s.rdap, kind).GetOr([])
  }

  /** `getType`: IP first, then ASN, then domain name; anything else keeps its type. */
  function GetType(l: Lookup, v: Validators, s: LookupServices): (r: Lookup)
    ensures v.isIP(l.target) ==>
              r.target == l.target && r.kind in {Ip, InvalidIp} && (r.kind == Ip <==> r.server != "")
    ensures !v.isIP(l.target) && IsDigits(AsnDigits(l.target)) ==>
              r.target == ShowNat(DigitsValue(AsnDigits(l.target))) && r.kind in {Asn, InvalidAsn}
              && (r.kind == Asn <==> r.server != "")
  {
    if v.isIP(l.target) then
      var matches := CidrMatcher(v, l.target);
      var server := Scan(IpTable(s, "ipv6"), matches, Scan(IpTable(s, "ipv4"), matches, l.server));
      l.(kind := if server != "" then Ip else InvalidIp, server := server)
    else
      var normalized := AsnDigits(l.target);
      if IsDigits(normalized) then
        DigitsParseInt(normalized);
        match JsParseInt(normalized)
        // `parseInt` of a digit string is never NaN, so the `invalid-asn` return is dead.
        case None => assert false; l.(kind := InvalidAsn)
        case Some(asn) =>
          var server := Scan(Get(s.rdap, "asn").GetOr([]), AsnMatcher(asn), l.server);
          l.(target := ShowInt(asn), kind := if server != "" then Asn else InvalidAsn, server := server)
      else if v.isFQDN(l.target) then
        match v.tldextract("http://" + l.target)
        case None => l.(kind := InvalidDomain)
        case Some(m) =>
          match DomainServer(s, m.tld)
          case Some(server) => Lookup(m.domain, Domain, server, Some(m))
          case None => l.(kind := UnsupportedDomain, metadata := Some(m))
      else l
  }

  /** A domain name is looked up in the three tables in turn; without a server it is
      `unsupported-domain`, and a failing `tldextract` makes it `invalid-domain`. */
  lemma DomainClassification(l: Lookup, v: Validators, s: LookupServices)
    requires !v.isIP(l.target) && !IsDigits(AsnDigits(l.target)) && v.isFQDN(l.target)
    ensures var r := GetType(l, v, s);
            match v.tldextract("http://" + l.target)
            case None => r == l.(kind := InvalidDomain)
            case Some(m) =>
              && (DomainServer(s, m.tld).Some? ==> r == Lookup(m.domain, Domain, DomainServer(s, m.tld).value, Some(m)))
              && (DomainServer(s, m.tld).None? ==> r == l.(kind := UnsupportedDomain, metadata := Some(m)))
  {
  }

  /** `parseInt` on a digit string reads its decimal value. */
  lemma DigitsParseInt(s: string)
    requires IsDigits(s)
    ensures JsParseInt(s) == Some(DigitsValue(s) as int)
  {
    assert TrimStart(s) == s by { assert !IsJsWhite(s[0]); }
    assert StripSign(s) == s;
    DigitPrefixOfDigits(s);
  }

  /** The IP server is the value of the last range, over the ipv4 table followed by the
      ipv6 table, that contains the address. */
  lemma IpServerLastMatch(l: Lookup, v: Validators, s: LookupServices, i: int)
    requires v.isIP(l.target)
    requires var all := IpTable(s, "ipv4") + IpTable(s, "ipv6");
             MatchesAt(all, CidrMatcher(v, l.target), i)
             && forall j :: i < j ==> !MatchesAt(all, CidrMatcher(v, l.target), j)
    ensures GetType(l, v, s).server == (IpTable(s, "ipv4") + IpTable(s, "ipv6"))[i].1
  {
    var matches := CidrMatcher(v, l.target);
    ScanAppend(IpTable(s, "ipv4"), IpTable(s, "ipv6"), matches, l.server);
    ScanLastMatch(IpTable(s, "ipv4") + IpTable(s, "ipv6"), matches, l.server);
  }

  /** An address no range contains is `invalid-ip` for a fresh lookup. */
  lemma IpWithoutRange(target: string, v: Validators, s: LookupServices)
    requires v.isIP(target)
    requires forall j :: !MatchesAt(IpTable(s, "ipv4") + IpTable(s, "ipv6"), CidrMatcher(v, target), j)
    ensures GetType(NewLookup(Some(target)), v, s).kind == InvalidIp
  {
    var matches := CidrMatcher(v, target);
    ScanAppend(IpTable(s, "ipv4"), IpTable(s, "ipv6"), matches, "");
    ScanLastMatch(IpTable(s, "ipv4") + IpTable(s, "ipv6"), matches, "");
  }

  /** The ASN server is the value of the last `asn` key whose range contains the number. */
  lemma AsnServerLastMatch(l: Lookup, v: Validators, s: LookupServices, i: int)
    requires !v.isIP(l.target) && IsDigits(AsnDigits(l.target))
    requires var asn := DigitsValue(AsnDigits(l.target));
             var ranges := Get(s.rdap, "asn").GetOr([]);
             MatchesAt(ranges, AsnMatcher(asn), i)
             && forall j :: i < j ==> !MatchesAt(ranges, AsnMatcher(asn), j)
    ensures GetType(l, v, s).server == Get(s.rdap, "asn").GetOr([])[i].1
  {
    var asn := DigitsValue(AsnDigits(l.target));
    DigitsParseInt(AsnDigits(l.target));
    ScanLastMatch(Get(s.rdap, "asn").GetOr([]), AsnMatcher(asn), l.server);
  }

  /** A prefix `getType` strips before reading an ASN: none, `as` or `asn` in any case. */
  predicate AsnPrefix(p: string) {
    p == "" || (|p| == 2 && StartsWithIgnoringCase(p, "as")) || (|p| == 3 && StartsWithIgnoringCase(p, "asn"))
  }

  /** 13335, AS13335, ASN13335, as13335 and asn13335 all become the number `13335`:
      an ASN in the form `String` writes it, behind any accepted prefix, is the lookup's
      target afterwards. */
  lemma AsnPrefixNormalised(p: string, digits: string, v: Validators, s: LookupServices)
    requires AsnPrefix(p) && Canonical(digits) && !v.isIP(p + digits)
    ensures GetType(NewLookup(Some(p + digits)), v, s).target == digits
    ensures GetType(NewLookup(Some(p + digits)), v, s).kind in {Asn, InvalidAsn}
  {
    var t := p + digits;
    assert t[|p|..] == digits;
    assert !StartsWithIgnoringCase(digits, "as") by { assert IsDigit(digits[0]); }
    if |p| == 2 {
      assert !StartsWithIgnoringCase(t, "asn") by { assert t[2] == digits[0]; }
    } else if |p| == 0 {
      assert t == digits;
    }
    assert AsnDigits(t) == digits;
    ParseShows(digits);
  }

  /** Leading zeros do not survive: `AS013335` becomes `13335`, and in general any
      run of zeros before a canonical number, behind any accepted prefix, is dropped. */
  lemma AsnLeadingZeroDropped(p: string, zeros: string, digits: string, v: Validators, s: LookupServices)
    requires AsnPrefix(p) && Canonical(digits) && !v.isIP(p + zeros + digits)
    requires forall i :: 0 <= i < |zeros| ==> zeros[i] == '0'
    ensures GetType(NewLookup(Some(p + zeros + digits)), v, s).target == digits
    ensures GetType(NewLookup(Some(p + zeros + digits)), v, s).kind in {Asn, InvalidAsn}
  {
    var n := zeros + digits;
    assert p + zeros + digits == p + n;
    LeadingZerosValue(zeros, digits);
    assert IsDigit(n[0]);
    AsnDigitsAfterPrefix(p, n);
    ParseShows(digits);
  }

  /** Behind an accepted prefix, a number's digits are what `getType` reads. */
  lemma AsnDigitsAfterPrefix(p: string, n: string)
    requires AsnPrefix(p) && |n| > 0 && IsDigit(n[0])
    ensures AsnDigits(p + n) == n
  {
    var t := p + n;
    assert t[|p|..] == n;
    assert !StartsWithIgnoringCase(n, "as");
    if |p| == 2 {
      assert !StartsWithIgnoringCase(t, "asn") by { assert t[2] == n[0]; }
    } else if |p| == 0 {
      assert t == n;
    }
  }

  /** For a fresh lookup, the type is `ip`, `asn` or `domain` exactly when a server was found. */
  lemma FoundIffServer(target: Option<string>, v: Validators, s: LookupServices)
    ensures var r := GetType(NewLookup(target), v, s);
            r.kind in {Ip, Asn, Domain} <==> r.server != ""
  {
  }

  /** Input no validator accepts keeps the type `invalid` (as `lololololol` and `notadomain` do). */
  lemma UnrecognisedStaysInvalid(target: string, v: Validators, s: LookupServices)
    requires !v.isIP(target) && !IsDigits(AsnDigits(target)) && !v.isFQDN(target)
    ensures GetType(NewLookup(Some(target)), v, s).kind == Invalid
    ensures GetType(NewLookup(Some(target)), v, s).server == ""
  {
  }

  /** An address is always classified as an address, whatever the other validators say. */
  lemma IpComesFirst(target: string, v: Validators, s: LookupServices)
    requires v.isIP(target)
    ensures GetType(NewLookup(Some(target)), v, s).kind in {Ip, InvalidIp}
    ensures GetType(NewLookup(Some(target)), v, s).target == target
  {
  }

  // ---------------------------------------------------------------------------
  // getData
  // ---------------------------------------------------------------------------

  /** The parts of a JSON value the route looks at. */
  datatype Json =
    | JNull
    | JBool(b: bool)
    | JNumber(n: int)
    | JString(s: string)
    | JArray(items: seq<Json>)
    | JObject(fields: Dict<Json>)

  /** A `fetch` response: its status and its body parsed as JSON. */
  datatype FetchResponse = FetchResponse(ok: bool, body: Json)

  /** `Lookup.fetch`: the parsed body of an OK response, `null` otherwise. */
  function FetchResult(resp: FetchResponse): (j: Json)
    ensures resp.ok ==> j == resp.body
    ensures !resp.ok ==> j == JNull
  {
    if resp.ok then resp.body else JNull
  }

  /** What `getData` resolves to. */
  datatype Data =
    | Undefined
    | Value(json: Json)
    | Record(record: Parser.WhoisRecord)

  /** `{ success: false, message }`. */
  function FailureObject(message: string): Json {
    JObject([("success", JBool(false)), ("message", JString(message))])
  }

  /** How `getData` answers a lookup. */
  datatype Dispatch =
    | NoServer
    | HttpGet(url: string)
    | WhoisQuery(host: string, port: int, payload: string)
    | Unhandled

  /** The type as it appears in an RDAP path: `asn` becomes `autnum`. */
  function PathKind(k: Kind): Kind {
    if k == Asn then Autnum else k
  }

  /** The WHOIS query text for a target: `/e` for `jp`, ` -T dn` for `de`, CRLF after. */
  function WhoisPayload(target: string, metadata: Option<Metadata>): (p: string)
    ensures |p| >= |target| + 2 && StartsWith(p, target) && p[|p| - 2..] == "\r\n"
    ensures p[|target|..|p| - 2] == if metadata.Some? && metadata.value.tld == "jp" then "/e"
                                    else if metadata.Some? && metadata.value.tld == "de" then " -T dn" else ""
  {
    var query := if metadata.Some? && metadata.value.tld == "jp" then target + "/e"
                 else if metadata.Some? && metadata.value.tld == "de" then target + " -T dn"
                 else target;
    assert query[..|target|] == target;
    query + "\r\n"
  }

  /** URL and query construction. `httpAllowlist` is the set of TLDs whose RDAP servers
      may be reached over plain HTTP. */
  function DispatchFor(l: Lookup, httpAllowlist: set<string>): (d: Dispatch)
    ensures l.server == "" <==> d == NoServer
    ensures d.HttpGet? <==> (l.server != "" && (StartsWith(l.server, "https://")
              || (l.kind == Domain && l.metadata.Some? && l.metadata.value.tld != ""
                  && l.metadata.value.tld in httpAllowlist && StartsWith(l.server, "http://"))))
    ensures d.HttpGet? ==> d.url == l.server + KindName(PathKind(l.kind)) + "/" + l.target
    ensures d.WhoisQuery? <==> l.server != "" && !d.HttpGet? && StartsWith(l.server, "whois://")
    ensures d.WhoisQuery? ==> d.host == RemoveAll(l.server, "whois://") && d.port == 43
                              && d.payload == WhoisPayload(l.target, l.metadata)
  {
    if l.server == "" then NoServer
    else
      var kind := PathKind(l.kind);
      var allowHttp := kind == Domain && l.metadata.Some? && l.metadata.value.tld != ""
                       && l.metadata.value.tld in httpAllowlist;
      if StartsWith(l.server, "https://") || (allowHttp && StartsWith(l.server, "http://")) then
        HttpGet(l.server + KindName(kind) + "/" + l.target)
      else if StartsWith(l.server, "whois://") then
        WhoisQuery(RemoveAll(l.server, "whois://"), 43, WhoisPayload(l.target, l.metadata))
      else Unhandled
  }

  /** A `whois://` server names its host: stripping the scheme gives the host back,
      when the host does not itself contain the scheme text. */
  lemma WhoisHostRecovered(l: Lookup, httpAllowlist: set<string>, host: string)
    requires l.server == "whois://" + host
    requires forall i: nat :: !OccursAt(host, "whois://", i)
    ensures DispatchFor(l, httpAllowlist) == WhoisQuery(host, 43, WhoisPayload(l.target, l.metadata))
  {
    RemoveAllPrefix("whois://", host);
    assert StartsWith(l.server, "whois://");
    assert !StartsWith(l.server, "https://") by { assert l.server[5] == ':' && "https://"[5] == ':'; assert l.server[0] == 'w'; }
    assert !StartsWith(l.server, "http://") by { assert l.server[0] == 'w'; }
  }

  /** `getData`. `fetch` stands for the HTTP client, `query` for a WHOIS exchange over a
      socket (`Failure` carrying the message of whatever it threw), `e` for the regex and
      date libraries the parser uses. */
  function GetData(l: Lookup, httpAllowlist: set<string>, fetch: string -> FetchResponse,
                   query: (string, int, string) -> Result<string, string>, e: Parser.Engine): (d: Data)
    ensures l.server == "" ==> d == Value(JObject([]))
    ensures DispatchFor(l, httpAllowlist).HttpGet? ==>
              d == Value(FetchResult(fetch(DispatchFor(l, httpAllowlist).url)))
    ensures DispatchFor(l, httpAllowlist).Unhandled? ==> d == Undefined
    ensures DispatchFor(l, httpAllowlist).WhoisQuery? ==>
              var w := DispatchFor(l, httpAllowlist);
              match query(w.host, w.port, w.payload)
              case Failure(message) => d == Value(FailureObject(message))
              case Success(raw) =>
                match Parser.ParseRawData(e, Some(raw), l.target)
                case Success(record) => d == Record(record)
                case Failure(err) => d == Value(FailureObject(Parser.ErrorMessage(err)))
  {
    match DispatchFor(l, httpAllowlist)
    case NoServer => Value(JObject([]))
    case HttpGet(url) => Value(FetchResult(fetch(url)))
    case Unhandled => Undefined
    case WhoisQuery(host, port, payload) =>
      match query(host, port, payload)
      case Failure(message) => Value(FailureObject(message))
      case Success(raw) =>
        match Parser.ParseRawData(e, Some(raw), l.target)
        case Success(record) => Record(record)
        case Failure(err) => Value(FailureObject(Parser.ErrorMessage(err)))
  }

  /** A successful WHOIS parse describes the lookup's own target, not the query text
      sent to the server. */
  lemma WhoisParsesTarget(l: Lookup, httpAllowlist: set<string>, fetch: string -> FetchResponse,
                          query: (string, int, string) -> Result<string, string>, e: Parser.Engine)
    requires GetData(l, httpAllowlist, fetch, query, e).Record?
    ensures GetData(l, httpAllowlist, fetch, query, e).record.ldhName == ToUpper(l.target)
  {
  }

  /** An ASN lookup fetches from the `autnum` path. */
  lemma AsnFetchesAutnum(l: Lookup, httpAllowlist: set<string>)
    requires l.kind == Asn && StartsWith(l.server, "https://")
    ensures DispatchFor(l, httpAllowlist) == HttpGet(l.server + "autnum/" + l.target)
  {
  }
}
