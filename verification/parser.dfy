/** The WHOIS text parser (modules/parser.ts): the compiled per-TLD rule table
    `tldRules`, `getTld` and `parseRawData`, which turns the raw text a WHOIS server
    returns into an RDAP-shaped domain record.

    The regular-expression engine and moment.js are not modelled: they enter as the
    functions of an `Engine` value. */
module Parser {
  import opened Wrappers
  import opened Text
  import opened Dicts
  import opened WhoisRules

  // ---------------------------------------------------------------------------
  // Foreign behaviour
  // ---------------------------------------------------------------------------

  /** `new RegExp(source, flags)`: only the `g` flag is ever used. */
  datatype Regex = Regex(source: string, global: bool)

  /** A match array: index 0 is the whole match, then one entry per capture group;
      `None` is a group that did not participate. */
  type Match = seq<Option<string>>

  /** The behaviour the parser borrows from its runtime:
      `exec(r, s)` is `r.exec(s)` (`None` is `null`), `matchAll(r, s)` lists the matches
      of a global regex in text order, and `moment(v, f)` is
      `moment(v, f).toJSON()` (`None` for a missing value or format, and for the `null`
      an invalid date serialises to). */
  datatype Engine = Engine(
    exec: (Regex, string) -> Option<Match>,
    matchAll: (Regex, string) -> seq<Match>,
    moment: (Option<string>, Option<string>) -> Option<string>)

  /** `regex.test(text)` for a regex without the `g` flag. */
  predicate Test(e: Engine, r: Regex, text: string) {
    e.exec(r, text).Some?
  }

  // ---------------------------------------------------------------------------
  // Compiled rules
  // ---------------------------------------------------------------------------

  /** `multiMatchKeys`: fields collected from every match rather than the first. */
  predicate MultiMatch(f: Field) {
    f == Status || f == Nameservers
  }

  predicate NoDateFormat(entries: seq<(Field, Regex)>) {
    forall i :: 0 <= i < |entries| ==> entries[i].0 != DateFormat
  }

  /** `CompiledTldRules`: the date format and, in grammar key order, each pattern
      field with its compiled regex (the source's `keys` and `regexes` together). */
  datatype CompiledRules = CompiledRules(dateFormat: Option<string>, regexes: seq<(Field, Regex)>)

  /** Compiled rules never list `dateFormat` among the pattern fields. */
  type Rules = r: CompiledRules | NoDateFormat(r.regexes) witness CompiledRules(None, [])

  /** The pattern fields of a grammar, in order, each compiled with `g` exactly when it
      is a multi-match field. */
  function CompileEntries(g: Grammar): (rs: seq<(Field, Regex)>)
    ensures NoDateFormat(rs) && |rs| <= |g|
    ensures forall i :: 0 <= i < |rs| ==> (rs[i].0, rs[i].1.source) in g && rs[i].1.global == MultiMatch(rs[i].0)
    ensures forall p :: p in g && p.0 != DateFormat ==> (p.0, Regex(p.1, MultiMatch(p.0))) in rs
  {
    if |g| == 0 then []
    else
      var head := if g[0].0 == DateFormat then [] else [(g[0].0, Regex(g[0].1, MultiMatch(g[0].0)))];
      var rest := CompileEntries(g[1..]);
      assert forall p :: p in g[1..] ==> p in g;
      head + rest
  }

  /** `compileTldPatterns`. */
  function Compile(g: Grammar): (r: Rules)
    ensures r.dateFormat.Some? <==> Declares(g, DateFormat)
    ensures r.dateFormat.Some? ==> r.dateFormat.value == PatternOf(g, DateFormat)
  {
    CompiledRules(if Declares(g, DateFormat) then Some(PatternOf(g, DateFormat)) else None, CompileEntries(g))
  }

  /** The rule table: a TLD bound to compiled rules, or to `undefined`. */
  type RuleTable = Dict<Option<Rules>>

  /** `tldRules[tld]`, treating a bound `undefined` like a missing key. */
  function Lookup(t: RuleTable, tld: string): Option<Rules> {
    var bound := Get(t, tld);
    if bound.Some? then bound.value else None
  }

  /** The first loop of the `tldRules` initialiser: compile every grammar. */
  function CompileAll(d: Dict<Grammar>): RuleTable {
    if |d| == 0 then []
    else Set(CompileAll(d[..|d| - 1]), d[|d| - 1].0, Some(Compile(d[|d| - 1].1)))
  }

  /** The inner alias loop: bind each alias to whatever its source is bound to now. */
  function BindAliases(t: RuleTable, source: string, aliases: seq<string>): RuleTable {
    if |aliases| == 0 then t
    else
      var t' := BindAliases(t, source, aliases[..|aliases| - 1]);
      Set(t', aliases[|aliases| - 1], Lookup(t', source))
  }

  /** The outer alias loop, over `supplementalTlds` in declaration order. */
  function InstallAliases(t: RuleTable, sup: seq<(string, seq<string>)>): RuleTable {
    if |sup| == 0 then t
    else
      var (source, aliases) := sup[|sup| - 1];
      BindAliases(InstallAliases(t, sup[..|sup| - 1]), source, aliases)
  }

  /** `tldRules`. */
  function TldRules(): RuleTable {
    InstallAliases(CompileAll(TldPatterns()), SupplementalTlds)
  }

  function RulesFor(tld: string): Option<Rules> {
    Lookup(TldRules(), tld)
  }

  // ---------------------------------------------------------------------------
  // getTld
  // ---------------------------------------------------------------------------

  /** `getTld`: the suffix from the last '.', or `None` when there is no dot or the
      dot is the last character. */
  function GetTld(domain: string): (r: Option<string>)
    ensures r.None? <==> '.' !in domain || domain[|domain| - 1] == '.'
    ensures r.Some? ==> |r.value| >= 2 && r.value[0] == '.' && '.' !in r.value[1..]
    ensures r.Some? ==> |r.value| <= |domain| && domain[|domain| - |r.value|..] == r.value
  {
    var lastDot := LastIndexOf(domain, '.');
    if lastDot == -1 || lastDot == |domain| - 1 then None
    else
      assert domain[lastDot..][0] == '.';
      Some(domain[lastDot..])
  }

  /** The rules `parseRawData` uses for a domain. */
  function RulesForDomain(domain: string): Option<Rules> {
    match GetTld(domain)
    case None => None
    case Some(tld) => RulesFor(tld)
  }

  // ---------------------------------------------------------------------------
  // The record and the errors
  // ---------------------------------------------------------------------------

  datatype Notice = Notice(title: string, noticeType: string, description: seq<string>)
  datatype Nameserver = Nameserver(objectClassName: string, ldhName: string)
  datatype Event = Event(eventAction: string, eventDate: Option<string>)

  /** The object `parseRawData` returns. The list fields and `registrar` are `None`
      while absent (or, for `registrar`, assigned `undefined`). */
  datatype WhoisRecord = WhoisRecord(
    objectClassName: string,
    ldhName: string,
    rdapConformance: seq<string>,
    notices: seq<Notice>,
    status: Option<seq<string>>,
    nameservers: Option<seq<Nameserver>>,
    events: Option<seq<Event>>,
    registrar: Option<string>)

  const Conformance: seq<string> := [
    "rdap_level_0",
    "icann_rdap_technical_implementation_guide_0",
    "icann_rdap_response_profile_0",
    "rdap_cloud_whois_1"
  ]

  const DerivedNotice: Notice := Notice(
    "WHOIS-derived response",
    "result set",
    ["This response is derived from WHOIS data and mapped into an RDAP-like structure."])

  /** The record before any field is parsed. */
  function Skeleton(domain: string): WhoisRecord {
    WhoisRecord("domain", ToUpper(domain), Conformance, [DerivedNotice], None, None, None, None)
  }

  /** The errors `parseRawData` throws. */
  datatype ParseError =
    | NoData
    | BadData(raw: string)
    | Unsupported(domain: string)
    | RateLimitedError
    | NotRegistered(domain: string)

  function ErrorMessage(err: ParseError): string {
    match err
    case NoData => "No Whois data received"
    case BadData(raw) => "Bad WHOIS Data: \"" + raw + "\""
    case Unsupported(d) =>
      d + " is not supported by RDAP. This may be because the domain belongs to a ccTLD, or the gTLD has not deployed RDAP"
    case RateLimitedError => "We were unable to complete the lookup as the server appears to be rate limiting queries"
    case NotRegistered(d) => d + " does not appear to be a registered domain name, IP address or ASN"
  }

  // ---------------------------------------------------------------------------
  // Field extraction
  // ---------------------------------------------------------------------------

  predicate IsDateField(f: Field) {
    f == CreationDate || f == UpdatedDate || f == ExpirationDate
  }

  /** `eventMap`. */
  function EventAction(f: Field): string
    requires IsDateField(f)
  {
    match f
    case CreationDate => "registration"
    case UpdatedDate => "last changed"
    case ExpirationDate => "expiration"
  }

  /** `match[match.length - 1]`: the last capture group (`undefined` on an empty array). */
  function LastGroup(m: Match): Option<string> {
    if |m| == 0 then None else m[|m| - 1]
  }

  /** A match whose first capture group is present and equal to the non-empty `v`. */
  predicate CapturesFirst(m: Match, v: string) {
    |m| > 1 && m[1] == Some(v) && v != ""
  }

  /** Group 1 of every match, skipping missing and empty captures. */
  function Group1Values(ms: seq<Match>): (vs: seq<string>)
    ensures |vs| <= |ms|
    ensures forall v :: v in vs ==> v != ""
    ensures forall v :: v in vs <==> exists k :: 0 <= k < |ms| && CapturesFirst(ms[k], v)
  {
    if |ms| == 0 then []
    else
      var m := ms[0];
      (if |m| > 1 && m[1].Some? && m[1].value != "" then [m[1].value] else []) + Group1Values(ms[1..])
  }

  function NameserverRecord(value: string): Nameserver {
    Nameserver("nameserver", ToUpper(value))
  }

  function NameserverRecords(vs: seq<string>): (ns: seq<Nameserver>)
    ensures |ns| == |vs|
    ensures forall i :: 0 <= i < |vs| ==> ns[i] == NameserverRecord(vs[i])
  {
    seq(|vs|, i requires 0 <= i < |vs| => NameserverRecord(vs[i]))
  }

  /** Append to a lazily created list: `if (!result[key]) result[key] = []`, then push. */
  function Extend<T>(o: Option<seq<T>>, vs: seq<T>): (r: Option<seq<T>>)
    ensures r.Some? <==> o.Some? || |vs| > 0
    ensures r.Some? ==> r.value == o.GetOr([]) + vs
  {
    if |vs| == 0 then o else Some(o.GetOr([]) + vs)
  }

  /** The event date: moment with the grammar's format when it has a non-empty one,
      free-form otherwise. */
  function EventDate(e: Engine, value: Option<string>, dateFormat: Option<string>): Option<string> {
    if dateFormat.Some? && dateFormat.value != "" then e.moment(value, dateFormat) else e.moment(value, None)
  }

  /** The field loop of `parseRawData`, over the compiled fields in key order. */
  function Walk(e: Engine, dateFormat: Option<string>, entries: seq<(Field, Regex)>, raw: string, domain: string,
                rec: WhoisRecord): (r: Result<WhoisRecord, ParseError>)
    requires NoDateFormat(entries)
    ensures r.Failure? ==> r.error in {RateLimitedError, NotRegistered(domain)}
    ensures r.Success? ==> r.value.objectClassName == rec.objectClassName && r.value.ldhName == rec.ldhName
    ensures r.Success? ==> r.value.rdapConformance == rec.rdapConformance && r.value.notices == rec.notices
    decreases |entries|
  {
    if |entries| == 0 then Success(rec)
    else
      var (key, regex) := entries[0];
      var rest := entries[1..];
      if key == RateLimited then
        if Test(e, regex, raw) then Failure(RateLimitedError) else Walk(e, dateFormat, rest, raw, domain, rec)
      else if key == NotFound then
        // `isAvailable` is never set on the record, so a match always fails
        if Test(e, regex, raw) then Failure(NotRegistered(domain)) else Walk(e, dateFormat, rest, raw, domain, rec)
      else if key == Status then
        var vs := Group1Values(e.matchAll(regex, raw));
        Walk(e, dateFormat, rest, raw, domain, rec.(status := Extend(rec.status, vs)))
      else if key == Nameservers then
        var vs := Group1Values(e.matchAll(regex, raw));
        Walk(e, dateFormat, rest, raw, domain, rec.(nameservers := Extend(rec.nameservers, NameserverRecords(vs))))
      else
        match e.exec(regex, raw)
        case None => Walk(e, dateFormat, rest, raw, domain, rec)
        case Some(m) =>
          var value := LastGroup(m);
          if IsDateField(key) then
            var ev := Event(EventAction(key), EventDate(e, value, dateFormat));
            Walk(e, dateFormat, rest, raw, domain, rec.(events := Extend(rec.events, [ev])))
          else
            Walk(e, dateFormat, rest, raw, domain, rec.(registrar := value))
  }

  /** `parseRawData`. */
  function ParseRawData(e: Engine, raw: Option<string>, domain: string): (r: Result<WhoisRecord, ParseError>)
    ensures raw.None? <==> r == Failure(NoData)
    ensures r.Failure? && r.error.BadData? <==> raw.Some? && Utf16Length(raw.value) <= 10
    ensures raw.Some? && Utf16Length(raw.value) <= 10 ==> r.error == BadData(raw.value)
    ensures raw.Some? && Utf16Length(raw.value) > 10 ==> (r == Failure(Unsupported(domain)) <==> RulesForDomain(domain).None?)
    ensures r.Success? ==> r.value.objectClassName == "domain" && r.value.ldhName == ToUpper(domain)
    ensures r.Success? ==> r.value.rdapConformance == Conformance && r.value.notices == [DerivedNotice]
  {
    match raw
    case None => Failure(NoData)
    case Some(text) =>
      if Utf16Length(text) <= 10 then Failure(BadData(text))
      else
        match RulesForDomain(domain)
        case None => Failure(Unsupported(domain))
        case Some(rules) => Walk(e, rules.dateFormat, rules.regexes, text, domain, Skeleton(domain))
  }
}
