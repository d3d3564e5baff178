# rdap.cloud lookup core, modelled in Dafny

rdap.cloud is a Cloudflare Worker. It answers `GET /api/v1/<t1>,<t2>,…` by classifying each target, looking each one up and returning one JSON object keyed by target. A target is an IP address, an autonomous-system number (`AS13335`, `asn13335`, `13335`) or a domain name.

**Classification and bootstrap.** Classification uses the IANA RDAP bootstrap registries (`asn`, `dns`, `ipv4`, `ipv6`). It also uses a WHOIS directory that supplies `whois://` servers and extra RDAP fallbacks. Both are cached in a key-value store under `bootstrap:rdap` and `bootstrap:whois`.

**Lookups.** RDAP servers are queried over HTTPS. Plain HTTP is allowed only for allow-listed TLDs. WHOIS servers are queried on port 43, and the raw text is parsed with per-TLD regular-expression grammars into an RDAP-shaped record.

**Caching and rate limiting.** A lookup that succeeds is cached under `rdap:<kind>:<target>`. Requests are rate-limited per client by a fixed-window counter kept in a Durable Object.

**Scheduled work.** A scheduled job renders Prometheus metrics about the cache. A legacy clean-up routine deletes old `rdap-` keys in bounded batches.

## How the model is organised

| module | models |
|---|---|
| `Wrappers`, `Text`, `Dicts` | `Option`/`Result`; JavaScript string and number behaviour (`trim`, `split`, `Number.parseInt`, `String(n)`, ASCII case mapping); JavaScript plain objects as association lists in creation order, where re-assignment keeps a key's position, enumerated in the ECMAScript own-key order (array-index keys first, ascending, then the rest in creation order) |
| `WhoisRules` | the generic, country and supplemental WHOIS grammar tables, and their spread into one table |
| `Parser` | compilation of the grammars and `parseRawData` over raw WHOIS text |
| `ParserProperties` | properties of the parser: alias resolution, first terminal pattern wins, event order, per-TLD facts |
| `Bootstrap` | `Rdap.getServices` and `Whois.getServices`: table building, cache read and write, TTL |
| `Lookup` | the `Lookup` class: `getType`, `getServices`, `getData`, request dispatch |
| `RateLimiter`, `RateLimit`, `Cors` | the Durable Object counter, the rate-limit middleware and its headers, and CORS header merging |
| `Api` | the `/api/v1/*` route: splitting, de-duplication, the cap, cache hits, per-target outcomes and cache writes |
| `Scheduled` | the metrics snapshot and rendering, the metrics cache update, and the legacy key clean-up |

Foreign code enters as function-valued parameters: the regex engine, `moment`, `validator.isIP`/`isFQDN`, `tldextract`, `containsCidr`, `fetch`, the WHOIS socket and the key-value store. Nothing is assumed about them beyond what the calling code relies on.

Objects keep their keys in creation order (`Dicts.Keys`) and are enumerated in the ECMAScript own-key order (`Dicts.OwnKeys`). The bootstrap tables (range, CIDR and TLD keys), the grammar tables and the header objects never hold an array-index key, so for them the two orders coincide (`Dicts.JsKeyOrderNoIndex`). Only the API's `results` object can: a bare ASN such as `13335` is listed before every name.

Key-value reads are inputs and writes are returned as values (`CacheWrite` records, deleted key lists, list requests). The clock is an input in milliseconds.

## Model

| member | source | states |
|---|---|---|
| Dicts.GetSet | src/routes/api.ts:103 | after `obj[k] = v`, reading `k` gives `v` and every other key reads as before |
| Dicts.KeysSet | src/routes/api.ts:109-113 | assigning a fresh key appends it to the creation order; re-assigning an existing key keeps that order unchanged |
| Dicts.JsKeyOrder | src/routes/api.ts:155 | `JSON.stringify` lists an object's keys as a permutation of them: array-index keys (canonical decimals below 2^32 - 1) first, in ascending numeric order, then every other key in creation order |
| Dicts.SortIndices | src/routes/api.ts:155 | the array-index keys are rearranged, not changed: the same keys, each as often |
| Dicts.SortAscending | src/routes/api.ts:155 | the array-index keys come out in ascending numeric order |
| Dicts.PartitionKeys | src/routes/api.ts:155 | every key is either an array index or not, and lands in exactly one of the two groups |
| Dicts.JsKeyOrderNoIndex | src/routes/api.ts:155 | an object without array-index keys is enumerated in creation order |
| Dicts.OwnKeysSetFresh | src/routes/api.ts:109-113 | a new key that is not an array index is enumerated last |
| Dicts.NumericKeyFirst | src/routes/api.ts:155 | a key `13335` created after `example.com` is still listed first |
| Dicts.GetSpread | modules/whois-rules/index.ts:11-14 | in `{...a, ...b}` a key bound in `b` reads from `b`, and otherwise from `a` |
| Dicts.SpreadKeepsOrder | src/middleware/cors.ts:24-27 | a spread keeps the key order of its left operand as a prefix |
| Text.SplitJoin | src/routes/api.ts:84-85 | joining the pieces of `split(sep)` with `sep` restores the string, and no piece contains `sep` |
| Text.SplitAppend | src/routes/api.ts:84-85 | the pieces of `a + sep + b` are the pieces of `a` followed by the pieces of `b` |
| Text.Utf16Length | modules/parser.ts:79 | `length` counts UTF-16 code units: between one and two per character |
| Text.Utf16LengthAppend | modules/parser.ts:79 | code-unit lengths add up over concatenation |
| Text.Utf16LengthBmp | modules/parser.ts:79 | for text inside the Basic Multilingual Plane, code units and characters coincide |
| Text.LeadingZerosValue | modules/lookup.ts:104-108 | leading zeros do not change the number `parseInt` reads |
| Text.TrimIdempotent | src/routes/api.ts:86 | a trimmed string is unchanged by a second `trim()` and has no white space at either end |
| Text.JsParseInt | src/rate-limiter.ts:33-34 | `Number.parseInt(s, 10)` yields a number exactly when `s`, after leading white space and an optional sign, starts with a digit |
| Text.JsParseIntShowInt | src/middleware/rate-limit.ts:40-42 | parsing `String(i)` gives back `i` for every integer |
| Text.ParseShows | modules/lookup.ts:104-110 | `String(parseInt(s))` equals `s` for a digit string without a leading zero |
| Text.ShowNatInjective | src/scheduled.ts:59-68 | distinct counters print differently |
| WhoisRules.TldPatternsMerge | modules/whois-rules/index.ts:11-14 | the merged table has the union of keys, and a country entry shadows a generic entry of the same name |
| WhoisRules.TablesHaveUniqueKeys | modules/whois-rules/generic.ts:3-45 | the generic, country and merged tables each bind every TLD once |
| WhoisRules.TldPatternKeys | modules/whois-rules/country.ts:3-164 | the merged table binds exactly the five generic and twenty-one country names |
| WhoisRules.GenericNotCountry | modules/whois-rules/index.ts:11-14 | no generic TLD is redefined by the country table, so the spread overrides nothing |
| WhoisRules.GenericDeclarations | modules/whois-rules/generic.ts:3-45 | only `default` declares a `dateFormat`; no generic grammar declares `rateLimited` or `nameservers` |
| WhoisRules.CountryDeclarations | modules/whois-rules/country.ts:3-164 | every country grammar has a `notFound` pattern; exactly `.au .pt .bg .at` declare `rateLimited`; exactly `.us .pt .de .se` declare `nameservers` |
| WhoisRules.AliasSourcesResolve | modules/whois-rules/supplemental.ts:1-7 | every alias source is a key of the merged table and no alias is one |
| WhoisRules.AliasNamesDistinct | modules/whois-rules/supplemental.ts:1-7 | no alias is also a source, no alias appears under two sources, and all names are dot-prefixed |
| WhoisRules.AliasesAreSingleLabels | modules/whois-rules/supplemental.ts:1-7 | every alias is one label, so `getTld` can return it |
| WhoisRules.OrgInfoNotFoundAnchored | modules/whois-rules/generic.ts:18-26 | `.org` and `.info` share one `notFound` pattern, and it is anchored at the start of the text |
| Parser.CompileEntries | modules/parser.ts:36-43 | compiled rules hold every declared pattern except `dateFormat`, each with the global flag exactly for `status` and `nameservers` |
| Parser.Compile | modules/parser.ts:45-49 | the compiled `dateFormat` is present exactly when the grammar declares one, and it is the declared text |
| Parser.GetTld | modules/parser.ts:68-72 | there is no TLD when the name has no dot or ends in one; otherwise the TLD is the dot-prefixed last label and a suffix of the name |
| Parser.ParseRawData | modules/parser.ts:74-110 | missing data fails with "no data"; data of at most ten UTF-16 code units (`rawData.length`) fails as bad data quoting it; an unknown TLD fails as unsupported; a success has class `domain`, the upper-cased name, the four conformance tags and the derived-data notice |
| Parser.Group1Values | modules/parser.ts:134-136 | a value is kept exactly when some match captures it as a non-empty first group, at most one value per match |
| Parser.NameserverRecords | modules/parser.ts:138-143 | each kept value becomes one `nameserver` object with the upper-cased name, in match order |
| Parser.Extend | modules/parser.ts:139-148 | a list field appears only once a first value is pushed, and values are appended |
| ParserProperties.CompileAllGet | modules/parser.ts:55-57 | every TLD of the table maps to its compiled grammar and nothing else is bound |
| ParserProperties.BindAliasesGet | modules/parser.ts:60-62 | each alias is bound to the very rules object of its source and other keys are unchanged |
| ParserProperties.InstallAliasesGet | modules/parser.ts:59-63 | after installing all aliases, an alias reads its source's rules and every non-alias key is untouched |
| ParserProperties.RulesForGrammarTld | modules/parser.ts:52-66 | a TLD of the merged table resolves to the compiled form of its grammar |
| ParserProperties.RulesForAlias | modules/parser.ts:59-63 | an alias resolves to the same rules as its source |
| ParserProperties.RulesForUnknown | modules/parser.ts:103-108 | a TLD that is neither a table key nor an alias has no rules |
| ParserProperties.UnknownTldUnsupported | modules/parser.ts:103-108 | long enough text for a domain under an unknown TLD fails with "not supported by RDAP"; the `default` grammar is never reached because `getTld` always returns a dotted name |
| ParserProperties.WalkFailure | modules/parser.ts:115-131 | the first key whose terminal pattern matches decides the error, and nothing after it is looked at |
| ParserProperties.WalkSuccess | modules/parser.ts:112-171 | when no terminal pattern matches, the result folds all fields into the record: status values, nameservers and events appended in key order, and the last matching registrar wins |
| ParserProperties.ParseRawDataOutcome | modules/parser.ts:110-173 | for long enough text under a known TLD, the parse fails with the first tripped terminal's error, or else succeeds with the folded record |
| ParserProperties.FirstTrip | modules/parser.ts:112-131 | the chosen terminal key is tripped and no earlier key is |
| ParserProperties.UndeclaredFieldsEmpty | modules/parser.ts:133-168 | a grammar without `status`, `nameservers` or date keys contributes no values of that kind |
| ParserProperties.ListsOnlyFromDeclaredFields | modules/parser.ts:133-168 | a parsed record has a status list, nameserver list or event list only if the TLD's grammar declares such a key |
| ParserProperties.SameRulesSameParse | modules/parser.ts:103-110 | two domains with the same rules parse the same text identically, apart from the domain named in the record or error |
| ParserProperties.AliasParsesLikeSource | modules/whois-rules/supplemental.ts:1-7 | a domain under an alias TLD parses exactly like one under its source TLD |
| ParserProperties.CompileFields | modules/parser.ts:37 | the compiled keys are the declared keys, in declaration order, minus `dateFormat` |
| ParserProperties.CompiledWithoutFormat | modules/parser.ts:37 | a grammar without `dateFormat` keeps all its keys in order |
| ParserProperties.CompiledDroppingFormat | modules/parser.ts:37 | a grammar with `dateFormat` in the middle keeps the keys before and after it, in order |
| ParserProperties.EventsFollowKeyOrder | modules/parser.ts:153-167 | when every date pattern matches, events appear in the grammar's key order with the mapped actions |
| ParserProperties.ParsedEventOrder | modules/parser.ts:157-167 | a successful parse lists its events in the order of the TLD's date keys |
| ParserProperties.ParsedEventDates | modules/parser.ts:112-168 | a successful parse has one event per matching date pattern, in the grammar's key order, with that key's action and `moment` of the match's last group in the TLD's date format, and no other event |
| ParserProperties.FirstTerminalDecides | modules/parser.ts:112-131 | a terminal key that matches and has no terminal key before it decides the outcome |
| ParserProperties.TerminalFirst | modules/parser.ts:112-131 | if a terminal field is declared once and no terminal precedes it, its match decides the outcome |
| ParserProperties.ComEventOrder | modules/whois-rules/generic.ts:4-11 | a `.com` record lists "last changed", "registration", "expiration" in that order |
| ParserProperties.UsEventOrder | modules/whois-rules/country.ts:11-20 | a `.us` record lists "registration", "expiration", "last changed", with dates read in the `.us` format |
| ParserProperties.AuRateLimitFirst | modules/whois-rules/country.ts:4-10 | `.au` text matching the rate-limit pattern fails as rate-limited even when it also matches "not found" |
| ParserProperties.NotFoundBeforeRateLimit | modules/whois-rules/country.ts:28-99 | for `.pt`, `.bg` and `.at` the "not found" pattern is tested before the rate-limit pattern and wins |
| ParserProperties.EuRecordHasNoLists | modules/whois-rules/country.ts:61-64 | a `.eu` record never carries status, nameservers or events |
| ParserProperties.AtRules | modules/whois-rules/country.ts:93-99 | `.at` keeps its keys in order without `dateFormat`, and its date format is "YYYYMMDD hh:mm:ss" |
| ParserProperties.PtRules | modules/whois-rules/country.ts:28-36 | `.pt` keeps its keys in order without `dateFormat`, and its date format is "DD/MM/YYYY hh:mm:ss" |
| Bootstrap.FillGet | modules/rdap.ts:77-81 | after filling, a name reads the value of the last entry that lists it, or the old value if no entry does |
| Bootstrap.FillHasKey | modules/rdap.ts:77-81 | a filled table binds a name exactly when some entry lists it |
| Bootstrap.LastBinding | modules/rdap.ts:77-81 | when a name is listed, there is a last entry that lists it |
| Bootstrap.RdapTableGet | modules/rdap.ts:77-81 | a registry table binds exactly the listed identifiers, each to the first URL of the last service that lists it (`""` for an empty URL list, see Left out) |
| Bootstrap.BuildRdapServices | modules/rdap.ts:74-82 | the services object has the four kinds `asn`, `domains`, `ipv4`, `ipv6`, each built from its own registry |
| Bootstrap.RdapGetServices | modules/rdap.ts:59-90 | a cached copy is returned as is without a fetch; otherwise the registries are fetched and built; the result is written back under `bootstrap:rdap` exactly when a store exists and nothing was cached, with the configured TTL or 86400 |
| Bootstrap.WhoisLoopFills | modules/whois.ts:97-110 | the directory loop builds the WHOIS table from entries with a WHOIS server and no RDAP server, and the fallback table from entries with an RDAP server |
| Bootstrap.FallbackGet | modules/whois.ts:99-103 | a sample domain falls back to the first RDAP server of the last entry that has RDAP servers and lists it |
| Bootstrap.WhoisDomainsGet | modules/whois.ts:105-109 | a sample domain maps to `whois://` plus the first WHOIS host of the last entry that qualifies |
| Bootstrap.RdapEntryNotWhois | modules/whois.ts:99-109 | an entry with RDAP servers never contributes a WHOIS mapping, only fallbacks |
| Bootstrap.ServerlessEntryIgnored | modules/whois.ts:97-110 | an entry with neither kind of server changes neither table |
| Bootstrap.WhoisGetServices | modules/whois.ts:64-125 | unless refreshing, a cached copy is used in either its current or its legacy shape without a fetch; otherwise the directory is fetched and built; a write happens exactly when fetched with a store and `writeCache` |
| Bootstrap.ForceRefreshIgnoresCache | modules/whois.ts:69 | with `forceRefresh` the outcome does not depend on the cache contents |
| Lookup.KindNamesDistinct | modules/lookup.ts:89-184 | the type strings name the kinds one-to-one |
| Lookup.NewLookup | modules/lookup.ts:46-51 | a new lookup is `invalid` with no server and no metadata, and its target defaults to the empty string |
| Lookup.GetServices | modules/lookup.ts:169-179 | the combined services carry the RDAP registries, the WHOIS table and the WHOIS fallbacks unchanged |
| Lookup.GetServicesFresh | modules/lookup.ts:169-179 | with nothing cached, the combined services are exactly the freshly built tables |
| Lookup.ScanLastMatch | modules/lookup.ts:79-86 | a range scan ends with the server of the last matching range, or with the starting server if none matches |
| Lookup.ScanAppend | modules/lookup.ts:79-86 | scanning `ipv4` and then `ipv6` is one scan over both tables in order |
| Lookup.AsnDigits | modules/lookup.ts:97-101 | the normalised target is the input minus a case-insensitive `asn` prefix, else minus `as`, else the input |
| Lookup.AsnRangeRoundTrip | modules/lookup.ts:116-118 | the range `"a-b"` contains exactly the numbers from `a` to `b` |
| Lookup.DomainServer | modules/lookup.ts:146-160 | a domain has a server exactly when the RDAP, WHOIS or fallback table has a non-empty entry for its TLD, and that server is non-empty |
| Lookup.DomainServerPrecedence | modules/lookup.ts:146-157 | an RDAP entry wins over WHOIS and fallback, and a WHOIS entry wins over fallback |
| Lookup.GetType | modules/lookup.ts:73-130 | an IP is classified `ip` or `invalid-ip`, keeping the target, and is `ip` exactly when the last matching range carries a non-empty server (the `!== ''` test); a numeric target is classified `asn` or `invalid-asn`, with the target rewritten to `String(parseInt)` |
| Lookup.DomainClassification | modules/lookup.ts:132-160 | a domain takes the registrable domain as its target and the server from the first table with its TLD; with no table entry it is `unsupported-domain` |
| Lookup.IpServerLastMatch | modules/lookup.ts:79-86 | an IP's server is the last matching CIDR range across `ipv4` then `ipv6` |
| Lookup.IpWithoutRange | modules/lookup.ts:88-92 | an IP with no matching range is `invalid-ip` |
| Lookup.AsnServerLastMatch | modules/lookup.ts:115-121 | an ASN's server is the last range containing it |
| Lookup.AsnPrefixNormalised | modules/lookup.ts:97-110 | `AS`, `asn` or bare spellings of a canonical number all classify to the bare digits |
| Lookup.AsnDigitsAfterPrefix | modules/lookup.ts:97-101 | after no prefix, `as` or `asn` in any case, a string starting with a digit is exactly what is checked for digits |
| Lookup.AsnLeadingZeroDropped | modules/lookup.ts:97-110 | any run of zeros before a canonical number is dropped behind every accepted prefix: `AS013335` is looked up as `13335` |
| Lookup.FoundIffServer | modules/lookup.ts:88-160 | after classification the kind is `ip`, `asn` or `domain` exactly when a server was found |
| Lookup.UnrecognisedStaysInvalid | modules/lookup.ts:132-166 | a target that is not an IP, a number or an FQDN stays `invalid` with no server |
| Lookup.IpComesFirst | modules/lookup.ts:74-95 | a target the IP validator accepts is classified as an IP even if it is also numeric or an FQDN |
| Lookup.FetchResult | modules/lookup.ts:65-70 | a non-OK HTTP response yields `null` and an OK response yields its JSON body |
| Lookup.WhoisPayload | modules/lookup.ts:209-214 | the WHOIS query is the target, then `/e` for `jp` or ` -T dn` for `de` (nothing otherwise), then CRLF |
| Lookup.DispatchFor | modules/lookup.ts:182-232 | HTTPS servers, and HTTP servers for allow-listed domain TLDs, are fetched at `<server><type>/<target>`; `whois://` servers are queried on port 43 at the stripped host; any other server is left unhandled |
| Lookup.WhoisHostRecovered | modules/lookup.ts:198-202 | `whois://host` is queried at `host` on port 43 |
| Lookup.GetData | modules/lookup.ts:181-236 | no server gives `{}`; HTTP gives the fetch result; a WHOIS reply is parsed for the target; a WHOIS failure gives `{success: false, message}`; an unhandled scheme gives `undefined` |
| Lookup.WhoisParsesTarget | modules/lookup.ts:225 | a parsed WHOIS record names the looked-up target in upper case |
| Lookup.AsnFetchesAutnum | modules/lookup.ts:183-194 | an ASN lookup fetches the `autnum/` path |
| RateLimiter.Param | src/rate-limiter.ts:33-34 | a missing or empty parameter falls back to "60"; otherwise it is parsed as a decimal integer |
| RateLimiter.DefaultIsSixty | src/rate-limiter.ts:33-34 | the default limit and window are 60 |
| RateLimiter.CeilSeconds | src/rate-limiter.ts:60 | the retry delay is the smallest whole number of seconds covering the wait |
| RateLimiter.CurrentRecord | src/rate-limiter.ts:36-44 | a live record is reused; a missing or expired one restarts at zero with a reset one window (at least one second) ahead |
| RateLimiter.Fetch | src/rate-limiter.ts:46-61 | a request is allowed exactly when the count is under the limit; allowing stores the incremented count; `remaining` is never negative; `retryAfter` is the wait to reset rounded up to seconds |
| RateLimiter.Handle | src/rate-limiter.ts:31-35 | when both parameters parse, the answer is the counter step for that limit and window; the model gives no answer for a parameter that parses to NaN (see Left out) |
| RateLimiter.StepWithinLimit | src/rate-limiter.ts:46-52 | a stored count never exceeds the limit after one request |
| RateLimiter.RunWithinLimit | src/rate-limiter.ts:31-68 | over any sequence of requests the stored count stays between 0 and the limit |
| RateLimiter.FullWindowRefuses | src/rate-limiter.ts:47-48 | a full window refuses, stores nothing and reports zero remaining |
| RateLimit.BuildRateLimitHeaders | src/middleware/rate-limit.ts:36-44 | no limiter data gives no headers; otherwise the limit, remaining and reset headers appear in that order |
| RateLimit.ResetHeaderSeconds | src/middleware/rate-limit.ts:42 | the reset header parses to the reset time in whole seconds, rounded down |
| RateLimit.CountHeadersRoundTrip | src/middleware/rate-limit.ts:40-41 | the limit and remaining headers parse back to the numbers |
| RateLimit.ClientIp | src/middleware/rate-limit.ts:46-54 | `cf-connecting-ip` wins, then the first trimmed `x-forwarded-for` entry, else `unknown` |
| RateLimit.ForwardedClientFirst | src/middleware/rate-limit.ts:50-51 | behind proxies, the client is the first forwarded address |
| RateLimit.LimiterKey | src/middleware/rate-limit.ts:70-74 | the Cloudflare worker address is keyed by its `cf-worker` header, and every other client by its IP |
| RateLimit.KeysSeparateClients | src/middleware/rate-limit.ts:72-74 | distinct client IPs get distinct counters, and no IP shares a counter with the worker |
| RateLimit.Middleware | src/middleware/rate-limit.ts:62-105 | an allowed request continues with the limiter data; a refused one gets 429 with the message and `Retry-After` set to the limiter's delay, or to the window when the delay is 0; a limiter failure continues without data |
| RateLimit.DenyHeaders | src/middleware/rate-limit.ts:93-97 | a refusal's other headers are the rate-limit headers over the CORS headers |
| RateLimit.DenyWaitsPositive | src/middleware/rate-limit.ts:89 | a refusal always asks the client to wait a positive number of seconds, given a positive window and a limiter that never reports a negative wait |
| RateLimit.DurableDenyWaitsPositive | src/middleware/rate-limit.ts:84-97 | against the Durable Object counter, a refusal's `Retry-After` is the limiter's whole seconds left in the window, and that is at least one |
| Cors.MergeCorsHeaders | src/middleware/cors.ts:24-27 | given headers override the CORS defaults, defaults fill the rest, and the defaults' order comes first |
| Cors.MergeNothing | src/middleware/cors.ts:24 | merging nothing yields exactly the CORS headers |
| Cors.MergedKeysUnique | src/middleware/cors.ts:24-27 | merged headers name each header once |
| Api.CacheKeyForInput | src/routes/api.ts:27-43 | numeric inputs, with or without an `as`/`asn` prefix, are keyed `rdap:asn:` plus the digits as typed |
| Api.CacheKeyForResolved | src/routes/api.ts:60-65 | only `domain`, `ip` and `asn` results have a cache key |
| Api.ResolvedKeysInjective | src/routes/api.ts:60-65 | different resolved lookups never share a cache key |
| Api.AsnKeysAgree | src/routes/api.ts:27-65 | for a canonical ASN, the key read before lookup equals the key written after it |
| Api.AsnLeadingZeroKeysDiffer | src/routes/api.ts:27-65 | for `AS0…` input, the read key keeps the zeros while the write key drops them, so such inputs never hit the cache |
| Api.DomainKeysAgree | src/routes/api.ts:47-51 | for an FQDN that resolves to a domain, the read key equals the written key |
| Api.IpKeysAgree | src/routes/api.ts:44-45 | for an IP that resolves, the read key equals the written key |
| Api.AsnInputBranch | src/routes/api.ts:29-43 | the three numeric branches of the input key agree with the classifier's normalisation |
| Api.TrimEach | src/routes/api.ts:86 | each piece is trimmed in place |
| Api.NonEmpty | src/routes/api.ts:87 | the filter keeps exactly the non-empty pieces, each as often as it occurs |
| Api.NonEmptyAppend | src/routes/api.ts:87 | the filter keeps order: filtering a concatenation concatenates the filtered parts |
| Api.Targets | src/routes/api.ts:84-87 | a string is a target exactly when it is non-empty and is some comma-separated piece, trimmed |
| Api.TargetsPiece | src/routes/api.ts:84-87 | a comma-free path gives its trimmed self as the one target, or nothing when blank |
| Api.TargetsConcat | src/routes/api.ts:84-87 | the targets of `a,b` are the targets of `a` followed by those of `b`; with `TargetsPiece` this fixes the target list, order and repeats included |
| Api.TargetsAreClean | src/routes/api.ts:84-87 | targets are non-empty, trimmed and comma-free |
| Api.Dedup | src/routes/api.ts:88 | de-duplication keeps each target once, loses none, and orders them by first occurrence |
| Api.UniqueTargetsClean | src/routes/api.ts:84-88 | the unique targets are distinct and clean, and they are exactly the trimmed non-blank pieces |
| Api.DataFailed | src/routes/api.ts:122 | `null`, `""` and objects with `success: false` count as failures, and the corrected check also treats `undefined` as one |
| Api.StepFor | src/routes/api.ts:109-151 | with `undefined` data counted as a failure (the corrected check of Findings; as written the request fails), a found result yields its data or "not registered"; invalid kinds yield "not valid"; `unsupported-domain` yields "not supported"; exactly the non-failed `domain`, `ip` and `asn` results are cached under their resolved key with the configured TTL |
| Api.ReportOutcomes | src/routes/api.ts:109-145 | under the corrected failure check, each classification maps to its response entry, and `invalid-asn` is reported as found with no server |
| Api.ResolveOutcomes | src/routes/api.ts:105-145 | the same outcomes, under the corrected failure check, stated for a target as classified and fetched |
| Api.TargetStep | src/routes/api.ts:100-104 | a cache hit under the input key is returned as stored with no write; otherwise the target is resolved |
| Api.RouteStepperGood | src/routes/api.ts:147-151 | every write the route makes is a non-failed entry under an `rdap:` key with the configured TTL |
| Api.ProcessWritesGood | src/routes/api.ts:97-153 | if each step writes only good entries, so does the whole loop |
| Api.WritesAreResolvedSuccesses | src/routes/api.ts:97-153 | the cache never receives a failure entry |
| Api.ResultsCreatedInOrder | src/routes/api.ts:97-113 | `results` is created with the unique targets as keys, in request order, each once |
| Api.ResultsFollowTargets | src/routes/api.ts:97-155 | the response body lists the unique targets in the own-key order: bare-number targets first, ascending, then the rest in request order |
| Api.NamedTargetsKeepOrder | src/routes/api.ts:97-155 | when no target is a bare number, the body lists the targets in request order |
| Api.HandleLookups | src/routes/api.ts:76-156 | more than 10 unique targets gives 400 with the cap message and no cache traffic; otherwise 200 with one result per unique target, listed in the own-key order, every outcome under the corrected failure check of Findings; both carry the rate-limit and CORS headers |
| Api.RunTargets | src/routes/api.ts:97-153 | the loop's results, store and writes are the sequential fold over the targets |
| Api.FetchFailureIsFailed | modules/lookup.ts:65-70 | an RDAP error response reads as `null` and counts as a failed lookup under both checks; an OK response fails exactly when its body does |
| Api.DataFailedAsWritten | src/routes/api.ts:122 | the check as written throws exactly on `undefined` |
| Api.ResolveAsWritten | src/routes/api.ts:105-130 | the route as written crashes exactly when a target has a server but no data |
| Api.HttpServerCrashes | src/routes/api.ts:115-122 | a domain served over plain HTTP outside the allow-list crashes the request as written, and the corrected route reports it as not registered |
| Scheduled.ReadPagesShape | src/scheduled.ts:27-51 | the pages read are a prefix of the listing, ending at the first complete page |
| Scheduled.Cursors | src/scheduled.ts:24-50 | the first request uses an empty cursor and each later one the previous page's cursor, or "" when that page has none |
| Scheduled.RequestsShape | src/scheduled.ts:28-30 | one list request is made per page read, carrying that page's cursor |
| Scheduled.RoundSeconds | src/scheduled.ts:15 | the timestamp is the clock in seconds, rounded to the nearest |
| Scheduled.SnapshotOf | src/scheduled.ts:31-44 | the count is the number of keys listed, and each bucket counts the keys with an expiration less than the bucket's seconds away |
| Scheduled.SnapshotOrdered | src/scheduled.ts:40-44 | bucket counts never decrease with the bucket size and never exceed the total |
| Scheduled.SnapshotAppend | src/scheduled.ts:31-44 | one more key adds one to the count, and to each bucket it falls in when it has an expiration |
| Scheduled.BuildMetricsSnapshot | src/scheduled.ts:14-57 | the loop's snapshot summarises all keys on the pages read, and its list requests follow the cursor chain |
| Scheduled.CountExpiries | src/scheduled.ts:33-45 | adding one page's keys updates the bucket counts to those of all keys so far |
| Scheduled.InterleaveInjective | src/scheduled.ts:59-68 | filling the metrics template is one-to-one in the numbers |
| Scheduled.RenderShowsFourBuckets | src/scheduled.ts:59-68 | two snapshots render identically exactly when their totals and first four buckets agree, so the 172800-second bucket is never shown |
| Scheduled.UpdateMetricsCache | src/scheduled.ts:72-81 | the rendered snapshot is stored under `metrics:cache` with TTL 600 and returned, after one unprefixed listing per page |
| Scheduled.RunScheduledTasks | src/scheduled.ts:115-117 | the scheduled run refreshes the metrics cache only and deletes nothing |
| Scheduled.CleanupLegacyRdapKeys | src/scheduled.ts:83-113 | the clean-up deletes the first keys listed under `rdap-`, at most 500, and stops listing early only once 500 are deleted |
| Scheduled.CleanupStop | src/scheduled.ts:88 | the loop stops only when the listing is complete, the limit is reached or the pages run out |

## Left out

- I/O is not modelled. Network fetches, the WHOIS socket, key-value reads, writes and deletes, Durable Object storage, and `Date.now()` become parameters or returned records. `Promise.allSettled` and concurrency are not modelled; the four registry fetches are taken as all fulfilled.
- A rejected registry fetch is not modelled; the four registry fetches are taken as fulfilled. In the source, `.value` of a rejected result is `undefined`, and the next read throws: `d['services']` in modules/rdap.ts:77 or `Object.keys(d)` in modules/whois.ts:97. For a domain target the throw happens inside the `try` of modules/lookup.ts:133-161 and the target is reported `invalid-domain`. For an IP or ASN target nothing catches it and the whole request fails with a server error.
- A non-JSON body (`json()` throwing) is not modelled.
- Key-value TTL expiry is not modelled.
- `decodeURIComponent` and extracting the path from the URL are not modelled. The route receives the decoded path after `/api/v1/`.
- The `/api/v1/services` route (src/routes/api.ts:68-74) is a pass-through of `Lookup.GetServices` and is not modelled separately.
- `Lookup.getServices` is modelled as one combined value per request. The source fetches the bootstrap tables again for each IP, ASN or domain target (modules/lookup.ts:76, :112, :141), but with a store they are read back from cache.
- Plain-HTTP allow-list: the list of TLDs comes from modules/constants.ts, which is not part of this model. It is a set-valued parameter.
- `validator.isNumeric` is modelled as a non-empty string of ASCII digits. The library also accepts a sign and a decimal point. With `parseInt` and digits only, the "NaN" branch at modules/lookup.ts:105-108 is unreachable.
- `validator.isIP`, `isFQDN`, `tldextract` and `containsCidr` are parameters. `tldextract` throwing (the `invalid-domain` path) is the parameter answering nothing.
- JavaScript numbers are modelled as unbounded integers. Precision loss above 2^53 in `parseInt` and `String` is not modelled.
- RateLimiter.Handle: a limit or window that parses to NaN gives no answer in the model. A misconfigured `RATE_LIMIT` or `RATE_LIMIT_WINDOW` reaches the limiter as "NaN". In the source a NaN limit lets every request through, still counts it, and reports limit and remaining as null. A NaN window gives a record whose reset time is NaN; it never expires, so once the count reaches the limit every request is refused with `retryAfter` null. Modelling this needs a NaN-carrying number type throughout the limiter.
- Api.HandleLookups: the model uses the corrected failure check from Findings. As written, a target whose `getData` returns `undefined` makes the whole request fail with a server error; `Api.DataFailedAsWritten` and `Api.HttpServerCrashes` state that behaviour.
- Api.HandleLookups: a target spelled `__proto__` is not modelled as JavaScript treats it. At src/routes/api.ts:103 and :109, `resp['results']['__proto__'] = …` calls the `Object.prototype.__proto__` setter instead of creating an own property, so the source answers `{"results":{}}` for it. `Dicts.Set` creates the key, so the key clauses of `Api.ResultsCreatedInOrder`, `Api.ResultsFollowTargets` and `Api.HandleLookups` list it. Every other name is an ordinary data property: `__proto__` is the only accessor on `Object.prototype`. None of the other tables the core writes (registry identifiers, TLDs, header names) can bind it.
- Only `rawData.length` in modules/parser.ts:79 counts UTF-16 code units (`Text.Utf16Length`). The other string positions the core compares (`lastIndexOf`, `length - 1` in `getTld`, `item.length > 0`) give the same outcome counted in characters.
- `toLowerCase` and `toUpperCase` are modelled on ASCII letters only.
- Lookup.GetType: a registry service with an empty URL list (`p[1][0]` is `undefined` at modules/rdap.ts:79) is modelled as bound to `""`. The domain branch reads the tables by truthiness (modules/lookup.ts:146-158), so there `undefined` and `""` agree. The IP and ASN branches do not: they test `this.server !== ''` (modules/lookup.ts:88, :123). In the source, such a service as the last matching range leaves the server `undefined`, the target is classified `ip` or `asn`, and `getData` then throws on `this.server.startsWith` (modules/lookup.ts:193), so the whole request fails with a server error. When the table comes back from the store, `JSON.stringify` has dropped the `undefined` binding and an earlier matching range wins instead. The model classifies `invalid-ip` or `invalid-asn`, and its `""` overrides earlier matching ranges. The published IANA registries list at least one URL per service.
- Regular-expression syntax and `moment` parsing are the engine parameter. The `default` grammar's two-group creation-date pattern takes its last group, as the engine's match says.
- Response messages are modelled as a reason plus the target. The fixed text after the target is one constant per reason.
- Scheduled.CleanupLegacyRdapKeys: the model trusts the listing's prefix filter and does not check that each deleted name starts with `rdap-`.
- A listing that never reports completion makes the source loop forever. The model reads the pages it is given and stops when they run out.
- `parseRawData` throwing is modelled as a `Result` error. The `isAvailable` test at modules/parser.ts:125 is always true, because no code path sets that field.
- Contexts that use but do not belong to the core are not modelled: src/routes/metrics.ts, src/routes/version.ts, src/index.ts, the legacy `index.js` and `*.js` builds, and the browser script.

## Findings

| source | as written | input that shows it | evidently intended | confidence | as-written member | corrected member |
|---|---|---|---|---|---|---|
| src/routes/api.ts:122 | `d === null \|\| d === "" \|\| d.success === false` reads `.success` of the value `getData` returns; for a server that is neither `https://`, an allow-listed `http://`, nor `whois://`, `getData` (modules/lookup.ts:181-232) falls through and returns `undefined`, so the read throws and the whole multi-target request fails | a domain whose RDAP bootstrap entry is an `http://` URL and whose TLD is not in the plain-HTTP allow-list | report that one target as not registered, like `null`, and carry on with the others | medium, not executed | Api.HttpServerCrashes | Api.DataFailed |
