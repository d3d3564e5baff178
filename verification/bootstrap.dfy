/** The bootstrap maps (modules/rdap.ts, modules/whois.ts): folds of the IANA RDAP
    bootstrap files (section 3 of RFC 9224) and of the WHOIS-server directory into
    tables from identifier (TLD, ASN range, CIDR block) to endpoint, with the cache
    read and write around them.

    Fetching and the key-value store are not modelled: the feeds, the cached value and
    whether a store is bound come in as parameters, and a write comes out as a value. */
module Bootstrap {
  import opened Wrappers
  import opened Dicts

  /** Identifier to endpoint. */
  type Table = Dict<string>

  /** Tables by kind (`asn`, `domains`, `ipv4`, `ipv6`). */
  type Services = Dict<Table>

  const DefaultBootstrapTtl: int := 86400

  /** `env.BOOTSTRAP_TTL || 86400`: an unset or zero setting means one day. */
  function CacheTtl(configured: Option<int>): int {
    if configured.Some? && configured.value != 0 then configured.value else DefaultBootstrapTtl
  }

  /** A `KV.put(key, JSON.stringify(value), { expirationTtl: ttl })`. */
  datatype CacheWrite<T> = CacheWrite(key: string, value: T, ttl: int)

  // ---------------------------------------------------------------------------
  // Filling a table
  // ---------------------------------------------------------------------------

  /** `for (const name of names) t[name] = v`. */
  function AssignAll(t: Table, names: seq<string>, v: string): Table {
    if |names| == 0 then t
    else Set(AssignAll(t, names[..|names| - 1], v), names[|names| - 1], v)
  }

  lemma {:induction false} AssignAllGet(t: Table, names: seq<string>, v: string, k: string)
    ensures Get(AssignAll(t, names, v), k) == if k in names then Some(v) else Get(t, k)
  {
    if |names| > 0 {
      var init := names[..|names| - 1];
      AssignAllGet(t, init, v, k);
      GetSet(AssignAll(t, init, v), names[|names| - 1], v, k);
      assert names == init + [names[|names| - 1]];
    }
  }

  /** One pass over `xs`: each element that yields a value assigns it to each of its
      names, in order. */
  function Fill<T>(t: Table, xs: seq<T>, names: T -> seq<string>, value: T -> Option<string>): Table {
    if |xs| == 0 then t
    else
      var last := xs[|xs| - 1];
      var before := Fill(t, xs[..|xs| - 1], names, value);
      if value(last).Some? then AssignAll(before, names(last), value(last).value) else before
  }

  /** Element `i` of `xs` yields a value and lists `k`. */
  predicate Binds<T>(xs: seq<T>, names: T -> seq<string>, value: T -> Option<string>, k: string, i: int) {
    0 <= i < |xs| && value(xs[i]).Some? && k in names(xs[i])
  }

  /** A filled name reads back the value of the last element binding it; a name no
      element binds keeps its old reading. */
  lemma {:induction false} FillGet<T>(t: Table, xs: seq<T>, names: T -> seq<string>, value: T -> Option<string>,
                                      k: string)
    ensures (forall i :: !Binds(xs, names, value, k, i)) ==> Get(Fill(t, xs, names, value), k) == Get(t, k)
    ensures forall i :: Binds(xs, names, value, k, i) && (forall j :: i < j ==> !Binds(xs, names, value, k, j)) ==>
              Get(Fill(t, xs, names, value), k) == value(xs[i])
  {
    if |xs| > 0 {
      var n := |xs| - 1;
      var init := xs[..n];
      FillGet(t, init, names, value, k);
      AssignAllGet(Fill(t, init, names, value), names(xs[n]), if value(xs[n]).Some? then value(xs[n]).value else "", k);
      assert forall i :: 0 <= i < n ==> (Binds(init, names, value, k, i) <==> Binds(xs, names, value, k, i));
      if !Binds(xs, names, value, k, n) {
        forall i | Binds(xs, names, value, k, i) && (forall j :: i < j ==> !Binds(xs, names, value, k, j))
          ensures Get(Fill(t, xs, names, value), k) == value(xs[i])
        {
          assert Binds(init, names, value, k, i);
          assert forall j :: i < j ==> !Binds(init, names, value, k, j);
        }
      }
    }
  }

  /** With an empty start, a name is filled exactly when some element binds it. */
  lemma FillHasKey<T>(xs: seq<T>, names: T -> seq<string>, value: T -> Option<string>, k: string)
    ensures HasKey(Fill([], xs, names, value), k) <==> exists i :: Binds(xs, names, value, k, i)
  {
    GetSomeIffHasKey(Fill([], xs, names, value), k);
    FillGet([], xs, names, value, k);
    if exists i :: Binds(xs, names, value, k, i) {
      var i := LastBinding(xs, names, value, k);
    }
  }

  lemma BindsPrefix<T>(xs: seq<T>, names: T -> seq<string>, value: T -> Option<string>, k: string, n: nat)
    requires n <= |xs|
    ensures forall i :: Binds(xs[..n], names, value, k, i) <==> i < n && Binds(xs, names, value, k, i)
  {
  }

  /** The position of the last element binding `k`. */
  function LastBinding<T>(xs: seq<T>, names: T -> seq<string>, value: T -> Option<string>, k: string): (i: nat)
    requires exists i :: Binds(xs, names, value, k, i)
    ensures Binds(xs, names, value, k, i) && forall j :: i < j ==> !Binds(xs, names, value, k, j)
    decreases |xs|
  {
    var n := |xs| - 1;
    if Binds(xs, names, value, k, n) then n
    else
      BindsPrefix(xs, names, value, k, n);
      LastBinding(xs[..n], names, value, k)
  }

  // ---------------------------------------------------------------------------
  // RDAP bootstrap (modules/rdap.ts)
  // ---------------------------------------------------------------------------

  const RdapCacheKey: string := "bootstrap:rdap"

  /** The kinds, in the order of `enabled`. */
  const RdapKinds: seq<string> := ["asn", "domains", "ipv4", "ipv6"]

  /** One element of a bootstrap file's `services` array: the identifiers it covers
      and the base URLs serving them. */
  datatype RdapService = RdapService(identifiers: seq<string>, urls: seq<string>)

  /** `entry[1][0]`, with `""` standing for the `undefined` of an empty URL list. */
  function FirstUrl(p: RdapService): string {
    if |p.urls| > 0 then p.urls[0] else ""
  }

  function Identifiers(p: RdapService): seq<string> {
    p.identifiers
  }

  function RdapEndpoint(p: RdapService): Option<string> {
    Some(FirstUrl(p))
  }

  /** The table one bootstrap file yields. */
  function RdapTable(feed: seq<RdapService>): Table {
    Fill([], feed, Identifiers, RdapEndpoint)
  }

  /** Every identifier maps to the first URL of the last service listing it, with no
      filtering on the URL's scheme; an identifier no service lists is absent. */
  lemma RdapTableGet(feed: seq<RdapService>, k: string)
    ensures Get(RdapTable(feed), k).Some? <==> exists i :: 0 <= i < |feed| && k in feed[i].identifiers
    ensures forall i :: 0 <= i < |feed| && k in feed[i].identifiers
                        && (forall j :: i < j < |feed| ==> k !in feed[j].identifiers) ==>
              Get(RdapTable(feed), k) == Some(FirstUrl(feed[i]))
  {
    FillGet([], feed, Identifiers, RdapEndpoint, k);
    FillHasKey(feed, Identifiers, RdapEndpoint, k);
    GetSomeIffHasKey(RdapTable(feed), k);
    assert forall i :: Binds(feed, Identifiers, RdapEndpoint, k, i) <==> 0 <= i < |feed| && k in feed[i].identifiers;
  }

  /** The four bootstrap files, in the order of `providers`. */
  datatype RdapFeeds = RdapFeeds(asn: seq<RdapService>, domains: seq<RdapService>,
                                 ipv4: seq<RdapService>, ipv6: seq<RdapService>)

  /** The second loop of `getServices`: one fresh table per enabled kind, each filled
      from the file fetched for it. */
  function BuildRdapServices(f: RdapFeeds): (s: Services)
    ensures Keys(s) == RdapKinds
    ensures Get(s, "asn") == Some(RdapTable(f.asn)) && Get(s, "domains") == Some(RdapTable(f.domains))
    ensures Get(s, "ipv4") == Some(RdapTable(f.ipv4)) && Get(s, "ipv6") == Some(RdapTable(f.ipv6))
  {
    var s := [("asn", RdapTable(f.asn)), ("domains", RdapTable(f.domains)),
              ("ipv4", RdapTable(f.ipv4)), ("ipv6", RdapTable(f.ipv6))];
    GetAt(s, 0); GetAt(s, 1); GetAt(s, 2); GetAt(s, 3);
    s
  }

  /** What `Rdap.getServices` returns, what it writes back, and whether it fetched. */
  datatype RdapOutcome = RdapOutcome(services: Services, write: Option<CacheWrite<Services>>, fetched: bool)

  /** `Rdap.getServices`. `store` says whether a key-value store is bound; `cached`
      is what it holds under `bootstrap:rdap` (`None` for `null`). */
  function RdapGetServices(store: bool, cached: Option<Services>, feeds: RdapFeeds, ttlSetting: Option<int>)
    : (r: RdapOutcome)
    ensures store && cached.Some? ==> r.services == cached.value && r.write.None? && !r.fetched
    ensures !(store && cached.Some?) ==> r.services == BuildRdapServices(feeds) && r.fetched
    ensures r.write.Some? <==> store && cached.None?
    ensures r.write.Some? ==> r.write.value.key == "bootstrap:rdap" && r.write.value.value == r.services
                              && r.write.value.ttl == (if ttlSetting.Some? && ttlSetting.value != 0 then ttlSetting.value else 86400)
  {
    if store && cached.Some? then RdapOutcome(cached.value, None, false)
    else
      var services := BuildRdapServices(feeds);
      RdapOutcome(services, if store then Some(CacheWrite(RdapCacheKey, services, CacheTtl(ttlSetting))) else None, true)
  }

  // ---------------------------------------------------------------------------
  // WHOIS directory (modules/whois.ts)
  // ---------------------------------------------------------------------------

  const WhoisCacheKey: string := "bootstrap:whois"

  /** One directory entry; `sampleDomains` holds the keys of its sample-domain object. */
  datatype WhoisServer = WhoisServer(whoisServer: seq<string>, rdapServers: seq<string>, sampleDomains: seq<string>)

  /** The directory, keyed by TLD. */
  type Directory = Dict<WhoisServer>

  /** The `services` and `rdapFallback` maps a `Whois` instance holds. */
  datatype WhoisMaps = WhoisMaps(services: Services, rdapFallback: Table)

  function SampleDomains(w: WhoisServer): seq<string> {
    w.sampleDomains
  }

  /** What an entry contributes to `rdapFallback`: its first RDAP server, if it lists any. */
  function FallbackEndpoint(w: WhoisServer): Option<string> {
    if |w.rdapServers| > 0 then Some(w.rdapServers[0]) else None
  }

  /** What an entry contributes to `services.domains`: `whois://` and its first WHOIS
      server, when it lists one and no RDAP server. */
  function WhoisEndpoint(w: WhoisServer): Option<string> {
    if |w.whoisServer| > 0 && |w.rdapServers| == 0 then Some("whois://" + w.whoisServer[0]) else None
  }

  /** The entry loop as written: per entry, the fallback assignments, then the WHOIS
      ones; returns (`services.domains`, `rdapFallback`). */
  function WhoisLoop(entries: seq<WhoisServer>): (Table, Table) {
    if |entries| == 0 then ([], [])
    else
      var (domains, fallback) := WhoisLoop(entries[..|entries| - 1]);
      var w := entries[|entries| - 1];
      var fallback' := if |w.rdapServers| > 0 then AssignAll(fallback, w.sampleDomains, w.rdapServers[0]) else fallback;
      var domains' := if |w.whoisServer| > 0 && |w.rdapServers| == 0
                      then AssignAll(domains, w.sampleDomains, "whois://" + w.whoisServer[0]) else domains;
      (domains', fallback')
  }

  /** The two maps of the entry loop are independent fills. */
  lemma {:induction false} WhoisLoopFills(entries: seq<WhoisServer>)
    ensures WhoisLoop(entries).0 == Fill([], entries, SampleDomains, WhoisEndpoint)
    ensures WhoisLoop(entries).1 == Fill([], entries, SampleDomains, FallbackEndpoint)
  {
    if |entries| > 0 {
      WhoisLoopFills(entries[..|entries| - 1]);
    }
  }

  function Values<V>(d: Dict<V>): (vs: seq<V>)
    ensures |vs| == |d| && forall i :: 0 <= i < |d| ==> vs[i] == d[i].1
  {
    seq(|d|, i requires 0 <= i < |d| => d[i].1)
  }

  /** The maps built from a fetched directory. */
  function BuildWhois(directory: Directory): WhoisMaps {
    var (domains, fallback) := WhoisLoop(Values(directory));
    WhoisMaps([("domains", domains)], fallback)
  }

  /** Entry `w` hands `t` over to an RDAP server. */
  predicate FallsBack(w: WhoisServer, t: string) {
    FallbackEndpoint(w).Some? && t in w.sampleDomains
  }

  /** Entry `w` serves `t` over WHOIS. */
  predicate ServesWhois(w: WhoisServer, t: string) {
    WhoisEndpoint(w).Some? && t in w.sampleDomains
  }

  lemma BuildWhoisFills(directory: Directory)
    ensures BuildWhois(directory).rdapFallback == Fill([], Values(directory), SampleDomains, FallbackEndpoint)
    ensures BuildWhois(directory).services == [("domains", Fill([], Values(directory), SampleDomains, WhoisEndpoint))]
  {
    WhoisLoopFills(Values(directory));
  }

  /** A TLD falls back to RDAP exactly when some entry with an RDAP server lists it,
      and then to the first RDAP server of the last such entry. */
  lemma FallbackGet(directory: Directory, t: string)
    ensures HasKey(BuildWhois(directory).rdapFallback, t)
            <==> exists i :: 0 <= i < |directory| && FallsBack(directory[i].1, t)
    ensures forall i :: 0 <= i < |directory| && FallsBack(directory[i].1, t)
                        && (forall j :: i < j < |directory| ==> !FallsBack(directory[j].1, t)) ==>
              Get(BuildWhois(directory).rdapFallback, t) == Some(directory[i].1.rdapServers[0])
  {
    var es := Values(directory);
    var fb := Fill([], es, SampleDomains, FallbackEndpoint);
    BuildWhoisFills(directory);
    assert forall i :: Binds(es, SampleDomains, FallbackEndpoint, t, i) <==> 0 <= i < |directory| && FallsBack(directory[i].1, t);
    FillHasKey(es, SampleDomains, FallbackEndpoint, t);
    assert HasKey(fb, t) <==> exists i :: 0 <= i < |directory| && FallsBack(directory[i].1, t);
    forall i | 0 <= i < |directory| && FallsBack(directory[i].1, t) && (forall j :: i < j < |directory| ==> !FallsBack(directory[j].1, t))
      ensures Get(fb, t) == Some(directory[i].1.rdapServers[0])
    {
      FillGet([], es, SampleDomains, FallbackEndpoint, t);
      assert Binds(es, SampleDomains, FallbackEndpoint, t, i);
      assert forall j :: i < j ==> !Binds(es, SampleDomains, FallbackEndpoint, t, j);
    }
  }

  /** A TLD gets a WHOIS server exactly when some entry with a WHOIS server and no RDAP
      server lists it, and then `whois://` and the first WHOIS server of the last such
      entry. */
  lemma WhoisDomainsGet(directory: Directory, t: string)
    ensures Get(BuildWhois(directory).services, "domains") == Some(Fill([], Values(directory), SampleDomains, WhoisEndpoint))
    ensures HasKey(Fill([], Values(directory), SampleDomains, WhoisEndpoint), t)
            <==> exists i :: 0 <= i < |directory| && ServesWhois(directory[i].1, t)
    ensures forall i :: 0 <= i < |directory| && ServesWhois(directory[i].1, t)
                        && (forall j :: i < j < |directory| ==> !ServesWhois(directory[j].1, t)) ==>
              Get(Fill([], Values(directory), SampleDomains, WhoisEndpoint), t) == Some("whois://" + directory[i].1.whoisServer[0])
  {
    var es := Values(directory);
    var ds := Fill([], es, SampleDomains, WhoisEndpoint);
    BuildWhoisFills(directory);
    GetAt<Table>([("domains", ds)], 0);
    assert forall i :: Binds(es, SampleDomains, WhoisEndpoint, t, i) <==> 0 <= i < |directory| && ServesWhois(directory[i].1, t);
    FillHasKey(es, SampleDomains, WhoisEndpoint, t);
    assert HasKey(ds, t) <==> exists i :: 0 <= i < |directory| && ServesWhois(directory[i].1, t);
    forall i | 0 <= i < |directory| && ServesWhois(directory[i].1, t) && (forall j :: i < j < |directory| ==> !ServesWhois(directory[j].1, t))
      ensures Get(ds, t) == Some("whois://" + directory[i].1.whoisServer[0])
    {
      FillGet([], es, SampleDomains, WhoisEndpoint, t);
      assert Binds(es, SampleDomains, WhoisEndpoint, t, i);
      assert forall j :: i < j ==> !Binds(es, SampleDomains, WhoisEndpoint, t, j);
    }
  }

  /** An entry listing an RDAP server never yields a WHOIS mapping, whatever WHOIS
      servers it also lists. */
  lemma RdapEntryNotWhois(w: WhoisServer, t: string)
    requires |w.rdapServers| > 0
    ensures !ServesWhois(w, t) && (t in w.sampleDomains ==> FallsBack(w, t))
  {
  }

  /** An entry with neither kind of server leaves both maps as they were. */
  lemma ServerlessEntryIgnored(entries: seq<WhoisServer>, w: WhoisServer)
    requires |w.whoisServer| == 0 && |w.rdapServers| == 0
    ensures WhoisLoop(entries + [w]) == WhoisLoop(entries)
  {
    assert (entries + [w])[..|entries|] == entries;
  }

  /** The options of `Whois.getServices`. */
  datatype WhoisOptions = WhoisOptions(forceRefresh: bool, writeCache: bool)

  /** `getServices()` with no options. */
  const DefaultWhoisOptions: WhoisOptions := WhoisOptions(false, true)

  /** What the store may hold under `bootstrap:whois`: the current shape (an object
      with a `services` key), or an older bare `services` map. */
  datatype WhoisCached =
    | Current(services: Option<Services>, rdapFallback: Option<Table>)
    | Legacy(legacy: Services)

  datatype WhoisOutcome = WhoisOutcome(maps: WhoisMaps, write: Option<CacheWrite<WhoisMaps>>, fetched: bool)

  /** `Whois.getServices` together with the `rdapFallback` it leaves behind. */
  function WhoisGetServices(opts: WhoisOptions, store: bool, cached: Option<WhoisCached>, directory: Directory,
                            ttlSetting: Option<int>): (r: WhoisOutcome)
    ensures !opts.forceRefresh && store && cached.Some? ==> !r.fetched && r.write.None?
    ensures !opts.forceRefresh && store && cached.Some? && cached.value.Current? ==>
              r.maps == WhoisMaps(cached.value.services.GetOr([]), cached.value.rdapFallback.GetOr([]))
    ensures !opts.forceRefresh && store && cached.Some? && cached.value.Legacy? ==>
              r.maps == WhoisMaps(cached.value.legacy, [])
    ensures opts.forceRefresh || !store || cached.None? ==> r.fetched && r.maps == BuildWhois(directory)
    ensures r.write.Some? <==> r.fetched && store && opts.writeCache
    ensures r.write.Some? ==> r.write.value == CacheWrite("bootstrap:whois", r.maps, CacheTtl(ttlSetting))
  {
    if !opts.forceRefresh && store && cached.Some? then
      match cached.value
      case Current(services, fallback) => WhoisOutcome(WhoisMaps(services.GetOr([]), fallback.GetOr([])), None, false)
      case Legacy(services) => WhoisOutcome(WhoisMaps(services, []), None, false)
    else
      var maps := BuildWhois(directory);
      WhoisOutcome(maps, if store && opts.writeCache then Some(CacheWrite(WhoisCacheKey, maps, CacheTtl(ttlSetting))) else None, true)
  }

  /** `forceRefresh` skips the cache read: what the store holds makes no difference. */
  lemma ForceRefreshIgnoresCache(opts: WhoisOptions, store: bool, c1: Option<WhoisCached>, c2: Option<WhoisCached>,
                                 directory: Directory, ttlSetting: Option<int>)
    requires opts.forceRefresh
    ensures WhoisGetServices(opts, store, c1, directory, ttlSetting) == WhoisGetServices(opts, store, c2, directory, ttlSetting)
  {
  }
}
