/** The scheduled jobs (src/scheduled.ts): the metrics snapshot of the key-value
    store, its Prometheus rendering and cache refresh, and the bounded deletion of
    legacy `rdap-` keys.

    The store's paginated `list` is modelled by the finite sequence of pages it
    answers with, one per request, in order; the clock is the parameter `nowMs`. */
module Scheduled {
  import opened Wrappers
  import opened Text
  import Bootstrap

  const MetricsCacheKey: string := "metrics:cache"
  const MetricsCacheTtl: int := 600
  const LegacyPrefix: string := "rdap-"
  const DeleteLimit: nat := 500

  /** `METRICS_EXPIRY_BUCKETS`, in seconds. */
  const Buckets: seq<int> := [3600, 21600, 43200, 86400, 172800]

  // ---------------------------------------------------------------------------
  // Listing
  // ---------------------------------------------------------------------------

  /** A listed key: its name and, when it has one, its expiry in epoch seconds. */
  datatype KeyInfo = KeyInfo(name: string, expiration: Option<int>)

  /** One answer of `list`. */
  datatype Page = Page(keys: seq<KeyInfo>, listComplete: bool, cursor: Option<string>)

  /** A `list` request: the key prefix asked for (if any) and the cursor sent. */
  datatype ListRequest = ListRequest(prefix: Option<string>, cursor: string)

  /** The pages a loop that stops at `list_complete` reads: everything up to and
      including the first complete page. */
  function ReadPages(pages: seq<Page>): seq<Page> {
    if |pages| == 0 then []
    else if pages[0].listComplete then [pages[0]]
    else [pages[0]] + ReadPages(pages[1..])
  }

  /** The pages read are a prefix of the listing in which only the last page may be
      complete; when pages are left over, the last page read was complete. */
  lemma {:induction false} ReadPagesShape(pages: seq<Page>)
    ensures ReadPages(pages) <= pages
    ensures forall k :: 0 <= k < |ReadPages(pages)| - 1 ==> !ReadPages(pages)[k].listComplete
    ensures |ReadPages(pages)| < |pages| ==> |ReadPages(pages)| > 0 && ReadPages(pages)[|ReadPages(pages)| - 1].listComplete
  {
    if |pages| > 0 && !pages[0].listComplete {
      ReadPagesShape(pages[1..]);
      var r := ReadPages(pages[1..]);
      assert ReadPages(pages) == [pages[0]] + r;
      assert forall k :: 1 <= k < |r| + 1 ==> ([pages[0]] + r)[k] == r[k - 1];
    }
  }

  /** Before the first complete page, reading continues past every page so far. */
  lemma {:induction false} ReadPagesAt(pages: seq<Page>, p: nat)
    requires p <= |pages| && forall k :: 0 <= k < p ==> !pages[k].listComplete
    ensures ReadPages(pages) == pages[..p] + ReadPages(pages[p..])
  {
    if p > 0 {
      var t := pages[1..];
      ReadPagesAt(t, p - 1);
      assert ReadPages(pages) == [pages[0]] + ReadPages(t);
      assert t[p - 1..] == pages[p..];
      assert pages[..p] == [pages[0]] + t[..p - 1];
      assert [pages[0]] + (t[..p - 1] + ReadPages(t[p - 1..])) == pages[..p] + ReadPages(pages[p..]);
    }
  }

  /** The cursor sent after a page that was not the last: its own, else `''`. */
  function NextCursor(page: Page): string {
    if page.cursor.Some? then page.cursor.value else ""
  }

  /** The cursor each of the pages read was requested with. */
  function Cursors(read: seq<Page>): (cs: seq<string>)
    ensures |cs| == |read|
    ensures |read| > 0 ==> cs[0] == ""
    ensures forall k :: 0 < k < |read| ==> cs[k] == NextCursor(read[k - 1])
  {
    seq(|read|, k requires 0 <= k < |read| => if k == 0 then "" else NextCursor(read[k - 1]))
  }

  /** The `list` requests sent with the given cursors, in order. */
  function Requests(prefix: Option<string>, cursors: seq<string>): seq<ListRequest> {
    if |cursors| == 0 then []
    else Requests(prefix, cursors[..|cursors| - 1]) + [ListRequest(prefix, cursors[|cursors| - 1])]
  }

  /** One request per cursor, each with the prefix and its cursor. */
  lemma {:induction false} RequestsShape(prefix: Option<string>, cursors: seq<string>)
    ensures |Requests(prefix, cursors)| == |cursors|
    ensures forall k :: 0 <= k < |cursors| ==> Requests(prefix, cursors)[k] == ListRequest(prefix, cursors[k])
  {
    if |cursors| > 0 {
      RequestsShape(prefix, cursors[..|cursors| - 1]);
    }
  }

  /** All keys of some pages, in listing order. */
  function KeysOf(pages: seq<Page>): seq<KeyInfo> {
    if |pages| == 0 then [] else KeysOf(pages[..|pages| - 1]) + pages[|pages| - 1].keys
  }

  lemma {:induction false} KeysOfAppend(a: seq<Page>, b: seq<Page>)
    ensures KeysOf(a + b) == KeysOf(a) + KeysOf(b)
  {
    if |b| > 0 {
      KeysOfAppend(a, b[..|b| - 1]);
      assert (a + b)[..|a + b| - 1] == a + b[..|b| - 1];
    } else {
      assert a + b == a;
    }
  }

  // ---------------------------------------------------------------------------
  // Snapshot
  // ---------------------------------------------------------------------------

  /** `Math.round(now / 1000)` for a clock reading in milliseconds. */
  function RoundSeconds(nowMs: int): (ts: int)
    ensures ts * 1000 - 500 <= nowMs < ts * 1000 + 500
  {
    (nowMs + 500) / 1000
  }

  /** A key takes part in the histogram only with a truthy (present, non-zero) expiry. */
  predicate HasExpiry(k: KeyInfo) {
    k.expiration.Some? && k.expiration.value != 0
  }

  /** The key expires less than `bucket` seconds after `ts`. */
  predicate InBucket(k: KeyInfo, ts: int, bucket: int) {
    HasExpiry(k) && k.expiration.value - ts < bucket
  }

  /** The number of keys in a bucket. */
  function CountIn(keys: seq<KeyInfo>, ts: int, bucket: int): (n: nat)
    ensures n <= |keys|
  {
    if |keys| == 0 then 0
    else (if InBucket(keys[0], ts, bucket) then 1 else 0) + CountIn(keys[1..], ts, bucket)
  }

  /** Counting over two runs of keys adds up. */
  lemma {:induction false} CountInAppend(a: seq<KeyInfo>, b: seq<KeyInfo>, ts: int, bucket: int)
    ensures CountIn(a + b, ts, bucket) == CountIn(a, ts, bucket) + CountIn(b, ts, bucket)
  {
    if |a| == 0 {
      assert a + b == b;
    } else {
      CountInAppend(a[1..], b, ts, bucket);
      assert (a + b)[1..] == a[1..] + b;
    }
  }

  /** A wider bucket holds at least the keys of a narrower one. */
  lemma {:induction false} CountInMonotone(keys: seq<KeyInfo>, ts: int, b1: int, b2: int)
    requires b1 <= b2
    ensures CountIn(keys, ts, b1) <= CountIn(keys, ts, b2)
  {
    if |keys| > 0 {
      CountInMonotone(keys[1..], ts, b1, b2);
    }
  }

  /** `{count, expiry}`, the expiry counts listed in the order of `Buckets`. */
  datatype Snapshot = Snapshot(count: nat, expiry: seq<nat>)

  /** The snapshot of a listing at time `ts`. */
  function SnapshotOf(keys: seq<KeyInfo>, ts: int): (s: Snapshot)
    ensures s.count == |keys| && |s.expiry| == |Buckets|
    ensures forall j :: 0 <= j < |Buckets| ==> s.expiry[j] == CountIn(keys, ts, Buckets[j])
  {
    Snapshot(|keys|, seq(|Buckets|, j requires 0 <= j < |Buckets| => CountIn(keys, ts, Buckets[j])))
  }

  /** The histogram is cumulative: buckets never decrease and none exceeds the count. */
  lemma SnapshotOrdered(keys: seq<KeyInfo>, ts: int)
    ensures var s := SnapshotOf(keys, ts);
            forall j, j' :: 0 <= j <= j' < |Buckets| ==> s.expiry[j] <= s.expiry[j'] <= s.count
  {
    var s := SnapshotOf(keys, ts);
    forall j, j' | 0 <= j <= j' < |Buckets| ensures s.expiry[j] <= s.expiry[j'] <= s.count {
      CountInMonotone(keys, ts, Buckets[j], Buckets[j']);
    }
  }

  /** One more key in each bucket whose bound exceeds `delta`. */
  function Bump(expiry: seq<nat>, delta: int): (e: seq<nat>)
    requires |expiry| == |Buckets|
    ensures |e| == |Buckets|
  {
    seq(|Buckets|, j requires 0 <= j < |Buckets| => expiry[j] + if delta < Buckets[j] then 1 else 0)
  }

  /** A further key is counted; it enters exactly the buckets its expiry falls in, and
      none at all when it has no expiry. */
  lemma SnapshotAppend(keys: seq<KeyInfo>, k: KeyInfo, ts: int)
    ensures SnapshotOf(keys + [k], ts).count == SnapshotOf(keys, ts).count + 1
    ensures !HasExpiry(k) ==> SnapshotOf(keys + [k], ts).expiry == SnapshotOf(keys, ts).expiry
    ensures HasExpiry(k) ==>
              SnapshotOf(keys + [k], ts).expiry == Bump(SnapshotOf(keys, ts).expiry, k.expiration.value - ts)
  {
    var s0, s1 := SnapshotOf(keys, ts), SnapshotOf(keys + [k], ts);
    forall j | 0 <= j < |Buckets|
      ensures s1.expiry[j] == s0.expiry[j] + if InBucket(k, ts, Buckets[j]) then 1 else 0
    {
      CountInAppend(keys, [k], ts, Buckets[j]);
      assert [k][1..] == [];
    }
    if HasExpiry(k) {
      var e := Bump(s0.expiry, k.expiration.value - ts);
      assert forall j :: 0 <= j < |Buckets| ==> s1.expiry[j] == e[j];
    } else {
      assert forall j :: 0 <= j < |Buckets| ==> s1.expiry[j] == s0.expiry[j];
    }
  }

  /** Where a listing loop stands after `p` pages: stopped at the first complete page,
      or with the rest of the pages still to read. */
  lemma ReadPagesStop(pages: seq<Page>, p: nat, complete: bool)
    requires p <= |pages|
    requires forall k :: 0 <= k < p - 1 ==> !pages[k].listComplete
    requires complete <==> p > 0 && pages[p - 1].listComplete
    ensures complete || p == |pages| ==> ReadPages(pages) == pages[..p]
    ensures !complete ==> ReadPages(pages) == pages[..p] + ReadPages(pages[p..])
  {
    if complete {
      var q := p - 1;
      ReadPagesAt(pages, q);
      var tail := pages[q..];
      assert tail[0] == pages[q] && tail[0].listComplete;
      assert ReadPages(tail) == [pages[q]];
      assert pages[..q] + [pages[q]] == pages[..p];
    } else {
      assert forall k :: 0 <= k < p ==> !pages[k].listComplete;
      ReadPagesAt(pages, p);
      if p == |pages| {
        assert pages[p..] == [];
        assert pages[..p] + [] == pages[..p];
      }
    }
  }

  /** One more page read: its keys follow, and its request carries the cursor the
      previous page handed out. */
  lemma PageStep(pages: seq<Page>, p: nat)
    requires p < |pages|
    ensures KeysOf(pages[..p + 1]) == KeysOf(pages[..p]) + pages[p].keys
    ensures Cursors(pages[..p + 1]) == Cursors(pages[..p]) + [if p == 0 then "" else NextCursor(pages[p - 1])]
  {
    assert pages[..p + 1][..p] == pages[..p];
  }

  /** `buildMetricsSnapshot`: the snapshot of every key on the pages read, and the
      requests made to read them. */
  method BuildMetricsSnapshot(pages: seq<Page>, nowMs: int) returns (snap: Snapshot, requests: seq<ListRequest>)
    ensures snap == SnapshotOf(KeysOf(ReadPages(pages)), RoundSeconds(nowMs))
    ensures requests == Requests(None, Cursors(ReadPages(pages)))
  {
    var ts := RoundSeconds(nowMs);
    var count: nat := 0;
    var expiry: seq<nat> := [0, 0, 0, 0, 0];
    var cursor := "";
    var complete := false;
    var p := 0;
    requests := [];
    assert SnapshotOf([], ts).expiry == expiry;
    while !complete && p < |pages|
      invariant 0 <= p <= |pages|
      invariant forall k :: 0 <= k < p - 1 ==> !pages[k].listComplete
      invariant complete <==> p > 0 && pages[p - 1].listComplete
      invariant Snapshot(count, expiry) == SnapshotOf(KeysOf(pages[..p]), ts)
      invariant !complete ==> cursor == if p == 0 then "" else NextCursor(pages[p - 1])
      invariant requests == Requests(None, Cursors(pages[..p]))
    {
      var data := pages[p];
      MetricsPageStep(pages, p, requests, cursor);
      requests := requests + [ListRequest(None, cursor)];
      count := count + |data.keys|;
      expiry := CountExpiries(KeysOf(pages[..p]), data.keys, ts, expiry);
      complete := data.listComplete;
      cursor := if complete then cursor else NextCursor(data);
      p := p + 1;
    }
    ReadPagesStop(pages, p, complete);
    snap := Snapshot(count, expiry);
  }

  /** The bucket loop over one page's keys: each key with an expiry enters every
      bucket its remaining lifetime is below; a key without one is skipped. */
  method CountExpiries(seen: seq<KeyInfo>, keys: seq<KeyInfo>, ts: int, expiry0: seq<nat>) returns (expiry: seq<nat>)
    requires expiry0 == SnapshotOf(seen, ts).expiry
    ensures expiry == SnapshotOf(seen + keys, ts).expiry
  {
    expiry := expiry0;
    var q := 0;
    assert seen + keys[..0] == seen;
    while q < |keys|
      invariant 0 <= q <= |keys|
      invariant expiry == SnapshotOf(seen + keys[..q], ts).expiry
    {
      var key := keys[q];
      SnapshotAppend(seen + keys[..q], key, ts);
      assert seen + keys[..q + 1] == seen + keys[..q] + [key];
      if HasExpiry(key) {
        expiry := Bump(expiry, key.expiration.value - ts);
      }
      q := q + 1;
    }
    assert keys[..q] == keys;
  }

  /** One page of the snapshot: the page's keys follow those already seen, its
      request carries the cursor the previous page handed out, and no page before it
      ended the listing. */
  lemma MetricsPageStep(pages: seq<Page>, p: nat, requests: seq<ListRequest>, cursor: string)
    requires p < |pages|
    requires requests == Requests(None, Cursors(pages[..p]))
    requires forall k :: 0 <= k < p - 1 ==> !pages[k].listComplete
    requires p == 0 || !pages[p - 1].listComplete
    requires cursor == if p == 0 then "" else NextCursor(pages[p - 1])
    ensures KeysOf(pages[..p + 1]) == KeysOf(pages[..p]) + pages[p].keys
    ensures requests + [ListRequest(None, cursor)] == Requests(None, Cursors(pages[..p + 1]))
    ensures forall k :: 0 <= k < p ==> !pages[k].listComplete
  {
    PageStep(pages, p);
    var cs := Cursors(pages[..p + 1]);
    assert cs[..|cs| - 1] == Cursors(pages[..p]);
  }

  // ---------------------------------------------------------------------------
  // Rendering
  // ---------------------------------------------------------------------------

  /** Fixed text pieces with numbers between them: `pieces[0] v[0] pieces[1] ... v[n-1] pieces[n]`. */
  function Interleave(pieces: seq<string>, values: seq<nat>): (r: string)
    requires |pieces| == |values| + 1
    ensures StartsWith(r, pieces[0])
  {
    if |values| == 0 then pieces[0]
    else pieces[0] + ShowNat(values[0]) + Interleave(pieces[1..], values[1..])
  }

  /** A run of digits ending where a non-digit begins is read off unambiguously. */
  lemma DigitsThenOther(a: string, x: string, b: string, y: string)
    requires AllDigits(a) && AllDigits(b)
    requires |x| > 0 && !IsDigit(x[0]) && |y| > 0 && !IsDigit(y[0])
    requires a + x == b + y
    ensures a == b && x == y
  {
    if |a| < |b| {
      CharAfter(a, x);
      assert false;
    } else if |b| < |a| {
      CharAfter(b, y);
      assert false;
    }
    assert a == (a + x)[..|a|] && b == (b + y)[..|b|];
    assert x == (a + x)[|a|..] && y == (b + y)[|b|..];
  }

  lemma CharAfter(a: string, x: string)
    ensures |x| > 0 ==> (a + x)[|a|] == x[0]
  {
  }

  /** When every piece after the first opens with a non-digit, the numbers can be
      read back: two interleavings agree exactly when their numbers do. */
  lemma {:induction false} InterleaveInjective(pieces: seq<string>, v1: seq<nat>, v2: seq<nat>)
    requires |pieces| == |v1| + 1 && |v1| == |v2|
    requires forall k :: 1 <= k < |pieces| ==> |pieces[k]| > 0 && !IsDigit(pieces[k][0])
    ensures Interleave(pieces, v1) == Interleave(pieces, v2) <==> v1 == v2
  {
    if |v1| > 0 && Interleave(pieces, v1) == Interleave(pieces, v2) {
      var a, b := ShowNat(v1[0]), ShowNat(v2[0]);
      var r1, r2 := Interleave(pieces[1..], v1[1..]), Interleave(pieces[1..], v2[1..]);
      assert pieces[0] + a + r1 == pieces[0] + (a + r1);
      assert pieces[0] + b + r2 == pieces[0] + (b + r2);
      assert a + r1 == b + r2 by {
        assert a + r1 == (pieces[0] + (a + r1))[|pieces[0]|..];
        assert b + r2 == (pieces[0] + (b + r2))[|pieces[0]|..];
      }
      assert r1[0] == pieces[1][0] && r2[0] == pieces[1][0];
      DigitsThenOther(a, r1, b, r2);
      ShowNatInjective(v1[0], v2[0]);
      InterleaveInjective(pieces[1..], v1[1..], v2[1..]);
      assert v1 == [v1[0]] + v1[1..] && v2 == [v2[0]] + v2[1..];
    }
  }

  /** The two metric names and the help text they share. */
  const CachedMetric := "rdap_keys_cached_total"
  const ExpiresMetric := "rdap_keys_expires_total"
  const MetricHelp := "The total number of cached RDAP lookups"

  /** One histogram line up to its value. */
  function BucketLine(le: string): string {
    ExpiresMetric + "{handler=\"/metrics\",le=\"" + le + "\"} "
  }

  /** The text around the five numbers `renderMetrics` prints: the count and the
      first four buckets. */
  function MetricsPieces(): seq<string> {
    [ "# HELP " + CachedMetric + " " + MetricHelp + "\n"
      + "# TYPE " + CachedMetric + " counter\n" + CachedMetric + " ",
      "\n# HELP " + ExpiresMetric + " " + MetricHelp + " expiring in a set timeframe\n"
      + "# TYPE " + ExpiresMetric + " histogram\n" + BucketLine("3600"),
      "\n" + BucketLine("21600"),
      "\n" + BucketLine("43200"),
      "\n" + BucketLine("86400"),
      "\n" ]
  }

  /** `renderMetrics`. */
  function RenderMetrics(s: Snapshot): (text: string)
    requires |s.expiry| == |Buckets|
    ensures |text| > 0 && text[|text| - 1] == '\n'
  {
    var pieces := MetricsPieces();
    var text := Interleave(pieces, [s.count] + s.expiry[..4]);
    assert text[|text| - 1] == '\n' by { InterleaveEnds(pieces, [s.count] + s.expiry[..4]); }
    text
  }

  lemma {:induction false} InterleaveEnds(pieces: seq<string>, values: seq<nat>)
    requires |pieces| == |values| + 1 && pieces[|pieces| - 1] == "\n"
    ensures var r := Interleave(pieces, values); |r| > 0 && r[|r| - 1] == '\n'
  {
    if |values| > 0 {
      InterleaveEnds(pieces[1..], values[1..]);
    }
  }

  /** The rendering shows the count and the 3600, 21600, 43200 and 86400 buckets and
      nothing else: two snapshots render alike exactly when those five numbers agree,
      whatever their 172800 bucket holds. */
  lemma RenderShowsFourBuckets(s1: Snapshot, s2: Snapshot)
    requires |s1.expiry| == |Buckets| && |s2.expiry| == |Buckets|
    ensures RenderMetrics(s1) == RenderMetrics(s2) <==> s1.count == s2.count && s1.expiry[..4] == s2.expiry[..4]
  {
    var pieces := MetricsPieces();
    assert forall k :: 1 <= k < |pieces| ==> |pieces[k]| > 0 && pieces[k][0] == '\n';
    InterleaveInjective(pieces, [s1.count] + s1.expiry[..4], [s2.count] + s2.expiry[..4]);
    if [s1.count] + s1.expiry[..4] == [s2.count] + s2.expiry[..4] {
      assert s1.expiry[..4] == ([s1.count] + s1.expiry[..4])[1..];
      assert s2.expiry[..4] == ([s2.count] + s2.expiry[..4])[1..];
    }
  }

  // ---------------------------------------------------------------------------
  // Metrics cache and the scheduled entry point
  // ---------------------------------------------------------------------------

  /** `updateMetricsCache`: the rendered snapshot, stored under `metrics:cache` for
      ten minutes. */
  method UpdateMetricsCache(pages: seq<Page>, nowMs: int)
    returns (payload: string, write: Bootstrap.CacheWrite<string>, requests: seq<ListRequest>)
    ensures payload == RenderMetrics(SnapshotOf(KeysOf(ReadPages(pages)), RoundSeconds(nowMs)))
    ensures write == Bootstrap.CacheWrite(MetricsCacheKey, payload, MetricsCacheTtl)
    ensures |requests| == |ReadPages(pages)| && forall r :: r in requests ==> r.prefix.None?
  {
    var snap;
    snap, requests := BuildMetricsSnapshot(pages, nowMs);
    RequestsShape(None, Cursors(ReadPages(pages)));
    payload := RenderMetrics(snap);
    write := Bootstrap.CacheWrite(MetricsCacheKey, payload, MetricsCacheTtl);
  }

  /** `runScheduledTasks`: one metrics refresh; the legacy cleanup is not run, so
      nothing is deleted. */
  method RunScheduledTasks(pages: seq<Page>, nowMs: int)
    returns (writes: seq<Bootstrap.CacheWrite<string>>, deleted: seq<string>)
    ensures |writes| == 1 && writes[0].key == MetricsCacheKey && writes[0].ttl == MetricsCacheTtl
    ensures writes[0].value == RenderMetrics(SnapshotOf(KeysOf(ReadPages(pages)), RoundSeconds(nowMs)))
    ensures deleted == []
  {
    var payload, write, _ := UpdateMetricsCache(pages, nowMs);
    writes, deleted := [write], [];
  }

  // ---------------------------------------------------------------------------
  // Legacy cleanup
  // ---------------------------------------------------------------------------

  function Names(keys: seq<KeyInfo>): (ns: seq<string>)
    ensures |ns| == |keys| && forall i :: 0 <= i < |keys| ==> ns[i] == keys[i].name
  {
    seq(|keys|, i requires 0 <= i < |keys| => keys[i].name)
  }

  /** The first `n` elements, or all of them when there are fewer. */
  function Take<T>(xs: seq<T>, n: nat): (ys: seq<T>)
    ensures |ys| == if |xs| <= n then |xs| else n
  {
    if |xs| <= n then xs else xs[..n]
  }

  /** `cleanupLegacyRdapKeys`: deletes the first 500 keys listed under `rdap-` (all of
      them when there are fewer), reading pages only until it has enough. */
  method CleanupLegacyRdapKeys(pages: seq<Page>) returns (deleted: seq<string>, requests: seq<ListRequest>)
    ensures deleted == Take(Names(KeysOf(ReadPages(pages))), DeleteLimit)
    ensures |deleted| <= DeleteLimit
    ensures |requests| <= |ReadPages(pages)|
    ensures |requests| < |ReadPages(pages)| ==> |deleted| == DeleteLimit
    ensures requests == Requests(Some(LegacyPrefix), Cursors(ReadPages(pages)[..|requests|]))
  {
    var p, complete;
    deleted, requests, p, complete := CleanupLoop(pages);
    CleanupStop(pages, p, complete, deleted);
    RequestsShape(Some(LegacyPrefix), Cursors(pages[..p]));
  }

  /** The cleanup's `while` loop: it stops at a complete page, at the limit, or when
      the pages run out, having read the first `p` pages. */
  method CleanupLoop(pages: seq<Page>) returns (deleted: seq<string>, requests: seq<ListRequest>, p: nat, complete: bool)
    ensures p <= |pages|
    ensures forall k :: 0 <= k < p - 1 ==> !pages[k].listComplete
    ensures complete <==> p > 0 && pages[p - 1].listComplete
    ensures complete || |deleted| >= DeleteLimit || p == |pages|
    ensures deleted == Take(Names(KeysOf(pages[..p])), DeleteLimit)
    ensures requests == Requests(Some(LegacyPrefix), Cursors(pages[..p]))
  {
    var cursor := "";
    complete, p := false, 0;
    deleted, requests := [], [];
    while !complete && |deleted| < DeleteLimit && p < |pages|
      invariant 0 <= p <= |pages|
      invariant forall k :: 0 <= k < p - 1 ==> !pages[k].listComplete
      invariant complete <==> p > 0 && pages[p - 1].listComplete
      invariant deleted == Take(Names(KeysOf(pages[..p])), DeleteLimit)
      invariant !complete ==> cursor == if p == 0 then "" else NextCursor(pages[p - 1])
      invariant requests == Requests(Some(LegacyPrefix), Cursors(pages[..p]))
    {
      var data := pages[p];
      CleanupStep(pages, p, deleted, requests, cursor);
      requests := requests + [ListRequest(Some(LegacyPrefix), cursor)];
      // An empty page deletes nothing and only moves the cursor on.
      deleted := if |data.keys| == 0 then deleted else deleted + Names(Take(data.keys, DeleteLimit - |deleted|));
      complete := data.listComplete;
      cursor := if complete then cursor else NextCursor(data);
      p := p + 1;
    }
  }

  /** Where the cleanup stands when its loop ends: `deleted` already holds the first
      names of the whole listing, and any page left unread was not needed. */
  lemma CleanupStop(pages: seq<Page>, p: nat, complete: bool, deleted: seq<string>)
    requires p <= |pages|
    requires forall k :: 0 <= k < p - 1 ==> !pages[k].listComplete
    requires complete <==> p > 0 && pages[p - 1].listComplete
    requires deleted == Take(Names(KeysOf(pages[..p])), DeleteLimit)
    requires complete || |deleted| >= DeleteLimit || p == |pages|
    ensures deleted == Take(Names(KeysOf(ReadPages(pages))), DeleteLimit)
    ensures p <= |ReadPages(pages)| && ReadPages(pages)[..p] == pages[..p]
    ensures p < |ReadPages(pages)| ==> |deleted| == DeleteLimit
  {
    ReadPagesStop(pages, p, complete);
    if !complete && p < |pages| {
      var rest := ReadPages(pages[p..]);
      KeysOfAppend(pages[..p], rest);
      NamesAppend(KeysOf(pages[..p]), KeysOf(rest));
      TakeLonger(Names(KeysOf(pages[..p])), Names(KeysOf(rest)), DeleteLimit);
    }
  }

  /** One page of the cleanup: with fewer than the limit deleted so far, the page's
      first keys up to the allowance are deleted, which keeps `deleted` the first
      names listed (an empty page deletes nothing); the page's request carries the
      cursor the previous page handed out, and no page before it ended the listing. */
  lemma CleanupStep(pages: seq<Page>, p: nat, deleted: seq<string>, requests: seq<ListRequest>, cursor: string)
    requires p < |pages|
    requires deleted == Take(Names(KeysOf(pages[..p])), DeleteLimit) && |deleted| < DeleteLimit
    requires requests == Requests(Some(LegacyPrefix), Cursors(pages[..p]))
    requires forall k :: 0 <= k < p - 1 ==> !pages[k].listComplete
    requires p == 0 || !pages[p - 1].listComplete
    requires cursor == if p == 0 then "" else NextCursor(pages[p - 1])
    ensures var keys := pages[p].keys;
            (if |keys| == 0 then deleted else deleted + Names(Take(keys, DeleteLimit - |deleted|)))
            == Take(Names(KeysOf(pages[..p + 1])), DeleteLimit)
    ensures requests + [ListRequest(Some(LegacyPrefix), cursor)]
            == Requests(Some(LegacyPrefix), Cursors(pages[..p + 1]))
    ensures forall k :: 0 <= k < p ==> !pages[k].listComplete
  {
    var seen, keys := Names(KeysOf(pages[..p])), pages[p].keys;
    PageStep(pages, p);
    NamesAppend(KeysOf(pages[..p]), keys);
    TakeAppend(seen, Names(keys), DeleteLimit);
    assert Names(Take(keys, DeleteLimit - |deleted|)) == Take(Names(keys), DeleteLimit - |deleted|);
    if |keys| == 0 {
      assert seen + Names(keys) == seen;
    }
    var cs := Cursors(pages[..p + 1]);
    assert cs[..|cs| - 1] == Cursors(pages[..p]);
  }

  lemma NamesAppend(a: seq<KeyInfo>, b: seq<KeyInfo>)
    ensures Names(a + b) == Names(a) + Names(b)
  {
  }

  /** What is taken is a prefix: the cleanup deletes only names it listed, in order. */
  lemma TakeIsPrefix<T>(xs: seq<T>, n: nat)
    ensures Take(xs, n) <= xs
    ensures forall x :: x in Take(xs, n) ==> x in xs
  {
  }

  /** Taking from a longer run once `n` is already reached changes nothing. */
  lemma TakeLonger<T>(xs: seq<T>, ys: seq<T>, n: nat)
    requires |xs| >= n
    ensures Take(xs + ys, n) == Take(xs, n)
  {
    assert (xs + ys)[..n] == xs[..n];
  }

  /** Taking `n` from `xs + ys` when `xs` is short: all of `xs`, then what is left
      of the allowance from `ys`. */
  lemma TakeAppend<T>(xs: seq<T>, ys: seq<T>, n: nat)
    requires |xs| < n
    ensures Take(xs + ys, n) == xs + Take(ys, n - |xs|)
  {
    if |xs + ys| > n {
      assert (xs + ys)[..n] == xs + ys[..n - |xs|];
    }
  }
}
