/** The security middleware: a per-client request counter over a sliding
    window, kept in process memory, and the security headers added to every
    response that gets through.

    A client's counter is a list of buckets, one per second that saw a
    request, in the order they were created; the time is a parameter. The
    settings are read from the environment once, when the module loads.
 */
module RateLimit {
  import opened Wrappers
  import opened Strings
  import opened Paths

  /** The three settings. */
  datatype Config = Config(enabled: bool, window: int, maxRequests: int)

  /** Reads `RATE_LIMIT_ENABLED`, `RATE_LIMIT_WINDOW` and
      `RATE_LIMIT_MAX_REQUESTS`, each None when unset. Only `true`, in any
      letter case, enables the limiter; a number `int()` refuses makes loading
      fail (None). */
  function ReadConfig(enabledVar: Option<string>, windowVar: Option<string>, maxVar: Option<string>): (r: Option<Config>)
    ensures r.Some? <==> ParseInt(windowVar.GetOr("60")).Some? && ParseInt(maxVar.GetOr("100")).Some?
    ensures r.Some? ==> (r.value.enabled <==> Lower(enabledVar.GetOr("true")) == "true")
    ensures r.Some? ==> Some(r.value.window) == ParseInt(windowVar.GetOr("60"))
    ensures r.Some? ==> Some(r.value.maxRequests) == ParseInt(maxVar.GetOr("100"))
  {
    match ParseInt(windowVar.GetOr("60"))
    case None => None
    case Some(window) =>
      match ParseInt(maxVar.GetOr("100"))
      case None => None
      case Some(maxRequests) => Some(Config(Lower(enabledVar.GetOr("true")) == "true", window, maxRequests))
  }

  /** With nothing set, the limiter is on: 100 requests per 60 seconds. */
  lemma DefaultConfig()
    ensures ReadConfig(None, None, None) == Some(Config(true, 60, 100))
  {
    DefaultNumbers();
    LowerLiterals();
  }

  lemma LowerLiterals()
    ensures Lower("true") == "true" && Lower("TRUE") == "true" && Lower("yes") == "yes"
  {
    assert Lower("true") == "true";
    assert Lower("TRUE") == "true";
    assert Lower("yes") == "yes";
  }

  lemma DefaultNumbers()
    ensures ParseInt("60") == Some(60) && ParseInt("100") == Some(100)
  {
    ParseSixty();
    ParseHundred();
  }

  lemma ParseSixty()
    ensures ParseInt("60") == Some(60)
  {
    ParseNatToString(60);
    SixtyDigits();
  }

  lemma SixtyDigits()
    ensures NatToString(60) == "60"
  {
    assert NatToString(6) == "6";
  }

  lemma ParseHundred()
    ensures ParseInt("100") == Some(100)
  {
    ParseNatToString(100);
    HundredDigits();
  }

  lemma HundredDigits()
    ensures NatToString(100) == "100"
  {
    assert NatToString(10) == "10";
  }

  /** `TRUE` enables the limiter; `yes` disables it. */
  lemma EnabledOnlyByTrue()
    ensures ReadConfig(Some("TRUE"), None, None).Some? && ReadConfig(Some("TRUE"), None, None).value.enabled
    ensures ReadConfig(Some("yes"), None, None).Some? && !ReadConfig(Some("yes"), None, None).value.enabled
  {
    DefaultNumbers();
    LowerLiterals();
  }

  /** The requests a client made in one second. */
  datatype Bucket = Bucket(ts: int, count: int)

  /** Each client's buckets, keyed by client address. */
  type RateStore = map<string, seq<Bucket>>

  /** The buckets newer than `windowStart`, in order. */
  function Prune(bs: seq<Bucket>, windowStart: int): (r: seq<Bucket>)
    ensures forall i :: 0 <= i < |r| ==> r[i].ts > windowStart
    ensures forall b :: b in r <==> b in bs && b.ts > windowStart
    ensures |r| <= |bs|
  {
    if |bs| == 0 then []
    else if bs[0].ts > windowStart then [bs[0]] + Prune(bs[1..], windowStart)
    else Prune(bs[1..], windowStart)
  }

  /** The requests counted in a list of buckets. */
  function Total(bs: seq<Bucket>): int {
    if |bs| == 0 then 0 else bs[0].count + Total(bs[1..])
  }

  /** Every bucket holds at least one request. */
  predicate Positive(bs: seq<Bucket>) {
    forall i :: 0 <= i < |bs| ==> bs[i].count >= 1
  }

  /** `_is_rate_limited`: a client without buckets is never limited and
      nothing changes; otherwise its old buckets are dropped for good, and it
      is limited when the rest hold `maxRequests` or more. */
  function IsRateLimited(st: RateStore, client: string, now: int, cfg: Config): (r: (bool, RateStore))
    ensures client !in st ==> r == (false, st)
    ensures client in st ==> r.1 == st[client := Prune(st[client], now - cfg.window)]
    ensures client in st ==> (r.0 <==> Total(r.1[client]) >= cfg.maxRequests)
  {
    if client in st then
      var kept := Prune(st[client], now - cfg.window);
      (Total(kept) >= cfg.maxRequests, st[client := kept])
    else (false, st)
  }

  /** Counts one request at `now`: the bucket for `now` goes up by one, or a
      new bucket with one request is added at the end. */
  function Bump(bs: seq<Bucket>, now: int): (r: seq<Bucket>)
    ensures Total(r) == Total(bs) + 1
    ensures Positive(bs) ==> Positive(r)
    ensures forall b :: b in r ==> b in bs || b.ts == now
    decreases |bs|
  {
    if |bs| == 0 then [Bucket(now, 1)]
    else if bs[0].ts == now then [bs[0].(count := bs[0].count + 1)] + bs[1..]
    else
      var rest := Bump(bs[1..], now);
      assert Positive(bs) ==> Positive(bs[1..]);
      [bs[0]] + rest
  }

  /** `_update_rate_limit`: one more request for `client` at `now`; every
      other client is left alone. */
  function UpdateRateLimit(st: RateStore, client: string, now: int): (r: RateStore)
    ensures r.Keys == st.Keys + {client}
    ensures forall c :: c in st && c != client ==> r[c] == st[c]
    ensures Total(r[client]) == (if client in st then Total(st[client]) else 0) + 1
  {
    st[client := Bump(if client in st then st[client] else [], now)]
  }

  /** The limiter's answer: pass the request on, or refuse it. */
  datatype Decision = Forward | Refuse(code: int, detail: string, retryAfter: string)

  const LimitedDetail: string := "Too many requests. Please try again later."

  /** `dispatch`, up to the call of the next handler. `OPTIONS` requests and a
      disabled limiter skip the counter; a request without a client address
      counts for `unknown`. The check and the count read the clock separately,
      at `checkNow` and `countNow`. A refused request is not counted. */
  function Dispatch(st: RateStore, cfg: Config, client: Option<string>, httpMethod: string,
                    checkNow: int, countNow: int): (r: (Decision, RateStore))
    ensures !cfg.enabled || httpMethod == "OPTIONS" ==> r == (Forward, st)
    ensures cfg.enabled && httpMethod != "OPTIONS" ==>
      var ip := client.GetOr("unknown");
      var checked := IsRateLimited(st, ip, checkNow, cfg);
      (r.0.Refuse? <==> checked.0) &&
      (r.0.Refuse? ==> r == (Refuse(429, LimitedDetail, IntToString(cfg.window)), checked.1)) &&
      (r.0.Forward? ==> r.1 == UpdateRateLimit(checked.1, ip, countNow))
  {
    if cfg.enabled && httpMethod != "OPTIONS" then
      var ip := client.GetOr("unknown");
      var (limited, st') := IsRateLimited(st, ip, checkNow, cfg);
      if limited then (Refuse(429, LimitedDetail, IntToString(cfg.window)), st')
      else (Forward, UpdateRateLimit(st', ip, countNow))
    else (Forward, st)
  }

  /** The names of the four security headers, lower-cased as Starlette's
      `MutableHeaders` stores every name. */
  const SecurityHeaderNames: set<string> :=
    {"x-content-type-options", "x-frame-options", "content-security-policy", "strict-transport-security"}

  /** The headers set on every response the next handler returns. Header
      names are compared without regard to letter case: setting a header
      drops every existing spelling of its name and stores the lower-cased
      name. */
  function SecureHeaders(h: map<string, string>): (r: map<string, string>)
    ensures "x-content-type-options" in r && r["x-content-type-options"] == "nosniff"
    ensures "x-frame-options" in r && r["x-frame-options"] == "DENY"
    ensures "content-security-policy" in r && r["content-security-policy"] == "default-src 'self'"
    ensures "strict-transport-security" in r && r["strict-transport-security"] == "max-age=31536000; includeSubDomains"
    ensures forall k :: k in r && Lower(k) in SecurityHeaderNames ==> k in SecurityHeaderNames
    ensures forall k :: k in h && Lower(k) !in SecurityHeaderNames ==> k in r && r[k] == h[k]
    ensures forall k :: k in r ==> k in h || k in SecurityHeaderNames
  {
    var kept := map k | k in h && Lower(k) !in SecurityHeaderNames :: h[k];
    var r := kept["x-content-type-options" := "nosniff"]["x-frame-options" := "DENY"]
     ["content-security-policy" := "default-src 'self'"]
     ["strict-transport-security" := "max-age=31536000; includeSubDomains"];
    assert r.Keys == kept.Keys + SecurityHeaderNames;
    LowerSecurityNames();
    r
  }

  /** The security header names are already lower-case. */
  lemma LowerSecurityNames()
    ensures forall k :: k in SecurityHeaderNames ==> Lower(k) == k
  {
    LowerContentTypeOptions();
    LowerFrameOptions();
    LowerContentSecurityPolicy();
    LowerTransportSecurity();
  }

  lemma LowerContentTypeOptions()
    ensures Lower("x-content-type-options") == "x-content-type-options"
  {
  }

  lemma LowerFrameOptions()
    ensures Lower("x-frame-options") == "x-frame-options"
  {
  }

  lemma LowerContentSecurityPolicy()
    ensures Lower("content-security-policy") == "content-security-policy"
  {
  }

  lemma LowerTransportSecurity()
    ensures Lower("strict-transport-security") == "strict-transport-security"
  {
  }

  /** Whatever spelling a response already used for a security header, the
      secured response carries that header once, with the fixed value. */
  lemma SecureHeadersReplaceAnySpelling(h: map<string, string>, k: string)
    requires k in h && Lower(k) == "x-frame-options"
    ensures var r := SecureHeaders(h);
      forall j :: j in r && Lower(j) == Lower(k) ==> j == "x-frame-options" && r[j] == "DENY"
  {
  }

  /** Securing a response twice is securing it once. */
  lemma SecureHeadersIdempotent(h: map<string, string>)
    ensures SecureHeaders(SecureHeaders(h)) == SecureHeaders(h)
  {
    var r := SecureHeaders(h);
    var rr := SecureHeaders(r);
    assert rr.Keys == r.Keys;
  }

  /** A refused request leaves the client's pruned buckets, at or over the limit. */
  lemma RefusedNotCounted(st: RateStore, cfg: Config, client: Option<string>, httpMethod: string, checkNow: int, countNow: int)
    requires Dispatch(st, cfg, client, httpMethod, checkNow, countNow).0.Refuse?
    ensures var ip := client.GetOr("unknown");
      var t := Dispatch(st, cfg, client, httpMethod, checkNow, countNow).1;
      ip in st && t == st[ip := Prune(st[ip], checkNow - cfg.window)] && Total(t[ip]) >= cfg.maxRequests
  {
  }

  /** A client the limiter has not seen always gets through, whatever the limit. */
  lemma FirstRequestPasses(st: RateStore, cfg: Config, client: string, httpMethod: string, checkNow: int, countNow: int)
    requires client !in st
    ensures var r := Dispatch(st, cfg, Some(client), httpMethod, checkNow, countNow);
      r.0 == Forward && (cfg.enabled && httpMethod != "OPTIONS" ==> r.1 == st[client := [Bucket(countNow, 1)]])
  {
  }

  // ---------------------------------------------------------------------------
  // The window bound. One client's buckets, seen as the list of the request
  // times they count, always account for exactly the requests let through
  // since the last window start; so at most `maxRequests` requests of a
  // client get through in any window that ends at one of them.

  /** `n` copies of `ts`. */
  function Repeat(ts: int, n: int): (r: seq<int>)
    ensures |r| == (if n > 0 then n else 0)
    ensures forall i :: 0 <= i < |r| ==> r[i] == ts
    decreases n
  {
    if n <= 0 then [] else [ts] + Repeat(ts, n - 1)
  }

  /** The request times a list of buckets counts. */
  function Expand(bs: seq<Bucket>): seq<int> {
    if |bs| == 0 then [] else Repeat(bs[0].ts, bs[0].count) + Expand(bs[1..])
  }

  /** The times later than `w`, in order. */
  function Above(s: seq<int>, w: int): (r: seq<int>)
    ensures |r| <= |s|
    ensures forall i :: 0 <= i < |r| ==> r[i] > w
  {
    if |s| == 0 then [] else (if s[0] > w then [s[0]] else []) + Above(s[1..], w)
  }

  lemma {:induction false} ExpandLength(bs: seq<Bucket>)
    requires Positive(bs)
    ensures |Expand(bs)| == Total(bs)
    decreases |bs|
  {
    if |bs| > 0 {
      ExpandLength(bs[1..]);
    }
  }

  lemma {:induction false} AboveAppend(a: seq<int>, b: seq<int>, w: int)
    ensures Above(a + b, w) == Above(a, w) + Above(b, w)
    decreases |a|
  {
    if |a| == 0 {
      assert a + b == b;
    } else {
      assert (a + b)[0] == a[0];
      assert (a + b)[1..] == a[1..] + b;
      AboveAppend(a[1..], b, w);
    }
  }

  lemma {:induction false} AboveRepeat(ts: int, n: int, w: int)
    ensures Above(Repeat(ts, n), w) == (if ts > w then Repeat(ts, n) else [])
    decreases n
  {
    if n > 0 {
      var s := Repeat(ts, n);
      assert s[0] == ts && s[1..] == Repeat(ts, n - 1);
      AboveRepeat(ts, n - 1, w);
    }
  }

  /** Pruning buckets drops exactly the request times up to the window start. */
  lemma {:induction false} ExpandPrune(bs: seq<Bucket>, w: int)
    ensures Expand(Prune(bs, w)) == Above(Expand(bs), w)
    decreases |bs|
  {
    if |bs| > 0 {
      ExpandPrune(bs[1..], w);
      AboveAppend(Repeat(bs[0].ts, bs[0].count), Expand(bs[1..]), w);
      AboveRepeat(bs[0].ts, bs[0].count, w);
      if bs[0].ts > w {
        assert ([bs[0]] + Prune(bs[1..], w))[1..] == Prune(bs[1..], w);
      }
    }
  }

  /** Counting one request adds its time once. */
  lemma {:induction false} ExpandBump(bs: seq<Bucket>, now: int)
    requires Positive(bs)
    ensures multiset(Expand(Bump(bs, now))) == multiset(Expand(bs)) + multiset{now}
    decreases |bs|
  {
    if |bs| == 0 {
      assert Expand([Bucket(now, 1)]) == [now];
    } else if bs[0].ts == now {
      var b := bs[0].(count := bs[0].count + 1);
      assert ([b] + bs[1..])[1..] == bs[1..];
      assert Repeat(now, b.count) == [now] + Repeat(now, bs[0].count);
    } else {
      ExpandBump(bs[1..], now);
      assert ([bs[0]] + Bump(bs[1..], now))[1..] == Bump(bs[1..], now);
    }
  }

  /** How often `x` occurs among the times later than `w`. */
  lemma {:induction false} AboveCount(s: seq<int>, w: int, x: int)
    ensures multiset(Above(s, w))[x] == (if x > w then multiset(s)[x] else 0)
    decreases |s|
  {
    if |s| > 0 {
      assert s == [s[0]] + s[1..];
      AboveCount(s[1..], w, x);
    }
  }

  /** Narrowing a window that already dropped everything up to `p` to one
      starting at `w >= p`. */
  lemma AboveAbove(s: seq<int>, p: int, w: int)
    requires p <= w
    ensures multiset(Above(Above(s, p), w)) == multiset(Above(s, w))
  {
    forall x ensures multiset(Above(Above(s, p), w))[x] == multiset(Above(s, w))[x] {
      AboveCount(Above(s, p), w, x);
      AboveCount(s, p, x);
      AboveCount(s, w, x);
    }
  }

  /** One client's buckets count exactly the let-through requests `passed`
      later than `p`. */
  predicate Accounts(bs: seq<Bucket>, passed: seq<int>, p: int) {
    Positive(bs) && multiset(Expand(bs)) == multiset(Above(passed, p))
  }

  /** One request of a client the limiter has seen (`Some`) or not (`None`),
      with the check and the count at the same instant `now` and the window
      starting at `windowStart`: whether it gets through, and the client's
      buckets afterwards. */
  function ClientStep(e: Option<seq<Bucket>>, now: int, windowStart: int, maxRequests: int): (bool, seq<Bucket>)
  {
    match e
    case None => (true, [Bucket(now, 1)])
    case Some(bs) =>
      var kept := Prune(bs, windowStart);
      if Total(kept) >= maxRequests then (false, kept) else (true, Bump(kept, now))
  }

  /** The client's buckets in the store, if it has any. */
  function Buckets(st: RateStore, client: string): Option<seq<Bucket>> {
    if client in st then Some(st[client]) else None
  }

  /** With the limiter on and one clock reading, the middleware acts on the
      requesting client exactly as `ClientStep` does, and on no other. */
  lemma DispatchIsClientStep(st: RateStore, cfg: Config, client: Option<string>, httpMethod: string, now: int)
    requires cfg.enabled && httpMethod != "OPTIONS"
    ensures var ip := client.GetOr("unknown");
      var r := Dispatch(st, cfg, client, httpMethod, now, now);
      var c := ClientStep(Buckets(st, ip), now, now - cfg.window, cfg.maxRequests);
      (r.0.Forward? <==> c.0) && r.1 == st[ip := c.1]
  {
    var ip := client.GetOr("unknown");
    var w := now - cfg.window;
    var d := Dispatch(st, cfg, client, httpMethod, now, now);
    var checked := IsRateLimited(st, ip, now, cfg);
    assert (d.0.Refuse? <==> checked.0) && (d.0.Refuse? ==> d.1 == checked.1) &&
      (d.0.Forward? ==> d.1 == UpdateRateLimit(checked.1, ip, now));
    if ip in st {
      CheckSeen(st, ip, now, w, cfg);
    } else {
      assert checked == (false, st);
      assert UpdateRateLimit(st, ip, now) == st[ip := [Bucket(now, 1)]];
    }
  }

  /** The check and the count of a seen client, as one step. */
  lemma CheckSeen(st: RateStore, ip: string, now: int, w: int, cfg: Config)
    requires ip in st && w == now - cfg.window
    ensures var checked := IsRateLimited(st, ip, now, cfg);
      var c := ClientStep(Some(st[ip]), now, w, cfg.maxRequests);
      (checked.0 <==> !c.0) && (checked.0 ==> checked.1 == st[ip := c.1]) &&
      (!checked.0 ==> UpdateRateLimit(checked.1, ip, now) == st[ip := c.1])
  {
    var kept := Prune(st[ip], w);
    assert IsRateLimited(st, ip, now, cfg) == (Total(kept) >= cfg.maxRequests, st[ip := kept]);
    SeenStep(st[ip], now, w, cfg.maxRequests);
    if Total(kept) < cfg.maxRequests {
      assert UpdateRateLimit(st[ip := kept], ip, now) == st[ip := Bump(kept, now)];
    }
  }

  /** The step of a client the limiter has seen, unfolded. */
  lemma SeenStep(bs: seq<Bucket>, now: int, w: int, m: int)
    ensures ClientStep(Some(bs), now, w, m) ==
      if Total(Prune(bs, w)) >= m then (false, Prune(bs, w)) else (true, Bump(Prune(bs, w), now))
  {
  }

  /** Pruning at a later window start keeps the buckets accounting for the
      requests let through, and their total is the number of those requests
      in the window. */
  lemma PruneAccounts(bs: seq<Bucket>, passed: seq<int>, p: int, w: int)
    requires Accounts(bs, passed, p) && p <= w
    ensures Accounts(Prune(bs, w), passed, w)
    ensures Total(Prune(bs, w)) == |Above(passed, w)|
  {
    var kept := Prune(bs, w);
    PruneMultiset(bs, passed, p, w);
    PrunePositive(bs, w);
    ExpandLength(kept);
    assert |multiset(Expand(kept))| == |multiset(Above(passed, w))|;
  }

  lemma PruneMultiset(bs: seq<Bucket>, passed: seq<int>, p: int, w: int)
    requires multiset(Expand(bs)) == multiset(Above(passed, p)) && p <= w
    ensures multiset(Expand(Prune(bs, w))) == multiset(Above(passed, w))
  {
    var kept := Prune(bs, w);
    ExpandPrune(bs, w);
    forall x ensures multiset(Expand(kept))[x] == multiset(Above(passed, w))[x] {
      AboveCount(Expand(bs), w, x);
      AboveCount(passed, p, x);
      AboveCount(passed, w, x);
    }
  }

  lemma PrunePositive(bs: seq<Bucket>, w: int)
    requires Positive(bs)
    ensures Positive(Prune(bs, w))
  {
    var kept := Prune(bs, w);
    forall i | 0 <= i < |kept| ensures kept[i].count >= 1 {
      assert kept[i] in bs;
    }
  }

  /** Counting a request inside the window accounts for it. */
  lemma BumpAccounts(bs: seq<Bucket>, passed: seq<int>, w: int, now: int)
    requires Accounts(bs, passed, w) && now > w
    ensures Accounts(Bump(bs, now), passed + [now], w)
  {
    ExpandBump(bs, now);
    AboveAppend(passed, [now], w);
    assert Above([now], w) == [now];
  }

  /** A step keeps the buckets accounting for the requests let through, now
      from the new window start; a request let through had fewer than
      `maxRequests` others in its window. */
  lemma StepAccounts(e: Option<seq<Bucket>>, passed: seq<int>, p: int, now: int, w: int, m: int)
    requires w < now
    requires e.None? ==> passed == []
    requires e.Some? ==> Accounts(e.value, passed, p) && p <= w
    ensures var r := ClientStep(e, now, w, m);
      Accounts(r.1, if r.0 then passed + [now] else passed, w) &&
      (e.Some? ==> (r.0 <==> |Above(passed, w)| < m))
  {
    if e.None? {
      assert passed + [now] == [now];
      FirstBucketAccounts(now, w);
    } else {
      var kept := Prune(e.value, w);
      PruneAccounts(e.value, passed, p, w);
      if Total(kept) < m {
        BumpAccounts(kept, passed, w, now);
      }
    }
  }

  lemma FirstBucketAccounts(now: int, w: int)
    requires now > w
    ensures Accounts([Bucket(now, 1)], [now], w)
  {
    assert Repeat(now, 1) == [now];
    assert Expand([Bucket(now, 1)]) == [now];
    assert Above([now], w) == [now];
  }

  predicate Sorted(times: seq<int>) {
    forall i, j :: 0 <= i <= j < |times| ==> times[i] <= times[j]
  }

  /** At most `maxRequests` of the times in `passed` lie in the window of
      `window` seconds that ends at any one of them, counting only that one
      and the earlier ones. */
  predicate WithinLimit(passed: seq<int>, window: int, maxRequests: int) {
    forall k :: 0 <= k < |passed| ==> Recent(passed, k, window) <= maxRequests
  }

  /** How many of the first `k + 1` times lie in the window ending at the `k`-th. */
  function Recent(passed: seq<int>, k: int, window: int): nat
    requires 0 <= k < |passed|
  {
    |Above(passed[..k + 1], passed[k] - window)|
  }

  /** Replays one client's requests, at the given times in time order,
      against the limiter with the given window and limit (the check and the
      count at the same instant): the times of the requests let through and
      the client's buckets afterwards. Every request let through had at most
      `maxRequests` requests let through, itself included, in the window
      ending at it; a first request always gets through, so this needs
      `maxRequests >= 1`. */
  method Replay(times: seq<int>, window: int, maxRequests: int)
    returns (passed: seq<int>, verdicts: seq<bool>, buckets: Option<seq<Bucket>>)
    requires Sorted(times) && window > 0 && maxRequests >= 1
    ensures WithinLimit(passed, window, maxRequests)
    ensures |passed| <= |times| && (|times| > 0 ==> |passed| > 0)
    ensures |verdicts| == |times| && passed == Select(times, verdicts)
    ensures |times| > 0 ==> verdicts[0]
    ensures forall i :: 0 < i < |times| ==>
      (verdicts[i] <==> |Above(Select(times[..i], verdicts[..i]), times[i] - window)| < maxRequests)
    ensures |times| > 0 ==> buckets.Some? && Accounts(buckets.value, passed, times[|times| - 1] - window)
  {
    passed := [];
    verdicts := [];
    buckets := None;
    var start := 0;
    var i := 0;
    while i < |times|
      invariant 0 <= i <= |times|
      invariant Replayed(times, i, window, maxRequests, passed, verdicts, buckets, start)
      invariant Verdicts(times, verdicts, window, maxRequests)
    {
      if i > 0 {
        assert times[i - 1] <= times[i];
      }
      passed, verdicts, buckets, start := Advance(times, i, window, maxRequests, passed, verdicts, buckets, start);
      i := i + 1;
    }
    ReplayedLimit(times, window, maxRequests, passed, verdicts, buckets, start);
    ReplayedSizes(times, window, maxRequests, passed, verdicts, buckets, start);
    ReplayedSelect(times, window, maxRequests, passed, verdicts, buckets, start);
    ReplayedAccounts(times, window, maxRequests, passed, verdicts, buckets, start);
    ReplayedVerdicts(times, window, maxRequests, passed, verdicts, buckets, start);
  }

  lemma ReplayedVerdicts(times: seq<int>, window: int, maxRequests: int,
                    passed: seq<int>, verdicts: seq<bool>, buckets: Option<seq<Bucket>>, start: int)
    requires Replayed(times, |times|, window, maxRequests, passed, verdicts, buckets, start)
    requires Verdicts(times, verdicts, window, maxRequests)
    ensures forall i :: 0 < i < |times| ==>
      (verdicts[i] <==> |Above(Select(times[..i], verdicts[..i]), times[i] - window)| < maxRequests)
  {
    forall i | 0 < i < |times|
      ensures verdicts[i] <==> |Above(Select(times[..i], verdicts[..i]), times[i] - window)| < maxRequests
    {
      assert Verdict(times, verdicts, i, window, maxRequests);
    }
  }

  /** Request `i` got through exactly when fewer than `maxRequests` of the
      earlier requests let through lie in its window. */
  predicate Verdict(times: seq<int>, verdicts: seq<bool>, i: nat, window: int, maxRequests: int)
    requires i < |verdicts| <= |times|
  {
    verdicts[i] <==> |Above(Select(times[..i], verdicts[..i]), times[i] - window)| < maxRequests
  }

  /** Every verdict after the first is the limiter's decision. */
  predicate Verdicts(times: seq<int>, verdicts: seq<bool>, window: int, maxRequests: int)
    requires |verdicts| <= |times|
  {
    forall i :: 0 < i < |verdicts| ==> Verdict(times, verdicts, i, window, maxRequests)
  }

  /** The verdict of request `i` extends the verdicts so far. */
  lemma AdvanceVerdicts(times: seq<int>, i: nat, window: int, maxRequests: int,
                        passed: seq<int>, verdicts: seq<bool>, buckets: Option<seq<Bucket>>, start: int, w: int, ok: bool)
    requires i < |times| && Replayed(times, i, window, maxRequests, passed, verdicts, buckets, start)
    requires Verdicts(times, verdicts, window, maxRequests)
    requires w == times[i] - window
    requires buckets.Some? ==> (ok <==> |Above(passed, w)| < maxRequests)
    ensures Verdicts(times, verdicts + [ok], window, maxRequests)
  {
    VerdictsExtend(times, verdicts, ok, window, maxRequests);
  }

  /** A new verdict that is the limiter's decision keeps the earlier ones. */
  lemma VerdictsExtend(times: seq<int>, verdicts: seq<bool>, v: bool, window: int, maxRequests: int)
    requires |verdicts| < |times| && Verdicts(times, verdicts, window, maxRequests)
    requires |verdicts| > 0 ==>
      (v <==> |Above(Select(times[..|verdicts|], verdicts), times[|verdicts|] - window)| < maxRequests)
    ensures Verdicts(times, verdicts + [v], window, maxRequests)
  {
    var vs := verdicts + [v];
    forall i | 0 < i < |vs| ensures Verdict(times, vs, i, window, maxRequests) {
      assert vs[..i] == if i < |verdicts| then verdicts[..i] else verdicts;
      if i < |verdicts| {
        assert Verdict(times, verdicts, i, window, maxRequests);
      }
    }
  }

  lemma ReplayedLimit(times: seq<int>, window: int, maxRequests: int,
                    passed: seq<int>, verdicts: seq<bool>, buckets: Option<seq<Bucket>>, start: int)
    requires Replayed(times, |times|, window, maxRequests, passed, verdicts, buckets, start)
    ensures WithinLimit(passed, window, maxRequests)
  {
  }

  lemma ReplayedSizes(times: seq<int>, window: int, maxRequests: int,
                    passed: seq<int>, verdicts: seq<bool>, buckets: Option<seq<Bucket>>, start: int)
    requires Replayed(times, |times|, window, maxRequests, passed, verdicts, buckets, start)
    ensures |passed| <= |times| && (|times| > 0 ==> |passed| > 0)
    ensures |times| > 0 ==> verdicts[0]
  {
  }

  lemma ReplayedSelect(times: seq<int>, window: int, maxRequests: int,
                    passed: seq<int>, verdicts: seq<bool>, buckets: Option<seq<Bucket>>, start: int)
    requires Replayed(times, |times|, window, maxRequests, passed, verdicts, buckets, start)
    ensures |verdicts| == |times| && passed == Select(times, verdicts)
  {
    SelectWhole(times, verdicts);
  }

  lemma ReplayedAccounts(times: seq<int>, window: int, maxRequests: int,
                    passed: seq<int>, verdicts: seq<bool>, buckets: Option<seq<Bucket>>, start: int)
    requires Replayed(times, |times|, window, maxRequests, passed, verdicts, buckets, start)
    ensures |times| > 0 ==> buckets.Some? && Accounts(buckets.value, passed, times[|times| - 1] - window)
  {
  }

  lemma SelectWhole(ts: seq<int>, vs: seq<bool>)
    requires |vs| == |ts|
    ensures Select(ts[..|ts|], vs) == Select(ts, vs)
  {
    assert ts[..|ts|] == ts;
  }

  /** What the replay keeps after the first `i` requests. */
  predicate Replayed(times: seq<int>, i: nat, window: int, maxRequests: int,
                     passed: seq<int>, verdicts: seq<bool>, buckets: Option<seq<Bucket>>, start: int)
    requires i <= |times|
  {
    && (i == 0 <==> buckets.None?)
    && |passed| <= i && (i > 0 ==> |passed| > 0)
    && WithinLimit(passed, window, maxRequests)
    && |verdicts| == i && passed == Select(times[..i], verdicts)
    && (i > 0 ==> verdicts[0])
    && (i > 0 ==> start == times[i - 1] - window && Accounts(buckets.value, passed, start))
  }

  /** The replay of request `i`. */
  method Advance(times: seq<int>, i: nat, window: int, maxRequests: int,
                 passed: seq<int>, verdicts: seq<bool>, buckets: Option<seq<Bucket>>, start: int)
    returns (passed': seq<int>, verdicts': seq<bool>, buckets': Option<seq<Bucket>>, start': int)
    requires window > 0 && maxRequests >= 1 && i < |times|
    requires i > 0 ==> times[i - 1] <= times[i]
    requires Replayed(times, i, window, maxRequests, passed, verdicts, buckets, start)
    requires Verdicts(times, verdicts, window, maxRequests)
    ensures Replayed(times, i + 1, window, maxRequests, passed', verdicts', buckets', start')
    ensures Verdicts(times, verdicts', window, maxRequests)
  {
    var now := times[i];
    var w := now - window;
    var ok, next;
    ok, passed', next := Admit(buckets, passed, start, now, w, window, maxRequests);
    AdvanceVerdicts(times, i, window, maxRequests, passed, verdicts, buckets, start, w, ok);
    ReplayedNext(times, i, window, maxRequests, passed, verdicts, buckets, start, w, ok, passed', next);
    verdicts' := verdicts + [ok];
    buckets' := Some(next);
    start' := w;
  }

  /** The replay's state after request `i`, from the step's outcome. */
  lemma ReplayedNext(times: seq<int>, i: nat, window: int, maxRequests: int,
                     passed: seq<int>, verdicts: seq<bool>, buckets: Option<seq<Bucket>>, start: int,
                     w: int, ok: bool, passed': seq<int>, next: seq<Bucket>)
    requires i < |times| && Replayed(times, i, window, maxRequests, passed, verdicts, buckets, start)
    requires w == times[i] - window
    requires buckets.None? ==> ok
    requires passed' == if ok then passed + [times[i]] else passed
    requires WithinLimit(passed', window, maxRequests)
    requires Accounts(next, passed', w)
    ensures Replayed(times, i + 1, window, maxRequests, passed', verdicts + [ok], Some(next), w)
  {
    SelectNext(times, i, verdicts, ok);
  }

  /** The times whose verdict is true, in order. */
  function Select(ts: seq<int>, vs: seq<bool>): (r: seq<int>)
    requires |vs| == |ts|
    ensures |r| <= |ts|
  {
    if |ts| == 0 then []
    else Select(ts[..|ts| - 1], vs[..|vs| - 1]) + (if vs[|vs| - 1] then [ts[|ts| - 1]] else [])
  }

  lemma SelectNext(ts: seq<int>, i: nat, vs: seq<bool>, v: bool)
    requires i < |ts| && |vs| == i
    ensures Select(ts[..i + 1], vs + [v]) == Select(ts[..i], vs) + (if v then [ts[i]] else [])
  {
    assert ts[..i + 1] == ts[..i] + [ts[i]];
    SelectAppend(ts[..i], vs, ts[i], v);
  }

  lemma SelectAppend(ts: seq<int>, vs: seq<bool>, t: int, v: bool)
    requires |vs| == |ts|
    ensures Select(ts + [t], vs + [v]) == Select(ts, vs) + (if v then [t] else [])
  {
    assert (ts + [t])[..|ts|] == ts;
    assert (vs + [v])[..|vs|] == vs;
  }

  /** Everything selected is one of the times. */
  lemma {:induction false} SelectFrom(ts: seq<int>, vs: seq<bool>)
    requires |vs| == |ts|
    ensures forall x :: x in Select(ts, vs) ==> x in ts
  {
    if |ts| > 0 {
      SelectFrom(ts[..|ts| - 1], vs[..|vs| - 1]);
      assert forall x :: x in ts[..|ts| - 1] ==> x in ts;
    }
  }

  /** One request of the replay: the limiter's step, and the requests let
      through so far, which keep within the limit. */
  method Admit(e: Option<seq<Bucket>>, passed: seq<int>, p: int, now: int, w: int, window: int, m: int)
    returns (ok: bool, passedNext: seq<int>, next: seq<Bucket>)
    requires window > 0 && m >= 1 && w == now - window
    requires WithinLimit(passed, window, m)
    requires e.None? ==> passed == []
    requires e.Some? ==> Accounts(e.value, passed, p) && p <= w
    ensures (ok, next) == ClientStep(e, now, w, m)
    ensures e.None? ==> ok
    ensures e.Some? ==> (ok <==> |Above(passed, w)| < m)
    ensures passedNext == if ok then passed + [now] else passed
    ensures WithinLimit(passedNext, window, m)
    ensures Accounts(next, passedNext, w)
  {
    ok, next := Count(e, passed, p, now, w, m);
    if ok {
      PassedWithinLimit(passed, now, w, window, m, e.Some?);
      passedNext := passed + [now];
    } else {
      passedNext := passed;
    }
  }

  /** One request of the replay: the limiter's step, with the accounting
      carried from the previous window start `p` to this request's, `w`. */
  method Count(e: Option<seq<Bucket>>, passed: seq<int>, p: int, now: int, w: int, m: int) returns (ok: bool, next: seq<Bucket>)
    requires w < now
    requires e.None? ==> passed == []
    requires e.Some? ==> Accounts(e.value, passed, p) && p <= w
    ensures (ok, next) == ClientStep(e, now, w, m)
    ensures ok ==> Accounts(next, passed + [now], w)
    ensures !ok ==> Accounts(next, passed, w)
    ensures e.Some? ==> (ok <==> |Above(passed, w)| < m)
  {
    StepAccounts(e, passed, p, now, w, m);
    var c := ClientStep(e, now, w, m);
    ok, next := c.0, c.1;
  }

  /** Letting through a request that had fewer than `maxRequests` others in
      its window keeps the limit. */
  lemma PassedWithinLimit(passed: seq<int>, now: int, w: int, window: int, maxRequests: int, seen: bool)
    requires WithinLimit(passed, window, maxRequests) && window > 0 && maxRequests >= 1
    requires w == now - window
    requires seen ==> |Above(passed, w)| < maxRequests
    requires !seen ==> passed == []
    ensures WithinLimit(passed + [now], window, maxRequests)
  {
    var q := passed + [now];
    forall k | 0 <= k < |q|
      ensures Recent(q, k, window) <= maxRequests
    {
      if k < |passed| {
        EarlierWithinLimit(passed, now, k, window, maxRequests);
      } else {
        assert q[k] == now;
        assert q[..k + 1] == q;
        LastWithinLimit(passed, now, w, maxRequests, seen);
      }
    }
  }

  /** Letting a request through does not change the windows of the earlier ones. */
  lemma EarlierWithinLimit(passed: seq<int>, now: int, k: int, window: int, maxRequests: int)
    requires 0 <= k < |passed|
    ensures Recent(passed + [now], k, window) == Recent(passed, k, window)
  {
    var q := passed + [now];
    assert q[k] == passed[k];
    assert q[..k + 1] == passed[..k + 1];
  }

  /** The request let through is in its own window, with fewer than
      `maxRequests` others. */
  lemma LastWithinLimit(passed: seq<int>, now: int, w: int, maxRequests: int, seen: bool)
    requires w < now && maxRequests >= 1
    requires seen ==> |Above(passed, w)| < maxRequests
    requires !seen ==> passed == []
    ensures |Above(passed + [now], w)| <= maxRequests
  {
    AboveAppend(passed, [now], w);
    assert Above([now], w) == [now];
  }
}
