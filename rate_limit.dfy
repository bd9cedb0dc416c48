/**
 * The rate limiting of the blog API (src/lib/rateLimit.ts): the in-memory
 * sliding-window limiter, the registry that hands out one limiter per
 * configuration, the client identifier taken from the proxy headers, and
 * the 429 answer of section 4 of RFC 6585 with its `Retry-After` header.
 * The clock is a parameter, and so is the 1% draw that decides whether a
 * call also cleans the store.
 */
module RateLimit {
  import opened Text

  /* ---------------------------------------------------------------------- */
  /* Decimal numerals                                                        */
  /* ---------------------------------------------------------------------- */

  predicate IsDigit(c: char) {
    '0' <= c <= '9'
  }

  function DigitChar(d: nat): (c: char)
    requires d < 10
    ensures IsDigit(c) && c as int - '0' as int == d
  {
    ('0' as int + d) as char
  }

  /** `String(n)` for a whole number: its decimal digits, without leading
      zeros. */
  function NatToString(n: nat): (r: String)
    ensures r != [] && forall i :: 0 <= i < |r| ==> IsDigit(r[i])
  {
    if n < 10 then [DigitChar(n)] else NatToString(n / 10) + [DigitChar(n % 10)]
  }

  function DigitValue(c: char): nat
    requires IsDigit(c)
  {
    c as int - '0' as int
  }

  /** The number a string of decimal digits denotes. */
  function DecimalValue(s: String): nat
    requires forall i :: 0 <= i < |s| ==> IsDigit(s[i])
  {
    if s == [] then 0
    else DecimalValue(s[..|s| - 1]) * 10 + DigitValue(s[|s| - 1])
  }

  /** The numeral reads back as the number it was written from. */
  lemma {:induction false} NatToStringValue(n: nat)
    ensures DecimalValue(NatToString(n)) == n
  {
    if n >= 10 {
      NatToStringValue(n / 10);
      var r := NatToString(n);
      assert r[..|r| - 1] == NatToString(n / 10);
    }
  }

  /* ---------------------------------------------------------------------- */
  /* The window                                                              */
  /* ---------------------------------------------------------------------- */

  /** `timestamps.filter(t => t > windowStart)`. */
  function Recent(ts: seq<int>, windowStart: int): (r: seq<int>)
    ensures |r| <= |ts|
  {
    if ts == [] then []
    else if ts[0] > windowStart then [ts[0]] + Recent(ts[1..], windowStart)
    else Recent(ts[1..], windowStart)
  }

  /** The filter keeps exactly the timestamps inside the window. */
  lemma {:induction false} RecentMembers(ts: seq<int>, windowStart: int)
    ensures forall x :: x in Recent(ts, windowStart) <==> x in ts && x > windowStart
  {
    if ts != [] {
      RecentMembers(ts[1..], windowStart);
      assert ts == [ts[0]] + ts[1..];
    }
  }

  /** Filtering with a window and then with a later one is filtering with
      the later one. */
  lemma {:induction false} RecentCompose(ts: seq<int>, a: int, b: int)
    requires a <= b
    ensures Recent(Recent(ts, a), b) == Recent(ts, b)
  {
    if ts != [] {
      RecentCompose(ts[1..], a, b);
      if ts[0] > a {
        assert Recent(ts, a) == [ts[0]] + Recent(ts[1..], a);
        assert Recent(ts, a)[1..] == Recent(ts[1..], a);
      }
    }
  }

  /** The timestamps stored for an identifier, `[]` when it has none. */
  function Lookup(m: map<String, seq<int>>, id: String): seq<int> {
    if id in m then m[id] else []
  }

  /** The store after `cleanup`: every list filtered, and the identifiers
      left with nothing dropped. */
  function Cleaned(m: map<String, seq<int>>, windowStart: int): (r: map<String, seq<int>>)
    ensures forall id :: id in r ==> id in m && r[id] != []
  {
    map id | id in m && Recent(m[id], windowStart) != [] :: Recent(m[id], windowStart)
  }

  /** Where a cleanup stands with `pending` still to visit: the entries
      visited are cleaned, the others are as they were. */
  ghost predicate CleanedExcept(m: map<String, seq<int>>, original: map<String, seq<int>>, windowStart: int,
                                pending: set<String>)
  {
    (forall id :: id in m ==> id in original)
    && (forall id :: id in pending ==> id in m && m[id] == original[id])
    && (forall id :: id in original && id !in pending ==> (id in m <==> Recent(original[id], windowStart) != []))
    && (forall id :: id in m && id !in pending ==> m[id] == Recent(original[id], windowStart))
  }

  /** Visiting one pending entry: drop it when nothing of it is left in the
      window, otherwise keep what is. */
  lemma CleanedExceptStep(m: map<String, seq<int>>, original: map<String, seq<int>>, windowStart: int,
                          pending: set<String>, id: String)
    requires CleanedExcept(m, original, windowStart, pending) && id in pending
    ensures id in m
    ensures var recent := Recent(m[id], windowStart);
            CleanedExcept(if recent == [] then m - {id} else m[id := recent], original, windowStart, pending - {id})
  {
  }

  lemma CleanedExceptDone(m: map<String, seq<int>>, original: map<String, seq<int>>, windowStart: int)
    requires CleanedExcept(m, original, windowStart, {})
    ensures m == Cleaned(original, windowStart)
  {
    assert m.Keys == Cleaned(original, windowStart).Keys;
  }

  /** Cleaning keeps every list within a bound it was within. */
  lemma CleanedBound(m: map<String, seq<int>>, windowStart: int, bound: int)
    ensures (forall id :: id in m ==> |m[id]| <= bound)
            ==> forall id :: id in Cleaned(m, windowStart) ==> |Cleaned(m, windowStart)[id]| <= bound
  {
  }

  /** A cleanup at one time leaves every window that starts no earlier
      exactly as it was: under a clock that does not go back, cleaning never
      changes a later decision. */
  lemma CleanupKeepsDecisions(m: map<String, seq<int>>, windowMs: int, cleanedAt: int, later: int, id: String)
    requires cleanedAt <= later
    ensures Recent(Lookup(Cleaned(m, cleanedAt - windowMs), id), later - windowMs)
            == Recent(Lookup(m, id), later - windowMs)
  {
    if id in m {
      RecentCompose(m[id], cleanedAt - windowMs, later - windowMs);
    }
  }

  /* ---------------------------------------------------------------------- */
  /* The limiter                                                             */
  /* ---------------------------------------------------------------------- */

  /** What `limit` decides for `id` at `now`, given the stored requests:
      whether it is admitted, how many requests are left, and the requests
      afterwards. */
  function Decision(requests: map<String, seq<int>>, maxRequests: int, windowMs: int, id: String, now: int,
                    cleanupRuns: bool, cleanupNow: int): (bool, int, map<String, seq<int>>)
  {
    var recent := Recent(Lookup(requests, id), now - windowMs);
    if |recent| >= maxRequests then (false, 0, requests)
    else
      var written := requests[id := recent + [now]];
      (true, maxRequests - |recent| - 1, if cleanupRuns then Cleaned(written, cleanupNow - windowMs) else written)
  }

  /** The limiter of one configuration: for each identifier, the times of
      its accepted requests. */
  class InMemoryRateLimiter {
    const maxRequests: int
    const windowMs: int
    var requests: map<String, seq<int>>

    /** No identifier holds more timestamps than the limit allows. */
    predicate Valid()
      reads this
    {
      forall id :: id in requests ==> |requests[id]| <= maxRequests
    }

    constructor (maxRequests: int, windowMs: int)
      ensures this.maxRequests == maxRequests && this.windowMs == windowMs
      ensures requests == map[] && Valid()
    {
      this.maxRequests := maxRequests;
      this.windowMs := windowMs;
      requests := map[];
    }

    /** Whether a request from `id` at time `now` is let through: fewer than
        `maxRequests` of its timestamps lie strictly inside the window. */
    predicate Admits(id: String, now: int)
      reads this
    {
      |Recent(Lookup(requests, id), now - windowMs)| < maxRequests
    }

    /** `limit`. A refusal changes nothing; an acceptance replaces the
        caller's list by its timestamps inside the window followed by `now`,
        and touches no other identifier unless the cleanup, drawn with
        `cleanupRuns` and reading the clock again as `cleanupNow`, runs. */
    method Limit(identifier: String, now: int, cleanupRuns: bool, cleanupNow: int)
      returns (success: bool, remaining: int)
      modifies this
      ensures success == old(Admits(identifier, now))
      ensures !success ==> remaining == 0 && requests == old(requests)
      ensures success ==>
                var kept := Recent(Lookup(old(requests), identifier), now - windowMs) + [now];
                var written := old(requests)[identifier := kept];
                0 <= remaining == maxRequests - |kept|
                && requests == (if cleanupRuns then Cleaned(written, cleanupNow - windowMs) else written)
      ensures (success, remaining, requests)
              == Decision(old(requests), maxRequests, windowMs, identifier, now, cleanupRuns, cleanupNow)
      ensures old(Valid()) ==> Valid()
    {
      var windowStart := now - windowMs;
      var stored := if identifier in requests then requests[identifier] else [];
      var recent := Recent(stored, windowStart);
      if |recent| >= maxRequests {
        return false, 0;
      }
      recent := recent + [now];
      requests := requests[identifier := recent];
      if cleanupRuns {
        Cleanup(cleanupNow);
      }
      return true, maxRequests - |recent|;
    }

    /** `cleanup`, for a clock reading `now`. */
    method Cleanup(now: int)
      modifies this
      ensures requests == Cleaned(old(requests), now - windowMs)
      ensures old(Valid()) ==> Valid()
    {
      var windowStart := now - windowMs;
      ghost var original := requests;
      var pending := requests.Keys;
      while pending != {}
        invariant pending <= original.Keys
        invariant CleanedExcept(requests, original, windowStart, pending)
        decreases pending
      {
        var id :| id in pending;
        CleanedExceptStep(requests, original, windowStart, pending, id);
        var recent := Recent(requests[id], windowStart);
        if recent == [] {
          requests := requests - {id};
        } else {
          requests := requests[id := recent];
        }
        pending := pending - {id};
      }
      CleanedExceptDone(requests, original, windowStart);
      CleanedBound(original, windowStart, maxRequests);
    }
  }

  /* ---------------------------------------------------------------------- */
  /* Configurations and the registry                                         */
  /* ---------------------------------------------------------------------- */

  datatype ConfigKey = BlogGenerate | BlogApi | DefaultKey

  datatype Config = Config(maxRequests: nat, windowMs: nat, message: String)

  const TooManyRequests: String := "Too many requests. Please try again later."
  const TooManyGenerations: String := "Too many blog generation requests. Please try again later."

  /** `RATE_LIMIT_CONFIGS`: every window is one minute. */
  function ConfigOf(k: ConfigKey): (c: Config)
    ensures c.windowMs == 60000 && c.maxRequests > 0
  {
    match k
    case BlogGenerate => Config(5, 60 * 1000, TooManyGenerations)
    case BlogApi => Config(100, 60 * 1000, TooManyRequests)
    case DefaultKey => Config(60, 60 * 1000, TooManyRequests)
  }

  function ConfigName(k: ConfigKey): String {
    match k
    case BlogGenerate => "BLOG_GENERATE"
    case BlogApi => "BLOG_API"
    case DefaultKey => "DEFAULT"
  }

  const GenerateKey: String := "BLOG_GENERATE_5_60000"
  const ApiKey: String := "BLOG_API_100_60000"
  const DefaultLimiterKey: String := "DEFAULT_60_60000"

  /** The registry key of each configuration, written out
      (`LimiterKeyFormat` shows each is built as the source builds it). */
  function LimiterKey(k: ConfigKey): String {
    match k
    case BlogGenerate => GenerateKey
    case BlogApi => ApiKey
    case DefaultKey => DefaultLimiterKey
  }

  /** The registry key is `${configKey}_${maxRequests}_${windowMs}`. */
  lemma LimiterKeyFormat(k: ConfigKey)
    ensures LimiterKey(k) == KeyText(ConfigName(k), ConfigOf(k).maxRequests, ConfigOf(k).windowMs)
  {
    ConfigNumbersText();
  }

  /** The decimal texts of the configured numbers. */
  lemma ConfigNumbersText()
    ensures NatToString(5) == "5" && NatToString(60) == "60" && NatToString(100) == "100"
    ensures NatToString(60000) == "60000"
  {
    assert NatToString(6) == "6";
    assert NatToString(10) == "10";
    assert NatToString(600) == "600";
    assert NatToString(6000) == "6000";
  }

  function KeyText(name: String, maxRequests: nat, windowMs: nat): (r: String)
    ensures |name| < |r| && r[..|name|] == name
  {
    name + "_" + NatToString(maxRequests) + "_" + NatToString(windowMs)
  }

  /** Keys of names that differ at some position differ. */
  lemma KeyTextDiffers(n1: String, n2: String, i: nat, m1: nat, w1: nat, m2: nat, w2: nat)
    requires i < |n1| && i < |n2| && n1[i] != n2[i]
    ensures KeyText(n1, m1, w1) != KeyText(n2, m2, w2)
  {
    assert KeyText(n1, m1, w1)[i] == n1[i];
    assert KeyText(n2, m2, w2)[i] == n2[i];
  }

  /** Distinct configurations never share a limiter. */
  lemma LimiterKeysDistinct(k1: ConfigKey, k2: ConfigKey)
    ensures LimiterKey(k1) == LimiterKey(k2) <==> k1 == k2
  {
    if k1 != k2 {
      LimiterKeyFormat(k1);
      LimiterKeyFormat(k2);
      var c1, c2 := ConfigOf(k1), ConfigOf(k2);
      var i := if k1 == DefaultKey || k2 == DefaultKey then 0 else 5;
      KeyTextDiffers(ConfigName(k1), ConfigName(k2), i, c1.maxRequests, c1.windowMs, c2.maxRequests, c2.windowMs);
    }
  }

  /** The module-level map of limiters. */
  class LimiterRegistry {
    var limiters: map<String, InMemoryRateLimiter>

    /** The limiter under a configuration's key has that configuration's
        limit and window, and no limiter is stored under two keys. */
    predicate Valid()
      reads this
    {
      (forall k: ConfigKey :: Configured(k))
      && (forall a, b :: a in limiters && b in limiters && a != b ==> limiters[a] != limiters[b])
    }

    /** The limiter stored for `k`, if any, is built from `k`'s
        configuration. */
    predicate Configured(k: ConfigKey)
      reads this
    {
      LimiterKey(k) in limiters ==>
        limiters[LimiterKey(k)].maxRequests == ConfigOf(k).maxRequests
        && limiters[LimiterKey(k)].windowMs == ConfigOf(k).windowMs
    }

    constructor ()
      ensures limiters == map[] && Valid()
    {
      limiters := map[];
    }

    /** `getInMemoryLimiter`: the limiter already stored under the
        configuration's key, or a new, empty one stored there. */
    method GetInMemoryLimiter(configKey: ConfigKey) returns (limiter: InMemoryRateLimiter)
      requires Valid()
      modifies this
      ensures var key := LimiterKey(configKey);
              key in limiters && limiters[key] == limiter
              && (key in old(limiters) ==> limiter == old(limiters)[key] && limiters == old(limiters))
              && (key !in old(limiters) ==>
                    fresh(limiter) && limiters == old(limiters)[key := limiter] && limiter.requests == map[])
      ensures Valid()
      ensures limiter.maxRequests == ConfigOf(configKey).maxRequests
      ensures limiter.windowMs == ConfigOf(configKey).windowMs
    {
      var key := LimiterKey(configKey);
      if key in limiters {
        assert Configured(configKey);
        return limiters[key];
      }
      var config := ConfigOf(configKey);
      limiter := new InMemoryRateLimiter(config.maxRequests, config.windowMs);
      limiters := limiters[key := limiter];
      forall k: ConfigKey
        ensures Configured(k)
      {
        LimiterKeysDistinct(k, configKey);
        if k != configKey {
          assert old(Configured(k)) && LimiterKey(k) != key;
        }
      }
    }

    /** The in-memory branch of `checkRateLimit`: the limiter for the
        configuration, reused or created empty, decides for the client as
        `Limit` does. Only that limiter changes, and the registry gains at
        most its key. */
    method LimitClient(configKey: ConfigKey, id: String, now: int, cleanupRuns: bool, cleanupNow: int)
      returns (result: LimitResult)
      requires Valid()
      modifies this, limiters.Values
      ensures Valid()
      ensures var key := LimiterKey(configKey);
              key in limiters
              && limiters == old(limiters)[key := limiters[key]]
              && (key in old(limiters) ==> limiters[key] == old(limiters[key]))
              && (key !in old(limiters) ==> fresh(limiters[key]))
              && forall k :: k in old(limiters) && k != key ==> limiters[k].requests == old(limiters[k].requests)
      ensures var key := LimiterKey(configKey);
              var before := if key in old(limiters) then old(limiters[key].requests) else map[];
              key in limiters
              && (result.success, result.remaining, limiters[key].requests)
                 == Decision(before, ConfigOf(configKey).maxRequests, ConfigOf(configKey).windowMs,
                             id, now, cleanupRuns, cleanupNow)
    {
      ghost var key := LimiterKey(configKey);
      ghost var before := if key in limiters then limiters[key].requests else map[];
      var limiter := GetInMemoryLimiter(configKey);
      assert limiter.requests == before;
      ghost var registry := limiters;
      var success, remaining := limiter.Limit(id, now, cleanupRuns, cleanupNow);
      result := LimitResult(success, remaining);
      assert limiters == registry;
      forall k | k in old(limiters) && k != key
        ensures limiters[k].requests == old(limiters[k].requests)
      {
        assert limiters[k] != limiter;
      }
    }

    /** `checkRateLimit` without the hosted store: a failure of the limiter
        (`failure`) lets the request through with nothing remaining and
        changes nothing; otherwise the limiter for the configuration
        decides for the client (`LimitClient`). */
    method CheckRateLimit(configKey: ConfigKey, forwardedFor: Option<String>, realIp: Option<String>,
                          now: int, cleanupRuns: bool, cleanupNow: int, failure: bool)
      returns (result: LimitResult)
      requires Valid()
      modifies this, limiters.Values
      ensures Valid()
      ensures failure ==> result == LimitResult(true, 0) && limiters == old(limiters)
                          && forall k :: k in limiters ==> limiters[k].requests == old(limiters[k].requests)
      ensures !failure ==>
                var key := LimiterKey(configKey);
                var before := if key in old(limiters) then old(limiters[key].requests) else map[];
                var d := Decision(before, ConfigOf(configKey).maxRequests, ConfigOf(configKey).windowMs,
                                  ClientIdentifier(forwardedFor, realIp), now, cleanupRuns, cleanupNow);
                key in limiters
                && limiters == old(limiters)[key := limiters[key]]
                && result == LimitResult(d.0, d.1) && limiters[key].requests == d.2
                && forall k :: k in old(limiters) && k != key ==> limiters[k].requests == old(limiters[k].requests)
    {
      var id := ClientIdentifier(forwardedFor, realIp);
      if failure {
        return LimitResult(true, 0);
      }
      result := LimitClient(configKey, id, now, cleanupRuns, cleanupNow);
    }
  }

  /* ---------------------------------------------------------------------- */
  /* The client and the answer                                               */
  /* ---------------------------------------------------------------------- */

  const Anonymous: String := "anonymous"

  /** The text before the first `,`, or all of it. */
  function FirstField(s: String): (r: String)
    ensures ',' !in r && StartsWith(s, r)
    ensures |r| < |s| ==> s[|r|] == ','
  {
    var k := IndexOfChar(s, ',');
    if k == -1 then s else s[..k]
  }

  /** `getClientIdentifier`: the first hop of `x-forwarded-for`, trimmed,
      else `x-real-ip`, else `anonymous`; an empty header counts as none. */
  function ClientIdentifier(forwardedFor: Option<String>, realIp: Option<String>): (r: String)
    ensures Present(forwardedFor) ==> r == Trim(FirstField(forwardedFor.value))
    ensures !Present(forwardedFor) && Present(realIp) ==> r == realIp.value
    ensures !Present(forwardedFor) && !Present(realIp) ==> r == Anonymous
  {
    if Present(forwardedFor) then Trim(Split(forwardedFor.value, ',')[0])
    else if Present(realIp) then realIp.value
    else Anonymous
  }

  /** The identifier taken from `x-forwarded-for` holds no comma and no
      whitespace at either end. */
  lemma ForwardedIdentifier(forwardedFor: String, realIp: Option<String>)
    requires forwardedFor != []
    ensures var r := ClientIdentifier(Some(forwardedFor), realIp);
            ',' !in r && (r == [] || (!IsSpace(r[0]) && !IsSpace(r[|r| - 1])))
  {
    var f := FirstField(forwardedFor);
    TrimEnds(f);
    var r := Trim(f);
    assert forall i :: 0 <= i < |r| ==> r[i] == f[LeadingSpaces(f) + i];
  }

  /** A header whose first hop is blank gives the empty identifier, not
      `anonymous`, and `x-real-ip` is not consulted. */
  lemma BlankFirstHop()
    ensures ClientIdentifier(Some(",10.0.0.1"), Some("10.0.0.2")) == []
  {
    assert FirstField(",10.0.0.1") == [];
  }

  /** The answer of a limiter. */
  datatype LimitResult = LimitResult(success: bool, remaining: int)

  /** The 429 answer: its body and its two headers. */
  datatype Blocked = Blocked(status: nat, error: String, code: String, retryAfter: nat,
                             retryAfterHeader: String, remainingHeader: String)

  /** `Math.ceil(windowMs / 1000)`: the fewest whole seconds covering the
      window. */
  function RetryAfterSeconds(windowMs: nat): (r: nat)
    ensures windowMs <= r * 1000 && (r == 0 || (r - 1) * 1000 < windowMs)
  {
    (windowMs + 999) / 1000
  }

  /** `rateLimitMiddleware`: nothing when the check passed, otherwise the
      429 answer. */
  function Middleware(result: LimitResult, configKey: ConfigKey): (r: Option<Blocked>)
    ensures r.None? <==> result.success
    ensures r.Some? ==>
              var b := r.value;
              b.status == 429 && b.code == "RATE_LIMIT_EXCEEDED" && b.error == ConfigOf(configKey).message
              && b.remainingHeader == "0" && b.retryAfterHeader == NatToString(b.retryAfter)
              && b.retryAfter * 1000 >= ConfigOf(configKey).windowMs
  {
    if result.success then None
    else
      var config := ConfigOf(configKey);
      var seconds := RetryAfterSeconds(config.windowMs);
      Some(Blocked(429, config.message, "RATE_LIMIT_EXCEEDED", seconds, NatToString(seconds), "0"))
  }

  /** Every configuration asks the client to wait sixty seconds. */
  lemma RetryAfterMinute(configKey: ConfigKey, result: LimitResult)
    requires !result.success
    ensures Middleware(result, configKey).value.retryAfter == 60
    ensures Middleware(result, configKey).value.retryAfterHeader == "60"
  {
  }
}
