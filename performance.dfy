/** The performance utilities (src/utils/performance.js): a per-IP
    sliding-window rate limiter, a TTL response cache with prefix clearing,
    and the stripping of sensitive fields from response data. */
module Performance {
  import opened Common
  import opened Text

  // ---------------------------------------------------------------------
  // rateLimit
  // ---------------------------------------------------------------------

  /** `filter(time => now - time < windowMs)`: the timestamps still inside the window, in order. */
  function Recent(ts: seq<int>, now: int, windowMs: int): (r: seq<int>)
    ensures |r| <= |ts|
    ensures forall t :: t in r <==> t in ts && now - t < windowMs
  {
    if ts == [] then []
    else (if now - ts[0] < windowMs then [ts[0]] else []) + Recent(ts[1..], now, windowMs)
  }

  /** What the middleware does with a request: pass it to `next`, or answer 429. */
  datatype Admission = Next | Rejected(reply: Reply)

  const TooManyRequests := Reply(429, false, "Too many requests, please try again later")

  /** The list stored for an IP once the call has initialised it (line 66-68 of the middleware). */
  function Stored(requests: map<string, seq<int>>, ip: string): seq<int>
  {
    if ip in requests then requests[ip] else []
  }

  /** One call of the middleware returned by `rateLimit(maxRequests, windowMs)`:
      the admission and the new map of timestamp lists. */
  function RateStep(requests: map<string, seq<int>>, ip: string, now: int, maxRequests: int, windowMs: int)
    : (r: (Admission, map<string, seq<int>>))
    ensures r.0.Next? <==> |Recent(Stored(requests, ip), now, windowMs)| < maxRequests
    ensures r.0.Rejected? ==> r.0.reply == TooManyRequests && r.1 == requests[ip := Stored(requests, ip)]
    ensures r.0.Next? ==> r.1 == requests[ip := Recent(Stored(requests, ip), now, windowMs) + [now]]
    ensures r.1.Keys == requests.Keys + {ip}
    ensures forall other :: other in requests && other != ip ==> r.1[other] == requests[other]
  {
    var initialised := if ip in requests then requests else requests[ip := []];
    var recent := Recent(initialised[ip], now, windowMs);
    if |recent| >= maxRequests then (Rejected(TooManyRequests), initialised)
    else (Next, initialised[ip := recent + [now]])
  }

  /** No stored list is longer than `maxRequests` (or non-empty when it is not positive). */
  ghost predicate Bounded(requests: map<string, seq<int>>, maxRequests: int)
  {
    forall ip :: ip in requests ==> |requests[ip]| <= if maxRequests < 0 then 0 else maxRequests
  }

  /** The map the limiter keeps is bounded per IP whatever the calls. */
  lemma RateStepKeepsBound(requests: map<string, seq<int>>, ip: string, now: int, maxRequests: int, windowMs: int)
    requires Bounded(requests, maxRequests)
    ensures Bounded(RateStep(requests, ip, now, maxRequests, windowMs).1, maxRequests)
  {
  }

  /** The rate limiter, as the closure of `rateLimit` holds its `requests` map. */
  class RateLimiter {
    const maxRequests: int
    const windowMs: int
    var requests: map<string, seq<int>>

    ghost predicate Valid()
      reads this
    {
      Bounded(requests, maxRequests)
    }

    /** `rateLimit(maxRequests, windowMs)` */
    constructor (maxRequests: int, windowMs: int)
      ensures Valid()
      ensures this.maxRequests == maxRequests && this.windowMs == windowMs && requests == map[]
    {
      this.maxRequests, this.windowMs := maxRequests, windowMs;
      requests := map[];
    }

    /** `rateLimit()`: 100 requests per 60000 ms. */
    constructor Default()
      ensures Valid()
      ensures maxRequests == 100 && windowMs == 60000 && requests == map[]
    {
      maxRequests, windowMs := 100, 60000;
      requests := map[];
    }

    /** One request from `ip` at time `now`. */
    method Handle(ip: string, now: int) returns (a: Admission)
      requires Valid()
      modifies this
      ensures Valid()
      ensures (a, requests) == RateStep(old(requests), ip, now, maxRequests, windowMs)
    {
      if ip !in requests {
        requests := requests[ip := []];
      }
      var userRequests := Recent(requests[ip], now, windowMs);
      if |userRequests| >= maxRequests {
        return Rejected(TooManyRequests);
      }
      requests := requests[ip := userRequests + [now]];
      a := Next;
      RateStepKeepsBound(old(requests), ip, now, maxRequests, windowMs);
    }
  }

  /** A request reaching the middleware: the client's IP and `Date.now()`. */
  datatype Call = Call(ip: string, now: int)

  /** A freshly created limiter answering `calls` in order: the final map
      and the admission of each call. */
  function Run(calls: seq<Call>, maxRequests: int, windowMs: int): (r: (map<string, seq<int>>, seq<bool>))
    ensures |r.1| == |calls|
  {
    if calls == [] then (map[], [])
    else
      var (m, ds) := Run(calls[..|calls| - 1], maxRequests, windowMs);
      var last := calls[|calls| - 1];
      var (a, m') := RateStep(m, last.ip, last.now, maxRequests, windowMs);
      (m', ds + [a.Next?])
  }

  /** The times of the admitted calls from `ip`. */
  function AdmittedTimes(calls: seq<Call>, admitted: seq<bool>, ip: string): seq<int>
    requires |admitted| == |calls|
  {
    if calls == [] then []
    else
      var n := |calls| - 1;
      AdmittedTimes(calls[..n], admitted[..n], ip) + (if admitted[n] && calls[n].ip == ip then [calls[n].now] else [])
  }

  /** The clock never goes back. */
  ghost predicate Chronological(calls: seq<Call>)
  {
    forall i, j :: 0 <= i < j < |calls| ==> calls[i].now <= calls[j].now
  }

  lemma {:induction false} RecentConcat(a: seq<int>, b: seq<int>, now: int, w: int)
    ensures Recent(a + b, now, w) == Recent(a, now, w) + Recent(b, now, w)
  {
    if a == [] {
      assert a + b == b;
    } else {
      assert (a + b)[0] == a[0] && (a + b)[1..] == a[1..] + b;
      RecentConcat(a[1..], b, now, w);
    }
  }

  /** Pruning at an earlier time and then at a later one is pruning at the later one. */
  lemma {:induction false} RecentTwice(ts: seq<int>, earlier: int, now: int, w: int)
    requires earlier <= now
    ensures Recent(Recent(ts, earlier, w), now, w) == Recent(ts, now, w)
  {
    if ts != [] {
      RecentTwice(ts[1..], earlier, now, w);
      var head := if earlier - ts[0] < w then [ts[0]] else [];
      RecentConcat(head, Recent(ts[1..], earlier, w), now, w);
    }
  }

  /** After any chronological run, the stored list of every IP, pruned at any
      later time, is exactly that IP's admitted times pruned at that time. */
  lemma {:induction false} RunMatchesAdmitted(calls: seq<Call>, maxRequests: int, windowMs: int, ip: string, now: int)
    requires Chronological(calls)
    requires calls != [] ==> now >= calls[|calls| - 1].now
    ensures var (m, ds) := Run(calls, maxRequests, windowMs);
            Recent(Stored(m, ip), now, windowMs) == Recent(AdmittedTimes(calls, ds, ip), now, windowMs)
  {
    if calls != [] {
      var n := |calls| - 1;
      var prefix := calls[..n];
      var last := calls[n];
      assert Chronological(prefix);
      var (m, ds) := Run(prefix, maxRequests, windowMs);
      var (a, m') := RateStep(m, last.ip, last.now, maxRequests, windowMs);
      assert Run(calls, maxRequests, windowMs) == (m', ds + [a.Next?]);
      var ds' := ds + [a.Next?];
      assert ds'[..n] == ds && calls[..n] == prefix;
      var before := AdmittedTimes(prefix, ds, ip);
      assert AdmittedTimes(calls, ds', ip) == before + (if a.Next? && last.ip == ip then [last.now] else []);
      if ip == last.ip {
        assert prefix != [] ==> prefix[|prefix| - 1].now <= last.now;
        RunMatchesAdmitted(prefix, maxRequests, windowMs, ip, last.now);
        if a.Next? {
          var kept := Recent(Stored(m, ip), last.now, windowMs);
          assert Stored(m', ip) == kept + [last.now];
          RecentConcat(kept, [last.now], now, windowMs);
          RecentTwice(Stored(m, ip), last.now, now, windowMs);
          RecentConcat(before, [last.now], now, windowMs);
          RecentTwice(before, last.now, now, windowMs);
          calc {
            Recent(Stored(m', ip), now, windowMs);
            Recent(kept, now, windowMs) + Recent([last.now], now, windowMs);
            Recent(Stored(m, ip), now, windowMs) + Recent([last.now], now, windowMs);
            { RunMatchesAdmitted(prefix, maxRequests, windowMs, ip, now); }
            Recent(before, now, windowMs) + Recent([last.now], now, windowMs);
          }
        } else {
          assert Stored(m', ip) == Stored(m, ip);
          assert before + [] == before;
          RunMatchesAdmitted(prefix, maxRequests, windowMs, ip, now);
        }
      } else {
        assert Stored(m', ip) == Stored(m, ip);
        assert before + [] == before;
        assert prefix != [] ==> prefix[|prefix| - 1].now <= last.now;
        RunMatchesAdmitted(prefix, maxRequests, windowMs, ip, now);
      }
    }
  }

  /** The sliding-window guarantee: in a chronological run, a request is
      admitted exactly when fewer than `maxRequests` earlier admitted requests
      from the same IP lie less than `windowMs` before it. */
  lemma SlidingWindow(calls: seq<Call>, maxRequests: int, windowMs: int)
    requires Chronological(calls) && calls != []
    ensures var n := |calls| - 1;
            var (_, earlier) := Run(calls[..n], maxRequests, windowMs);
            Run(calls, maxRequests, windowMs).1[n] <==>
              |Recent(AdmittedTimes(calls[..n], earlier, calls[n].ip), calls[n].now, windowMs)| < maxRequests
  {
    var n := |calls| - 1;
    assert Chronological(calls[..n]);
    RunMatchesAdmitted(calls[..n], maxRequests, windowMs, calls[n].ip, calls[n].now);
  }

  /** `rateLimit(2, 1000)` and three calls from one IP within a second: the
      first two reach `next`, the third is answered 429. */
  lemma ThreeQuickCalls(ip: string, t1: int, t2: int, t3: int)
    requires t1 <= t2 <= t3 < t1 + 1000
    ensures Run([Call(ip, t1), Call(ip, t2), Call(ip, t3)], 2, 1000).1 == [true, true, false]
  {
    var c := [Call(ip, t1), Call(ip, t2), Call(ip, t3)];
    assert c[..2] == [Call(ip, t1), Call(ip, t2)];
    assert c[..2][..1] == [Call(ip, t1)];
    assert [Call(ip, t1)][..0] == [];
    assert Run([], 2, 1000) == (map[], []);
    assert Recent([], t1, 1000) == [];
    assert Stored(map[], ip) == [];
    assert Recent([], t1, 1000) + [t1] == [t1];
    var m1 := Run([Call(ip, t1)], 2, 1000).0;
    assert m1 == map[ip := [t1]];
    assert Recent([t1], t2, 1000) == [t1];
    assert Stored(m1, ip) == [t1];
    assert [t1] + [t2] == [t1, t2];
    var m2 := Run(c[..2], 2, 1000).0;
    assert m2 == map[ip := [t1, t2]];
    assert Recent([t1, t2], t3, 1000) == [t1, t2] by {
      assert [t1, t2][1..] == [t2];
    }
  }

  // ---------------------------------------------------------------------
  // cacheMiddleware and clearCache
  // ---------------------------------------------------------------------

  /** A cached response body and the `Date.now()` at which it was stored. */
  datatype CacheEntry = CacheEntry(data: Json, timestamp: int)

  /** The `ttl` of `cacheMiddleware(key, ttl = 60000)`: 60000 ms when the
      argument is left out. */
  function Ttl(ttl: Option<int>): (t: int)
    ensures ttl.None? ==> t == 60000
    ensures ttl.Some? ==> t == ttl.value
  {
    if ttl.Some? then ttl.value else 60000
  }

  /** The key of a request: `${key}_${req.originalUrl}_${JSON.stringify(req.params)}`,
      with the serialised params given as text. */
  function CacheKey(key: string, originalUrl: string, paramsJson: string): (r: string)
    ensures key <= r
  {
    key + "_" + originalUrl + "_" + paramsJson
  }

  /** Line 20-22: the cached body, when an entry exists and is younger than `ttl`. */
  function CachedResponse(entries: map<string, CacheEntry>, cacheKey: string, now: int, ttl: int): (r: Option<Json>)
    ensures r.Some? <==> cacheKey in entries && now - entries[cacheKey].timestamp < ttl
    ensures r.Some? ==> r.value == entries[cacheKey].data
  {
    if cacheKey in entries && now - entries[cacheKey].timestamp < ttl then Some(entries[cacheKey].data) else None
  }

  /** Lines 28-33: the wrapped `res.json` stores the body only for status 200
      when the request did not ask to skip the cache. */
  function StoreRule(entries: map<string, CacheEntry>, cacheKey: string, data: Json, now: int, statusCode: int, skipCache: bool)
    : (r: map<string, CacheEntry>)
    ensures statusCode == 200 && !skipCache ==> r == entries[cacheKey := CacheEntry(data, now)]
    ensures statusCode != 200 || skipCache ==> r == entries
  {
    if statusCode == 200 && !skipCache then entries[cacheKey := CacheEntry(data, now)] else entries
  }

  /** The cache without every key that starts with `prefix`. */
  function WithoutPrefix(entries: map<string, CacheEntry>, prefix: string): (r: map<string, CacheEntry>)
    ensures forall k :: k in r <==> k in entries && !(prefix <= k)
    ensures forall k :: k in r ==> r[k] == entries[k]
  {
    map k | k in entries && !(prefix <= k) :: entries[k]
  }

  /** A stored response is served from the cache until `ttl` has passed, and
      then no longer. */
  lemma StoredResponseServed(entries: map<string, CacheEntry>, cacheKey: string, data: Json, storedAt: int, now: int, ttl: int)
    ensures var m := StoreRule(entries, cacheKey, data, storedAt, 200, false);
            CachedResponse(m, cacheKey, now, ttl) == if now - storedAt < ttl then Some(data) else None
  {
  }

  /** Clearing a key prefix drops every response the middleware cached under
      that key, and clearing twice is clearing once. */
  lemma ClearDropsMiddlewareKeys(entries: map<string, CacheEntry>, key: string, originalUrl: string, paramsJson: string, now: int, ttl: int)
    ensures CachedResponse(WithoutPrefix(entries, key), CacheKey(key, originalUrl, paramsJson), now, ttl).None?
    ensures WithoutPrefix(WithoutPrefix(entries, key), key) == WithoutPrefix(entries, key)
  {
  }

  /** The module-level `cache` Map. */
  class ResponseCache {
    var entries: map<string, CacheEntry>

    constructor ()
      ensures entries == map[]
    {
      entries := map[];
    }

    /** One request through `cacheMiddleware(key, ttl)`. On a hit the cached
        body is answered and the route handler is not run; otherwise the route
        handler's status and body are answered, and stored by the rule. The
        handler's result and the clock at each read are parameters. */
    method Serve(key: string, originalUrl: string, paramsJson: string, ttl: Option<int>, now: int,
                 handlerStatus: int, handlerBody: Json, skipCache: bool, answeredAt: int)
      returns (fromCache: bool, body: Json)
      modifies this
      ensures var k := CacheKey(key, originalUrl, paramsJson);
              var hit := CachedResponse(old(entries), k, now, Ttl(ttl));
              && fromCache == hit.Some?
              && (fromCache ==> body == hit.value && entries == old(entries))
              && (!fromCache ==> body == handlerBody
                                 && entries == StoreRule(old(entries), k, handlerBody, answeredAt, handlerStatus, skipCache))
    {
      var cacheKey := key + "_" + originalUrl + "_" + paramsJson;
      var maxAge := if ttl.Some? then ttl.value else 60000;
      if cacheKey in entries && now - entries[cacheKey].timestamp < maxAge {
        return true, entries[cacheKey].data;
      }
      fromCache, body := false, handlerBody;
      if handlerStatus == 200 && !skipCache {
        entries := entries[cacheKey := CacheEntry(handlerBody, answeredAt)];
      }
    }

    /** `clearCache(keyPrefix)`: every key is visited once and deleted when it
        starts with the prefix. */
    method ClearCache(keyPrefix: string)
      modifies this
      ensures entries == WithoutPrefix(old(entries), keyPrefix)
    {
      var remaining := entries.Keys;
      ghost var original := entries;
      while remaining != {}
        invariant remaining <= original.Keys
        invariant forall k :: k in entries <==> k in original && (k in remaining || !(keyPrefix <= k))
        invariant forall k :: k in entries ==> entries[k] == original[k]
        decreases remaining
      {
        var k :| k in remaining;
        if keyPrefix <= k {
          entries := entries - {k};
        }
        remaining := remaining - {k};
      }
      assert entries == WithoutPrefix(original, keyPrefix);
    }
  }

  // ---------------------------------------------------------------------
  // sanitizeItem and compressData
  // ---------------------------------------------------------------------

  const SensitiveFields: set<string> := {"token", "__v", "password"}

  /** `{ ...array }`: an object whose keys are the decimal indices. */
  function IndexObject(items: seq<Json>): (r: map<string, Json>)
    ensures forall i :: 0 <= i < |items| ==> NatToString(i) in r && r[NatToString(i)] == items[i]
    ensures forall k :: k in r ==> exists i :: 0 <= i < |items| && k == NatToString(i)
  {
    forall i, j | 0 <= i < |items| && 0 <= j < |items| && NatToString(i) == NatToString(j) ensures i == j {
      IntToStringInjective(i, j);
    }
    map i | 0 <= i < |items| :: NatToString(i) := items[i]
  }

  /** An index key is none of the sensitive field names. */
  lemma DigitsNotSensitive(k: string)
    requires |k| >= 1 && '0' <= k[0] <= '9'
    ensures k !in SensitiveFields
  {
    assert "token"[0] == 't' && "__v"[0] == '_' && "password"[0] == 'p';
  }

  /** `sanitizeItem(item)`: a shallow copy without `token`, `__v` and `password`.
      Non-objects come back unchanged; an array is an object to `typeof`, so its
      copy is the object of its indices. */
  function SanitizeItem(item: Json): (r: Json)
    ensures !item.JObj? && !item.JArr? ==> r == item
    ensures item.JObj? ==> r == JObj(item.fields - SensitiveFields)
    ensures item.JArr? ==> r == JObj(IndexObject(item.items))
    ensures r.JObj? ==> forall f :: f in SensitiveFields ==> f !in r.fields
  {
    match item
    case JObj(fields) => JObj(fields - SensitiveFields)
    case JArr(items) =>
      var m := IndexObject(items);
      forall k | k in m ensures k !in SensitiveFields {
        var i :| 0 <= i < |items| && k == NatToString(i);
        DigitsNotSensitive(k);
      }
      JObj(m)
    case _ => item
  }

  /** An object keeps every field other than the three, with its value. */
  lemma SanitizeKeepsOtherFields(fields: map<string, Json>, f: string)
    requires f in fields && f !in SensitiveFields
    ensures SanitizeItem(JObj(fields)).fields[f] == fields[f]
  {
  }

  /** Sanitising twice is sanitising once. */
  lemma SanitizeIdempotent(item: Json)
    ensures SanitizeItem(SanitizeItem(item)) == SanitizeItem(item)
  {
    if item.JArr? {
      var m := IndexObject(item.items);
      forall k | k in m ensures k !in SensitiveFields {
        var i :| 0 <= i < |item.items| && k == NatToString(i);
        DigitsNotSensitive(k);
      }
      assert m - SensitiveFields == m;
    }
  }

  /** `compressData(data)`: arrays element by element, anything else sanitised directly. */
  function CompressData(data: Json): (r: Json)
    ensures data.JArr? ==> && r.JArr? && |r.items| == |data.items|
                           && forall i :: 0 <= i < |data.items| ==> r.items[i] == SanitizeItem(data.items[i])
    ensures !data.JArr? ==> r == SanitizeItem(data)
  {
    match data
    case JArr(items) => JArr(seq(|items|, i requires 0 <= i < |items| => SanitizeItem(items[i])))
    case _ => SanitizeItem(data)
  }

  /** No object in compressed data, at the top or as an element, carries a sensitive field. */
  lemma CompressedHoldsNoSensitiveField(data: Json)
    ensures CompressData(data).JObj? ==> forall f :: f in SensitiveFields ==> f !in CompressData(data).fields
    ensures CompressData(data).JArr? ==>
              forall i, f :: 0 <= i < |CompressData(data).items| && CompressData(data).items[i].JObj? && f in SensitiveFields ==>
                f !in CompressData(data).items[i].fields
  {
  }
}
