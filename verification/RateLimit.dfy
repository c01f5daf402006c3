/** Per-address token buckets with an eviction sweep, against buckets that are never swept. */
module RateLimit {
  /** Times are seconds on a monotone clock. */
  datatype Config = Config(rate: real, burst: nat, ttl: real, sweep: real)

  datatype Bucket = Bucket(tokens: real, last: real)

  datatype Entry = Entry(bucket: Bucket, lastUsed: real)

  /** One request: `t` is the handler's clock reading, `a` the limiter's own a little later. */
  datatype Request = Request(ip: string, t: real, a: real)

  datatype Server = Server(limiters: map<string, Entry>, lastSweep: real)

  function Refilled(cfg: Config, b: Bucket, a: real): real {
    b.tokens + (a - b.last) * cfg.rate
  }

  /** The tokens at time `a`, capped at the burst. */
  function Level(cfg: Config, b: Bucket, a: real): real {
    if Refilled(cfg, b, a) < cfg.burst as real then Refilled(cfg, b, a) else cfg.burst as real
  }

  function Allow(cfg: Config, b: Bucket, a: real): (Bucket, bool) {
    var level := Level(cfg, b, a);
    if level >= 1.0 then (Bucket(level - 1.0, a), true) else (Bucket(level, a), false)
  }

  function Full(cfg: Config, a: real): Bucket {
    Bucket(cfg.burst as real, a)
  }

  function Stale(limiters: map<string, Entry>, ttl: real, t: real): set<string> {
    set ip | ip in limiters && t - limiters[ip].lastUsed > ttl
  }

  function Swept(cfg: Config, s: Server, t: real): Server {
    if t - s.lastSweep > cfg.sweep then Server(s.limiters - Stale(s.limiters, cfg.ttl, t), t) else s
  }

  function Handle(cfg: Config, s: Server, r: Request): (Server, bool) {
    var s1 := Swept(cfg, s, r.t);
    var bucket := if r.ip in s1.limiters then s1.limiters[r.ip].bucket else Full(cfg, r.a);
    var (next, ok) := Allow(cfg, bucket, r.a);
    (s1.(limiters := s1.limiters[r.ip := Entry(next, r.t)]), ok)
  }

  /** The same request against buckets that live forever. */
  function HandleUnswept(cfg: Config, m: map<string, Bucket>, r: Request): (map<string, Bucket>, bool) {
    var (next, ok) := Allow(cfg, if r.ip in m then m[r.ip] else Full(cfg, r.a), r.a);
    (m[r.ip := next], ok)
  }

  function Answers(cfg: Config, s: Server, requests: seq<Request>): seq<bool>
    decreases |requests|
  {
    if requests == [] then [] else
    var (s1, ok) := Handle(cfg, s, requests[0]);
    [ok] + Answers(cfg, s1, requests[1..])
  }

  function UnsweptAnswers(cfg: Config, m: map<string, Bucket>, requests: seq<Request>): seq<bool>
    decreases |requests|
  {
    if requests == [] then [] else
    var (m1, ok) := HandleUnswept(cfg, m, requests[0]);
    [ok] + UnsweptAnswers(cfg, m1, requests[1..])
  }

  /** The handler object. */
  class RateLimiter {
    const cfg: Config
    var limiters: map<string, Entry>
    var lastSweep: real

    constructor (cfg: Config, now: real)
      ensures this.cfg == cfg && State() == Server(map[], now)
    {
      this.cfg := cfg;
      limiters, lastSweep := map[], now;
    }

    function State(): Server
      reads this
    {
      Server(limiters, lastSweep)
    }

    method Serve(r: Request) returns (ok: bool)
      modifies this
      ensures (State(), ok) == Handle(cfg, old(State()), r)
    {
      if r.t - lastSweep > cfg.sweep {
        var todo := limiters.Keys;
        while todo != {}
          invariant todo <= limiters.Keys <= old(limiters).Keys
          invariant forall ip :: ip in limiters ==> limiters[ip] == old(limiters)[ip]
          invariant forall ip :: ip in old(limiters) && ip !in todo ==> (ip in limiters <==> r.t - old(limiters)[ip].lastUsed <= cfg.ttl)
          invariant lastSweep == old(lastSweep)
          decreases todo
        {
          var ip :| ip in todo;
          todo := todo - {ip};
          if r.t - limiters[ip].lastUsed > cfg.ttl {
            limiters := limiters - {ip};
          }
        }
        lastSweep := r.t;
        assert limiters == old(limiters) - Stale(old(limiters), cfg.ttl, r.t);
      }
      var bucket := Full(cfg, r.a);
      if r.ip in limiters {
        bucket := limiters[r.ip].bucket;
      }
      var (next, allowed) := Allow(cfg, bucket, r.a);
      limiters := limiters[r.ip := Entry(next, r.t)];
      ok := allowed;
    }
  }

  // Eviction is invisible

  /** A clock that never goes back and limiter readings at most `gap` after the handler's. */
  ghost predicate Sequential(requests: seq<Request>, now: real, gap: real) {
    requests != [] ==>
      && now <= requests[0].t <= requests[0].a <= requests[0].t + gap
      && Sequential(requests[1..], requests[0].a, gap)
  }

  function Min(a: real, b: real): real {
    if a < b then a else b
  }

  /** The retention time refills a burst and one request's share of the lag, and a lag longer than a burst's refill
      still leaves room for one token. */
  predicate Refills(cfg: Config, gap: real) {
    && cfg.rate * cfg.ttl >= cfg.burst as real + Min(1.0, cfg.rate * gap)
    && (cfg.rate * gap <= cfg.burst as real || cfg.rate * (cfg.ttl - gap) >= 1.0)
  }

  /** An entry's bucket was read at most `gap` late, and the refill of that lag is still in it, up to the token served. */
  ghost predicate Stocked(cfg: Config, gap: real, e: Entry) {
    && e.lastUsed <= e.bucket.last <= e.lastUsed + gap
    && e.bucket.tokens >= 0.0
    && e.bucket.tokens >= Min(cfg.burst as real, cfg.rate * (e.bucket.last - e.lastUsed)) - 1.0
  }

  ghost predicate SameBuckets(cfg: Config, gap: real, now: real, s: Server, m: map<string, Bucket>) {
    && (forall ip :: ip in m ==> m[ip].tokens >= 0.0 && m[ip].last <= now)
    && (forall ip :: ip in s.limiters ==> ip in m && s.limiters[ip].bucket == m[ip] && Stocked(cfg, gap, s.limiters[ip]))
    && (forall ip :: ip in m && ip !in s.limiters ==> Refilled(cfg, m[ip], now) >= cfg.burst as real)
  }

  lemma MulMonotone(a: real, b: real, c: real)
    requires a <= b && c >= 0.0
    ensures a * c <= b * c && c * a <= c * b
  {
  }

  lemma RefillsForward(cfg: Config, b: Bucket, t: real, a: real)
    requires cfg.rate >= 0.0 && t <= a
    ensures Refilled(cfg, b, t) <= Refilled(cfg, b, a)
  {
    MulMonotone(t - b.last, a - b.last, cfg.rate);
  }

  /** `lag`, `kept` and `most` are the tokens refilled in a request's lag, the retention time and the longest lag. */
  lemma IdleTokens(burst: real, kept: real, most: real, lag: real, tokens: real, idle: real)
    requires burst >= 1.0 && kept >= burst + Min(1.0, most) && (most <= burst || kept - most >= 1.0)
    requires 0.0 <= lag <= most && tokens >= 0.0 && tokens >= Min(burst, lag) - 1.0
    requires idle >= kept - lag && idle >= 0.0
    ensures tokens + idle >= burst
  {
  }

  lemma Distribute(rate: real, a: real, b: real)
    ensures rate * (a - b) == rate * a - rate * b
  {
  }

  lemma IdleRefill(rate: real, ttl: real, gap: real, burst: real, tokens: real, lag: real, elapsed: real)
    requires rate >= 0.0 && burst >= 1.0 && 0.0 <= lag <= gap && elapsed >= 0.0 && elapsed >= ttl - lag
    requires rate * ttl >= burst + Min(1.0, rate * gap) && (rate * gap <= burst || rate * (ttl - gap) >= 1.0)
    requires tokens >= 0.0 && tokens >= Min(burst, rate * lag) - 1.0
    ensures tokens + elapsed * rate >= burst
  {
    MulMonotone(0.0, lag, rate);
    MulMonotone(lag, gap, rate);
    MulMonotone(ttl - lag, elapsed, rate);
    MulMonotone(0.0, elapsed, rate);
    Distribute(rate, ttl, lag);
    Distribute(rate, ttl, gap);
    IdleTokens(burst, rate * ttl, rate * gap, rate * lag, tokens, elapsed * rate);
  }

  /** A bucket idle past the retention time is full at its eviction. */
  lemma IdleIsFull(cfg: Config, gap: real, e: Entry, t: real)
    requires cfg.rate >= 0.0 && cfg.burst >= 1 && Refills(cfg, gap) && Stocked(cfg, gap, e)
    requires t >= e.bucket.last && t - e.lastUsed > cfg.ttl
    ensures Refilled(cfg, e.bucket, t) >= cfg.burst as real
  {
    var lag, elapsed := e.bucket.last - e.lastUsed, t - e.bucket.last;
    assert elapsed >= cfg.ttl - lag;
    IdleRefill(cfg.rate, cfg.ttl, gap, cfg.burst as real, e.bucket.tokens, lag, elapsed);
  }

  /** Whatever a sweep evicts would be full again anyway. */
  lemma EvictedIsFull(cfg: Config, gap: real, now: real, s: Server, m: map<string, Bucket>, t: real)
    requires cfg.rate >= 0.0 && cfg.burst >= 1 && Refills(cfg, gap)
    requires now <= t && SameBuckets(cfg, gap, now, s, m)
    ensures SameBuckets(cfg, gap, t, Swept(cfg, s, t), m)
  {
    var s1 := Swept(cfg, s, t);
    forall ip | ip in m && ip !in s1.limiters ensures Refilled(cfg, m[ip], t) >= cfg.burst as real {
      EvictedOne(cfg, gap, now, s, m, t, ip);
    }
  }

  lemma EvictedOne(cfg: Config, gap: real, now: real, s: Server, m: map<string, Bucket>, t: real, ip: string)
    requires cfg.rate >= 0.0 && cfg.burst >= 1 && Refills(cfg, gap)
    requires now <= t && SameBuckets(cfg, gap, now, s, m)
    requires ip in m && ip !in Swept(cfg, s, t).limiters
    ensures Refilled(cfg, m[ip], t) >= cfg.burst as real
  {
    if ip in s.limiters {
      assert t - s.limiters[ip].lastUsed > cfg.ttl;
      IdleIsFull(cfg, gap, s.limiters[ip], t);
    } else {
      RefillsForward(cfg, m[ip], now, t);
    }
  }

  lemma SameInstant(cfg: Config, b: Bucket)
    ensures Refilled(cfg, b, b.last) == b.tokens
  {
  }

  /** A full bucket and a fresh one answer and end alike. */
  lemma FullIsFresh(cfg: Config, b: Bucket, t: real, a: real)
    requires cfg.rate >= 0.0 && t <= a && Refilled(cfg, b, t) >= cfg.burst as real
    ensures Allow(cfg, b, a) == Allow(cfg, Full(cfg, a), a)
  {
    RefillsForward(cfg, b, t, a);
    SameInstant(cfg, Full(cfg, a));
    assert Level(cfg, b, a) == cfg.burst as real == Level(cfg, Full(cfg, a), a);
  }

  /** Serving one token from `tokens` and a refill that covers the lag's. */
  lemma ServedTokens(burst: real, tokens: real, refill: real, lag: real)
    requires burst >= 0.0 && tokens >= 0.0 && refill >= lag >= 0.0
    ensures var level := Min(tokens + refill, burst);
      var left := if level >= 1.0 then level - 1.0 else level;
      left >= 0.0 && left >= Min(burst, lag) - 1.0
  {
  }

  /** The refill since an earlier reading covers the refill of a lag. */
  lemma LagCovered(rate: real, last: real, t: real, a: real)
    requires rate >= 0.0 && last <= t <= a
    ensures (a - last) * rate >= rate * (a - t) >= 0.0
  {
    MulMonotone(0.0, a - t, rate);
    MulMonotone(a - t, a - last, rate);
  }

  /** A request leaves its entry stocked, whether its bucket is old or fresh. */
  lemma AllowStocks(cfg: Config, gap: real, b: Bucket, t: real, a: real)
    requires cfg.rate >= 0.0 && b.tokens >= 0.0 && t <= a <= t + gap && (b.last <= t || b == Full(cfg, a))
    ensures Stocked(cfg, gap, Entry(Allow(cfg, b, a).0, t)) && Allow(cfg, b, a).0.last == a
  {
    if b.last <= t {
      var lag, refill := cfg.rate * (a - t), (a - b.last) * cfg.rate;
      LagCovered(cfg.rate, b.last, t, a);
      ServedTokens(cfg.burst as real, b.tokens, refill, lag);
      assert Level(cfg, b, a) == Min(b.tokens + refill, cfg.burst as real);
    } else {
      SameInstant(cfg, b);
    }
  }

  /** After a sweep, both worlds answer one request alike and end with the same, stocked bucket. */
  lemma SameAnswer(cfg: Config, gap: real, s: Server, m: map<string, Bucket>, r: Request)
    requires cfg.rate >= 0.0 && SameBuckets(cfg, gap, r.t, s, m) && r.t <= r.a <= r.t + gap
    ensures var swept := if r.ip in s.limiters then s.limiters[r.ip].bucket else Full(cfg, r.a);
      var unswept := if r.ip in m then m[r.ip] else Full(cfg, r.a);
      && Allow(cfg, swept, r.a) == Allow(cfg, unswept, r.a)
      && Stocked(cfg, gap, Entry(Allow(cfg, unswept, r.a).0, r.t)) && Allow(cfg, unswept, r.a).0.last == r.a
  {
    if r.ip in m {
      AllowStocks(cfg, gap, m[r.ip], r.t, r.a);
      if r.ip !in s.limiters {
        FullIsFresh(cfg, m[r.ip], r.t, r.a);
      }
    } else {
      AllowStocks(cfg, gap, Full(cfg, r.a), r.t, r.a);
    }
  }

  lemma HandleAgrees(cfg: Config, gap: real, now: real, s: Server, m: map<string, Bucket>, r: Request)
    requires cfg.rate >= 0.0 && cfg.burst >= 1 && Refills(cfg, gap)
    requires SameBuckets(cfg, gap, now, s, m) && now <= r.t <= r.a <= r.t + gap
    ensures var (s1, ok) := Handle(cfg, s, r);
      var (m1, ok1) := HandleUnswept(cfg, m, r);
      ok == ok1 && SameBuckets(cfg, gap, r.a, s1, m1)
  {
    EvictedIsFull(cfg, gap, now, s, m, r.t);
    var swept := Swept(cfg, s, r.t);
    SameAnswer(cfg, gap, swept, m, r);
    Replaced(cfg, gap, swept, m, r, HandleUnswept(cfg, m, r).0[r.ip]);
  }

  lemma Replaced(cfg: Config, gap: real, s: Server, m: map<string, Bucket>, r: Request, next: Bucket)
    requires cfg.rate >= 0.0 && SameBuckets(cfg, gap, r.t, s, m) && r.t <= r.a
    requires Stocked(cfg, gap, Entry(next, r.t)) && next.last == r.a
    ensures SameBuckets(cfg, gap, r.a, s.(limiters := s.limiters[r.ip := Entry(next, r.t)]), m[r.ip := next])
  {
    forall ip | ip in m ensures Refilled(cfg, m[ip], r.t) <= Refilled(cfg, m[ip], r.a) {
      RefillsForward(cfg, m[ip], r.t, r.a);
    }
  }

  lemma {:induction false} AnswersAgree(cfg: Config, gap: real, now: real, s: Server, m: map<string, Bucket>, requests: seq<Request>)
    requires cfg.rate >= 0.0 && cfg.burst >= 1 && Refills(cfg, gap)
    requires SameBuckets(cfg, gap, now, s, m) && Sequential(requests, now, gap)
    ensures Answers(cfg, s, requests) == UnsweptAnswers(cfg, m, requests)
    decreases |requests|
  {
    if requests != [] {
      HandleAgrees(cfg, gap, now, s, m, requests[0]);
      var (s1, _) := Handle(cfg, s, requests[0]);
      var (m1, _) := HandleUnswept(cfg, m, requests[0]);
      AnswersAgree(cfg, gap, requests[0].a, s1, m1, requests[1..]);
    }
  }

  /** Every sequence of requests gets the answers of buckets that are never evicted. */
  ghost predicate Invisible(cfg: Config, start: real, gap: real) {
    forall requests :: Sequential(requests, start, gap) ==>
      Answers(cfg, Server(map[], start), requests) == UnsweptAnswers(cfg, map[], requests)
  }

  /** Evictions are invisible when the retention time refills enough for the largest delay between the two clock readings. */
  lemma EvictionIsInvisible(cfg: Config, gap: real, start: real)
    requires cfg.rate >= 0.0 && cfg.burst >= 1 && Refills(cfg, gap)
    ensures Invisible(cfg, start, gap)
  {
    forall requests | Sequential(requests, start, gap)
      ensures Answers(cfg, Server(map[], start), requests) == UnsweptAnswers(cfg, map[], requests)
    {
      AnswersAgree(cfg, gap, start, Server(map[], start), map[], requests);
    }
  }

  /** Without tokens to hand out every answer is no. */
  lemma {:induction false} NoBurstDenies(cfg: Config, s: Server, m: map<string, Bucket>, requests: seq<Request>)
    requires cfg.burst == 0
    ensures Answers(cfg, s, requests) == UnsweptAnswers(cfg, m, requests)
    decreases |requests|
  {
    if requests != [] {
      NoBurstDenies(cfg, Handle(cfg, s, requests[0]).0, HandleUnswept(cfg, m, requests[0]).0, requests[1..]);
    }
  }

  // The condition is exact

  function Burst(ip: string, t: real, n: nat): seq<Request> {
    seq(n, _ => Request(ip, t, t))
  }

  lemma BurstTail(ip: string, t: real, n: nat)
    requires n > 0
    ensures Burst(ip, t, n)[0] == Request(ip, t, t) && Burst(ip, t, n)[1..] == Burst(ip, t, n - 1)
  {
  }

  function After(cfg: Config, s: Server, requests: seq<Request>): Server
    decreases |requests|
  {
    if requests == [] then s else After(cfg, Handle(cfg, s, requests[0]).0, requests[1..])
  }

  function UnsweptAfter(cfg: Config, m: map<string, Bucket>, requests: seq<Request>): map<string, Bucket>
    decreases |requests|
  {
    if requests == [] then m else UnsweptAfter(cfg, HandleUnswept(cfg, m, requests[0]).0, requests[1..])
  }

  lemma {:induction false} AnswersSplit(cfg: Config, s: Server, a: seq<Request>, b: seq<Request>)
    ensures Answers(cfg, s, a + b) == Answers(cfg, s, a) + Answers(cfg, After(cfg, s, a), b)
    ensures |Answers(cfg, s, a)| == |a| && After(cfg, s, a + b) == After(cfg, After(cfg, s, a), b)
    decreases |a|
  {
    if a == [] {
      assert a + b == b;
    } else {
      var (s1, ok) := Handle(cfg, s, a[0]);
      AnswersSplit(cfg, s1, a[1..], b);
      assert (a + b)[0] == a[0] && (a + b)[1..] == a[1..] + b;
      assert Answers(cfg, s, a + b) == [ok] + (Answers(cfg, s1, a[1..]) + Answers(cfg, After(cfg, s1, a[1..]), b));
    }
  }

  lemma {:induction false} UnsweptAnswersSplit(cfg: Config, m: map<string, Bucket>, a: seq<Request>, b: seq<Request>)
    ensures UnsweptAnswers(cfg, m, a + b) == UnsweptAnswers(cfg, m, a) + UnsweptAnswers(cfg, UnsweptAfter(cfg, m, a), b)
    ensures |UnsweptAnswers(cfg, m, a)| == |a| && UnsweptAfter(cfg, m, a + b) == UnsweptAfter(cfg, UnsweptAfter(cfg, m, a), b)
    decreases |a|
  {
    if a == [] {
      assert a + b == b;
    } else {
      var (m1, ok) := HandleUnswept(cfg, m, a[0]);
      UnsweptAnswersSplit(cfg, m1, a[1..], b);
      assert (a + b)[0] == a[0] && (a + b)[1..] == a[1..] + b;
      assert UnsweptAnswers(cfg, m, a + b) == [ok] + (UnsweptAnswers(cfg, m1, a[1..]) + UnsweptAnswers(cfg, UnsweptAfter(cfg, m1, a[1..]), b));
    }
  }

  /** n requests at one instant leave a bucket of n or more tokens with n fewer. */
  lemma {:induction false} BurstDrains(cfg: Config, s: Server, m: map<string, Bucket>, ip: string, t: real, n: nat, tokens: real, used: real)
    requires ip in s.limiters && s.limiters[ip] == Entry(Bucket(tokens, t), used) && ip in m && m[ip] == Bucket(tokens, t)
    requires tokens <= cfg.burst as real && tokens >= n as real
    requires t - s.lastSweep <= cfg.sweep
    ensures var s1 := After(cfg, s, Burst(ip, t, n));
      && ip in s1.limiters && s1.limiters[ip].bucket == Bucket(tokens - n as real, t)
      && s1.limiters[ip].lastUsed == (if n > 0 then t else used) && s1.lastSweep == s.lastSweep
    ensures var m1 := UnsweptAfter(cfg, m, Burst(ip, t, n));
      ip in m1 && m1[ip] == Bucket(tokens - n as real, t)
    decreases n
  {
    if n > 0 {
      BurstTail(ip, t, n);
      SameInstant(cfg, m[ip]);
      var r := Request(ip, t, t);
      BurstDrains(cfg, Handle(cfg, s, r).0, HandleUnswept(cfg, m, r).0, ip, t, n - 1, tokens - 1.0, t);
    }
  }

  /** A bucket with room for n requests at one instant allows them all. */
  lemma {:induction false} BurstAllowed(cfg: Config, s: Server, ip: string, t: real, n: nat)
    requires if ip in s.limiters then s.limiters[ip].bucket.last == t && s.limiters[ip].bucket.tokens >= n as real else cfg.burst >= n
    requires cfg.burst >= n && t - s.lastSweep <= cfg.sweep
    ensures forall i :: 0 <= i < |Answers(cfg, s, Burst(ip, t, n))| ==> Answers(cfg, s, Burst(ip, t, n))[i]
    decreases n
  {
    if n > 0 {
      BurstTail(ip, t, n);
      if ip in s.limiters {
        SameInstant(cfg, s.limiters[ip].bucket);
      } else {
        SameInstant(cfg, Full(cfg, t));
      }
      BurstAllowed(cfg, Handle(cfg, s, Request(ip, t, t)).0, ip, t, n - 1);
    }
  }

  /** A bucket short of n tokens denies the last of n requests at one instant. */
  lemma {:induction false} BurstDenied(cfg: Config, m: map<string, Bucket>, ip: string, t: real, n: nat)
    requires n > 0 && ip in m && Level(cfg, m[ip], t) < n as real
    ensures |UnsweptAnswers(cfg, m, Burst(ip, t, n))| == n && !UnsweptAnswers(cfg, m, Burst(ip, t, n))[n - 1]
    decreases n
  {
    BurstTail(ip, t, n);
    var r := Request(ip, t, t);
    var (m1, ok) := HandleUnswept(cfg, m, r);
    if n > 1 {
      SameInstant(cfg, m1[ip]);
      BurstDenied(cfg, m1, ip, t, n - 1);
    }
  }

  lemma {:induction false} BurstSequential(ip: string, t: real, n: nat, now: real, rest: seq<Request>, gap: real)
    requires now <= t && gap >= 0.0 && Sequential(rest, t, gap)
    ensures Sequential(Burst(ip, t, n) + rest, now, gap)
    decreases n
  {
    if n > 0 {
      BurstTail(ip, t, n);
      assert (Burst(ip, t, n) + rest)[1..] == Burst(ip, t, n - 1) + rest;
      BurstSequential(ip, t, n - 1, t, rest, gap);
    } else {
      assert Burst(ip, t, n) + rest == rest;
      if rest != [] {
        assert now <= rest[0].t;
      }
    }
  }

  /** The first burst of an address empties its bucket in both worlds. */
  lemma FirstBurst(cfg: Config, t: real, start: real, ip: string)
    requires cfg.burst >= 1 && t - start <= cfg.sweep
    ensures var s := After(cfg, Server(map[], start), Burst(ip, t, cfg.burst));
      ip in s.limiters && s.limiters[ip] == Entry(Bucket(0.0, t), t) && s.lastSweep == start
    ensures var m := UnsweptAfter(cfg, map[], Burst(ip, t, cfg.burst));
      ip in m && m[ip] == Bucket(0.0, t)
  {
    BurstTail(ip, t, cfg.burst);
    SameInstant(cfg, Full(cfg, t));
    var r := Request(ip, t, t);
    var s1, m1 := Handle(cfg, Server(map[], start), r).0, HandleUnswept(cfg, map[], r).0;
    BurstDrains(cfg, s1, m1, ip, t, cfg.burst - 1, cfg.burst as real - 1.0, t);
  }

  lemma TailsDiffer(a: seq<bool>, b: seq<bool>, c: seq<bool>, d: seq<bool>)
    requires |a| == |c| && b != d
    ensures a + b != c + d
  {
    assert (a + b)[|a|..] == b && (c + d)[|c|..] == d;
  }

  /** A swept-out address starts again with a full bucket. */
  lemma SecondBurst(cfg: Config, s: Server, ip: string, t: real)
    requires cfg.burst >= 1 && cfg.sweep >= 0.0
    requires t - s.lastSweep > cfg.sweep && ip in s.limiters && t - s.limiters[ip].lastUsed > cfg.ttl
    ensures var answers := Answers(cfg, s, Burst(ip, t, cfg.burst));
      |answers| == cfg.burst && forall i :: 0 <= i < |answers| ==> answers[i]
  {
    var s1 := Swept(cfg, s, t);
    assert ip !in s1.limiters && Swept(cfg, s1, t) == s1;
    BurstTail(ip, t, cfg.burst);
    assert Answers(cfg, s, Burst(ip, t, cfg.burst)) == Answers(cfg, s1, Burst(ip, t, cfg.burst));
    BurstAllowed(cfg, s1, ip, t, cfg.burst);
    AnswersSplit(cfg, s, Burst(ip, t, cfg.burst), []);
    assert Burst(ip, t, cfg.burst) + [] == Burst(ip, t, cfg.burst);
  }

  lemma SecondAnswersDiffer(cfg: Config, s: Server, m: map<string, Bucket>, ip: string, t: real)
    requires cfg.burst >= 1 && cfg.sweep >= 0.0
    requires t - s.lastSweep > cfg.sweep && ip in s.limiters && t - s.limiters[ip].lastUsed > cfg.ttl
    requires ip in m && Level(cfg, m[ip], t) < cfg.burst as real
    ensures Answers(cfg, s, Burst(ip, t, cfg.burst)) != UnsweptAnswers(cfg, m, Burst(ip, t, cfg.burst))
  {
    BurstDenied(cfg, m, ip, t, cfg.burst);
    SecondBurst(cfg, s, ip, t);
    assert Answers(cfg, s, Burst(ip, t, cfg.burst))[cfg.burst - 1];
  }

  /** The address "" has `tokens` left from `a`, and at `later` its entry is swept while its unswept bucket is not full. */
  ghost predicate Betrayed(cfg: Config, s: Server, m: map<string, Bucket>, a: real, tokens: real, later: real) {
    && "" in s.limiters && "" in m && m[""] == Bucket(tokens, a)
    && later - s.lastSweep > cfg.sweep && later - s.limiters[""].lastUsed > cfg.ttl && later >= a
    && tokens + (later - a) * cfg.rate < cfg.burst as real
  }

  /** After requests that lead there, a full burst tells the swept server from the unswept one. */
  lemma BetrayedIsVisible(cfg: Config, start: real, gap: real, first: seq<Request>, a: real, tokens: real, later: real)
    requires cfg.burst >= 1 && cfg.sweep >= 0.0
    requires Betrayed(cfg, After(cfg, Server(map[], start), first), UnsweptAfter(cfg, map[], first), a, tokens, later)
    requires Sequential(first + Burst("", later, cfg.burst), start, gap)
    ensures !Invisible(cfg, start, gap)
  {
    var s, m := After(cfg, Server(map[], start), first), UnsweptAfter(cfg, map[], first);
    var second := Burst("", later, cfg.burst);
    AnswersSplit(cfg, Server(map[], start), first, second);
    UnsweptAnswersSplit(cfg, map[], first, second);
    BetrayedAnswersDiffer(cfg, s, m, a, tokens, later);
    TailsDiffer(Answers(cfg, Server(map[], start), first), Answers(cfg, s, second),
                UnsweptAnswers(cfg, map[], first), UnsweptAnswers(cfg, m, second));
  }

  lemma BetrayedAnswersDiffer(cfg: Config, s: Server, m: map<string, Bucket>, a: real, tokens: real, later: real)
    requires cfg.burst >= 1 && cfg.sweep >= 0.0 && Betrayed(cfg, s, m, a, tokens, later)
    ensures Answers(cfg, s, Burst("", later, cfg.burst)) != UnsweptAnswers(cfg, m, Burst("", later, cfg.burst))
  {
    SecondAnswersDiffer(cfg, s, m, "", later);
  }

  /** A positive slack that keeps a refill below a limit. */
  lemma Slack(rate: real, time: real, limit: real) returns (slack: real)
    requires rate >= 0.0 && rate * time < limit
    ensures slack > 0.0 && rate * (time + slack) < limit
  {
    if rate == 0.0 {
      slack := 1.0;
    } else {
      var room := limit - rate * time;
      slack := room / (2.0 * rate);
      assert slack * rate == room / 2.0;
      assert rate * (time + slack) == rate * time + slack * rate;
    }
  }

  /** A time after both readings, past the retention time, by which fewer than `limit` tokens are refilled. */
  lemma SoonAfter(rate: real, ttl: real, lag: real, limit: real) returns (idle: real)
    requires rate >= 0.0 && lag >= 0.0 && limit > 0.0 && rate * (ttl - lag) < limit
    ensures idle > ttl && idle >= lag && (idle - lag) * rate < limit
  {
    if lag <= ttl {
      var slack := Slack(rate, ttl - lag, limit);
      idle := ttl + slack;
      assert (idle - lag) * rate == rate * (ttl - lag + slack);
    } else {
      idle := lag;
      assert (idle - lag) * rate == 0.0;
    }
  }

  lemma BurstAfter(first: seq<Request>, later: real, n: nat, now: real, gap: real)
    requires gap >= 0.0 && forall rest :: Sequential(rest, later, gap) ==> Sequential(first + rest, now, gap)
    ensures Sequential(first + Burst("", later, n), now, gap)
  {
    BurstSequential("", later, n, later, [], gap);
    assert Burst("", later, n) + [] == Burst("", later, n);
  }

  lemma SequentialLater(requests: seq<Request>, now: real, later: real, gap: real)
    requires Sequential(requests, later, gap) && now <= later
    ensures Sequential(requests, now, gap)
  {
  }

  /** A burst's refill takes longer than the retention time: drain the bucket and wait. */
  lemma ShortRetentionShows(cfg: Config, start: real, gap: real)
    requires cfg.rate >= 0.0 && cfg.burst >= 1 && cfg.ttl >= 0.0 && cfg.sweep >= 0.0 && gap >= 0.0
    requires cfg.rate * cfg.ttl < cfg.burst as real
    ensures !Invisible(cfg, start, gap)
  {
    var t := start + cfg.sweep;
    var idle := SoonAfter(cfg.rate, cfg.ttl, 0.0, cfg.burst as real);
    var first := Burst("", t, cfg.burst);
    FirstBurst(cfg, t, start, "");
    forall rest | Sequential(rest, t + idle, gap) ensures Sequential(first + rest, start, gap) {
      SequentialLater(rest, t, t + idle, gap);
      BurstSequential("", t, cfg.burst, start, rest, gap);
    }
    BurstAfter(first, t + idle, cfg.burst, start, gap);
    assert (t + idle - t) * cfg.rate == (idle - 0.0) * cfg.rate;
    BetrayedIsVisible(cfg, start, gap, first, t, 0.0, t + idle);
  }

  /** One request on a fresh server. */
  lemma OneRequest(cfg: Config, start: real, t: real, a: real)
    requires cfg.burst >= 1 && t - start <= cfg.sweep
    ensures var s := After(cfg, Server(map[], start), [Request("", t, a)]);
      "" in s.limiters && s.limiters[""].lastUsed == t && s.lastSweep == start
    ensures var m := UnsweptAfter(cfg, map[], [Request("", t, a)]);
      "" in m && m[""] == Bucket(cfg.burst as real - 1.0, a)
  {
    var r := Request("", t, a);
    SameInstant(cfg, Full(cfg, a));
    assert [r][1..] == [];
    assert After(cfg, Server(map[], start), [r]) == Handle(cfg, Server(map[], start), r).0;
    assert UnsweptAfter(cfg, map[], [r]) == HandleUnswept(cfg, map[], r).0;
  }

  /** A lag longer than a burst's refill: one late reading of a fresh bucket, then too short a wait for its token. */
  lemma LongLagShows(cfg: Config, start: real, gap: real)
    requires cfg.rate >= 0.0 && cfg.burst >= 1 && cfg.ttl >= 0.0 && cfg.sweep >= 0.0 && gap >= 0.0
    requires cfg.rate * (cfg.ttl - gap) < 1.0
    ensures !Invisible(cfg, start, gap)
  {
    var t, a := start + cfg.sweep, start + cfg.sweep + gap;
    var idle := SoonAfter(cfg.rate, cfg.ttl, gap, 1.0);
    var first := [Request("", t, a)];
    OneRequest(cfg, start, t, a);
    forall rest | Sequential(rest, t + idle, gap) ensures Sequential(first + rest, start, gap) {
      SequentialLater(rest, a, t + idle, gap);
      assert (first + rest)[1..] == rest;
    }
    BurstAfter(first, t + idle, cfg.burst, start, gap);
    assert (t + idle - a) * cfg.rate == (idle - gap) * cfg.rate;
    BetrayedIsVisible(cfg, start, gap, first, a, cfg.burst as real - 1.0, t + idle);
  }

  /** One more request of an address that is not evicted by it. */
  lemma NextRequest(cfg: Config, s: Server, m: map<string, Bucket>, r: Request)
    requires r.ip == "" && "" in s.limiters && "" in m && m[""] == s.limiters[""].bucket
    requires r.t - s.limiters[""].lastUsed <= cfg.ttl
    requires cfg.burst >= 1 && Refilled(cfg, m[""], r.a) == 1.0
    ensures var s1 := Handle(cfg, s, r).0;
      && "" in s1.limiters && s1.limiters[""].lastUsed == r.t
      && (s1.lastSweep == if r.t - s.lastSweep > cfg.sweep then r.t else s.lastSweep)
    ensures var m1 := HandleUnswept(cfg, m, r).0;
      "" in m1 && m1[""] == Bucket(0.0, r.a)
  {
  }

  /** The last request of a sequence. */
  lemma LastRequest(cfg: Config, s0: Server, m0: map<string, Bucket>, before: seq<Request>, r: Request)
    ensures After(cfg, s0, before + [r]) == Handle(cfg, After(cfg, s0, before), r).0
    ensures UnsweptAfter(cfg, m0, before + [r]) == HandleUnswept(cfg, UnsweptAfter(cfg, m0, before), r).0
  {
    AnswersSplit(cfg, s0, before, [r]);
    UnsweptAnswersSplit(cfg, m0, before, [r]);
    assert [r][1..] == [];
    var s, m := After(cfg, s0, before), UnsweptAfter(cfg, m0, before);
    assert After(cfg, s, [r]) == After(cfg, Handle(cfg, s, r).0, []);
    assert UnsweptAfter(cfg, m, [r]) == UnsweptAfter(cfg, HandleUnswept(cfg, m, r).0, []);
  }

  lemma RefilledFrom(cfg: Config, t0: real, a: real)
    ensures Refilled(cfg, Bucket(0.0, t0), a) == (a - t0) * cfg.rate
  {
  }

  /** Drained at `t0` and served again, at lag `lag`, the moment one token is back. */
  lemma DrainedTwice(cfg: Config, start: real, t0: real, t: real, lag: real)
    requires cfg.rate > 0.0 && cfg.burst >= 1 && t0 - start <= cfg.sweep
    requires t0 <= t <= t0 + cfg.ttl && (t + lag - t0) * cfg.rate == 1.0
    ensures var first := Burst("", t0, cfg.burst) + [Request("", t, t + lag)];
      var s, m := After(cfg, Server(map[], start), first), UnsweptAfter(cfg, map[], first);
      && "" in s.limiters && s.limiters[""].lastUsed == t && "" in m && m[""] == Bucket(0.0, t + lag)
      && (s.lastSweep == if t - start > cfg.sweep then t else start)
  {
    var burst, r := Burst("", t0, cfg.burst), Request("", t, t + lag);
    FirstBurst(cfg, t0, start, "");
    LastRequest(cfg, Server(map[], start), map[], burst, r);
    RefilledFrom(cfg, t0, t + lag);
    NextRequest(cfg, After(cfg, Server(map[], start), burst), UnsweptAfter(cfg, map[], burst), r);
  }

  /** A burst refills in time but not the share of a lag: the late reading takes a token that its handler time did not yet have. */
  lemma LagShareShows(cfg: Config, start: real, gap: real)
    requires cfg.rate > 0.0 && cfg.burst >= 1 && cfg.ttl >= 0.0 && cfg.sweep >= 0.0 && gap >= 0.0
    requires cfg.burst as real <= cfg.rate * cfg.ttl < cfg.burst as real + Min(1.0, cfg.rate * gap)
    ensures !Invisible(cfg, start, gap)
  {
    var token := 1.0 / cfg.rate;
    var lag := Min(gap, token);
    assert token * cfg.rate == 1.0;
    TokenWithinRetention(cfg, token);
    ShareOfLag(cfg, gap, token, lag);
    var wait := token - lag;
    var t0 := if cfg.sweep > cfg.ttl then start + cfg.sweep - wait else start;
    LagShareFrom(cfg, start, gap, token, lag, t0);
  }

  lemma LagShareFrom(cfg: Config, start: real, gap: real, token: real, lag: real, t0: real)
    requires cfg.rate > 0.0 && cfg.burst >= 1 && cfg.sweep >= 0.0
    requires 0.0 <= lag <= gap && lag <= token <= cfg.ttl && token * cfg.rate == 1.0 && cfg.rate * (cfg.ttl - lag) < cfg.burst as real
    requires start <= t0 && t0 - start <= cfg.sweep && (t0 + token - lag == start + cfg.sweep || cfg.sweep <= cfg.ttl)
    ensures !Invisible(cfg, start, gap)
  {
    var t := t0 + token - lag;
    var idle := SoonAfter(cfg.rate, cfg.ttl, lag, cfg.burst as real);
    var first := Burst("", t0, cfg.burst) + [Request("", t, t + lag)];
    forall rest | Sequential(rest, t + idle, gap) ensures Sequential(first + rest, start, gap) {
      DrainedSequential(cfg, start, gap, t0, t, lag, rest, t + idle);
    }
    BurstAfter(first, t + idle, cfg.burst, start, gap);
    DrainedIsBetrayed(cfg, start, t0, t, lag, idle);
    BetrayedIsVisible(cfg, start, gap, first, t + lag, 0.0, t + idle);
  }

  lemma DrainedIsBetrayed(cfg: Config, start: real, t0: real, t: real, lag: real, idle: real)
    requires cfg.rate > 0.0 && cfg.burst >= 1 && t0 - start <= cfg.sweep && (t == start + cfg.sweep || cfg.sweep <= cfg.ttl)
    requires start <= t0 <= t <= t0 + cfg.ttl && (t + lag - t0) * cfg.rate == 1.0
    requires idle > cfg.ttl && idle >= lag && (idle - lag) * cfg.rate < cfg.burst as real
    ensures var first := Burst("", t0, cfg.burst) + [Request("", t, t + lag)];
      Betrayed(cfg, After(cfg, Server(map[], start), first), UnsweptAfter(cfg, map[], first), t + lag, 0.0, t + idle)
  {
    DrainedTwice(cfg, start, t0, t, lag);
    assert (t + idle - (t + lag)) * cfg.rate == (idle - lag) * cfg.rate;
  }

  lemma DrainedSequential(cfg: Config, start: real, gap: real, t0: real, t: real, lag: real, rest: seq<Request>, later: real)
    requires start <= t0 <= t && 0.0 <= lag <= gap && later >= t + lag && Sequential(rest, later, gap)
    ensures Sequential(Burst("", t0, cfg.burst) + [Request("", t, t + lag)] + rest, start, gap)
  {
    var r := Request("", t, t + lag);
    SequentialLater(rest, t + lag, later, gap);
    assert ([r] + rest)[1..] == rest;
    BurstSequential("", t0, cfg.burst, start, [r] + rest, gap);
    assert Burst("", t0, cfg.burst) + [r] + rest == Burst("", t0, cfg.burst) + ([r] + rest);
  }

  lemma TokenWithinRetention(cfg: Config, token: real)
    requires cfg.rate > 0.0 && token * cfg.rate == 1.0 && cfg.burst >= 1 && cfg.rate * cfg.ttl >= cfg.burst as real
    ensures 0.0 < token <= cfg.ttl
  {
    Distribute(cfg.rate, cfg.ttl, token);
    DivideOut(cfg.ttl - token, cfg.rate);
    DivideOut(token, cfg.rate);
  }

  lemma DivideOut(x: real, rate: real)
    requires rate > 0.0
    ensures x * rate >= 0.0 ==> x >= 0.0
    ensures x * rate > 0.0 ==> x > 0.0
  {
  }

  lemma ShareOfLag(cfg: Config, gap: real, token: real, lag: real)
    requires cfg.rate > 0.0 && token * cfg.rate == 1.0 && gap >= 0.0 && lag == Min(gap, token)
    requires cfg.rate * cfg.ttl < cfg.burst as real + Min(1.0, cfg.rate * gap)
    ensures cfg.rate * lag == Min(1.0, cfg.rate * gap) && cfg.rate * (cfg.ttl - lag) < cfg.burst as real
  {
    if gap < token {
      MulMonotone(gap, token, cfg.rate);
    } else {
      MulMonotone(token, gap, cfg.rate);
    }
    Distribute(cfg.rate, cfg.ttl, lag);
  }

  /** Evictions are invisible if and only if there is nothing to hand out or the retention time refills enough. */
  lemma InvisibleExactly(cfg: Config, start: real, gap: real)
    requires cfg.rate >= 0.0 && cfg.ttl >= 0.0 && cfg.sweep >= 0.0 && gap >= 0.0
    ensures Invisible(cfg, start, gap) <==> cfg.burst == 0 || Refills(cfg, gap)
  {
    if cfg.burst == 0 {
      forall requests | Sequential(requests, start, gap)
        ensures Answers(cfg, Server(map[], start), requests) == UnsweptAnswers(cfg, map[], requests)
      {
        NoBurstDenies(cfg, Server(map[], start), map[], requests);
      }
    } else if Refills(cfg, gap) {
      EvictionIsInvisible(cfg, gap, start);
    } else if cfg.rate * cfg.ttl < cfg.burst as real {
      ShortRetentionShows(cfg, start, gap);
    } else if cfg.rate * cfg.ttl < cfg.burst as real + Min(1.0, cfg.rate * gap) {
      LagShareShows(cfg, start, gap);
    } else {
      LongLagShows(cfg, start, gap);
    }
  }

  /** With one clock reading per request the condition is that a burst refills within the retention time. */
  lemma InvisibleWithoutLag(cfg: Config, start: real)
    requires cfg.rate >= 0.0 && cfg.burst >= 1 && cfg.ttl >= 0.0 && cfg.sweep >= 0.0
    ensures Invisible(cfg, start, 0.0) <==> cfg.rate * cfg.ttl >= cfg.burst as real
  {
    InvisibleExactly(cfg, start, 0.0);
    assert cfg.rate * 0.0 == 0.0;
  }

  /** A retention time that just refills a burst is never enough once the second reading can lag at all. */
  lemma LaggingReadingShows(cfg: Config, start: real, gap: real)
    requires cfg.rate > 0.0 && cfg.burst >= 1 && cfg.ttl >= 0.0 && cfg.sweep >= 0.0 && gap > 0.0
    requires cfg.rate * cfg.ttl == cfg.burst as real
    ensures !Invisible(cfg, start, gap)
  {
    InvisibleExactly(cfg, start, gap);
    DivideOut(-gap, cfg.rate);
    assert (-gap) * cfg.rate == -(cfg.rate * gap);
  }
}
