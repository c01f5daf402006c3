/** What the buckets let through: the rate in every window of time, and nothing less. */
module RateWindows {
  import opened RateLimit

  /** How many requests of `ip` were admitted among requests `from` to `to`. */
  function Admitted(requests: seq<Request>, answers: seq<bool>, ip: string, from: nat, to: nat): nat
    requires to <= |requests| == |answers|
  {
    if to <= from then 0
    else Admitted(requests, answers, ip, from, to - 1) + if requests[to - 1].ip == ip && answers[to - 1] then 1 else 0
  }

  /** `v` more tokens by time `a` stay within a burst and the rate over the window that request `j` opens. */
  ghost predicate Fits(cfg: Config, requests: seq<Request>, answers: seq<bool>, j: nat, k: nat, a: real, v: real)
    requires j < k <= |requests| == |answers|
  {
    v + Admitted(requests, answers, requests[j].ip, j, k) as real <= cfg.burst as real + cfg.rate * (a - requests[j].a)
  }

  function LevelFor(cfg: Config, m: map<string, Bucket>, ip: string, a: real): real {
    Level(cfg, if ip in m then m[ip] else Full(cfg, a), a)
  }

  lemma AnswersStepwise(cfg: Config, requests: seq<Request>, k: nat)
    requires k < |requests|
    ensures var answers := UnsweptAnswers(cfg, map[], requests);
      var m := UnsweptAfter(cfg, map[], requests[..k]);
      && |answers| == |requests| && answers[k] == HandleUnswept(cfg, m, requests[k]).1
      && UnsweptAfter(cfg, map[], requests[..k + 1]) == HandleUnswept(cfg, m, requests[k]).0
  {
    var m := UnsweptAfter(cfg, map[], requests[..k]);
    assert requests == requests[..k] + requests[k..] && requests[..k + 1] == requests[..k] + [requests[k]];
    UnsweptAnswersSplit(cfg, map[], requests[..k], requests[k..]);
    UnsweptAnswersSplit(cfg, map[], requests[..k], [requests[k]]);
    UnsweptAnswersSplit(cfg, map[], requests, []);
    assert UnsweptAfter(cfg, m, [requests[k]]) == UnsweptAfter(cfg, HandleUnswept(cfg, m, requests[k]).0, []);
  }

  lemma WindowsAdd(rate: real, a: real, b: real, c: real)
    ensures rate * (a - c) == (a - b) * rate + rate * (b - c)
  {
  }

  ghost predicate AllFit(cfg: Config, requests: seq<Request>, answers: seq<bool>, ip: string, k: nat, a: real, v: real)
    requires k <= |requests| == |answers|
  {
    forall j :: 0 <= j < k && requests[j].ip == ip ==> Fits(cfg, requests, answers, j, k, a, v)
  }

  /** The tokens `v` at time `a` come to before request `k`, which its answer and the refill since then account for. */
  function Before(cfg: Config, r: Request, ok: bool, a: real, v: real): real {
    v + (if ok then 1.0 else 0.0) - (a - r.a) * cfg.rate
  }

  /** The level after one more request of this address. */
  lemma LevelStep(cfg: Config, level: real, r: Request, ok: bool, a: real, v: real)
    requires ok <==> level >= 1.0
    ensures v <= Level(cfg, Bucket(level - (if level >= 1.0 then 1.0 else 0.0), r.a), a) <==>
      v <= cfg.burst as real && Before(cfg, r, ok, a, v) <= level
  {
  }

  /** The windows after one more request of this address, in terms of those before it. */
  lemma FitsStep(cfg: Config, requests: seq<Request>, answers: seq<bool>, k: nat, a: real, v: real)
    requires 0 < k <= |requests| == |answers|
    ensures var r := requests[k - 1];
      var w := Before(cfg, r, answers[k - 1], a, v);
      AllFit(cfg, requests, answers, r.ip, k, a, v) <==> w <= cfg.burst as real && AllFit(cfg, requests, answers, r.ip, k - 1, r.a, w)
  {
    var r := requests[k - 1];
    var w := Before(cfg, r, answers[k - 1], a, v);
    assert Fits(cfg, requests, answers, k - 1, k, a, v) <==> w <= cfg.burst as real by {
      assert Admitted(requests, answers, r.ip, k - 1, k - 1) == 0;
    }
    forall j | 0 <= j < k - 1 && requests[j].ip == r.ip
      ensures Fits(cfg, requests, answers, j, k, a, v) <==> Fits(cfg, requests, answers, j, k - 1, r.a, w)
    {
      WindowsAdd(cfg.rate, a, r.a, requests[j].a);
    }
  }

  lemma FitsElsewhere(cfg: Config, requests: seq<Request>, answers: seq<bool>, ip: string, k: nat, a: real, v: real)
    requires 0 < k <= |requests| == |answers| && requests[k - 1].ip != ip
    ensures AllFit(cfg, requests, answers, ip, k, a, v) <==> AllFit(cfg, requests, answers, ip, k - 1, a, v)
  {
    forall j | 0 <= j < k - 1 && requests[j].ip == ip
      ensures Fits(cfg, requests, answers, j, k, a, v) <==> Fits(cfg, requests, answers, j, k - 1, a, v)
    {
    }
  }

  /** `v` is at most the bucket's level exactly if it is at most a burst and fits every window so far. */
  ghost predicate LevelMeets(cfg: Config, requests: seq<Request>, answers: seq<bool>, k: nat, ip: string, a: real, v: real)
    requires k <= |requests| == |answers|
  {
    v <= LevelFor(cfg, UnsweptAfter(cfg, map[], requests[..k]), ip, a) <==>
      v <= cfg.burst as real && AllFit(cfg, requests, answers, ip, k, a, v)
  }

  lemma OwnLevel(cfg: Config, requests: seq<Request>, answers: seq<bool>, k: nat, a: real) returns (level: real)
    requires 0 < k <= |requests| == |answers| && answers == UnsweptAnswers(cfg, map[], requests)
    ensures level == LevelFor(cfg, UnsweptAfter(cfg, map[], requests[..k - 1]), requests[k - 1].ip, requests[k - 1].a)
    ensures answers[k - 1] <==> level >= 1.0
    ensures LevelFor(cfg, UnsweptAfter(cfg, map[], requests[..k]), requests[k - 1].ip, a)
      == Level(cfg, Bucket(level - (if level >= 1.0 then 1.0 else 0.0), requests[k - 1].a), a)
  {
    level := LevelFor(cfg, UnsweptAfter(cfg, map[], requests[..k - 1]), requests[k - 1].ip, requests[k - 1].a);
    AnswersStepwise(cfg, requests, k - 1);
  }

  lemma OwnRequest(cfg: Config, requests: seq<Request>, answers: seq<bool>, k: nat, a: real, v: real)
    requires 0 < k <= |requests| == |answers| && answers == UnsweptAnswers(cfg, map[], requests)
    requires LevelMeets(cfg, requests, answers, k - 1, requests[k - 1].ip, requests[k - 1].a, Before(cfg, requests[k - 1], answers[k - 1], a, v))
    ensures LevelMeets(cfg, requests, answers, k, requests[k - 1].ip, a, v)
  {
    var level := OwnLevel(cfg, requests, answers, k, a);
    LevelStep(cfg, level, requests[k - 1], answers[k - 1], a, v);
    FitsStep(cfg, requests, answers, k, a, v);
  }

  lemma OtherRequest(cfg: Config, requests: seq<Request>, answers: seq<bool>, k: nat, ip: string, a: real, v: real)
    requires 0 < k <= |requests| && answers == UnsweptAnswers(cfg, map[], requests) && |answers| == |requests|
    requires requests[k - 1].ip != ip && LevelMeets(cfg, requests, answers, k - 1, ip, a, v)
    ensures LevelMeets(cfg, requests, answers, k, ip, a, v)
  {
    AnswersStepwise(cfg, requests, k - 1);
    FitsElsewhere(cfg, requests, answers, ip, k, a, v);
  }

  /** A bucket's level is what the tightest window so far leaves over, and at most a burst. */
  lemma {:induction false} LevelExactly(cfg: Config, requests: seq<Request>, answers: seq<bool>, k: nat, ip: string, a: real, v: real)
    requires k <= |requests| == |answers| && answers == UnsweptAnswers(cfg, map[], requests)
    ensures LevelMeets(cfg, requests, answers, k, ip, a, v)
  {
    if k == 0 {
      assert requests[..0] == [];
    } else if requests[k - 1].ip == ip {
      LevelExactly(cfg, requests, answers, k - 1, ip, requests[k - 1].a, Before(cfg, requests[k - 1], answers[k - 1], a, v));
      OwnRequest(cfg, requests, answers, k, a, v);
    } else {
      LevelExactly(cfg, requests, answers, k - 1, ip, a, v);
      OtherRequest(cfg, requests, answers, k, ip, a, v);
    }
  }

  /** Admitting request `k` keeps each window that ends with it, from any request of its address on, within a burst and
      the rate. */
  ghost predicate WithinRate(cfg: Config, requests: seq<Request>, answers: seq<bool>, k: nat)
    requires k < |requests| == |answers|
  {
    forall j :: 0 <= j <= k && requests[j].ip == requests[k].ip ==>
      Admitted(requests, answers, requests[k].ip, j, k) as real + 1.0 <= cfg.burst as real + cfg.rate * (requests[k].a - requests[j].a)
  }

  /** An unswept bucket admits exactly the requests that keep to the rate. */
  lemma UnsweptExactly(cfg: Config, requests: seq<Request>, k: nat)
    requires k < |requests|
    ensures var answers := UnsweptAnswers(cfg, map[], requests);
      |answers| == |requests| && (answers[k] <==> WithinRate(cfg, requests, answers, k))
  {
    var answers := UnsweptAnswers(cfg, map[], requests);
    var r := requests[k];
    AnswersStepwise(cfg, requests, k);
    LevelExactly(cfg, requests, answers, k, r.ip, r.a, 1.0);
    assert answers[k] <==> 1.0 <= LevelFor(cfg, UnsweptAfter(cfg, map[], requests[..k]), r.ip, r.a);
    WindowsEndHere(cfg, requests, answers, k);
  }

  lemma WindowsEndHere(cfg: Config, requests: seq<Request>, answers: seq<bool>, k: nat)
    requires k < |requests| == |answers|
    ensures var r := requests[k];
      WithinRate(cfg, requests, answers, k) <==> 1.0 <= cfg.burst as real && AllFit(cfg, requests, answers, r.ip, k, r.a, 1.0)
  {
    var r := requests[k];
    assert Admitted(requests, answers, r.ip, k, k) == 0 && cfg.rate * (r.a - r.a) == 0.0;
    forall j | 0 <= j < k && requests[j].ip == r.ip
      ensures Fits(cfg, requests, answers, j, k, r.a, 1.0) <==>
        Admitted(requests, answers, r.ip, j, k) as real + 1.0 <= cfg.burst as real + cfg.rate * (r.a - requests[j].a)
    {
    }
  }

  /** So does the limiter, whatever it evicts, when the retention time refills a burst and the share of the lag. */
  lemma ServedExactly(cfg: Config, gap: real, start: real, requests: seq<Request>, k: nat)
    requires cfg.rate >= 0.0 && cfg.burst >= 1 && Refills(cfg, gap) && Sequential(requests, start, gap) && k < |requests|
    ensures var answers := Answers(cfg, Server(map[], start), requests);
      |answers| == |requests| && (answers[k] <==> WithinRate(cfg, requests, answers, k))
  {
    EvictionIsInvisible(cfg, gap, start);
    UnsweptExactly(cfg, requests, k);
  }

  /** A request drops another address's bucket exactly when its own clock is past both the sweep interval and the retention
      time, and otherwise leaves it alone. */
  lemma EvictedExactly(cfg: Config, s: Server, r: Request, ip: string)
    requires ip in s.limiters && ip != r.ip
    ensures var after := Handle(cfg, s, r).0;
      && (ip !in after.limiters <==> s.lastSweep + cfg.sweep < r.t && s.limiters[ip].lastUsed + cfg.ttl < r.t)
      && (ip in after.limiters ==> after.limiters[ip] == s.limiters[ip])
      && r.ip in after.limiters && after.limiters[r.ip].lastUsed == r.t
      && after.lastSweep == if s.lastSweep + cfg.sweep < r.t then r.t else s.lastSweep
  {
  }
}
