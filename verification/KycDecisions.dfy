/** What becomes of each decision: which deliveries are stored, what one job does, and what one pass submits. */
module KycDecisions {
  import opened Options
  import opened Strings
  import opened TxRecords
  import opened TxSpec
  import opened KycProtocol
  import opened KycClaims
  import opened KycOrder
  import opened KycServers

  // Deliveries

  /** A delivery decided from a day ago to five minutes ahead, valid for at most a hundred years of 365 days. */
  ghost predicate Timely(d: Delivery, now: int) {
    && d.occurredAt > 0
    && now - 86_400_000_000_000 <= d.occurredAt * 1_000_000_000 <= now + 300_000_000_000
    && d.validUntil >= 0
    && (d.validUntil == 0 || d.validUntil * 1_000_000_000 <= now + 3_153_600_000_000_000_000)
  }

  ghost predicate Complete(d: Delivery) {
    d.outcome in {"Allowed", "Blocked", "Pending"} && d.provider != "" && d.eventId != "" && d.address.Some?
  }

  ghost predicate KnownBody(events: seq<Event>, d: Delivery) {
    exists i :: 0 <= i < |events| && events[i].payload == d.payload
  }

  ghost predicate KnownEvent(events: seq<Event>, d: Delivery) {
    exists i :: 0 <= i < |events| && events[i].provider == d.provider && events[i].eventId == d.eventId
  }

  lemma FreshExactly(events: seq<Event>, d: Delivery)
    requires d.address.Some? && d.validUntil >= 0
    ensures Fresh(events, RecordOf(d)) <==> !KnownBody(events, d) && !KnownEvent(events, d)
  {
  }

  /** A delivery is stored exactly when it is complete, timely, new in both senses and from a proven owner or overridden;
      it is stored word for word. */
  lemma StoredExactly(events: seq<Event>, d: Delivery, now: int, override: bool, owned: Option<bool>, fails: bool)
    ensures Refused(events, d, now, override, owned, fails).None? <==>
      && Complete(d) && Timely(d, now) && !KnownBody(events, d) && !KnownEvent(events, d)
      && (override || owned == Some(true)) && !fails
    ensures Refused(events, d, now, override, owned, fails).None? ==>
      && var e := RecordOf(d);
      && d.address == Some(e.address) && (e.provider, e.eventId, e.outcome, e.payload) == (d.provider, d.eventId, d.outcome, d.payload)
      && (e.occurredAt, e.validUntil) == (d.occurredAt, d.validUntil) && e.status.Claiming? && e.txId.None?
  {
    if d.address.Some? && d.validUntil >= 0 {
      FreshExactly(events, d);
    }
  }

  /** A refusal names something true of the delivery, and a repeated body is always named. */
  lemma RefusalIsTrue(events: seq<Event>, d: Delivery, now: int, override: bool, owned: Option<bool>, fails: bool, verdict: KycServers.Verdict)
    requires Refused(events, d, now, override, owned, fails) == Some(verdict)
    ensures match verdict
      case Replayed => KnownBody(events, d) || (KnownEvent(events, d) && Complete(d) && Timely(d, now))
      case Unsupported => d.outcome !in {"Allowed", "Blocked", "Pending"}
      case MissingProvider => d.provider == ""
      case MissingEventId => d.eventId == ""
      case BadAddress => d.address.None?
      case MissingOccurredAt => d.occurredAt <= 0
      case Stale => d.occurredAt > 0 && !Timely(d.(validUntil := 0), now)
      case BadValidUntil => Timely(d.(validUntil := 0), now) && !Timely(d, now)
      case NotOwned => !override && owned != Some(true)
      case StoreError => fails
      case Taken => false
    ensures KnownBody(events, d) ==> verdict == Replayed
  {
    if d.address.Some? && d.validUntil >= 0 {
      FreshExactly(events, d);
    }
  }

  /** A stored delivery is answered by what became of it: Taken if it claims its wallet and is Accepted or Recorded, Stale if
      it is Superseded, and a store error if it is left Claiming. */
  lemma {:induction false} AnsweredExactly(s: System, w: Worker, replies: Replies, n: nat)
    requires w.id < |s.events| && s.events[w.id].status.Claiming?
    requires w.stage.Decided? ==> w.stage.holds == OwnClaim(s.claims, w.e)
    ensures var (t, _, held) := FinalizeRun(s, w, replies, n);
      && |t.events| == |s.events|
      && var e := t.events[w.id];
      && (VerdictOf(held).Taken? <==> OwnClaim(t.claims, w.e) && (e.status.Accepted? || e.status.Recorded?))
      && (VerdictOf(held) == KycServers.Verdict.Stale <==> e.status.Superseded?)
      && (VerdictOf(held) == KycServers.Verdict.StoreError <==> e.status.Claiming?)
    decreases StageRank(w.stage)
  {
    if !replies(n).fails && !w.stage.Decided? {
      var (s1, next) := WorkerStep(s, w);
      AnsweredExactly(s1, next.value, replies, n + 1);
    }
  }

  ghost predicate OwnClaim(claims: Claims, e: Event) {
    e.address in claims && claims[e.address].key == e.provider + "|" + e.eventId
  }

  // The order of a wallet's decisions

  /** `a` is a later decision on the same wallet: decided later, or in the same second under a greater event key. */
  ghost predicate Later(a: Event, b: Event) {
    && a.address == b.address
    && (a.occurredAt > b.occurredAt
        || (a.occurredAt == b.occurredAt && Less(b.provider + "|" + b.eventId, a.provider + "|" + a.eventId)))
  }

  ghost predicate Latest(events: seq<Event>, i: nat) {
    i < |events| && forall j :: 0 <= j < |events| ==> !Later(events[j], events[i])
  }

  lemma LaterIsNewer(a: Event, b: Event)
    ensures Later(a, b) <==> a.address == b.address && Newer(ClaimOf(a), ClaimOf(b))
  {
    KeySpelled(a);
    KeySpelled(b);
  }

  lemma KeySpelled(e: Event)
    ensures EventKey(e) == e.provider + "|" + e.eventId
  {
  }

  lemma LatestIsNewest(s: System, i: nat)
    ensures Latest(s.events, i) <==> Newest(s, i)
  {
    if i < |s.events| {
      forall j | 0 <= j < |s.events| ensures Later(s.events[j], s.events[i]) <==> s.events[j].address == s.events[i].address && Newer(ClaimOf(s.events[j]), ClaimOf(s.events[i])) {
        LaterIsNewer(s.events[j], s.events[i]);
      }
    }
  }

  /** The latest decision on a wallet is never Superseded, and once nothing is Claiming it is the wallet's claim. */
  lemma LatestStands(cfg: Settings, actions: seq<Action>, i: nat)
    requires Latest(Execute(cfg, actions).events, i)
    ensures var s := Execute(cfg, actions);
      && var e := s.events[i];
      && !e.status.Superseded?
      && (AllFinalized(s, e.address) ==> e.address in s.claims && s.claims[e.address] == Claim(e.occurredAt, e.provider + "|" + e.eventId))
  {
    var s := Execute(cfg, actions);
    LatestIsNewest(s, i);
    NewestNeverSuperseded(cfg, actions, i);
    if AllFinalized(s, s.events[i].address) {
      ClaimSettlesOnNewest(cfg, actions, i);
      KeySpelled(s.events[i]);
    }
  }

  // Pending decisions

  /** A Pending decision only ever waits for its verdict, is Recorded or is Superseded. */
  ghost predicate Quiet(e: Event) {
    e.outcome == "Pending" ==> (e.status.Claiming? || e.status.Recorded? || e.status.Superseded?)
  }

  ghost predicate QuietWorker(w: Worker) {
    w.e.outcome in {"Allowed", "Blocked", "Pending"}
  }

  ghost predicate QuietEvent(e: Event) {
    Quiet(e) && e.outcome in {"Allowed", "Blocked", "Pending"}
  }

  ghost predicate QuietReconciler(r: Reconciler) {
    r.Busy? ==>
      && (forall k :: 0 <= k < |r.queue| ==> QuietEvent(r.queue[k].e) && Listed(r.queue[k].e))
      && (r.phase.Finalizing? ==> QuietWorker(r.phase.worker))
      && (r.phase.Cleared? && r.queue != [] ==> !r.queue[0].e.status.Claiming?)
      && (r.phase.Writing? ==> QuietEvent(r.phase.next))
  }

  ghost predicate AllQuiet(s: System) {
    && (forall i :: 0 <= i < |s.events| ==> QuietEvent(s.events[i]))
    && (forall w :: 0 <= w < |s.workers| ==> QuietWorker(s.workers[w]))
    && QuietReconciler(s.reconciler)
    && (forall k :: 0 <= k < |s.handed| ==> ForDecision(s.events, s.handed[k]))
  }

  /** Some stored decision, not a Pending one, is what was handed out. */
  ghost predicate ForDecision(events: seq<Event>, h: Handed) {
    exists d :: 0 <= d < |events| && events[d].outcome in {"Allowed", "Blocked"} && Handed(events[d].address, ClaimOf(events[d])) == h
  }

  lemma ForDecisionStays(a: seq<Event>, b: seq<Event>, h: Handed)
    requires ForDecision(a, h) && EventsKept(a, b)
    ensures ForDecision(b, h)
  {
    var d :| 0 <= d < |a| && a[d].outcome in {"Allowed", "Blocked"} && Handed(a[d].address, ClaimOf(a[d])) == h;
    assert SameDelivery(a[d], b[d]);
  }

  lemma {:induction false} JobsQuiet(events: seq<Event>, ids: seq<nat>)
    requires forall i :: 0 <= i < |events| ==> QuietEvent(events[i])
    ensures forall k :: 0 <= k < |Jobs(events, ids)| ==> QuietEvent(Jobs(events, ids)[k].e) && Listed(Jobs(events, ids)[k].e)
  {
    if ids != [] {
      JobsQuiet(events, ids[1..]);
    }
  }

  lemma ClearedQuiet(cfg: Settings, s: System, job: Job, env: SubmitEnv, guard: GuardAnswer)
    requires Good(s) && AllQuiet(s) && s.reconciler.Busy? && s.reconciler.queue != [] && job == s.reconciler.queue[0] && s.reconciler.phase.Cleared?
    ensures AllQuiet(ClearedStep(cfg, s, job, env, guard))
  {
    var t := ClearedStep(cfg, s, job, env, guard);
    ClearedFrame(cfg, s, job, env, guard);
    HandsAtMostOne(cfg, s, job, env, guard);
    assert GoodJob(s.events, s.claims, job) && SameDelivery(s.events[job.id], job.e);
    assert ForDecision(s.events, Handed(job.e.address, ClaimOf(job.e)));
  }

  /** Where nothing is handed out it is enough to look at the events, the finalizers and the reconciler. */
  lemma HandedStays(s: System, t: System)
    requires AllQuiet(s) && EventsKept(s.events, t.events) && t.handed == s.handed
    ensures forall k :: 0 <= k < |t.handed| ==> ForDecision(t.events, t.handed[k])
  {
    forall k | 0 <= k < |t.handed| ensures ForDecision(t.events, t.handed[k]) {
      ForDecisionStays(s.events, t.events, s.handed[k]);
    }
  }

  lemma FetchQuiet(s: System, job: Job)
    requires Good(s) && AllQuiet(s) && s.reconciler.Busy? && s.reconciler.queue != [] && job == s.reconciler.queue[0] && s.reconciler.phase.Fetch?
    ensures AllQuiet(FetchStep(s, job))
  {
    FetchGood(s, job);
    assert QuietEvent(job.e) && Listed(job.e);
  }

  lemma UpdateQuiet(s: System, id: nat, e: Event)
    requires AllQuiet(s) && QuietEvent(e) && (id < |s.events| ==> SameDelivery(s.events[id], e))
    ensures AllQuiet(UpdateEvent(s, id, e))
  {
    var t := UpdateEvent(s, id, e);
    assert EventsKept(s.events, t.events);
    HandedStays(s, t);
  }

  lemma FinalizingQuiet(s: System, w: Worker)
    requires Good(s) && AllQuiet(s) && s.reconciler.Busy? && s.reconciler.queue != [] && s.reconciler.phase == Finalizing(w)
    ensures var (s1, next) := WorkerStep(s, w);
      AllQuiet(if next.Some? then Stay(s1, Finalizing(next.value)) else Next(s1))
  {
    assert GoodWorker(s.events, s.claims, w) && QuietWorker(w);
    if w.stage.Decided? {
      UpdateQuiet(s, w.id, w.e.(status := FinalStatus(w.e, w.stage.holds)));
    }
  }

  lemma AdvanceQuiet(cfg: Settings, s: System, env: SubmitEnv, guard: GuardAnswer)
    requires Good(s) && AllQuiet(s) && s.reconciler.Busy? && s.reconciler.queue != []
    ensures AllQuiet(AdvanceStep(cfg, s, env, guard))
  {
    var job := s.reconciler.queue[0];
    match s.reconciler.phase
    case Fetch => FetchQuiet(s, job);
    case Finalizing(w) => FinalizingQuiet(s, w);
    case Cleared => ClearedQuiet(cfg, s, job, env, guard);
    case Writing(next) =>
      assert GoodJob(s.events, s.claims, job);
      UpdateQuiet(s, job.id, next);
  }

  lemma WorkerQuiet(s: System, w: nat)
    requires Good(s) && AllQuiet(s) && w < |s.workers|
    ensures var (s1, next) := WorkerStep(s, s.workers[w]);
      && AllQuiet(s1) && s1.workers == s.workers && s1.handed == s.handed && (next.Some? ==> QuietWorker(next.value))
  {
    assert GoodWorker(s.events, s.claims, s.workers[w]) && QuietWorker(s.workers[w]);
    if s.workers[w].stage.Decided? {
      UpdateQuiet(s, s.workers[w].id, s.workers[w].e.(status := FinalStatus(s.workers[w].e, s.workers[w].stage.holds)));
    }
  }

  lemma DeliverQuiet(s: System, e: Event)
    requires AllQuiet(s) && Deliverable(e)
    ensures AllQuiet(s.(events := s.events + [e], workers := s.workers + [Worker(|s.events|, e, Start)]))
  {
    var t := s.(events := s.events + [e], workers := s.workers + [Worker(|s.events|, e, Start)]);
    assert EventsKept(s.events, t.events);
    HandedStays(s, t);
  }

  lemma ActQuiet(cfg: Settings, s: System, action: Action)
    requires Good(s) && AllQuiet(s)
    ensures AllQuiet(Act(cfg, s, action))
  {
    match action
    case Deliver(e) =>
      if Deliverable(e) {
        DeliverQuiet(s, e);
      }
    case WorkerRuns(w) =>
      if w < |s.workers| {
        WorkerQuiet(s, w);
      }
    case List(ids) => JobsQuiet(s.events, ids);
    case Advance(env, guard) =>
      if s.reconciler.Busy? && s.reconciler.queue != [] {
        AdvanceQuiet(cfg, s, env, guard);
      }
    case _ =>
  }

  lemma {:induction false} ExecuteQuiet(cfg: Settings, actions: seq<Action>)
    ensures AllQuiet(Execute(cfg, actions))
  {
    if actions != [] {
      ExecuteQuiet(cfg, actions[..|actions| - 1]);
      ExecuteGood(cfg, actions[..|actions| - 1]);
      ActQuiet(cfg, Execute(cfg, actions[..|actions| - 1]), actions[|actions| - 1]);
    }
  }

  /** In every run a Pending decision is at most Recorded, and only Allowed and Blocked decisions are submitted. */
  lemma PendingNeverRelayed(cfg: Settings, actions: seq<Action>, i: nat, k: nat)
    ensures var s := Execute(cfg, actions);
      && (i < |s.events| && s.events[i].outcome == "Pending" ==>
            s.events[i].status in {Claiming, ApplyStatus.Recorded, ApplyStatus.Superseded})
      && (k < |s.handed| ==> ForDecision(s.events, s.handed[k]))
  {
    var s := Execute(cfg, actions);
    ExecuteQuiet(cfg, actions);
    assert i < |s.events| ==> QuietEvent(s.events[i]);
    assert k < |s.handed| ==> ForDecision(s.events, s.handed[k]);
  }
}
