/** The newest decision of a wallet is never lost. */
module KycClaims {
  import opened TxRecords
  import opened TxSpec
  import opened KycProtocol

  /** The address's claim is at least as new as this decision. */
  ghost predicate Covered(claims: Claims, e: Event) {
    e.address in claims && !Newer(ClaimOf(e), claims[e.address])
  }

  ghost predicate Outrun(claims: Claims, e: Event) {
    e.address in claims && Newer(claims[e.address], ClaimOf(e))
  }

  ghost predicate SameDelivery(a: Event, b: Event) {
    b == a.(status := b.status, txId := b.txId)
  }

  ghost predicate GoodEvent(claims: Claims, e: Event) {
    (!e.status.Claiming? ==> Covered(claims, e)) && (e.status.Superseded? ==> Outrun(claims, e))
  }

  ghost predicate GoodEvents(events: seq<Event>, claims: Claims) {
    forall i :: 0 <= i < |events| ==> GoodEvent(claims, events[i])
  }

  ghost predicate GoodWorker(events: seq<Event>, claims: Claims, w: Worker) {
    && w.id < |events| && SameDelivery(events[w.id], w.e)
    && (match w.stage
        case Start => true
        case Beaten => Covered(claims, w.e)
        case Decided(holds) => if holds then Covered(claims, w.e) else Outrun(claims, w.e))
  }

  ghost predicate GoodWorkers(events: seq<Event>, claims: Claims, workers: seq<Worker>) {
    forall w :: 0 <= w < |workers| ==> GoodWorker(events, claims, workers[w])
  }

  ghost predicate GoodJob(events: seq<Event>, claims: Claims, job: Job) {
    job.id < |events| && SameDelivery(events[job.id], job.e) && GoodEvent(claims, job.e)
  }

  ghost predicate GoodQueue(events: seq<Event>, claims: Claims, queue: seq<Job>) {
    forall k :: 0 <= k < |queue| ==> GoodJob(events, claims, queue[k])
  }

  ghost predicate GoodPhase(events: seq<Event>, claims: Claims, queue: seq<Job>, phase: Phase) {
    match phase
    case Fetch => true
    case Cleared => queue != [] && !queue[0].e.status.Claiming?
    case Finalizing(w) => queue != [] && GoodWorker(events, claims, w)
    case Writing(next) => queue != [] && SameDelivery(queue[0].e, next) && GoodEvent(claims, next)
  }

  ghost predicate GoodReconciler(events: seq<Event>, claims: Claims, r: Reconciler) {
    r.Busy? ==> GoodQueue(events, claims, r.queue) && GoodPhase(events, claims, r.queue, r.phase)
  }

  ghost predicate Backed(events: seq<Event>, address: Address, claim: Claim) {
    exists i :: 0 <= i < |events| && events[i].address == address && ClaimOf(events[i]) == claim
  }

  /** Every claim was made for a stored decision of its address. */
  ghost predicate ClaimsBacked(events: seq<Event>, claims: Claims) {
    forall a :: a in claims ==> Backed(events, a, claims[a])
  }

  ghost predicate Good(s: System) {
    && GoodEvents(s.events, s.claims)
    && GoodWorkers(s.events, s.claims, s.workers)
    && GoodReconciler(s.events, s.claims, s.reconciler)
    && ClaimsBacked(s.events, s.claims)
  }

  // Claims only move forward and deliveries stay put

  ghost predicate ClaimsGrow(a: Claims, b: Claims) {
    forall x :: x in a ==> x in b && !Newer(a[x], b[x])
  }

  ghost predicate EventsKept(a: seq<Event>, b: seq<Event>) {
    |a| <= |b| && forall i :: 0 <= i < |a| ==> SameDelivery(a[i], b[i])
  }

  ghost predicate Grows(s: System, s': System) {
    ClaimsGrow(s.claims, s'.claims) && EventsKept(s.events, s'.events)
  }

  lemma ClaimsRefl(claims: Claims)
    ensures ClaimsGrow(claims, claims)
  {
    forall x | x in claims ensures !Newer(claims[x], claims[x]) {
      NewerTotal(claims[x], claims[x]);
    }
  }

  lemma CoveredStays(a: Claims, b: Claims, e: Event)
    requires ClaimsGrow(a, b)
    ensures Covered(a, e) ==> Covered(b, e)
    ensures Outrun(a, e) ==> Outrun(b, e)
    ensures GoodEvent(a, e) ==> GoodEvent(b, e)
  {
    if e.address in a {
      if !Newer(ClaimOf(e), a[e.address]) {
        NotNewerTransitive(ClaimOf(e), a[e.address], b[e.address]);
      }
      if Newer(a[e.address], ClaimOf(e)) {
        NewerThanOlder(b[e.address], a[e.address], ClaimOf(e));
      }
    }
  }

  lemma GoodWorkerStays(s: System, s': System, w: Worker)
    requires GoodWorker(s.events, s.claims, w) && Grows(s, s')
    ensures GoodWorker(s'.events, s'.claims, w)
  {
    CoveredStays(s.claims, s'.claims, w.e);
    assert SameDelivery(s.events[w.id], s'.events[w.id]);
  }

  /** What an unrelated step leaves of the finalizers. */
  lemma WorkersStay(s: System, s': System)
    requires GoodWorkers(s.events, s.claims, s.workers) && Grows(s, s')
    ensures GoodWorkers(s'.events, s'.claims, s.workers)
  {
    forall w | 0 <= w < |s.workers| ensures GoodWorker(s'.events, s'.claims, s.workers[w]) {
      GoodWorkerStays(s, s', s.workers[w]);
    }
  }

  /** What an unrelated step leaves of the reconciler's knowledge. */
  lemma ReconcilerStays(s: System, s': System)
    requires GoodReconciler(s.events, s.claims, s.reconciler) && Grows(s, s')
    ensures GoodReconciler(s'.events, s'.claims, s.reconciler)
  {
    if s.reconciler.Busy? {
      forall k | 0 <= k < |s.reconciler.queue| ensures GoodJob(s'.events, s'.claims, s.reconciler.queue[k]) {
        var job := s.reconciler.queue[k];
        assert GoodJob(s.events, s.claims, job);
        CoveredStays(s.claims, s'.claims, job.e);
        assert SameDelivery(s.events[job.id], s'.events[job.id]);
      }
      match s.reconciler.phase
      case Finalizing(w) => GoodWorkerStays(s, s', w);
      case Writing(next) => CoveredStays(s.claims, s'.claims, next);
      case _ =>
    }
  }

  lemma BackedStays(a: seq<Event>, b: seq<Event>, address: Address, claim: Claim)
    requires EventsKept(a, b) && Backed(a, address, claim)
    ensures Backed(b, address, claim)
  {
    var i :| 0 <= i < |a| && a[i].address == address && ClaimOf(a[i]) == claim;
    assert SameDelivery(a[i], b[i]) && ClaimOf(b[i]) == claim;
  }

  // The finalizer

  lemma ClaimGood(s: System, w: Worker)
    requires Good(s) && GoodWorker(s.events, s.claims, w) && w.stage.Start?
    ensures var (s', next) := WorkerStep(s, w);
      Grows(s, s') && GoodEvents(s'.events, s'.claims) && ClaimsBacked(s'.events, s'.claims)
      && GoodWorker(s'.events, s'.claims, next.value)
  {
    var (s', next) := WorkerStep(s, w);
    var c := ClaimOf(w.e);
    NewerTotal(c, c);
    forall x | x in s.claims ensures !Newer(s.claims[x], s'.claims[x]) {
      NewerTotal(s.claims[x], s'.claims[x]);
    }
    assert ClaimOf(s.events[w.id]) == c && s.events[w.id].address == w.e.address;
    assert Backed(s.events, w.e.address, c);
    forall i | 0 <= i < |s.events| ensures GoodEvent(s'.claims, s.events[i]) {
      CoveredStays(s.claims, s'.claims, s.events[i]);
    }
  }

  lemma WriteGood(s: System, id: nat, e: Event)
    requires Good(s) && id < |s.events| && SameDelivery(s.events[id], e) && GoodEvent(s.claims, e)
    ensures var s' := UpdateEvent(s, id, e);
      Grows(s, s') && GoodEvents(s'.events, s'.claims) && ClaimsBacked(s'.events, s'.claims)
  {
    var s' := UpdateEvent(s, id, e);
    ClaimsRefl(s.claims);
    assert EventsKept(s.events, s'.events);
    forall a | a in s'.claims ensures Backed(s'.events, a, s'.claims[a]) {
      BackedStays(s.events, s'.events, a, s.claims[a]);
    }
  }

  /** One finalizer operation keeps the store good and the finalizer's own knowledge true. */
  lemma WorkerStepGood(s: System, w: Worker)
    requires Good(s) && GoodWorker(s.events, s.claims, w)
    ensures var (s', next) := WorkerStep(s, w);
      && Grows(s, s') && GoodEvents(s'.events, s'.claims) && ClaimsBacked(s'.events, s'.claims)
      && (next.Some? ==> GoodWorker(s'.events, s'.claims, next.value))
      && s' == s.(events := s'.events, claims := s'.claims)
  {
    match w.stage
    case Start =>
      ClaimGood(s, w);
    case Beaten =>
      ClaimsRefl(s.claims);
      NewerTotal(ClaimOf(w.e), s.claims[w.e.address]);
    case Decided(holds) =>
      NewerTotal(ClaimOf(w.e), s.claims[w.e.address]);
      WriteGood(s, w.id, w.e.(status := FinalStatus(w.e, holds)));
  }

  // The reconciler

  lemma {:induction false} JobsGood(events: seq<Event>, claims: Claims, ids: seq<nat>)
    requires GoodEvents(events, claims)
    ensures GoodQueue(events, claims, Jobs(events, ids))
  {
    if ids != [] {
      JobsGood(events, claims, ids[1..]);
    }
  }

  lemma FetchGood(s: System, job: Job)
    requires Good(s) && s.reconciler.Busy? && s.reconciler.queue != [] && job == s.reconciler.queue[0]
    ensures Good(FetchStep(s, job)) && FetchStep(s, job) == s.(reconciler := FetchStep(s, job).reconciler)
  {
    assert GoodJob(s.events, s.claims, job);
    if !job.e.status.Claiming? {
      NewerTotal(ClaimOf(job.e), s.claims[job.e.address]);
    }
  }

  lemma ClearedGood(cfg: Settings, s: System, job: Job, env: SubmitEnv, guard: GuardAnswer)
    requires Good(s) && s.reconciler.Busy? && s.reconciler.queue != [] && job == s.reconciler.queue[0]
    requires !job.e.status.Claiming?
    ensures var s' := ClearedStep(cfg, s, job, env, guard);
      Good(s') && s'.claims == s.claims && s'.events == s.events
  {
    var s' := ClearedStep(cfg, s, job, env, guard);
    assert GoodJob(s.events, s.claims, job);
    ClearedFrame(cfg, s, job, env, guard);
    assert GoodQueue(s.events, s.claims, s.reconciler.queue[1..]);
  }

  /** Submitting or following moves only the reconciler, the manager and the history. */
  lemma ClearedFrame(cfg: Settings, s: System, job: Job, env: SubmitEnv, guard: GuardAnswer)
    requires s.reconciler.Busy? && s.reconciler.queue != []
    ensures var s' := ClearedStep(cfg, s, job, env, guard);
      && s' == s.(tx := s'.tx, handed := s'.handed, reconciler := s'.reconciler)
      && s'.reconciler.Busy?
      && (s'.reconciler == Busy(s.reconciler.queue[1..], Fetch)
          || (s'.reconciler.queue == s.reconciler.queue && s'.reconciler.phase.Writing?
              && SameDelivery(job.e, s'.reconciler.phase.next)
              && !s'.reconciler.phase.next.status.Superseded? && !s'.reconciler.phase.next.status.Claiming?))
  {
  }

  lemma AdvanceGood(cfg: Settings, s: System, env: SubmitEnv, guard: GuardAnswer)
    requires Good(s) && s.reconciler.Busy?
    ensures Good(AdvanceStep(cfg, s, env, guard)) && Grows(s, AdvanceStep(cfg, s, env, guard))
  {
    ClaimsRefl(s.claims);
    assert EventsKept(s.events, s.events);
    if s.reconciler.queue != [] {
      var job := s.reconciler.queue[0];
      assert GoodJob(s.events, s.claims, job);
      match s.reconciler.phase
      case Fetch => FetchGood(s, job);
      case Cleared => ClearedGood(cfg, s, job, env, guard);
      case Finalizing(w) =>
        WorkerStepGood(s, w);
        WorkersStay(s, WorkerStep(s, w).0);
        ReconcilerStays(s, WorkerStep(s, w).0);
      case Writing(next) =>
        WriteGood(s, job.id, next);
        WorkersStay(s, UpdateEvent(s, job.id, next));
        ReconcilerStays(s, UpdateEvent(s, job.id, next));
    }
  }

  lemma DeliverGood(s: System, e: Event)
    requires Good(s) && Deliverable(e)
    ensures var s' := s.(events := s.events + [e], workers := s.workers + [Worker(|s.events|, e, Start)]);
      Good(s') && Grows(s, s')
  {
    var s' := s.(events := s.events + [e], workers := s.workers + [Worker(|s.events|, e, Start)]);
    ClaimsRefl(s.claims);
    assert EventsKept(s.events, s'.events);
    WorkersStay(s, s');
    ReconcilerStays(s, s');
    forall a | a in s'.claims ensures Backed(s'.events, a, s'.claims[a]) {
      BackedStays(s.events, s'.events, a, s.claims[a]);
    }
  }

  lemma ActGood(cfg: Settings, s: System, action: Action)
    requires Good(s)
    ensures Good(Act(cfg, s, action)) && Grows(s, Act(cfg, s, action))
  {
    ClaimsRefl(s.claims);
    assert EventsKept(s.events, s.events);
    match action
    case Deliver(e) =>
      if Deliverable(e) {
        DeliverGood(s, e);
      }
    case WorkerRuns(w) =>
      if w < |s.workers| {
        WorkerStepGood(s, s.workers[w]);
        WorkersStay(s, WorkerStep(s, s.workers[w]).0);
        ReconcilerStays(s, WorkerStep(s, s.workers[w]).0);
      }
    case Advance(env, guard) =>
      if s.reconciler.Busy? {
        AdvanceGood(cfg, s, env, guard);
      }
    case List(ids) => JobsGood(s.events, s.claims, ids);
    case _ =>
  }

  lemma {:induction false} ExecuteGood(cfg: Settings, actions: seq<Action>)
    ensures Good(Execute(cfg, actions))
  {
    if actions != [] {
      ExecuteGood(cfg, actions[..|actions| - 1]);
      ActGood(cfg, Execute(cfg, actions[..|actions| - 1]), actions[|actions| - 1]);
    }
  }

  /** No stored decision of the same wallet is newer. */
  ghost predicate Newest(s: System, i: nat) {
    i < |s.events| && forall j :: 0 <= j < |s.events| && s.events[j].address == s.events[i].address ==>
      !Newer(ClaimOf(s.events[j]), ClaimOf(s.events[i]))
  }

  ghost predicate AllFinalized(s: System, address: Address) {
    forall j :: 0 <= j < |s.events| && s.events[j].address == address ==> !s.events[j].status.Claiming?
  }

  /** The newest stored decision of a wallet is never Superseded, in any interleaving with crashes. */
  lemma NewestNeverSuperseded(cfg: Settings, actions: seq<Action>, i: nat)
    requires Newest(Execute(cfg, actions), i)
    ensures !Execute(cfg, actions).events[i].status.Superseded?
  {
    var s := Execute(cfg, actions);
    ExecuteGood(cfg, actions);
    var e := s.events[i];
    assert GoodEvent(s.claims, e);
    assert e.address in s.claims ==> Backed(s.events, e.address, s.claims[e.address]);
  }

  /** Once a wallet's decisions are all finalized, its claim is exactly the newest of them. */
  lemma ClaimSettlesOnNewest(cfg: Settings, actions: seq<Action>, i: nat)
    requires Newest(Execute(cfg, actions), i)
    requires AllFinalized(Execute(cfg, actions), Execute(cfg, actions).events[i].address)
    ensures var s := Execute(cfg, actions);
      s.events[i].address in s.claims && s.claims[s.events[i].address] == ClaimOf(s.events[i])
  {
    var s := Execute(cfg, actions);
    ExecuteGood(cfg, actions);
    var e := s.events[i];
    assert GoodEvent(s.claims, e) && Covered(s.claims, e);
    assert Backed(s.events, e.address, s.claims[e.address]);
    var j :| 0 <= j < |s.events| && s.events[j].address == e.address && ClaimOf(s.events[j]) == s.claims[e.address];
    NewerTotal(ClaimOf(s.events[j]), ClaimOf(e));
  }
}
