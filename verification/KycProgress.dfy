/** One undisturbed reconciler pass finalizes every stored decision. */
module KycProgress {
  import opened Options
  import opened TxSpec
  import opened KycProtocol
  import opened KycClaims
  import opened KycServers

  ghost predicate Awaited(queue: seq<Job>, i: nat) {
    exists k :: 0 <= k < |queue| && queue[k].id == i && queue[k].e.status.Claiming?
  }

  ghost predicate PhaseFits(job: Job, phase: Phase) {
    match phase
    case Fetch => true
    case Finalizing(w) => w.id == job.id
    case Cleared => !job.e.status.Claiming?
    case Writing(next) => !job.e.status.Claiming? && !next.status.Claiming?
  }

  /** Every event still Claiming is waiting in the reconciler's queue. */
  ghost predicate Queued(s: System) {
    && s.reconciler.Busy?
    && (s.reconciler.queue != [] ==> PhaseFits(s.reconciler.queue[0], s.reconciler.phase))
    && forall i :: 0 <= i < |s.events| && s.events[i].status.Claiming? ==> Awaited(s.reconciler.queue, i)
  }

  ghost predicate NoneClaiming(s: System) {
    forall i :: 0 <= i < |s.events| ==> !s.events[i].status.Claiming?
  }

  /** The first job is dealt with: it was not Claiming, or its event no longer is. */
  lemma NextQueued(s: System, t: System)
    requires Queued(s) && s.reconciler.queue != [] && t.reconciler == s.reconciler && |t.events| == |s.events|
    requires forall i :: 0 <= i < |s.events| && t.events[i].status.Claiming? ==> s.events[i].status.Claiming?
    requires s.reconciler.queue[0].e.status.Claiming? ==>
      s.reconciler.queue[0].id < |t.events| ==> !t.events[s.reconciler.queue[0].id].status.Claiming?
    ensures Queued(Next(t))
  {
    var queue := s.reconciler.queue;
    forall i | 0 <= i < |t.events| && t.events[i].status.Claiming? ensures Awaited(queue[1..], i) {
      var k :| 0 <= k < |queue| && queue[k].id == i && queue[k].e.status.Claiming?;
      assert k > 0 && queue[1..][k - 1] == queue[k];
    }
  }

  lemma FetchQueued(s: System, job: Job)
    requires Queued(s) && s.reconciler.queue != [] && job == s.reconciler.queue[0] && s.reconciler.phase.Fetch?
    ensures Queued(FetchStep(s, job))
  {
    if !job.e.status.Claiming? {
      NextQueued(s, s);
    }
  }

  lemma FinalizingQueued(s: System, w: Worker)
    requires Queued(s) && s.reconciler.queue != [] && s.reconciler.phase == Finalizing(w)
    ensures var (s1, next) := WorkerStep(s, w);
      Queued(if next.Some? then Stay(s1, Finalizing(next.value)) else Next(s1))
  {
    if w.stage.Decided? {
      NextQueued(s, WorkerStep(s, w).0);
    }
  }

  lemma ClearedQueued(cfg: Settings, s: System, job: Job, env: SubmitEnv, guard: GuardAnswer)
    requires Queued(s) && s.reconciler.queue != [] && job == s.reconciler.queue[0] && s.reconciler.phase.Cleared?
    ensures Queued(ClearedStep(cfg, s, job, env, guard))
  {
    var t := ClearedStep(cfg, s, job, env, guard);
    ClearedFrame(cfg, s, job, env, guard);
    NextQueued(s, s);
    assert t.events == s.events;
    assert t.reconciler == Next(s).reconciler || t.reconciler.phase.Writing?;
  }

  lemma AdvanceQueued(cfg: Settings, s: System, env: SubmitEnv, guard: GuardAnswer)
    requires Queued(s) && s.reconciler.queue != []
    ensures Queued(AdvanceStep(cfg, s, env, guard))
  {
    var job := s.reconciler.queue[0];
    match s.reconciler.phase
    case Fetch => FetchQueued(s, job);
    case Finalizing(w) => FinalizingQueued(s, w);
    case Cleared => ClearedQueued(cfg, s, job, env, guard);
    case Writing(next) => NextQueued(s, UpdateEvent(s, job.id, next));
  }

  /** No store or chain operation fails. */
  ghost predicate Undisturbed(replies: Replies) {
    forall n :: !replies(n).fails
  }

  lemma {:induction false} DriveSettles(cfg: Settings, s: System, replies: Replies, n: nat)
    requires Queued(s) && Undisturbed(replies)
    ensures NoneClaiming(Drive(cfg, s, replies, n).0)
    decreases |s.reconciler.queue|, PhaseRank(s.reconciler.phase)
  {
    if s.reconciler.queue == [] {
      assert forall i :: 0 <= i < |s.events| ==> !Awaited([], i);
    } else {
      AdvanceQueued(cfg, s, replies(n).env, replies(n).guard);
      AdvanceDescends(cfg, s, replies(n).env, replies(n).guard);
      DriveSettles(cfg, AdvanceStep(cfg, s, replies(n).env, replies(n).guard), replies, n + 1);
    }
  }

  lemma {:induction false} IdsComplete(events: seq<Event>, upTo: nat, applied: bool, i: nat)
    requires i < upTo <= |events| && Listed(events[i]) && events[i].status.Applied? == applied
    ensures i in Ids(events, upTo, applied)
  {
    if i < upTo - 1 {
      IdsComplete(events, upTo - 1, applied, i);
    }
  }

  lemma {:induction false} JobsComplete(events: seq<Event>, ids: seq<nat>, i: nat)
    requires i in ids && i < |events| && events[i].status.Claiming?
    ensures Awaited(Jobs(events, ids), i)
  {
    var jobs := Jobs(events, ids);
    if ids[0] == i {
      assert jobs[0] == Job(i, events[i]);
    } else {
      JobsComplete(events, ids[1..], i);
      var rest := Jobs(events, ids[1..]);
      var k :| 0 <= k < |rest| && rest[k].id == i && rest[k].e.status.Claiming?;
      assert jobs == rest || jobs[k + 1] == rest[k];
    }
  }

  lemma PassSettles(cfg: Settings, s: System, replies: Replies)
    requires s.reconciler.Idle? && Undisturbed(replies)
    ensures NoneClaiming(Pass(cfg, s, replies))
  {
    var ids := Ids(s.events, |s.events|, false);
    var listed := Act(cfg, s, List(ids));
    forall i | 0 <= i < |s.events| && s.events[i].status.Claiming? ensures Awaited(listed.reconciler.queue, i) {
      IdsComplete(s.events, |s.events|, false, i);
      JobsComplete(s.events, ids, i);
    }
    var (s1, n) := Drive(cfg, listed, replies, 0);
    DriveSettles(cfg, listed, replies, 0);
    DriveEndsIdle(cfg, listed, replies, 0);
    DriveSettles(cfg, Act(cfg, s1, List(Ids(s1.events, |s1.events|, true))), replies, n);
  }

  lemma PassIsARun(cfg: Settings, actions: seq<Action>, replies: Replies) returns (more: seq<Action>)
    requires Execute(cfg, actions).reconciler.Idle?
    ensures Pass(cfg, Execute(cfg, actions), replies) == Execute(cfg, more)
  {
    var s := Execute(cfg, actions);
    var ids := Ids(s.events, |s.events|, false);
    var first := WorkIsARun(cfg, s, ids, replies, 0);
    var (s1, n) := Drive(cfg, Act(cfg, s, List(ids)), replies, 0);
    DriveEndsIdle(cfg, Act(cfg, s, List(ids)), replies, 0);
    var second := WorkIsARun(cfg, s1, Ids(s1.events, |s1.events|, true), replies, n);
    ContinueSplits(cfg, s, first, second);
    ExecuteSplits(cfg, actions, first + second);
    more := actions + (first + second);
  }

  /** After any run, crashes included, one undisturbed pass leaves every wallet claimed by its newest stored decision. */
  lemma OnePassSettles(cfg: Settings, actions: seq<Action>, replies: Replies, i: nat)
    requires Execute(cfg, actions).reconciler.Idle? && Undisturbed(replies)
    requires Newest(Pass(cfg, Execute(cfg, actions), replies), i)
    ensures var s := Pass(cfg, Execute(cfg, actions), replies);
      && s.events[i].address in s.claims && s.claims[s.events[i].address] == ClaimOf(s.events[i])
      && !s.events[i].status.Superseded? && !s.events[i].status.Claiming?
  {
    PassSettles(cfg, Execute(cfg, actions), replies);
    var more := PassIsARun(cfg, actions, replies);
    NewestNeverSuperseded(cfg, more, i);
    ClaimSettlesOnNewest(cfg, more, i);
  }
}
