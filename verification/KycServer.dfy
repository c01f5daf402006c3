/** The webhook service and the reconciler as one object; every call is a run of the protocol's steps. */
module KycServers {
  import opened Options
  import opened TxRecords
  import opened TxSpec
  import opened KycProtocol

  /** What the next store or chain operation meets: a failure, or the answers it may need. */
  datatype Reply = Reply(fails: bool, env: SubmitEnv, guard: GuardAnswer)

  type Replies = nat -> Reply

  // The protocol driven step by step

  function StageRank(stage: Stage): nat {
    match stage
    case Start => 2
    case Beaten => 1
    case Decided(_) => 0
  }

  function PhaseRank(phase: Phase): nat {
    match phase
    case Fetch => 4
    case Finalizing(w) => StageRank(w.stage) + 1
    case Cleared => 2
    case Writing(_) => 1
  }

  /** A finalizer run to its end or to its first failing operation; the answer is whether the event holds its claim. */
  function FinalizeRun(s: System, w: Worker, replies: Replies, n: nat): (System, nat, Option<bool>)
    decreases StageRank(w.stage)
  {
    if replies(n).fails then (s, n + 1, None)
    else if w.stage.Decided? then (WorkerStep(s, w).0, n + 1, Some(w.stage.holds))
    else FinalizeRun(WorkerStep(s, w).0, WorkerStep(s, w).1.value, replies, n + 1)
  }

  lemma AdvanceDescends(cfg: Settings, s: System, env: SubmitEnv, guard: GuardAnswer)
    requires s.reconciler.Busy? && s.reconciler.queue != []
    ensures var r := AdvanceStep(cfg, s, env, guard).reconciler;
      r.Busy? && (r.queue == s.reconciler.queue[1..] || (r.queue == s.reconciler.queue && PhaseRank(r.phase) < PhaseRank(s.reconciler.phase)))
  {
  }

  /** The reconciler run until its queue is empty; an operation that fails drops its job until the next pass. */
  function Drive(cfg: Settings, s: System, replies: Replies, n: nat): (System, nat)
    requires s.reconciler.Busy?
    decreases |s.reconciler.queue|, PhaseRank(s.reconciler.phase)
  {
    if s.reconciler.queue == [] then (s.(reconciler := Idle), n)
    else if replies(n).fails then Drive(cfg, Next(s), replies, n + 1)
    else
      AdvanceDescends(cfg, s, replies(n).env, replies(n).guard);
      Drive(cfg, AdvanceStep(cfg, s, replies(n).env, replies(n).guard), replies, n + 1)
  }

  /** The protocol from any state. */
  function Continue(cfg: Settings, s: System, actions: seq<Action>): System {
    if actions == [] then s else Act(cfg, Continue(cfg, s, actions[..|actions| - 1]), actions[|actions| - 1])
  }

  lemma {:induction false} ContinueSplits(cfg: Settings, s: System, a: seq<Action>, b: seq<Action>)
    ensures Continue(cfg, s, a + b) == Continue(cfg, Continue(cfg, s, a), b)
  {
    if b == [] {
      assert a + b == a;
    } else {
      assert (a + b)[..|a + b| - 1] == a + b[..|b| - 1];
      ContinueSplits(cfg, s, a, b[..|b| - 1]);
    }
  }

  lemma {:induction false} ExecuteContinues(cfg: Settings, actions: seq<Action>)
    ensures Execute(cfg, actions) == Continue(cfg, START, actions)
  {
    if actions != [] {
      ExecuteContinues(cfg, actions[..|actions| - 1]);
    }
  }

  lemma ExecuteSplits(cfg: Settings, a: seq<Action>, b: seq<Action>)
    ensures Execute(cfg, a + b) == Continue(cfg, Execute(cfg, a), b)
  {
    ExecuteContinues(cfg, a);
    ExecuteContinues(cfg, a + b);
    ContinueSplits(cfg, START, a, b);
  }

  lemma OneAction(cfg: Settings, s: System, action: Action, rest: seq<Action>)
    ensures Continue(cfg, s, [action] + rest) == Continue(cfg, Act(cfg, s, action), rest)
  {
    assert [action][..0] == [];
    ContinueSplits(cfg, s, [action], rest);
  }

  /** Draining the queue is a sequence of reconciler actions. */
  lemma {:induction false} DriveIsARun(cfg: Settings, s: System, replies: Replies, n: nat) returns (actions: seq<Action>)
    requires s.reconciler.Busy?
    ensures Drive(cfg, s, replies, n).0 == Continue(cfg, s, actions)
    ensures forall i :: 0 <= i < |actions| ==> actions[i].Advance? || actions[i].Skip?
    decreases |s.reconciler.queue|, PhaseRank(s.reconciler.phase)
  {
    var action := Advance(replies(n).env, replies(n).guard);
    if s.reconciler.queue == [] {
      actions := [action];
      OneAction(cfg, s, action, []);
      assert [action] + [] == [action];
    } else {
      var rest;
      if replies(n).fails {
        action := Skip;
        rest := DriveIsARun(cfg, Next(s), replies, n + 1);
      } else {
        AdvanceDescends(cfg, s, replies(n).env, replies(n).guard);
        rest := DriveIsARun(cfg, AdvanceStep(cfg, s, replies(n).env, replies(n).guard), replies, n + 1);
      }
      actions := [action] + rest;
      OneAction(cfg, s, action, rest);
    }
  }

  /** The reconciler finalizing its first job is that job's finalizer, then the next job. */
  lemma {:induction false} DriveFinalizes(cfg: Settings, s: System, w: Worker, replies: Replies, n: nat)
    requires s.reconciler.Busy? && s.reconciler.queue != [] && s.reconciler.phase == Finalizing(w)
    ensures var (s1, next, _) := FinalizeRun(s, w, replies, n);
      s1.reconciler == s.reconciler && Drive(cfg, s, replies, n) == Drive(cfg, Next(s1), replies, next)
    decreases StageRank(w.stage)
  {
    if !replies(n).fails && !w.stage.Decided? {
      var (s1, next) := WorkerStep(s, w);
      var t := Stay(s1, Finalizing(next.value));
      DriveFinalizes(cfg, t, next.value, replies, n + 1);
      FinalizeIgnoresReconciler(s1, t.reconciler, next.value, replies, n + 1);
    }
  }

  lemma {:induction false} FinalizeIgnoresReconciler(s: System, r: Reconciler, w: Worker, replies: Replies, n: nat)
    ensures var a, b := FinalizeRun(s, w, replies, n), FinalizeRun(s.(reconciler := r), w, replies, n);
      b.0 == a.0.(reconciler := r) && a.0.reconciler == s.reconciler && b.1 == a.1 && b.2 == a.2
    decreases StageRank(w.stage)
  {
    if !replies(n).fails && !w.stage.Decided? {
      FinalizeIgnoresReconciler(WorkerStep(s, w).0, r, WorkerStep(s, w).1.value, replies, n + 1);
    }
  }

  lemma {:induction false} FinalizeKeepsEvents(s: System, w: Worker, replies: Replies, n: nat)
    ensures |FinalizeRun(s, w, replies, n).0.events| == |s.events|
    decreases StageRank(w.stage)
  {
    if !replies(n).fails && !w.stage.Decided? {
      FinalizeKeepsEvents(WorkerStep(s, w).0, WorkerStep(s, w).1.value, replies, n + 1);
    }
  }

  /** A delivery's own finalizer is a worker that runs, and dies where an operation fails. */
  lemma {:induction false} WorkerIsARun(cfg: Settings, s: System, w: Worker, replies: Replies, n: nat) returns (actions: seq<Action>)
    ensures Continue(cfg, s.(workers := s.workers + [w]), actions) == FinalizeRun(s, w, replies, n).0
    ensures forall i :: 0 <= i < |actions| ==> actions[i].WorkerRuns? || actions[i].WorkerDies?
    decreases StageRank(w.stage)
  {
    var t := s.(workers := s.workers + [w]);
    var last := |s.workers|;
    assert t.workers[..last] + t.workers[last + 1..] == s.workers;
    var action, rest := WorkerRuns(last), [];
    if replies(n).fails {
      action := WorkerDies(last);
      assert Act(cfg, t, action) == s;
    } else {
      WorkerStepFrame(s, t.workers, w);
      if !w.stage.Decided? {
        var (s1, next) := WorkerStep(s, w);
        assert t.workers[last := next.value] == s.workers + [next.value];
        rest := WorkerIsARun(cfg, s1, next.value, replies, n + 1);
        assert Act(cfg, t, action) == s1.(workers := s1.workers + [next.value]);
      } else {
        assert Act(cfg, t, action) == WorkerStep(s, w).0;
      }
    }
    actions := [action] + rest;
    OneAction(cfg, t, action, rest);
  }

  lemma WorkerStepFrame(s: System, workers: seq<Worker>, w: Worker)
    ensures var (s1, next) := WorkerStep(s, w);
      var (t1, next1) := WorkerStep(s.(workers := workers), w);
      next1 == next && t1 == s1.(workers := workers) && s1.workers == s.workers
  {
  }

  // Deliveries

  /** A parsed, authenticated decision; the address is None when it is not a hex address. Times are Unix seconds. */
  datatype Delivery = Delivery(
    payload: string, outcome: string, provider: string, eventId: string, address: Option<Address>, occurredAt: int, validUntil: int)

  datatype Verdict =
    | Taken | Replayed | Unsupported | MissingProvider | MissingEventId | BadAddress
    | MissingOccurredAt | Stale | BadValidUntil | NotOwned | StoreError

  const SECOND := 1_000_000_000
  const CLOCK_SKEW := 300 * SECOND
  const MAX_AGE := 86_400 * SECOND
  const HORIZON := 100 * 365 * MAX_AGE

  /** The checks between the replay pre-check and the ownership lookup, in order; `now` is in nanoseconds. */
  function Validate(d: Delivery, now: int): Option<Verdict> {
    if d.outcome != "Allowed" && d.outcome != "Blocked" && d.outcome != "Pending" then Some(Unsupported)
    else if d.provider == "" then Some(MissingProvider)
    else if d.eventId == "" then Some(MissingEventId)
    else if d.address.None? then Some(BadAddress)
    else if d.occurredAt <= 0 then Some(MissingOccurredAt)
    else if d.occurredAt * SECOND > now + CLOCK_SKEW || now - d.occurredAt * SECOND > MAX_AGE then Some(Stale)
    else if d.validUntil < 0 || (d.validUntil > 0 && d.validUntil * SECOND > now + HORIZON) then Some(BadValidUntil)
    else None
  }

  /** The record a valid delivery is stored as. */
  function RecordOf(d: Delivery): Event
    requires d.address.Some? && d.validUntil >= 0
  {
    Event(d.address.value, d.provider, d.eventId, d.outcome, d.occurredAt, d.validUntil, d.payload, Claiming, None)
  }

  /** Why a delivery is turned away before it is stored. */
  function Refused(events: seq<Event>, d: Delivery, now: int, override: bool, owned: Option<bool>, fails: bool): Option<Verdict> {
    if exists i :: 0 <= i < |events| && events[i].payload == d.payload then Some(Replayed)
    else if Validate(d, now).Some? then Validate(d, now)
    else if !override && owned != Some(true) then Some(NotOwned)
    else if fails then Some(StoreError)
    else if !Fresh(events, RecordOf(d)) then Some(Replayed)
    else None
  }

  function VerdictOf(held: Option<bool>): Verdict {
    if held.None? then StoreError else if held.value then Taken else Stale
  }

  class KycServer {
    const cfg: Settings
    var events: seq<Event>
    var claims: Claims
    var tx: State
    ghost var handed: seq<Handed>
    ghost var workers: seq<Worker>
    ghost var reconciler: Reconciler
    ghost var trace: seq<Action>

    constructor (cfg: Settings)
      ensures this.cfg == cfg && Valid() && trace == []
    {
      this.cfg := cfg;
      events, claims, tx := [], map[], INIT;
      handed, workers, reconciler, trace := [], [], Idle, [];
    }

    ghost function Sys(): System
      reads this
    {
      System(events, claims, tx, handed, workers, reconciler)
    }

    /** The object is at the end of a run of the protocol, with no call under way. */
    ghost predicate Valid()
      reads this
    {
      Sys() == Execute(cfg, trace) && reconciler.Idle?
    }

    method FinalizeClaim(id: nat, e: Event, replies: Replies, n: nat) returns (held: Option<bool>, next: nat)
      requires id < |events|
      modifies this
      ensures (Sys(), next, held) == FinalizeRun(old(Sys()), Worker(id, e, Start), replies, n)
      ensures trace == old(trace)
    {
      if replies(n).fails {
        return None, n + 1;
      }
      next := n + 1;
      var holds := e.address !in claims || Newer(ClaimOf(e), claims[e.address]);
      if holds {
        claims := claims[e.address := ClaimOf(e)];
        assert FinalizeRun(old(Sys()), Worker(id, e, Start), replies, n) == FinalizeRun(Sys(), Worker(id, e, Decided(true)), replies, next);
      } else {
        assert FinalizeRun(Sys(), Worker(id, e, Start), replies, n) == FinalizeRun(Sys(), Worker(id, e, Beaten), replies, next);
        if replies(next).fails {
          return None, next + 1;
        }
        next := next + 1;
        holds := e.address in claims && claims[e.address].key == EventKey(e);
      }
      assert FinalizeRun(old(Sys()), Worker(id, e, Start), replies, n) == FinalizeRun(Sys(), Worker(id, e, Decided(holds)), replies, next);
      if replies(next).fails {
        return None, next + 1;
      }
      next := next + 1;
      var status := Superseded;
      if holds {
        status := if e.outcome == "Pending" then ApplyStatus.Recorded else ApplyStatus.Accepted;
      }
      events := events[id := e.(status := status)];
      held := Some(holds);
    }

    /** One authenticated delivery: validate, store as Claiming, finalize. */
    method ProcessDecision(d: Delivery, now: int, override: bool, owned: Option<bool>, replies: Replies) returns (verdict: Verdict, ghost stored: Option<Event>)
      requires Valid()
      modifies this
      ensures Valid() && old(trace) <= trace
      ensures stored.None? <==> Refused(old(events), d, now, override, owned, replies(0).fails).Some?
      ensures stored.None? ==> Sys() == old(Sys()) && Some(verdict) == Refused(old(events), d, now, override, owned, replies(0).fails)
      ensures stored.Some? ==>
        && stored.value == RecordOf(d) && Deliverable(stored.value)
        && var begun := old(Sys()).(events := old(events) + [stored.value]);
           var (end, _, held) := FinalizeRun(begun, Worker(|old(events)|, stored.value, Start), replies, 1);
           Sys() == end && verdict == VerdictOf(held)
    {
      stored := None;
      for i := 0 to |events|
        invariant forall k :: 0 <= k < i ==> events[k].payload != d.payload
      {
        if events[i].payload == d.payload {
          return Replayed, None;
        }
      }
      var invalid := Validate(d, now);
      if invalid.Some? {
        return invalid.value, None;
      }
      if !override && owned != Some(true) {
        return NotOwned, None;
      }
      var e := RecordOf(d);
      if replies(0).fails {
        return StoreError, None;
      }
      for i := 0 to |events|
        invariant forall k :: 0 <= k < i ==> (events[k].provider, events[k].eventId) != (e.provider, e.eventId)
      {
        if (events[i].provider, events[i].eventId) == (e.provider, e.eventId) {
          return Replayed, None;
        }
      }
      verdict := StoreAndFinalize(e, replies);
      stored := Some(e);
    }

    method StoreAndFinalize(e: Event, replies: Replies) returns (verdict: Verdict)
      requires Valid() && Deliverable(e) && Fresh(events, e)
      modifies this
      ensures Valid() && old(trace) <= trace
      ensures var begun := old(Sys()).(events := old(events) + [e]);
        var (end, _, held) := FinalizeRun(begun, Worker(|old(events)|, e, Start), replies, 1);
        Sys() == end && verdict == VerdictOf(held)
    {
      var id := |events|;
      events := events + [e];
      ghost var begun := Sys();
      var held, next := FinalizeClaim(id, e, replies, 1);
      verdict := VerdictOf(held);
      FinalizeIgnoresReconciler(begun, begun.reconciler, Worker(id, e, Start), replies, 1);
      ghost var rest := WorkerIsARun(cfg, begun, Worker(id, e, Start), replies, 1);
      OneAction(cfg, old(Sys()), Deliver(e), rest);
      ExecuteSplits(cfg, old(trace), [Deliver(e)] + rest);
      trace := trace + ([Deliver(e)] + rest);
    }

    // The reconciler

    /** Whether the reconciler is at `phase` of its first job, with `rest` behind it. */
    ghost predicate At(job: Job, rest: seq<Job>, phase: Phase)
      reads this
    {
      reconciler == Busy([job] + rest, phase)
    }

    method WriteBack(job: Job, ghost rest: seq<Job>, e: Event, replies: Replies, n: nat) returns (next: nat)
      requires At(job, rest, Writing(e)) && job.id < |events|
      modifies this
      ensures reconciler == Busy(rest, Fetch) && trace == old(trace) && |events| == |old(events)|
      ensures Drive(cfg, Sys(), replies, next) == Drive(cfg, old(Sys()), replies, n)
    {
      next := n + 1;
      assert ([job] + rest)[1..] == rest;
      reconciler := Busy(rest, Fetch);
      if !replies(n).fails {
        events := events[job.id := e];
      }
    }

    /** Enqueues an Accepted decision that passed the supersede check. */
    method Submit(job: Job, ghost rest: seq<Job>, replies: Replies, n: nat) returns (next: nat)
      requires At(job, rest, Cleared) && job.id < |events| && job.e.status.Accepted?
      modifies this
      ensures reconciler == Busy(rest, Fetch) && trace == old(trace) && |events| == |old(events)|
      ensures Drive(cfg, Sys(), replies, next) == Drive(cfg, old(Sys()), replies, n)
    {
      next := n + 1;
      assert ([job] + rest)[1..] == rest;
      var e := job.e;
      var status := StatusFromString(e.outcome);
      if replies(n).fails || !cfg.relays {
        reconciler := Busy(rest, Fetch);
        return;
      }
      if status.None? {
        reconciler := Busy([job] + rest, Writing(e.(status := ApplyStatus.Failed)));
        next := WriteBack(job, rest, e.(status := ApplyStatus.Failed), replies, next);
        return;
      }
      if e.outcome == "Allowed" && cfg.guarded {
        match replies(n).guard
        case GuardError =>
          reconciler := Busy(rest, Fetch);
          return;
        case Refuse =>
          reconciler := Busy([job] + rest, Writing(e.(status := ApplyStatus.Failed)));
          next := WriteBack(job, rest, e.(status := ApplyStatus.Failed), replies, next);
          return;
        case Admit =>
      }
      var (after, result) := SubmitCall(cfg.tx, tx, StatusRequest(cfg, e, status.value), replies(n).env);
      tx := after;
      handed := handed + [Handed(e.address, ClaimOf(e))];
      if result.Error? {
        reconciler := Busy(rest, Fetch);
        return;
      }
      var applying := e.(status := Applying, txId := Some(result.id));
      reconciler := Busy([job] + rest, Writing(applying));
      next := WriteBack(job, rest, applying, replies, next);
    }

    /** Follows an Applying decision's transaction. */
    method FollowSubmitted(job: Job, ghost rest: seq<Job>, replies: Replies, n: nat) returns (next: nat)
      requires At(job, rest, Cleared) && job.id < |events| && !job.e.status.Accepted?
      modifies this
      ensures reconciler == Busy(rest, Fetch) && trace == old(trace) && |events| == |old(events)|
      ensures Drive(cfg, Sys(), replies, next) == Drive(cfg, old(Sys()), replies, n)
    {
      next := n + 1;
      assert ([job] + rest)[1..] == rest;
      if replies(n).fails || (job.e.txId.Some? && job.e.txId.value >= |tx.store|) {
        reconciler := Busy(rest, Fetch);
        return;
      }
      var changed := Some(job.e.(status := ApplyStatus.Accepted));
      if job.e.txId.Some? {
        changed := CheckSubmitted(job.e, tx.store[job.e.txId.value].status);
      }
      if changed.None? {
        reconciler := Busy(rest, Fetch);
        return;
      }
      reconciler := Busy([job] + rest, Writing(changed.value));
      next := WriteBack(job, rest, changed.value, replies, next);
    }

    /** Finalizes an event whose delivery was interrupted. */
    method Recover(job: Job, ghost rest: seq<Job>, replies: Replies, n: nat) returns (next: nat)
      requires At(job, rest, Finalizing(Worker(job.id, job.e, Start))) && job.id < |events|
      modifies this
      ensures reconciler == Busy(rest, Fetch) && trace == old(trace) && |events| == |old(events)|
      ensures Drive(cfg, Sys(), replies, next) == Drive(cfg, old(Sys()), replies, n)
    {
      assert ([job] + rest)[1..] == rest;
      DriveFinalizes(cfg, Sys(), Worker(job.id, job.e, Start), replies, n);
      FinalizeKeepsEvents(Sys(), Worker(job.id, job.e, Start), replies, n);
      var _, done := FinalizeClaim(job.id, job.e, replies, n);
      next := done;
      reconciler := Busy(rest, Fetch);
    }

    /** One event of the pending list, as it was when listed. */
    method ReconcileOne(job: Job, ghost rest: seq<Job>, replies: Replies, n: nat) returns (next: nat)
      requires At(job, rest, Fetch) && job.id < |events| && !job.e.status.Applied?
      modifies this
      ensures reconciler == Busy(rest, Fetch) && trace == old(trace) && |events| == |old(events)|
      ensures Drive(cfg, Sys(), replies, next) == Drive(cfg, old(Sys()), replies, n)
    {
      next := n + 1;
      assert ([job] + rest)[1..] == rest;
      if replies(n).fails {
        reconciler := Busy(rest, Fetch);
        return;
      }
      if job.e.status.Claiming? {
        reconciler := Busy([job] + rest, Finalizing(Worker(job.id, job.e, Start)));
        next := Recover(job, rest, replies, next);
      } else if job.e.address in claims && claims[job.e.address].key != EventKey(job.e) {
        reconciler := Busy([job] + rest, Writing(job.e.(status := Superseded)));
        next := WriteBack(job, rest, job.e.(status := Superseded), replies, next);
      } else {
        reconciler := Busy([job] + rest, Cleared);
        if job.e.status.Accepted? {
          next := Submit(job, rest, replies, next);
        } else {
          next := FollowSubmitted(job, rest, replies, next);
        }
      }
    }

    /** One Applied event: back to Accepted when its transaction was reorged out. */
    method ReopenOne(job: Job, ghost rest: seq<Job>, replies: Replies, n: nat) returns (next: nat)
      requires At(job, rest, Fetch) && job.id < |events| && job.e.status.Applied?
      modifies this
      ensures reconciler == Busy(rest, Fetch) && trace == old(trace) && |events| == |old(events)|
      ensures Drive(cfg, Sys(), replies, next) == Drive(cfg, old(Sys()), replies, n)
    {
      next := n + 1;
      assert ([job] + rest)[1..] == rest;
      if replies(n).fails || job.e.txId.None? || job.e.txId.value >= |tx.store| || !tx.store[job.e.txId.value].status.Reorged? {
        reconciler := Busy(rest, Fetch);
        return;
      }
      var reopened := job.e.(status := ApplyStatus.Accepted, txId := None);
      reconciler := Busy([job] + rest, Writing(reopened));
      next := WriteBack(job, rest, reopened, replies, next);
    }

    /** The ids of the listed events, oldest first: the Applied ones with a transaction, or the pending ones. */
    method ListIds(applied: bool) returns (ids: seq<nat>)
      ensures ids == Ids(events, |events|, applied)
    {
      ids := [];
      for i := 0 to |events|
        invariant ids == Ids(events, i, applied)
      {
        if Listed(events[i]) && events[i].status.Applied? == applied {
          ids := ids + [i];
        }
      }
    }

    /** Works through one listing. */
    method Work(ids: seq<nat>, replies: Replies, n: nat) returns (next: nat)
      requires reconciler.Idle?
      modifies this
      ensures (Sys(), next) == Drive(cfg, Act(cfg, old(Sys()), List(ids)), replies, n)
      ensures trace == old(trace) && reconciler.Idle?
    {
      var queue := Jobs(events, ids);
      JobsInRange(events, ids);
      next := n;
      reconciler := Busy(queue, Fetch);
      ghost var start := Sys();
      var i := 0;
      while i < |queue|
        invariant 0 <= i <= |queue|
        invariant reconciler == Busy(queue[i..], Fetch) && trace == old(trace)
        invariant forall k :: 0 <= k < |queue| ==> queue[k].id < |events|
        invariant Drive(cfg, Sys(), replies, next) == Drive(cfg, start, replies, n)
      {
        var job := queue[i];
        assert queue[i..] == [job] + queue[i + 1..];
        if job.e.status.Applied? {
          next := ReopenOne(job, queue[i + 1..], replies, next);
        } else {
          next := ReconcileOne(job, queue[i + 1..], replies, next);
        }
        i := i + 1;
      }
      reconciler := Idle;
    }

    /** One pass: the pending events, then the Applied ones a reorg may have undone. */
    method Reconcile(replies: Replies)
      requires Valid()
      modifies this
      ensures Valid() && old(trace) <= trace
      ensures Sys() == Pass(cfg, old(Sys()), replies)
    {
      ghost var before := Sys();
      var pending := ListIds(false);
      var next := Work(pending, replies, 0);
      ghost var middle := Sys();
      var applied := ListIds(true);
      next := Work(applied, replies, next);
      ghost var first := WorkIsARun(cfg, before, pending, replies, 0);
      ghost var second := WorkIsARun(cfg, middle, applied, replies, Drive(cfg, Act(cfg, before, List(pending)), replies, 0).1);
      ContinueSplits(cfg, before, first, second);
      ExecuteSplits(cfg, trace, first + second);
      trace := trace + (first + second);
    }
  }

  function Ids(events: seq<Event>, upTo: nat, applied: bool): seq<nat>
    requires upTo <= |events|
  {
    if upTo == 0 then []
    else
      Ids(events, upTo - 1, applied)
      + if Listed(events[upTo - 1]) && events[upTo - 1].status.Applied? == applied then [upTo - 1] else []
  }

  lemma {:induction false} JobsInRange(events: seq<Event>, ids: seq<nat>)
    ensures forall k :: 0 <= k < |Jobs(events, ids)| ==> Jobs(events, ids)[k].id < |events|
  {
    if ids != [] {
      JobsInRange(events, ids[1..]);
    }
  }

  /** List the pending events and drain them, then the same for the Applied ones. */
  function Pass(cfg: Settings, s: System, replies: Replies): System
    requires s.reconciler.Idle?
  {
    var (s1, n) := Drive(cfg, Act(cfg, s, List(Ids(s.events, |s.events|, false))), replies, 0);
    DriveEndsIdle(cfg, Act(cfg, s, List(Ids(s.events, |s.events|, false))), replies, 0);
    Drive(cfg, Act(cfg, s1, List(Ids(s1.events, |s1.events|, true))), replies, n).0
  }

  lemma {:induction false} DriveEndsIdle(cfg: Settings, s: System, replies: Replies, n: nat)
    requires s.reconciler.Busy?
    ensures Drive(cfg, s, replies, n).0.reconciler.Idle?
    decreases |s.reconciler.queue|, PhaseRank(s.reconciler.phase)
  {
    if s.reconciler.queue != [] {
      if replies(n).fails {
        DriveEndsIdle(cfg, Next(s), replies, n + 1);
      } else {
        AdvanceDescends(cfg, s, replies(n).env, replies(n).guard);
        DriveEndsIdle(cfg, AdvanceStep(cfg, s, replies(n).env, replies(n).guard), replies, n + 1);
      }
    }
  }

  lemma WorkIsARun(cfg: Settings, s: System, ids: seq<nat>, replies: Replies, n: nat) returns (actions: seq<Action>)
    requires s.reconciler.Idle?
    ensures Drive(cfg, Act(cfg, s, List(ids)), replies, n).0 == Continue(cfg, s, actions)
  {
    var rest := DriveIsARun(cfg, Act(cfg, s, List(ids)), replies, n);
    actions := [List(ids)] + rest;
    OneAction(cfg, s, List(ids), rest);
  }
}
