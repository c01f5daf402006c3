/** What one job, and then one whole pass of the reconciler, does with stored decisions. */
module KycPasses {
  import opened Options
  import opened Strings
  import opened TxRecords
  import opened TxSpec
  import opened KycProtocol
  import opened KycClaims
  import opened KycOrder
  import opened KycServers
  import opened KycProgress
  import opened KycDecisions

  // One job

  ghost predicate Begins(s: System, job: Job, rest: seq<Job>) {
    s.reconciler == Busy([job] + rest, Fetch) && job.id < |s.events|
  }

  /** The wallet is not claimed by another decision. */
  predicate Holds(claims: Claims, e: Event) {
    e.address in claims ==> claims[e.address].key == e.provider + "|" + e.eventId
  }

  /** The job is done and its event left as it is. */
  function Left(s: System, rest: seq<Job>): System {
    s.(reconciler := Busy(rest, Fetch))
  }

  /** The job is done and its event replaced. */
  function Written(s: System, job: Job, rest: seq<Job>, e: Event): System
    requires job.id < |s.events|
  {
    s.(events := s.events[job.id := e], reconciler := Busy(rest, Fetch))
  }

  lemma DriveOnce(cfg: Settings, s: System, replies: Replies, n: nat)
    requires s.reconciler.Busy? && s.reconciler.queue != [] && !replies(n).fails
    ensures var t := AdvanceStep(cfg, s, replies(n).env, replies(n).guard);
      t.reconciler.Busy? && Drive(cfg, s, replies, n) == Drive(cfg, t, replies, n + 1)
  {
    AdvanceDescends(cfg, s, replies(n).env, replies(n).guard);
  }

  lemma WriteOnce(cfg: Settings, s: System, job: Job, rest: seq<Job>, e: Event, replies: Replies, n: nat)
    requires s.reconciler == Busy([job] + rest, Writing(e)) && job.id < |s.events| && !replies(n).fails
    ensures Drive(cfg, s, replies, n) == Drive(cfg, Written(s, job, rest, e), replies, n + 1)
  {
    assert ([job] + rest)[1..] == rest;
    DriveOnce(cfg, s, replies, n);
  }

  /** A pending decision whose wallet another one claims is Superseded. */
  lemma RivalledJob(cfg: Settings, s: System, job: Job, rest: seq<Job>, replies: Replies, n: nat)
    requires Begins(s, job, rest) && Undisturbed(replies)
    requires (job.e.status.Accepted? || job.e.status.Applying?) && !Holds(s.claims, job.e)
    ensures Drive(cfg, s, replies, n) == Drive(cfg, Written(s, job, rest, job.e.(status := ApplyStatus.Superseded)), replies, n + 2)
  {
    KeySpelled(job.e);
    DriveOnce(cfg, s, replies, n);
    WriteOnce(cfg, s.(reconciler := Busy([job] + rest, Writing(job.e.(status := ApplyStatus.Superseded)))), job, rest, job.e.(status := ApplyStatus.Superseded), replies, n + 1);
  }

  lemma ClearedJob(cfg: Settings, s: System, job: Job, rest: seq<Job>, replies: Replies, n: nat)
    requires Begins(s, job, rest) && Undisturbed(replies)
    requires (job.e.status.Accepted? || job.e.status.Applying?) && Holds(s.claims, job.e)
    ensures var t := s.(reconciler := Busy([job] + rest, Cleared));
      && Drive(cfg, s, replies, n) == Drive(cfg, t, replies, n + 1)
      && var u := ClearedStep(cfg, t, job, replies(n + 1).env, replies(n + 1).guard);
         u.reconciler.Busy? && Drive(cfg, t, replies, n + 1) == Drive(cfg, u, replies, n + 2)
  {
    KeySpelled(job.e);
    DriveOnce(cfg, s, replies, n);
    DriveOnce(cfg, s.(reconciler := Busy([job] + rest, Cleared)), replies, n + 1);
  }

  /** The relay call for a decision, spelled out. */
  function Relay(cfg: Settings, e: Event): SubmitRequest {
    SubmitRequest(
      "kyc-status:" + e.provider + "|" + e.eventId, cfg.signer,
      Call(cfg.contract, SetStatus(e.address, if e.outcome == "Allowed" then 1 else 2, e.validUntil), 0), true)
  }

  function HandedFor(e: Event): Handed {
    Handed(e.address, Claim(e.occurredAt, e.provider + "|" + e.eventId))
  }

  /** An Accepted decision that holds its wallet and passes the guard is submitted, and linked to what Submit names. */
  lemma SubmittedJob(cfg: Settings, s: System, job: Job, rest: seq<Job>, replies: Replies, n: nat)
    requires Begins(s, job, rest) && Undisturbed(replies) && cfg.relays
    requires job.e.status.Accepted? && Holds(s.claims, job.e)
    requires job.e.outcome == "Blocked" || (job.e.outcome == "Allowed" && (cfg.guarded ==> replies(n + 1).guard.Admit?))
    ensures var (tx, result) := SubmitCall(cfg.tx, s.tx, Relay(cfg, job.e), replies(n + 1).env);
      var t := s.(tx := tx, handed := s.handed + [HandedFor(job.e)]);
      Drive(cfg, s, replies, n) ==
        if result.Error? then Drive(cfg, Left(t, rest), replies, n + 2)
        else Drive(cfg, Written(t, job, rest, job.e.(status := Applying, txId := Some(result.id))), replies, n + 3)
  {
    KeySpelled(job.e);
    ClearedJob(cfg, s, job, rest, replies, n);
    assert ([job] + rest)[1..] == rest;
    assert Relay(cfg, job.e) == StatusRequest(cfg, job.e, StatusFromString(job.e.outcome).value) by {
      assert TxKey(job.e) == "kyc-status:" + job.e.provider + "|" + job.e.eventId;
    }
    var (tx, result) := SubmitCall(cfg.tx, s.tx, Relay(cfg, job.e), replies(n + 1).env);
    var t := s.(tx := tx, handed := s.handed + [HandedFor(job.e)]);
    if !result.Error? {
      var e := job.e.(status := Applying, txId := Some(result.id));
      WriteOnce(cfg, t.(reconciler := Busy([job] + rest, Writing(e))), job, rest, e, replies, n + 2);
    }
  }

  /** One that cannot be submitted: without a relay or while the guard cannot answer it waits; refused approvals, and
      outcomes with no number on chain, are Failed. The guard is asked about approvals alone. */
  lemma WithheldJob(cfg: Settings, s: System, job: Job, rest: seq<Job>, replies: Replies, n: nat)
    requires Begins(s, job, rest) && Undisturbed(replies)
    requires job.e.status.Accepted? && Holds(s.claims, job.e)
    ensures var asked := job.e.outcome == "Allowed" && cfg.guarded;
      var waits := !cfg.relays || (asked && replies(n + 1).guard.GuardError?);
      var fails := cfg.relays && (job.e.outcome !in {"Unknown", "Allowed", "Blocked"} || (asked && replies(n + 1).guard.Refuse?));
      && (waits ==> Drive(cfg, s, replies, n) == Drive(cfg, Left(s, rest), replies, n + 2))
      && (fails ==> Drive(cfg, s, replies, n) == Drive(cfg, Written(s, job, rest, job.e.(status := ApplyStatus.Failed)), replies, n + 3))
  {
    ClearedJob(cfg, s, job, rest, replies, n);
    assert ([job] + rest)[1..] == rest;
    var asked := job.e.outcome == "Allowed" && cfg.guarded;
    if cfg.relays && (job.e.outcome !in {"Unknown", "Allowed", "Blocked"} || (asked && replies(n + 1).guard.Refuse?)) {
      var e := job.e.(status := ApplyStatus.Failed);
      WriteOnce(cfg, s.(reconciler := Busy([job] + rest, Writing(e))), job, rest, e, replies, n + 2);
    }
  }

  /** What becomes of an Applying decision when its transaction stands at `status`. */
  ghost predicate Follows(e: Event, status: Status, e': Event) {
    match status
    case Confirmed => e' == e.(status := Applied)
    case Reverted => e' == e.(status := ApplyStatus.Failed)
    case Failed => e' == e.(status := ApplyStatus.Accepted, txId := None)
    case Reorged => e' == e.(status := ApplyStatus.Accepted, txId := None)
    case _ => e' == e
  }

  /** An Applying decision that holds its wallet follows its transaction; without one it is Accepted again. */
  lemma FollowedJob(cfg: Settings, s: System, job: Job, rest: seq<Job>, replies: Replies, n: nat) returns (e: Event, next: nat)
    requires Begins(s, job, rest) && Undisturbed(replies)
    requires job.e.status.Applying? && Holds(s.claims, job.e) && s.events[job.id] == job.e
    ensures Drive(cfg, s, replies, n) == Drive(cfg, Written(s, job, rest, e), replies, next)
    ensures match job.e.txId
      case None => e == job.e.(status := ApplyStatus.Accepted)
      case Some(id) => if id < |s.tx.store| then Follows(job.e, s.tx.store[id].status, e) else e == job.e
  {
    ClearedJob(cfg, s, job, rest, replies, n);
    assert ([job] + rest)[1..] == rest;
    var u := ClearedStep(cfg, s.(reconciler := Busy([job] + rest, Cleared)), job, replies(n + 1).env, replies(n + 1).guard);
    if u.reconciler.phase.Writing? {
      e, next := u.reconciler.phase.next, n + 3;
      WriteOnce(cfg, u, job, rest, e, replies, n + 2);
      assert u == s.(reconciler := u.reconciler);
    } else {
      e, next := job.e, n + 2;
      assert s.events[job.id := e] == s.events;
    }
  }

  /** An Applied decision is Accepted again exactly when its transaction was reorged out. */
  lemma ReopenedJob(cfg: Settings, s: System, job: Job, rest: seq<Job>, replies: Replies, n: nat) returns (e: Event, next: nat)
    requires Begins(s, job, rest) && Undisturbed(replies) && job.e.status.Applied? && s.events[job.id] == job.e
    ensures Drive(cfg, s, replies, n) == Drive(cfg, Written(s, job, rest, e), replies, next)
    ensures if job.e.txId.Some? && job.e.txId.value < |s.tx.store| && s.tx.store[job.e.txId.value].status.Reorged?
      then e == job.e.(status := ApplyStatus.Accepted, txId := None) else e == job.e
  {
    DriveOnce(cfg, s, replies, n);
    assert ([job] + rest)[1..] == rest;
    if job.e.txId.Some? && job.e.txId.value < |s.tx.store| && s.tx.store[job.e.txId.value].status.Reorged? {
      e, next := job.e.(status := ApplyStatus.Accepted, txId := None), n + 2;
      WriteOnce(cfg, s.(reconciler := Busy([job] + rest, Writing(e))), job, rest, e, replies, n + 1);
    } else {
      e, next := job.e, n + 1;
      assert s.events[job.id := e] == s.events;
    }
  }

  /** The decision is the first on its wallet or later than the one that claims it. */
  ghost predicate TakesOver(claims: Claims, e: Event) {
    e.address in claims ==>
      var held := claims[e.address];
      || held.occurredAt < e.occurredAt
      || (held.occurredAt == e.occurredAt && Less(held.key, e.provider + "|" + e.eventId))
  }

  /** A Claiming decision takes its wallet over if it is later, and is then, or if it claimed the wallet before, Accepted
      or, when Pending, Recorded. */
  lemma FinalizedJob(cfg: Settings, s: System, job: Job, rest: seq<Job>, replies: Replies, n: nat) returns (next: nat)
    requires Begins(s, job, rest) && Undisturbed(replies) && job.e.status.Claiming?
    ensures var takes := TakesOver(s.claims, job.e);
      var claims := if takes then s.claims[job.e.address := Claim(job.e.occurredAt, job.e.provider + "|" + job.e.eventId)] else s.claims;
      var status := if !takes && !Holds(s.claims, job.e) then ApplyStatus.Superseded
        else if job.e.outcome == "Pending" then ApplyStatus.Recorded else ApplyStatus.Accepted;
      Drive(cfg, s, replies, n) == Drive(cfg, Written(s.(claims := claims), job, rest, job.e.(status := status)), replies, next)
  {
    KeySpelled(job.e);
    assert ([job] + rest)[1..] == rest;
    var w := Worker(job.id, job.e, Start);
    var s0 := s.(reconciler := Busy([job] + rest, Finalizing(w)));
    DriveOnce(cfg, s, replies, n);
    DriveFinalizes(cfg, s0, w, replies, n + 1);
    var (t, m, _) := FinalizeRun(s0, w, replies, n + 1);
    next := m;
    FinalizedOnce(s0, w, replies, n + 1);
  }

  lemma FinalizedOnce(s: System, w: Worker, replies: Replies, n: nat)
    requires Undisturbed(replies) && w.stage.Start? && w.id < |s.events|
    ensures var takes := TakesOver(s.claims, w.e);
      var claims := if takes then s.claims[w.e.address := Claim(w.e.occurredAt, w.e.provider + "|" + w.e.eventId)] else s.claims;
      var status := if !takes && !Holds(s.claims, w.e) then ApplyStatus.Superseded
        else if w.e.outcome == "Pending" then ApplyStatus.Recorded else ApplyStatus.Accepted;
      FinalizeRun(s, w, replies, n).0 == s.(claims := claims, events := s.events[w.id := w.e.(status := status)])
  {
    KeySpelled(w.e);
    var (s1, w1) := WorkerStep(s, w);
    assert FinalizeRun(s, w, replies, n) == FinalizeRun(s1, w1.value, replies, n + 1);
    if w1.value.stage.Beaten? {
      var (s2, w2) := WorkerStep(s1, w1.value);
      assert FinalizeRun(s1, w1.value, replies, n + 1) == FinalizeRun(s2, w2.value, replies, n + 2);
    }
  }

  // One pass

  /** No operation fails and the guard admits every approval. */
  ghost predicate Admitting(replies: Replies) {
    Undisturbed(replies) && forall n :: replies(n).guard.Admit?
  }

  /** The jobs stand for different events as they are. */
  ghost predicate Current(s: System, queue: seq<Job>) {
    && (forall k :: 0 <= k < |queue| ==> queue[k].id < |s.events| && s.events[queue[k].id] == queue[k].e)
    && (forall k, l :: 0 <= k < l < |queue| ==> queue[k].id != queue[l].id)
  }

  ghost predicate PendingJobs(queue: seq<Job>) {
    forall k :: 0 <= k < |queue| ==>
      (queue[k].e.status.Accepted? || queue[k].e.status.Applying?) && queue[k].e.outcome in {"Allowed", "Blocked"}
  }

  ghost predicate AppliedJobs(queue: seq<Job>) {
    forall k :: 0 <= k < |queue| ==> queue[k].e.status.Applied?
  }

  ghost predicate Among(queue: seq<Job>, i: nat) {
    exists k :: 0 <= k < |queue| && queue[k].id == i
  }

  /** What a pass hands out for its pending jobs. */
  function Submitted(claims: Claims, queue: seq<Job>): seq<Handed> {
    if queue == [] then []
    else (if queue[0].e.status.Accepted? && Holds(claims, queue[0].e) then [HandedFor(queue[0].e)] else []) + Submitted(claims, queue[1..])
  }

  /** A pending decision's next state: Superseded if another claims its wallet, and otherwise anything its submission or
      transaction may make it. */
  ghost predicate Decided(claims: Claims, e: Event, e': Event) {
    if !Holds(claims, e) then e' == e.(status := ApplyStatus.Superseded)
    else if e.status.Accepted? then e' == e || e' == e.(status := Applying, txId := e'.txId)
    else SameDelivery(e, e') && e'.status in {ApplyStatus.Accepted, Applying, Applied, ApplyStatus.Failed}
  }

  ghost predicate OneDecided(s: System, t: System, job: Job) {
    && job.id < |s.events| == |t.events| && t.claims == s.claims
    && (forall i :: 0 <= i < |s.events| && i != job.id ==> t.events[i] == s.events[i])
    && Decided(s.claims, job.e, t.events[job.id])
    && t.handed == s.handed + if job.e.status.Accepted? && Holds(s.claims, job.e) then [HandedFor(job.e)] else []
  }

  ghost predicate AllDecided(s: System, t: System, queue: seq<Job>) {
    && |t.events| == |s.events| && t.claims == s.claims
    && t.handed == s.handed + Submitted(s.claims, queue)
    && forall i :: 0 <= i < |s.events| ==>
         if Among(queue, i) then Decided(s.claims, s.events[i], t.events[i]) else t.events[i] == s.events[i]
  }

  lemma DecidedOnward(s: System, u: System, t: System, queue: seq<Job>)
    requires queue != [] && Current(s, queue) && OneDecided(s, u, queue[0]) && AllDecided(u, t, queue[1..])
    ensures AllDecided(s, t, queue)
  {
    forall i | 0 <= i < |s.events|
      ensures if Among(queue, i) then Decided(s.claims, s.events[i], t.events[i]) else t.events[i] == s.events[i]
    {
      AmongSplits(queue, i);
      OthersLater(s, queue);
    }
  }

  lemma OthersLater(s: System, queue: seq<Job>)
    requires queue != [] && Current(s, queue)
    ensures !Among(queue[1..], queue[0].id)
  {
  }

  lemma StillCurrent(s: System, u: System, queue: seq<Job>)
    requires queue != [] && Current(s, queue) && |u.events| == |s.events|
    requires forall i :: 0 <= i < |s.events| && i != queue[0].id ==> u.events[i] == s.events[i]
    ensures Current(u, queue[1..])
  {
    forall k | 0 <= k < |queue[1..]| ensures queue[1..][k] == queue[k + 1] && queue[k + 1].id != queue[0].id {
    }
  }

  lemma PendingJob(cfg: Settings, s: System, job: Job, rest: seq<Job>, replies: Replies, n: nat) returns (t: System, next: nat)
    requires Begins(s, job, rest) && Admitting(replies) && cfg.relays && s.events[job.id] == job.e && PendingJobs([job])
    ensures t.reconciler == Busy(rest, Fetch) && Drive(cfg, s, replies, n) == Drive(cfg, t, replies, next)
    ensures OneDecided(s, t, job)
  {
    assert [job][0] == job;
    if !Holds(s.claims, job.e) {
      RivalledJob(cfg, s, job, rest, replies, n);
      t, next := Written(s, job, rest, job.e.(status := ApplyStatus.Superseded)), n + 2;
    } else if job.e.status.Accepted? {
      SubmittedJob(cfg, s, job, rest, replies, n);
      var (tx, result) := SubmitCall(cfg.tx, s.tx, Relay(cfg, job.e), replies(n + 1).env);
      var u := s.(tx := tx, handed := s.handed + [HandedFor(job.e)]);
      if result.Error? {
        t, next := Left(u, rest), n + 2;
      } else {
        t, next := Written(u, job, rest, job.e.(status := Applying, txId := Some(result.id))), n + 3;
      }
    } else {
      var e;
      e, next := FollowedJob(cfg, s, job, rest, replies, n);
      t := Written(s, job, rest, e);
    }
  }

  lemma {:induction false} WorkDecides(cfg: Settings, s: System, replies: Replies, n: nat)
    requires s.reconciler.Busy? && s.reconciler.phase.Fetch? && Admitting(replies) && cfg.relays
    requires Current(s, s.reconciler.queue) && PendingJobs(s.reconciler.queue)
    ensures AllDecided(s, Drive(cfg, s, replies, n).0, s.reconciler.queue)
    decreases |s.reconciler.queue|
  {
    var queue := s.reconciler.queue;
    if queue != [] {
      assert queue == [queue[0]] + queue[1..];
      var u, next := PendingJob(cfg, s, queue[0], queue[1..], replies, n);
      StillCurrent(s, u, queue);
      WorkDecides(cfg, u, replies, next);
      DecidedOnward(s, u, Drive(cfg, u, replies, next).0, queue);
    }
  }

  lemma AmongSplits(queue: seq<Job>, i: nat)
    requires queue != []
    ensures Among(queue, i) <==> i == queue[0].id || Among(queue[1..], i)
  {
    if Among(queue[1..], i) {
      var k :| 0 <= k < |queue[1..]| && queue[1..][k].id == i;
      assert queue[k + 1].id == i;
    }
    if Among(queue, i) && i != queue[0].id {
      var k :| 0 <= k < |queue| && queue[k].id == i;
      assert queue[1..][k - 1].id == i;
    }
  }

  /** An Applied decision's next state. */
  ghost predicate Reopened(e: Event, e': Event) {
    e' == e || e' == e.(status := ApplyStatus.Accepted, txId := None)
  }

  ghost predicate WorkReopened(s: System, t: System, queue: seq<Job>) {
    && t.claims == s.claims && |t.events| == |s.events| && t.handed == s.handed && t.tx == s.tx
    && forall i :: 0 <= i < |s.events| ==>
         if Among(queue, i) then Reopened(s.events[i], t.events[i]) else t.events[i] == s.events[i]
  }

  lemma {:induction false} WorkReopens(cfg: Settings, s: System, replies: Replies, n: nat)
    requires s.reconciler.Busy? && s.reconciler.phase.Fetch? && Undisturbed(replies)
    requires Current(s, s.reconciler.queue) && AppliedJobs(s.reconciler.queue)
    ensures WorkReopened(s, Drive(cfg, s, replies, n).0, s.reconciler.queue)
    decreases |s.reconciler.queue|
  {
    var queue := s.reconciler.queue;
    if queue != [] {
      assert queue == [queue[0]] + queue[1..];
      var e, next := ReopenedJob(cfg, s, queue[0], queue[1..], replies, n);
      var u := Written(s, queue[0], queue[1..], e);
      StillCurrent(s, u, queue);
      WorkReopens(cfg, u, replies, next);
      OthersLater(s, queue);
      forall i | 0 <= i < |s.events| ensures Among(queue, i) <==> i == queue[0].id || Among(queue[1..], i) {
        AmongSplits(queue, i);
      }
    }
  }

  // What is listed

  ghost predicate ListsExactly(events: seq<Event>, ids: seq<nat>, upTo: nat, applied: bool)
    requires upTo <= |events|
  {
    && (forall k, l :: 0 <= k < l < |ids| ==> ids[k] < ids[l])
    && (forall i :: i in ids <==> 0 <= i < upTo && Pends(events[i], applied))
  }

  /** Listed with the Applied decisions, or with the pending ones. */
  predicate Pends(e: Event, applied: bool) {
    if applied then e.status.Applied? && e.txId.Some? else e.status in {Claiming, ApplyStatus.Accepted, Applying}
  }

  lemma {:induction false} IdsExactly(events: seq<Event>, upTo: nat, applied: bool)
    requires upTo <= |events|
    ensures ListsExactly(events, Ids(events, upTo, applied), upTo, applied)
  {
    if upTo > 0 {
      IdsExactly(events, upTo - 1, applied);
      PendsListed(events[upTo - 1], applied);
      OneMoreListed(events, Ids(events, upTo - 1, applied), upTo, applied);
    }
  }

  lemma PendsListed(e: Event, applied: bool)
    ensures Pends(e, applied) <==> Listed(e) && e.status.Applied? == applied
  {
  }

  lemma OneMoreListed(events: seq<Event>, ids: seq<nat>, upTo: nat, applied: bool)
    requires 0 < upTo <= |events| && ListsExactly(events, ids, upTo - 1, applied)
    ensures ListsExactly(events, ids + if Pends(events[upTo - 1], applied) then [upTo - 1] else [], upTo, applied)
  {
    assert forall k :: 0 <= k < |ids| ==> ids[k] in ids;
  }

  lemma {:induction false} JobsAre(events: seq<Event>, ids: seq<nat>)
    requires forall k :: 0 <= k < |ids| ==> ids[k] < |events| && Listed(events[ids[k]])
    ensures |Jobs(events, ids)| == |ids| && forall k :: 0 <= k < |ids| ==> Jobs(events, ids)[k] == Job(ids[k], events[ids[k]])
  {
    if ids != [] {
      JobsAre(events, ids[1..]);
    }
  }

  lemma ListingIs(events: seq<Event>, applied: bool) returns (ids: seq<nat>)
    ensures ids == Ids(events, |events|, applied) && ListsExactly(events, ids, |events|, applied)
    ensures var queue := Jobs(events, ids);
      |queue| == |ids| && forall k :: 0 <= k < |ids| ==> ids[k] in ids && ids[k] < |events| && queue[k] == Job(ids[k], events[ids[k]])
  {
    ids := Ids(events, |events|, applied);
    IdsExactly(events, |events|, applied);
    forall k | 0 <= k < |ids| ensures ids[k] in ids && ids[k] < |events| && Listed(events[ids[k]]) {
      PendsListed(events[ids[k]], applied);
    }
    JobsAre(events, ids);
  }

  /** A listing holds one current job for each pending, or each Applied, decision. */
  lemma ListingExactly(s: System, applied: bool)
    ensures var queue := Jobs(s.events, Ids(s.events, |s.events|, applied));
      && Current(s, queue)
      && (forall i :: 0 <= i < |s.events| ==> (Among(queue, i) <==> Pends(s.events[i], applied)))
      && (forall k :: 0 <= k < |queue| ==> Pends(queue[k].e, applied))
  {
    var ids := ListingIs(s.events, applied);
    var queue := Jobs(s.events, ids);
    forall i | 0 <= i < |s.events| ensures Among(queue, i) <==> Pends(s.events[i], applied) {
      if i in ids {
        var k :| 0 <= k < |ids| && ids[k] == i;
        assert queue[k].id == i;
      }
    }
  }

  // The whole pass

  lemma {:induction false} SubmittedExactly(claims: Claims, queue: seq<Job>, h: Handed)
    ensures h in Submitted(claims, queue) <==>
      exists k :: 0 <= k < |queue| && queue[k].e.status.Accepted? && Holds(claims, queue[k].e) && h == HandedFor(queue[k].e)
  {
    if queue != [] {
      SubmittedExactly(claims, queue[1..], h);
      if k :| 0 <= k < |queue| && queue[k].e.status.Accepted? && Holds(claims, queue[k].e) && h == HandedFor(queue[k].e) {
        assert k > 0 ==> queue[1..][k - 1] == queue[k];
      }
      if k :| 0 <= k < |queue[1..]| && queue[1..][k].e.status.Accepted? && Holds(claims, queue[1..][k].e) && h == HandedFor(queue[1..][k].e) {
        assert queue[k + 1] == queue[1..][k];
      }
    }
  }

  /** With nothing Claiming and event keys distinct, a wallet is claimed by its latest decision. */
  lemma LatestHolds(cfg: Settings, actions: seq<Action>, i: nat)
    requires var s := Execute(cfg, actions); NoneClaiming(s) && DistinctKeys(s.events) && i < |s.events|
    ensures var s := Execute(cfg, actions); Holds(s.claims, s.events[i]) <==> Latest(s.events, i)
  {
    var s := Execute(cfg, actions);
    var e := s.events[i];
    KeySpelled(e);
    LatestIsNewest(s, i);
    if Latest(s.events, i) {
      ClaimSettlesOnNewest(cfg, actions, i);
    }
    if Holds(s.claims, e) {
      ExecuteGood(cfg, actions);
      assert GoodEvent(s.claims, e) && Backed(s.events, e.address, s.claims[e.address]);
      var j :| 0 <= j < |s.events| && s.events[j].address == e.address && ClaimOf(s.events[j]) == s.claims[e.address];
      SameKeySameEvent(s.events, i, j);
      forall k | 0 <= k < |s.events| && s.events[k].address == e.address ensures !Newer(ClaimOf(s.events[k]), ClaimOf(e)) {
        assert GoodEvent(s.claims, s.events[k]);
      }
    }
  }

  /** What a pass may make of a stored decision that is not Claiming. */
  ghost predicate PassMove(latest: bool, e: Event, e': Event) {
    match e.status
    case Accepted => if latest then e' == e || e' == e.(status := Applying, txId := e'.txId) else e' == e.(status := ApplyStatus.Superseded)
    case Applying =>
      if latest then SameDelivery(e, e') && e'.status in {ApplyStatus.Accepted, Applying, Applied, ApplyStatus.Failed}
      else e' == e.(status := ApplyStatus.Superseded)
    case Applied => e' == e || e' == e.(status := ApplyStatus.Accepted, txId := None)
    case _ => e' == e
  }

  lemma PendingListing(cfg: Settings, actions: seq<Action>, queue: seq<Job>)
    requires var s := Execute(cfg, actions); NoneClaiming(s) && queue == Jobs(s.events, Ids(s.events, |s.events|, false))
    ensures var s := Execute(cfg, actions);
      Current(s, queue) && PendingJobs(queue) && forall i :: 0 <= i < |s.events| ==> (Among(queue, i) <==> s.events[i].status in {ApplyStatus.Accepted, Applying})
  {
    var s := Execute(cfg, actions);
    ListingExactly(s, false);
    ExecuteQuiet(cfg, actions);
    forall k | 0 <= k < |queue|
      ensures queue[k].e.status in {ApplyStatus.Accepted, Applying} && queue[k].e.outcome in {"Allowed", "Blocked"}
    {
      assert QuietEvent(s.events[queue[k].id]) && Pends(queue[k].e, false);
    }
  }

  ghost predicate AllReopened(u: System, t: System) {
    && |t.events| == |u.events| && t.handed == u.handed
    && forall i :: 0 <= i < |u.events| ==>
         if Pends(u.events[i], true) then Reopened(u.events[i], t.events[i]) else t.events[i] == u.events[i]
  }

  lemma FirstHalf(cfg: Settings, s: System, queue: seq<Job>, replies: Replies)
    requires s.reconciler.Idle? && cfg.relays && Admitting(replies)
    requires queue == Jobs(s.events, Ids(s.events, |s.events|, false)) && Current(s, queue) && PendingJobs(queue)
    ensures AllDecided(s, Drive(cfg, Act(cfg, s, List(Ids(s.events, |s.events|, false))), replies, 0).0, queue)
  {
    WorkDecides(cfg, Act(cfg, s, List(Ids(s.events, |s.events|, false))), replies, 0);
  }

  lemma ReopenedExactly(u: System, v: System, t: System, queue: seq<Job>)
    requires v.events == u.events && v.handed == u.handed && WorkReopened(v, t, queue)
    requires forall i :: 0 <= i < |u.events| ==> (Among(queue, i) <==> Pends(u.events[i], true))
    ensures AllReopened(u, t)
  {
  }

  lemma AppliedListing(s: System)
    ensures var queue := Jobs(s.events, Ids(s.events, |s.events|, true));
      Current(s, queue) && AppliedJobs(queue) && forall i :: 0 <= i < |s.events| ==> (Among(queue, i) <==> Pends(s.events[i], true))
  {
    ListingExactly(s, true);
  }

  lemma SecondHalf(cfg: Settings, u: System, replies: Replies, n: nat)
    requires u.reconciler.Idle? && Undisturbed(replies)
    ensures AllReopened(u, Drive(cfg, Act(cfg, u, List(Ids(u.events, |u.events|, true))), replies, n).0)
  {
    var ids := Ids(u.events, |u.events|, true);
    AppliedListing(u);
    ListStarts(cfg, u, ids);
    ListedReopens(cfg, u, Jobs(u.events, ids), replies, n);
  }

  lemma ListStarts(cfg: Settings, s: System, ids: seq<nat>)
    requires s.reconciler.Idle?
    ensures Act(cfg, s, List(ids)) == s.(reconciler := Busy(Jobs(s.events, ids), Fetch))
  {
  }

  lemma ListedReopens(cfg: Settings, u: System, queue: seq<Job>, replies: Replies, n: nat)
    requires Undisturbed(replies) && Current(u, queue) && AppliedJobs(queue)
    requires forall i :: 0 <= i < |u.events| ==> (Among(queue, i) <==> Pends(u.events[i], true))
    ensures AllReopened(u, Drive(cfg, u.(reconciler := Busy(queue, Fetch)), replies, n).0)
  {
    var v := u.(reconciler := Busy(queue, Fetch));
    WorkReopens(cfg, v, replies, n);
    ReopenedExactly(u, v, Drive(cfg, v, replies, n).0, queue);
  }

  /** A pass in two halves: the pending decisions, then the Applied ones. */
  lemma PassHalves(cfg: Settings, s: System, queue: seq<Job>, replies: Replies) returns (u: System)
    requires s.reconciler.Idle? && cfg.relays && Admitting(replies)
    requires queue == Jobs(s.events, Ids(s.events, |s.events|, false)) && Current(s, queue) && PendingJobs(queue)
    ensures AllDecided(s, u, queue) && AllReopened(u, Pass(cfg, s, replies))
  {
    FirstHalf(cfg, s, queue, replies);
    var s0 := Act(cfg, s, List(Ids(s.events, |s.events|, false)));
    var (mid, n) := Drive(cfg, s0, replies, 0);
    u := mid;
    DriveEndsIdle(cfg, s0, replies, 0);
    SecondHalf(cfg, u, replies, n);
  }

  lemma HandedExactly(s: System, u: System, queue: seq<Job>, i: nat)
    requires DistinctKeys(s.events) && Current(s, queue) && AllDecided(s, u, queue) && i < |s.events|
    requires forall k :: 0 <= k < |s.events| ==> (Among(queue, k) <==> s.events[k].status in {ApplyStatus.Accepted, Applying})
    ensures s.handed <= u.handed
    ensures HandedFor(s.events[i]) in u.handed[|s.handed|..] <==> s.events[i].status.Accepted? && Holds(s.claims, s.events[i])
  {
    var e := s.events[i];
    assert u.handed[|s.handed|..] == Submitted(s.claims, queue);
    SubmittedExactly(s.claims, queue, HandedFor(e));
    if Among(queue, i) {
      var k :| 0 <= k < |queue| && queue[k].id == i;
      assert queue[k].e == e;
    }
    if k :| 0 <= k < |queue| && queue[k].e.status.Accepted? && Holds(s.claims, queue[k].e) && HandedFor(e) == HandedFor(queue[k].e) {
      KeySpelled(e);
      KeySpelled(queue[k].e);
      SameKeySameEvent(s.events, i, queue[k].id);
    }
  }

  /** A pass without failures, after any run that left nothing Claiming, submits exactly the Accepted decisions that are the
      latest of their wallets, supersedes every other pending one, and leaves what is Recorded, Failed or Superseded. */
  lemma PassDecides(cfg: Settings, actions: seq<Action>, replies: Replies, i: nat)
    requires var s := Execute(cfg, actions);
      && s.reconciler.Idle? && NoneClaiming(s) && DistinctKeys(s.events) && cfg.relays && Admitting(replies)
      && i < |s.events|
    ensures var s := Execute(cfg, actions);
      var t := Pass(cfg, s, replies);
      var e, latest := s.events[i], Latest(s.events, i);
      && s.handed <= t.handed && |t.events| == |s.events|
      && (HandedFor(e) in t.handed[|s.handed|..] <==> e.status.Accepted? && latest)
      && PassMove(latest, e, t.events[i])
  {
    var s := Execute(cfg, actions);
    var queue := Jobs(s.events, Ids(s.events, |s.events|, false));
    PendingListing(cfg, actions, queue);
    var u := PassHalves(cfg, s, queue, replies);
    LatestHolds(cfg, actions, i);
    HandedExactly(s, u, queue, i);
  }
}
