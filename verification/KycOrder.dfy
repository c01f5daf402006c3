/** Decisions reach SetStatus, and then the chain, in decision order. */
module KycOrder {
  import opened Strings
  import opened TxRecords
  import opened TxSpec
  import opened KycProtocol
  import opened KycClaims

  /** Provider names without the separator make event keys unambiguous. */
  ghost predicate PlainProviders(events: seq<Event>) {
    forall i :: 0 <= i < |events| ==> '|' !in events[i].provider
  }

  ghost predicate UniqueDeliveries(events: seq<Event>) {
    forall i, j :: 0 <= i < j < |events| ==> (events[i].provider, events[i].eventId) != (events[j].provider, events[j].eventId)
  }

  /** An event key names one stored decision exactly when no provider name extends another past a separator. */
  lemma EventKeyCollision(p1: string, p2: string)
    requires p1 != p2
    ensures (exists e1, e2 :: Join(p1, '|', e1) == Join(p2, '|', e2)) <==> (p1 + ['|'] <= p2 || p2 + ['|'] <= p1)
  {
    JoinCollision(p1, p2, '|');
  }

  /** No two stored decisions share an event key. */
  ghost predicate DistinctKeys(events: seq<Event>) {
    forall i, j :: 0 <= i < j < |events| ==> EventKey(events[i]) != EventKey(events[j])
  }

  lemma SameKeySameEvent(events: seq<Event>, i: nat, j: nat)
    requires DistinctKeys(events)
    requires i < |events| && j < |events| && EventKey(events[i]) == EventKey(events[j])
    ensures i == j
  {
  }

  // SetStatus order

  ghost predicate HandedBacked(s: System, h: Handed) {
    h.address in s.claims && !Newer(h.claim, s.claims[h.address]) && Backed(s.events, h.address, h.claim)
  }

  ghost predicate HandedSorted(handed: seq<Handed>) {
    forall i, j :: 0 <= i < j < |handed| && handed[i].address == handed[j].address ==> !Newer(handed[i].claim, handed[j].claim)
  }

  /** Nothing newer of the wallet was handed out yet. */
  ghost predicate NextInLine(handed: seq<Handed>, e: Event) {
    forall i :: 0 <= i < |handed| && handed[i].address == e.address ==> !Newer(handed[i].claim, ClaimOf(e))
  }

  ghost predicate Orderly(s: System) {
    && UniqueDeliveries(s.events)
    && (forall i :: 0 <= i < |s.handed| ==> HandedBacked(s, s.handed[i]))
    && HandedSorted(s.handed)
    && (s.reconciler.Busy? && s.reconciler.phase.Cleared? && s.reconciler.queue != [] ==> NextInLine(s.handed, s.reconciler.queue[0].e))
  }

  lemma HandedStays(s: System, s': System)
    requires Orderly(s) && Grows(s, s') && s'.handed == s.handed
    ensures forall i :: 0 <= i < |s'.handed| ==> HandedBacked(s', s'.handed[i])
  {
    forall i | 0 <= i < |s'.handed| ensures HandedBacked(s', s'.handed[i]) {
      var h := s.handed[i];
      assert HandedBacked(s, h);
      NotNewerTransitive(h.claim, s.claims[h.address], s'.claims[h.address]);
      BackedStays(s.events, s'.events, h.address, h.claim);
    }
  }

  lemma UniqueStays(a: seq<Event>, b: seq<Event>)
    requires UniqueDeliveries(a) && EventsKept(a, b) && |a| == |b|
    ensures UniqueDeliveries(b)
  {
    forall i, j | 0 <= i < j < |b| ensures (b[i].provider, b[i].eventId) != (b[j].provider, b[j].eventId) {
      assert SameDelivery(a[i], b[i]) && SameDelivery(a[j], b[j]);
    }
  }

  /** Passing the supersede check means holding the claim, so everything handed out before is at most as new. */
  lemma FetchOrderly(s: System, job: Job)
    requires Good(s) && Orderly(s) && DistinctKeys(s.events)
    requires s.reconciler.Busy? && s.reconciler.queue != [] && job == s.reconciler.queue[0]
    ensures Orderly(FetchStep(s, job))
  {
    var s' := FetchStep(s, job);
    FetchGood(s, job);
    forall i | 0 <= i < |s'.handed| ensures HandedBacked(s', s'.handed[i]) {
      assert HandedBacked(s, s.handed[i]);
    }
    if s'.reconciler.phase.Cleared? {
      assert GoodJob(s.events, s.claims, job);
      var e := job.e;
      assert HoldsClaim(s.claims, e) && Backed(s.events, e.address, s.claims[e.address]);
      var i :| 0 <= i < |s.events| && s.events[i].address == e.address && ClaimOf(s.events[i]) == s.claims[e.address];
      SameKeySameEvent(s.events, i, job.id);
      forall k | 0 <= k < |s.handed| && s.handed[k].address == e.address ensures !Newer(s.handed[k].claim, ClaimOf(e)) {
        assert HandedBacked(s, s.handed[k]);
      }
    }
  }

  lemma ClearedOrderly(cfg: Settings, s: System, job: Job, env: SubmitEnv, guard: GuardAnswer)
    requires Good(s) && Orderly(s)
    requires s.reconciler.Busy? && s.reconciler.phase.Cleared? && s.reconciler.queue != [] && job == s.reconciler.queue[0]
    ensures Orderly(ClearedStep(cfg, s, job, env, guard))
  {
    var s' := ClearedStep(cfg, s, job, env, guard);
    ClearedFrame(cfg, s, job, env, guard);
    assert GoodJob(s.events, s.claims, job);
    assert Backed(s.events, job.e.address, ClaimOf(job.e)) by {
      assert s.events[job.id].address == job.e.address && ClaimOf(s.events[job.id]) == ClaimOf(job.e);
    }
    HandsAtMostOne(cfg, s, job, env, guard);
    forall i | 0 <= i < |s'.handed| ensures HandedBacked(s', s'.handed[i]) {
      assert i < |s.handed| ==> HandedBacked(s, s.handed[i]);
    }
  }

  lemma HandsAtMostOne(cfg: Settings, s: System, job: Job, env: SubmitEnv, guard: GuardAnswer)
    requires s.reconciler.Busy? && s.reconciler.queue != []
    ensures var s' := ClearedStep(cfg, s, job, env, guard);
      || (s'.handed == s.handed && s'.tx == s.tx)
      || (s'.handed == s.handed + [Handed(job.e.address, ClaimOf(job.e))]
          && StatusFromString(job.e.outcome).Some?
          && s'.tx == SubmitCall(cfg.tx, s.tx, StatusRequest(cfg, job.e, StatusFromString(job.e.outcome).value), env).0)
  {
  }

  lemma ActOrderly(cfg: Settings, s: System, action: Action)
    requires Good(s) && Orderly(s) && DistinctKeys(s.events)
    ensures Orderly(Act(cfg, s, action))
  {
    var s' := Act(cfg, s, action);
    ActGood(cfg, s, action);
    if action.Advance? && s.reconciler.Busy? && s.reconciler.queue != [] && s.reconciler.phase.Fetch? {
      FetchOrderly(s, s.reconciler.queue[0]);
    } else if action.Advance? && s.reconciler.Busy? && s.reconciler.queue != [] && s.reconciler.phase.Cleared? {
      ClearedOrderly(cfg, s, s.reconciler.queue[0], action.env, action.guard);
    } else {
      OtherActs(cfg, s, action);
      HandedStays(s, s');
      if action.Deliver? && s' != s {
        forall i, j | 0 <= i < j < |s'.events|
          ensures (s'.events[i].provider, s'.events[i].eventId) != (s'.events[j].provider, s'.events[j].eventId)
        {
        }
      } else {
        UniqueStays(s.events, s'.events);
      }
    }
  }

  /** Every other action hands out nothing and never clears a job. */
  lemma OtherActs(cfg: Settings, s: System, action: Action)
    requires !(action.Advance? && s.reconciler.Busy? && s.reconciler.queue != [] && (s.reconciler.phase.Fetch? || s.reconciler.phase.Cleared?))
    ensures var s' := Act(cfg, s, action);
      && s'.handed == s.handed
      && (s'.reconciler.Busy? && s'.reconciler.phase.Cleared? ==> s'.reconciler == s.reconciler)
      && (|s'.events| == |s.events| || (action.Deliver? && s'.events == s.events + [action.e] && Fresh(s.events, action.e)))
      && (action.Manager? || s'.tx == s.tx)
  {
  }

  lemma {:induction false} ExecuteOrderly(cfg: Settings, actions: seq<Action>)
    requires DistinctKeys(Execute(cfg, actions).events)
    ensures Orderly(Execute(cfg, actions))
  {
    if actions != [] {
      var prior := actions[..|actions| - 1];
      DistinctBefore(cfg, actions);
      ExecuteOrderly(cfg, prior);
      ExecuteGood(cfg, prior);
      ActOrderly(cfg, Execute(cfg, prior), actions[|actions| - 1]);
    }
  }

  lemma DistinctBefore(cfg: Settings, actions: seq<Action>)
    requires actions != [] && DistinctKeys(Execute(cfg, actions).events)
    ensures DistinctKeys(Execute(cfg, actions[..|actions| - 1]).events)
  {
    var prior := actions[..|actions| - 1];
    ExecuteGood(cfg, prior);
    ActGood(cfg, Execute(cfg, prior), actions[|actions| - 1]);
    var a, b := Execute(cfg, prior).events, Execute(cfg, actions).events;
    forall i, j | 0 <= i < j < |a| ensures EventKey(a[i]) != EventKey(a[j]) {
      assert SameDelivery(a[i], b[i]) && SameDelivery(a[j], b[j]);
    }
  }

  /** Decisions of a wallet are handed to SetStatus in non-decreasing (occurredAt, eventKey) order, reorgs or not. */
  lemma DecisionsHandedInOrder(cfg: Settings, actions: seq<Action>, i: nat, j: nat)
    requires DistinctKeys(Execute(cfg, actions).events)
    requires i < j < |Execute(cfg, actions).handed|
    requires Execute(cfg, actions).handed[i].address == Execute(cfg, actions).handed[j].address
    ensures !Newer(Execute(cfg, actions).handed[i].claim, Execute(cfg, actions).handed[j].claim)
  {
    ExecuteOrderly(cfg, actions);
  }

  lemma {:induction false} ExecuteUnique(cfg: Settings, actions: seq<Action>)
    ensures UniqueDeliveries(Execute(cfg, actions).events)
  {
    if actions != [] {
      var prior := actions[..|actions| - 1];
      ExecuteUnique(cfg, prior);
      ExecuteGood(cfg, prior);
      var s, s' := Execute(cfg, prior), Execute(cfg, actions);
      ActGood(cfg, s, actions[|actions| - 1]);
      ActDelivers(cfg, s, actions[|actions| - 1]);
      if |s'.events| == |s.events| {
        UniqueStays(s.events, s'.events);
      }
    }
  }

  lemma ActDelivers(cfg: Settings, s: System, action: Action)
    ensures var s' := Act(cfg, s, action);
      |s'.events| == |s.events| || (action.Deliver? && s'.events == s.events + [action.e] && Fresh(s.events, action.e))
  {
  }

  /** The repository's unique (provider, eventId) makes keys distinct when no provider name contains the separator. */
  lemma PlainProvidersSuffice(cfg: Settings, actions: seq<Action>)
    requires PlainProviders(Execute(cfg, actions).events)
    ensures DistinctKeys(Execute(cfg, actions).events)
  {
    var events := Execute(cfg, actions).events;
    ExecuteUnique(cfg, actions);
    forall i, j | 0 <= i < j < |events| ensures EventKey(events[i]) != EventKey(events[j]) {
      if EventKey(events[i]) == EventKey(events[j]) {
        JoinInjective(events[i].provider, events[i].eventId, events[j].provider, events[j].eventId, '|');
      }
    }
  }
}
