/** On a truthful chain without reorgs, an older decision's transactions always carry lower nonces. */
module KycNonces {
  import opened Options
  import opened Words
  import opened TxRecords
  import opened TxSpec
  import opened TxEffects
  import opened TxInvariants
  import opened TxConvergence
  import opened TxOrder
  import opened KycProtocol
  import opened KycClaims
  import opened KycOrder

  /** A step under a truthful node where nobody replaces. */
  ghost predicate TruthfulAct(cfg: Settings, chain: Chain, s: System, action: Action) {
    NoReorgs(chain) &&
    match action
    case Manager(step) => Truthful(chain, s.tx, step)
    case Advance(env, _) => env.latest.Some? ==> env.latest.value == chain.latest(cfg.signer)
    case _ => true
  }

  /** No Submit but the reconciler's uses one of these idempotency keys. */
  ghost predicate Reserved(actions: seq<Action>, keys: set<string>) {
    forall k :: 0 <= k < |actions| && actions[k].Manager? && actions[k].step.SubmitStep? ==> actions[k].step.req.key !in keys
  }

  /** `keys` covers these decisions. */
  ghost predicate Named(events: seq<Event>, keys: set<string>) {
    "" !in keys && forall d :: 0 <= d < |events| ==> TxKey(events[d]) in keys
  }

  function KeysOf(events: seq<Event>): set<string> {
    set d | 0 <= d < |events| :: TxKey(events[d])
  }

  /** The chain at each step of a run, growing. */
  ghost predicate TruthfulRun(cfg: Settings, actions: seq<Action>, chains: seq<Chain>) {
    |chains| == |actions| &&
    (actions != [] ==>
       var n := |actions| - 1;
       && TruthfulRun(cfg, actions[..n], chains[..n])
       && TruthfulAct(cfg, chains[n], Execute(cfg, actions[..n]), actions[n])
       && (n > 0 ==> Extends(chains[n - 1], chains[n])))
  }

  /** A nonce under which the record's operation may still execute or has executed. */
  ghost predicate OutstandingNonce(tx: Tx, n: U64) {
    exists a :: Outstanding(tx, a) && a.nonce == n
  }

  ghost predicate SignedBy(tx: Tx, signer: Address) {
    forall k :: 0 <= k < |Archive(tx)| ==> Archive(tx)[k].raw.from == signer
  }

  /** A decision's record is signed with the compliance key, for a decision that was handed out. */
  ghost predicate KycRecord(cfg: Settings, keys: set<string>, s: System, tx: Tx) {
    tx.key in keys ==>
      && SignedBy(tx, cfg.signer)
      && exists h :: 0 <= h < |s.handed| && tx.key == KEY_PREFIX + s.handed[h].claim.key
  }

  ghost predicate KycRecords(cfg: Settings, keys: set<string>, s: System) {
    forall i :: 0 <= i < |s.tx.store| ==> KycRecord(cfg, keys, s, s.tx.store[i])
  }

  ghost predicate LowerNonces(a: Tx, b: Tx) {
    forall m, n :: OutstandingNonce(a, m) && OutstandingNonce(b, n) ==> m < n || m == MAX_U64
  }

  ghost predicate OlderDecision(d1: Event, d2: Event) {
    d1.address == d2.address && Newer(ClaimOf(d2), ClaimOf(d1))
  }

  /** Records of an older decision lie below records of a newer one. */
  ghost predicate NoncesInOrder(events: seq<Event>, store: Store) {
    forall d1, d2, i, j :: 0 <= d1 < |events| && 0 <= d2 < |events| && 0 <= i < |store| && 0 <= j < |store|
      && OlderDecision(events[d1], events[d2]) && store[i].key == TxKey(events[d1]) && store[j].key == TxKey(events[d2])
      ==> LowerNonces(store[i], store[j])
  }

  lemma KeyOfKey(a: string, b: string)
    requires KEY_PREFIX + a == KEY_PREFIX + b
    ensures a == b
  {
    assert a == (KEY_PREFIX + a)[|KEY_PREFIX|..];
    assert b == (KEY_PREFIX + b)[|KEY_PREFIX|..];
  }

  /** A decision with a record was handed out. */
  lemma RecordWasHanded(cfg: Settings, keys: set<string>, s: System, d: nat, i: nat) returns (h: nat)
    requires Orderly(s) && KycRecords(cfg, keys, s) && DistinctKeys(s.events) && Named(s.events, keys)
    requires d < |s.events| && i < |s.tx.store| && s.tx.store[i].key == TxKey(s.events[d])
    ensures h < |s.handed| && s.handed[h].address == s.events[d].address && s.handed[h].claim == ClaimOf(s.events[d])
  {
    assert KycRecord(cfg, keys, s, s.tx.store[i]);
    h :| 0 <= h < |s.handed| && s.tx.store[i].key == KEY_PREFIX + s.handed[h].claim.key;
    KeyOfKey(EventKey(s.events[d]), s.handed[h].claim.key);
    assert HandedBacked(s, s.handed[h]);
    var e :| 0 <= e < |s.events| && s.events[e].address == s.handed[h].address && ClaimOf(s.events[e]) == s.handed[h].claim;
    SameKeySameEvent(s.events, d, e);
  }

  // Steps that change no decision record's outstanding nonces

  /** `b` may only have lost outstanding nonces; key and signers are unchanged. */
  ghost predicate Recedes(a: Tx, b: Tx) {
    && b.key == a.key
    && (forall n :: OutstandingNonce(b, n) ==> OutstandingNonce(a, n))
    && (forall signer :: SignedBy(a, signer) ==> SignedBy(b, signer))
  }

  ghost predicate DecisionRecordsRecede(keys: set<string>, prior: Store, next: Store) {
    && |prior| <= |next|
    && forall i :: 0 <= i < |next| && next[i].key in keys ==> i < |prior| && Recedes(prior[i], next[i])
  }

  lemma ReceiptMoveRecedes(chain: Chain, a: Tx, b: Tx)
    requires TickMove(a, b) && SettledRecord(chain, b)
    ensures Recedes(a, b)
  {
    forall n | OutstandingNonce(b, n) ensures OutstandingNonce(a, n) {
      var x :| Outstanding(b, x) && x.nonce == n;
      var k :| 0 <= k < |Archive(b)| && Archive(b)[k] == x;
      assert Outstanding(a, Archive(a)[k]);
    }
    assert forall k :: 0 <= k < |Archive(b)| ==> Archive(b)[k].raw == Archive(a)[k].raw;
  }

  lemma RefreshRecedes(cfg: Settings, keys: set<string>, chain: Chain, s: State, step: Label)
    requires WellFormed(cfg.tx, s) && Settled(chain, s) && Truthful(chain, s, step) && step.RefreshStep?
    ensures DecisionRecordsRecede(keys, s.store, Step(cfg.tx, s, step).store)
  {
    var s' := Step(cfg.tx, s, step);
    StepSettled(cfg.tx, chain, s, step);
    RefreshShape(s, step.confirmations, step.tenv);
    forall i | 0 <= i < |s'.store| ensures Recedes(s.store[i], s'.store[i]) {
      assert TickMove(s.store[i], s'.store[i]);
      assert SettledRecord(chain, s'.store[i]);
      ReceiptMoveRecedes(chain, s.store[i], s'.store[i]);
    }
  }

  lemma ManagerRecedes(cfg: Settings, keys: set<string>, chain: Chain, s: State, step: Label)
    requires WellFormed(cfg.tx, s) && Settled(chain, s) && Truthful(chain, s, step)
    requires "" !in keys && (step.SubmitStep? ==> step.req.key !in keys)
    ensures DecisionRecordsRecede(keys, s.store, Step(cfg.tx, s, step).store)
  {
    match step
    case SubmitStep(req, env) =>
      var id, record := SubmitShape(cfg.tx, s, req, env);
    case ReplaceStep(_, _, _, _) =>
    case RefreshStep(_, _) => RefreshRecedes(cfg, keys, chain, s, step);
    case ProjectStep(slot, tx) =>
  }

  lemma RecedingKeepsOrder(keys: set<string>, events: seq<Event>, events': seq<Event>, prior: Store, next: Store)
    requires Named(events, keys) && NoncesInOrder(events, prior) && EventsKept(events, events') && DecisionRecordsRecede(keys, prior, next)
    requires |events'| == |events|
    ensures NoncesInOrder(events', next)
  {
    forall d1, d2, i, j | 0 <= d1 < |events'| && 0 <= d2 < |events'| && 0 <= i < |next| && 0 <= j < |next|
      && OlderDecision(events'[d1], events'[d2]) && next[i].key == TxKey(events'[d1]) && next[j].key == TxKey(events'[d2])
      ensures LowerNonces(next[i], next[j])
    {
      assert SameDelivery(events[d1], events'[d1]) && SameDelivery(events[d2], events'[d2]);
      assert TxKey(events[d1]) in keys && TxKey(events[d2]) in keys;
      assert Recedes(prior[i], next[i]) && Recedes(prior[j], next[j]);
      assert OlderDecision(events[d1], events[d2]);
      assert LowerNonces(prior[i], prior[j]);
    }
  }

  lemma RecedingKeepsRecords(cfg: Settings, keys: set<string>, s: System, s': System)
    requires KycRecords(cfg, keys, s) && DecisionRecordsRecede(keys, s.tx.store, s'.tx.store) && s.handed <= s'.handed
    ensures KycRecords(cfg, keys, s')
  {
    forall i | 0 <= i < |s'.tx.store| ensures KycRecord(cfg, keys, s', s'.tx.store[i]) {
      if s'.tx.store[i].key in keys {
        assert Recedes(s.tx.store[i], s'.tx.store[i]) && KycRecord(cfg, keys, s, s.tx.store[i]);
        var h :| 0 <= h < |s.handed| && s.tx.store[i].key == KEY_PREFIX + s.handed[h].claim.key;
        assert s'.handed[h] == s.handed[h];
      }
    }
  }

  /** A new delivery has no record yet. */
  lemma DeliveryKeepsOrder(cfg: Settings, keys: set<string>, s: System, e: Event)
    requires Orderly(s) && KycRecords(cfg, keys, s) && NoncesInOrder(s.events, s.tx.store)
    requires DistinctKeys(s.events + [e]) && Named(s.events + [e], keys)
    ensures NoncesInOrder(s.events + [e], s.tx.store)
  {
    var events' := s.events + [e];
    forall d1, d2, i, j | 0 <= d1 < |events'| && 0 <= d2 < |events'| && 0 <= i < |s.tx.store| && 0 <= j < |s.tx.store|
      && OlderDecision(events'[d1], events'[d2]) && s.tx.store[i].key == TxKey(events'[d1]) && s.tx.store[j].key == TxKey(events'[d2])
      ensures LowerNonces(s.tx.store[i], s.tx.store[j])
    {
      OldDecision(cfg, keys, s, e, i, d1);
      OldDecision(cfg, keys, s, e, j, d2);
      assert events'[d1] == s.events[d1] && events'[d2] == s.events[d2];
    }
  }

  /** A record's decision was stored before the new delivery. */
  lemma OldDecision(cfg: Settings, keys: set<string>, s: System, e: Event, i: nat, d: nat)
    requires Orderly(s) && KycRecords(cfg, keys, s) && DistinctKeys(s.events + [e]) && Named(s.events + [e], keys)
    requires i < |s.tx.store| && d <= |s.events| && s.tx.store[i].key == TxKey((s.events + [e])[d])
    ensures d < |s.events|
  {
    if d == |s.events| {
      NoRecordYet(cfg, keys, s, e, i);
    }
  }

  lemma NoRecordYet(cfg: Settings, keys: set<string>, s: System, e: Event, i: nat)
    requires Orderly(s) && KycRecords(cfg, keys, s) && DistinctKeys(s.events + [e]) && Named(s.events + [e], keys) && i < |s.tx.store|
    ensures s.tx.store[i].key != TxKey(e)
  {
    if s.tx.store[i].key == TxKey(e) {
      assert (s.events + [e])[|s.events|] == e && TxKey(e) in keys;
      assert KycRecord(cfg, keys, s, s.tx.store[i]);
      var h :| 0 <= h < |s.handed| && s.tx.store[i].key == KEY_PREFIX + s.handed[h].claim.key;
      KeyOfKey(EventKey(e), s.handed[h].claim.key);
      assert HandedBacked(s, s.handed[h]);
      var k :| 0 <= k < |s.events| && s.events[k].address == s.handed[h].address && ClaimOf(s.events[k]) == s.handed[h].claim;
      NewKey(s.events, e, k);
    }
  }

  lemma NewKey(events: seq<Event>, e: Event, k: nat)
    requires DistinctKeys(events + [e]) && k < |events|
    ensures EventKey(events[k]) != EventKey(e)
  {
    assert (events + [e])[k] == events[k] && (events + [e])[|events|] == e;
  }

  // Handing out a decision

  /** What a SetStatus that persisted something did to the outstanding nonces of its record. */
  lemma SubmittedOutstanding(cfg: Config, s: State, s': State, req: SubmitRequest, id: nat, record: Tx, n: U64)
    requires WellFormed(cfg, s) && Submitted(cfg, s, s', req, id, record) && OutstandingNonce(record, n)
    ensures n == record.nonce || (id < |s.store| && OutstandingNonce(s.store[id], n))
  {
    var a :| Outstanding(record, a) && a.nonce == n;
    var k :| 0 <= k < |Archive(record)| && Archive(record)[k] == a;
    if k < |record.attempts| {
      assert GoodRecord(cfg, s, id);
      assert Outstanding(s.store[id], a);
    }
  }

  lemma HandingKeepsOrder(cfg: Settings, keys: set<string>, chain: Chain, s: System, job: Job, status: nat, env: SubmitEnv)
    requires Good(s) && Orderly(s) && DistinctKeys(s.events) && Named(s.events, keys) && KycRecords(cfg, keys, s) && NoncesInOrder(s.events, s.tx.store)
    requires WellFormed(cfg.tx, s.tx) && Settled(chain, s.tx) && NoReorgs(chain)
    requires env.latest.Some? ==> env.latest.value == chain.latest(cfg.signer)
    requires GoodJob(s.events, s.claims, job) && NextInLine(s.handed, job.e)
    ensures NoncesInOrder(s.events, SubmitCall(cfg.tx, s.tx, StatusRequest(cfg, job.e, status), env).0.store)
  {
    var req := StatusRequest(cfg, job.e, status);
    var t := SubmitCall(cfg.tx, s.tx, req, env).0;
    if t.store != s.tx.store {
      var id, record := SubmitShape(cfg.tx, s.tx, req, env);
      forall d1, d2, i, j | 0 <= d1 < |s.events| && 0 <= d2 < |s.events| && 0 <= i < |t.store| && 0 <= j < |t.store|
        && OlderDecision(s.events[d1], s.events[d2]) && t.store[i].key == TxKey(s.events[d1]) && t.store[j].key == TxKey(s.events[d2])
        ensures LowerNonces(t.store[i], t.store[j])
      {
        if i == id {
          SameKeyAsJob(s, job, d1);
          NewerNotHanded(cfg, keys, s, job, d2, j, id, t.store, record);
        } else if j == id {
          SameKeyAsJob(s, job, d2);
          HandedAboveOlder(cfg, keys, chain, s, job, req, env, d1, i);
        }
      }
    }
  }

  /** The decision whose idempotency key is the job's is the job's. */
  lemma SameKeyAsJob(s: System, job: Job, d: nat)
    requires DistinctKeys(s.events) && GoodJob(s.events, s.claims, job) && d < |s.events| && TxKey(s.events[d]) == TxKey(job.e)
    ensures d == job.id && ClaimOf(s.events[d]) == ClaimOf(job.e) && s.events[d].address == job.e.address
  {
    KeyOfKey(EventKey(job.e), EventKey(s.events[d]));
    SameKeySameEvent(s.events, job.id, d);
  }

  /** No newer decision of the wallet has a record when this one is handed out. */
  lemma NewerNotHanded(cfg: Settings, keys: set<string>, s: System, job: Job, d2: nat, j: nat, id: nat, store': Store, record: Tx)
    requires Orderly(s) && KycRecords(cfg, keys, s) && DistinctKeys(s.events) && Named(s.events, keys)
    requires GoodJob(s.events, s.claims, job) && NextInLine(s.handed, job.e)
    requires d2 < |s.events| && OlderDecision(job.e, s.events[d2])
    requires id <= |s.tx.store| && store' == Put(s.tx.store, id, record) && record.key == TxKey(job.e)
    requires j < |store'|
    ensures store'[j].key != TxKey(s.events[d2])
  {
    NewerTotal(ClaimOf(job.e), ClaimOf(s.events[d2]));
    if store'[j].key == TxKey(s.events[d2]) {
      if j == id {
        KeyOfKey(EventKey(job.e), EventKey(s.events[d2]));
        SameKeySameEvent(s.events, job.id, d2);
      } else {
        var h := RecordWasHanded(cfg, keys, s, d2, j);
      }
    }
  }

  lemma HandedAboveOlder(cfg: Settings, keys: set<string>, chain: Chain, s: System, job: Job, req: SubmitRequest, env: SubmitEnv, d1: nat, i: nat)
    requires Good(s) && Orderly(s) && DistinctKeys(s.events) && Named(s.events, keys) && KycRecords(cfg, keys, s) && NoncesInOrder(s.events, s.tx.store)
    requires WellFormed(cfg.tx, s.tx) && Settled(chain, s.tx) && NoReorgs(chain)
    requires req.signer == cfg.signer && req.key == TxKey(job.e)
    requires env.latest.Some? ==> env.latest.value == chain.latest(cfg.signer)
    requires GoodJob(s.events, s.claims, job)
    requires d1 < |s.events| && OlderDecision(s.events[d1], job.e)
    requires i < |s.tx.store| && s.tx.store[i].key == TxKey(s.events[d1])
    ensures var t := SubmitCall(cfg.tx, s.tx, req, env).0;
      forall j :: 0 <= j < |t.store| && t.store[j].key == req.key && (j < |s.tx.store| ==> t.store[j] != s.tx.store[j]) ==>
        LowerNonces(s.tx.store[i], t.store[j])
  {
    var t := SubmitCall(cfg.tx, s.tx, req, env).0;
    var s0 := Opt(s.tx, req);
    OptWellFormed(cfg.tx, s.tx, req);
    forall j | 0 <= j < |t.store| && t.store[j].key == req.key && (j < |s.tx.store| ==> t.store[j] != s.tx.store[j])
      ensures LowerNonces(s.tx.store[i], t.store[j])
    {
      forall m, n | OutstandingNonce(s.tx.store[i], m) && OutstandingNonce(t.store[j], n) ensures m < n || m == MAX_U64 {
        var a :| Outstanding(s.tx.store[i], a) && a.nonce == m;
        assert KycRecord(cfg, keys, s, s.tx.store[i]);
        var id, record := AllocationDominates(cfg.tx, chain, s.tx, req, env, i, a);
        assert j == id;
        SubmittedOutstanding(cfg.tx, s0, t, req, id, record, n);
        if n != record.nonce {
          assert s.events[job.id].address == job.e.address && ClaimOf(s.events[job.id]) == ClaimOf(job.e);
          assert OlderDecision(s.events[d1], s.events[job.id]);
          assert LowerNonces(s.tx.store[i], s.tx.store[id]);
        }
      }
    }
  }

  lemma HandingKeepsRecords(cfg: Settings, keys: set<string>, s: System, s': System, job: Job, status: nat, env: SubmitEnv)
    requires WellFormed(cfg.tx, s.tx) && KycRecords(cfg, keys, s) && TxKey(job.e) in keys
    requires s'.tx == SubmitCall(cfg.tx, s.tx, StatusRequest(cfg, job.e, status), env).0
    requires s'.handed == s.handed + [Handed(job.e.address, ClaimOf(job.e))]
    ensures KycRecords(cfg, keys, s')
  {
    var req := StatusRequest(cfg, job.e, status);
    var id, record := SubmitShape(cfg.tx, s.tx, req, env);
    forall i | 0 <= i < |s'.tx.store| ensures KycRecord(cfg, keys, s', s'.tx.store[i]) {
      if i < |s.tx.store| {
        assert KycRecord(cfg, keys, s, s.tx.store[i]);
        if s.tx.store[i].key in keys {
          var h :| 0 <= h < |s.handed| && s.tx.store[i].key == KEY_PREFIX + s.handed[h].claim.key;
          assert s'.handed[h] == s.handed[h];
        }
      }
      if s'.tx.store != s.tx.store && i == id {
        assert s'.handed[|s.handed|].claim.key == EventKey(job.e);
        assert id < |s.tx.store| ==> SignedBy(s.tx.store[id], cfg.signer);
      }
    }
  }

  // Whole runs

  ghost predicate NoncesGood(cfg: Settings, keys: set<string>, chain: Chain, s: System) {
    && Good(s) && Orderly(s)
    && WellFormed(cfg.tx, s.tx) && Settled(chain, s.tx)
    && KycRecords(cfg, keys, s) && NoncesInOrder(s.events, s.tx.store)
  }

  lemma SameStoreRecedes(keys: set<string>, store: Store)
    ensures DecisionRecordsRecede(keys, store, store)
  {
  }

  lemma ActNoncesGood(cfg: Settings, keys: set<string>, chain: Chain, s: System, action: Action)
    requires NoncesGood(cfg, keys, chain, s) && TruthfulAct(cfg, chain, s, action) && Reserved([action], keys)
    requires DistinctKeys(s.events) && DistinctKeys(Act(cfg, s, action).events)
    requires Named(s.events, keys) && Named(Act(cfg, s, action).events, keys)
    ensures NoncesGood(cfg, keys, chain, Act(cfg, s, action))
  {
    var s' := Act(cfg, s, action);
    ActGood(cfg, s, action);
    ActOrderly(cfg, s, action);
    SameStoreRecedes(keys, s.tx.store);
    if action.Manager? {
      assert [action][0] == action;
      StepWellFormed(cfg.tx, s.tx, action.step);
      StepSettled(cfg.tx, chain, s.tx, action.step);
      ManagerRecedes(cfg, keys, chain, s.tx, action.step);
      RecedingKeepsOrder(keys, s.events, s'.events, s.tx.store, s'.tx.store);
      RecedingKeepsRecords(cfg, keys, s, s');
    } else if action.Advance? && s.reconciler.Busy? && s.reconciler.queue != [] && s.reconciler.phase.Cleared? {
      ClearedNoncesGood(cfg, keys, chain, s, s.reconciler.queue[0], action.env, action.guard);
    } else if action.Deliver? && s' != s {
      DeliveryKeepsOrder(cfg, keys, s, action.e);
    } else {
      QuietAct(cfg, s, action);
      RecedingKeepsOrder(keys, s.events, s'.events, s.tx.store, s'.tx.store);
      RecedingKeepsRecords(cfg, keys, s, s');
    }
  }

  lemma QuietAct(cfg: Settings, s: System, action: Action)
    requires !action.Manager? && !(action.Deliver? && Act(cfg, s, action) != s)
    requires !(action.Advance? && s.reconciler.Busy? && s.reconciler.queue != [] && s.reconciler.phase.Cleared?)
    ensures var s' := Act(cfg, s, action); s'.tx == s.tx && s'.handed == s.handed && |s'.events| == |s.events|
  {
  }

  lemma ClearedNoncesGood(cfg: Settings, keys: set<string>, chain: Chain, s: System, job: Job, env: SubmitEnv, guard: GuardAnswer)
    requires NoncesGood(cfg, keys, chain, s) && DistinctKeys(s.events) && Named(s.events, keys) && NoReorgs(chain)
    requires env.latest.Some? ==> env.latest.value == chain.latest(cfg.signer)
    requires s.reconciler.Busy? && s.reconciler.phase.Cleared? && s.reconciler.queue != [] && job == s.reconciler.queue[0]
    ensures var s' := ClearedStep(cfg, s, job, env, guard);
      && WellFormed(cfg.tx, s'.tx) && Settled(chain, s'.tx)
      && KycRecords(cfg, keys, s') && NoncesInOrder(s'.events, s'.tx.store)
  {
    var s' := ClearedStep(cfg, s, job, env, guard);
    ClearedFrame(cfg, s, job, env, guard);
    HandsAtMostOne(cfg, s, job, env, guard);
    assert GoodJob(s.events, s.claims, job);
    if s'.handed != s.handed {
      var status := StatusFromString(job.e.outcome).value;
      var step := SubmitStep(StatusRequest(cfg, job.e, status), env);
      StepWellFormed(cfg.tx, s.tx, step);
      StepSettled(cfg.tx, chain, s.tx, step);
      HandingKeepsOrder(cfg, keys, chain, s, job, status, env);
      assert SameDelivery(s.events[job.id], job.e) && TxKey(s.events[job.id]) == TxKey(job.e);
      HandingKeepsRecords(cfg, keys, s, s', job, status, env);
    }
  }

  lemma NamedBefore(cfg: Settings, keys: set<string>, actions: seq<Action>)
    requires actions != [] && Named(Execute(cfg, actions).events, keys)
    ensures Named(Execute(cfg, actions[..|actions| - 1]).events, keys)
  {
    var prior := actions[..|actions| - 1];
    ExecuteGood(cfg, prior);
    ActGood(cfg, Execute(cfg, prior), actions[|actions| - 1]);
    var a, b := Execute(cfg, prior).events, Execute(cfg, actions).events;
    forall d | 0 <= d < |a| ensures TxKey(a[d]) in keys {
      assert SameDelivery(a[d], b[d]);
    }
  }

  lemma {:induction false} ExecuteNoncesGood(cfg: Settings, keys: set<string>, actions: seq<Action>, chains: seq<Chain>, chain: Chain)
    requires TruthfulRun(cfg, actions, chains) && Reserved(actions, keys)
    requires DistinctKeys(Execute(cfg, actions).events) && Named(Execute(cfg, actions).events, keys)
    requires actions != [] ==> chain == chains[|chains| - 1]
    ensures NoncesGood(cfg, keys, chain, Execute(cfg, actions))
  {
    if actions != [] {
      var n := |actions| - 1;
      DistinctBefore(cfg, actions);
      NamedBefore(cfg, keys, actions);
      var earlier := if n > 0 then chains[n - 1] else chain;
      assert n > 0 ==> chains[..n][n - 1] == earlier;
      ExecuteNoncesGood(cfg, keys, actions[..n], chains[..n], earlier);
      var s := Execute(cfg, actions[..n]);
      if n > 0 {
        SettledGrows(earlier, chain, s.tx);
      }
      ActNoncesGood(cfg, keys, chain, s, actions[n]);
    }
  }

  lemma RunKeepsOrder(cfg: Settings, actions: seq<Action>, chains: seq<Chain>)
    requires TruthfulRun(cfg, actions, chains)
    requires DistinctKeys(Execute(cfg, actions).events) && Reserved(actions, KeysOf(Execute(cfg, actions).events))
    ensures NoncesInOrder(Execute(cfg, actions).events, Execute(cfg, actions).tx.store)
  {
    if actions != [] {
      ExecuteNoncesGood(cfg, KeysOf(Execute(cfg, actions).events), actions, chains, chains[|chains| - 1]);
    }
  }

  lemma OrderedAttempts(events: seq<Event>, store: Store, d1: nat, d2: nat, i: nat, j: nat, a: Attempt, b: Attempt)
    requires NoncesInOrder(events, store) && d1 < |events| && d2 < |events| && OlderDecision(events[d1], events[d2])
    requires i < |store| && store[i].key == TxKey(events[d1]) && Outstanding(store[i], a)
    requires j < |store| && store[j].key == TxKey(events[d2]) && Outstanding(store[j], b)
    ensures a.nonce < b.nonce || a.nonce == MAX_U64
  {
    assert OutstandingNonce(store[i], a.nonce) && OutstandingNonce(store[j], b.nonce);
    assert LowerNonces(store[i], store[j]);
  }

  /** Decision order reaches the chain: as long as stored decisions have distinct event keys and no other Submit of the
      run uses one of their idempotency keys, every attempt of an older decision that was not definitely rejected lies
      below every such attempt of a newer decision of the same wallet. */
  lemma DecisionOrderReachesTheChain(cfg: Settings, actions: seq<Action>, chains: seq<Chain>,
                                     d1: nat, d2: nat, i: nat, j: nat, a: Attempt, b: Attempt)
    requires TruthfulRun(cfg, actions, chains)
    requires DistinctKeys(Execute(cfg, actions).events) && Reserved(actions, KeysOf(Execute(cfg, actions).events))
    requires var s := Execute(cfg, actions);
      && d1 < |s.events| && d2 < |s.events| && OlderDecision(s.events[d1], s.events[d2])
      && i < |s.tx.store| && s.tx.store[i].key == TxKey(s.events[d1]) && Outstanding(s.tx.store[i], a)
      && j < |s.tx.store| && s.tx.store[j].key == TxKey(s.events[d2]) && Outstanding(s.tx.store[j], b)
    ensures a.nonce < b.nonce || a.nonce == MAX_U64
  {
    RunKeepsOrder(cfg, actions, chains);
    var s := Execute(cfg, actions);
    OrderedAttempts(s.events, s.tx.store, d1, d2, i, j, a, b);
  }
}
