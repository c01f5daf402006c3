/** What reaches the chain for a decision says what the decision said. */
module KycMeaning {
  import opened Options
  import opened TxRecords
  import opened TxSpec
  import opened TxEffects
  import opened TxInvariants
  import opened TxChains
  import opened KycProtocol
  import opened KycClaims
  import opened KycOrder
  import opened KycNonces
  import Projector
  import Words

  /** The StatusChanged event that the registry emits for a SetStatus call, as the indexer decodes it. */
  function Emitted(data: Calldata, block: Words.U64, log: nat, account: string): Projector.ChainEvent
    requires data.SetStatus? && 0 <= data.validUntil < Words.TWO64
  {
    Projector.ChainEvent(block, log, "StatusChanged", Projector.Text(account), Projector.U8(data.status), Projector.Unsigned(data.validUntil))
  }

  /** The call asks the registry, for free, for the decision's wallet and expiry, and once projected shows the wallet
      Allowed or Blocked exactly as the decision did. */
  ghost predicate Says(cfg: Settings, e: Event, call: Call) {
    && call.to == cfg.contract && call.value == 0
    && call.data.SetStatus? && call.data.account == e.address && call.data.validUntil == e.validUntil
    && forall block, log, account :: 0 <= call.data.validUntil < Words.TWO64 ==>
         var shown := Projector.StateOf(Emitted(call.data, block, log, account)).status;
         (shown.Allowed? <==> e.outcome == "Allowed") && (shown.Blocked? <==> e.outcome == "Blocked")
  }

  lemma RequestSays(cfg: Settings, e: Event)
    requires StatusFromString(e.outcome).Some?
    ensures Says(cfg, e, StatusRequest(cfg, e, StatusFromString(e.outcome).value).call)
  {
  }

  /** Some stored decision with this idempotency key says what the call does. */
  ghost predicate Meant(cfg: Settings, events: seq<Event>, key: string, call: Call) {
    exists d :: 0 <= d < |events| && TxKey(events[d]) == key && Says(cfg, events[d], call)
  }

  /** The idempotency key a record stands under, through any number of replacements. */
  function KeyAt(store: Store, i: nat): string
    requires i < |store|
  {
    store[Root(store, i)].key
  }

  ghost predicate RecordMeant(cfg: Settings, keys: set<string>, events: seq<Event>, store: Store, i: nat)
    requires i < |store|
  {
    && (store[i].key in keys ==> store[i].allow)
    && (KeyAt(store, i) in keys ==> Meant(cfg, events, KeyAt(store, i), store[i].call))
  }

  ghost predicate SendMeant(cfg: Settings, keys: set<string>, events: seq<Event>, store: Store, e: Send) {
    e.record < |store| && KeyAt(store, e.record) in keys ==> Meant(cfg, events, KeyAt(store, e.record), e.tx.call)
  }

  /** Every record and every broadcast under a decision's key says what that decision said, and may be retried after a reorg. */
  ghost predicate AllMeant(cfg: Settings, keys: set<string>, events: seq<Event>, t: State) {
    && (forall i :: 0 <= i < |t.store| ==> RecordMeant(cfg, keys, events, t.store, i))
    && (forall k :: 0 <= k < |t.sends| ==> SendMeant(cfg, keys, events, t.store, t.sends[k]))
  }

  // The manager's steps

  lemma SubmittedMeant(cfg: Settings, keys: set<string>, events: seq<Event>, t: State, t': State, req: SubmitRequest, id: nat, record: Tx)
    requires WellFormed(cfg.tx, t) && AllMeant(cfg, keys, events, t) && Submitted(cfg.tx, t, t', req, id, record)
    requires req.key in keys ==> req.allow && Meant(cfg, events, req.key, req.call)
    ensures AllMeant(cfg, keys, events, t')
  {
    if id < |t.store| {
      assert GoodRecord(cfg.tx, t, id);
    }
    LinksKept(t.store, t'.store);
    assert t'.store[id] == record && Root(t'.store, id) == id;
    forall i | 0 <= i < |t'.store| ensures RecordMeant(cfg, keys, events, t'.store, i) && (i < |t.store| ==> KeyAt(t'.store, i) == KeyAt(t.store, i)) {
      assert i < |t.store| ==> RecordMeant(cfg, keys, events, t.store, i);
    }
    forall k | 0 <= k < |t'.sends| ensures SendMeant(cfg, keys, events, t'.store, t'.sends[k])
    {
      if k < |t.sends| {
        assert Durable(t.store, t.sends[k]) && SendMeant(cfg, keys, events, t.store, t.sends[k]);
      }
    }
  }

  lemma SupersededMeant(cfg: Settings, keys: set<string>, events: seq<Event>, t: State, t': State, id: nat, original: Tx, record: Tx)
    requires WellFormed(cfg.tx, t) && AllMeant(cfg, keys, events, t) && "" !in keys && TxEffects.Superseded(cfg.tx, t, t', id, original, record)
    ensures AllMeant(cfg, keys, events, t')
  {
    var n := |t.store|;
    assert GoodRecord(cfg.tx, t, id);
    SupersededKeys(cfg.tx, t, t', id, original, record);
    assert RecordMeant(cfg, keys, events, t.store, id);
    forall i | 0 <= i < n ensures RecordMeant(cfg, keys, events, t'.store, i) {
      assert RecordMeant(cfg, keys, events, t.store, i);
    }
    forall k | 0 <= k < |t'.sends| ensures SendMeant(cfg, keys, events, t'.store, t'.sends[k])
    {
      if k < |t.sends| {
        assert Durable(t.store, t.sends[k]) && SendMeant(cfg, keys, events, t.store, t.sends[k]);
      }
    }
  }

  lemma SupersededKeys(cfg: Config, t: State, t': State, id: nat, original: Tx, record: Tx)
    requires WellFormed(cfg, t) && TxEffects.Superseded(cfg, t, t', id, original, record)
    ensures |t'.store| == |t.store| + 1 && t'.store[|t.store|] == record && KeyAt(t'.store, |t.store|) == KeyAt(t.store, id)
    ensures forall i :: 0 <= i < |t.store| ==>
      KeyAt(t'.store, i) == KeyAt(t.store, i) && t'.store[i].call == t.store[i].call
      && t'.store[i].key == t.store[i].key && t'.store[i].allow == t.store[i].allow
  {
    LinksKept(t.store, t'.store);
    assert Root(t'.store, |t.store|) == Root(t'.store, id);
  }

  lemma RefreshedMeant(cfg: Settings, keys: set<string>, events: seq<Event>, t: State, t': State)
    requires WellFormed(cfg.tx, t) && AllMeant(cfg, keys, events, t) && Refreshed(t, t')
    ensures AllMeant(cfg, keys, events, t')
  {
    forall i | 0 <= i < |t.store| ensures t'.store[i].replacing == t.store[i].replacing && t'.store[i].key == t.store[i].key && t'.store[i].call == t.store[i].call && t'.store[i].allow == t.store[i].allow {
      assert TickMove(t.store[i], t'.store[i]);
    }
    LinksKept(t.store, t'.store);
    forall i | 0 <= i < |t.store| ensures RecordMeant(cfg, keys, events, t'.store, i) && KeyAt(t'.store, i) == KeyAt(t.store, i) {
      assert RecordMeant(cfg, keys, events, t.store, i);
    }
    forall k | 0 <= k < |t'.sends| ensures SendMeant(cfg, keys, events, t'.store, t'.sends[k]) {
      if k < |t.sends| {
        assert t'.sends[k] == t'.sends[..|t.sends|][k] == t.sends[k];
        assert SendMeant(cfg, keys, events, t.store, t.sends[k]);
      } else {
        var i := t'.sends[k].record;
        assert Rebroadcasts(t.store, t'.sends[k]) && GoodRecord(cfg.tx, t, i) && RecordMeant(cfg, keys, events, t.store, i);
      }
    }
  }

  /** A step that keeps links, keys, calls and broadcasts, or touches only records without a key. */
  lemma QuietMeant(cfg: Settings, keys: set<string>, events: seq<Event>, t: State, t': State)
    requires AllMeant(cfg, keys, events, t) && "" !in keys && AllDurable(t) && t'.sends == t.sends && SameLinks(t.store, t'.store)
    requires forall i :: 0 <= i < |t.store| ==> t'.store[i].key == t.store[i].key && (t'.store[i].allow == t.store[i].allow || t.store[i].key == "") && (t'.store[i].call == t.store[i].call || KeyAt(t.store, i) == "")
    requires forall i :: |t.store| <= i < |t'.store| ==> t'.store[i].replacing.None? && t'.store[i].key == ""
    ensures AllMeant(cfg, keys, events, t')
  {
    LinksKept(t.store, t'.store);
    forall i | 0 <= i < |t'.store| ensures RecordMeant(cfg, keys, events, t'.store, i) && (i < |t.store| ==> KeyAt(t'.store, i) == KeyAt(t.store, i)) {
      assert i < |t.store| ==> RecordMeant(cfg, keys, events, t.store, i);
    }
    forall k | 0 <= k < |t'.sends| ensures SendMeant(cfg, keys, events, t'.store, t'.sends[k]) {
      assert Durable(t.store, t.sends[k]) && SendMeant(cfg, keys, events, t.store, t.sends[k]);
    }
  }

  lemma SubmitMeant(cfg: Settings, keys: set<string>, events: seq<Event>, t: State, req: SubmitRequest, env: SubmitEnv)
    requires WellFormed(cfg.tx, t) && AllMeant(cfg, keys, events, t)
    requires req.key in keys ==> req.allow && Meant(cfg, events, req.key, req.call)
    ensures AllMeant(cfg, keys, events, SubmitCall(cfg.tx, t, req, env).0)
  {
    var t0, t' := Opt(t, req), SubmitCall(cfg.tx, t, req, env).0;
    var id, record := SubmitShape(cfg.tx, t, req, env);
    OptWellFormed(cfg.tx, t, req);
    assert AllMeant(cfg, keys, events, t0);
    if t' != t0 {
      SubmittedMeant(cfg, keys, events, t0, t', req, id, record);
    }
  }

  lemma StepMeant(cfg: Settings, keys: set<string>, events: seq<Event>, t: State, step: Label)
    requires WellFormed(cfg.tx, t) && AllMeant(cfg, keys, events, t) && "" !in keys
    requires step.SubmitStep? ==> step.req.key !in keys
    ensures AllMeant(cfg, keys, events, Step(cfg.tx, t, step))
  {
    var t' := Step(cfg.tx, t, step);
    match step
    case SubmitStep(req, env) => SubmitMeant(cfg, keys, events, t, req, env);
    case ReplaceStep(signer, id, pct, env) =>
      var original, record := ReplaceShape(cfg.tx, t, signer, id, pct, env);
      if MarkedIntervention(t, t', id) || t' == t {
        QuietMeant(cfg, keys, events, t, t');
      } else {
        SupersededMeant(cfg, keys, events, t, t', id, original, record);
      }
    case RefreshStep(confirmations, env) =>
      RefreshShape(t, confirmations, env);
      RefreshedMeant(cfg, keys, events, t, t');
    case ProjectStep(slot, tx) =>
      if slot < |t.store| {
        assert GoodRecord(cfg.tx, t, slot);
      }
      QuietMeant(cfg, keys, events, t, t');
  }

  // The protocol's steps

  lemma MeantStays(cfg: Settings, keys: set<string>, a: seq<Event>, b: seq<Event>, t: State)
    requires AllMeant(cfg, keys, a, t) && EventsKept(a, b)
    ensures AllMeant(cfg, keys, b, t)
  {
    forall key, call | Meant(cfg, a, key, call) ensures Meant(cfg, b, key, call) {
      var d :| 0 <= d < |a| && TxKey(a[d]) == key && Says(cfg, a[d], call);
      assert SameDelivery(a[d], b[d]);
      assert Says(cfg, b[d], call);
    }
    forall i | 0 <= i < |t.store| ensures RecordMeant(cfg, keys, b, t.store, i) {
      assert RecordMeant(cfg, keys, a, t.store, i);
    }
    forall k | 0 <= k < |t.sends| ensures SendMeant(cfg, keys, b, t.store, t.sends[k]) {
      assert SendMeant(cfg, keys, a, t.store, t.sends[k]);
    }
  }

  lemma ClearedMeant(cfg: Settings, keys: set<string>, s: System, job: Job, env: SubmitEnv, guard: GuardAnswer)
    requires Good(s) && WellFormed(cfg.tx, s.tx) && AllMeant(cfg, keys, s.events, s.tx)
    requires s.reconciler.Busy? && s.reconciler.queue != [] && job == s.reconciler.queue[0]
    ensures var s' := ClearedStep(cfg, s, job, env, guard);
      s'.events == s.events && WellFormed(cfg.tx, s'.tx) && AllMeant(cfg, keys, s.events, s'.tx)
  {
    ClearedFrame(cfg, s, job, env, guard);
    HandsAtMostOne(cfg, s, job, env, guard);
    var s' := ClearedStep(cfg, s, job, env, guard);
    if s'.tx != s.tx {
      var status := StatusFromString(job.e.outcome).value;
      var req := StatusRequest(cfg, job.e, status);
      var stored := s.events[job.id];
      assert GoodJob(s.events, s.claims, job) && SameDelivery(stored, job.e);
      RequestSays(cfg, stored);
      assert req.call == StatusRequest(cfg, stored, status).call && req.key == TxKey(stored);
      assert Meant(cfg, s.events, req.key, req.call);
      SubmitMeant(cfg, keys, s.events, s.tx, req, env);
      StepWellFormed(cfg.tx, s.tx, SubmitStep(req, env));
    }
  }

  lemma ActMeant(cfg: Settings, keys: set<string>, s: System, action: Action)
    requires Good(s) && WellFormed(cfg.tx, s.tx) && AllMeant(cfg, keys, s.events, s.tx) && "" !in keys && Reserved([action], keys)
    ensures var s' := Act(cfg, s, action);
      WellFormed(cfg.tx, s'.tx) && AllMeant(cfg, keys, s'.events, s'.tx)
  {
    var s' := Act(cfg, s, action);
    ActGood(cfg, s, action);
    if action.Manager? {
      assert [action][0] == action;
      StepWellFormed(cfg.tx, s.tx, action.step);
      StepMeant(cfg, keys, s.events, s.tx, action.step);
    } else if action.Advance? && s.reconciler.Busy? && s.reconciler.queue != [] && s.reconciler.phase.Cleared? {
      ClearedMeant(cfg, keys, s, s.reconciler.queue[0], action.env, action.guard);
    } else {
      UntouchedTx(cfg, s, action);
      MeantStays(cfg, keys, s.events, s'.events, s.tx);
    }
  }

  lemma UntouchedTx(cfg: Settings, s: System, action: Action)
    requires !action.Manager?
    requires !(action.Advance? && s.reconciler.Busy? && s.reconciler.queue != [] && s.reconciler.phase.Cleared?)
    ensures Act(cfg, s, action).tx == s.tx
  {
  }

  lemma {:induction false} ExecuteMeant(cfg: Settings, keys: set<string>, actions: seq<Action>)
    requires "" !in keys && Reserved(actions, keys)
    ensures var s := Execute(cfg, actions);
      WellFormed(cfg.tx, s.tx) && AllMeant(cfg, keys, s.events, s.tx)
  {
    if actions != [] {
      var prior := actions[..|actions| - 1];
      ExecuteMeant(cfg, keys, prior);
      ExecuteGood(cfg, prior);
      ActMeant(cfg, keys, Execute(cfg, prior), actions[|actions| - 1]);
    }
  }

  /** In every run where no other Submit uses a decision's key, reorgs and replacements included, whatever is stored or was
      ever broadcast under the key of an unambiguous decision says what that decision said, and its record opted into
      reorg retries. */
  lemma DecisionsSayWhatTheyMean(cfg: Settings, actions: seq<Action>, d: nat, i: nat, k: nat)
    requires var s := Execute(cfg, actions);
      && DistinctKeys(s.events) && Reserved(actions, KeysOf(s.events))
      && d < |s.events| && i < |s.tx.store| && KeyAt(s.tx.store, i) == TxKey(s.events[d])
    ensures var s := Execute(cfg, actions);
      && Says(cfg, s.events[d], s.tx.store[i].call)
      && (s.tx.store[i].replacing.None? ==> s.tx.store[i].allow)
      && (k < |s.tx.sends| && s.tx.sends[k].record == i ==> Says(cfg, s.events[d], s.tx.sends[k].tx.call))
  {
    var s := Execute(cfg, actions);
    ExecuteMeant(cfg, KeysOf(s.events), actions);
    forall call | Meant(cfg, s.events, TxKey(s.events[d]), call) ensures Says(cfg, s.events[d], call) {
      var e :| 0 <= e < |s.events| && TxKey(s.events[e]) == TxKey(s.events[d]) && Says(cfg, s.events[e], call);
      KeyOfKey(EventKey(s.events[e]), EventKey(s.events[d]));
      SameKeySameEvent(s.events, e, d);
    }
    assert RecordMeant(cfg, KeysOf(s.events), s.events, s.tx.store, i);
    assert k < |s.tx.sends| ==> SendMeant(cfg, KeysOf(s.events), s.events, s.tx.store, s.tx.sends[k]);
  }

  /** The outcomes with a number on chain, in the order of their numbers. */
  lemma NumbersSpelled(outcome: string, n: nat)
    ensures StatusFromString(outcome) == Some(n) <==> n < 3 && outcome == ["Unknown", "Allowed", "Blocked"][n]
    ensures StatusFromString(outcome).None? <==> outcome !in {"Unknown", "Allowed", "Blocked"}
  {
  }

  /** A decision's idempotency key is spelled from its provider and event id. */
  lemma KeyIsSpelled(e: Event)
    ensures TxKey(e) == "kyc-status:" + e.provider + "|" + e.eventId
  {
  }
}
