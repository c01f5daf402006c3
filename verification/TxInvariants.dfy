/** Invariants of every run: record shape, durable payloads, replacement limits and fee escalation. */
module TxInvariants {
  import opened Options
  import opened TxRecords
  import opened TxSpec
  import opened TxEffects

  ghost predicate GoodRecord(cfg: Config, s: State, i: nat)
    requires i < |s.store|
  {
    var tx := s.store[i];
    if tx.eventDerived then
      tx.key == "" && tx.replacing.None? && !tx.allow && (tx.status.Confirmed? || tx.status.Reorged? || tx.status.Replaced?)
    else
      && SoundPayload(cfg, tx)
      && (tx.allow ==> tx.from in s.relaxedSigners && tx.key in s.relaxedKeys)
      && (tx.replacing.Some? ==> tx.replacing.value < i && tx.key == "" && !tx.allow && !s.store[tx.replacing.value].eventDerived)
  }

  ghost predicate UniqueKeys(store: Store) {
    forall i, j :: 0 <= i < j < |store| && store[i].key != "" ==> store[i].key != store[j].key
  }

  /** The bytes are on record `e.record`, as its current payload or archived. */
  ghost predicate Durable(store: Store, e: Send) {
    && e.record < |store| && !store[e.record].eventDerived
    && (store[e.record].raw == e.tx || exists k :: 0 <= k < |store[e.record].attempts| && store[e.record].attempts[k].raw == e.tx)
  }

  ghost predicate AllDurable(s: State) {
    forall k :: 0 <= k < |s.sends| ==> Durable(s.store, s.sends[k])
  }

  ghost predicate WellFormed(cfg: Config, s: State) {
    && (forall i :: 0 <= i < |s.store| ==> GoodRecord(cfg, s, i))
    && UniqueKeys(s.store)
    && AllDurable(s)
  }

  /** `b` keeps every byte string that `a` had. */
  ghost predicate KeepsPayloads(a: Tx, b: Tx) {
    && a.eventDerived == b.eventDerived
    && ((a.raw == b.raw && a.attempts == b.attempts) || b.attempts == Archive(a))
  }

  ghost predicate StoreKeepsPayloads(prior: Store, next: Store) {
    |prior| <= |next| && forall i :: 0 <= i < |prior| && !prior[i].eventDerived ==> KeepsPayloads(prior[i], next[i])
  }

  lemma DurableStays(prior: Store, next: Store, e: Send)
    requires StoreKeepsPayloads(prior, next) && Durable(prior, e)
    ensures Durable(next, e)
  {
    var a, b := prior[e.record], next[e.record];
    assert KeepsPayloads(a, b);
    if a.raw != e.tx {
      var k :| 0 <= k < |a.attempts| && a.attempts[k].raw == e.tx;
      assert b.attempts[k].raw == e.tx;
    } else if b.raw != a.raw {
      assert b.attempts[|a.attempts|].raw == e.tx;
    }
  }

  lemma AllDurableStays(s: State, s': State)
    requires AllDurable(s) && StoreKeepsPayloads(s.store, s'.store)
    requires |s.sends| <= |s'.sends| && s'.sends[..|s.sends|] == s.sends
    requires forall k :: |s.sends| <= k < |s'.sends| ==> Durable(s'.store, s'.sends[k])
    ensures AllDurable(s')
  {
    forall k | 0 <= k < |s'.sends| ensures Durable(s'.store, s'.sends[k]) {
      if k < |s.sends| {
        assert s'.sends[k] == s'.sends[..|s.sends|][k] == s.sends[k];
        DurableStays(s.store, s'.store, s.sends[k]);
      }
    }
  }

  lemma SubmittedWellFormed(cfg: Config, s: State, s': State, req: SubmitRequest, id: nat, record: Tx)
    requires WellFormed(cfg, s) && Submitted(cfg, s, s', req, id, record)
    requires req.allow ==> req.signer in s.relaxedSigners && req.key in s.relaxedKeys
    ensures WellFormed(cfg, s')
  {
    if id < |s.store| {
      assert GoodRecord(cfg, s, id);
    }
    forall i | 0 <= i < |s'.store| ensures GoodRecord(cfg, s', i) {
      if i != id {
        assert GoodRecord(cfg, s, i);
      }
    }
    AllDurableStays(s, s');
  }

  lemma SupersededWellFormed(cfg: Config, s: State, s': State, id: nat, original: Tx, record: Tx)
    requires WellFormed(cfg, s) && Superseded(cfg, s, s', id, original, record)
    ensures WellFormed(cfg, s')
  {
    assert GoodRecord(cfg, s, id);
    forall i | 0 <= i < |s'.store| ensures GoodRecord(cfg, s', i) {
      if i < |s.store| {
        assert GoodRecord(cfg, s, i);
      }
    }
    AllDurableStays(s, s');
  }

  lemma RefreshedWellFormed(cfg: Config, s: State, s': State)
    requires WellFormed(cfg, s) && Refreshed(s, s')
    ensures WellFormed(cfg, s')
  {
    forall i | 0 <= i < |s'.store| ensures GoodRecord(cfg, s', i) {
      assert GoodRecord(cfg, s, i) && TickMove(s.store[i], s'.store[i]);
      if s.store[i].replacing.Some? && !s.store[i].eventDerived {
        assert TickMove(s.store[s.store[i].replacing.value], s'.store[s.store[i].replacing.value]);
      }
    }
    forall i, j | 0 <= i < j < |s'.store| && s'.store[i].key != "" ensures s'.store[i].key != s'.store[j].key {
      assert TickMove(s.store[i], s'.store[i]) && TickMove(s.store[j], s'.store[j]);
    }
    forall i | 0 <= i < |s.store| && !s.store[i].eventDerived ensures KeepsPayloads(s.store[i], s'.store[i]) {
      assert TickMove(s.store[i], s'.store[i]);
    }
    forall k | |s.sends| <= k < |s'.sends| ensures Durable(s'.store, s'.sends[k]) {
      var e := s'.sends[k];
      assert Rebroadcasts(s.store, e) && TickMove(s.store[e.record], s'.store[e.record]);
    }
    AllDurableStays(s, s');
  }

  lemma StepWellFormed(cfg: Config, s: State, step: Label)
    requires WellFormed(cfg, s)
    ensures WellFormed(cfg, Step(cfg, s, step))
  {
    var s' := Step(cfg, s, step);
    match step
    case SubmitStep(req, env) =>
      var id, record := SubmitShape(cfg, s, req, env);
      OptWellFormed(cfg, s, req);
      if s' != Opt(s, req) {
        SubmittedWellFormed(cfg, Opt(s, req), s', req, id, record);
      }
    case ReplaceStep(signer, id, pct, env) =>
      var original, record := ReplaceShape(cfg, s, signer, id, pct, env);
      if MarkedIntervention(s, s', id) {
        MarkedWellFormed(cfg, s, s', id);
      } else if s' != s {
        SupersededWellFormed(cfg, s, s', id, original, record);
      }
    case RefreshStep(confirmations, env) =>
      RefreshShape(s, confirmations, env);
      RefreshedWellFormed(cfg, s, s');
    case ProjectStep(slot, tx) =>
      ProjectedWellFormed(cfg, s, slot, tx);
  }

  lemma OptWellFormed(cfg: Config, s: State, req: SubmitRequest)
    requires WellFormed(cfg, s)
    ensures WellFormed(cfg, Opt(s, req))
  {
    forall i | 0 <= i < |s.store| ensures GoodRecord(cfg, Opt(s, req), i) {
      assert GoodRecord(cfg, s, i);
    }
  }

  lemma MarkedWellFormed(cfg: Config, s: State, s': State, id: nat)
    requires WellFormed(cfg, s) && MarkedIntervention(s, s', id)
    ensures WellFormed(cfg, s')
  {
    assert GoodRecord(cfg, s, id);
    forall i | 0 <= i < |s'.store| ensures GoodRecord(cfg, s', i) {
      assert GoodRecord(cfg, s, i);
    }
    AllDurableStays(s, s');
  }

  lemma ProjectedWellFormed(cfg: Config, s: State, slot: nat, tx: Tx)
    requires WellFormed(cfg, s)
    ensures WellFormed(cfg, Step(cfg, s, ProjectStep(slot, tx)))
  {
    var s' := Step(cfg, s, ProjectStep(slot, tx));
    if s' != s {
      forall i | 0 <= i < |s'.store| ensures GoodRecord(cfg, s', i) {
        if i != slot {
          assert GoodRecord(cfg, s, i);
        }
      }
      AllDurableStays(s, s');
    }
  }

  lemma {:induction false} RunWellFormed(cfg: Config, run: seq<Label>)
    ensures WellFormed(cfg, Run(cfg, run))
  {
    if run != [] {
      RunWellFormed(cfg, run[..|run| - 1]);
      StepWellFormed(cfg, Run(cfg, run[..|run| - 1]), run[|run| - 1]);
    }
  }

  /** Persist before broadcast: whatever was ever sent is still stored with the record it was sent for. */
  lemma PersistBeforeBroadcast(cfg: Config, run: seq<Label>, k: nat)
    requires k < |Run(cfg, run).sends|
    ensures Durable(Run(cfg, run).store, Run(cfg, run).sends[k])
  {
    RunWellFormed(cfg, run);
  }
}
