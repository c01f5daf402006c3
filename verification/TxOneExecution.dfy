/** Every transaction of an idempotency key that may have executed carries one nonce. */
module TxOneExecution {
  import opened Options
  import opened TxRecords
  import opened TxSpec
  import opened TxEffects
  import opened TxInvariants
  import opened TxExclusivity

  /** A Submit-created record whose key was never used with reorg retries. A keyless record is never retried. */
  ghost predicate SafeRoot(s: State, r: nat) {
    && r < |s.store| && !s.store[r].eventDerived && s.store[r].replacing.None?
    && (s.store[r].key == "" || s.store[r].key !in s.relaxedKeys)
  }

  /** The broadcast may have put the transaction in front of a miner. */
  ghost predicate MayExecute(e: Send) {
    !e.outcome.Rejected?
  }

  /** Everything under root `r` uses the root's current sender and nonce; a Failed root has nothing that may execute. */
  ghost predicate SingleNonce(s: State, r: nat)
    requires r < |s.store|
  {
    && (forall i :: 0 <= i < |s.store| && Root(s.store, i) == r ==>
          s.store[i].from == s.store[r].from && s.store[i].nonce == s.store[r].nonce
          && (s.store[r].status.Failed? ==> i == r))
    && (forall k :: 0 <= k < |s.sends| && s.sends[k].record < |s.store| && Root(s.store, s.sends[k].record) == r && MayExecute(s.sends[k]) ==>
          s.sends[k].tx.from == s.store[r].from && s.sends[k].tx.nonce == s.store[r].nonce && !s.store[r].status.Failed?)
  }

  ghost predicate OneNonce(s: State) {
    forall r: nat :: SafeRoot(s, r) ==> SingleNonce(s, r)
  }

  lemma SubmittedOneNonce(cfg: Config, s: State, s': State, req: SubmitRequest, id: nat, record: Tx)
    requires WellFormed(cfg, s) && OneNonce(s) && Submitted(cfg, s, s', req, id, record)
    requires req.allow ==> req.key in s.relaxedKeys
    ensures OneNonce(s')
  {
    forall r: nat | SafeRoot(s', r) ensures SingleNonce(s', r) {
      SubmittedSingleNonce(cfg, s, s', req, id, record, r);
    }
  }

  lemma SubmittedSingleNonce(cfg: Config, s: State, s': State, req: SubmitRequest, id: nat, record: Tx, r: nat)
    requires WellFormed(cfg, s) && OneNonce(s) && Submitted(cfg, s, s', req, id, record)
    requires req.allow ==> req.key in s.relaxedKeys
    requires SafeRoot(s', r)
    ensures SingleNonce(s', r)
  {
    SubmittedRoots(cfg, s, s', req, id, record);
    if r < |s.store| {
      if r == id {
        assert GoodRecord(cfg, s, id);
      }
      assert SafeRoot(s, r) && SingleNonce(s, r);
      if r == id {
        assert s.store[id].status.Failed?;
      }
    }
  }

  /** A Submit moves no record to another root and sends on behalf of its own record only. */
  lemma SubmittedRoots(cfg: Config, s: State, s': State, req: SubmitRequest, id: nat, record: Tx)
    requires WellFormed(cfg, s) && Submitted(cfg, s, s', req, id, record)
    ensures |s.store| <= |s'.store| && |s.sends| <= |s'.sends|
    ensures forall i :: 0 <= i < |s.store| ==> Root(s'.store, i) == Root(s.store, i)
    ensures forall k :: 0 <= k < |s.sends| ==> s'.sends[k] == s.sends[k] && s.sends[k].record < |s.store|
    ensures id < |s'.store| && Root(s'.store, id) == id
  {
    if id < |s.store| {
      assert GoodRecord(cfg, s, id);
    }
    forall i | 0 <= i < |s.store| ensures Root(s'.store, i) == Root(s.store, i) {
      assert GoodRecord(cfg, s, i);
      RootStable(s.store, s'.store, i);
    }
    forall k | 0 <= k < |s.sends| ensures s'.sends[k] == s.sends[k] && s.sends[k].record < |s.store| {
      assert Durable(s.store, s.sends[k]);
    }
  }

  lemma SupersededOneNonce(cfg: Config, s: State, s': State, id: nat, original: Tx, record: Tx)
    requires WellFormed(cfg, s) && OneNonce(s) && Superseded(cfg, s, s', id, original, record)
    ensures OneNonce(s')
  {
    var n := |s.store|;
    assert GoodRecord(cfg, s, id) && s'.store[n] == record;
    RootStable(s.store, s'.store, id);
    assert Root(s'.store, n) == Root(s.store, id);
    forall r: nat | SafeRoot(s', r) ensures SingleNonce(s', r) {
      forall i | 0 <= i < |s.store| ensures Root(s'.store, i) == Root(s.store, i) {
        RootStable(s.store, s'.store, i);
      }
      forall k | 0 <= k < |s.sends| ensures s'.sends[k] == s.sends[k] && Durable(s.store, s.sends[k]) {
      }
      assert r < |s.store|;
      assert SafeRoot(s, r) && SingleNonce(s, r);
      if r != id {
        assert s'.store[r] == s.store[r];
      }
    }
  }

  lemma RefreshedOneNonce(cfg: Config, s: State, s': State)
    requires WellFormed(cfg, s) && OneNonce(s) && Refreshed(s, s')
    ensures OneNonce(s')
  {
    forall r: nat | SafeRoot(s', r) ensures SingleNonce(s', r) {
      RefreshedSingleNonce(cfg, s, s', r);
    }
  }

  lemma RefreshedSingleNonce(cfg: Config, s: State, s': State, r: nat)
    requires WellFormed(cfg, s) && OneNonce(s) && Refreshed(s, s') && SafeRoot(s', r)
    ensures SingleNonce(s', r)
  {
    forall i | 0 <= i < |s.store|
      ensures TickMove(s.store[i], s'.store[i]) && Root(s'.store, i) == Root(s.store, i) && GoodRecord(cfg, s, i)
    {
      forall j | 0 <= j < |s.store| ensures s'.store[j].replacing == s.store[j].replacing {
        assert TickMove(s.store[j], s'.store[j]);
      }
      RootStable(s.store, s'.store, i);
    }
    assert SafeRoot(s, r) && SingleNonce(s, r);
    forall k | 0 <= k < |s'.sends| && s'.sends[k].record < |s'.store| && Root(s'.store, s'.sends[k].record) == r && MayExecute(s'.sends[k])
      ensures s'.sends[k].tx.from == s'.store[r].from && s'.sends[k].tx.nonce == s'.store[r].nonce && !s'.store[r].status.Failed?
    {
      if k < |s.sends| {
        assert s'.sends[k] == s'.sends[..|s.sends|][k] == s.sends[k];
      } else {
        assert Rebroadcasts(s.store, s'.sends[k]);
      }
    }
  }

  lemma StepOneNonce(cfg: Config, s: State, step: Label)
    requires WellFormed(cfg, s) && OneNonce(s)
    ensures OneNonce(Step(cfg, s, step))
  {
    var s' := Step(cfg, s, step);
    match step
    case SubmitStep(req, env) =>
      var id, record := SubmitShape(cfg, s, req, env);
      var s0 := Opt(s, req);
      OptWellFormed(cfg, s, req);
      forall r: nat | SafeRoot(s0, r) ensures SingleNonce(s0, r) {
        assert SafeRoot(s, r) && SingleNonce(s, r);
      }
      if s' != s0 {
        SubmittedOneNonce(cfg, s0, s', req, id, record);
      }
    case ReplaceStep(signer, id, pct, env) =>
      var original, record := ReplaceShape(cfg, s, signer, id, pct, env);
      if MarkedIntervention(s, s', id) {
        MarkedOneNonce(cfg, s, s', id);
      } else if s' != s {
        SupersededOneNonce(cfg, s, s', id, original, record);
      }
    case RefreshStep(confirmations, env) =>
      RefreshShape(s, confirmations, env);
      RefreshedOneNonce(cfg, s, s');
    case ProjectStep(slot, tx) =>
      ProjectedOneNonce(cfg, s, slot, tx);
  }

  lemma MarkedOneNonce(cfg: Config, s: State, s': State, id: nat)
    requires WellFormed(cfg, s) && OneNonce(s) && MarkedIntervention(s, s', id)
    ensures OneNonce(s')
  {
    forall r: nat | SafeRoot(s', r) ensures SingleNonce(s', r) {
      assert SafeRoot(s, r) && SingleNonce(s, r);
      forall i | 0 <= i < |s.store| ensures Root(s'.store, i) == Root(s.store, i) {
        RootStable(s.store, s'.store, i);
      }
    }
  }

  lemma ProjectedOneNonce(cfg: Config, s: State, slot: nat, tx: Tx)
    requires WellFormed(cfg, s) && OneNonce(s)
    ensures OneNonce(Step(cfg, s, ProjectStep(slot, tx)))
  {
    var s' := Step(cfg, s, ProjectStep(slot, tx));
    if s' != s {
      if slot < |s.store| {
        assert GoodRecord(cfg, s, slot);
      }
      forall r: nat | SafeRoot(s', r) ensures SingleNonce(s', r) {
        assert SafeRoot(s, r) && SingleNonce(s, r);
        forall i | 0 <= i < |s.store| ensures Root(s'.store, i) == Root(s.store, i) && GoodRecord(cfg, s, i) {
          RootStable(s.store, s'.store, i);
        }
        forall k | 0 <= k < |s.sends| ensures Durable(s.store, s.sends[k]) {
        }
      }
    }
  }

  lemma {:induction false} RunOneNonce(cfg: Config, run: seq<Label>)
    ensures WellFormed(cfg, Run(cfg, run)) && OneNonce(Run(cfg, run))
  {
    RunWellFormed(cfg, run);
    if run != [] {
      RunOneNonce(cfg, run[..|run| - 1]);
      StepOneNonce(cfg, Run(cfg, run[..|run| - 1]), run[|run| - 1]);
    }
  }

  ghost predicate NeverRelaxedKey(run: seq<Label>, key: string) {
    forall k :: 0 <= k < |run| && run[k].SubmitStep? && run[k].req.key == key ==> !run[k].req.allow
  }

  lemma {:induction false} RelaxedKeysAsked(cfg: Config, run: seq<Label>, key: string)
    requires NeverRelaxedKey(run, key)
    ensures key !in Run(cfg, run).relaxedKeys
  {
    if run != [] {
      var prior, step := run[..|run| - 1], run[|run| - 1];
      assert forall k :: 0 <= k < |prior| ==> prior[k] == run[k];
      RelaxedKeysAsked(cfg, prior, key);
      StepRelaxed(cfg, Run(cfg, prior), step);
    }
  }

  /** The idempotency key a broadcast was made under, through any number of replacements. */
  function KeyOf(store: Store, e: Send): string
    requires e.record < |store|
  {
    store[Root(store, e.record)].key
  }

  /** At most one execution per idempotency key: a chain executes at most one transaction per (sender, nonce). */
  lemma AtMostOneExecution(cfg: Config, run: seq<Label>, key: string, k1: nat, k2: nat)
    requires NeverRelaxedKey(run, key) && key != ""
    requires var s := Run(cfg, run);
      && k1 < |s.sends| && s.sends[k1].record < |s.store| && KeyOf(s.store, s.sends[k1]) == key && MayExecute(s.sends[k1])
      && k2 < |s.sends| && s.sends[k2].record < |s.store| && KeyOf(s.store, s.sends[k2]) == key && MayExecute(s.sends[k2])
    ensures var s := Run(cfg, run);
      s.sends[k1].tx.from == s.sends[k2].tx.from && s.sends[k1].tx.nonce == s.sends[k2].tx.nonce
  {
    var s := Run(cfg, run);
    RunOneNonce(cfg, run);
    RelaxedKeysAsked(cfg, run, key);
    var r1, r2 := Root(s.store, s.sends[k1].record), Root(s.store, s.sends[k2].record);
    assert GoodRecord(cfg, s, r1) && GoodRecord(cfg, s, r2);
    assert r1 == r2;
    assert SafeRoot(s, r1) && SingleNonce(s, r1);
  }
}
