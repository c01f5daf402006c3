/** No two live transactions of one signer compete for a nonce unless one replaces the other. */
module TxExclusivity {
  import opened Words
  import opened TxRecords
  import opened TxSpec
  import opened TxEffects
  import opened TxInvariants

  ghost predicate Live(tx: Tx) {
    !tx.eventDerived && !tx.status.Failed? && !tx.status.Replaced?
  }

  ghost predicate Contend(a: Tx, b: Tx) {
    Live(a) && Live(b) && a.from == b.from && a.nonce == b.nonce && a.nonce != MAX_U64
  }

  /** For signers that never opted into reorg retries, contenders for a nonce share a replacement root. */
  ghost predicate Exclusive(s: State) {
    forall i, j :: 0 <= i < |s.store| && 0 <= j < |s.store| ==>
      Contend(s.store[i], s.store[j]) && s.store[i].from !in s.relaxedSigners ==> Root(s.store, i) == Root(s.store, j)
  }

  /** `next` has the same links on old records, and every live old record was live with the same sender and nonce. */
  ghost predicate Inherits(prior: Store, next: Store) {
    && SameLinks(prior, next)
    && forall i :: 0 <= i < |prior| && Live(next[i]) ==>
         Live(prior[i]) && next[i].from == prior[i].from && next[i].nonce == prior[i].nonce
  }

  lemma InheritedExclusive(s: State, s': State)
    requires Exclusive(s) && Inherits(s.store, s'.store) && |s'.store| == |s.store|
    requires s.relaxedSigners <= s'.relaxedSigners
    ensures Exclusive(s')
  {
    forall i, j | 0 <= i < |s'.store| && 0 <= j < |s'.store| && Contend(s'.store[i], s'.store[j]) && s'.store[i].from !in s'.relaxedSigners
      ensures Root(s'.store, i) == Root(s'.store, j)
    {
      assert Contend(s.store[i], s.store[j]);
      RootStable(s.store, s'.store, i);
      RootStable(s.store, s'.store, j);
    }
  }

  /** A newly allocated nonce is no live record's: blocked signers cannot allocate, and held nonces are exceeded. */
  lemma SubmittedHasNoContender(cfg: Config, s: State, s': State, req: SubmitRequest, id: nat, record: Tx, j: nat)
    requires WellFormed(cfg, s) && Submitted(cfg, s, s', req, id, record)
    requires j < |s.store| && j != id && record.from !in s.relaxedSigners
    ensures !Contend(record, s.store[j])
  {
    var tx := s.store[j];
    assert GoodRecord(cfg, s, j);
    if Contend(record, tx) {
      assert !tx.allow;
      assert !Blocks(tx, req.signer);
      assert Holds(tx, req.signer);
    }
  }

  lemma SubmittedExclusive(cfg: Config, s: State, s': State, req: SubmitRequest, id: nat, record: Tx)
    requires WellFormed(cfg, s) && Exclusive(s) && Submitted(cfg, s, s', req, id, record)
    ensures Exclusive(s')
  {
    if id < |s.store| {
      assert GoodRecord(cfg, s, id);
    }
    forall i, j | 0 <= i < |s'.store| && 0 <= j < |s'.store| && Contend(s'.store[i], s'.store[j]) && s'.store[i].from !in s'.relaxedSigners
      ensures Root(s'.store, i) == Root(s'.store, j)
    {
      if i == id && j != id {
        SubmittedHasNoContender(cfg, s, s', req, id, record, j);
      } else if i != id && j == id {
        SubmittedHasNoContender(cfg, s, s', req, id, record, i);
      } else if i != id {
        assert Contend(s.store[i], s.store[j]);
        RootStable(s.store, s'.store, i);
        RootStable(s.store, s'.store, j);
      }
    }
  }

  lemma SupersededExclusive(cfg: Config, s: State, s': State, id: nat, original: Tx, record: Tx)
    requires WellFormed(cfg, s) && Exclusive(s) && Superseded(cfg, s, s', id, original, record)
    ensures Exclusive(s')
  {
    assert GoodRecord(cfg, s, id);
    var n := |s.store|;
    assert s'.store[n] == record;
    RootStable(s.store, s'.store, id);
    assert Root(s'.store, n) == Root(s.store, id);
    forall i, j | 0 <= i < |s'.store| && 0 <= j < |s'.store| && Contend(s'.store[i], s'.store[j]) && s'.store[i].from !in s'.relaxedSigners
      ensures Root(s'.store, i) == Root(s'.store, j)
    {
      var i0 := if i == n then id else i;
      var j0 := if j == n then id else j;
      assert Contend(s.store[i0], s.store[j0]);
      RootStable(s.store, s'.store, i0);
      RootStable(s.store, s'.store, j0);
    }
  }

  lemma StepExclusive(cfg: Config, s: State, step: Label)
    requires WellFormed(cfg, s) && Exclusive(s)
    ensures Exclusive(Step(cfg, s, step))
  {
    var s' := Step(cfg, s, step);
    match step
    case SubmitStep(req, env) =>
      var id, record := SubmitShape(cfg, s, req, env);
      OptWellFormed(cfg, s, req);
      InheritedExclusive(s, Opt(s, req));
      if s' != Opt(s, req) {
        SubmittedExclusive(cfg, Opt(s, req), s', req, id, record);
      }
    case ReplaceStep(signer, id, pct, env) =>
      var original, record := ReplaceShape(cfg, s, signer, id, pct, env);
      if MarkedIntervention(s, s', id) {
        assert GoodRecord(cfg, s, id);
        InheritedExclusive(s, s');
      } else if s' != s {
        SupersededExclusive(cfg, s, s', id, original, record);
      }
    case RefreshStep(confirmations, env) =>
      RefreshShape(s, confirmations, env);
      forall i | 0 <= i < |s.store| ensures s'.store[i].replacing == s.store[i].replacing
        && (Live(s'.store[i]) ==> Live(s.store[i]) && s'.store[i].from == s.store[i].from && s'.store[i].nonce == s.store[i].nonce)
      {
        assert TickMove(s.store[i], s'.store[i]);
      }
      InheritedExclusive(s, s');
    case ProjectStep(slot, tx) =>
      ProjectedExclusive(cfg, s, slot, tx);
  }

  lemma ProjectedExclusive(cfg: Config, s: State, slot: nat, tx: Tx)
    requires WellFormed(cfg, s) && Exclusive(s)
    ensures Exclusive(Step(cfg, s, ProjectStep(slot, tx)))
  {
    var s' := Step(cfg, s, ProjectStep(slot, tx));
    if s' != s {
      if slot < |s.store| {
        assert GoodRecord(cfg, s, slot);
      }
      forall i, j | 0 <= i < |s'.store| && 0 <= j < |s'.store| && Contend(s'.store[i], s'.store[j]) && s'.store[i].from !in s'.relaxedSigners
        ensures Root(s'.store, i) == Root(s'.store, j)
      {
        assert Contend(s.store[i], s.store[j]);
        RootStable(s.store, s'.store, i);
        RootStable(s.store, s'.store, j);
      }
    }
  }

  lemma {:induction false} RunExclusive(cfg: Config, run: seq<Label>)
    ensures WellFormed(cfg, Run(cfg, run)) && Exclusive(Run(cfg, run))
  {
    RunWellFormed(cfg, run);
    if run != [] {
      RunExclusive(cfg, run[..|run| - 1]);
      StepExclusive(cfg, Run(cfg, run[..|run| - 1]), run[|run| - 1]);
    }
  }

  /** Whether no request of `signer` in the run opts into reorg retries. */
  ghost predicate NeverRelaxed(run: seq<Label>, signer: Address) {
    forall k :: 0 <= k < |run| && run[k].SubmitStep? && run[k].req.signer == signer ==> !run[k].req.allow
  }

  /** The relaxed signers are those that asked for it. */
  lemma {:induction false} RelaxedSignersAsked(cfg: Config, run: seq<Label>, signer: Address)
    requires NeverRelaxed(run, signer)
    ensures signer !in Run(cfg, run).relaxedSigners
  {
    if run != [] {
      var prior, step := run[..|run| - 1], run[|run| - 1];
      assert forall k :: 0 <= k < |prior| ==> prior[k] == run[k];
      RelaxedSignersAsked(cfg, prior, signer);
      StepRelaxed(cfg, Run(cfg, prior), step);
    }
  }

  lemma StepRelaxed(cfg: Config, s: State, step: Label)
    ensures var s' := Step(cfg, s, step);
      if step.SubmitStep? && step.req.allow
      then s'.relaxedSigners == s.relaxedSigners + {step.req.signer} && s'.relaxedKeys == s.relaxedKeys + {step.req.key}
      else s'.relaxedSigners == s.relaxedSigners && s'.relaxedKeys == s.relaxedKeys
  {
    match step
    case SubmitStep(req, env) =>
      var id, record := SubmitShape(cfg, s, req, env);
    case ReplaceStep(signer, id, pct, env) =>
      var original, record := ReplaceShape(cfg, s, signer, id, pct, env);
    case RefreshStep(confirmations, env) =>
      RefreshShape(s, confirmations, env);
    case ProjectStep(slot, tx) =>
  }

  /** Nonce exclusivity over every run, whatever the node answers and wherever it crashes. */
  lemma NonceExclusivity(cfg: Config, run: seq<Label>, i: nat, j: nat)
    requires i < |Run(cfg, run).store| && j < |Run(cfg, run).store|
    requires Contend(Run(cfg, run).store[i], Run(cfg, run).store[j])
    requires NeverRelaxed(run, Run(cfg, run).store[i].from)
    ensures Root(Run(cfg, run).store, i) == Root(Run(cfg, run).store, j)
  {
    RunExclusive(cfg, run);
    RelaxedSignersAsked(cfg, run, Run(cfg, run).store[i].from);
  }
}
