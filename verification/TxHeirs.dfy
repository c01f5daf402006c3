/** Which records a tick links to their replacements, and why a retried record has no surviving replacement. */
module TxHeirs {
  import opened Options
  import opened Words
  import opened TxRecords
  import opened TxSpec
  import opened TxEffects
  import opened TxInvariants
  import opened TxConvergence

  /** Record `i` is not Replaced and has no replacement that a tick could link it to. */
  ghost predicate Unlinked(s: State, i: nat) {
    i < |s.store| && !s.store[i].status.Replaced? && !HasHeir(s.store, 0, i)
  }

  lemma {:induction false} LinkingSkips(store: Store, snapshot: Store, k: nat, links: nat -> LinkView, i: nat)
    requires k <= |snapshot| == |store| && i < |store| && !HasHeir(snapshot, k, i)
    ensures LinkFrom(store, snapshot, k, links).0[i] == store[i]
    decreases |snapshot| - k
  {
    if k < |snapshot| {
      var (store1, ok) := LinkOne(store, snapshot, k, links(k));
      assert HasHeir(snapshot, k + 1, i) ==> HasHeir(snapshot, k, i);
      if ok {
        LinkingSkips(store1, snapshot, k + 1, links, i);
      }
    }
  }

  /** The repair pass leaves a record alone or makes it Replaced; a completed one makes every linked original Replaced. */
  lemma {:induction false} LinkingReplaces(store: Store, snapshot: Store, k: nat, links: nat -> LinkView, i: nat)
    requires k <= |snapshot| == |store| && i < |store|
    ensures var (next, ok) := LinkFrom(store, snapshot, k, links);
      && (next[i] == store[i] || next[i].status.Replaced?)
      && (store[i].status.Replaced? ==> next[i].status.Replaced?)
      && (ok && HasHeir(snapshot, k, i) ==> next[i].status.Replaced?)
    decreases |snapshot| - k
  {
    if k < |snapshot| {
      var (store1, ok) := LinkOne(store, snapshot, k, links(k));
      assert HasHeir(snapshot, k, i) <==> (snapshot[k].replacing == Some(i) && !snapshot[k].status.Failed?) || HasHeir(snapshot, k + 1, i);
      if ok {
        LinkingReplaces(store1, snapshot, k + 1, links, i);
      }
    }
  }

  /** Refreshing neither enters nor leaves Replaced. */
  lemma {:induction false} RefreshNeverReplaces(s: State, k: nat, head: U64, confirmations: U64, views: nat -> RecordView, i: nat)
    requires k <= |s.store| && i < |s.store|
    ensures RefreshFrom(s, k, head, confirmations, views).0.store[i].status.Replaced? <==> s.store[i].status.Replaced?
    decreases |s.store| - k
  {
    if k < |s.store| {
      var (s1, ok) := RefreshOne(s, k, head, confirmations, views(k));
      if ok {
        RefreshNeverReplaces(s1, k + 1, head, confirmations, views, i);
      }
    }
  }

  /** No tick, whatever it is answered and wherever it stops, replaces a record without a surviving replacement. */
  lemma TickReplacesOnlyLinked(s: State, confirmations: U64, env: TickEnv, i: nat)
    requires Unlinked(s, i)
    ensures var t := RefreshCall(s, confirmations, env).0;
      i < |t.store| && !t.store[i].status.Replaced?
  {
    if env.replacements {
      LinkingSkips(s.store, s.store, 0, env.links, i);
      var (store, ok) := LinkFrom(s.store, s.store, 0, env.links);
      if ok && env.head.Some? && env.unfinalized {
        RefreshNeverReplaces(s.(store := store), 0, env.head.value, confirmations, env.views, i);
      }
    }
  }

  /** An abandoned replacement stays abandoned. */
  lemma FailedStays(s: State, confirmations: U64, env: TickEnv, j: nat)
    requires FailedHeirless(s.store) && j < |s.store| && s.store[j].replacing.Some? && s.store[j].status.Failed?
    ensures RefreshCall(s, confirmations, env).0.store[j].status.Failed?
  {
    RefreshShape(s, confirmations, env);
    assert TickMove(s.store[j], RefreshCall(s, confirmations, env).0.store[j]);
    TickReplacesOnlyLinked(s, confirmations, env, j);
  }

  // Retryable records

  /** Every replacement of a record that a Submit may retry was abandoned. */
  ghost predicate RetryableHeirless(store: Store) {
    forall i, j :: 0 <= i < |store| && 0 <= j < |store| && Retryable(store[i]) && store[j].replacing == Some(i) ==>
      store[j].status.Failed?
  }

  lemma SubmittedRetryable(cfg: Config, s: State, s': State, req: SubmitRequest, id: nat, record: Tx)
    requires WellFormed(cfg, s) && RetryableHeirless(s.store) && Submitted(cfg, s, s', req, id, record)
    ensures RetryableHeirless(s'.store)
  {
    forall i, j | 0 <= i < |s'.store| && 0 <= j < |s'.store| && Retryable(s'.store[i]) && s'.store[j].replacing == Some(i)
      ensures s'.store[j].status.Failed?
    {
      assert j != id && s'.store[j] == s.store[j] && GoodRecord(cfg, s, j);
    }
  }

  lemma SupersededRetryable(cfg: Config, s: State, s': State, id: nat, original: Tx, record: Tx)
    requires WellFormed(cfg, s) && RetryableHeirless(s.store) && Superseded(cfg, s, s', id, original, record)
    ensures RetryableHeirless(s'.store)
  {
    forall i, j | 0 <= i < |s'.store| && 0 <= j < |s'.store| && Retryable(s'.store[i]) && s'.store[j].replacing == Some(i)
      ensures s'.store[j].status.Failed?
    {
      assert i != id;
      if j < |s.store| {
        assert GoodRecord(cfg, s, j) && s'.store[j].replacing == s.store[j].replacing;
      }
    }
  }

  /** A record retryable after a tick had no surviving replacement before it. */
  lemma TickLeavesRetryable(s: State, confirmations: U64, env: TickEnv, i: nat, j: nat)
    requires RetryableHeirless(s.store) && i < |s.store| && j < |s.store| && s.store[j].replacing == Some(i)
    requires Retryable(RefreshCall(s, confirmations, env).0.store[i])
    ensures s.store[j].status.Failed?
  {
    var (linked, ok) := LinkFrom(s.store, s.store, 0, env.links);
    LinkingReplaces(s.store, s.store, 0, env.links, i);
    if env.replacements && ok && env.head.Some? && env.unfinalized {
      RefreshNeverReplaces(s.(store := linked), 0, env.head.value, confirmations, env.views, i);
      assert !HasHeir(s.store, 0, i);
    }
  }

  lemma RefreshedRetryable(s: State, confirmations: U64, env: TickEnv)
    requires RetryableHeirless(s.store) && FailedHeirless(s.store)
    ensures RetryableHeirless(RefreshCall(s, confirmations, env).0.store)
  {
    var t := RefreshCall(s, confirmations, env).0;
    RefreshShape(s, confirmations, env);
    forall i, j | 0 <= i < |t.store| && 0 <= j < |t.store| && Retryable(t.store[i]) && t.store[j].replacing == Some(i)
      ensures t.store[j].status.Failed?
    {
      assert TickMove(s.store[j], t.store[j]);
      TickLeavesRetryable(s, confirmations, env, i, j);
      FailedStays(s, confirmations, env, j);
    }
  }

  lemma StepRetryable(cfg: Config, s: State, step: Label)
    requires WellFormed(cfg, s) && FailedHeirless(s.store) && RetryableHeirless(s.store)
    ensures RetryableHeirless(Step(cfg, s, step).store)
  {
    var s' := Step(cfg, s, step);
    match step
    case SubmitStep(req, env) =>
      var id, record := SubmitShape(cfg, s, req, env);
      OptWellFormed(cfg, s, req);
      if s' != Opt(s, req) {
        SubmittedRetryable(cfg, Opt(s, req), s', req, id, record);
      }
    case ReplaceStep(signer, id, pct, env) =>
      var original, record := ReplaceShape(cfg, s, signer, id, pct, env);
      if !MarkedIntervention(s, s', id) && s' != s {
        SupersededRetryable(cfg, s, s', id, original, record);
      }
    case RefreshStep(confirmations, env) => RefreshedRetryable(s, confirmations, env);
    case ProjectStep(slot, tx) => ProjectedRetryable(cfg, s, slot, tx);
  }

  lemma ProjectedRetryable(cfg: Config, s: State, slot: nat, tx: Tx)
    requires WellFormed(cfg, s) && RetryableHeirless(s.store)
    ensures RetryableHeirless(Step(cfg, s, ProjectStep(slot, tx)).store)
  {
    var s' := Step(cfg, s, ProjectStep(slot, tx));
    forall i, j | 0 <= i < |s'.store| && 0 <= j < |s'.store| && Retryable(s'.store[i]) && s'.store[j].replacing == Some(i)
      ensures s'.store[j].status.Failed?
    {
      if j < |s.store| {
        assert GoodRecord(cfg, s, j);
      }
    }
  }

  lemma {:induction false} RunRetryable(cfg: Config, run: seq<Label>)
    ensures RetryableHeirless(Run(cfg, run).store)
  {
    if run != [] {
      var prior := run[..|run| - 1];
      RunWellFormed(cfg, prior);
      RunFailedHeirless(cfg, prior);
      RunRetryable(cfg, prior);
      StepRetryable(cfg, Run(cfg, prior), run[|run| - 1]);
    }
  }
}
