/** Chains of replacements: their length stays within the attempt limit and their fees compound. */
module TxChains {
  import opened Options
  import opened Words
  import opened Fees
  import opened TxRecords
  import opened TxSpec
  import opened TxEffects
  import opened TxInvariants
  import opened TxConvergence
  import opened TxHeirs
  import opened TxOneExecution

  ghost predicate BoundedChains(cfg: Config, s: State) {
    forall i :: 0 <= i < |s.store| ==>
      Links(s.store, i) <= s.store[i].count && (cfg.maxReplacements > 0 ==> s.store[i].count <= cfg.maxReplacements)
  }

  /** A step that keeps links and counts, or resets the count of an unlinked record, keeps the bound. */
  lemma KeptChainsBounded(cfg: Config, s: State, s': State)
    requires BoundedChains(cfg, s) && SameLinks(s.store, s'.store)
    requires forall i :: 0 <= i < |s'.store| ==>
      (i < |s.store| && s'.store[i].count == s.store[i].count) || (s'.store[i].replacing.None? && s'.store[i].count == 0)
    ensures BoundedChains(cfg, s')
  {
    LinksKept(s.store, s'.store);
  }

  lemma SupersededChainsBounded(cfg: Config, s: State, s': State, id: nat, original: Tx, record: Tx)
    requires BoundedChains(cfg, s) && Superseded(cfg, s, s', id, original, record)
    ensures BoundedChains(cfg, s')
  {
    LinksKept(s.store, s'.store);
    assert Links(s'.store, |s.store|) == 1 + Links(s.store, id);
  }

  lemma StepBoundedChains(cfg: Config, s: State, step: Label)
    requires WellFormed(cfg, s) && BoundedChains(cfg, s)
    ensures BoundedChains(cfg, Step(cfg, s, step))
  {
    var s' := Step(cfg, s, step);
    match step
    case SubmitStep(req, env) =>
      var id, record := SubmitShape(cfg, s, req, env);
      if s' != Opt(s, req) && id < |s.store| {
        assert GoodRecord(cfg, s, id);
      }
      KeptChainsBounded(cfg, s, s');
    case ReplaceStep(signer, id, pct, env) =>
      var original, record := ReplaceShape(cfg, s, signer, id, pct, env);
      if MarkedIntervention(s, s', id) || s' == s {
        KeptChainsBounded(cfg, s, s');
      } else {
        SupersededChainsBounded(cfg, s, s', id, original, record);
      }
    case RefreshStep(confirmations, env) =>
      RefreshShape(s, confirmations, env);
      forall i | 0 <= i < |s.store| ensures s'.store[i].replacing == s.store[i].replacing && s'.store[i].count == s.store[i].count {
        assert TickMove(s.store[i], s'.store[i]);
      }
      KeptChainsBounded(cfg, s, s');
    case ProjectStep(slot, tx) =>
      if s' != s && slot < |s.store| {
        assert GoodRecord(cfg, s, slot);
      }
      KeptChainsBounded(cfg, s, s');
  }

  lemma LinksKept(prior: Store, next: Store)
    requires SameLinks(prior, next)
    ensures forall i :: 0 <= i < |prior| ==> Links(next, i) == Links(prior, i) && Root(next, i) == Root(prior, i)
  {
    forall i | 0 <= i < |prior| ensures Links(next, i) == Links(prior, i) && Root(next, i) == Root(prior, i) {
      RootStable(prior, next, i);
    }
  }

  lemma {:induction false} RunBoundedChains(cfg: Config, run: seq<Label>)
    ensures BoundedChains(cfg, Run(cfg, run))
  {
    if run != [] {
      RunWellFormed(cfg, run[..|run| - 1]);
      RunBoundedChains(cfg, run[..|run| - 1]);
      StepBoundedChains(cfg, Run(cfg, run[..|run| - 1]), run[|run| - 1]);
    }
  }

  /** A positive attempt limit bounds every Replaces chain. */
  lemma ReplacementLimit(cfg: Config, run: seq<Label>, i: nat)
    requires cfg.maxReplacements > 0 && i < |Run(cfg, run).store|
    ensures Links(Run(cfg, run).store, i) <= cfg.maxReplacements
  {
    RunBoundedChains(cfg, run);
  }

  /** A replacement whose original still has the payload it replaced: it was not abandoned, or its root is never
      retried with a reorg opt-in. */
  ghost predicate Standing(s: State, i: nat)
    requires i < |s.store|
  {
    s.store[i].replacing.Some? && (!s.store[i].status.Failed? || SafeRoot(s, Root(s.store, i)))
  }

  /** Each standing replacement outbids what it replaces. */
  ghost predicate Escalating(s: State) {
    forall i :: 0 <= i < |s.store| && Standing(s, i) ==>
      s.store[i].replacing.value < i && FeesOutbid(s.store[s.store[i].replacing.value].raw.fees, s.store[i].raw.fees)
  }

  lemma SubmittedEscalating(cfg: Config, s: State, s': State, req: SubmitRequest, id: nat, record: Tx)
    requires WellFormed(cfg, s) && OneNonce(s) && RetryableHeirless(s.store) && Escalating(s)
    requires Submitted(cfg, s, s', req, id, record) && (req.allow ==> req.key in s.relaxedKeys)
    ensures Escalating(s')
  {
    if id < |s.store| {
      assert GoodRecord(cfg, s, id);
    }
    LinksKept(s.store, s'.store);
    forall i | 0 <= i < |s'.store| && Standing(s', i)
      ensures s'.store[i].replacing.value < i && FeesOutbid(s'.store[s'.store[i].replacing.value].raw.fees, s'.store[i].raw.fees)
    {
      assert i != id && s'.store[i] == s.store[i];
      assert GoodRecord(cfg, s, i) && GoodRecord(cfg, s, Root(s.store, i)) && Standing(s, i);
      if s.store[i].status.Failed? {
        SafeOriginalKept(cfg, s, s', req, id, record, i);
      }
    }
  }

  /** A retry never touches the original of a replacement under a root without the opt-in. */
  lemma SafeOriginalKept(cfg: Config, s: State, s': State, req: SubmitRequest, id: nat, record: Tx, i: nat)
    requires WellFormed(cfg, s) && OneNonce(s) && Submitted(cfg, s, s', req, id, record)
    requires i < |s.store| && s.store[i].replacing.Some? && SafeRoot(s, Root(s.store, i))
    ensures s.store[i].replacing.value != id
  {
    var r := Root(s.store, i);
    assert GoodRecord(cfg, s, i) && SingleNonce(s, r);
    assert r == Root(s.store, s.store[i].replacing.value);
    if id < |s.store| {
      assert GoodRecord(cfg, s, id);
    }
  }

  /** `b` has the payload and links of `a`, and is no less abandoned. */
  ghost predicate SamePayload(a: Tx, b: Tx) {
    b.replacing == a.replacing && b.raw == a.raw && b.key == a.key && b.eventDerived == a.eventDerived
    && (a.status.Failed? && a.replacing.Some? ==> b.status.Failed?)
  }

  lemma SamePayloadsEscalating(s: State, s': State)
    requires Escalating(s) && |s'.store| == |s.store| && s'.relaxedKeys == s.relaxedKeys
    requires forall i :: 0 <= i < |s.store| ==> SamePayload(s.store[i], s'.store[i])
    ensures Escalating(s')
  {
    LinksKept(s.store, s'.store);
    forall i | 0 <= i < |s'.store| && Standing(s', i)
      ensures s'.store[i].replacing.value < i && FeesOutbid(s'.store[s'.store[i].replacing.value].raw.fees, s'.store[i].raw.fees)
    {
      assert SamePayload(s.store[i], s'.store[i]) && Standing(s, i);
    }
  }

  lemma SupersededEscalating(cfg: Config, s: State, s': State, id: nat, original: Tx, record: Tx)
    requires WellFormed(cfg, s) && Escalating(s) && Superseded(cfg, s, s', id, original, record)
    ensures Escalating(s')
  {
    assert GoodRecord(cfg, s, id);
    LinksKept(s.store, s'.store);
    assert forall i :: 0 <= i < |s.store| ==> SamePayload(s.store[i], s'.store[i]);
    forall i | 0 <= i < |s'.store| && Standing(s', i)
      ensures s'.store[i].replacing.value < i && FeesOutbid(s'.store[s'.store[i].replacing.value].raw.fees, s'.store[i].raw.fees)
    {
      if i < |s.store| {
        assert Standing(s, i);
      }
    }
  }

  lemma RefreshedEscalating(s: State, confirmations: U64, env: TickEnv)
    requires FailedHeirless(s.store) && Escalating(s)
    ensures Escalating(RefreshCall(s, confirmations, env).0)
  {
    var s' := RefreshCall(s, confirmations, env).0;
    RefreshShape(s, confirmations, env);
    forall i | 0 <= i < |s.store| ensures SamePayload(s.store[i], s'.store[i]) {
      assert TickMove(s.store[i], s'.store[i]);
      if s.store[i].status.Failed? && s.store[i].replacing.Some? {
        FailedStays(s, confirmations, env, i);
      }
    }
    SamePayloadsEscalating(s, s');
  }

  lemma StepEscalating(cfg: Config, s: State, step: Label)
    requires WellFormed(cfg, s) && OneNonce(s) && FailedHeirless(s.store) && RetryableHeirless(s.store) && Escalating(s)
    ensures Escalating(Step(cfg, s, step))
  {
    var s' := Step(cfg, s, step);
    match step
    case SubmitStep(req, env) => SubmitEscalating(cfg, s, req, env);
    case ReplaceStep(signer, id, pct, env) =>
      var original, record := ReplaceShape(cfg, s, signer, id, pct, env);
      if MarkedIntervention(s, s', id) {
        SamePayloadsEscalating(s, s');
      } else if s' != s {
        SupersededEscalating(cfg, s, s', id, original, record);
      }
    case RefreshStep(confirmations, env) => RefreshedEscalating(s, confirmations, env);
    case ProjectStep(slot, tx) => ProjectedEscalating(cfg, s, slot, tx);
  }

  lemma SubmitEscalating(cfg: Config, s: State, req: SubmitRequest, env: SubmitEnv)
    requires WellFormed(cfg, s) && OneNonce(s) && RetryableHeirless(s.store) && Escalating(s)
    ensures Escalating(SubmitCall(cfg, s, req, env).0)
  {
    var s0, s' := Opt(s, req), SubmitCall(cfg, s, req, env).0;
    var id, record := SubmitShape(cfg, s, req, env);
    OptWellFormed(cfg, s, req);
    forall r: nat | SafeRoot(s0, r) ensures SafeRoot(s, r) && SingleNonce(s0, r) {
      assert SafeRoot(s, r) && SingleNonce(s, r);
    }
    forall i | 0 <= i < |s0.store| && Standing(s0, i) ensures Standing(s, i) {
    }
    if s' != s0 {
      SubmittedEscalating(cfg, s0, s', req, id, record);
    }
  }

  lemma ProjectedEscalating(cfg: Config, s: State, slot: nat, tx: Tx)
    requires WellFormed(cfg, s) && Escalating(s)
    ensures Escalating(Step(cfg, s, ProjectStep(slot, tx)))
  {
    var s' := Step(cfg, s, ProjectStep(slot, tx));
    if s' != s {
      if slot < |s.store| {
        assert GoodRecord(cfg, s, slot);
      }
      LinksKept(s.store, s'.store);
      forall i | 0 <= i < |s'.store| && Standing(s', i)
        ensures s'.store[i].replacing.value < i && FeesOutbid(s'.store[s'.store[i].replacing.value].raw.fees, s'.store[i].raw.fees)
      {
        assert GoodRecord(cfg, s, i) && Standing(s, i);
      }
    }
  }

  lemma {:induction false} RunEscalating(cfg: Config, run: seq<Label>)
    ensures Escalating(Run(cfg, run))
  {
    if run != [] {
      var prior := run[..|run| - 1];
      RunWellFormed(cfg, prior);
      RunOneNonce(cfg, prior);
      RunFailedHeirless(cfg, prior);
      RunRetryable(cfg, prior);
      RunEscalating(cfg, prior);
      StepEscalating(cfg, Run(cfg, prior), run[|run| - 1]);
    }
  }

  /** The price fields of a line of replacements, oldest first: `k` replacements ending at record `i`. */
  ghost function Prices(store: Store, i: nat, k: nat, field: Fees -> int): (r: seq<int>)
    requires i < |store| && k <= Links(store, i)
    ensures |r| == k + 1 && r[k] == field(store[i].raw.fees)
    decreases k
  {
    if k == 0 then [field(store[i].raw.fees)]
    else Prices(store, store[i].replacing.value, k - 1, field) + [field(store[i].raw.fees)]
  }

  /** All `k + 1` transactions of the line use one fee mode. */
  ghost predicate OneMode(store: Store, i: nat, k: nat, dynamic: bool)
    requires i < |store| && k <= Links(store, i)
    decreases k
  {
    store[i].raw.fees.Dynamic? == dynamic && (k > 0 ==> OneMode(store, store[i].replacing.value, k - 1, dynamic))
  }

  function TipOf(f: Fees): int { if f.Dynamic? then f.tip else f.price }

  function CapOf(f: Fees): int { if f.Dynamic? then f.cap else f.price }

  /** Only the newest record of a line can be an abandoned replacement, so the line stands if that one does. */
  lemma {:induction false} LineEscalates(cfg: Config, s: State, i: nat, k: nat, dynamic: bool)
    requires WellFormed(cfg, s) && FailedHeirless(s.store) && Escalating(s)
    requires i < |s.store| && k <= Links(s.store, i) && OneMode(s.store, i, k, dynamic) && (k > 0 ==> Standing(s, i))
    ensures Escalates(Prices(s.store, i, k, TipOf)) && Escalates(Prices(s.store, i, k, CapOf))
    decreases k
  {
    if k > 0 {
      var j := s.store[i].replacing.value;
      assert GoodRecord(cfg, s, i) && Root(s.store, j) == Root(s.store, i);
      LineEscalates(cfg, s, j, k - 1, dynamic);
      assert FeesOutbid(s.store[j].raw.fees, s.store[i].raw.fees);
    }
  }

  lemma {:induction false} LinePricesEncodable(cfg: Config, s: State, i: nat, k: nat)
    requires WellFormed(cfg, s) && i < |s.store| && k <= Links(s.store, i) && !s.store[i].eventDerived
    ensures Prices(s.store, i, k, TipOf)[0] >= 0 && Prices(s.store, i, k, CapOf)[0] >= 0
    decreases k
  {
    assert GoodRecord(cfg, s, i);
    if k > 0 {
      LinePricesEncodable(cfg, s, s.store[i].replacing.value, k - 1);
    }
  }

  ghost predicate Compounds(values: seq<int>, k: nat) {
    |values| == k + 1 && Escalates(values) && values[k] * Pow(10, k) >= values[0] * Pow(11, k)
  }

  lemma LineCompounds(cfg: Config, s: State, i: nat, k: nat, dynamic: bool)
    requires WellFormed(cfg, s) && FailedHeirless(s.store) && Escalating(s)
    requires i < |s.store| && !s.store[i].eventDerived && k <= Links(s.store, i) && OneMode(s.store, i, k, dynamic)
    requires k > 0 ==> Standing(s, i)
    ensures Compounds(Prices(s.store, i, k, TipOf), k) && Compounds(Prices(s.store, i, k, CapOf), k)
  {
    LineEscalates(cfg, s, i, k, dynamic);
    LinePricesEncodable(cfg, s, i, k);
    BumpsCompound(Prices(s.store, i, k, TipOf));
    BumpsCompound(Prices(s.store, i, k, CapOf));
  }

  /** The root of the line never opted into reorg retries; without a key it is never retried at all. */
  ghost predicate NeverRelaxedRoot(run: seq<Label>, store: Store, i: nat)
    requires i < |store|
  {
    store[Root(store, i)].key == "" || NeverRelaxedKey(run, store[Root(store, i)].key)
  }

  lemma RunStanding(cfg: Config, run: seq<Label>, i: nat)
    requires i < |Run(cfg, run).store| && !Run(cfg, run).store[i].eventDerived && Links(Run(cfg, run).store, i) > 0
    requires Run(cfg, run).store[i].status.Failed? ==> NeverRelaxedRoot(run, Run(cfg, run).store, i)
    ensures Standing(Run(cfg, run), i)
  {
    var s := Run(cfg, run);
    if s.store[i].status.Failed? {
      RunWellFormed(cfg, run);
      if s.store[Root(s.store, i)].key != "" {
        RelaxedKeysAsked(cfg, run, s.store[Root(s.store, i)].key);
      }
      RootIsSafe(cfg, s, i);
    }
  }

  /** Along any k replacements in one fee mode, every fee field grows by at least 11/10 per step and strictly. Only a
      line that ends in an abandoned replacement needs a root that never opted into reorg retries: a retry may change
      the payload under abandoned replacements, and only under those. */
  lemma ReplacementFeesCompound(cfg: Config, run: seq<Label>, i: nat, k: nat, dynamic: bool)
    requires i < |Run(cfg, run).store| && !Run(cfg, run).store[i].eventDerived
    requires k <= Links(Run(cfg, run).store, i) && OneMode(Run(cfg, run).store, i, k, dynamic)
    requires Run(cfg, run).store[i].status.Failed? ==> NeverRelaxedRoot(run, Run(cfg, run).store, i)
    ensures Compounds(Prices(Run(cfg, run).store, i, k, TipOf), k) && Compounds(Prices(Run(cfg, run).store, i, k, CapOf), k)
  {
    RunWellFormed(cfg, run);
    RunFailedHeirless(cfg, run);
    RunEscalating(cfg, run);
    if k > 0 {
      RunStanding(cfg, run, i);
    }
    LineCompounds(cfg, Run(cfg, run), i, k, dynamic);
  }

  lemma {:induction false} RootIsSafe(cfg: Config, s: State, i: nat)
    requires WellFormed(cfg, s) && i < |s.store| && !s.store[i].eventDerived
    requires var key := s.store[Root(s.store, i)].key; key == "" || key !in s.relaxedKeys
    ensures SafeRoot(s, Root(s.store, i))
    decreases i
  {
    assert GoodRecord(cfg, s, i);
    if s.store[i].replacing.Some? {
      RootIsSafe(cfg, s, s.store[i].replacing.value);
    }
  }

  /** Every payload ever signed keeps the fee caps, and an EIP-1559 one has feeCap >= tipCap. */
  lemma SignedWithinPolicy(cfg: Config, run: seq<Label>, i: nat)
    requires i < |Run(cfg, run).store| && !Run(cfg, run).store[i].eventDerived
    ensures var tx := Run(cfg, run).store[i];
      Coherent(tx.raw.fees) && RespectsCaps(cfg.caps, Priced(tx.raw.gas, tx.raw.fees), tx.call.value)
  {
    RunWellFormed(cfg, run);
    assert GoodRecord(cfg, Run(cfg, run), i);
  }
}
