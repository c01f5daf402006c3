/** Archived attempts are never dropped, and runs that show the exact reach of exclusivity, one execution, undone
    replacements and fee compounding. */
module TxWitnesses {
  import opened Options
  import opened Words
  import opened Fees
  import opened TxRecords
  import opened TxSpec
  import opened TxEffects
  import opened TxInvariants
  import opened TxExclusivity
  import opened TxOneExecution
  import opened TxConvergence
  import opened TxChains
  import opened TxRecovery

  // Attempts

  /** `tx` still carries the payload, as its current one or archived. */
  ghost predicate Carries(tx: Tx, raw: Signed) {
    tx.raw == raw || exists k :: 0 <= k < |tx.attempts| && tx.attempts[k].raw == raw
  }

  /** The archive of `b` starts with that of `a`, and every payload of `a` is still in `b`. */
  ghost predicate ArchiveGrows(a: Tx, b: Tx) {
    a.attempts <= b.attempts && Carries(b, a.raw) && b.eventDerived == a.eventDerived
  }

  lemma ArchiveGrowsTransitive(a: Tx, b: Tx, c: Tx)
    requires ArchiveGrows(a, b) && ArchiveGrows(b, c)
    ensures ArchiveGrows(a, c)
  {
    if c.raw != a.raw {
      if b.raw != a.raw {
        var k :| 0 <= k < |b.attempts| && b.attempts[k].raw == a.raw;
        assert c.attempts[k] == b.attempts[k];
      }
    }
  }

  lemma KeptArchiveGrows(a: Tx, b: Tx)
    requires KeepsPayloads(a, b)
    ensures ArchiveGrows(a, b)
  {
    if !(a.raw == b.raw && a.attempts == b.attempts) {
      assert b.attempts[|a.attempts|].raw == a.raw;
    }
  }

  lemma StepKeepsPayloads(cfg: Config, s: State, step: Label)
    requires WellFormed(cfg, s)
    ensures StoreKeepsPayloads(s.store, Step(cfg, s, step).store)
  {
    var s' := Step(cfg, s, step);
    match step
    case SubmitStep(req, env) =>
      var id, record := SubmitShape(cfg, s, req, env);
      if s' != Opt(s, req) && id < |s.store| {
        assert GoodRecord(cfg, s, id);
      }
    case ReplaceStep(signer, id, pct, env) =>
      var original, record := ReplaceShape(cfg, s, signer, id, pct, env);
    case RefreshStep(confirmations, env) =>
      RefreshShape(s, confirmations, env);
      forall i | 0 <= i < |s.store| && !s.store[i].eventDerived ensures KeepsPayloads(s.store[i], s'.store[i]) {
        assert TickMove(s.store[i], s'.store[i]);
      }
    case ProjectStep(slot, tx) =>
  }

  /** Whatever follows a run, each record keeps its archived attempts in place and still carries its payload. */
  lemma {:induction false} AttemptsNeverDropped(cfg: Config, run: seq<Label>, more: seq<Label>, i: nat)
    requires i < |Run(cfg, run).store| && !Run(cfg, run).store[i].eventDerived
    ensures i < |Run(cfg, run + more).store| && ArchiveGrows(Run(cfg, run).store[i], Run(cfg, run + more).store[i])
    decreases |more|
  {
    if more == [] {
      assert run + more == run;
    } else {
      AttemptsNeverDropped(cfg, run, more[..|more| - 1], i);
      SplitLast(run, more);
      NextArchiveGrows(cfg, run + more[..|more| - 1], more[|more| - 1], Run(cfg, run).store[i], i);
    }
  }

  lemma SplitLast<T>(a: seq<T>, b: seq<T>)
    requires b != []
    ensures a + b == a + b[..|b| - 1] + [b[|b| - 1]]
  {
  }

  lemma NextArchiveGrows(cfg: Config, run: seq<Label>, step: Label, first: Tx, i: nat)
    requires i < |Run(cfg, run).store| && !first.eventDerived && ArchiveGrows(first, Run(cfg, run).store[i])
    ensures i < |Run(cfg, run + [step]).store| && ArchiveGrows(first, Run(cfg, run + [step]).store[i])
  {
    RunSnoc(cfg, run, step);
    RunWellFormed(cfg, run);
    StepArchiveGrows(cfg, Run(cfg, run), step, first, i);
  }

  lemma StepArchiveGrows(cfg: Config, s: State, step: Label, first: Tx, i: nat)
    requires WellFormed(cfg, s) && i < |s.store| && !first.eventDerived && ArchiveGrows(first, s.store[i])
    ensures i < |Step(cfg, s, step).store| && ArchiveGrows(first, Step(cfg, s, step).store[i])
  {
    StepKeepsPayloads(cfg, s, step);
    KeptArchiveGrows(s.store[i], Step(cfg, s, step).store[i]);
    ArchiveGrowsTransitive(first, s.store[i], Step(cfg, s, step).store[i]);
  }

  // Why exclusivity excepts the last nonce and the reorg-retry opt-in

  const PLAIN := Config(LegacyOnly, FeeCaps(None, None, None), 0)

  const NO_CALL := Call(0, Opaque(""), 0)

  function Asked(key: string, allow: bool): SubmitRequest {
    SubmitRequest(key, 0, NO_CALL, allow)
  }

  function Quote(price: nat): FeeQuote {
    FeeQuote(Some(1), None, None, Some(price))
  }

  /** A node that reports `nonce` twice, prices gas, and accepts. */
  function Granted(nonce: U64, price: nat): SubmitEnv {
    SubmitEnv(true, Some(nonce), Some(nonce), Quote(price), Some(0), Stored, false, SendOutcome.Accepted, Stored)
  }

  function Payload(nonce: U64, price: nat): Signed {
    Signed(0, nonce, NO_CALL, BufferedGas(1), Legacy(price), 0)
  }

  function Sent(key: string, nonce: U64, price: nat, allow: bool, attempts: seq<Attempt>): Tx {
    Tx(key, 0, NO_CALL, nonce, Payload(nonce, price), Pending, 0, 0, None, None, 0, allow, 0, attempts, false)
  }

  /** The granted Submit writes one record, fresh or over a retryable one, and sends its payload. */
  lemma Grants(s: State, key: string, nonce: U64, price: nat, allow: bool, existing: Option<nat>)
    requires !Blocked(s.store, 0) && NextNonce(s.store, 0, nonce) == nonce
    requires existing == FindKey(s.store, key) && (existing.Some? ==> Retryable(s.store[existing.value]))
    ensures var s1 := SubmitCall(PLAIN, s, Asked(key, allow), Granted(nonce, price)).0;
      var id := if existing.Some? then existing.value else |s.store|;
      && s1.store == Put(s.store, id, Sent(key, nonce, price, allow, if existing.Some? then Archive(s.store[id]) else []))
      && s1.sends == s.sends + [Send(id, Payload(nonce, price), SendOutcome.Accepted)]
  {
    var s0, req, env := Opt(s, Asked(key, allow)), Asked(key, allow), Granted(nonce, price);
    var id := if existing.Some? then existing.value else |s.store|;
    assert BuildTx(LegacyOnly, PLAIN.caps, env.quote, 0) == Some(Priced(BufferedGas(1), Legacy(price)));
    var sent := Sent(key, nonce, price, allow, if existing.Some? then Archive(s.store[id]) else []);
    var record := sent.(status := BroadcastUnknown);
    assert Draft(PLAIN, s0.store, req, env, existing) == Some(record);
    LaunchesPending(s0, id, record, env);
  }

  lemma LaunchesPending(s: State, id: nat, record: Tx, env: SubmitEnv)
    requires id <= |s.store| && env.persist.Stored? && !env.halt && env.send.Accepted? && env.settle.Stored?
    ensures Launch(s, id, record, env).0.store == Put(s.store, id, record.(status := Pending))
    ensures Launch(s, id, record, env).0.sends == s.sends + [Send(id, record.raw, SendOutcome.Accepted)]
  {
  }

  lemma NextAfterOne(tx: Tx, floor: U64)
    ensures NextNonce([tx], 0, floor) == if Holds(tx, 0) then Max(floor, Add64(tx.nonce, 1)) else floor
  {
    assert [tx][..0] == [];
  }

  lemma RunSnoc(cfg: Config, run: seq<Label>, step: Label)
    ensures Run(cfg, run + [step]) == Step(cfg, Run(cfg, run), step)
  {
    assert (run + [step])[..|run|] == run;
  }

  lemma FirstGrant(key: string, nonce: U64, allow: bool)
    ensures var s := Run(PLAIN, [SubmitStep(Asked(key, allow), Granted(nonce, 1))]);
      s.store == [Sent(key, nonce, 1, allow, [])] && s.sends == [Send(0, Payload(nonce, 1), SendOutcome.Accepted)]
  {
    RunSnoc(PLAIN, [], SubmitStep(Asked(key, allow), Granted(nonce, 1)));
    assert [] + [SubmitStep(Asked(key, allow), Granted(nonce, 1))] == [SubmitStep(Asked(key, allow), Granted(nonce, 1))];
    Grants(INIT, key, nonce, 1, allow, None);
  }

  /** Two live, unrelated records of one signer share this nonce. */
  ghost predicate CollidesAt(cfg: Config, run: seq<Label>, i: nat, j: nat, nonce: U64) {
    var store := Run(cfg, run).store;
    && i < |store| && j < |store| && Live(store[i]) && Live(store[j]) && store[i].from == store[j].from
    && store[i].nonce == nonce && store[j].nonce == nonce && Root(store, i) != Root(store, j)
  }

  /** Some run lets a signer that did or did not opt into reorg retries collide at this nonce. */
  ghost predicate CanCollide(nonce: U64, optedIn: bool) {
    exists cfg, run, i: nat, j: nat ::
      CollidesAt(cfg, run, i, j, nonce) && (optedIn <==> !NeverRelaxed(run, Run(cfg, run).store[i].from))
  }

  /** At the last nonce one past the held one wraps to 0, so a second Submit gets the same nonce, opted in or not. */
  lemma LastNonceCollides(allow: bool) returns (run: seq<Label>)
    ensures (allow <==> !NeverRelaxed(run, 0)) && CollidesAt(PLAIN, run, 0, 1, MAX_U64) && Run(PLAIN, run).store[0].from == 0
  {
    var step := SubmitStep(Asked("", allow), Granted(MAX_U64, 1));
    run := [step] + [step];
    RunSnoc(PLAIN, [step], step);
    FirstGrant("", MAX_U64, allow);
    NextAfterOne(Sent("", MAX_U64, 1, allow, []), MAX_U64);
    Grants(Run(PLAIN, [step]), "", MAX_U64, 1, allow, None);
    assert run[0] == step && step.req.signer == 0;
  }

  /** A tick whose node has no receipt and has seen `nonce` mined. */
  function Consumed(nonce: U64): TickEnv
    requires nonce < MAX_U64
  {
    TickEnv(true, _ => LinkView(true, Stored), Some(0), true,
            _ => RecordView(NoReceipt, NoHeader, Some(nonce + 1), SendOutcome.Accepted, Stored))
  }

  lemma ConsumedTick(s: State, nonce: U64, tx: Tx)
    requires nonce < MAX_U64 && s.store == [tx] && tx.nonce == nonce && tx.status.Pending? && !tx.eventDerived && tx.replacing.None?
    ensures RefreshCall(s, 0, Consumed(nonce)).0 == s.(store := [tx.(status := NonceConsumedExternally)])
  {
    var env := Consumed(nonce);
    var view := env.views(0);
    assert LinkFrom(s.store, s.store, 1, env.links) == (s.store, true);
    assert LinkFrom(s.store, s.store, 0, env.links) == (s.store, true);
    assert Judge(tx, view, 0, 0) == Write(NonceConsumedExternally, tx.block, tx.blockHash);
    var s1 := RefreshOne(s, 0, 0, 0, view).0;
    assert s1 == s.(store := [tx.(status := NonceConsumedExternally)]);
    assert RefreshFrom(s1, 1, 0, 0, env.views) == (s1, true);
  }

  /** An opted-in Submit whose nonce was then consumed elsewhere. */
  lemma ConsumedRun(key: string, nonce: U64) returns (run: seq<Label>)
    requires nonce < MAX_U64
    ensures run == [SubmitStep(Asked(key, true), Granted(nonce, 1))] + [RefreshStep(0, Consumed(nonce))]
    ensures var s := Run(PLAIN, run);
      && s.store == [Sent(key, nonce, 1, true, []).(status := NonceConsumedExternally)]
      && s.sends == [Send(0, Payload(nonce, 1), SendOutcome.Accepted)]
  {
    var step := SubmitStep(Asked(key, true), Granted(nonce, 1));
    run := [step] + [RefreshStep(0, Consumed(nonce))];
    RunSnoc(PLAIN, [step], RefreshStep(0, Consumed(nonce)));
    FirstGrant(key, nonce, true);
    ConsumedTick(Run(PLAIN, [step]), nonce, Sent(key, nonce, 1, true, []));
  }

  /** With the opt-in, a record whose nonce was consumed elsewhere neither blocks nor holds it: a node that then
      falls back to the old nonce gets it allocated again. */
  lemma OptInCollides(nonce: U64) returns (run: seq<Label>)
    requires nonce < MAX_U64
    ensures !NeverRelaxed(run, 0) && CollidesAt(PLAIN, run, 0, 1, nonce) && Run(PLAIN, run).store[0].from == 0
  {
    var step := SubmitStep(Asked("", true), Granted(nonce, 1));
    var prior := ConsumedRun("", nonce);
    var s := Run(PLAIN, prior);
    run := prior + [step];
    RunSnoc(PLAIN, prior, step);
    NextAfterOne(s.store[0], nonce);
    Grants(s, "", nonce, 1, true, None);
    assert run[0] == step && step.req.signer == 0;
  }

  /** Some run of a signer collides at a nonce if and only if the signer opted in or the nonce is the last one. */
  lemma CollidesExactly(nonce: U64, optedIn: bool)
    ensures CanCollide(nonce, optedIn) <==> optedIn || nonce == MAX_U64
  {
    if CanCollide(nonce, optedIn) && !optedIn && nonce != MAX_U64 {
      var cfg, run, i: nat, j: nat :|
        CollidesAt(cfg, run, i, j, nonce) && (optedIn <==> !NeverRelaxed(run, Run(cfg, run).store[i].from));
      NonceExclusivity(cfg, run, i, j);
    }
    if nonce == MAX_U64 {
      var run := LastNonceCollides(optedIn);
      assert CanCollide(nonce, optedIn);
    } else if optedIn {
      var run := OptInCollides(nonce);
      assert CanCollide(nonce, optedIn);
    }
  }

  // Why one execution per key excepts keys that opted in

  /** Two broadcasts under one key that were not definitely rejected carry different nonces. */
  ghost predicate TwoNonces(cfg: Config, run: seq<Label>, key: string, k1: nat, k2: nat) {
    var s := Run(cfg, run);
    && k1 < |s.sends| && s.sends[k1].record < |s.store| && KeyOf(s.store, s.sends[k1]) == key && MayExecute(s.sends[k1])
    && k2 < |s.sends| && s.sends[k2].record < |s.store| && KeyOf(s.store, s.sends[k2]) == key && MayExecute(s.sends[k2])
    && s.sends[k1].tx.nonce != s.sends[k2].tx.nonce
  }

  ghost predicate CanExecuteTwice(key: string, optedIn: bool) {
    exists cfg, run, k1: nat, k2: nat :: TwoNonces(cfg, run, key, k1, k2) && (optedIn <==> !NeverRelaxedKey(run, key))
  }

  /** A record whose nonce was consumed elsewhere is retried at the next nonce, with its first broadcast still out. */
  lemma OptInExecutesTwice(key: string) returns (run: seq<Label>)
    requires key != ""
    ensures TwoNonces(PLAIN, run, key, 0, 1) && !NeverRelaxedKey(run, key)
  {
    var first, again := SubmitStep(Asked(key, true), Granted(0, 1)), SubmitStep(Asked(key, true), Granted(1, 1));
    var prior := ConsumedRun(key, 0);
    var s := Run(PLAIN, prior);
    run := prior + [again];
    RunSnoc(PLAIN, prior, again);
    NextAfterOne(s.store[0], 1);
    Grants(s, key, 1, 1, true, Some(0));
    var t := Run(PLAIN, run);
    assert t.sends == [Send(0, Payload(0, 1), SendOutcome.Accepted), Send(0, Payload(1, 1), SendOutcome.Accepted)];
    assert run[0] == first && first.req.key == key;
  }

  /** Some run executes a key at two nonces if and only if the key opted into reorg retries. */
  lemma ExecutesTwiceExactly(key: string, optedIn: bool)
    requires key != ""
    ensures CanExecuteTwice(key, optedIn) <==> optedIn
  {
    if CanExecuteTwice(key, optedIn) && !optedIn {
      var cfg, run, k1: nat, k2: nat :| TwoNonces(cfg, run, key, k1, k2) && (optedIn <==> !NeverRelaxedKey(run, key));
      AtMostOneExecution(cfg, run, key, k1, k2);
    }
    if optedIn {
      var run := OptInExecutesTwice(key);
      assert CanExecuteTwice(key, optedIn);
    }
  }

  // Replaces that go wrong

  /** A node that rejects the replacement, with every write stored. */
  const REJECTING := ReplaceEnv(true, FeeQuote(Some(1), None, None, Some(1)), Some(0), Stored, Stored, Linked, false, SendOutcome.Rejected, Stored, Stored)

  /** The replacement is stored, but the write that links its original fails. */
  const UNLINKING := REJECTING.(link := LinkLost(false))

  /** The replacement of record 0, ten percent above 1 wei and rounded up. */
  function Replacement(nonce: U64, status: Status): Tx {
    Tx("", 0, NO_CALL, nonce, Payload(nonce, 2), status, 0, 0, None, Some(0), 1, false, 0, [], false)
  }

  lemma Bumps(store: Store, key: string, nonce: U64, allow: bool, env: ReplaceEnv)
    requires store != [] && store[0] == Sent(key, nonce, 1, allow, []) && env.quote == Quote(1) && env.seal == Some(0)
    ensures ReplacementDraft(PLAIN, store, 0, 10, env) == Some(Replacement(nonce, BroadcastUnknown))
  {
    assert BuildTx(LegacyOnly, PLAIN.caps, env.quote, 0) == Some(Priced(BufferedGas(1), Legacy(1)));
    assert BumpFeeField(Some(1), 1, 10) == 2;
    assert BuildBumpedTx(LegacyOnly, PLAIN.caps, env.quote, 0, 10, Some(Legacy(1))) == Some(Priced(BufferedGas(1), Legacy(2)));
  }

  /** An unlinked replacement survives beside its original, still Pending with its count unchanged. */
  lemma Unlinks(s: State)
    requires s.store == [Sent("", 0, 1, false, [])]
    ensures ReplaceCall(PLAIN, s, 0, 0, 10, UNLINKING).0.store == [Sent("", 0, 1, false, []), Replacement(0, BroadcastUnknown)]
  {
    Bumps(s.store, "", 0, false, UNLINKING);
  }

  /** A rejected Replace behind an interrupted one: every settling write takes effect, and still the next tick makes
      the original Replaced, by the earlier replacement. */
  lemma InterruptedReplaceRelinks() returns (run: seq<Label>)
    ensures RejectedReplace(PLAIN, Run(PLAIN, run), 0, 0, 10, REJECTING) && REJECTING.settleNew.Stored? && REJECTING.settleOld.Stored?
    ensures !StaysUndone(PLAIN, ReplaceCall(PLAIN, Run(PLAIN, run), 0, 0, 10, REJECTING).0, 0)
  {
    var step := SubmitStep(Asked("", false), Granted(0, 1));
    run := [step] + [ReplaceStep(0, 0, 10, UNLINKING)];
    RunSnoc(PLAIN, [step], ReplaceStep(0, 0, 10, UNLINKING));
    FirstGrant("", 0, false);
    Unlinks(Run(PLAIN, [step]));
    var s := Run(PLAIN, run);
    Bumps(s.store, "", 0, false, REJECTING);
    assert s.store[1].replacing == Some(0) && !s.store[1].status.Failed?;
    assert HasHeir(s.store, 0, 0);
    RejectedReplaceUndoneExactly(PLAIN, run, 0, 0, 10, REJECTING);
  }

  // Why fee compounding excepts abandoned replacements under an opted-in root

  /** A line of `k` same-mode replacements whose tips or caps do not compound. */
  ghost predicate FallsShort(cfg: Config, run: seq<Label>, i: nat, k: nat, dynamic: bool) {
    var store := Run(cfg, run).store;
    && i < |store| && !store[i].eventDerived && k <= Links(store, i) && OneMode(store, i, k, dynamic)
    && !(Compounds(Prices(store, i, k, TipOf), k) && Compounds(Prices(store, i, k, CapOf), k))
  }

  /** Some run has such a line that does or does not end in an abandoned replacement, under a root that did or did not opt in. */
  ghost predicate CanFallShort(abandoned: bool, optedIn: bool) {
    exists cfg, run, i: nat, k: nat, dynamic ::
      && FallsShort(cfg, run, i, k, dynamic)
      && (abandoned <==> Run(cfg, run).store[i].status.Failed?)
      && (optedIn <==> !NeverRelaxedRoot(run, Run(cfg, run).store, i))
  }

  /** The rejected replacement of an opted-in Submit, whose nonce is then consumed elsewhere. */
  lemma AbandonedRun(key: string) returns (run: seq<Label>)
    ensures run == [SubmitStep(Asked(key, true), Granted(0, 1))] + [ReplaceStep(0, 0, 10, REJECTING)] + [RefreshStep(0, Consumed(0))]
    ensures Run(PLAIN, run).store ==
      [Sent(key, 0, 1, true, []).(status := NonceConsumedExternally, count := 1, version := 2), Replacement(0, Failed)]
  {
    var step, replace := SubmitStep(Asked(key, true), Granted(0, 1)), ReplaceStep(0, 0, 10, REJECTING);
    run := [step] + [replace] + [RefreshStep(0, Consumed(0))];
    RunSnoc(PLAIN, [step], replace);
    RunSnoc(PLAIN, [step] + [replace], RefreshStep(0, Consumed(0)));
    FirstGrant(key, 0, true);
    Bumps(Run(PLAIN, [step]).store, key, 0, true, REJECTING);
    var original := Sent(key, 0, 1, true, []).(count := 1, version := 2);
    var s := Run(PLAIN, [step] + [replace]);
    assert s.store == [original, Replacement(0, Failed)];
    ConsumedBeside(s, original);
  }

  lemma ConsumedBeside(s: State, tx: Tx)
    requires s.store == [tx, Replacement(0, Failed)]
    requires tx.nonce == 0 && tx.status.Pending? && !tx.eventDerived && tx.replacing.None?
    ensures RefreshCall(s, 0, Consumed(0)).0.store == [tx.(status := NonceConsumedExternally), Replacement(0, Failed)]
  {
    var env := Consumed(0);
    var view := env.views(0);
    assert LinkFrom(s.store, s.store, 2, env.links) == (s.store, true);
    assert LinkFrom(s.store, s.store, 1, env.links) == (s.store, true);
    assert LinkFrom(s.store, s.store, 0, env.links) == (s.store, true);
    assert Judge(tx, view, 0, 0) == Write(NonceConsumedExternally, tx.block, tx.blockHash);
    var s1 := RefreshOne(s, 0, 0, 0, view).0;
    assert s1 == s.(store := [tx.(status := NonceConsumedExternally), Replacement(0, Failed)]);
    assert RefreshFrom(s1, 2, 0, 0, env.views) == (s1, true);
    assert RefreshFrom(s1, 1, 0, 0, env.views) == (s1, true);
  }

  /** The retry prices its new payload above the abandoned replacement of the old one. */
  lemma RetryFallsShort() returns (run: seq<Label>)
    ensures FallsShort(PLAIN, run, 1, 1, false) && Run(PLAIN, run).store[1].status.Failed?
    ensures !NeverRelaxedRoot(run, Run(PLAIN, run).store, 1)
  {
    var again := SubmitStep(Asked("k", true), Granted(1, 5));
    var prior := AbandonedRun("k");
    var s := Run(PLAIN, prior);
    run := prior + [again];
    RunSnoc(PLAIN, prior, again);
    NothingHeld(s.store);
    assert s.store[..1][0] == s.store[0];
    Grants(s, "k", 1, 5, true, Some(0));
    var store := Run(PLAIN, run).store;
    assert store == [Sent("k", 1, 5, true, Archive(s.store[0])), Replacement(0, Failed)];
    assert run[3] == again && again.req.key == store[0].key;
    TwoPrices(store);
  }

  lemma NothingHeld(store: Store)
    requires |store| == 2 && !Holds(store[0], 0) && !Holds(store[1], 0)
    ensures NextNonce(store, 0, 1) == 1
  {
    assert store[..1][..0] == [];
    assert NextNonce(store[..1], 0, 1) == 1;
  }

  lemma TwoPrices(store: Store)
    requires |store| == 2 && store[0].replacing.None? && store[1].replacing == Some(0)
    requires store[0].raw.fees == Legacy(5) && store[1].raw.fees == Legacy(2)
    ensures Links(store, 1) == 1 && Root(store, 1) == 0 && OneMode(store, 1, 1, false)
    ensures !Compounds(Prices(store, 1, 1, TipOf), 1)
  {
    assert Prices(store, 0, 0, TipOf) == [5];
    assert Prices(store, 1, 1, TipOf) == [5, 2];
    assert !Outbids(Prices(store, 1, 1, TipOf)[0], Prices(store, 1, 1, TipOf)[1]);
  }

  /** Some run has a line that does not compound if and only if it ends in an abandoned replacement under an opted-in root. */
  lemma FallsShortExactly(abandoned: bool, optedIn: bool)
    ensures CanFallShort(abandoned, optedIn) <==> abandoned && optedIn
  {
    if CanFallShort(abandoned, optedIn) && !(abandoned && optedIn) {
      var cfg, run, i: nat, k: nat, dynamic :|
        && FallsShort(cfg, run, i, k, dynamic)
        && (abandoned <==> Run(cfg, run).store[i].status.Failed?)
        && (optedIn <==> !NeverRelaxedRoot(run, Run(cfg, run).store, i));
      ReplacementFeesCompound(cfg, run, i, k, dynamic);
    }
    if abandoned && optedIn {
      var run := RetryFallsShort();
      assert CanFallShort(abandoned, optedIn);
    }
  }
}
