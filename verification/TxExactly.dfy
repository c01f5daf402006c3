/** What Submit, Replace and a tick do when every call is answered, and exactly when they decline. */
module TxExactly {
  import opened Options
  import opened Words
  import opened Fees
  import opened TxRecords
  import opened TxSpec
  import opened TxEffects
  import opened TxInvariants
  import opened TxConvergence
  import opened TxHeirs
  import opened TxRecovery

  // Submit

  /** Every call of a Submit is answered and both writes succeed. */
  ghost predicate SmoothSubmit(cfg: Config, req: SubmitRequest, env: SubmitEnv) {
    && env.queries && env.pending.Some? && env.latest.Some? && env.seal.Some?
    && BuildTx(cfg.mode, cfg.caps, env.quote, req.call.value).Some?
    && env.persist.Stored? && !env.halt && env.settle.Stored?
  }

  /** The record stops its sender: an operator must look at it, or its nonce is in doubt and it did not opt into retries. */
  ghost predicate Stuck(tx: Tx, signer: Address) {
    tx.from == signer && (tx.status == NeedsIntervention || (tx.status in {Reorged, NonceConsumedExternally} && !tx.allow))
  }

  /** The key is taken for good: not rejected, and not in doubt with the opt-in. */
  ghost predicate Taken(tx: Tx, key: string) {
    key != "" && tx.key == key && tx.status != Failed && !(tx.status in {Reorged, NonceConsumedExternally} && tx.allow)
  }

  ghost predicate AnyStuck(store: Store, signer: Address) {
    exists i :: 0 <= i < |store| && Stuck(store[i], signer)
  }

  ghost predicate HoldsNonce(tx: Tx, signer: Address) {
    tx.from == signer && tx.status !in {Failed, Reorged, NonceConsumedExternally, Replaced}
  }

  /** The least nonce that neither node view nor a held nonce below the last one rules out. */
  ghost predicate LeastFree(store: Store, signer: Address, pending: U64, latest: U64, nonce: U64) {
    && nonce >= pending && nonce >= latest
    && (forall i :: 0 <= i < |store| && HoldsNonce(store[i], signer) ==> nonce > store[i].nonce || store[i].nonce == MAX_U64)
    && (nonce == pending || nonce == latest
        || exists i :: 0 <= i < |store| && HoldsNonce(store[i], signer) && nonce == store[i].nonce + 1)
  }

  lemma BlockedExactly(store: Store, signer: Address)
    ensures Blocked(store, signer) <==> AnyStuck(store, signer)
  {
    if Blocked(store, signer) {
      var i :| 0 <= i < |store| && Blocks(store[i], signer);
      assert Stuck(store[i], signer);
    }
    if AnyStuck(store, signer) {
      var i :| 0 <= i < |store| && Stuck(store[i], signer);
      assert Blocks(store[i], signer);
    }
  }

  lemma NextNonceExactly(store: Store, signer: Address, pending: U64, latest: U64)
    ensures LeastFree(store, signer, pending, latest, NextNonce(store, signer, Max(pending, latest)))
  {
    var floor := Max(pending, latest);
    var nonce := NextNonce(store, signer, floor);
    forall i | 0 <= i < |store| && HoldsNonce(store[i], signer) ensures nonce > store[i].nonce || store[i].nonce == MAX_U64 {
      NextNonceExceedsHeld(store, signer, floor, i);
    }
    NextNonceIsLeast(store, signer, floor);
    if nonce != floor {
      var i :| 0 <= i < |store| && Holds(store[i], signer) && nonce == Add64(store[i].nonce, 1);
      assert HoldsNonce(store[i], signer);
    }
  }

  /** A sender with a stuck record gets an error, and nothing happens. */
  lemma StuckSubmitDeclines(cfg: Config, s: State, req: SubmitRequest, env: SubmitEnv)
    requires SmoothSubmit(cfg, req, env) && AnyStuck(s.store, req.signer)
    ensures var (s1, answer) := SubmitCall(cfg, s, req, env);
      s1.store == s.store && s1.sends == s.sends && answer == Error
  {
    BlockedExactly(s.store, req.signer);
  }

  /** A key that is taken is answered with its record, and nothing happens. */
  lemma TakenSubmitReturns(cfg: Config, s: State, req: SubmitRequest, env: SubmitEnv, i: nat)
    requires SmoothSubmit(cfg, req, env) && !AnyStuck(s.store, req.signer)
    requires UniqueKeys(s.store) && i < |s.store| && Taken(s.store[i], req.key)
    ensures var (s1, answer) := SubmitCall(cfg, s, req, env);
      s1.store == s.store && s1.sends == s.sends && answer == Known(i)
  {
    BlockedExactly(s.store, req.signer);
    FindUnique(s.store, i);
  }

  /** The record that a smooth Submit writes, for the outcome of its one broadcast. */
  ghost predicate Launched(s: State, s1: State, req: SubmitRequest, env: SubmitEnv, id: nat) {
    && id < |s1.store| && s1.store == Put(s.store, if id < |s.store| then id else |s.store|, s1.store[id])
    && s1.sends == s.sends + [Send(id, s1.store[id].raw, env.send)]
    && (var tx := s1.store[id];
        && tx.key == req.key && tx.from == req.signer && tx.call == req.call && tx.allow == req.allow
        && tx.raw.from == req.signer && tx.raw.nonce == tx.nonce && tx.raw.call == req.call
        && tx.replacing.None? && tx.replacedBy.None? && tx.count == 0 && !tx.eventDerived
        && (tx.status == Pending <==> env.send.Accepted?)
        && (tx.status == Failed <==> env.send.Rejected?)
        && (tx.status == BroadcastUnknown <==> env.send.Ambiguous?)
        && (env.pending.Some? && env.latest.Some? && LeastFree(s.store, req.signer, env.pending.value, env.latest.value, tx.nonce))
        && tx.attempts == if id < |s.store|
             then s.store[id].attempts + [Attempt(s.store[id].nonce, s.store[id].raw, s.store[id].status)] else [])
  }

  /** Any other smooth Submit launches one transaction, over the key's rejected or doubtful record if there is one. */
  lemma FreeSubmitLaunches(cfg: Config, s: State, req: SubmitRequest, env: SubmitEnv) returns (id: nat)
    requires SmoothSubmit(cfg, req, env) && !AnyStuck(s.store, req.signer)
    requires UniqueKeys(s.store) && forall i :: 0 <= i < |s.store| ==> !Taken(s.store[i], req.key)
    ensures var (s1, answer) := SubmitCall(cfg, s, req, env);
      && Launched(s, s1, req, env, id)
      && (if id < |s.store| then req.key != "" && s.store[id].key == req.key
          else id == |s.store| && (req.key == "" || forall i :: 0 <= i < |s.store| ==> s.store[i].key != req.key))
      && answer == if env.send.Accepted? then Done(id) else Error
  {
    BlockedExactly(s.store, req.signer);
    var s0 := Opt(s, req);
    var existing := FindKey(s.store, req.key);
    id := if existing.Some? then existing.value else |s.store|;
    if existing.Some? {
      assert !Taken(s.store[id], req.key);
    }
    NextNonceExactly(s.store, req.signer, env.pending.value, env.latest.value);
    var draft := Draft(cfg, s.store, req, env, existing).value;
    SmoothLaunch(s0, id, draft, env);
  }

  lemma SmoothLaunch(s: State, id: nat, draft: Tx, env: SubmitEnv)
    requires id <= |s.store| && env.persist.Stored? && !env.halt && env.settle.Stored? && draft.status.BroadcastUnknown?
    ensures var (s1, answer) := Launch(s, id, draft, env);
      && s1.store == Put(s.store, id, draft.(status := match env.send case Accepted => Pending case Rejected => Failed case Ambiguous => BroadcastUnknown))
      && s1.sends == s.sends + [Send(id, draft.raw, env.send)]
      && answer == if env.send.Accepted? then Done(id) else Error
  {
  }

  /** The record a Submit wrote is priced as a fresh transaction under the call's value. */
  lemma WrittenPrice(cfg: Config, s: State, req: SubmitRequest, env: SubmitEnv, id: nat)
    requires Wrote(s.store, SubmitCall(cfg, s, req, env).0.store, id)
    ensures var tx := SubmitCall(cfg, s, req, env).0.store[id];
      BuildTx(cfg.mode, cfg.caps, env.quote, req.call.value) == Some(Priced(tx.raw.gas, tx.raw.fees))
  {
    var s0 := Opt(s, req);
    var existing := FindKey(s0.store, req.key);
    var draft := Draft(cfg, s0.store, req, env, existing).value;
    var at := if existing.Some? then existing.value else |s0.store|;
    assert SubmitCall(cfg, s, req, env) == Launch(s0, at, draft, env);
    LaunchShape(s0, at, draft, env);
    assert id == at;
  }

  /** An EIP-1559 Submit suggests the quoted tip and can still pay all of it at a base fee `b` if and only if `b` is at most
      twice the quoted one; its gas is the estimate and a fifth. */
  lemma SubmitOutlastsBaseFee(cfg: Config, s: State, req: SubmitRequest, env: SubmitEnv, id: nat, base: nat, estimate: U64, b: int)
    requires cfg.mode.Eip1559? && env.quote.header == Some(Some(base)) && env.quote.gasEstimate == Some(estimate)
    requires Wrote(s.store, SubmitCall(cfg, s, req, env).0.store, id)
    ensures var raw := SubmitCall(cfg, s, req, env).0.store[id].raw;
      && raw.fees.Dynamic? && env.quote.tip == Some(raw.fees.tip)
      && (raw.fees.cap - b >= raw.fees.tip <==> b <= 2 * base)
      && (estimate * 120 < 0x1_0000_0000_0000_0000 ==> 100 * raw.gas <= 120 * estimate < 100 * raw.gas + 100)
  {
    WrittenPrice(cfg, s, req, env, id);
    DynamicPriceExactly(cfg.caps, estimate, base, env.quote.tip, env.quote.gasPrice, req.call.value, b);
    if estimate * 120 < 0x1_0000_0000_0000_0000 {
      GasCoversEstimate(estimate);
    }
  }

  // Replace

  /** Every call of a Replace is answered and every write succeeds. */
  ghost predicate SmoothReplace(cfg: Config, s: State, id: nat, pct: int, env: ReplaceEnv) {
    && env.queries && env.mark.Stored? && env.persist.Stored? && env.link.Linked? && !env.halt
    && env.settleNew.Stored? && env.settleOld.Stored?
    && id < |s.store| && ReplacementDraft(cfg, s.store, id, pct, env).Some?
  }

  /** The original is Replaced by a new Pending record of the same call at the same nonce. */
  ghost predicate Took(s: State, s1: State, id: nat) {
    && id < |s.store| && |s1.store| == |s.store| + 1
    && s1.store[id].status == Replaced && s1.store[id].replacedBy == Some(|s.store|)
    && (var tx := s1.store[|s.store|];
        && tx.status == Pending && tx.replacing == Some(id) && tx.count == s.store[id].count + 1 && tx.key == ""
        && tx.from == s.store[id].from && tx.nonce == s.store[id].nonce && tx.call == s.store[id].call
        && s1.sends == s.sends + [Send(|s.store|, tx.raw, SendOutcome.Accepted)])
  }

  /** A smooth Replace of a Pending record by its own signer asks for an operator if and only if there is a limit and the
      record has used it up; otherwise an accepted broadcast replaces it. */
  lemma ReplaceAnswersExactly(cfg: Config, s: State, signer: Address, id: nat, pct: int, env: ReplaceEnv)
    requires SmoothReplace(cfg, s, id, pct, env) && env.send.Accepted? && pct > 0
    requires s.store[id].status == Pending && s.store[id].from == signer
    ensures var (s1, answer) := ReplaceCall(cfg, s, signer, id, pct, env);
      && (s1.store[id].status == NeedsIntervention <==> 0 < cfg.maxReplacements <= s.store[id].count)
      && (s1.store[id].status == NeedsIntervention ==> s1.sends == s.sends && |s1.store| == |s.store| && answer == Error)
      && (s1.store[id].status != NeedsIntervention ==> Took(s, s1, id) && answer == Done(|s.store|))
  {
  }

  /** The new record of a Replace, whatever became of it: same call, same nonce, one more attempt. */
  ghost predicate Attempted(s: State, s1: State, id: nat, status: Status) {
    && id < |s.store| && |s1.store| == |s.store| + 1
    && (forall i :: 0 <= i < |s.store| && i != id ==> s1.store[i] == s.store[i])
    && (var tx := s1.store[|s.store|];
        && tx.status == status && tx.replacing == Some(id) && tx.count == s.store[id].count + 1 && tx.key == ""
        && tx.from == s.store[id].from && tx.nonce == s.store[id].nonce && tx.call == s.store[id].call)
  }

  /** A Replace within the limit that is not taken: after a conflicting link nothing is sent and the original stands; after a
      rejected broadcast it is Pending again with one attempt fewer left, and its replacement is Failed in both cases;
      after an ambiguous one it is Replaced by a record that waits for a tick. */
  lemma ReplaceFallsBack(cfg: Config, s: State, signer: Address, id: nat, pct: int, env: ReplaceEnv)
    requires SmoothReplace(cfg, s, id, pct, env.(link := Linked)) && pct > 0
    requires s.store[id].status == Pending && s.store[id].from == signer && !(0 < cfg.maxReplacements <= s.store[id].count)
    ensures var (s1, answer) := ReplaceCall(cfg, s, signer, id, pct, env);
      var n := |s.store|;
      && (env.link.Conflict? ==>
            Attempted(s, s1, id, Failed) && s1.store[id] == s.store[id] && s1.sends == s.sends && answer == Error)
      && (env.link.Linked? && !env.send.Accepted? ==>
            && Attempted(s, s1, id, if env.send.Rejected? then Failed else BroadcastUnknown)
            && s1.sends == s.sends + [Send(n, s1.store[n].raw, env.send)] && answer == Error
            && (env.send.Rejected? ==>
                  s1.store[id].status == Pending && s1.store[id].replacedBy == None && s1.store[id].count == s.store[id].count + 1)
            && (env.send.Ambiguous? ==> s1.store[id].status == Replaced && s1.store[id].replacedBy == Some(n)))
  {
  }

  /** A Replace by anyone else, of anything else, or by nothing, changes nothing. */
  lemma ReplaceDeclines(cfg: Config, s: State, signer: Address, id: nat, pct: int, env: ReplaceEnv)
    requires pct <= 0 || id >= |s.store| || s.store[id].status != Pending || s.store[id].from != signer
    ensures ReplaceCall(cfg, s, signer, id, pct, env) == (s, Error)
  {
  }

  /** A Replace prices its record over the payload it replaces. */
  lemma ReplacementPrice(cfg: Config, s: State, signer: Address, id: nat, pct: int, env: ReplaceEnv)
    requires id < |s.store| && |ReplaceCall(cfg, s, signer, id, pct, env).0.store| == |s.store| + 1 && Encodable(s.store[id].raw.fees)
    ensures var tx := ReplaceCall(cfg, s, signer, id, pct, env).0.store[|s.store|];
      BuildBumpedTx(cfg.mode, cfg.caps, env.quote, s.store[id].call.value, pct, Some(s.store[id].raw.fees)) == Some(Priced(tx.raw.gas, tx.raw.fees))
  {
    var drafted := ReplacementDraft(cfg, s.store, id, pct, env).value;
    SupersedeShape(s, id, drafted, env);
  }

  // The limit is attained

  /** A manager without caps whose limit is `limit`. */
  function Limited(limit: int): Config {
    Config(LegacyOnly, FeeCaps(None, None, None), limit)
  }

  const QUOTE := FeeQuote(Some(1), None, None, Some(1))

  const SMOOTH := ReplaceEnv(true, QUOTE, Some(0), Stored, Stored, Linked, false, SendOutcome.Accepted, Stored, Stored)

  const FIRST := SubmitStep(
    SubmitRequest("", 0, Call(0, Opaque(""), 0), false),
    SubmitEnv(true, Some(0), Some(0), QUOTE, Some(0), Stored, false, SendOutcome.Accepted, Stored))

  /** The newest record is Pending, from signer 0, at the end of a chain of `k` links. */
  ghost predicate EndsChain(s: State, k: nat) {
    && |s.store| == k + 1
    && s.store[k].status == Pending && s.store[k].from == 0 && s.store[k].count == k && Encodable(s.store[k].raw.fees)
    && Links(s.store, k) == k
  }

  lemma FirstEndsChain(limit: int)
    ensures EndsChain(Run(Limited(limit), [FIRST]), 0)
  {
    var s := Run(Limited(limit), [FIRST]);
    assert [FIRST][..0] == [] && Run(Limited(limit), [FIRST][..0]) == INIT;
    assert s == SubmitCall(Limited(limit), INIT, FIRST.req, FIRST.senv).0;
    var id := FreeSubmitLaunches(Limited(limit), INIT, FIRST.req, FIRST.senv);
    WrittenPrice(Limited(limit), INIT, FIRST.req, FIRST.senv, id);
  }

  lemma NextEndsChain(limit: int, s: State, k: nat)
    requires limit > 0 && k < limit && EndsChain(s, k)
    ensures EndsChain(ReplaceCall(Limited(limit), s, 0, k, 10, SMOOTH).0, k + 1)
  {
    var cfg := Limited(limit);
    UncappedBump(cfg.mode, QUOTE, s.store[k].call.value, 10, Some(s.store[k].raw.fees));
    LegacyPriceExactly(LegacyOnly, cfg.caps, 1, None, None, Some(1), s.store[k].call.value);
    BumpStaysEncodable(cfg, s.store[k].call.value, s.store[k].raw.fees);
    ReplaceAnswersExactly(cfg, s, 0, k, 10, SMOOTH);
    ReplacementPrice(cfg, s, 0, k, 10, SMOOTH);
    var s1 := ReplaceCall(cfg, s, 0, k, 10, SMOOTH).0;
    var original, record := ReplaceShape(cfg, s, 0, k, 10, SMOOTH);
    assert s1.store[k].replacing == s.store[k].replacing;
    forall i | 0 <= i < |s.store| ensures s1.store[i].replacing == s.store[i].replacing {
    }
    RootStable(s.store, s1.store, k);
    assert Links(s1.store, k + 1) == 1 + Links(s1.store, k);
  }

  lemma BumpStaysEncodable(cfg: Config, value: int, fees: Fees)
    requires cfg.mode.LegacyOnly? && Encodable(fees)
    ensures var r := BuildBumpedTx(cfg.mode, cfg.caps, QUOTE, value, 10, Some(fees));
      r.Some? ==> Encodable(r.value.fees)
  {
    match fees
    case Legacy(price) => BumpOutbids(price, 1, 10);
    case Dynamic(_, _) => FreshBumpIsLeast(1, 10, -1);
  }

  lemma {:induction false} ChainOf(limit: int, k: nat) returns (run: seq<Label>)
    requires limit > 0 && k <= limit
    ensures EndsChain(Run(Limited(limit), run), k)
    decreases k
  {
    if k == 0 {
      run := [FIRST];
      FirstEndsChain(limit);
    } else {
      var prior := ChainOf(limit, k - 1);
      run := prior + [ReplaceStep(0, k - 1, 10, SMOOTH)];
      assert run[..|prior|] == prior;
      NextEndsChain(limit, Run(Limited(limit), prior), k - 1);
    }
  }

  /** Every positive limit is attained: some run under it has a chain of exactly that many replacements. */
  lemma LimitAttained(limit: nat) returns (run: seq<Label>, i: nat)
    requires limit > 0
    ensures i < |Run(Limited(limit), run).store| && Links(Run(Limited(limit), run).store, i) == limit
  {
    run := ChainOf(limit, limit);
    i := limit;
  }

  // Ticks

  /** A Confirmed record whose receipt is gone is found out if and only if the head is within 256 blocks of its confirmation. */
  lemma ReorgWindow(s: State, chain: Chain, confirmations: U64, i: nat)
    requires i < |s.store| && s.store[i].status == Confirmed && !s.store[i].eventDerived && !HasHeir(s.store, 0, i)
    requires chain.receipts(s.store[i].raw).None? && s.store[i].block + confirmations + 256 < 0x1_0000_0000_0000_0000
    ensures var after := Tick(s, chain, confirmations).0.store;
      && |after| == |s.store|
      && (after[i].status == Reorged <==> chain.head < s.store[i].block + confirmations + 256)
      && (after[i].status != Reorged ==> after[i] == s.store[i])
  {
    TickResult(s, chain, confirmations, i);
  }

  /** A mined record confirms if and only if the head is at least `confirmations` blocks past it. */
  lemma ConfirmationDepth(s: State, chain: Chain, confirmations: U64, i: nat, m: MinedTx)
    requires i < |s.store| && s.store[i].status in {Pending, BroadcastUnknown, Mined, Reorged} && !s.store[i].eventDerived && !HasHeir(s.store, 0, i)
    requires chain.receipts(s.store[i].raw) == Some(m) && m.success && chain.headers(m.block) == Some(m.blockHash)
    requires m.block + confirmations < 0x1_0000_0000_0000_0000
    ensures var after := Tick(s, chain, confirmations).0.store;
      && |after| == |s.store|
      && (after[i].status == Confirmed <==> chain.head >= m.block + confirmations)
      && (after[i].status == Mined <==> chain.head < m.block + confirmations)
      && after[i].block == m.block && after[i].blockHash == m.blockHash
  {
    TickResult(s, chain, confirmations, i);
  }

  /** An original that the repair pass makes Replaced names a surviving replacement of it. */
  lemma {:induction false} LinkingNames(store: Store, snapshot: Store, k: nat, links: nat -> LinkView, i: nat)
    requires k <= |snapshot| == |store| && i < |store|
    ensures var next := LinkFrom(store, snapshot, k, links).0[i];
      next == store[i]
      || (next == store[i].(status := Replaced, replacedBy := next.replacedBy) && next.replacedBy.Some?
          && next.replacedBy.value < |snapshot| && snapshot[next.replacedBy.value].replacing == Some(i) && snapshot[next.replacedBy.value].status != Failed)
    decreases |snapshot| - k
  {
    if k < |snapshot| {
      var (store1, ok) := LinkOne(store, snapshot, k, links(k));
      if ok {
        LinkingNames(store1, snapshot, k + 1, links, i);
        if store1[i] != store[i] {
          ReplacedStays(store1, snapshot, k + 1, links, i);
        }
      }
    }
  }

  lemma {:induction false} ReplacedStays(store: Store, snapshot: Store, k: nat, links: nat -> LinkView, i: nat)
    requires k <= |snapshot| == |store| && i < |store| && store[i].status.Replaced?
    ensures LinkFrom(store, snapshot, k, links).0[i] == store[i]
    decreases |snapshot| - k
  {
    if k < |snapshot| {
      var (store1, ok) := LinkOne(store, snapshot, k, links(k));
      if ok {
        ReplacedStays(store1, snapshot, k + 1, links, i);
      }
    }
  }

  /** What a tick must be told about a record it cannot skip. */
  ghost predicate Told(view: RecordView, status: Status) {
    && !view.receipt.ReceiptError?
    && (view.receipt.Receipt? && view.receipt.blockHash != 0 ==> !view.header.HeaderError?)
    && (view.receipt.NoReceipt? && status in {Pending, BroadcastUnknown} ==> view.latest.Some?)
  }

  lemma {:induction false} RefreshTold(s: State, k: nat, head: U64, confirmations: U64, views: nat -> RecordView, i: nat)
    requires k <= i < |s.store| && RefreshFrom(s, k, head, confirmations, views).1
    requires s.store[i].status !in {Replaced, Failed, Confirmed} && !s.store[i].eventDerived
    ensures Told(views(i), s.store[i].status)
    decreases |s.store| - k
  {
    var (s1, ok) := RefreshOne(s, k, head, confirmations, views(k));
    if k < i {
      RefreshTold(s1, k + 1, head, confirmations, views, i);
    }
  }

  /** A tick that reports success was told about every record that is not Replaced, Failed, Confirmed or event-derived. */
  lemma SuccessfulTickWasTold(s: State, confirmations: U64, env: TickEnv, i: nat)
    requires i < |s.store| && !HasHeir(s.store, 0, i) && RefreshCall(s, confirmations, env).1
    requires s.store[i].status !in {Replaced, Failed, Confirmed} && !s.store[i].eventDerived
    ensures env.replacements && env.head.Some? && env.unfinalized && Told(env.views(i), s.store[i].status)
  {
    var s1 := s.(store := LinkFrom(s.store, s.store, 0, env.links).0);
    LinkingSkips(s.store, s.store, 0, env.links, i);
    RefreshTold(s1, 0, env.head.value, confirmations, env.views, i);
  }
}
