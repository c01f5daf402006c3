/** On an unchanging chain one refresh settles every record, and the next one has nothing to do. */
module TxConvergence {
  import opened Options
  import opened Words
  import opened TxRecords
  import opened TxSpec
  import opened TxEffects
  import opened TxInvariants

  datatype MinedTx = MinedTx(success: bool, block: U64, blockHash: nat)

  /** A frozen view of the chain that answers every call. */
  datatype Chain = Chain(receipts: Signed -> Option<MinedTx>, headers: U64 -> Option<nat>, latest: Address -> U64, head: U64)

  function ViewOf(chain: Chain, tx: Tx): RecordView {
    match chain.receipts(tx.raw)
    case None => RecordView(NoReceipt, NoHeader, Some(chain.latest(tx.from)), Ambiguous, Stored)
    case Some(m) =>
      var header := match chain.headers(m.block) case Some(h) => Header(h) case None => NoHeader;
      RecordView(Receipt(m.success, m.block, m.blockHash), header, Some(chain.latest(tx.from)), Ambiguous, Stored)
  }

  function Views(store: Store, chain: Chain): nat -> RecordView {
    (i: nat) => if i < |store| then ViewOf(chain, store[i]) else RecordView(NoReceipt, NoHeader, None, Ambiguous, Stored)
  }

  function FixedTick(store: Store, chain: Chain): TickEnv {
    TickEnv(true, (i: nat) => LinkView(true, Stored), Some(chain.head), true, Views(store, chain))
  }

  function Tick(s: State, chain: Chain, confirmations: U64): (State, bool) {
    RefreshCall(s, confirmations, FixedTick(s.store, chain))
  }

  ghost predicate Canonical(chain: Chain, m: MinedTx) {
    m.blockHash == 0 || chain.headers(m.block) == Some(m.blockHash)
  }

  /** The status the chain dictates for a record that is still followed. */
  ghost predicate StatusFixed(chain: Chain, confirmations: U64, before: Tx, after: Tx) {
    match chain.receipts(before.raw)
    case Some(m) =>
      if Canonical(chain, m) then
        && after.block == m.block && after.blockHash == m.blockHash
        && (after.status.Reverted? <==> !m.success)
        && (after.status.Confirmed? <==> m.success && chain.head >= Add64(m.block, confirmations))
        && (after.status.Mined? <==> m.success && chain.head < Add64(m.block, confirmations))
      else after.status.Reorged?
    case None =>
      match before.status
      case Mined | Confirmed | Reverted | Reorged => after.status.Reorged?
      case Pending | BroadcastUnknown =>
        if chain.latest(before.from) > before.nonce then after.status.NonceConsumedExternally? else after.status == before.status
      case _ => after.status == before.status
  }

  /** Some replacement of record `i`, from position `from` on, was not abandoned. */
  ghost predicate HasHeir(store: Store, from: nat, i: nat) {
    exists j :: from <= j < |store| && store[j].replacing == Some(i) && !store[j].status.Failed?
  }

  /** A replacement that was rejected or abandoned was never replaced itself. */
  ghost predicate FailedHeirless(store: Store) {
    forall i, j :: 0 <= i < |store| && 0 <= j < |store| && store[i].replacing.Some? && store[i].status.Failed? ==>
      store[j].replacing != Some(i)
  }

  lemma SubmittedHeirless(cfg: Config, s: State, s': State, req: SubmitRequest, id: nat, record: Tx)
    requires WellFormed(cfg, s) && FailedHeirless(s.store) && Submitted(cfg, s, s', req, id, record)
    ensures FailedHeirless(s'.store)
  {
  }

  lemma SupersededHeirless(cfg: Config, s: State, s': State, id: nat, original: Tx, record: Tx)
    requires WellFormed(cfg, s) && FailedHeirless(s.store) && Superseded(cfg, s, s', id, original, record)
    ensures FailedHeirless(s'.store)
  {
    forall i, j | 0 <= i < |s'.store| && 0 <= j < |s'.store| && s'.store[i].replacing.Some? && s'.store[i].status.Failed?
      ensures s'.store[j].replacing != Some(i)
    {
      assert i != id;
      if j < |s.store| {
        assert GoodRecord(cfg, s, j) && s'.store[j].replacing == s.store[j].replacing;
        if i < |s.store| {
          assert s.store[i].replacing.Some? && s.store[i].status.Failed?;
        }
      }
    }
  }

  lemma MovedHeirless(s: State, s': State)
    requires FailedHeirless(s.store) && |s'.store| == |s.store|
    requires forall i :: 0 <= i < |s.store| ==>
      s'.store[i].replacing == s.store[i].replacing && (s'.store[i].status.Failed? ==> s.store[i].status.Failed?)
    ensures FailedHeirless(s'.store)
  {
  }

  lemma StepFailedHeirless(cfg: Config, s: State, step: Label)
    requires WellFormed(cfg, s) && FailedHeirless(s.store)
    ensures FailedHeirless(Step(cfg, s, step).store)
  {
    var s' := Step(cfg, s, step);
    match step
    case SubmitStep(req, env) =>
      var id, record := SubmitShape(cfg, s, req, env);
      if s' != Opt(s, req) {
        OptWellFormed(cfg, s, req);
        SubmittedHeirless(cfg, Opt(s, req), s', req, id, record);
      }
    case ReplaceStep(signer, id, pct, env) =>
      var original, record := ReplaceShape(cfg, s, signer, id, pct, env);
      if MarkedIntervention(s, s', id) {
        MovedHeirless(s, s');
      } else if s' != s {
        SupersededHeirless(cfg, s, s', id, original, record);
      }
    case RefreshStep(confirmations, env) =>
      RefreshShape(s, confirmations, env);
      forall i | 0 <= i < |s.store| ensures TickMove(s.store[i], s'.store[i]) {
      }
      MovedHeirless(s, s');
    case ProjectStep(slot, tx) =>
      if s' != s && slot < |s.store| {
        assert GoodRecord(cfg, s, slot);
      }
  }

  lemma {:induction false} RunFailedHeirless(cfg: Config, run: seq<Label>)
    ensures FailedHeirless(Run(cfg, run).store)
  {
    if run != [] {
      RunWellFormed(cfg, run[..|run| - 1]);
      RunFailedHeirless(cfg, run[..|run| - 1]);
      StepFailedHeirless(cfg, Run(cfg, run[..|run| - 1]), run[|run| - 1]);
    }
  }

  /** Linking marks exactly the originals that have an heir, and reports success. */
  lemma {:induction false} LinkFromResult(store: Store, snapshot: Store, k: nat, links: nat -> LinkView, i: nat)
    requires k <= |snapshot| == |store| && i < |store|
    requires forall j: nat :: links(j) == LinkView(true, Stored)
    ensures var (next, ok) := LinkFrom(store, snapshot, k, links);
      && ok
      && (HasHeir(snapshot, k, i) ==> next[i].status.Replaced?)
      && (!HasHeir(snapshot, k, i) || store[i].status.Replaced? ==> next[i] == store[i])
    decreases |snapshot| - k
  {
    if k < |snapshot| {
      var (store1, _) := LinkOne(store, snapshot, k, links(k));
      LinkFromResult(store1, snapshot, k + 1, links, i);
      assert HasHeir(snapshot, k, i) <==> (snapshot[k].replacing == Some(i) && !snapshot[k].status.Failed?) || HasHeir(snapshot, k + 1, i);
    }
  }

  /** What refreshing leaves of one record. */
  function Refreshed1(tx: Tx, view: RecordView, head: U64, confirmations: U64): Tx {
    if !Visited(tx, head, confirmations) then tx else
    match Judge(tx, view, head, confirmations)
    case Write(status, block, blockHash) => tx.(status := status, block := block, blockHash := blockHash)
    case _ => tx
  }

  lemma RefreshOneResult(s: State, k: nat, head: U64, confirmations: U64, view: RecordView)
    requires k < |s.store| && view.write.Stored? && !view.receipt.ReceiptError? && !view.header.HeaderError? && view.latest.Some?
    ensures var (s1, ok) := RefreshOne(s, k, head, confirmations, view);
      ok && s1.store == s.store[k := Refreshed1(s.store[k], view, head, confirmations)]
  {
  }

  lemma {:induction false} RefreshFromResult(s: State, k: nat, chain: Chain, origin: Store, confirmations: U64)
    requires k <= |s.store| == |origin|
    requires forall i :: 0 <= i < |origin| ==> origin[i].raw == s.store[i].raw && origin[i].from == s.store[i].from
    ensures var (s', ok) := RefreshFrom(s, k, chain.head, confirmations, Views(origin, chain));
      ok && forall i :: 0 <= i < |s.store| ==>
        s'.store[i] == if i < k then s.store[i] else Refreshed1(s.store[i], ViewOf(chain, s.store[i]), chain.head, confirmations)
    decreases |s.store| - k
  {
    if k < |s.store| {
      var (s1, ok) := RefreshOne(s, k, chain.head, confirmations, Views(origin, chain)(k));
      assert Views(origin, chain)(k) == ViewOf(chain, origin[k]) == ViewOf(chain, s.store[k]);
      RefreshOneResult(s, k, chain.head, confirmations, ViewOf(chain, s.store[k]));
      RefreshFromResult(s1, k + 1, chain, origin, confirmations);
    }
  }

  /** The repository's confirmedFrom cutoff drops nothing that the finality check would keep, wrap-around included. */
  lemma CutoffSkipsOnlyFinal(tx: Tx, head: U64, confirmations: U64)
    ensures !Unfinalized(tx, ConfirmedFrom(head, confirmations)) ==> IsFinal(tx, head, confirmations)
  {
    if tx.status.Confirmed? && tx.block < ConfirmedFrom(head, confirmations) {
      assert tx.block + Cutoff(confirmations) < head;
      WrapAssociates(tx.block, confirmations, REORG_WINDOW);
    }
  }

  lemma WrapAssociates(a: U64, b: U64, c: U64)
    requires a + Add64(b, c) < TWO64
    ensures Add64(Add64(a, b), c) == a + Add64(b, c)
  {
  }

  lemma Refreshed1Settles(tx: Tx, chain: Chain, confirmations: U64)
    requires !tx.eventDerived
    ensures var after := Refreshed1(tx, ViewOf(chain, tx), chain.head, confirmations);
      && (if IsFinal(tx, chain.head, confirmations) then after == tx else StatusFixed(chain, confirmations, tx, after))
      && Refreshed1(after, ViewOf(chain, after), chain.head, confirmations) == after
      && after.raw == tx.raw && after.from == tx.from && after.replacing == tx.replacing
      && (after.status.Failed? <==> tx.status.Failed?) && (after.status.Replaced? <==> tx.status.Replaced?)
  {
    CutoffSkipsOnlyFinal(tx, chain.head, confirmations);
  }

  /** The store after a whole tick on a fixed chain, record by record. */
  lemma TickResult(s: State, chain: Chain, confirmations: U64, i: nat)
    requires i < |s.store|
    ensures var (s', ok) := Tick(s, chain, confirmations);
      && ok && |s'.store| == |s.store|
      && (HasHeir(s.store, 0, i) ==> s'.store[i].status.Replaced? && s'.store[i].raw == s.store[i].raw && s'.store[i].replacing == s.store[i].replacing)
      && (HasHeir(s.store, 0, i) && s.store[i].status.Replaced? ==> s'.store[i] == s.store[i])
      && (!HasHeir(s.store, 0, i) ==>
            s'.store[i] == Refreshed1(s.store[i], ViewOf(chain, s.store[i]), chain.head, confirmations))
  {
    var env := FixedTick(s.store, chain);
    LinkFromMoves(s.store, s.store, 0, env.links);
    var (linked, _) := LinkFrom(s.store, s.store, 0, env.links);
    forall j | 0 <= j < |s.store| ensures linked[j].raw == s.store[j].raw && linked[j].from == s.store[j].from {
      assert TickMove(s.store[j], linked[j]);
    }
    LinkFromResult(s.store, s.store, 0, env.links, i);
    assert TickMove(s.store[i], linked[i]);
    RefreshFromResult(s.(store := linked), 0, chain, s.store, confirmations);
  }

  /** One refresh settles every record of a reachable store: originals with a surviving replacement are Replaced,
      final and event-derived records are untouched, and all others get the status the chain dictates. */
  lemma RefreshConverges(cfg: Config, run: seq<Label>, chain: Chain, confirmations: U64, i: nat)
    requires i < |Run(cfg, run).store|
    ensures var s := Run(cfg, run);
      var (s', ok) := Tick(s, chain, confirmations);
      var before, after := s.store[i], s'.store[i];
      && ok
      && (HasHeir(s.store, 0, i) ==> after.status.Replaced?)
      && (!HasHeir(s.store, 0, i) && (before.eventDerived || IsFinal(before, chain.head, confirmations)) ==> after == before)
      && (!HasHeir(s.store, 0, i) && !before.eventDerived && !IsFinal(before, chain.head, confirmations) ==>
            StatusFixed(chain, confirmations, before, after))
  {
    TickResult(Run(cfg, run), chain, confirmations, i);
    if !Run(cfg, run).store[i].eventDerived {
      Refreshed1Settles(Run(cfg, run).store[i], chain, confirmations);
    }
  }

  /** A second refresh on the same chain changes no record. */
  lemma RefreshIsIdempotent(cfg: Config, run: seq<Label>, chain: Chain, confirmations: U64)
    ensures var s1 := Tick(Run(cfg, run), chain, confirmations).0;
      Tick(s1, chain, confirmations).0.store == s1.store
  {
    var s := Run(cfg, run);
    var s1 := Tick(s, chain, confirmations).0;
    var s2 := Tick(s1, chain, confirmations).0;
    RunFailedHeirless(cfg, run);
    assert |s1.store| == |s.store| by {
      if s.store != [] {
        TickResult(s, chain, confirmations, 0);
      } else {
        assert s1.store == [];
      }
    }
    forall i | 0 <= i < |s1.store| ensures s2.store[i] == s1.store[i] && |s2.store| == |s1.store| {
      TickResult(s, chain, confirmations, i);
      TickResult(s1, chain, confirmations, i);
      HeirsUnchanged(s, chain, confirmations, i);
      if !s.store[i].eventDerived {
        Refreshed1Settles(s.store[i], chain, confirmations);
      }
    }
    if s1.store == [] {
      assert s2.store == [];
    }
  }

  lemma HeirsUnchanged(s: State, chain: Chain, confirmations: U64, i: nat)
    requires i < |s.store| && FailedHeirless(s.store)
    ensures HasHeir(Tick(s, chain, confirmations).0.store, 0, i) ==> HasHeir(s.store, 0, i)
  {
    var s' := Tick(s, chain, confirmations).0;
    TickResult(s, chain, confirmations, i);
    if HasHeir(s'.store, 0, i) {
      var j :| 0 <= j < |s'.store| && s'.store[j].replacing == Some(i) && !s'.store[j].status.Failed?;
      TickResult(s, chain, confirmations, j);
      if !s.store[j].eventDerived {
        Refreshed1Settles(s.store[j], chain, confirmations);
      }
      assert s.store[j].replacing == Some(i);
      if HasHeir(s.store, 0, j) {
        assert !s.store[j].status.Failed?;
      }
    }
  }
}
