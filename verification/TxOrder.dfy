/** On a truthful chain without reorgs, nonces follow the order of allocation. */
module TxOrder {
  import opened Options
  import opened Words
  import opened TxRecords
  import opened TxSpec
  import opened TxEffects
  import opened TxInvariants
  import opened TxConvergence

  /** The chain only grows: mined nonces never fall, and a mined receipt stays, in a canonical block. */
  ghost predicate Extends(a: Chain, b: Chain) {
    && (forall who :: a.latest(who) <= b.latest(who))
    && (forall raw :: a.receipts(raw).Some? ==> b.receipts(raw).Some?)
  }

  ghost predicate NoReorgs(chain: Chain) {
    forall raw :: chain.receipts(raw).Some? ==> Canonical(chain, chain.receipts(raw).value)
  }

  /** The node either fails or tells what the chain holds. */
  ghost predicate TruthfulView(chain: Chain, tx: Tx, view: RecordView) {
    && (view.latest.Some? ==> view.latest.value == chain.latest(tx.from))
    && (match view.receipt
        case ReceiptError => true
        case NoReceipt => chain.receipts(tx.raw).None?
        case Receipt(success, block, blockHash) =>
          && chain.receipts(tx.raw) == Some(MinedTx(success, block, blockHash))
          && (view.header.HeaderError? || view.header == match chain.headers(block) case Some(h) => Header(h) case None => NoHeader))
  }

  /** One step under a truthful node and without operator replacements. */
  ghost predicate Truthful(chain: Chain, s: State, step: Label) {
    NoReorgs(chain) &&
    match step
    case SubmitStep(req, env) => env.latest.Some? ==> env.latest.value == chain.latest(req.signer)
    case ReplaceStep(_, _, _, _) => false
    case RefreshStep(_, env) => forall i :: 0 <= i < |s.store| ==> TruthfulView(chain, s.store[i], env.views(i))
    case ProjectStep(_, _) => true
  }

  ghost predicate SettledAttempt(chain: Chain, a: Attempt) {
    a.status.Failed? || (a.status.NonceConsumedExternally? && a.nonce < chain.latest(a.raw.from))
  }

  ghost predicate SettledRecord(chain: Chain, tx: Tx) {
    tx.eventDerived ||
    (&& tx.replacing.None?
     && (match tx.status
         case BroadcastUnknown | Pending | Failed => true
         case Mined | Confirmed | Reverted => chain.receipts(tx.raw).Some?
         case NonceConsumedExternally => tx.nonce < chain.latest(tx.from)
         case _ => false)
     && forall k :: 0 <= k < |tx.attempts| ==> SettledAttempt(chain, tx.attempts[k]))
  }

  /** What a reorg-free history without replacements can look like. */
  ghost predicate Settled(chain: Chain, s: State) {
    forall i :: 0 <= i < |s.store| ==> SettledRecord(chain, s.store[i])
  }

  lemma SettledGrows(a: Chain, b: Chain, s: State)
    requires Extends(a, b) && Settled(a, s)
    ensures Settled(b, s)
  {
    forall i | 0 <= i < |s.store| ensures SettledRecord(b, s.store[i]) {
      assert SettledRecord(a, s.store[i]);
      var tx := s.store[i];
      forall k | !tx.eventDerived && 0 <= k < |tx.attempts| ensures SettledAttempt(b, tx.attempts[k]) {
        assert SettledAttempt(a, tx.attempts[k]);
      }
    }
  }

  lemma {:induction false} LinkFromIdle(store: Store, snapshot: Store, i: nat, links: nat -> LinkView)
    requires i <= |snapshot| == |store|
    requires forall k :: 0 <= k < |snapshot| ==> snapshot[k].replacing.None?
    ensures LinkFrom(store, snapshot, i, links).0 == store
    decreases |snapshot| - i
  {
    if i < |snapshot| {
      LinkFromIdle(store, snapshot, i + 1, links);
    }
  }

  lemma RefreshOneSettled(chain: Chain, s: State, i: nat, head: U64, confirmations: U64, view: RecordView)
    requires i < |s.store| && Settled(chain, s) && NoReorgs(chain) && TruthfulView(chain, s.store[i], view)
    ensures Settled(chain, RefreshOne(s, i, head, confirmations, view).0)
  {
    assert SettledRecord(chain, s.store[i]);
  }

  lemma {:induction false} RefreshFromSettled(chain: Chain, s: State, i: nat, head: U64, confirmations: U64, views: nat -> RecordView)
    requires i <= |s.store| && Settled(chain, s) && NoReorgs(chain)
    requires forall k :: 0 <= k < |s.store| ==> TruthfulView(chain, s.store[k], views(k))
    ensures Settled(chain, RefreshFrom(s, i, head, confirmations, views).0)
    decreases |s.store| - i
  {
    if i < |s.store| {
      var (s1, ok) := RefreshOne(s, i, head, confirmations, views(i));
      RefreshOneSettled(chain, s, i, head, confirmations, views(i));
      if ok {
        forall k | 0 <= k < |s1.store| ensures TruthfulView(chain, s1.store[k], views(k)) {
          assert TruthfulView(chain, s.store[k], views(k));
        }
        RefreshFromSettled(chain, s1, i + 1, head, confirmations, views);
      }
    }
  }

  lemma SubmittedSettled(cfg: Config, chain: Chain, s: State, s': State, req: SubmitRequest, id: nat, record: Tx)
    requires WellFormed(cfg, s) && Settled(chain, s) && Submitted(cfg, s, s', req, id, record)
    ensures Settled(chain, s')
  {
    forall i | 0 <= i < |s'.store| ensures SettledRecord(chain, s'.store[i]) {
      if i != id {
        assert SettledRecord(chain, s.store[i]);
      } else if id < |s.store| {
        assert SettledRecord(chain, s.store[id]) && GoodRecord(cfg, s, id);
        forall k | 0 <= k < |record.attempts| ensures SettledAttempt(chain, record.attempts[k]) {
        }
      }
    }
  }

  lemma StepSettled(cfg: Config, chain: Chain, s: State, step: Label)
    requires WellFormed(cfg, s) && Settled(chain, s) && Truthful(chain, s, step)
    ensures Settled(chain, Step(cfg, s, step))
  {
    var s' := Step(cfg, s, step);
    match step
    case SubmitStep(req, env) =>
      var id, record := SubmitShape(cfg, s, req, env);
      if s' != Opt(s, req) {
        OptWellFormed(cfg, s, req);
        SubmittedSettled(cfg, chain, Opt(s, req), s', req, id, record);
      }
    case ReplaceStep(_, _, _, _) =>
    case RefreshStep(confirmations, env) =>
      if env.replacements {
        forall i | 0 <= i < |s.store| ensures s.store[i].replacing.None? {
          assert SettledRecord(chain, s.store[i]) && GoodRecord(cfg, s, i);
        }
        LinkFromIdle(s.store, s.store, 0, env.links);
        if env.head.Some? {
          RefreshFromSettled(chain, s, 0, env.head.value, confirmations, env.views);
        }
      }
    case ProjectStep(slot, tx) =>
  }

  /** An attempt of `tx`, current or archived, that was not definitely rejected. */
  ghost predicate Outstanding(tx: Tx, a: Attempt) {
    !tx.eventDerived && a in Archive(tx) && !a.status.Failed?
  }

  /** A fresh allocation lies above everything of the signer that may still execute or has executed. */
  lemma AllocationDominates(cfg: Config, chain: Chain, s: State, req: SubmitRequest, env: SubmitEnv, i: nat, a: Attempt)
    returns (id: nat, record: Tx)
    requires WellFormed(cfg, s) && Settled(chain, s) && Truthful(chain, s, SubmitStep(req, env))
    requires i < |s.store| && Outstanding(s.store[i], a) && a.raw.from == req.signer
    ensures var s' := SubmitCall(cfg, s, req, env).0;
      s'.store == s.store
      || (Submitted(cfg, Opt(s, req), s', req, id, record) && (a.nonce < record.nonce || a.nonce == MAX_U64))
  {
    id, record := SubmitShape(cfg, s, req, env);
    var tx := s.store[i];
    assert SettledRecord(chain, tx) && GoodRecord(cfg, s, i);
    var k :| 0 <= k < |Archive(tx)| && Archive(tx)[k] == a;
    if k < |tx.attempts| {
      assert SettledAttempt(chain, tx.attempts[k]);
    } else if SubmitCall(cfg, s, req, env).0 != Opt(s, req) && !tx.status.NonceConsumedExternally? {
      assert Holds(Opt(s, req).store[i], req.signer);
      assert Exceeds(record.nonce, tx);
    }
  }
}
