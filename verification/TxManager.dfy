/** The transaction manager object: each call takes the store exactly where its specification says. */
module TxManagers {
  import opened Options
  import opened Words
  import opened Fees
  import opened TxRecords
  import opened TxSpec

  class TxManager {
    const cfg: Config
    var store: Store
    ghost var sends: seq<Send>
    ghost var relaxedSigners: set<Address>
    ghost var relaxedKeys: set<string>

    constructor (cfg: Config)
      ensures this.cfg == cfg && State() == INIT
    {
      this.cfg := cfg;
      store := [];
      sends, relaxedSigners, relaxedKeys := [], {}, {};
    }

    ghost function State(): State
      reads this
    {
      TxSpec.State.State(store, sends, relaxedSigners, relaxedKeys)
    }

    /** Operator intervention blocks first, then unresolved nonces without the opt-in. */
    method NeedsInterventionTx(from: Address) returns (blocked: bool)
      ensures blocked <==> Blocked(store, from)
    {
      for i := 0 to |store|
        invariant forall k :: 0 <= k < i ==> !(store[k].status.NeedsIntervention? && store[k].from == from)
      {
        if store[i].status.NeedsIntervention? && store[i].from == from {
          assert Blocks(store[i], from);
          return true;
        }
      }
      for i := 0 to |store|
        invariant forall k :: 0 <= k < i ==> !Blocks(store[k], from)
      {
        if (store[i].status.Reorged? || store[i].status.NonceConsumedExternally?) && store[i].from == from && !store[i].allow {
          assert Blocks(store[i], from);
          return true;
        }
      }
      blocked := false;
    }

    /** The larger of the node's two views and one past every held nonce. */
    method AllocateNonce(from: Address, pending: U64, latest: U64) returns (next: U64)
      ensures next == NextNonce(store, from, Max(pending, latest))
    {
      next := pending;
      if latest > next {
        next := latest;
      }
      ghost var floor := next;
      var i := 0;
      while i < |store|
        invariant 0 <= i <= |store|
        invariant next == NextNonce(store[..i], from, floor)
      {
        var tx := store[i];
        assert store[..i + 1][..i] == store[..i];
        i := i + 1;
        if tx.from != from || tx.status.Failed? || tx.status.Reorged? || tx.status.NonceConsumedExternally? || tx.status.Replaced? {
          continue;
        }
        var candidate := Add64(tx.nonce, 1);
        if candidate > next {
          next := candidate;
        }
      }
      assert store[..i] == store;
    }

    method Save(id: nat, tx: Tx, ack: WriteAck)
      requires id <= |store|
      modifies this
      ensures State() == old(State()).(store := WriteUnless(old(store), id, tx, ack))
    {
      if ack != Lost(false) {
        store := if id == |store| then store + [tx] else store[id := tx];
      }
    }

    method Submit(req: SubmitRequest, env: SubmitEnv) returns (r: CallResult)
      modifies this
      ensures (State(), r) == SubmitCall(cfg, old(State()), req, env)
    {
      if req.allow {
        relaxedSigners, relaxedKeys := relaxedSigners + {req.signer}, relaxedKeys + {req.key};
      }
      if !env.queries {
        return Error;
      }
      var blocked := NeedsInterventionTx(req.signer);
      if blocked {
        return Error;
      }
      var existing := FindKey(store, req.key);
      if existing.Some? && !Retryable(store[existing.value]) {
        return Known(existing.value);
      }
      if env.pending.None? || env.latest.None? {
        return Error;
      }
      var nonce := AllocateNonce(req.signer, env.pending.value, env.latest.value);
      var priced := BuildTx(cfg.mode, cfg.caps, env.quote, req.call.value);
      if priced.None? || env.seal.None? {
        return Error;
      }
      var id := |store|;
      var attempts := [];
      if existing.Some? {
        id := existing.value;
        attempts := store[id].attempts + [Attempt(store[id].nonce, store[id].raw, store[id].status)];
      }
      var raw := Signed(req.signer, nonce, req.call, priced.value.gas, priced.value.fees, env.seal.value);
      var record := Tx(req.key, req.signer, req.call, nonce, raw, BroadcastUnknown, 0, 0, None, None, 0, req.allow, 0, attempts, false);
      r := PersistAndBroadcast(id, record, env);
    }

    method PersistAndBroadcast(id: nat, record: Tx, env: SubmitEnv) returns (r: CallResult)
      requires id <= |store|
      modifies this
      ensures (State(), r) == Launch(old(State()), id, record, env)
    {
      Save(id, record, env.persist);
      if env.persist.Lost? || env.halt {
        return Error;
      }
      sends := sends + [Send(id, record.raw, env.send)];
      match env.send
      case Ambiguous => return Error;
      case Rejected =>
        Save(id, record.(status := Failed), env.settle);
        return Error;
      case Accepted =>
        Save(id, record.(status := Pending), env.settle);
        return if env.settle.Stored? then Done(id) else Error;
    }

    method Replace(signer: Address, id: nat, pct: int, env: ReplaceEnv) returns (r: CallResult)
      modifies this
      ensures (State(), r) == ReplaceCall(cfg, old(State()), signer, id, pct, env)
    {
      if pct <= 0 || !env.queries || id >= |store| {
        return Error;
      }
      var original := store[id];
      if !original.status.Pending? || original.from != signer {
        return Error;
      }
      if cfg.maxReplacements > 0 && original.count + 1 > cfg.maxReplacements {
        Save(id, original.(status := NeedsIntervention), env.mark);
        return Error;
      }
      var decoded := None;
      if Encodable(original.raw.fees) {
        decoded := Some(original.raw.fees);
      }
      var priced := BuildBumpedTx(cfg.mode, cfg.caps, env.quote, original.call.value, pct, decoded);
      if priced.None? || env.seal.None? || !Encodable(priced.value.fees) {
        return Error;
      }
      var raw := Signed(original.from, original.nonce, original.call, priced.value.gas, priced.value.fees, env.seal.value);
      var record := Tx("", original.from, original.call, original.nonce, raw, BroadcastUnknown, 0, 0, None, Some(id), original.count + 1, false, 0, [], false);
      r := LinkAndBroadcast(id, record, env);
    }

    method LinkAndBroadcast(id: nat, record: Tx, env: ReplaceEnv) returns (r: CallResult)
      requires id < |store|
      modifies this
      ensures (State(), r) == Supersede(old(State()), id, record, env)
    {
      var original, next := store[id], |store|;
      Save(next, record, env.persist);
      if env.persist.Lost? {
        return Error;
      }
      if env.link.Conflict? {
        Save(next, record.(status := Failed), env.settleNew);
        return Error;
      }
      if env.link == LinkLost(false) {
        return Error;
      }
      store := store[id := original.(status := Replaced, replacedBy := Some(next), version := original.version + 1)];
      if env.link.LinkLost? || env.halt {
        return Error;
      }
      sends := sends + [Send(next, record.raw, env.send)];
      match env.send
      case Ambiguous => return Error;
      case Rejected =>
        Save(next, record.(status := Failed), env.settleNew);
        Save(id, original.(replacedBy := None, count := record.count, version := original.version + 2), env.settleOld);
        return Error;
      case Accepted =>
        Save(next, record.(status := Pending), env.settleNew);
        return if env.settleNew.Stored? then Done(next) else Error;
    }

    method ReconcileReplacements(links: nat -> LinkView) returns (ok: bool)
      modifies this
      ensures (store, ok) == LinkFrom(old(store), old(store), 0, links)
      ensures State() == old(State()).(store := store)
    {
      var all := store;
      var i := 0;
      while i < |all|
        invariant 0 <= i <= |all| == |store|
        invariant State() == old(State()).(store := store)
        invariant LinkFrom(all, all, 0, links) == LinkFrom(store, all, i, links)
      {
        var tx, view := all[i], links(i);
        i := i + 1;
        if tx.replacing.None? || tx.status.Failed? || tx.replacing.value >= |store| {
          continue;
        }
        if !view.read {
          return false;
        }
        var original := store[tx.replacing.value];
        if original.status.Replaced? {
          continue;
        }
        Save(tx.replacing.value, original.(status := Replaced, replacedBy := Some(i - 1)), view.write);
        if view.write.Lost? {
          return false;
        }
      }
      ok := true;
    }

    method MarkReorged(i: nat, view: RecordView) returns (ok: bool)
      requires i < |store|
      modifies this
      ensures (State(), ok) == CarryOut(old(State()), i, TxSpec.MarkedReorged(old(store[i])), view)
    {
      if store[i].status.Reorged? {
        return true;
      }
      Save(i, store[i].(status := Reorged), view.write);
      ok := view.write.Stored?;
    }

    /** Unmined: consumed elsewhere, rebroadcast, or nothing; mined before: reorged. */
    method HandleMissing(i: nat, view: RecordView) returns (ok: bool)
      requires i < |store|
      modifies this
      ensures (State(), ok) == CarryOut(old(State()), i, HandleMissingReceipt(old(store[i]), view.latest), view)
    {
      var tx := store[i];
      if tx.status.BroadcastUnknown? || tx.status.Pending? {
        if view.latest.None? {
          return false;
        }
        if view.latest.value > tx.nonce {
          Save(i, tx.(status := NonceConsumedExternally), view.write);
          return view.write.Stored?;
        }
        if tx.status.BroadcastUnknown? {
          sends := sends + [Send(i, tx.raw, view.send)];
        }
        return true;
      }
      if tx.status.Mined? || tx.status.Confirmed? || tx.status.Reverted? || tx.status.Reorged? {
        ok := MarkReorged(i, view);
        return;
      }
      ok := true;
    }

    /** Canonicity first, then success and depth. */
    method HandleFound(i: nat, head: U64, confirmations: U64, view: RecordView) returns (ok: bool)
      requires i < |store| && view.receipt.Receipt?
      modifies this
      ensures (State(), ok) == CarryOut(old(State()), i, Judge(old(store[i]), view, head, confirmations), view)
    {
      var tx, receipt := store[i], view.receipt;
      if receipt.blockHash != 0 {
        if view.header.HeaderError? {
          return false;
        }
        if view.header.NoHeader? || view.header.hash != receipt.blockHash {
          ok := MarkReorged(i, view);
          return;
        }
      }
      var status := Mined;
      if !receipt.success {
        status := Reverted;
      } else if head >= Add64(receipt.block, confirmations) {
        status := Confirmed;
      }
      if status != tx.status || tx.block != receipt.block || tx.blockHash != receipt.blockHash {
        Save(i, tx.(status := status, block := receipt.block, blockHash := receipt.blockHash), view.write);
        return view.write.Stored?;
      }
      ok := true;
    }

    method Refresh(i: nat, head: U64, confirmations: U64, view: RecordView) returns (ok: bool)
      requires i < |store|
      modifies this
      ensures (State(), ok) == CarryOut(old(State()), i, Judge(old(store[i]), view, head, confirmations), view)
    {
      match view.receipt
      case ReceiptError => return false;
      case NoReceipt => ok := HandleMissing(i, view);
      case Receipt(_, _, _) => ok := HandleFound(i, head, confirmations, view);
    }

    method RefreshStatuses(confirmations: U64, env: TickEnv) returns (ok: bool)
      modifies this
      ensures (State(), ok) == RefreshCall(old(State()), confirmations, env)
    {
      if !env.replacements {
        return false;
      }
      ok := ReconcileReplacements(env.links);
      if !ok || env.head.None? {
        return false;
      }
      var head := env.head.value;
      var confirmedFrom: U64 := 0;
      var cutoff := Add64(confirmations, REORG_WINDOW);
      if head > cutoff {
        confirmedFrom := head - cutoff;
      }
      if !env.unfinalized {
        return false;
      }
      ghost var linked := State();
      var i := 0;
      while i < |store|
        invariant 0 <= i <= |store| && |store| == |linked.store|
        invariant RefreshFrom(linked, 0, head, confirmations, env.views) == RefreshFrom(State(), i, head, confirmations, env.views)
      {
        var tx := store[i];
        if !Unfinalized(tx, confirmedFrom) || tx.eventDerived || IsFinal(tx, head, confirmations) {
          i := i + 1;
          continue;
        }
        ok := Refresh(i, head, confirmations, env.views(i));
        i := i + 1;
        if !ok {
          return false;
        }
      }
      ok := true;
    }
  }
}
