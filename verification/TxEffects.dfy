/** The net effect of each call on the store and the broadcast history. The invariants build on these shapes. */
module TxEffects {
  import opened Options
  import opened Words
  import opened Fees
  import opened TxRecords
  import opened TxSpec

  /** A signed payload the manager itself produced, within policy. */
  ghost predicate SoundPayload(cfg: Config, tx: Tx) {
    && tx.raw.from == tx.from && tx.raw.nonce == tx.nonce && tx.raw.call == tx.call
    && Encodable(tx.raw.fees) && Coherent(tx.raw.fees)
    && RespectsCaps(cfg.caps, Priced(tx.raw.gas, tx.raw.fees), tx.call.value)
  }

  ghost predicate Exceeds(nonce: U64, tx: Tx) {
    tx.nonce < nonce || tx.nonce == MAX_U64
  }

  /** History grows by at most one broadcast of record `id`; a Failed record's broadcast was rejected. */
  ghost predicate OneBroadcast(s: State, s': State, id: nat, record: Tx) {
    || (s'.sends == s.sends && !record.status.Pending?)
    || (&& |s'.sends| == |s.sends| + 1
        && s'.sends == s.sends + [Send(id, record.raw, s'.sends[|s.sends|].outcome)]
        && (record.status.Failed? ==> s'.sends[|s.sends|].outcome.Rejected?))
  }

  /** A Submit that persisted `record` at `id`. */
  ghost predicate Submitted(cfg: Config, s: State, s': State, req: SubmitRequest, id: nat, record: Tx) {
    && id <= |s.store| && s'.store == Put(s.store, id, record)
    && s'.relaxedSigners == s.relaxedSigners && s'.relaxedKeys == s.relaxedKeys
    && SoundPayload(cfg, record) && !record.eventDerived && record.replacing.None? && record.count == 0
    && record.key == req.key && record.from == req.signer && record.call == req.call && record.allow == req.allow
    && (record.status.BroadcastUnknown? || record.status.Failed? || record.status.Pending?)
    && (record.status.Failed? ==> |s'.sends| == |s.sends| + 1)
    && !Blocked(s.store, req.signer)
    && (forall i :: 0 <= i < |s.store| && Holds(s.store[i], req.signer) ==> Exceeds(record.nonce, s.store[i]))
    && (if id < |s.store|
        then req.key != "" && s.store[id].key == req.key && Retryable(s.store[id]) && record.attempts == Archive(s.store[id])
        else record.attempts == [] && (req.key != "" ==> forall i :: 0 <= i < |s.store| ==> s.store[i].key != req.key))
    && OneBroadcast(s, s', id, record)
  }

  lemma SubmitShape(cfg: Config, s: State, req: SubmitRequest, env: SubmitEnv) returns (id: nat, record: Tx)
    ensures var s' := SubmitCall(cfg, s, req, env).0;
      s' == Opt(s, req) || (Submitted(cfg, Opt(s, req), s', req, id, record)
        && env.latest.Some? && record.nonce >= env.latest.value)
  {
    var s0 := Opt(s, req);
    var existing := FindKey(s0.store, req.key);
    id := if existing.Some? then existing.value else |s0.store|;
    var draft := Draft(cfg, s0.store, req, env, existing);
    if draft.None? {
      record := Tx(req.key, req.signer, req.call, 0, Signed(0, 0, req.call, 0, Legacy(0), 0), Failed, 0, 0, None, None, 0, false, 0, [], false);
    } else {
      var drafted := draft.value;
      var floor := Max(env.pending.value, env.latest.value);
      forall i | 0 <= i < |s0.store| && Holds(s0.store[i], req.signer)
        ensures Exceeds(drafted.nonce, s0.store[i])
      {
        NextNonceExceedsHeld(s0.store, req.signer, floor, i);
      }
      var s' := Launch(s0, id, drafted, env).0;
      record := if id < |s'.store| then s'.store[id] else drafted;
      LaunchShape(s0, id, drafted, env);
    }
  }

  /** Persisting, broadcasting and settling leave exactly one new version of the record. */
  lemma LaunchShape(s: State, id: nat, drafted: Tx, env: SubmitEnv)
    requires id <= |s.store| && drafted.status.BroadcastUnknown?
    ensures var s' := Launch(s, id, drafted, env).0;
      s' == s ||
      (id < |s'.store| && s'.store == Put(s.store, id, s'.store[id])
        && (s'.store[id] == drafted || s'.store[id] == drafted.(status := Failed) || s'.store[id] == drafted.(status := Pending))
        && OneBroadcast(s, s', id, s'.store[id])
        && (s'.store[id].status.Failed? ==> |s'.sends| == |s.sends| + 1)
        && s'.relaxedSigners == s.relaxedSigners && s'.relaxedKeys == s.relaxedKeys)
  {
    var p := Put(s.store, id, drafted);
    assert Put(p, id, drafted.(status := Failed)) == Put(s.store, id, drafted.(status := Failed));
    assert Put(p, id, drafted.(status := Pending)) == Put(s.store, id, drafted.(status := Pending));
  }

  /** A Replace that persisted `record` after the original `id`. */
  ghost predicate Superseded(cfg: Config, s: State, s': State, id: nat, original: Tx, record: Tx) {
    && id < |s.store| && s'.store == s.store[id := original] + [record]
    && s'.relaxedSigners == s.relaxedSigners && s'.relaxedKeys == s.relaxedKeys
    && s.store[id].status.Pending?
    && (original.status.Pending? || original.status.Replaced?)
    && original == s.store[id].(status := original.status, replacedBy := original.replacedBy, count := original.count, version := original.version)
    && (original.count == s.store[id].count || original.count == s.store[id].count + 1)
    && (cfg.maxReplacements > 0 ==> s.store[id].count + 1 <= cfg.maxReplacements)
    && record.replacing == Some(id) && record.key == "" && !record.allow && !record.eventDerived && record.attempts == []
    && record.count == s.store[id].count + 1
    && record.from == s.store[id].from && record.nonce == s.store[id].nonce && record.call == s.store[id].call
    && record.raw.from == record.from && record.raw.nonce == record.nonce && record.raw.call == record.call
    && (SoundPayload(cfg, s.store[id]) ==> SoundPayload(cfg, record) && FeesOutbid(s.store[id].raw.fees, record.raw.fees))
    && (record.status.BroadcastUnknown? || record.status.Failed? || record.status.Pending?)
    && OneBroadcast(s, s', |s.store|, record)
  }

  ghost predicate MarkedIntervention(s: State, s': State, id: nat) {
    && id < |s.store| && s.store[id].status.Pending?
    && s' == s.(store := s.store[id := s.store[id].(status := NeedsIntervention)])
  }

  lemma ReplaceShape(cfg: Config, s: State, signer: Address, id: nat, pct: int, env: ReplaceEnv)
    returns (original: Tx, record: Tx)
    ensures var s' := ReplaceCall(cfg, s, signer, id, pct, env).0;
      s' == s || MarkedIntervention(s, s', id) || Superseded(cfg, s, s', id, original, record)
  {
    var s' := ReplaceCall(cfg, s, signer, id, pct, env).0;
    if id < |s.store| && |s'.store| == |s.store| + 1 {
      original, record := s'.store[id], s'.store[|s.store|];
      var drafted := ReplacementDraft(cfg, s.store, id, pct, env).value;
      SupersedeShape(s, id, drafted, env);
      if SoundPayload(cfg, s.store[id]) {
        BumpedTxPolicy(cfg.mode, cfg.caps, env.quote, s.store[id].call.value, pct, s.store[id].raw.fees);
      }
    } else {
      var call := Call(0, Opaque(""), 0);
      record := Tx("", 0, call, 0, Signed(0, 0, call, 0, Legacy(0), 0), Failed, 0, 0, None, None, 0, false, 0, [], false);
      original := record;
      if id < |s.store| && s.store[id].status.Pending? && ReplacementDraft(cfg, s.store, id, pct, env).Some? {
        SupersedeShape(s, id, ReplacementDraft(cfg, s.store, id, pct, env).value, env);
      }
    }
  }

  lemma SupersedeShape(s: State, id: nat, drafted: Tx, env: ReplaceEnv)
    requires id < |s.store| && drafted.status.BroadcastUnknown? && drafted.count == s.store[id].count + 1
    requires s.store[id].status.Pending?
    ensures var s' := Supersede(s, id, drafted, env).0;
      s' == s ||
      (&& |s'.store| == |s.store| + 1
       && (var original, record := s'.store[id], s'.store[|s.store|];
           && s'.store == s.store[id := original] + [record]
           && (record == drafted || record == drafted.(status := Failed) || record == drafted.(status := Pending))
           && (original.status.Pending? || original.status.Replaced?)
           && original == s.store[id].(status := original.status, replacedBy := original.replacedBy, count := original.count, version := original.version)
           && (original.count == s.store[id].count || original.count == s.store[id].count + 1)
           && OneBroadcast(s, s', |s.store|, record)
           && s'.relaxedSigners == s.relaxedSigners && s'.relaxedKeys == s.relaxedKeys))
  {
  }

  // RefreshStatuses

  ghost predicate Observed(status: Status) {
    status.Mined? || status.Confirmed? || status.Reverted? || status.Reorged? || status.NonceConsumedExternally?
  }

  /** What a tick may do to one record. */
  ghost predicate TickMove(a: Tx, b: Tx) {
    && b == a.(status := b.status, block := b.block, blockHash := b.blockHash, replacedBy := b.replacedBy)
    && (b.status == a.status || b.status.Replaced?
        || (!a.status.Failed? && !a.status.Replaced? && !a.eventDerived && Observed(b.status)))
  }

  ghost predicate TickMoves(prior: Store, next: Store) {
    |prior| == |next| && forall i :: 0 <= i < |prior| ==> TickMove(prior[i], next[i])
  }

  /** A rebroadcast resends a stored record's own bytes. */
  ghost predicate Rebroadcasts(store: Store, e: Send) {
    e.record < |store| && !store[e.record].eventDerived && store[e.record].status.BroadcastUnknown? && e.tx == store[e.record].raw
  }

  ghost predicate Refreshed(s: State, s': State) {
    && TickMoves(s.store, s'.store)
    && s'.relaxedSigners == s.relaxedSigners && s'.relaxedKeys == s.relaxedKeys
    && |s.sends| <= |s'.sends| && s'.sends[..|s.sends|] == s.sends
    && forall k :: |s.sends| <= k < |s'.sends| ==> Rebroadcasts(s.store, s'.sends[k])
  }

  lemma TickMovesTrans(a: Store, b: Store, c: Store)
    requires TickMoves(a, b) && TickMoves(b, c)
    ensures TickMoves(a, c)
  {
    forall i | 0 <= i < |a| ensures TickMove(a[i], c[i]) {
      assert TickMove(a[i], b[i]) && TickMove(b[i], c[i]);
    }
  }

  lemma {:induction false} LinkFromMoves(store: Store, snapshot: Store, i: nat, links: nat -> LinkView)
    requires i <= |snapshot| == |store|
    ensures TickMoves(store, LinkFrom(store, snapshot, i, links).0)
    decreases |snapshot| - i
  {
    if i < |snapshot| {
      var (store1, ok) := LinkOne(store, snapshot, i, links(i));
      assert TickMoves(store, store1);
      if ok {
        LinkFromMoves(store1, snapshot, i + 1, links);
        TickMovesTrans(store, store1, LinkFrom(store1, snapshot, i + 1, links).0);
      }
    }
  }

  lemma RefreshOneMoves(s: State, i: nat, head: U64, confirmations: U64, view: RecordView)
    requires i < |s.store|
    ensures Refreshed(s, RefreshOne(s, i, head, confirmations, view).0)
  {
  }

  lemma RefreshedTrans(a: State, b: State, c: State)
    requires Refreshed(a, b) && Refreshed(b, c)
    ensures Refreshed(a, c)
  {
    TickMovesTrans(a.store, b.store, c.store);
    assert c.sends[..|a.sends|] == b.sends[..|a.sends|];
    forall k | |a.sends| <= k < |c.sends| ensures Rebroadcasts(a.store, c.sends[k]) {
      if k < |b.sends| {
        assert c.sends[k] == c.sends[..|b.sends|][k] == b.sends[k];
      } else {
        var e := c.sends[k];
        assert Rebroadcasts(b.store, e);
        assert TickMove(a.store[e.record], b.store[e.record]);
      }
    }
  }

  lemma {:induction false} RefreshFromMoves(s: State, i: nat, head: U64, confirmations: U64, views: nat -> RecordView)
    requires i <= |s.store|
    ensures Refreshed(s, RefreshFrom(s, i, head, confirmations, views).0)
    decreases |s.store| - i
  {
    if i < |s.store| {
      var (s1, ok) := RefreshOne(s, i, head, confirmations, views(i));
      RefreshOneMoves(s, i, head, confirmations, views(i));
      if ok {
        RefreshFromMoves(s1, i + 1, head, confirmations, views);
        RefreshedTrans(s, s1, RefreshFrom(s1, i + 1, head, confirmations, views).0);
      }
    }
  }

  lemma RefreshShape(s: State, confirmations: U64, env: TickEnv)
    ensures Refreshed(s, RefreshCall(s, confirmations, env).0)
  {
    if env.replacements {
      LinkFromMoves(s.store, s.store, 0, env.links);
      var (store, ok) := LinkFrom(s.store, s.store, 0, env.links);
      var s1 := s.(store := store);
      assert Refreshed(s, s1);
      if ok && env.head.Some? && env.unfinalized {
        RefreshFromMoves(s1, 0, env.head.value, confirmations, env.views);
        RefreshedTrans(s, s1, RefreshFrom(s1, 0, env.head.value, confirmations, env.views).0);
      }
    }
  }
}
