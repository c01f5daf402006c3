/** What a second call makes of a first one that failed, crashed or was rejected. */
module TxRecovery {
  import opened Options
  import opened Words
  import opened TxRecords
  import opened TxSpec
  import opened TxEffects
  import opened TxInvariants
  import opened TxConvergence
  import opened TxHeirs

  /** `next` holds a new version of record `id`, or `id` is new. */
  predicate Wrote(prior: Store, next: Store, id: nat) {
    id < |next| && (id >= |prior| || next[id] != prior[id])
  }

  // Submitting the same key again

  lemma FindUnique(store: Store, id: nat)
    requires UniqueKeys(store) && id < |store| && store[id].key != ""
    ensures FindKey(store, store[id].key) == Some(id)
  {
    var found := FindKey(store, store[id].key);
    assert store[id].key == store[id].key;
    assert found.Some?;
  }

  /** The record a Submit wrote carries the request's key. */
  lemma WroteKey(cfg: Config, s: State, req: SubmitRequest, env: SubmitEnv, id: nat)
    requires Wrote(s.store, SubmitCall(cfg, s, req, env).0.store, id)
    ensures SubmitCall(cfg, s, req, env).0.store[id].key == req.key
  {
    var written, record := SubmitShape(cfg, s, req, env);
    assert id == written;
  }

  /** Whatever became of a Submit that persisted its record, crashes included: unless the broadcast was definitely
      rejected, a second Submit under the key stores nothing, sends nothing, and answers with that record or an error. */
  lemma SameKeyIsNotRepeated(cfg: Config, run: seq<Label>, req: SubmitRequest, env: SubmitEnv, again: SubmitRequest, env2: SubmitEnv, id: nat)
    requires req.key != "" && again.key == req.key
    requires var s1 := SubmitCall(cfg, Run(cfg, run), req, env).0;
      Wrote(Run(cfg, run).store, s1.store, id) && !s1.store[id].status.Failed?
    ensures var s1 := SubmitCall(cfg, Run(cfg, run), req, env).0;
      var (s2, answer) := SubmitCall(cfg, s1, again, env2);
      s2.store == s1.store && s2.sends == s1.sends && (answer == Known(id) || answer.Error?)
  {
    var s := Run(cfg, run);
    var s1 := SubmitCall(cfg, s, req, env).0;
    RunWellFormed(cfg, run);
    StepWellFormed(cfg, s, SubmitStep(req, env));
    WroteKey(cfg, s, req, env, id);
    FindUnique(s1.store, id);
    WroteStatus(cfg, s, req, env, id);
    KnownKey(cfg, s1, again, env2, id);
  }

  lemma WroteStatus(cfg: Config, s: State, req: SubmitRequest, env: SubmitEnv, id: nat)
    requires Wrote(s.store, SubmitCall(cfg, s, req, env).0.store, id)
    ensures var tx := SubmitCall(cfg, s, req, env).0.store[id];
      tx.status.BroadcastUnknown? || tx.status.Pending? || tx.status.Failed?
  {
    var written, record := SubmitShape(cfg, s, req, env);
    assert id == written;
  }

  lemma KnownKey(cfg: Config, s: State, req: SubmitRequest, env: SubmitEnv, id: nat)
    requires FindKey(s.store, req.key) == Some(id) && !Retryable(s.store[id])
    ensures var (s2, answer) := SubmitCall(cfg, s, req, env);
      s2.store == s.store && s2.sends == s.sends && (answer == Known(id) || answer.Error?)
  {
  }

  // A crash between persistence and broadcast

  /** The node has no receipt for the record and its nonce is still open. */
  predicate Unmined(view: RecordView, tx: Tx) {
    view.receipt.NoReceipt? && view.latest.Some? && view.latest.value <= tx.nonce
  }

  ghost predicate SentSince(sends: seq<Send>, from: nat, id: nat, raw: Signed) {
    exists n :: from <= n < |sends| && sends[n].record == id && sends[n].tx == raw
  }

  lemma {:induction false} RefreshResends(s: State, k: nat, head: U64, confirmations: U64, views: nat -> RecordView, id: nat)
    requires k <= id < |s.store| && s.store[id].status.BroadcastUnknown? && !s.store[id].eventDerived
    requires Unmined(views(id), s.store[id]) && RefreshFrom(s, k, head, confirmations, views).1
    ensures SentSince(RefreshFrom(s, k, head, confirmations, views).0.sends, |s.sends|, id, s.store[id].raw)
    decreases |s.store| - k
  {
    var (s1, ok) := RefreshOne(s, k, head, confirmations, views(k));
    var t := RefreshFrom(s1, k + 1, head, confirmations, views).0;
    RefreshFromMoves(s1, k + 1, head, confirmations, views);
    if k == id {
      assert s1.sends == s.sends + [Send(id, s.store[id].raw, views(id).send)];
      assert t.sends[|s.sends|] == t.sends[..|s1.sends|][|s.sends|];
    } else {
      RefreshOneMoves(s, k, head, confirmations, views(k));
      RefreshResends(s1, k + 1, head, confirmations, views, id);
    }
  }

  /** A tick that completes rebroadcasts every unmined BroadcastUnknown record, byte for byte. */
  lemma TickResends(s: State, confirmations: U64, env: TickEnv, id: nat)
    requires id < |s.store| && s.store[id].status.BroadcastUnknown? && !s.store[id].eventDerived
    requires !HasHeir(s.store, 0, id) && Unmined(env.views(id), s.store[id]) && RefreshCall(s, confirmations, env).1
    ensures SentSince(RefreshCall(s, confirmations, env).0.sends, |s.sends|, id, s.store[id].raw)
  {
    LinkingSkips(s.store, s.store, 0, env.links, id);
    var s1 := s.(store := LinkFrom(s.store, s.store, 0, env.links).0);
    RefreshResends(s1, 0, env.head.value, confirmations, env.views, id);
  }

  /** A Submit that crashed after persisting is finished by the next completed tick, with the stored bytes. */
  lemma CrashedSubmitIsSent(cfg: Config, run: seq<Label>, req: SubmitRequest, env: SubmitEnv, id: nat, confirmations: U64, tick: TickEnv)
    requires var s1 := SubmitCall(cfg, Run(cfg, run), req, env).0;
      && Wrote(Run(cfg, run).store, s1.store, id) && (env.halt || env.persist.Lost? || env.send.Ambiguous?)
      && Unmined(tick.views(id), s1.store[id]) && RefreshCall(s1, confirmations, tick).1
    ensures var s1 := SubmitCall(cfg, Run(cfg, run), req, env).0;
      SentSince(RefreshCall(s1, confirmations, tick).0.sends, |s1.sends|, id, s1.store[id].raw)
  {
    var s := Run(cfg, run);
    UnsettledSubmit(cfg, s, req, env, id);
    WrittenHeirless(cfg, run, req, env, id);
    TickResends(SubmitCall(cfg, s, req, env).0, confirmations, tick, id);
  }

  /** The record a Submit wrote has no surviving replacement: it is new, or it was retried. */
  lemma WrittenHeirless(cfg: Config, run: seq<Label>, req: SubmitRequest, env: SubmitEnv, id: nat)
    requires Wrote(Run(cfg, run).store, SubmitCall(cfg, Run(cfg, run), req, env).0.store, id)
    ensures !HasHeir(SubmitCall(cfg, Run(cfg, run), req, env).0.store, 0, id)
  {
    var s := Run(cfg, run);
    var s1 := SubmitCall(cfg, s, req, env).0;
    RunWellFormed(cfg, run);
    RunRetryable(cfg, run);
    var written, record := SubmitShape(cfg, s, req, env);
    forall j | 0 <= j < |s1.store| && s1.store[j].replacing == Some(id) ensures s1.store[j].status.Failed? {
      if j < |s.store| {
        assert GoodRecord(cfg, s, j);
      }
    }
  }

  lemma UnsettledSubmit(cfg: Config, s: State, req: SubmitRequest, env: SubmitEnv, id: nat)
    requires Wrote(s.store, SubmitCall(cfg, s, req, env).0.store, id)
    requires env.halt || env.persist.Lost? || env.send.Ambiguous?
    ensures var tx := SubmitCall(cfg, s, req, env).0.store[id];
      tx.status.BroadcastUnknown? && !tx.eventDerived
  {
    var s0 := Opt(s, req);
    var existing := FindKey(s0.store, req.key);
    var draft := Draft(cfg, s0.store, req, env, existing).value;
    var at := if existing.Some? then existing.value else |s0.store|;
    assert SubmitCall(cfg, s, req, env) == Launch(s0, at, draft, env);
    assert id == at;
  }

  // Replacements that did or did not take

  /** The new record is the only replacement of its original that a Replace can add. */
  lemma HeirsAfter(s: State, s': State, id: nat, original: Tx, record: Tx)
    requires id < |s.store| && s'.store == s.store[id := original] + [record]
    requires original.replacing == s.store[id].replacing != Some(id) && record.replacing == Some(id)
    ensures HasHeir(s'.store, 0, id) <==> HasHeir(s.store, 0, id) || !record.status.Failed?
  {
    if HasHeir(s.store, 0, id) {
      var j :| 0 <= j < |s.store| && s.store[j].replacing == Some(id) && !s.store[j].status.Failed?;
      assert s'.store[j] == s.store[j];
    }
    if !record.status.Failed? {
      assert s'.store[|s.store|] == record;
    }
    if HasHeir(s'.store, 0, id) {
      var j :| 0 <= j < |s'.store| && s'.store[j].replacing == Some(id) && !s'.store[j].status.Failed?;
      assert j == |s.store| || s'.store[j] == s.store[j];
    }
  }

  /** The tick's repair pass reads and writes everything it needs. */
  ghost predicate Repairs(s: State, tick: TickEnv) {
    tick.replacements && LinkFrom(s.store, s.store, 0, tick.links).1
  }

  /** After a tick that completed its repair pass, a record is Replaced exactly if it was or had a surviving replacement. */
  lemma RepairedTick(s: State, confirmations: U64, tick: TickEnv, i: nat)
    requires i < |s.store| && Repairs(s, tick)
    ensures var after := RefreshCall(s, confirmations, tick).0.store;
      |after| == |s.store| && (after[i].status.Replaced? <==> s.store[i].status.Replaced? || HasHeir(s.store, 0, i))
  {
    LinkingReplaces(s.store, s.store, 0, tick.links, i);
    var linked := s.(store := LinkFrom(s.store, s.store, 0, tick.links).0);
    if !HasHeir(s.store, 0, i) {
      LinkingSkips(s.store, s.store, 0, tick.links, i);
    }
    if tick.head.Some? && tick.unfinalized {
      RefreshNeverReplaces(linked, 0, tick.head.value, confirmations, tick.views, i);
    }
  }

  /** However a Replace that persisted its record ended, the next tick that completes its repair pass decides it: the
      original is then Replaced exactly if Replace left it so, the new record was not abandoned, or an earlier
      replacement survives. */
  lemma TickDecidesReplacement(cfg: Config, run: seq<Label>, signer: Address, id: nat, pct: int, env: ReplaceEnv, confirmations: U64, tick: TickEnv)
    requires var s, s1 := Run(cfg, run), ReplaceCall(cfg, Run(cfg, run), signer, id, pct, env).0;
      |s1.store| == |s.store| + 1 && id < |s.store| && Repairs(s1, tick)
    ensures var s, s1 := Run(cfg, run), ReplaceCall(cfg, Run(cfg, run), signer, id, pct, env).0;
      var after := RefreshCall(s1, confirmations, tick).0.store;
      && |after| == |s1.store|
      && (after[id].status.Replaced? <==>
            s1.store[id].status.Replaced? || !s1.store[|s.store|].status.Failed? || HasHeir(s.store, 0, id))
  {
    var s := Run(cfg, run);
    var s1 := ReplaceCall(cfg, s, signer, id, pct, env).0;
    RunWellFormed(cfg, run);
    assert GoodRecord(cfg, s, id);
    var original, record := ReplaceShape(cfg, s, signer, id, pct, env);
    assert s1.store[|s.store|] == record;
    HeirsAfter(s, s1, id, original, record);
    RepairedTick(s1, confirmations, tick, id);
  }

  /** The manager's steps from any state. */
  function Resume(cfg: Config, s: State, steps: seq<Label>): State {
    if steps == [] then s else Step(cfg, Resume(cfg, s, steps[..|steps| - 1]), steps[|steps| - 1])
  }

  /** No step takes a record out of Replaced. */
  lemma StepKeepsReplaced(cfg: Config, s: State, step: Label, i: nat)
    requires i < |s.store| && s.store[i].status.Replaced? && !s.store[i].eventDerived
    ensures var s' := Step(cfg, s, step);
      i < |s'.store| && s'.store[i].status.Replaced? && !s'.store[i].eventDerived
  {
    match step
    case SubmitStep(req, env) =>
      var id, record := SubmitShape(cfg, s, req, env);
    case ReplaceStep(signer, id, pct, env) =>
      var original, record := ReplaceShape(cfg, s, signer, id, pct, env);
    case RefreshStep(confirmations, env) =>
      RefreshShape(s, confirmations, env);
      assert TickMove(s.store[i], Step(cfg, s, step).store[i]);
    case ProjectStep(slot, tx) =>
  }

  /** Once Replaced, always Replaced, whatever calls follow and whatever they are answered. */
  lemma {:induction false} ReplacedForever(cfg: Config, s: State, steps: seq<Label>, i: nat)
    requires i < |s.store| && s.store[i].status.Replaced? && !s.store[i].eventDerived
    ensures var t := Resume(cfg, s, steps);
      i < |t.store| && t.store[i].status.Replaced? && !t.store[i].eventDerived
    decreases |steps|
  {
    if steps != [] {
      ReplacedForever(cfg, s, steps[..|steps| - 1], i);
      StepKeepsReplaced(cfg, Resume(cfg, s, steps[..|steps| - 1]), steps[|steps| - 1], i);
    }
  }

  ghost predicate AllTicks(steps: seq<Label>) {
    forall k :: 0 <= k < |steps| ==> steps[k].RefreshStep?
  }

  lemma TickKeepsUnlinked(s: State, confirmations: U64, env: TickEnv, i: nat)
    requires Unlinked(s, i) && FailedHeirless(s.store)
    ensures Unlinked(RefreshCall(s, confirmations, env).0, i)
  {
    var t := RefreshCall(s, confirmations, env).0;
    RefreshShape(s, confirmations, env);
    TickReplacesOnlyLinked(s, confirmations, env, i);
    if HasHeir(t.store, 0, i) {
      var j :| 0 <= j < |t.store| && t.store[j].replacing == Some(i) && !t.store[j].status.Failed?;
      assert TickMove(s.store[j], t.store[j]);
      if s.store[j].status.Failed? {
        FailedStays(s, confirmations, env, j);
      }
    }
  }

  lemma {:induction false} TicksKeepUnlinked(cfg: Config, s: State, ticks: seq<Label>, i: nat)
    requires WellFormed(cfg, s) && FailedHeirless(s.store) && Unlinked(s, i) && AllTicks(ticks)
    ensures var t := Resume(cfg, s, ticks);
      WellFormed(cfg, t) && FailedHeirless(t.store) && Unlinked(t, i)
    decreases |ticks|
  {
    if ticks != [] {
      var prior, tick := ticks[..|ticks| - 1], ticks[|ticks| - 1];
      TicksKeepUnlinked(cfg, s, prior, i);
      TickKeepsUnlinked(Resume(cfg, s, prior), tick.confirmations, tick.tenv, i);
      StepWellFormed(cfg, Resume(cfg, s, prior), tick);
      StepFailedHeirless(cfg, Resume(cfg, s, prior), tick);
    }
  }

  /** No sequence of ticks, whatever they are answered, ever makes the record Replaced. */
  ghost predicate StaysUndone(cfg: Config, s: State, i: nat) {
    forall ticks :: AllTicks(ticks) ==> NotReplaced(Resume(cfg, s, ticks), i)
  }

  ghost predicate NotReplaced(s: State, i: nat) {
    i < |s.store| && !s.store[i].status.Replaced?
  }

  /** A Replace whose broadcast was definitely rejected. */
  ghost predicate RejectedReplace(cfg: Config, s: State, signer: Address, id: nat, pct: int, env: ReplaceEnv) {
    && id < |s.store|
    && |ReplaceCall(cfg, s, signer, id, pct, env).0.store| == |s.store| + 1
    && env.persist.Stored? && env.link.Linked? && !env.halt && env.send.Rejected?
  }

  /** The state a rejected Replace leaves, by the fate of its two settling writes. */
  lemma RejectedShape(cfg: Config, s: State, signer: Address, id: nat, pct: int, env: ReplaceEnv)
    requires RejectedReplace(cfg, s, signer, id, pct, env)
    ensures var s1 := ReplaceCall(cfg, s, signer, id, pct, env).0;
      && s.store[id].status.Pending?
      && (s1.store[|s.store|].status.Failed? <==> env.settleNew != Lost(false))
      && (s1.store[id].status.Replaced? <==> env.settleOld == Lost(false))
      && (env.settleOld != Lost(false) ==>
            s1.store[id] == s.store[id].(replacedBy := None, count := s.store[id].count + 1, version := s.store[id].version + 2))
  {
    var original, record := ReplaceShape(cfg, s, signer, id, pct, env);
  }

  const SILENT := Chain(_ => None, _ => None, _ => 0, 0)

  lemma OneTick(cfg: Config, s: State, step: Label)
    ensures Resume(cfg, s, [step]) == Step(cfg, s, step)
  {
    assert [step][..0] == [];
    assert Resume(cfg, s, [step][..0]) == s;
  }

  lemma CalmTickRepairs(s: State)
    ensures Repairs(s, FixedTick(s.store, SILENT))
  {
    if s.store != [] {
      LinkFromResult(s.store, s.store, 0, FixedTick(s.store, SILENT).links, 0);
    }
  }

  /** A rejected replacement is undone for good exactly when both settling writes took effect and no earlier
      replacement of the original survives. Otherwise the original stays Replaced, or the next tick relinks it. */
  lemma RejectedReplaceUndoneExactly(cfg: Config, run: seq<Label>, signer: Address, id: nat, pct: int, env: ReplaceEnv)
    requires RejectedReplace(cfg, Run(cfg, run), signer, id, pct, env)
    ensures StaysUndone(cfg, ReplaceCall(cfg, Run(cfg, run), signer, id, pct, env).0, id)
      <==> env.settleNew != Lost(false) && env.settleOld != Lost(false) && !HasHeir(Run(cfg, run).store, 0, id)
  {
    var s := Run(cfg, run);
    var s1 := ReplaceCall(cfg, s, signer, id, pct, env).0;
    RunWellFormed(cfg, run);
    RejectedShape(cfg, s, signer, id, pct, env);
    assert GoodRecord(cfg, s, id);
    var original, record := ReplaceShape(cfg, s, signer, id, pct, env);
    HeirsAfter(s, s1, id, original, record);
    RunFailedHeirless(cfg, run);
    StepWellFormed(cfg, s, ReplaceStep(signer, id, pct, env));
    StepFailedHeirless(cfg, s, ReplaceStep(signer, id, pct, env));
    if env.settleNew != Lost(false) && env.settleOld != Lost(false) && !HasHeir(s.store, 0, id) {
      forall ticks | AllTicks(ticks) ensures NotReplaced(Resume(cfg, s1, ticks), id) {
        TicksKeepUnlinked(cfg, s1, ticks, id);
      }
    } else {
      var tick := RefreshStep(0, FixedTick(s1.store, SILENT));
      CalmTickRepairs(s1);
      TickDecidesReplacement(cfg, run, signer, id, pct, env, 0, FixedTick(s1.store, SILENT));
      OneTick(cfg, s1, tick);
      assert AllTicks([tick]) && !NotReplaced(Resume(cfg, s1, [tick]), id);
    }
  }

  /** When the original's write is lost it is stranded: its broadcast is followed no more, whatever calls follow. */
  lemma LostUndoStrandsOriginal(cfg: Config, run: seq<Label>, signer: Address, id: nat, pct: int, env: ReplaceEnv, steps: seq<Label>)
    requires RejectedReplace(cfg, Run(cfg, run), signer, id, pct, env) && env.settleOld == Lost(false)
    ensures var t := Resume(cfg, ReplaceCall(cfg, Run(cfg, run), signer, id, pct, env).0, steps);
      id < |t.store| && t.store[id].status.Replaced?
  {
    var s := Run(cfg, run);
    RunWellFormed(cfg, run);
    RejectedShape(cfg, s, signer, id, pct, env);
    assert GoodRecord(cfg, s, id);
    var original, record := ReplaceShape(cfg, s, signer, id, pct, env);
    ReplacedForever(cfg, ReplaceCall(cfg, s, signer, id, pct, env).0, steps, id);
  }
}
