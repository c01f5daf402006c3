/** What one Submit, Replace or RefreshStatuses call does to the store, as a function of every answer it gets. */
module TxSpec {
  import opened Options
  import opened Words
  import opened Fees
  import opened TxRecords

  /** A store write as its caller sees it: done, or failed with the write applied or not.
      A crash around the write looks the same to whoever comes next. */
  datatype WriteAck = Stored | Lost(applied: bool)

  /** SendTransaction's result after error classification. */
  datatype SendOutcome = Accepted | Rejected | Ambiguous

  /** One call of SendTransaction, on behalf of a record. */
  datatype Send = Send(record: nat, tx: Signed, outcome: SendOutcome)

  datatype Config = Config(mode: FeeMode, caps: FeeCaps, maxReplacements: int)

  /** The store, and as history every broadcast and every signer or key that opted into reorg retries. */
  datatype State = State(store: Store, sends: seq<Send>, relaxedSigners: set<Address>, relaxedKeys: set<string>)

  const INIT := State([], [], {}, {})

  datatype SubmitRequest = SubmitRequest(key: string, signer: Address, call: Call, allow: bool)

  /** Everything outside the manager that a Submit depends on; None is a failed call. */
  datatype SubmitEnv = SubmitEnv(
    queries: bool, // repository reads and the lease succeed
    pending: Option<U64>,
    latest: Option<U64>,
    quote: FeeQuote,
    seal: Option<nat>,
    persist: WriteAck,
    halt: bool, // crash between persistence and broadcast
    send: SendOutcome,
    settle: WriteAck)

  datatype CallResult = Done(id: nat) | Known(id: nat) | Error

  function WriteUnless(store: Store, id: nat, tx: Tx, ack: WriteAck): (r: Store)
    requires id <= |store|
  {
    if ack == Lost(false) then store else Put(store, id, tx)
  }

  function Archive(tx: Tx): seq<Attempt> {
    tx.attempts + [Attempt(tx.nonce, tx.raw, tx.status)]
  }

  /** The signed record a Submit is about to persist, or None if it stops before that. */
  function Draft(cfg: Config, store: Store, req: SubmitRequest, env: SubmitEnv, existing: Option<nat>): Option<Tx>
    requires existing.Some? ==> existing.value < |store|
  {
    if env.pending.None? || env.latest.None? then None else
    var nonce := NextNonce(store, req.signer, Max(env.pending.value, env.latest.value));
    var priced := BuildTx(cfg.mode, cfg.caps, env.quote, req.call.value);
    if priced.None? || env.seal.None? then None else
    var raw := Signed(req.signer, nonce, req.call, priced.value.gas, priced.value.fees, env.seal.value);
    var attempts := if existing.Some? then Archive(store[existing.value]) else [];
    Some(Tx(req.key, req.signer, req.call, nonce, raw, BroadcastUnknown, 0, 0, None, None, 0, req.allow, 0, attempts, false))
  }

  function Opt(s: State, req: SubmitRequest): State {
    if req.allow
    then s.(relaxedSigners := s.relaxedSigners + {req.signer}, relaxedKeys := s.relaxedKeys + {req.key})
    else s
  }

  function SubmitCall(cfg: Config, s: State, req: SubmitRequest, env: SubmitEnv): (State, CallResult) {
    var s := Opt(s, req);
    if !env.queries || Blocked(s.store, req.signer) then (s, Error) else
    var existing := FindKey(s.store, req.key);
    if existing.Some? && !Retryable(s.store[existing.value]) then (s, Known(existing.value)) else
    var draft := Draft(cfg, s.store, req, env, existing);
    if draft.None? then (s, Error) else
    Launch(s, if existing.Some? then existing.value else |s.store|, draft.value, env)
  }

  /** Persist, broadcast, settle. */
  function Launch(s: State, id: nat, record: Tx, env: SubmitEnv): (State, CallResult)
    requires id <= |s.store|
  {
    var s1 := s.(store := WriteUnless(s.store, id, record, env.persist));
    if env.persist.Lost? || env.halt then (s1, Error) else
    var s2 := s1.(sends := s1.sends + [Send(id, record.raw, env.send)]);
    match env.send
    case Ambiguous => (s2, Error)
    case Rejected => (s2.(store := WriteUnless(s2.store, id, record.(status := Failed), env.settle)), Error)
    case Accepted =>
      (s2.(store := WriteUnless(s2.store, id, record.(status := Pending), env.settle)),
       if env.settle.Stored? then Done(id) else Error)
  }

  /** The conditional write that links an original to its replacement. */
  datatype LinkAck = Linked | Conflict | LinkLost(applied: bool)

  datatype ReplaceEnv = ReplaceEnv(
    queries: bool,
    quote: FeeQuote,
    seal: Option<nat>,
    mark: WriteAck, // the NeedsIntervention write
    persist: WriteAck,
    link: LinkAck,
    halt: bool,
    send: SendOutcome,
    settleNew: WriteAck,
    settleOld: WriteAck)

  /** The replacement record, or None if Replace stops before persisting one. */
  function ReplacementDraft(cfg: Config, store: Store, id: nat, pct: int, env: ReplaceEnv): Option<Tx>
    requires id < |store|
  {
    var original := store[id];
    var decoded := if Encodable(original.raw.fees) then Some(original.raw.fees) else None;
    var priced := BuildBumpedTx(cfg.mode, cfg.caps, env.quote, original.call.value, pct, decoded);
    if priced.None? || env.seal.None? || !Encodable(priced.value.fees) then None else
    var raw := Signed(original.from, original.nonce, original.call, priced.value.gas, priced.value.fees, env.seal.value);
    Some(Tx("", original.from, original.call, original.nonce, raw, BroadcastUnknown, 0, 0, None, Some(id), original.count + 1, false, 0, [], false))
  }

  function ReplaceCall(cfg: Config, s: State, signer: Address, id: nat, pct: int, env: ReplaceEnv): (State, CallResult) {
    if pct <= 0 || !env.queries || id >= |s.store| then (s, Error) else
    var original := s.store[id];
    if !original.status.Pending? || original.from != signer then (s, Error)
    else if cfg.maxReplacements > 0 && original.count + 1 > cfg.maxReplacements then
      (s.(store := WriteUnless(s.store, id, original.(status := NeedsIntervention), env.mark)), Error)
    else
      var draft := ReplacementDraft(cfg, s.store, id, pct, env);
      if draft.None? then (s, Error) else Supersede(s, id, draft.value, env)
  }

  /** Persist the replacement, link the original, broadcast, settle or undo. */
  function Supersede(s: State, id: nat, record: Tx, env: ReplaceEnv): (State, CallResult)
    requires id < |s.store|
  {
    var original := s.store[id];
    var next := |s.store|;
    var s1 := s.(store := WriteUnless(s.store, next, record, env.persist));
    if env.persist.Lost? then (s1, Error) else
    var linked := original.(status := Replaced, replacedBy := Some(next), version := original.version + 1);
    if env.link.Conflict? then
      (s1.(store := WriteUnless(s1.store, next, record.(status := Failed), env.settleNew)), Error)
    else if env.link == LinkLost(false) then (s1, Error) else
    var s2 := s1.(store := Put(s1.store, id, linked));
    if env.link.LinkLost? || env.halt then (s2, Error) else
    var s3 := s2.(sends := s2.sends + [Send(next, record.raw, env.send)]);
    match env.send
    case Ambiguous => (s3, Error)
    case Rejected =>
      var store1 := WriteUnless(s3.store, next, record.(status := Failed), env.settleNew);
      var restored := original.(replacedBy := None, count := record.count, version := original.version + 2);
      (s3.(store := WriteUnless(store1, id, restored, env.settleOld)), Error)
    case Accepted =>
      (s3.(store := WriteUnless(s3.store, next, record.(status := Pending), env.settleNew)),
       if env.settleNew.Stored? then Done(next) else Error)
  }

  // RefreshStatuses

  const REORG_WINDOW: U64 := 256

  datatype ReceiptAnswer = NoReceipt | Receipt(success: bool, block: U64, blockHash: nat) | ReceiptError
  datatype HeaderAnswer = Header(hash: nat) | NoHeader | HeaderError

  /** What a tick is told about one record, and how its write and rebroadcast go. */
  datatype RecordView = RecordView(receipt: ReceiptAnswer, header: HeaderAnswer, latest: Option<U64>, send: SendOutcome, write: WriteAck)

  datatype LinkView = LinkView(read: bool, write: WriteAck)

  datatype TickEnv = TickEnv(
    replacements: bool, // ListReplacements succeeds
    links: nat -> LinkView,
    head: Option<U64>,
    unfinalized: bool, // ListUnfinalized succeeds
    views: nat -> RecordView)

  /** What refreshing one record comes to. */
  datatype Verdict = Keep | Write(status: Status, block: U64, blockHash: nat) | Rebroadcast | Abort

  function MarkedReorged(tx: Tx): Verdict {
    if tx.status.Reorged? then Keep else Write(Reorged, tx.block, tx.blockHash)
  }

  function HandleMissingReceipt(tx: Tx, latest: Option<U64>): Verdict {
    match tx.status
    case BroadcastUnknown | Pending =>
      if latest.None? then Abort
      else if latest.value > tx.nonce then Write(NonceConsumedExternally, tx.block, tx.blockHash)
      else if tx.status.BroadcastUnknown? then Rebroadcast
      else Keep
    case Mined | Confirmed | Reverted | Reorged => MarkedReorged(tx)
    case _ => Keep
  }

  function ReceiptStatus(success: bool, block: U64, head: U64, confirmations: U64): Status {
    if !success then Reverted else if head >= Add64(block, confirmations) then Confirmed else Mined
  }

  /** A zero block hash skips the canonical comparison. */
  function HandleReceipt(tx: Tx, success: bool, block: U64, blockHash: nat, header: HeaderAnswer, head: U64, confirmations: U64): Verdict {
    if blockHash != 0 && header.HeaderError? then Abort
    else if blockHash != 0 && header != Header(blockHash) then MarkedReorged(tx)
    else
      var status := ReceiptStatus(success, block, head, confirmations);
      if status == tx.status && block == tx.block && blockHash == tx.blockHash then Keep
      else Write(status, block, blockHash)
  }

  function Judge(tx: Tx, view: RecordView, head: U64, confirmations: U64): Verdict {
    match view.receipt
    case ReceiptError => Abort
    case NoReceipt => HandleMissingReceipt(tx, view.latest)
    case Receipt(success, block, blockHash) => HandleReceipt(tx, success, block, blockHash, view.header, head, confirmations)
  }

  function Cutoff(confirmations: U64): U64 {
    Add64(confirmations, REORG_WINDOW)
  }

  function ConfirmedFrom(head: U64, confirmations: U64): U64 {
    if head > Cutoff(confirmations) then head - Cutoff(confirmations) else 0
  }

  /** The repository's work filter. */
  predicate Unfinalized(tx: Tx, confirmedFrom: U64) {
    match tx.status
    case Replaced | Failed => false
    case Confirmed => tx.block >= confirmedFrom
    case _ => true
  }

  predicate IsFinal(tx: Tx, head: U64, confirmations: U64) {
    match tx.status
    case Replaced | Failed => true
    case Confirmed => head >= Add64(Add64(tx.block, confirmations), REORG_WINDOW)
    case _ => false
  }

  /** Whether a tick looks at this record at all. */
  predicate Visited(tx: Tx, head: U64, confirmations: U64) {
    Unfinalized(tx, ConfirmedFrom(head, confirmations)) && !tx.eventDerived && !IsFinal(tx, head, confirmations)
  }

  /** One replacement's repair of its original; `ok` is false once the pass must stop. */
  function LinkOne(store: Store, snapshot: Store, i: nat, view: LinkView): (r: (Store, bool))
    requires i < |snapshot| == |store|
    ensures |r.0| == |store|
  {
    var tx := snapshot[i];
    if tx.replacing.None? || tx.replacing.value >= |store| || tx.status.Failed? then (store, true)
    else if !view.read then (store, false)
    else
      var original := store[tx.replacing.value];
      if original.status.Replaced? then (store, true) else
      (WriteUnless(store, tx.replacing.value, original.(status := Replaced, replacedBy := Some(i)), view.write), view.write.Stored?)
  }

  function LinkFrom(store: Store, snapshot: Store, i: nat, links: nat -> LinkView): (r: (Store, bool))
    requires i <= |snapshot| == |store|
    ensures |r.0| == |store|
    decreases |snapshot| - i
  {
    if i == |snapshot| then (store, true) else
    var (store1, ok) := LinkOne(store, snapshot, i, links(i));
    if ok then LinkFrom(store1, snapshot, i + 1, links) else (store1, false)
  }

  /** The write or rebroadcast a verdict asks for; false once the tick must stop. */
  function CarryOut(s: State, i: nat, verdict: Verdict, view: RecordView): (r: (State, bool))
    requires i < |s.store|
    ensures |r.0.store| == |s.store|
  {
    match verdict
    case Keep => (s, true)
    case Abort => (s, false)
    case Rebroadcast => (s.(sends := s.sends + [Send(i, s.store[i].raw, view.send)]), true)
    case Write(status, block, blockHash) =>
      (s.(store := WriteUnless(s.store, i, s.store[i].(status := status, block := block, blockHash := blockHash), view.write)), view.write.Stored?)
  }

  function RefreshOne(s: State, i: nat, head: U64, confirmations: U64, view: RecordView): (r: (State, bool))
    requires i < |s.store|
    ensures |r.0.store| == |s.store|
  {
    if !Visited(s.store[i], head, confirmations) then (s, true)
    else CarryOut(s, i, Judge(s.store[i], view, head, confirmations), view)
  }

  function RefreshFrom(s: State, i: nat, head: U64, confirmations: U64, views: nat -> RecordView): (r: (State, bool))
    requires i <= |s.store|
    ensures |r.0.store| == |s.store|
    decreases |s.store| - i
  {
    if i == |s.store| then (s, true) else
    var (s1, ok) := RefreshOne(s, i, head, confirmations, views(i));
    if ok then RefreshFrom(s1, i + 1, head, confirmations, views) else (s1, false)
  }

  function RefreshCall(s: State, confirmations: U64, env: TickEnv): (State, bool) {
    if !env.replacements then (s, false) else
    var (store, ok) := LinkFrom(s.store, s.store, 0, env.links);
    var s1 := s.(store := store);
    if !ok || env.head.None? || !env.unfinalized then (s1, false) else
    RefreshFrom(s1, 0, env.head.value, confirmations, env.views)
  }

  // Runs

  /** The event projector's records: no key, no signed payload, nonce 0. */
  predicate ProjectorShape(tx: Tx) {
    tx.eventDerived && tx.key == "" && tx.replacing.None? && !tx.allow && tx.nonce == 0 && tx.count == 0
    && tx.attempts == [] && (tx.status.Confirmed? || tx.status.Reorged?)
  }

  datatype Label =
    | SubmitStep(req: SubmitRequest, senv: SubmitEnv)
    | ReplaceStep(signer: Address, id: nat, pct: int, renv: ReplaceEnv)
    | RefreshStep(confirmations: U64, tenv: TickEnv)
    | ProjectStep(slot: nat, tx: Tx)

  function Step(cfg: Config, s: State, step: Label): State {
    match step
    case SubmitStep(req, env) => SubmitCall(cfg, s, req, env).0
    case ReplaceStep(signer, id, pct, env) => ReplaceCall(cfg, s, signer, id, pct, env).0
    case RefreshStep(confirmations, env) => RefreshCall(s, confirmations, env).0
    case ProjectStep(slot, tx) =>
      if ProjectorShape(tx) && slot <= |s.store| && (slot < |s.store| ==> s.store[slot].eventDerived)
      then s.(store := Put(s.store, slot, tx)) else s
  }

  /** The state after a whole run from an empty store. */
  function Run(cfg: Config, run: seq<Label>): State {
    if run == [] then INIT else Step(cfg, Run(cfg, run[..|run| - 1]), run[|run| - 1])
  }
}
