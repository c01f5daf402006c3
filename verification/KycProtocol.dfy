/** The KYC inbox and outbox as atomic steps: deliveries, claim finalization, one reconciler, crashes anywhere. */
module KycProtocol {
  import opened Options
  import opened Strings
  import opened TxRecords
  import opened TxSpec

  datatype ApplyStatus = Claiming | Accepted | Applying | Applied | Superseded | Failed | Recorded

  /** One stored decision; its id is its position, and only `status` and `txId` ever change. */
  datatype Event = Event(
    address: Address,
    provider: string,
    eventId: string,
    outcome: string,
    occurredAt: int,
    validUntil: nat,
    payload: string, // the replay hash of the delivery body
    status: ApplyStatus,
    txId: Option<nat>)

  /** The (occurredAt, eventKey) pair that orders an address's decisions. */
  datatype Claim = Claim(occurredAt: int, key: string)

  function EventKey(e: Event): string {
    Join(e.provider, '|', e.eventId)
  }

  function ClaimOf(e: Event): Claim {
    Claim(e.occurredAt, EventKey(e))
  }

  predicate Newer(a: Claim, b: Claim) {
    a.occurredAt > b.occurredAt || (a.occurredAt == b.occurredAt && Less(b.key, a.key))
  }

  lemma NewerTransitive(a: Claim, b: Claim, c: Claim)
    requires Newer(a, b) && Newer(b, c)
    ensures Newer(a, c)
  {
    if a.occurredAt == c.occurredAt {
      LessTransitive(c.key, b.key, a.key);
    }
  }

  lemma NewerTotal(a: Claim, b: Claim)
    ensures a == b || Newer(a, b) || Newer(b, a)
    ensures !(Newer(a, b) && Newer(b, a)) && !Newer(a, a)
  {
    LessTotal(a.key, b.key);
    LessIrreflexive(a.key);
    if Less(a.key, b.key) {
      LessAsymmetric(a.key, b.key);
    }
  }

  /** `a` at most `b`, `b` at most `c`: the order is total. */
  lemma NotNewerTransitive(a: Claim, b: Claim, c: Claim)
    requires !Newer(a, b) && !Newer(b, c)
    ensures !Newer(a, c)
  {
    NewerTotal(a, b);
    NewerTotal(b, c);
    NewerTotal(a, c);
    if Newer(b, a) && Newer(c, b) {
      NewerTransitive(c, b, a);
    }
  }

  lemma NewerThanOlder(a: Claim, b: Claim, c: Claim)
    requires !Newer(b, a) && Newer(b, c)
    ensures Newer(a, c)
  {
    NewerTotal(a, b);
    if a != b {
      NewerTransitive(a, b, c);
    }
  }

  type Claims = map<Address, Claim>

  /** The repository's compare-and-set: a later pair, or the first one, takes the address. */
  function ClaimLatest(claims: Claims, address: Address, claim: Claim): (Claims, bool) {
    if address !in claims || Newer(claim, claims[address]) then (claims[address := claim], true) else (claims, false)
  }

  /** Whether the address's current claim carries this event's key. */
  predicate HoldsClaim(claims: Claims, e: Event) {
    e.address in claims && claims[e.address].key == EventKey(e)
  }

  function FinalStatus(e: Event, holds: bool): ApplyStatus {
    if !holds then Superseded else if e.outcome == "Pending" then Recorded else ApplyStatus.Accepted
  }

  // finalizeClaim, one store operation at a time

  datatype Stage = Start | Beaten | Decided(holds: bool)

  /** A running finalizeClaim with its own copy of the event. */
  datatype Worker = Worker(id: nat, e: Event, stage: Stage)

  datatype Job = Job(id: nat, e: Event)

  /** Where the reconciler stands with the first job of its queue. */
  datatype Phase =
    | Fetch
    | Finalizing(worker: Worker)
    | Cleared // passed the supersede check
    | Writing(next: Event)

  datatype Reconciler = Idle | Busy(queue: seq<Job>, phase: Phase)

  /** One SetStatus call on behalf of a decision. */
  datatype Handed = Handed(address: Address, claim: Claim)

  datatype System = System(
    events: seq<Event>,
    claims: Claims,
    tx: State,
    handed: seq<Handed>, // history
    workers: seq<Worker>,
    reconciler: Reconciler)

  const START := System([], map[], INIT, [], [], Idle)

  datatype GuardAnswer = Admit | Refuse | GuardError

  datatype Settings = Settings(tx: Config, contract: Address, signer: Address, relays: bool, guarded: bool)

  datatype Action =
    | Deliver(e: Event)
    | WorkerRuns(w: nat)
    | WorkerDies(w: nat)
    | List(ids: seq<nat>)
    | Advance(env: SubmitEnv, guard: GuardAnswer)
    | Skip
    | Crash
    | Manager(step: Label)

  function UpdateEvent(s: System, id: nat, e: Event): System {
    if id < |s.events| then s.(events := s.events[id := e]) else s
  }

  /** One atomic operation of a finalizer; None once it has written its verdict. */
  function WorkerStep(s: System, w: Worker): (System, Option<Worker>) {
    match w.stage
    case Start =>
      var (claims, won) := ClaimLatest(s.claims, w.e.address, ClaimOf(w.e));
      (s.(claims := claims), Some(w.(stage := if won then Decided(true) else Beaten)))
    case Beaten => (s, Some(w.(stage := Decided(HoldsClaim(s.claims, w.e)))))
    case Decided(holds) => (UpdateEvent(s, w.id, w.e.(status := FinalStatus(w.e, holds))), None)
  }

  /** Create's uniqueness: neither the body hash nor the (provider, eventId) pair is stored yet. */
  predicate Fresh(events: seq<Event>, e: Event) {
    forall i :: 0 <= i < |events| ==> events[i].payload != e.payload && (events[i].provider, events[i].eventId) != (e.provider, e.eventId)
  }

  predicate Deliverable(e: Event) {
    && e.status.Claiming? && e.txId.None? && e.provider != "" && e.eventId != ""
    && (e.outcome == "Allowed" || e.outcome == "Blocked" || e.outcome == "Pending")
  }

  /** ListPending and ListAppliedWithTx. */
  predicate Listed(e: Event) {
    e.status.Claiming? || e.status.Accepted? || e.status.Applying? || (e.status.Applied? && e.txId.Some?)
  }

  function Jobs(events: seq<Event>, ids: seq<nat>): seq<Job> {
    if ids == [] then []
    else if ids[0] < |events| && Listed(events[ids[0]]) then [Job(ids[0], events[ids[0]])] + Jobs(events, ids[1..])
    else Jobs(events, ids[1..])
  }

  function Next(s: System): System
    requires s.reconciler.Busy? && s.reconciler.queue != []
  {
    s.(reconciler := Busy(s.reconciler.queue[1..], Fetch))
  }

  function Stay(s: System, phase: Phase): System
    requires s.reconciler.Busy?
  {
    s.(reconciler := Busy(s.reconciler.queue, phase))
  }

  function StatusFromString(outcome: string): Option<nat> {
    match outcome
    case "Unknown" => Some(0)
    case "Allowed" => Some(1)
    case "Blocked" => Some(2)
    case _ => None
  }

  const KEY_PREFIX := "kyc-status:"

  function TxKey(e: Event): string {
    KEY_PREFIX + EventKey(e)
  }

  function StatusRequest(cfg: Settings, e: Event, status: nat): SubmitRequest {
    SubmitRequest(TxKey(e), cfg.signer, Call(cfg.contract, SetStatus(e.address, status, e.validUntil), 0), true)
  }

  /** The outcome of checkSubmitted for a linked transaction; None leaves the event as it is. */
  function CheckSubmitted(e: Event, status: Status): Option<Event> {
    match status
    case Confirmed => Some(e.(status := Applied))
    case Reverted => Some(e.(status := ApplyStatus.Failed))
    case Failed | Reorged => Some(e.(status := ApplyStatus.Accepted, txId := None))
    case _ => None
  }

  /** First look at a job: recover, reopen, or supersede-check it. */
  function FetchStep(s: System, job: Job): System
    requires s.reconciler.Busy? && s.reconciler.queue != []
  {
    match job.e.status
    case Claiming => Stay(s, Finalizing(Worker(job.id, job.e, Start)))
    case Applied =>
      if job.e.txId.Some? && job.e.txId.value < |s.tx.store| && s.tx.store[job.e.txId.value].status.Reorged?
      then Stay(s, Writing(job.e.(status := ApplyStatus.Accepted, txId := None))) else Next(s)
    case _ =>
      if job.e.address in s.claims && !HoldsClaim(s.claims, job.e)
      then Stay(s, Writing(job.e.(status := Superseded))) else Stay(s, Cleared)
  }

  /** Submitting an Accepted decision or following an Applying one. */
  function ClearedStep(cfg: Settings, s: System, job: Job, env: SubmitEnv, guard: GuardAnswer): System
    requires s.reconciler.Busy? && s.reconciler.queue != []
  {
    if job.e.status.Accepted? then
      var status := StatusFromString(job.e.outcome);
      if !cfg.relays then Next(s)
      else if status.None? then Stay(s, Writing(job.e.(status := ApplyStatus.Failed)))
      else if job.e.outcome == "Allowed" && cfg.guarded && guard.GuardError? then Next(s)
      else if job.e.outcome == "Allowed" && cfg.guarded && guard.Refuse? then Stay(s, Writing(job.e.(status := ApplyStatus.Failed)))
      else
        var (tx, result) := SubmitCall(cfg.tx, s.tx, StatusRequest(cfg, job.e, status.value), env);
        var s1 := s.(tx := tx, handed := s.handed + [Handed(job.e.address, ClaimOf(job.e))]);
        if result.Error? then Next(s1) else Stay(s1, Writing(job.e.(status := Applying, txId := Some(result.id))))
    else if job.e.txId.None? then Stay(s, Writing(job.e.(status := ApplyStatus.Accepted)))
    else if job.e.txId.value >= |s.tx.store| then Next(s)
    else
      var next := CheckSubmitted(job.e, s.tx.store[job.e.txId.value].status);
      if next.None? then Next(s) else Stay(s, Writing(next.value))
  }

  /** The reconciler's next atomic operation. */
  function AdvanceStep(cfg: Settings, s: System, env: SubmitEnv, guard: GuardAnswer): System
    requires s.reconciler.Busy?
  {
    if s.reconciler.queue == [] then s.(reconciler := Idle) else
    var job := s.reconciler.queue[0];
    match s.reconciler.phase
    case Fetch => FetchStep(s, job)
    case Finalizing(worker) =>
      var (s1, w) := WorkerStep(s, worker);
      if w.Some? then Stay(s1, Finalizing(w.value)) else Next(s1)
    case Cleared => ClearedStep(cfg, s, job, env, guard)
    case Writing(next) => Next(UpdateEvent(s, job.id, next))
  }

  function Act(cfg: Settings, s: System, action: Action): System {
    match action
    case Deliver(e) =>
      if Deliverable(e) && Fresh(s.events, e)
      then s.(events := s.events + [e], workers := s.workers + [Worker(|s.events|, e, Start)]) else s
    case WorkerRuns(w) =>
      if w >= |s.workers| then s else
      var (s1, next) := WorkerStep(s, s.workers[w]);
      if next.Some? then s1.(workers := s.workers[w := next.value]) else s1.(workers := s.workers[..w] + s.workers[w + 1..])
    case WorkerDies(w) => if w >= |s.workers| then s else s.(workers := s.workers[..w] + s.workers[w + 1..])
    case List(ids) => if s.reconciler.Idle? then s.(reconciler := Busy(Jobs(s.events, ids), Fetch)) else s
    case Advance(env, guard) => if s.reconciler.Busy? then AdvanceStep(cfg, s, env, guard) else s
    case Skip => if s.reconciler.Busy? && s.reconciler.queue != [] then Next(s) else s
    case Crash => s.(workers := [], reconciler := Idle)
    case Manager(step) => s.(tx := Step(cfg.tx, s.tx, step))
  }

  function Execute(cfg: Settings, actions: seq<Action>): System {
    if actions == [] then START else Act(cfg, Execute(cfg, actions[..|actions| - 1]), actions[|actions| - 1])
  }
}
