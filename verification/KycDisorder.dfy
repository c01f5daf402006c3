/** When decisions reach SetStatus or the chain out of order: exactly when event keys or idempotency keys are shared. */
module KycDisorder {
  import opened Options
  import opened Words
  import opened Strings
  import opened Fees
  import opened TxRecords
  import opened TxSpec
  import opened TxConvergence
  import opened TxOrder
  import opened KycProtocol
  import opened KycClaims
  import opened KycOrder
  import opened KycNonces
  import opened KycServers

  /** A server that relays every decision, with one signer and no caps or guard. */
  const RELAY := Settings(Config(LegacyOnly, FeeCaps(None, None, None), 0), 0, 0, true, false)

  /** A node that accepts everything and has mined nothing. */
  const GRANT := SubmitEnv(true, Some(0), Some(0), FeeQuote(Some(1), None, None, Some(1)), Some(0), Stored, false, SendOutcome.Accepted, Stored)

  const EMPTY_CHAIN := Chain(_ => None, _ => None, _ => 0, 0)

  function SignedGrant(nonce: U64, call: Call): Signed {
    Signed(0, nonce, call, BufferedGas(1), Legacy(1), 0)
  }

  function GrantRecord(req: SubmitRequest, nonce: U64): Tx {
    Tx(req.key, 0, req.call, nonce, SignedGrant(nonce, req.call), Pending, 0, 0, None, None, 0, req.allow, 0, [], false)
  }

  /** A Submit under a new key is granted the next nonce. */
  lemma GrantsNext(s: State, req: SubmitRequest, nonce: U64)
    requires req.signer == 0 && req.call.value == 0 && !Blocked(s.store, 0)
    requires NextNonce(s.store, 0, 0) == nonce && FindKey(s.store, req.key).None?
    ensures SubmitCall(RELAY.tx, s, req, GRANT).0.store == s.store + [GrantRecord(req, nonce)]
    ensures SubmitCall(RELAY.tx, s, req, GRANT).1 == Done(|s.store|)
  {
    var s0, record := Opt(s, req), GrantRecord(req, nonce).(status := BroadcastUnknown);
    assert BuildTx(LegacyOnly, RELAY.tx.caps, GRANT.quote, 0) == Some(Priced(BufferedGas(1), Legacy(1)));
    assert Draft(RELAY.tx, s0.store, req, GRANT, None) == Some(record);
    assert Launch(s0, |s0.store|, record, GRANT).0.store == s.store + [GrantRecord(req, nonce)];
  }

  // Pieces of runs

  lemma TwoActions(cfg: Settings, s: System, a: Action, b: Action)
    ensures Continue(cfg, s, [a, b]) == Act(cfg, Act(cfg, s, a), b)
  {
    OneAction(cfg, s, a, [b]);
    OneAction(cfg, Act(cfg, s, a), b, []);
    assert [a] + [b] == [a, b] && [b] + [] == [b];
  }

  /** A delivery that takes its wallet's claim. */
  function Takes(e: Event): seq<Action> {
    [Deliver(e)] + [WorkerRuns(0), WorkerRuns(0)]
  }

  lemma Taken(s: System, e: Event)
    requires s.workers == [] && Deliverable(e) && Fresh(s.events, e) && e.outcome != "Pending"
    requires e.address !in s.claims || Newer(ClaimOf(e), s.claims[e.address])
    ensures Continue(RELAY, s, Takes(e)) ==
      s.(events := s.events + [e.(status := ApplyStatus.Accepted)], claims := s.claims[e.address := ClaimOf(e)])
  {
    var id := |s.events|;
    var s1 := Act(RELAY, s, Deliver(e));
    OneAction(RELAY, s, Deliver(e), [WorkerRuns(0), WorkerRuns(0)]);
    TwoActions(RELAY, s1, WorkerRuns(0), WorkerRuns(0));
    var s2 := Act(RELAY, s1, WorkerRuns(0));
    assert s2 == s1.(claims := s.claims[e.address := ClaimOf(e)], workers := [Worker(id, e, Decided(true))]);
    assert s2.workers[..0] + s2.workers[1..] == [];
    assert s2.events[id := e.(status := ApplyStatus.Accepted)] == s.events + [e.(status := ApplyStatus.Accepted)];
  }

  /** A delivery that loses the compare-and-set but finds its own key on the claim. */
  function Recognized(e: Event): seq<Action> {
    [Deliver(e)] + ([WorkerRuns(0)] + [WorkerRuns(0), WorkerRuns(0)])
  }

  lemma KeyRecognized(s: System, e: Event)
    requires s.workers == [] && Deliverable(e) && Fresh(s.events, e) && e.outcome != "Pending"
    requires e.address in s.claims && !Newer(ClaimOf(e), s.claims[e.address]) && HoldsClaim(s.claims, e)
    ensures Continue(RELAY, s, Recognized(e)) == s.(events := s.events + [e.(status := ApplyStatus.Accepted)])
  {
    var id := |s.events|;
    var s1 := Act(RELAY, s, Deliver(e));
    OneAction(RELAY, s, Deliver(e), [WorkerRuns(0)] + [WorkerRuns(0), WorkerRuns(0)]);
    OneAction(RELAY, s1, WorkerRuns(0), [WorkerRuns(0), WorkerRuns(0)]);
    var s2 := Act(RELAY, s1, WorkerRuns(0));
    assert s2 == s1.(workers := [Worker(id, e, Beaten)]);
    TwoActions(RELAY, s2, WorkerRuns(0), WorkerRuns(0));
    var s3 := Act(RELAY, s2, WorkerRuns(0));
    assert s3 == s1.(workers := [Worker(id, e, Decided(true))]);
    assert s3.workers[..0] + s3.workers[1..] == [];
    assert s3.events[id := e.(status := ApplyStatus.Accepted)] == s.events + [e.(status := ApplyStatus.Accepted)];
  }

  /** The reconciler hands one decision to SetStatus and crashes before writing it back. */
  function HandsOut(id: nat): seq<Action> {
    [List([id])] + ([Advance(GRANT, Admit)] + [Advance(GRANT, Admit), Crash])
  }

  lemma HandedOut(s: System, id: nat)
    requires s.reconciler.Idle? && s.workers == [] && id < |s.events|
    requires s.events[id].status.Accepted? && HoldsClaim(s.claims, s.events[id]) && StatusFromString(s.events[id].outcome).Some?
    ensures var e := s.events[id];
      Continue(RELAY, s, HandsOut(id)) == s.(
        tx := SubmitCall(RELAY.tx, s.tx, StatusRequest(RELAY, e, StatusFromString(e.outcome).value), GRANT).0,
        handed := s.handed + [Handed(e.address, ClaimOf(e))])
  {
    var e := s.events[id];
    var queue := [Job(id, e)];
    assert [id][1..] == [] && Jobs(s.events, []) == [];
    assert Jobs(s.events, [id]) == queue;
    var s1, s2 := s.(reconciler := Busy(queue, Fetch)), s.(reconciler := Busy(queue, Cleared));
    OneAction(RELAY, s, List([id]), [Advance(GRANT, Admit)] + [Advance(GRANT, Admit), Crash]);
    OneAction(RELAY, s1, Advance(GRANT, Admit), [Advance(GRANT, Admit), Crash]);
    FetchClears(s1, Job(id, e));
    TwoActions(RELAY, s2, Advance(GRANT, Admit), Crash);
    ClearedHandsOut(s2, Job(id, e));
  }

  lemma FetchClears(s: System, job: Job)
    requires s.reconciler == Busy([job], Fetch) && job.e.status.Accepted? && HoldsClaim(s.claims, job.e)
    ensures Act(RELAY, s, Advance(GRANT, Admit)) == s.(reconciler := Busy([job], Cleared))
  {
  }

  lemma ClearedHandsOut(s: System, job: Job)
    requires s.reconciler == Busy([job], Cleared) && job.e.status.Accepted? && StatusFromString(job.e.outcome).Some?
    ensures Act(RELAY, Act(RELAY, s, Advance(GRANT, Admit)), Crash) == s.(
      tx := SubmitCall(RELAY.tx, s.tx, StatusRequest(RELAY, job.e, StatusFromString(job.e.outcome).value), GRANT).0,
      handed := s.handed + [Handed(job.e.address, ClaimOf(job.e))], workers := [], reconciler := Idle)
  {
  }

  // Shared event keys

  ghost predicate OnlyFrom(events: seq<Event>, e1: Event, e2: Event) {
    forall i :: 0 <= i < |events| ==> SameDelivery(e1, events[i]) || SameDelivery(e2, events[i])
  }

  ghost predicate HandedOutOfOrder(s: System) {
    exists i, j :: 0 <= i < j < |s.handed| && s.handed[i].address == s.handed[j].address && Newer(s.handed[i].claim, s.handed[j].claim)
  }

  /** Some run that stores these two decisions and no others hands them out of order. */
  ghost predicate CanSwap(e1: Event, e2: Event) {
    exists cfg, actions :: OnlyFrom(Execute(cfg, actions).events, e1, e2) && HandedOutOfOrder(Execute(cfg, actions))
  }

  predicate Relayed(e: Event) {
    Deliverable(e) && e.outcome != "Pending"
  }

  /** Two deliverable decisions of one wallet, the first older, that may both be stored. */
  predicate Rivals(e1: Event, e2: Event) {
    && Relayed(e1) && Relayed(e2) && e1.address == e2.address && e1.occurredAt < e2.occurredAt
    && e1.payload != e2.payload && (e1.provider, e1.eventId) != (e2.provider, e2.eventId)
  }

  /** The newer decision is delivered and handed out on a fresh server. */
  lemma NewerFirst(e: Event) returns (s: System)
    requires Relayed(e)
    ensures s == Continue(RELAY, START, Takes(e) + HandsOut(0))
    ensures s.events == [e.(status := ApplyStatus.Accepted)] && s.claims == map[e.address := ClaimOf(e)]
    ensures s.handed == [Handed(e.address, ClaimOf(e))] && s.workers == [] && s.reconciler.Idle?
  {
    Taken(START, e);
    HandedOut(Continue(RELAY, START, Takes(e)), 0);
    ContinueSplits(RELAY, START, Takes(e), HandsOut(0));
    s := Continue(RELAY, START, Takes(e) + HandsOut(0));
  }

  /** The older one finds its key on the claim, and is handed out too. */
  lemma OlderSecond(s: System, e1: Event, e2: Event) returns (t: System)
    requires Rivals(e1, e2) && EventKey(e1) == EventKey(e2)
    requires s.events == [e2.(status := ApplyStatus.Accepted)] && s.claims == map[e2.address := ClaimOf(e2)]
    requires s.workers == [] && s.reconciler.Idle?
    ensures t == Continue(RELAY, s, Recognized(e1) + HandsOut(1))
    ensures t.events == s.events + [e1.(status := ApplyStatus.Accepted)] && t.handed == s.handed + [Handed(e1.address, ClaimOf(e1))]
  {
    KeyRecognized(s, e1);
    HandedOut(Continue(RELAY, s, Recognized(e1)), 1);
    ContinueSplits(RELAY, s, Recognized(e1), HandsOut(1));
    t := Continue(RELAY, s, Recognized(e1) + HandsOut(1));
  }

  lemma SharedKeySwaps(e1: Event, e2: Event)
    requires Rivals(e1, e2) && EventKey(e1) == EventKey(e2)
    ensures CanSwap(e1, e2)
  {
    var first, second := Takes(e2) + HandsOut(0), Recognized(e1) + HandsOut(1);
    var s := NewerFirst(e2);
    var t := OlderSecond(s, e1, e2);
    ContinueSplits(RELAY, START, first, second);
    ExecuteContinues(RELAY, first + second);
    assert Execute(RELAY, first + second) == t;
    SwappedPair(t, e1, e2);
  }

  lemma SwappedPair(t: System, e1: Event, e2: Event)
    requires Rivals(e1, e2)
    requires t.events == [e2.(status := ApplyStatus.Accepted), e1.(status := ApplyStatus.Accepted)]
    requires t.handed == [Handed(e2.address, ClaimOf(e2)), Handed(e1.address, ClaimOf(e1))]
    ensures OnlyFrom(t.events, e1, e2) && HandedOutOfOrder(t)
  {
    assert t.handed[0].address == t.handed[1].address && Newer(t.handed[0].claim, t.handed[1].claim);
  }

  lemma TwoDistinctKeys(events: seq<Event>, e1: Event, e2: Event)
    requires OnlyFrom(events, e1, e2) && UniqueDeliveries(events) && EventKey(e1) != EventKey(e2)
    ensures DistinctKeys(events)
  {
    forall i, j | 0 <= i < j < |events| ensures EventKey(events[i]) != EventKey(events[j]) {
      assert SameDelivery(e1, events[i]) || SameDelivery(e2, events[i]);
      assert SameDelivery(e1, events[j]) || SameDelivery(e2, events[j]);
    }
  }

  /** Two rival decisions can be handed out of order if and only if they share an event key. */
  lemma SwapsExactly(e1: Event, e2: Event)
    requires Rivals(e1, e2)
    ensures CanSwap(e1, e2) <==> EventKey(e1) == EventKey(e2)
  {
    if EventKey(e1) == EventKey(e2) {
      SharedKeySwaps(e1, e2);
    } else if CanSwap(e1, e2) {
      var cfg, actions :| OnlyFrom(Execute(cfg, actions).events, e1, e2) && HandedOutOfOrder(Execute(cfg, actions));
      var s := Execute(cfg, actions);
      ExecuteUnique(cfg, actions);
      TwoDistinctKeys(s.events, e1, e2);
      var i, j :| 0 <= i < j < |s.handed| && s.handed[i].address == s.handed[j].address && Newer(s.handed[i].claim, s.handed[j].claim);
      DecisionsHandedInOrder(cfg, actions, i, j);
    }
  }

  // Foreign idempotency keys

  /** Other Submits of the run use no decision's idempotency key, except this one. */
  ghost predicate ReservedBut(actions: seq<Action>, keys: set<string>, key: string) {
    Reserved(actions, keys - {key})
  }

  /** Some attempt of `older` that was not definitely rejected is not below one of `newer`. */
  ghost predicate NotBelow(older: Tx, newer: Tx) {
    exists a, b :: Outstanding(older, a) && Outstanding(newer, b) && b.nonce <= a.nonce != MAX_U64
  }

  ghost predicate OutOfOrderAt(s: System, d1: nat, d2: nat, i: nat, j: nat) {
    && d1 < |s.events| && d2 < |s.events| && i < |s.tx.store| && j < |s.tx.store|
    && OlderDecision(s.events[d1], s.events[d2])
    && s.tx.store[i].key == TxKey(s.events[d1]) && s.tx.store[j].key == TxKey(s.events[d2])
    && NotBelow(s.tx.store[i], s.tx.store[j])
  }

  /** An outstanding attempt of an older decision lies above one of a newer decision of the wallet. */
  ghost predicate NoncesOutOfOrder(s: System) {
    exists d1: nat, d2: nat, i: nat, j: nat :: OutOfOrderAt(s, d1, d2, i, j)
  }

  /** A truthful run with unambiguous decisions whose nonces are out of order, though other Submits use at most this key. */
  ghost predicate Disordered(cfg: Settings, actions: seq<Action>, chains: seq<Chain>, key: string) {
    && TruthfulRun(cfg, actions, chains) && DistinctKeys(Execute(cfg, actions).events)
    && ReservedBut(actions, KeysOf(Execute(cfg, actions).events), key)
    && NoncesOutOfOrder(Execute(cfg, actions))
  }

  ghost predicate CanDisorder(key: string) {
    exists cfg, actions, chains :: Disordered(cfg, actions, chains, key)
  }

  ghost predicate NamesDecision(key: string) {
    exists provider, eventId :: provider != "" && eventId != "" && key == KEY_PREFIX + Join(provider, '|', eventId)
  }

  // A key that names no decision is harmless

  ghost predicate AllNamed(events: seq<Event>) {
    forall i :: 0 <= i < |events| ==> events[i].provider != "" && events[i].eventId != ""
  }

  lemma {:induction false} ExecuteNamed(cfg: Settings, actions: seq<Action>)
    ensures AllNamed(Execute(cfg, actions).events)
  {
    if actions != [] {
      var prior, last := actions[..|actions| - 1], actions[|actions| - 1];
      ExecuteNamed(cfg, prior);
      ExecuteGood(cfg, prior);
      var s, s' := Execute(cfg, prior), Execute(cfg, actions);
      ActGood(cfg, s, last);
      ActDelivers(cfg, s, last);
      DeliversNamed(cfg, s, last);
      forall i | 0 <= i < |s'.events| ensures s'.events[i].provider != "" && s'.events[i].eventId != "" {
        if i < |s.events| {
          assert SameDelivery(s.events[i], s'.events[i]);
        }
      }
    }
  }

  lemma DeliversNamed(cfg: Settings, s: System, action: Action)
    ensures |Act(cfg, s, action).events| > |s.events| ==> action.Deliver? && Deliverable(action.e)
  {
  }

  lemma NamelessIsHarmless(cfg: Settings, actions: seq<Action>, chains: seq<Chain>, key: string)
    requires Disordered(cfg, actions, chains, key)
    ensures key in KeysOf(Execute(cfg, actions).events)
  {
    var keys := KeysOf(Execute(cfg, actions).events);
    if key !in keys {
      assert keys - {key} == keys;
      OutOfOrderNeedsKey(cfg, actions, chains);
    }
  }

  lemma KeyNamesDecision(events: seq<Event>, key: string)
    requires AllNamed(events) && key in KeysOf(events)
    ensures NamesDecision(key)
  {
    var d :| 0 <= d < |events| && key == TxKey(events[d]);
    assert key == KEY_PREFIX + Join(events[d].provider, '|', events[d].eventId);
  }

  lemma OutOfOrderNeedsKey(cfg: Settings, actions: seq<Action>, chains: seq<Chain>)
    requires TruthfulRun(cfg, actions, chains) && DistinctKeys(Execute(cfg, actions).events)
    requires Reserved(actions, KeysOf(Execute(cfg, actions).events))
    ensures !NoncesOutOfOrder(Execute(cfg, actions))
  {
    var s := Execute(cfg, actions);
    forall d1: nat, d2: nat, i: nat, j: nat | OutOfOrderAt(s, d1, d2, i, j) ensures false {
      var a, b :| Outstanding(s.tx.store[i], a) && Outstanding(s.tx.store[j], b) && b.nonce <= a.nonce != MAX_U64;
      DecisionOrderReachesTheChain(cfg, actions, chains, d1, d2, i, j, a, b);
    }
  }

  // A key that names a decision is not

  /** A decision a second older, with a longer event key of its own. */
  function Predecessor(e: Event): Event {
    Event(e.address, "p", EventKey(e), "Blocked", e.occurredAt - 1, 0, e.payload + "x", Claiming, None)
  }

  lemma PredecessorKey(e: Event)
    ensures EventKey(Predecessor(e)) != EventKey(e) && TxKey(Predecessor(e)) != TxKey(e)
  {
    assert |EventKey(Predecessor(e))| == |EventKey(e)| + 2;
    assert |TxKey(Predecessor(e))| == |TxKey(e)| + 2;
  }

  /** A Submit from elsewhere under the decision's own key. */
  function Foreign(e: Event): SubmitRequest {
    SubmitRequest(TxKey(e), 0, Call(0, Opaque(""), 0), false)
  }

  /** The foreign Submit, then the older decision all the way to the chain, then the delivery of the decision itself. */
  function ForeignRun(e: Event): seq<Action> {
    [Manager(SubmitStep(Foreign(e), GRANT))] + ((Takes(Predecessor(e)) + HandsOut(0)) + Takes(e))
  }

  /** The older decision, delivered and handed out behind one pending transaction under another key. */
  lemma HandedBehind(s: System, e: Event, other: Tx)
    requires s == START.(tx := s.tx) && s.tx.store == [other] && Relayed(e) && other.key != TxKey(e)
    requires other.from == 0 && other.nonce == 0 && other.status.Pending?
    ensures var t := Continue(RELAY, s, Takes(e) + HandsOut(0));
      && t.events == [e.(status := ApplyStatus.Accepted)] && t.claims == map[e.address := ClaimOf(e)]
      && t.workers == [] && t.reconciler.Idle?
      && |t.tx.store| == 2 && t.tx.store[0] == other
      && t.tx.store[1].key == TxKey(e) && t.tx.store[1].nonce == 1 && t.tx.store[1].status.Pending? && !t.tx.store[1].eventDerived
  {
    Taken(s, e);
    var s1 := Continue(RELAY, s, Takes(e));
    HandedOut(s1, 0);
    ContinueSplits(RELAY, s, Takes(e), HandsOut(0));
    var req := StatusRequest(RELAY, e, StatusFromString(e.outcome).value);
    assert [other][..0] == [];
    assert FindKey([other][..0], req.key).None?;
    GrantsNext(s1.tx, req, 1);
  }

  lemma ForeignFirst(e: Event)
    ensures Act(RELAY, START, Manager(SubmitStep(Foreign(e), GRANT))) ==
      START.(tx := SubmitCall(RELAY.tx, INIT, Foreign(e), GRANT).0)
    ensures SubmitCall(RELAY.tx, INIT, Foreign(e), GRANT).0.store == [GrantRecord(Foreign(e), 0)]
  {
    GrantsNext(INIT, Foreign(e), 0);
  }

  lemma ForeignRunEnds(e: Event)
    requires Relayed(e)
    ensures var t := Execute(RELAY, ForeignRun(e));
      && t.events == [Predecessor(e).(status := ApplyStatus.Accepted), e.(status := ApplyStatus.Accepted)]
      && |t.tx.store| == 2 && t.tx.store[0] == GrantRecord(Foreign(e), 0)
      && t.tx.store[1].key == TxKey(Predecessor(e)) && t.tx.store[1].nonce == 1
      && t.tx.store[1].status.Pending? && !t.tx.store[1].eventDerived
  {
    var p, rest := Predecessor(e), Takes(Predecessor(e)) + HandsOut(0);
    var s := START.(tx := SubmitCall(RELAY.tx, INIT, Foreign(e), GRANT).0);
    PredecessorKey(e);
    ForeignFirst(e);
    OneAction(RELAY, START, Manager(SubmitStep(Foreign(e), GRANT)), rest + Takes(e));
    HandedBehind(s, p, GrantRecord(Foreign(e), 0));
    var s2 := Continue(RELAY, s, rest);
    ContinueSplits(RELAY, s, rest, Takes(e));
    Taken(s2, e);
    ExecuteContinues(RELAY, ForeignRun(e));
  }

  ghost predicate Quiet(actions: seq<Action>) {
    forall k :: 0 <= k < |actions| ==> QuietAction(actions[k])
  }

  /** Whatever this action asks the node is answered by an empty chain. */
  predicate QuietAction(a: Action) {
    match a
    case Manager(step) => step.SubmitStep? && step.senv == GRANT
    case Advance(env, _) => env == GRANT
    case _ => true
  }

  lemma {:induction false} QuietIsTruthful(actions: seq<Action>)
    requires Quiet(actions)
    ensures TruthfulRun(RELAY, actions, seq(|actions|, _ => EMPTY_CHAIN))
    decreases |actions|
  {
    if actions != [] {
      var n := |actions| - 1;
      QuietIsTruthful(actions[..n]);
      assert seq(|actions|, _ => EMPTY_CHAIN)[..n] == seq(n, _ => EMPTY_CHAIN);
      assert QuietAction(actions[n]);
    }
  }

  lemma ForeignRunIsQuiet(e: Event)
    ensures Quiet(ForeignRun(e))
    ensures forall keys: set<string> :: Reserved(ForeignRun(e), keys - {TxKey(e)})
  {
  }

  lemma PendingIsOutstanding(tx: Tx)
    requires tx.status.Pending? && !tx.eventDerived
    ensures Outstanding(tx, Attempt(tx.nonce, tx.raw, Pending))
  {
    assert Archive(tx)[|tx.attempts|] == Attempt(tx.nonce, tx.raw, Pending);
  }

  lemma OlderAbove(t: System, older: Event, newer: Event)
    requires t.events == [older, newer] && OlderDecision(older, newer) && |t.tx.store| == 2
    requires t.tx.store[0].key == TxKey(newer) && t.tx.store[0].status.Pending? && !t.tx.store[0].eventDerived && t.tx.store[0].nonce == 0
    requires t.tx.store[1].key == TxKey(older) && t.tx.store[1].status.Pending? && !t.tx.store[1].eventDerived && t.tx.store[1].nonce == 1
    ensures NoncesOutOfOrder(t)
  {
    var a, b := Attempt(1, t.tx.store[1].raw, Pending), Attempt(0, t.tx.store[0].raw, Pending);
    PendingIsOutstanding(t.tx.store[1]);
    PendingIsOutstanding(t.tx.store[0]);
    assert Outstanding(t.tx.store[1], a) && Outstanding(t.tx.store[0], b) && b.nonce <= a.nonce != MAX_U64;
    assert OutOfOrderAt(t, 0, 1, 1, 0);
  }

  lemma ForeignRunState(e: Event)
    requires Relayed(e)
    ensures NoncesOutOfOrder(Execute(RELAY, ForeignRun(e))) && DistinctKeys(Execute(RELAY, ForeignRun(e)).events)
  {
    ForeignRunEnds(e);
    PredecessorKey(e);
    OlderAbove(Execute(RELAY, ForeignRun(e)), Predecessor(e).(status := ApplyStatus.Accepted), e.(status := ApplyStatus.Accepted));
  }

  lemma Disorders(cfg: Settings, actions: seq<Action>, chains: seq<Chain>, key: string)
    requires TruthfulRun(cfg, actions, chains) && DistinctKeys(Execute(cfg, actions).events)
    requires forall keys: set<string> :: Reserved(actions, keys - {key})
    requires NoncesOutOfOrder(Execute(cfg, actions))
    ensures CanDisorder(key)
  {
    assert Disordered(cfg, actions, chains, key);
  }

  lemma ForeignRunDisorders(e: Event)
    requires Relayed(e)
    ensures CanDisorder(TxKey(e))
  {
    var run := ForeignRun(e);
    ForeignRunState(e);
    ForeignRunIsQuiet(e);
    QuietIsTruthful(run);
    Disorders(RELAY, run, seq(|run|, _ => EMPTY_CHAIN), TxKey(e));
  }

  /** Another Submit under a key can put some run's nonces out of order if and only if the key names a decision. */
  lemma DisordersExactly(key: string)
    ensures CanDisorder(key) <==> NamesDecision(key)
  {
    if CanDisorder(key) {
      var cfg, actions, chains :| Disordered(cfg, actions, chains, key);
      NamelessIsHarmless(cfg, actions, chains, key);
      ExecuteNamed(cfg, actions);
      KeyNamesDecision(Execute(cfg, actions).events, key);
    }
    if NamesDecision(key) {
      var provider, eventId :| provider != "" && eventId != "" && key == KEY_PREFIX + Join(provider, '|', eventId);
      var e := Event(0, provider, eventId, "Allowed", 2, 0, "", Claiming, None);
      assert TxKey(e) == key;
      ForeignRunDisorders(e);
    }
  }
}
