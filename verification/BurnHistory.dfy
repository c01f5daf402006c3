/** Burns over whole histories: their status and hash depend only on the events that survive. */
module BurnHistory {
  import opened Options
  import opened BurnLedger
  import opened BurnServices

  datatype World = World(burns: seq<Burn>, events: seq<ChainEvent>)

  datatype Action =
    | Create(record: nat, operation: nat, amount: nat, created: int)
    | Reissue(id: nat, reissued: int)
    | Index(e: ChainEvent)
    | Rollback(from: nat) // deletes the events from a block on
    | Remove(k: nat) // flags one event as removed
    | Pass(done: set<nat>, now: int) // a reconcile whose writes reached only these burns

  function EventsBelow(events: seq<ChainEvent>, from: nat): seq<ChainEvent> {
    if events == [] then [] else
    var rest := EventsBelow(events[..|events| - 1], from);
    var e := events[|events| - 1];
    if e.block < from then rest + [e] else rest
  }

  /** What an action does to the indexed events. */
  function Indexed(events: seq<ChainEvent>, action: Action): seq<ChainEvent> {
    match action
    case Index(e) => events + [e]
    case Rollback(from) => EventsBelow(events, from)
    case Remove(k) => if k < |events| then events[k := events[k].(removed := true)] else events
    case _ => events
  }

  function ReconcileSome(burns: seq<Burn>, backing: map<nat, nat>, done: set<nat>, now: int): (r: seq<Burn>)
    ensures |r| == |burns|
  {
    seq(|burns|, i requires 0 <= i < |burns| => if i in done then Reconciled(burns[i], backing, now) else burns[i])
  }

  function ReconcileAll(burns: seq<Burn>, backing: map<nat, nat>, now: int): (r: seq<Burn>)
    ensures |r| == |burns|
  {
    seq(|burns|, i requires 0 <= i < |burns| => Reconciled(burns[i], backing, now))
  }

  function Stored(burns: seq<Burn>, events: seq<ChainEvent>, action: Action): seq<Burn> {
    match action
    case Create(record, operation, amount, created) => burns + [Fresh(record, operation, amount, created)]
    case Reissue(id, reissued) =>
      if id < |burns| && !burns[id].status.Burned? then burns[id := Bumped(Renewed(burns[id], reissued))] else burns
    case Pass(done, now) => ReconcileSome(burns, Backing(events), done, now)
    case _ => burns
  }

  function Execute(run: seq<Action>): World {
    if run == [] then World([], []) else
    var w := Execute(run[..|run| - 1]);
    World(Stored(w.burns, w.events, run[|run| - 1]), Indexed(w.events, run[|run| - 1]))
  }

  /** What indexing, rollbacks and removals leave. */
  function Survivors(run: seq<Action>): seq<ChainEvent> {
    if run == [] then [] else Indexed(Survivors(run[..|run| - 1]), run[|run| - 1])
  }

  /** The burns as they were created. */
  function Created(run: seq<Action>): seq<Burn> {
    if run == [] then [] else
    var burns := Created(run[..|run| - 1]);
    match run[|run| - 1]
    case Create(record, operation, amount, created) => burns + [Fresh(record, operation, amount, created)]
    case _ => burns
  }

  /** The same reservation of the same amount, whatever became of it. */
  predicate SameBurn(a: Burn, b: Burn) {
    a.record == b.record && a.operation == b.operation && a.amount == b.amount
  }

  /** The events depend on no burn, and the burns stay the ones that were created. */
  lemma {:induction false} HistorySplits(run: seq<Action>)
    ensures Execute(run).events == Survivors(run)
    ensures |Execute(run).burns| == |Created(run)|
    ensures forall i :: 0 <= i < |Created(run)| ==> SameBurn(Execute(run).burns[i], Created(run)[i])
  {
    if run != [] {
      HistorySplits(run[..|run| - 1]);
    }
  }

  /** After any history of creates, reissues, indexing, rollbacks, removals and reconciles, finished or not, one more
      reconcile gives every burn the status and hash that replaying the surviving events onto the burns as created gives. */
  lemma OnlySurvivorsMatter(run: seq<Action>, now: int, replay: int, i: nat)
    requires i < |Created(run)|
    ensures var w := Execute(run);
      var after, replayed := ReconcileAll(w.burns, Backing(w.events), now), ReconcileAll(Created(run), Backing(Survivors(run)), replay);
      && |after| == |replayed| == |Created(run)|
      && SameBurn(after[i], replayed[i]) && after[i].status == replayed[i].status && after[i].txHash == replayed[i].txHash
  {
    HistorySplits(run);
    CreatedArePending(run);
    assert SameBurn(Execute(run).burns[i], Created(run)[i]);
    PendingHasNoHash(run);
  }

  lemma {:induction false} PendingHasNoHash(run: seq<Action>)
    ensures forall i :: 0 <= i < |Execute(run).burns| && Execute(run).burns[i].status.Pending? ==> Execute(run).burns[i].txHash.None?
  {
    if run != [] {
      PendingHasNoHash(run[..|run| - 1]);
    }
  }

  lemma {:induction false} CreatedArePending(run: seq<Action>)
    ensures forall i :: 0 <= i < |Created(run)| ==> Created(run)[i].status.Pending? && Created(run)[i].txHash.None?
  {
    if run != [] {
      CreatedArePending(run[..|run| - 1]);
    }
  }

  /** A second reconcile of the same events, at any time, changes nothing, and none touches amounts or reservations. */
  lemma ReconcileIsIdempotent(burns: seq<Burn>, backing: map<nat, nat>, now: int, later: int)
    ensures var once := ReconcileAll(burns, backing, now);
      && ReconcileAll(once, backing, later) == once
      && forall i :: 0 <= i < |burns| ==> SameBurn(once[i], burns[i]) && once[i].validUntil == burns[i].validUntil
  {
  }
}
