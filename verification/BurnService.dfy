/** The burn service object and the projection of indexed Burned events onto its records. */
module BurnServices {
  import opened Options
  import opened BurnLedger

  datatype Record = Record(amount: nat, minted: bool)

  /** An indexed Burned event; an event without an operation id backs nothing. */
  datatype ChainEvent = ChainEvent(block: nat, operation: Option<nat>, txHash: nat, removed: bool)

  datatype Outcome = Stored(id: nat) | Invalid | RecordNotFound | NotMinted | BurnNotFound | AlreadyBurned | ExceedsRemaining(remaining: int)

  /** The event that backs each operation: the last surviving one listed. */
  function Backing(events: seq<ChainEvent>): map<nat, nat> {
    if events == [] then map[] else
    var earlier := Backing(events[..|events| - 1]);
    var e := events[|events| - 1];
    if !e.removed && e.operation.Some? then earlier[e.operation.value := e.txHash] else earlier
  }

  ghost predicate UniqueOperations(burns: seq<Burn>) {
    forall i, j :: 0 <= i < j < |burns| ==> burns[i].operation != burns[j].operation
  }

  function Bumped(b: Burn): Burn {
    b.(version := b.version + 1)
  }

  /** What one conflict-free reconcile makes of a burn. */
  function Reconciled(b: Burn, backing: map<nat, nat>, now: int): Burn {
    if b.operation in backing then
      var txHash := backing[b.operation];
      if b.status.Burned? && b.txHash == Some(txHash) then b else Bumped(Confirmed(b, txHash, now))
    else if b.status.Burned? then Bumped(Demoted(b))
    else b
  }

  /** Removed events and events without an operation leave no trace. */
  lemma {:induction false} DeadEventsBackNothing(events: seq<ChainEvent>, operation: nat)
    ensures operation in Backing(events) <==> exists i :: 0 <= i < |events| && !events[i].removed && events[i].operation == Some(operation)
  {
    if events != [] {
      var prior := events[..|events| - 1];
      DeadEventsBackNothing(prior, operation);
      assert forall i :: 0 <= i < |prior| ==> prior[i] == events[i];
      if operation in Backing(prior) {
        var i :| 0 <= i < |prior| && !prior[i].removed && prior[i].operation == Some(operation);
        assert !events[i].removed && events[i].operation == Some(operation);
      }
    }
  }

  ghost predicate LastBacker(events: seq<ChainEvent>, operation: nat, k: nat) {
    && k < |events| && !events[k].removed && events[k].operation == Some(operation)
    && forall j :: k < j < |events| && !events[j].removed ==> events[j].operation != Some(operation)
  }

  lemma {:induction false} BackedByLast(events: seq<ChainEvent>, operation: nat, k: nat)
    requires LastBacker(events, operation, k)
    ensures operation in Backing(events) && Backing(events)[operation] == events[k].txHash
  {
    var prior := events[..|events| - 1];
    if k < |events| - 1 {
      assert LastBacker(prior, operation, k);
      BackedByLast(prior, operation, k);
    }
  }

  /** A reconciled burn is Burned exactly if some event that is not removed names its operation, with the hash of the last
      such event, and otherwise Pending. */
  lemma ReconciledExactly(b: Burn, events: seq<ChainEvent>, now: int)
    requires b.status.Pending? ==> b.txHash.None?
    ensures var r := Reconciled(b, Backing(events), now);
      && (r.status.Burned? <==> exists k :: 0 <= k < |events| && !events[k].removed && events[k].operation == Some(b.operation))
      && (r.status.Burned? ==> exists k: nat :: LastBacker(events, b.operation, k) && r.txHash == Some(events[k].txHash))
      && (r.status.Pending? ==> r.txHash.None?)
  {
    DeadEventsBackNothing(events, b.operation);
    if b.operation in Backing(events) {
      var k := FindLastBacker(events, b.operation);
      BackedByLast(events, b.operation, k);
      assert LastBacker(events, b.operation, k);
    }
  }

  lemma {:induction false} FindLastBacker(events: seq<ChainEvent>, operation: nat) returns (k: nat)
    requires exists j :: 0 <= j < |events| && !events[j].removed && events[j].operation == Some(operation)
    ensures LastBacker(events, operation, k)
  {
    var n := |events| - 1;
    if !events[n].removed && events[n].operation == Some(operation) {
      k := n;
    } else {
      var j :| 0 <= j < |events| && !events[j].removed && events[j].operation == Some(operation);
      assert events[..n][j] == events[j];
      k := FindLastBacker(events[..n], operation);
      assert forall i :: k < i < n ==> events[..n][i] == events[i];
    }
  }

  /** The service object. Its calls extend `trace`, a run of the ledger that ends in the stored burns. */
  class BurnService {
    ghost const totals: nat -> nat // each record's amount
    var records: map<nat, Record>
    var burns: seq<Burn>
    ghost var trace: seq<Step>

    constructor (records: map<nat, Record>)
      ensures this.records == records && burns == [] && Valid()
    {
      this.records := records;
      totals := r => if r in records then records[r].amount else 0;
      burns, trace := [], [];
    }

    ghost function At(): Ledger
      reads this
    {
      Run(totals, trace)
    }

    ghost predicate Valid()
      reads this
    {
      && At().burns == burns && At().operation.Free?
      && forall r :: r in records ==> records[r].amount == totals(r)
    }

    /** The ledger's next step. */
    ghost method Took(step: Step)
      modifies this`trace
      ensures trace == old(trace) + [step] && At() == Apply(totals, old(At()), step)
    {
      RunSnoc(totals, trace, step);
      trace := trace + [step];
    }

    method RemainingOf(total: nat, record: nat, now: int, skip: Option<nat>) returns (r: int)
      ensures r == Remaining(total, burns, record, now, skip)
    {
      r := total;
      for i := 0 to |burns|
        invariant r == Remaining(total, burns[..i], record, now, skip)
      {
        var b := burns[i];
        assert burns[..i + 1][..i] == burns[..i];
        if skip == Some(i) {
          continue;
        }
        if b.record != record {
          continue;
        }
        if !b.status.Burned? && b.validUntil <= now {
          continue;
        }
        r := r - b.amount;
      }
      assert burns[..|burns|] == burns;
    }

    /** `now` is read for the reservations, `created` when the burn is stamped. */
    method CreateBurn(record: nat, operation: nat, amount: int, now: int, created: int) returns (r: Outcome)
      requires Valid() && At().clock <= now <= created
      modifies this
      ensures Valid() && old(trace) <= trace && At().clock <= created && records == old(records)
      ensures r.Invalid? <==> amount <= 0
      ensures r.RecordNotFound? <==> amount > 0 && record !in records
      ensures r.NotMinted? <==> amount > 0 && record in records && !records[record].minted
      ensures amount > 0 && record in records && records[record].minted ==>
        var remaining := Remaining(records[record].amount, old(burns), record, now, None);
        r == if amount > remaining then ExceedsRemaining(remaining) else Stored(|old(burns)|)
      ensures burns == if r.Stored? then old(burns) + [Fresh(record, operation, amount, created)] else old(burns)
    {
      if amount <= 0 {
        return Invalid;
      }
      if record !in records {
        return RecordNotFound;
      }
      if !records[record].minted {
        return NotMinted;
      }
      Took(Advance(now - At().clock));
      var remaining := RemainingOf(records[record].amount, record, now, None);
      if amount > remaining {
        return ExceedsRemaining(remaining);
      }
      Took(BeginCreate(record, operation, amount));
      Took(Advance(created - now));
      Took(CommitCreate);
      burns := burns + [Fresh(record, operation, amount, created)];
      return Stored(|burns| - 1);
    }

    /** A fresh reservation for a burn that is not Burned; it may have expired. */
    method ReissueBurn(id: nat, now: int, reissued: int) returns (r: Outcome)
      requires Valid() && At().clock <= now <= reissued
      modifies this
      ensures Valid() && old(trace) <= trace && At().clock <= reissued && records == old(records)
      ensures r.BurnNotFound? <==> id >= |old(burns)|
      ensures r.AlreadyBurned? <==> id < |old(burns)| && old(burns)[id].status.Burned?
      ensures id < |old(burns)| && !old(burns)[id].status.Burned? && old(burns)[id].record in records ==>
        var b := old(burns)[id];
        var remaining := Remaining(records[b.record].amount, old(burns), b.record, now, Some(id));
        r == if b.amount > remaining then ExceedsRemaining(remaining) else Stored(id)
      ensures r.Stored? ==> id < |old(burns)| && old(burns)[id].record in records
      ensures burns == if r.Stored? then old(burns)[id := Bumped(Renewed(old(burns)[id], reissued))] else old(burns)
    {
      if id >= |burns| {
        return BurnNotFound;
      }
      var burn := burns[id];
      if burn.status.Burned? {
        return AlreadyBurned;
      }
      if burn.record !in records {
        return RecordNotFound;
      }
      Took(Advance(now - At().clock));
      var remaining := RemainingOf(records[burn.record].amount, burn.record, now, Some(id));
      if burn.amount > remaining {
        return ExceedsRemaining(remaining);
      }
      Renew(id, now, reissued);
      return Stored(id);
    }

    /** The reservation of a burn that is not Burned and still fits, renewed. */
    method Renew(id: nat, ghost now: int, reissued: int)
      requires Valid() && At().clock == now <= reissued && id < |burns| && !burns[id].status.Burned?
      requires burns[id].amount <= Remaining(totals(burns[id].record), burns, burns[id].record, now, Some(id))
      modifies this
      ensures Valid() && old(trace) <= trace && At().clock == reissued && records == old(records)
      ensures burns == old(burns)[id := Bumped(Renewed(old(burns)[id], reissued))]
    {
      var burn := burns[id];
      Took(BeginReissue(id));
      Took(CheckReissue);
      assert At().operation == Renewing(id, burn) && At().burns == burns;
      Took(Advance(reissued - now));
      Took(CommitReissue);
      burns := UpdateConditional(burns, id, Renewed(burn, reissued), burn.version);
    }

    method GetByOperation(operation: nat) returns (r: Option<nat>)
      ensures r.Some? ==> r.value < |burns| && burns[r.value].operation == operation
      ensures r.None? ==> forall i :: 0 <= i < |burns| ==> burns[i].operation != operation
    {
      for i := 0 to |burns|
        invariant forall j :: 0 <= j < i ==> burns[j].operation != operation
      {
        if burns[i].operation == operation {
          return Some(i);
        }
      }
      return None;
    }

    method ReconcileBurned(events: seq<ChainEvent>, now: int)
      requires Valid() && At().clock <= now && UniqueOperations(burns)
      modifies this
      ensures Valid() && old(trace) <= trace && At().clock == now
      ensures records == old(records) && |burns| == |old(burns)|
      ensures forall i :: 0 <= i < |burns| ==> burns[i] == Reconciled(old(burns)[i], Backing(events), now)
    {
      Took(Advance(now - At().clock));
      var backing: map<nat, nat> := map[];
      for k := 0 to |events|
        invariant backing == Backing(events[..k])
      {
        assert events[..k + 1][..k] == events[..k];
        if events[k].removed {
          continue;
        }
        if events[k].operation.Some? {
          backing := backing[events[k].operation.value := events[k].txHash];
        }
      }
      assert events[..|events|] == events;
      ConfirmBacked(backing, now);
      DemoteOrphaned(backing, now);
    }

    method ConfirmOne(id: nat, txHash: nat, now: int)
      requires Valid() && At().clock == now && id < |burns|
      modifies this
      ensures Valid() && old(trace) <= trace && At().clock == now && records == old(records)
      ensures burns == old(burns)[id := Bumped(Confirmed(old(burns)[id], txHash, now))]
    {
      var burn := burns[id];
      Took(ReadBurn(id));
      Took(Confirm(|At().views| - 1, txHash));
      burns := UpdateConditional(burns, id, Confirmed(burn, txHash, now), burn.version);
    }

    method DemoteOne(id: nat, ghost now: int)
      requires Valid() && At().clock == now && id < |burns| && burns[id].status.Burned?
      modifies this
      ensures Valid() && old(trace) <= trace && At().clock == now && records == old(records)
      ensures burns == old(burns)[id := Bumped(Demoted(old(burns)[id]))]
    {
      var burn := burns[id];
      Took(ReadBurn(id));
      Took(Demote(|At().views| - 1));
      burns := UpdateConditional(burns, id, Demoted(burn), burn.version);
    }

    /** Marks every burn with a surviving event Burned and refreshes its transaction hash. */
    method ConfirmBacked(backing: map<nat, nat>, now: int)
      requires Valid() && At().clock == now && UniqueOperations(burns)
      modifies this
      ensures Valid() && old(trace) <= trace && At().clock == now
      ensures records == old(records) && |burns| == |old(burns)|
      ensures forall i :: 0 <= i < |burns| ==>
        burns[i] == if old(burns)[i].operation in backing then Reconciled(old(burns)[i], backing, now) else old(burns)[i]
    {
      var todo := backing.Keys;
      while todo != {}
        invariant Valid() && old(trace) <= trace && At().clock == now
        invariant todo <= backing.Keys && records == old(records) && |burns| == |old(burns)|
        invariant forall i :: 0 <= i < |burns| ==>
          burns[i] == if old(burns)[i].operation in backing && old(burns)[i].operation !in todo
            then Reconciled(old(burns)[i], backing, now) else old(burns)[i]
        decreases todo
      {
        var operation :| operation in todo;
        todo := todo - {operation};
        var id := GetByOperation(operation);
        if id.None? {
          continue;
        }
        var burn := burns[id.value];
        if burn.status.Burned? && burn.txHash == Some(backing[operation]) {
          continue;
        }
        ConfirmOne(id.value, backing[operation], now);
      }
    }

    /** Resets Burned records without a surviving event to Pending. */
    method DemoteOrphaned(backing: map<nat, nat>, ghost now: int)
      requires Valid() && At().clock == now
      modifies this
      ensures Valid() && old(trace) <= trace && At().clock == now
      ensures records == old(records) && |burns| == |old(burns)|
      ensures forall i :: 0 <= i < |burns| ==>
        burns[i] == if old(burns)[i].operation in backing then old(burns)[i] else Reconciled(old(burns)[i], backing, now)
    {
      for i := 0 to |burns|
        invariant Valid() && old(trace) <= trace && At().clock == now
        invariant records == old(records) && |burns| == |old(burns)|
        invariant forall j :: i <= j < |burns| ==> burns[j] == old(burns)[j]
        invariant forall j :: 0 <= j < i ==>
          burns[j] == if old(burns)[j].operation in backing then old(burns)[j] else Reconciled(old(burns)[j], backing, now)
      {
        if !burns[i].status.Burned? {
          continue;
        }
        if burns[i].operation in backing {
          continue;
        }
        DemoteOne(i, now);
      }
    }
  }

  /** Between calls a service's record is overdrawn by at most its burns that were confirmed too late. */
  lemma ServiceRemainingBound(service: BurnService, record: nat)
    requires service.Valid()
    ensures Remaining(service.totals(record), service.burns, record, service.At().clock, None) + LateTotal(service.burns, record, None) >= 0
  {
    RemainingBound(service.totals, service.trace, record);
  }
}
