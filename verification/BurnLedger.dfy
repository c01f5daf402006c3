/** Burn reservations against minted records: what is left of a record in every interleaving. */
module BurnLedger {
  import opened Options

  const RESERVATION_WINDOW: nat := 30 * 24 * 60 * 60

  datatype BurnStatus = Pending | Burned

  /** A stored burn. `late` is history: the burn was confirmed after its reservation had expired. */
  datatype Burn = Burn(
    record: nat,
    operation: nat,
    amount: nat,
    status: BurnStatus,
    validUntil: int,
    txHash: Option<nat>,
    version: nat,
    late: bool)

  /** Whether Remaining deducts the burn. */
  predicate Deducts(b: Burn, now: int) {
    b.status.Burned? || b.validUntil > now
  }

  function DeductedFrom(burns: seq<Burn>, record: nat, now: int, skip: Option<nat>): (r: nat) {
    if burns == [] then 0 else
    var i := |burns| - 1;
    var b := burns[i];
    DeductedFrom(burns[..i], record, now, skip)
      + if b.record == record && skip != Some(i) && Deducts(b, now) then b.amount else 0
  }

  /** The record's amount minus burned and unexpired pending burns, leaving out burn `skip`. */
  function Remaining(total: nat, burns: seq<Burn>, record: nat, now: int, skip: Option<nat>): int {
    total - DeductedFrom(burns, record, now, skip)
  }

  // Weighted sums

  function Sum(burns: seq<Burn>, weight: (nat, Burn) -> nat): nat {
    if burns == [] then 0 else Sum(burns[..|burns| - 1], weight) + weight(|burns| - 1, burns[|burns| - 1])
  }

  lemma {:induction false} SumMonotone(a: seq<Burn>, b: seq<Burn>, v: (nat, Burn) -> nat, w: (nat, Burn) -> nat)
    requires |a| == |b| && forall i :: 0 <= i < |a| ==> v(i, a[i]) <= w(i, b[i])
    ensures Sum(a, v) <= Sum(b, w)
  {
    if a != [] {
      SumMonotone(a[..|a| - 1], b[..|b| - 1], v, w);
    }
  }

  lemma {:induction false} SumWithout(a: seq<Burn>, v: (nat, Burn) -> nat, w: (nat, Burn) -> nat, k: nat)
    requires k < |a| && (forall i :: 0 <= i < |a| && i != k ==> w(i, a[i]) == v(i, a[i])) && w(k, a[k]) == 0
    ensures Sum(a, v) == Sum(a, w) + v(k, a[k])
  {
    var n := |a| - 1;
    if k < n {
      SumWithout(a[..n], v, w, k);
    } else {
      SumMonotone(a[..n], a[..n], v, w);
      SumMonotone(a[..n], a[..n], w, v);
    }
  }

  /** Still counted against the record without being overdue: confirmed in time, or pending and unexpired. */
  function HeldWeight(record: nat, now: int, skip: Option<nat>): (nat, Burn) -> nat {
    (i: nat, b: Burn) =>
      (if b.record == record && skip != Some(i) && (if b.status.Burned? then !b.late else b.validUntil > now) then b.amount else 0) as nat
  }

  function LateWeight(record: nat, skip: Option<nat>): (nat, Burn) -> nat {
    (i: nat, b: Burn) =>
      (if b.record == record && skip != Some(i) && b.status.Burned? && b.late then b.amount else 0) as nat
  }

  function Held(burns: seq<Burn>, record: nat, now: int, skip: Option<nat>): nat {
    Sum(burns, HeldWeight(record, now, skip))
  }

  /** The total of currently Burned burns of the record that were confirmed after their reservation had expired. */
  function LateTotal(burns: seq<Burn>, record: nat, skip: Option<nat>): nat {
    Sum(burns, LateWeight(record, skip))
  }

  lemma {:induction false} DeductedSplits(burns: seq<Burn>, record: nat, now: int, skip: Option<nat>)
    ensures DeductedFrom(burns, record, now, skip) == Held(burns, record, now, skip) + LateTotal(burns, record, skip)
  {
    if burns != [] {
      DeductedSplits(burns[..|burns| - 1], record, now, skip);
    }
  }

  // The ledger as steps

  /** The operation that currently owns the service's mutex. */
  datatype Operation =
    | Free
    | Creating(record: nat, operation: nat, amount: nat) // amount was at most Remaining
    | Reissuing(id: nat, read: Burn) // has read its burn
    | Renewing(id: nat, read: Burn) // amount was at most Remaining without this burn

  /** `views` is every copy of a burn that reconciliation has read; each may be written back at any later time. */
  datatype Ledger = Ledger(burns: seq<Burn>, clock: int, operation: Operation, views: seq<View>)

  datatype View = View(id: nat, read: Burn)

  datatype Step =
    | Advance(seconds: nat)
    | BeginCreate(record: nat, operation: nat, amount: nat)
    | CommitCreate
    | BeginReissue(id: nat)
    | CheckReissue
    | CommitReissue
    | Abandon
    | ReadBurn(id: nat)
    | Confirm(view: nat, txHash: nat)
    | Demote(view: nat)

  function Fresh(record: nat, operation: nat, amount: nat, now: int): Burn {
    Burn(record, operation, amount, Pending, now + RESERVATION_WINDOW, None, 0, false)
  }

  /** The repository's version-conditional write. */
  function UpdateConditional(burns: seq<Burn>, id: nat, b: Burn, expected: nat): (r: seq<Burn>)
    ensures |r| == |burns|
  {
    if id < |burns| && burns[id].version == expected then burns[id := b.(version := expected + 1)] else burns
  }

  function Confirmed(b: Burn, txHash: nat, now: int): Burn {
    b.(status := Burned, txHash := Some(txHash), late := if b.status.Burned? then b.late else b.validUntil <= now)
  }

  function Demoted(b: Burn): Burn {
    b.(status := Pending, txHash := None, late := false)
  }

  function Renewed(b: Burn, now: int): Burn {
    b.(validUntil := now + RESERVATION_WINDOW)
  }

  function Apply(totals: nat -> nat, s: Ledger, step: Step): Ledger {
    match step
    case Advance(seconds) => s.(clock := s.clock + seconds)
    case BeginCreate(record, operation, amount) =>
      if s.operation.Free? && amount > 0 && amount <= Remaining(totals(record), s.burns, record, s.clock, None)
      then s.(operation := Creating(record, operation, amount)) else s
    case CommitCreate =>
      if s.operation.Creating? then
        s.(burns := s.burns + [Fresh(s.operation.record, s.operation.operation, s.operation.amount, s.clock)], operation := Free)
      else s
    case BeginReissue(id) =>
      if s.operation.Free? && id < |s.burns| && !s.burns[id].status.Burned? then s.(operation := Reissuing(id, s.burns[id])) else s
    case CheckReissue =>
      if s.operation.Reissuing?
         && s.operation.read.amount <= Remaining(totals(s.operation.read.record), s.burns, s.operation.read.record, s.clock, Some(s.operation.id))
      then s.(operation := Renewing(s.operation.id, s.operation.read)) else s
    case CommitReissue =>
      if s.operation.Renewing? then
        s.(burns := UpdateConditional(s.burns, s.operation.id, Renewed(s.operation.read, s.clock), s.operation.read.version), operation := Free)
      else s
    case Abandon => s.(operation := Free)
    case ReadBurn(id) => if id < |s.burns| then s.(views := s.views + [View(id, s.burns[id])]) else s
    case Confirm(v, txHash) =>
      if v < |s.views| then
        var w := s.views[v];
        s.(burns := UpdateConditional(s.burns, w.id, Confirmed(w.read, txHash, s.clock), w.read.version))
      else s
    case Demote(v) =>
      if v < |s.views| && s.views[v].read.status.Burned? then
        var w := s.views[v];
        s.(burns := UpdateConditional(s.burns, w.id, Demoted(w.read), w.read.version))
      else s
  }

  const EMPTY := Ledger([], 0, Free, [])

  function Run(totals: nat -> nat, steps: seq<Step>): Ledger {
    if steps == [] then EMPTY else Apply(totals, Run(totals, steps[..|steps| - 1]), steps[|steps| - 1])
  }

  // Invariant

  /** A copy with the current version is the current burn. */
  ghost predicate CurrentIfSameVersion(burns: seq<Burn>, id: nat, read: Burn) {
    && id < |burns| && read.version <= burns[id].version
    && read.amount == burns[id].amount && read.record == burns[id].record
    && (read.version == burns[id].version ==> read == burns[id])
  }

  ghost predicate OperationFits(totals: nat -> nat, s: Ledger) {
    match s.operation
    case Free => true
    case Creating(record, _, amount) => amount + Held(s.burns, record, s.clock, None) <= totals(record)
    case Reissuing(id, read) => CurrentIfSameVersion(s.burns, id, read) && !read.status.Burned?
    case Renewing(id, read) =>
      && CurrentIfSameVersion(s.burns, id, read) && !read.status.Burned?
      && read.amount + Held(s.burns, read.record, s.clock, Some(id)) <= totals(read.record)
  }

  /** A late burn is burned and its reservation is over. */
  ghost predicate LateIsExpired(s: Ledger) {
    forall i :: 0 <= i < |s.burns| && s.burns[i].late ==> s.burns[i].status.Burned? && s.burns[i].validUntil <= s.clock
  }

  ghost predicate Bounded(totals: nat -> nat, s: Ledger) {
    && (forall record: nat :: Held(s.burns, record, s.clock, None) <= totals(record))
    && OperationFits(totals, s)
    && LateIsExpired(s)
    && (forall v :: 0 <= v < |s.views| ==> CurrentIfSameVersion(s.burns, s.views[v].id, s.views[v].read))
  }

  /** Reconciliation and time never add to what is held. */
  ghost predicate HoldsNoMore(a: Ledger, b: Ledger) {
    && |a.burns| == |b.burns|
    && forall i, record: nat, skip :: 0 <= i < |a.burns| ==>
         HeldWeight(record, b.clock, skip)(i, b.burns[i]) <= HeldWeight(record, a.clock, skip)(i, a.burns[i])
  }

  lemma HeldShrinks(a: Ledger, b: Ledger, record: nat, skip: Option<nat>)
    requires HoldsNoMore(a, b)
    ensures Held(b.burns, record, b.clock, skip) <= Held(a.burns, record, a.clock, skip)
  {
    SumMonotone(b.burns, a.burns, HeldWeight(record, b.clock, skip), HeldWeight(record, a.clock, skip));
  }

  lemma VersionsStay(burns: seq<Burn>, id: nat, b: Burn, expected: nat, vid: nat, read: Burn)
    requires CurrentIfSameVersion(burns, vid, read)
    requires id < |burns| ==> b.amount == burns[id].amount && b.record == burns[id].record
    ensures CurrentIfSameVersion(UpdateConditional(burns, id, b, expected), vid, read)
  {
  }

  /** A conditional write that holds no more keeps the bound. */
  lemma QuietWriteBounded(totals: nat -> nat, s: Ledger, s': Ledger, id: nat, b: Burn, expected: nat)
    requires Bounded(totals, s) && s' == s.(burns := UpdateConditional(s.burns, id, b, expected))
    requires id < |s.burns| ==> b.amount == s.burns[id].amount && b.record == s.burns[id].record
    requires HoldsNoMore(s, s') && LateIsExpired(s')
    ensures Bounded(totals, s')
  {
    forall record: nat ensures Held(s'.burns, record, s'.clock, None) <= totals(record) {
      HeldShrinks(s, s', record, None);
    }
    match s.operation
    case Creating(record, _, _) => HeldShrinks(s, s', record, None);
    case Renewing(rid, read) =>
      HeldShrinks(s, s', read.record, Some(rid));
      VersionsStay(s.burns, id, b, expected, rid, read);
    case Reissuing(rid, read) => VersionsStay(s.burns, id, b, expected, rid, read);
    case Free =>
    forall v | 0 <= v < |s'.views| ensures CurrentIfSameVersion(s'.burns, s'.views[v].id, s'.views[v].read) {
      VersionsStay(s.burns, id, b, expected, s.views[v].id, s.views[v].read);
    }
  }

  lemma ConfirmBounded(totals: nat -> nat, s: Ledger, v: nat, txHash: nat)
    requires Bounded(totals, s)
    ensures Bounded(totals, Apply(totals, s, Confirm(v, txHash)))
  {
    if v < |s.views| {
      var w := s.views[v];
      assert CurrentIfSameVersion(s.burns, w.id, w.read);
      QuietWriteBounded(totals, s, Apply(totals, s, Confirm(v, txHash)), w.id, Confirmed(w.read, txHash, s.clock), w.read.version);
    }
  }

  lemma DemoteBounded(totals: nat -> nat, s: Ledger, v: nat)
    requires Bounded(totals, s)
    ensures Bounded(totals, Apply(totals, s, Demote(v)))
  {
    if v < |s.views| && s.views[v].read.status.Burned? {
      var w := s.views[v];
      assert CurrentIfSameVersion(s.burns, w.id, w.read);
      QuietWriteBounded(totals, s, Apply(totals, s, Demote(v)), w.id, Demoted(w.read), w.read.version);
    }
  }

  lemma AdvanceBounded(totals: nat -> nat, s: Ledger, seconds: nat)
    requires Bounded(totals, s)
    ensures Bounded(totals, Apply(totals, s, Advance(seconds)))
  {
    var s' := Apply(totals, s, Advance(seconds));
    assert HoldsNoMore(s, s');
    forall record: nat ensures Held(s'.burns, record, s'.clock, None) <= totals(record) {
      HeldShrinks(s, s', record, None);
    }
    match s.operation
    case Creating(record, _, _) => HeldShrinks(s, s', record, None);
    case Renewing(id, read) => HeldShrinks(s, s', read.record, Some(id));
    case _ =>
  }

  lemma CreateBounded(totals: nat -> nat, s: Ledger)
    requires Bounded(totals, s) && s.operation.Creating?
    ensures Bounded(totals, Apply(totals, s, CommitCreate))
  {
    var s' := Apply(totals, s, CommitCreate);
    var b := Fresh(s.operation.record, s.operation.operation, s.operation.amount, s.clock);
    forall record: nat ensures Held(s'.burns, record, s'.clock, None) <= totals(record) {
      assert s'.burns[..|s.burns|] == s.burns;
    }
    forall v | 0 <= v < |s'.views| ensures CurrentIfSameVersion(s'.burns, s'.views[v].id, s'.views[v].read) {
      assert CurrentIfSameVersion(s.burns, s.views[v].id, s.views[v].read);
    }
  }

  lemma ReissueBounded(totals: nat -> nat, s: Ledger)
    requires Bounded(totals, s) && s.operation.Renewing?
    ensures Bounded(totals, Apply(totals, s, CommitReissue))
  {
    var s' := Apply(totals, s, CommitReissue);
    var id, read := s.operation.id, s.operation.read;
    var b := Renewed(read, s.clock);
    forall record: nat ensures Held(s'.burns, record, s'.clock, None) <= totals(record) {
      if s'.burns != s.burns {
        var all, others := HeldWeight(record, s.clock, None), HeldWeight(record, s.clock, Some(id));
        SumWithout(s'.burns, all, others, id);
        SumMonotone(s'.burns, s.burns, others, others);
        if record != read.record {
          SumMonotone(s.burns, s.burns, others, all);
        }
      }
    }
    forall v | 0 <= v < |s'.views| ensures CurrentIfSameVersion(s'.burns, s'.views[v].id, s'.views[v].read) {
      VersionsStay(s.burns, id, b, read.version, s.views[v].id, s.views[v].read);
    }
  }

  lemma ApplyBounded(totals: nat -> nat, s: Ledger, step: Step)
    requires Bounded(totals, s)
    ensures Bounded(totals, Apply(totals, s, step))
  {
    match step
    case Advance(seconds) => AdvanceBounded(totals, s, seconds);
    case BeginCreate(record, _, _) => DeductedSplits(s.burns, record, s.clock, None);
    case CommitCreate => if s.operation.Creating? { CreateBounded(totals, s); }
    case CheckReissue =>
      if s.operation.Reissuing? {
        DeductedSplits(s.burns, s.operation.read.record, s.clock, Some(s.operation.id));
      }
    case CommitReissue => if s.operation.Renewing? { ReissueBounded(totals, s); }
    case Confirm(v, txHash) => ConfirmBounded(totals, s, v, txHash);
    case Demote(v) => DemoteBounded(totals, s, v);
    case _ =>
  }

  lemma {:induction false} RunBounded(totals: nat -> nat, steps: seq<Step>)
    ensures Bounded(totals, Run(totals, steps))
  {
    if steps != [] {
      RunBounded(totals, steps[..|steps| - 1]);
      ApplyBounded(totals, Run(totals, steps[..|steps| - 1]), steps[|steps| - 1]);
    }
  }

  /** In every run, a record is overdrawn by at most its burns that were confirmed too late. */
  lemma RemainingBound(totals: nat -> nat, steps: seq<Step>, record: nat)
    ensures var s := Run(totals, steps);
      Remaining(totals(record), s.burns, record, s.clock, None) + LateTotal(s.burns, record, None) >= 0
  {
    var s := Run(totals, steps);
    RunBounded(totals, steps);
    DeductedSplits(s.burns, record, s.clock, None);
  }

  /** Without late confirmations a record is never overdrawn. */
  lemma NeverOverdrawn(totals: nat -> nat, steps: seq<Step>, record: nat)
    requires forall i :: 0 <= i < |Run(totals, steps).burns| ==> !Run(totals, steps).burns[i].late
    ensures var s := Run(totals, steps);
      Remaining(totals(record), s.burns, record, s.clock, None) >= 0
  {
    var s := Run(totals, steps);
    RemainingBound(totals, steps, record);
    NothingLate(s.burns, record);
  }

  lemma {:induction false} NothingLate(burns: seq<Burn>, record: nat)
    requires forall i :: 0 <= i < |burns| ==> !burns[i].late
    ensures LateTotal(burns, record, None) == 0
  {
    if burns != [] {
      NothingLate(burns[..|burns| - 1], record);
    }
  }

  /** A new or renewed reservation counts for exactly 30 days. */
  lemma ReservationExactly(record: nat, operation: nat, amount: nat, b: Burn, at: int, now: int)
    requires b.status.Pending?
    ensures Deducts(Fresh(record, operation, amount, at), now) <==> now < at + 2_592_000
    ensures Deducts(Renewed(b, at), now) <==> now < at + 2_592_000
    ensures var made := Fresh(record, operation, amount, at);
      made.record == record && made.operation == operation && made.amount == amount && made.status.Pending? && made.txHash.None?
    ensures Renewed(b, at) == b.(validUntil := at + 2_592_000)
  {
  }

  /** Without late confirmations a reservation that still counts can always be renewed: nothing else was promised its amount. */
  lemma RenewalFits(totals: nat -> nat, steps: seq<Step>, i: nat)
    requires var s := Run(totals, steps);
      i < |s.burns| && s.burns[i].status.Pending? && s.burns[i].validUntil > s.clock && LateTotal(s.burns, s.burns[i].record, None) == 0
    ensures var s := Run(totals, steps);
      s.burns[i].amount <= Remaining(totals(s.burns[i].record), s.burns, s.burns[i].record, s.clock, Some(i))
  {
    var s := Run(totals, steps);
    var record := s.burns[i].record;
    RunBounded(totals, steps);
    SumWithout(s.burns, HeldWeight(record, s.clock, None), HeldWeight(record, s.clock, Some(i)), i);
    SumMonotone(s.burns, s.burns, LateWeight(record, Some(i)), LateWeight(record, None));
    DeductedSplits(s.burns, record, s.clock, Some(i));
  }

  // The bound is reached

  /** Every record has the same amount. */
  function Each(total: nat): nat -> nat {
    (record: nat) => total
  }

  lemma RunSnoc(totals: nat -> nat, steps: seq<Step>, step: Step)
    ensures Run(totals, steps + [step]) == Apply(totals, Run(totals, steps), step)
  {
    assert (steps + [step])[..|steps|] == steps;
  }

  lemma OneBurn(total: nat, b: Burn, now: int)
    ensures Remaining(total, [b], b.record, now, None) == total - if Deducts(b, now) then b.amount else 0
  {
    assert [b][..0] == [];
    assert DeductedFrom([b][..0], b.record, now, None) == 0;
  }

  lemma TwoBurns(total: nat, b: Burn, c: Burn, now: int)
    requires b.record == c.record && Deducts(b, now) && Deducts(c, now)
    ensures Remaining(total, [b, c], b.record, now, None) == total - b.amount - c.amount
  {
    assert [b, c][..1] == [b];
    OneBurn(total, b, now);
  }

  lemma CreatedAndExpired(total: nat) returns (steps: seq<Step>)
    requires total > 0
    ensures Run(Each(total), steps) == Ledger([Fresh(0, 1, total, 0)], RESERVATION_WINDOW, Free, [])
  {
    var totals, first := Each(total), Fresh(0, 1, total, 0);
    steps := [];
    RunSnoc(totals, steps, BeginCreate(0, 1, total));
    steps := steps + [BeginCreate(0, 1, total)];
    assert Run(totals, steps) == Ledger([], 0, Creating(0, 1, total), []);
    RunSnoc(totals, steps, CommitCreate);
    steps := steps + [CommitCreate];
    assert Run(totals, steps) == Ledger([first], 0, Free, []);
    RunSnoc(totals, steps, Advance(RESERVATION_WINDOW));
    steps := steps + [Advance(RESERVATION_WINDOW)];
  }

  /** A whole record is created, expires, and is created again. */
  lemma CreatedTwice(total: nat) returns (steps: seq<Step>)
    requires total > 0
    ensures Run(Each(total), steps) ==
      Ledger([Fresh(0, 1, total, 0), Fresh(0, 2, total, RESERVATION_WINDOW)], RESERVATION_WINDOW, Free, [])
  {
    var totals, first := Each(total), Fresh(0, 1, total, 0);
    steps := CreatedAndExpired(total);
    OneBurn(total, first, RESERVATION_WINDOW);
    RunSnoc(totals, steps, BeginCreate(0, 2, total));
    steps := steps + [BeginCreate(0, 2, total)];
    assert Run(totals, steps) == Ledger([first], RESERVATION_WINDOW, Creating(0, 2, total), []);
    RunSnoc(totals, steps, CommitCreate);
    steps := steps + [CommitCreate];
  }

  /** Whatever a record's amount, one late confirmation can overdraw it by all of it. */
  lemma LateConfirmationOverdraws(total: nat) returns (steps: seq<Step>)
    requires total > 0
    ensures var s := Run(Each(total), steps);
      Remaining(total, s.burns, 0, s.clock, None) + total == 0 && LateTotal(s.burns, 0, None) == total
  {
    var totals, first, second := Each(total), Fresh(0, 1, total, 0), Fresh(0, 2, total, RESERVATION_WINDOW);
    steps := CreatedTwice(total);
    RunSnoc(totals, steps, ReadBurn(0));
    steps := steps + [ReadBurn(0)];
    assert Run(totals, steps) == Ledger([first, second], RESERVATION_WINDOW, Free, [View(0, first)]);
    RunSnoc(totals, steps, Confirm(0, 7));
    steps := steps + [Confirm(0, 7)];
    var burned := Confirmed(first, 7, RESERVATION_WINDOW).(version := 1);
    assert Run(totals, steps).burns == [burned, second];
    TwoBurns(total, burned, second, RESERVATION_WINDOW);
    LateOfTwo(burned, second);
  }

  lemma LateOfTwo(b: Burn, c: Burn)
    requires b.record == 0 && b.status.Burned? && b.late && !c.late
    ensures LateTotal([b, c], 0, None) == b.amount
  {
    assert [b, c][..1] == [b] && [b][..0] == [];
    assert Sum([b][..0], LateWeight(0, None)) == 0;
    assert Sum([b], LateWeight(0, None)) == b.amount;
  }
}
