/** The compliance projection: investor statuses rebuilt from indexed StatusChanged events. */
module Projector {
  import opened Words
  import Sorting

  datatype Status = Unknown | Allowed | Blocked

  /** A decoded event field, by the dynamic type it arrives with. */
  datatype Value = Missing | Text(text: string) | U8(n8: int) | Signed(n: int) | Unsigned(u: U64) | Float(x: real)

  datatype ChainEvent = ChainEvent(block: U64, log: nat, name: string, account: Value, newStatus: Value, newValidUntil: Value)

  datatype State = State(status: Status, validUntil: int)

  datatype Investor = Investor(status: Status, validUntil: int, owned: bool, created: int, updated: int)

  type Store = map<string, Investor>

  const MIN_I64 := -0x8000_0000_0000_0000

  function ToString(v: Value): string {
    if v.Text? then v.text else ""
  }

  function ToUint8(v: Value): int {
    match v
    case U8(n) => n
    case Signed(n) => if 0 <= n <= 255 then n else 0
    case Unsigned(u) => if u > 255 then 0 else u
    case Float(x) => if x < 0.0 || x > 255.0 then 0 else x.Floor
    case _ => 0
  }

  /** Go's float-to-integer conversion truncates; out of range it gives the least int64, as on amd64. */
  function Truncate(x: real): int {
    var t := if x >= 0.0 then x.Floor else -((-x).Floor);
    if MIN_I64 <= t < -MIN_I64 then t else MIN_I64
  }

  function ToInt64(v: Value): int {
    match v
    case Unsigned(u) => WrapInt64(u)
    case Signed(n) => n
    case Float(x) => Truncate(x)
    case _ => 0
  }

  function StatusNamed(n: int): Status {
    if n == 1 then Allowed else if n == 2 then Blocked else Unknown
  }

  function StateOf(e: ChainEvent): State {
    State(StatusNamed(ToUint8(e.newStatus)), ToInt64(e.newValidUntil))
  }

  /** The number a field carries. */
  function Number(v: Value): real {
    match v
    case U8(n) => n as real
    case Signed(n) => n as real
    case Unsigned(u) => u as real
    case Float(x) => x
    case _ => 0.0
  }

  /** No out-of-range number wraps into a status that allows or blocks. */
  lemma NoWrapIntoStatus(e: ChainEvent)
    ensures StateOf(e).status.Allowed? <==> 1.0 <= Number(e.newStatus) < 2.0
    ensures StateOf(e).status.Blocked? <==> 2.0 <= Number(e.newStatus) < 3.0
  {
  }

  /** The validity date is carried as it is: signed as it stands, unsigned in two's complement, and a float without its
      fraction as long as it fits. */
  lemma ValidUntilExactly(e: ChainEvent)
    ensures e.newValidUntil.Signed? ==> StateOf(e).validUntil == e.newValidUntil.n
    ensures e.newValidUntil.Unsigned? ==>
      StateOf(e).validUntil == if e.newValidUntil.u < 0x8000_0000_0000_0000 then e.newValidUntil.u else e.newValidUntil.u - 0x1_0000_0000_0000_0000
    ensures e.newValidUntil.Float? && 0.0 <= e.newValidUntil.x < 9223372036854775808.0 ==>
      StateOf(e).validUntil as real <= e.newValidUntil.x < StateOf(e).validUntil as real + 1.0
    ensures e.newValidUntil.Float? && -9223372036854775808.0 <= e.newValidUntil.x < 0.0 ==>
      StateOf(e).validUntil as real - 1.0 < e.newValidUntil.x <= StateOf(e).validUntil as real
    ensures e.newValidUntil.Missing? || e.newValidUntil.Text? || e.newValidUntil.U8? ==> StateOf(e).validUntil == 0
  {
  }

  predicate AtMost(e: ChainEvent, f: ChainEvent) {
    e.block < f.block || (e.block == f.block && e.log <= f.log)
  }

  predicate About(e: ChainEvent, account: string) {
    e.name == "StatusChanged" && account != "" && ToString(e.account) == account
  }

  // Replay

  ghost predicate Mentioned(events: seq<ChainEvent>, account: string) {
    exists e :: e in events && About(e, account)
  }

  /** `e` is a last event about the account. */
  ghost predicate Newest(events: seq<ChainEvent>, account: string, e: ChainEvent) {
    e in events && About(e, account) && forall f :: f in events && About(f, account) ==> AtMost(f, e)
  }

  ghost predicate FromNewest(events: seq<ChainEvent>, account: string, state: State) {
    exists e :: Newest(events, account, e) && state == StateOf(e)
  }

  /** `states` holds, for each account some event is about, the state its last event gives. */
  ghost predicate Replays(events: seq<ChainEvent>, states: map<string, State>) {
    && (forall account :: account in states <==> Mentioned(events, account))
    && (forall account :: account in states ==> FromNewest(events, account, states[account]))
  }

  lemma PositionOrder()
    ensures Sorting.Preorder(AtMost)
  {
  }

  /** One more event, no earlier than the rest. */
  lemma ReplayNext(prior: seq<ChainEvent>, states: map<string, State>, e: ChainEvent)
    requires Replays(prior, states) && forall f :: f in prior ==> AtMost(f, e)
    ensures var account := ToString(e.account);
      Replays(prior + [e], if About(e, account) then states[account := StateOf(e)] else states)
  {
    var account := ToString(e.account);
    var events := prior + [e];
    var next := if About(e, account) then states[account := StateOf(e)] else states;
    forall a ensures a in next <==> Mentioned(events, a) {
      if Mentioned(prior, a) {
        var f :| f in prior && About(f, a);
        assert f in events;
      }
      if About(e, a) {
        assert e in events;
      }
    }
    forall a | a in next ensures FromNewest(events, a, next[a]) {
      if a == account && About(e, account) {
        assert Newest(events, a, e);
      } else {
        var f :| Newest(prior, a, f) && states[a] == StateOf(f);
        assert Newest(events, a, f);
      }
    }
  }

  ghost predicate SameElements(a: seq<ChainEvent>, b: seq<ChainEvent>) {
    forall e :: e in a <==> e in b
  }

  /** Replaying depends on which events there are, not on their order. */
  lemma ReplaysSameEvents(a: seq<ChainEvent>, b: seq<ChainEvent>, states: map<string, State>)
    requires Replays(a, states) && SameElements(a, b)
    ensures Replays(b, states)
  {
    forall account ensures account in states <==> Mentioned(b, account) {
      assert Mentioned(a, account) <==> Mentioned(b, account);
    }
    forall account | account in states ensures FromNewest(b, account, states[account]) {
      var e :| Newest(a, account, e) && states[account] == StateOf(e);
      assert Newest(b, account, e);
    }
  }

  /** For distinct log positions the replay is the same whatever order the events are supplied in. */
  lemma ReplayIsCanonical(a: seq<ChainEvent>, b: seq<ChainEvent>, s: map<string, State>, t: map<string, State>)
    requires Replays(a, s) && Replays(b, t) && Sorting.Untied(a, AtMost) && SameElements(a, b)
    ensures s == t
  {
    ReplaysSameEvents(b, a, t);
    assert forall account :: account in s <==> account in t;
    forall account | account in s ensures s[account] == t[account] {
      var e :| Newest(a, account, e) && s[account] == StateOf(e);
      var f :| Newest(a, account, f) && t[account] == StateOf(f);
      assert AtMost(e, f) && AtMost(f, e);
    }
  }

  /** `e` is a StatusChanged event about the account, later in the chain than every other one. */
  ghost predicate LastChange(events: seq<ChainEvent>, account: string, e: ChainEvent) {
    && e in events && e.name == "StatusChanged" && e.account == Text(account)
    && forall f :: f in events && f.name == "StatusChanged" && f.account == Text(account) && f != e ==>
         f.block < e.block || (f.block == e.block && f.log < e.log)
  }

  /** For distinct log positions an account has a state exactly if it is not empty and some event changes it, and then the
      state that the last such event in the chain gives. */
  lemma ReplayExactly(events: seq<ChainEvent>, states: map<string, State>, account: string)
    requires Replays(events, states) && Sorting.Untied(events, AtMost)
    ensures account in states <==> account != "" && exists e :: e in events && e.name == "StatusChanged" && e.account == Text(account)
    ensures account in states ==> exists e :: LastChange(events, account, e) && states[account] == StateOf(e)
  {
    if account in states {
      var e :| Newest(events, account, e) && states[account] == StateOf(e);
      assert LastChange(events, account, e);
    }
    if e :| e in events && e.name == "StatusChanged" && e.account == Text(account) && account != "" {
      assert About(e, account);
    }
  }

  method SortByPosition(events: seq<ChainEvent>) returns (sorted: seq<ChainEvent>)
    ensures Sorting.Sorted(sorted, AtMost) && multiset(sorted) == multiset(events)
  {
    PositionOrder();
    Sorting.SortSorted(events, AtMost);
    sorted := Sorting.Sort(events, AtMost);
  }

  method BuildStatuses(events: seq<ChainEvent>) returns (states: map<string, State>)
    ensures Replays(events, states)
  {
    var sorted := SortByPosition(events);
    states := map[];
    var i := 0;
    while i < |sorted|
      invariant 0 <= i <= |sorted|
      invariant Replays(sorted[..i], states)
    {
      var e := sorted[i];
      assert sorted[..i + 1] == sorted[..i] + [e];
      ReplayNext(sorted[..i], states, e);
      i := i + 1;
      if e.name != "StatusChanged" {
        continue;
      }
      var account := ToString(e.account);
      if account == "" {
        continue;
      }
      states := states[account := StateOf(e)];
    }
    assert sorted[..i] == sorted;
    forall e ensures e in sorted <==> e in events {
      assert e in multiset(sorted) <==> e in multiset(events);
    }
    ReplaysSameEvents(sorted, events, states);
  }

  // Reconcile

  const NO_STATE := State(Unknown, 0)

  function StateIn(states: map<string, State>, account: string): State {
    if account in states then states[account] else NO_STATE
  }

  /** The record one account ends with. */
  function Renewed(store: Store, states: map<string, State>, account: string, now: int): Investor
    requires account in store || account in states
  {
    if account in states then
      var state := states[account];
      if account in store
      then Investor(state.status, state.validUntil, store[account].owned, store[account].created, now)
      else Investor(state.status, state.validUntil, false, now, now)
    else
      var inv := store[account];
      if inv.status.Unknown? && inv.validUntil == 0 then inv
      else inv.(status := Unknown, validUntil := 0, updated := now)
  }

  /** A reconcile that got as far as writing the accounts in `done`. */
  function Renew(store: Store, states: map<string, State>, done: set<string>, now: int): Store {
    map account | account in store.Keys + states.Keys * done ::
      if account in done then Renewed(store, states, account, now) else store[account]
  }

  /** A reconcile that finished. */
  function Reconciled(store: Store, states: map<string, State>, now: int): Store {
    map account | account in store.Keys + states.Keys :: Renewed(store, states, account, now)
  }

  lemma RenewMore(store: Store, states: map<string, State>, done: set<string>, account: string, now: int)
    requires account in store || account in states
    ensures Renew(store, states, done + {account}, now) == Renew(store, states, done, now)[account := Renewed(store, states, account, now)]
  {
  }

  /** The projection's store. Its calls extend `trace`, a history that ends in the stored investors. */
  class StatusProjector {
    var investors: Store
    ghost var trace: seq<Action>

    constructor ()
      ensures Valid() && trace == []
    {
      investors, trace := map[], [];
    }

    ghost predicate Valid()
      reads this
    {
      investors == Execute(trace).investors
    }

    /** The next action of the history. */
    ghost method Took(action: Action)
      modifies this`trace
      ensures trace == old(trace) + [action] && Execute(trace) == Apply(Execute(old(trace)), action)
    {
      ExecuteSnoc(trace, action);
      trace := trace + [action];
    }

    /** The indexer stores or rolls back events on its own. */
    ghost method Observe(action: Action)
      requires Valid() && (action.Index? || action.Rollback?)
      modifies this`trace
      ensures Valid() && trace == old(trace) + [action]
    {
      Took(action);
    }

    /** Reconciles from the listed events; after `writes` upserts the repository fails. */
    method Reconcile(events: seq<ChainEvent>, now: int, writes: nat) returns (ok: bool, ghost states: map<string, State>, ghost done: set<string>)
      requires Valid() && SameElements(events, Survivors(trace))
      modifies this
      ensures Valid() && trace == old(trace) + [Pass(states, done, now)]
      ensures Replays(Survivors(trace), states)
      ensures investors == Renew(old(investors), states, done, now)
      ensures ok ==> investors == Reconciled(old(investors), states, now)
    {
      var built := BuildStatuses(events);
      ReplaysSameEvents(events, Survivors(trace), built);
      states := built;
      var left: nat;
      ok, left, done := UpsertSurviving(built, now, writes);
      if ok {
        assert done == states.Keys;
        ok, done := ResetOrphans(old(investors), built, now, left);
      }
      Took(Pass(states, done, now));
      SurvivorsSnoc(old(trace), Pass(states, done, now));
    }

    method UpsertSurviving(states: map<string, State>, now: int, writes: nat) returns (ok: bool, left: nat, ghost done: set<string>)
      modifies this`investors
      ensures done <= states.Keys && (ok ==> done == states.Keys)
      ensures investors == Renew(old(investors), states, done, now)
    {
      left, done := writes, {};
      var todo := states.Keys;
      while todo != {}
        invariant todo <= states.Keys && done == states.Keys - todo
        invariant investors == Renew(old(investors), states, done, now)
        decreases todo
      {
        var account :| account in todo;
        if left == 0 {
          return false, left, done;
        }
        left := left - 1;
        var renewed := Investor(states[account].status, states[account].validUntil, false, now, now);
        if account in investors {
          renewed := renewed.(owned := investors[account].owned, created := investors[account].created);
        }
        RenewMore(old(investors), states, done, account, now);
        investors := investors[account := renewed];
        todo := todo - {account};
        done := done + {account};
      }
      ok := true;
    }

    method ResetOrphans(ghost before: Store, states: map<string, State>, now: int, writes: nat) returns (ok: bool, ghost done: set<string>)
      requires investors == Renew(before, states, states.Keys, now)
      modifies this`investors
      ensures investors == Renew(before, states, done, now)
      ensures ok ==> investors == Reconciled(before, states, now)
    {
      var left := writes;
      var all := investors;
      var todo := all.Keys;
      done := states.Keys;
      while todo != {}
        invariant todo <= all.Keys && done == states.Keys + (all.Keys - todo)
        invariant investors == Renew(before, states, done, now)
        decreases todo
      {
        var account :| account in todo;
        var inv := all[account];
        RenewMore(before, states, done, account, now);
        if account !in states && !(inv.status.Unknown? && inv.validUntil == 0) {
          if left == 0 {
            return false, done;
          }
          left := left - 1;
          investors := investors[account := inv.(status := Unknown, validUntil := 0, updated := now)];
        }
        todo := todo - {account};
        done := done + {account};
      }
      ok := true;
    }

    /** A proven ownership challenge. */
    method VerifyOwnership(account: string, now: int)
      requires Valid()
      modifies this
      ensures Valid() && trace == old(trace) + [Verify(account, now)]
      ensures investors == Owned(old(investors), account, now)
    {
      Took(Verify(account, now));
      var inv := Investor(Unknown, 0, false, now, now);
      if account in investors {
        inv := investors[account];
      }
      investors := investors[account := inv.(owned := true, updated := now)];
    }
  }

  function Owned(store: Store, account: string, now: int): Store {
    var inv := if account in store then store[account] else Investor(Unknown, 0, false, now, now);
    store[account := inv.(owned := true, updated := now)]
  }

  // Histories

  datatype World = World(events: seq<ChainEvent>, investors: Store)

  datatype Action =
    | Index(e: ChainEvent)
    | Rollback(from: U64)
    | Verify(account: string, at: int)
    | Pass(states: map<string, State>, done: set<string>, now: int)

  /** The events below a block. */
  function Below(events: seq<ChainEvent>, from: U64): seq<ChainEvent> {
    if events == [] then [] else
    var rest := Below(events[..|events| - 1], from);
    var e := events[|events| - 1];
    if e.block < from then rest + [e] else rest
  }

  function Apply(w: World, action: Action): World {
    match action
    case Index(e) => w.(events := w.events + [e])
    case Rollback(from) => w.(events := Below(w.events, from))
    case Verify(account, at) => w.(investors := Owned(w.investors, account, at))
    case Pass(states, done, now) => w.(investors := Renew(w.investors, states, done, now))
  }

  function Execute(run: seq<Action>): World {
    if run == [] then World([], map[]) else Apply(Execute(run[..|run| - 1]), run[|run| - 1])
  }

  /** What indexing and rollbacks leave. */
  function Survivors(run: seq<Action>): seq<ChainEvent> {
    if run == [] then [] else
    var events := Survivors(run[..|run| - 1]);
    match run[|run| - 1]
    case Index(e) => events + [e]
    case Rollback(from) => Below(events, from)
    case _ => events
  }

  /** Who proved ownership. */
  function Owners(run: seq<Action>): set<string> {
    if run == [] then {} else
    var owners := Owners(run[..|run| - 1]);
    if run[|run| - 1].Verify? then owners + {run[|run| - 1].account} else owners
  }

  lemma {:induction false} HistorySplits(run: seq<Action>)
    ensures Execute(run).events == Survivors(run)
    ensures forall account :: account in Owners(run) <==>
      account in Execute(run).investors && Execute(run).investors[account].owned
  {
    if run != [] {
      HistorySplits(run[..|run| - 1]);
    }
  }

  lemma ExecuteSnoc(run: seq<Action>, action: Action)
    ensures Execute(run + [action]) == Apply(Execute(run), action)
  {
    assert (run + [action])[..|run|] == run;
  }

  lemma SurvivorsSnoc(run: seq<Action>, action: Action)
    requires action.Pass?
    ensures Survivors(run + [action]) == Survivors(run)
  {
    assert (run + [action])[..|run|] == run;
  }

  function View(store: Store, account: string): State {
    if account in store then State(store[account].status, store[account].validUntil) else NO_STATE
  }

  ghost predicate OwnedIn(store: Store, account: string) {
    account in store && store[account].owned
  }

  /** A finished reconcile shows every account exactly what the replay says. */
  lemma ReconciledView(store: Store, states: map<string, State>, now: int, account: string)
    ensures View(Reconciled(store, states, now), account) == StateIn(states, account)
  {
  }

  /** After any history of indexing, rollbacks, ownership proofs and reconciles, finished or not, one finished
      reconcile shows every account the status that replaying the surviving events into an empty store shows,
      and keeps exactly the proven ownerships. */
  lemma OnlySurvivorsMatter(run: seq<Action>, states: map<string, State>, now: int,
                            replayed: seq<ChainEvent>, freshStates: map<string, State>, freshNow: int, account: string)
    requires Replays(Execute(run).events, states)
    requires SameElements(replayed, Survivors(run)) && Sorting.Untied(replayed, AtMost) && Replays(replayed, freshStates)
    ensures var after := Reconciled(Execute(run).investors, states, now);
      && View(after, account) == View(Reconciled(map[], freshStates, freshNow), account)
      && (OwnedIn(after, account) <==> account in Owners(run))
  {
    HistorySplits(run);
    ReplayIsCanonical(replayed, Survivors(run), freshStates, states);
    ReconciledView(Execute(run).investors, states, now, account);
    ReconciledView(map[], freshStates, freshNow, account);
  }

  /** An account that a reconcile first sees is created there and then; an ownership proof changes only the flag and the
      update time of an account, or creates it Unknown. */
  lemma FirstSight(store: Store, states: map<string, State>, now: int, account: string)
    requires account in states && account !in store
    ensures Reconciled(store, states, now)[account] == Investor(states[account].status, states[account].validUntil, false, now, now)
    ensures Owned(store, account, now) == store[account := Investor(Unknown, 0, true, now, now)]
  {
  }

  lemma ProofTouchesFlag(store: Store, now: int, account: string)
    requires account in store
    ensures var inv := store[account];
      Owned(store, account, now) == store[account := Investor(inv.status, inv.validUntil, true, inv.created, now)]
  {
  }

  /** A second reconcile of the same events rewrites nothing but the update time, and not even that where no event is left. */
  lemma ReconcileIsIdempotent(store: Store, states: map<string, State>, now: int, later: int)
    ensures var once := Reconciled(store, states, now);
      var twice := Reconciled(once, states, later);
      && twice.Keys == once.Keys
      && forall account :: account in once ==>
           twice[account] == if account in states then once[account].(updated := later) else once[account]
  {
  }

  /** No reconcile, finished or not, drops an account or touches its ownership or creation time. */
  lemma RenewKeepsOffChain(store: Store, states: map<string, State>, done: set<string>, now: int)
    ensures forall account :: account in store ==>
      var r := Renew(store, states, done, now);
      account in r && r[account].owned == store[account].owned && r[account].created == store[account].created
    ensures forall account :: account in Renew(store, states, done, now) && account !in store ==> !Renew(store, states, done, now)[account].owned
  {
  }

  /** Whenever an unambiguous listing is replayed into an empty store, the object shows the same after one finished reconcile. */
  lemma ObjectShowsSurvivors(projector: StatusProjector, states: map<string, State>, now: int,
                             replayed: seq<ChainEvent>, freshStates: map<string, State>, freshNow: int, account: string)
    requires projector.Valid() && Replays(Survivors(projector.trace), states)
    requires SameElements(replayed, Survivors(projector.trace)) && Sorting.Untied(replayed, AtMost) && Replays(replayed, freshStates)
    ensures var after := Reconciled(projector.investors, states, now);
      && View(after, account) == View(Reconciled(map[], freshStates, freshNow), account)
      && (OwnedIn(after, account) <==> account in Owners(projector.trace))
  {
    HistorySplits(projector.trace);
    OnlySurvivorsMatter(projector.trace, states, now, replayed, freshStates, freshNow, account);
  }
}
