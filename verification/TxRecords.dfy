/** Transaction records of the transaction manager and the queries it runs over them. */
module TxRecords {
  import opened Options
  import opened Words
  import opened Fees

  type Address = nat

  datatype Status =
    | Pending | Mined | Confirmed | Replaced | Reverted | Reorged | Failed
    | BroadcastUnknown | NonceConsumedExternally | NeedsIntervention

  /** Calldata the server builds; the manager never looks inside. */
  datatype Calldata = SetStatus(account: Address, status: nat, validUntil: int) | Opaque(bytes: string)

  datatype Call = Call(to: Address, data: Calldata, value: int)

  /** The bytes of a signed transaction. They determine its hash; `seal` stands for the signature. */
  datatype Signed = Signed(from: Address, nonce: U64, call: Call, gas: U64, fees: Fees, seal: nat)

  datatype Attempt = Attempt(nonce: U64, raw: Signed, status: Status)

  /** One stored record. A record's id is its position in the store; nothing deletes records. */
  datatype Tx = Tx(
    key: string,
    from: Address,
    call: Call,
    nonce: U64,
    raw: Signed,
    status: Status,
    block: U64,
    blockHash: nat,
    replacedBy: Option<nat>,
    replacing: Option<nat>, // the record this one replaces
    count: nat,
    allow: bool,
    version: nat,
    attempts: seq<Attempt>,
    eventDerived: bool)

  type Store = seq<Tx>

  /** Writes record `id`, creating it when `id` is the next fresh one. */
  function Put(store: Store, id: nat, tx: Tx): (r: Store)
    requires id <= |store|
    ensures |store| <= |r| && id < |r| && r[id] == tx
    ensures forall i :: 0 <= i < |store| && i != id ==> r[i] == store[i]
    ensures |r| == if id == |store| then |store| + 1 else |store|
  {
    if id == |store| then store + [tx] else store[id := tx]
  }

  predicate Retryable(tx: Tx) {
    tx.status.Failed? || ((tx.status.Reorged? || tx.status.NonceConsumedExternally?) && tx.allow)
  }

  /** Whether `tx` stops its sender's further submissions. */
  predicate Blocks(tx: Tx, from: Address) {
    tx.from == from
    && (tx.status.NeedsIntervention? || ((tx.status.Reorged? || tx.status.NonceConsumedExternally?) && !tx.allow))
  }

  predicate Blocked(store: Store, from: Address) {
    exists i :: 0 <= i < |store| && Blocks(store[i], from)
  }

  /** Whether `tx` still holds its nonce when the next one is allocated. */
  predicate Holds(tx: Tx, from: Address) {
    tx.from == from
    && !tx.status.Failed? && !tx.status.Reorged? && !tx.status.NonceConsumedExternally? && !tx.status.Replaced?
  }

  function Max(a: U64, b: U64): U64 {
    if a < b then b else a
  }

  /** The larger of `floor` and one past each held nonce, as a fold over the records. */
  function NextNonce(store: Store, from: Address, floor: U64): (r: U64)
    ensures floor <= r
  {
    if store == [] then floor else
    var prior := NextNonce(store[..|store| - 1], from, floor);
    var last := store[|store| - 1];
    if Holds(last, from) then Max(prior, Add64(last.nonce, 1)) else prior
  }

  /** Only a record at the last uint64 nonce, whose successor wraps to 0, escapes the new nonce. */
  lemma {:induction false} NextNonceExceedsHeld(store: Store, from: Address, floor: U64, i: nat)
    requires i < |store| && Holds(store[i], from)
    ensures store[i].nonce < NextNonce(store, from, floor) || store[i].nonce == MAX_U64
  {
    if i < |store| - 1 {
      assert store[..|store| - 1][i] == store[i];
      NextNonceExceedsHeld(store[..|store| - 1], from, floor, i);
    }
  }

  /** The allocated nonce is never larger than something asked for. */
  lemma {:induction false} NextNonceIsLeast(store: Store, from: Address, floor: U64)
    ensures var r := NextNonce(store, from, floor);
      r == floor || exists i :: 0 <= i < |store| && Holds(store[i], from) && r == Add64(store[i].nonce, 1)
  {
    if store != [] {
      var rest := store[..|store| - 1];
      NextNonceIsLeast(rest, from, floor);
      var r := NextNonce(store, from, floor);
      if r != floor && r == NextNonce(rest, from, floor) {
        var i :| 0 <= i < |rest| && Holds(rest[i], from) && r == Add64(rest[i].nonce, 1);
        assert store[i] == rest[i];
      }
    }
  }

  /** The record stored under a nonempty idempotency key. */
  function FindKey(store: Store, key: string): (r: Option<nat>)
    ensures r.Some? ==> key != "" && r.value < |store| && store[r.value].key == key
    ensures r.None? ==> key == "" || forall i :: 0 <= i < |store| ==> store[i].key != key
  {
    if key == "" || store == [] then None
    else if store[|store| - 1].key == key then Some(|store| - 1)
    else
      var r := FindKey(store[..|store| - 1], key);
      assert r.None? ==> forall i :: 0 <= i < |store| - 1 ==> store[i] == store[..|store| - 1][i];
      r
  }

  /** The Submit-created record a chain of Replaces links starts from. */
  function Root(store: Store, i: nat): (r: nat)
    requires i < |store|
    ensures r <= i
    decreases i
  {
    if store[i].replacing.Some? && store[i].replacing.value < i then Root(store, store[i].replacing.value) else i
  }

  /** Replaces links between a record and its root. */
  function Links(store: Store, i: nat): nat
    requires i < |store|
    decreases i
  {
    if store[i].replacing.Some? && store[i].replacing.value < i then 1 + Links(store, store[i].replacing.value) else 0
  }

  /** `next` extends `prior` without touching a Replaces link. */
  predicate SameLinks(prior: Store, next: Store) {
    |prior| <= |next| && forall i :: 0 <= i < |prior| ==> next[i].replacing == prior[i].replacing
  }

  lemma {:induction false} RootStable(prior: Store, next: Store, i: nat)
    requires SameLinks(prior, next) && i < |prior|
    ensures Root(next, i) == Root(prior, i)
    ensures Links(next, i) == Links(prior, i)
    decreases i
  {
    assert next[i].replacing == prior[i].replacing;
    if prior[i].replacing.Some? && prior[i].replacing.value < i {
      RootStable(prior, next, prior[i].replacing.value);
    }
  }
}
