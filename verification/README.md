# Models and proofs of the tokenization server's stateful cores

The server issues and administers tokenized real-world assets. This project models the parts of it whose
correctness depends on state that outlives one call, and proves what those parts promise over whole runs:

- **Transaction manager** (`Fees`, `TxRecords`, `TxSpec`, `TxManagers` and the `Tx*` proofs). `TxSpec` gives each of
  Submit, Replace and RefreshStatuses as a function of the store and of every answer the call receives: node nonces,
  receipts and headers, three broadcast outcomes, and for each store write whether it was acknowledged and, if not,
  whether it took effect. A crash at a store write is the lost acknowledgement; a crash between persistence and
  broadcast is the `halt` flag. `TxManagers.TxManager` is the object with the source's loops, each method proved equal
  to its function. Runs interleave the three operations and the event projector's writes with arbitrary answers, so
  reorgs, node regressions and rebroadcasts are all included. `TxExactly` states when each operation acts, and `Fees` what
  a price amounts to, in literal terms.
- **KYC inbox and outbox** (`KycProtocol`, `KycServers` and the `Kyc*` proofs, from `KycDecisions` on one delivery and
  `KycPasses` on one pass to `KycMeaning` on what reaches the chain). Deliveries, claim finalizers and one reconciler as
  interleaved atomic store operations, with crashes between any two.
  `KycServers.KycServer` is the service object; each call is proved to be a run of those atomic steps.
- **Income Merkle tree** (`Merkle`), **audit document limits** (`JsonLimits`), **burn reservations** (`BurnLedger`,
  `BurnServices`, `BurnHistory`), **asset-schema guard** (`JsonPointers`, `SchemaGuard`,
  `SchemaTermination`, `SchemaEdges`), **compliance projection** (`Projector`),
  **scoped idempotency keys** (`CanonicalQuery`), **rate limiter** (`RateLimit`, `RateWindows`).

`Options`, `Words` (Go's fixed-width integers), `Strings` (byte order, separators) and `Sorting` are shared.

## Conventions

- A record's id is its position in the store; a fresh UUID is the next position, and nothing deletes records.
- Repository methods are modelled by what their callers rely on: `Create` inserts under unique keys,
  `ClaimLatestForAddress` and `UpdateConditional` are compare-and-set, listings enumerate completely.
- RefreshStatuses takes no signer lock. A tick is one step between Submit and Replace calls, or after one that
  crashed, never inside a running call.
- Hashes are arbitrary functions, signatures opaque bytes. Merkle soundness assumes only that the hash does not
  collide on inputs that building the tree and checking the one proof actually hash.
- Go's uint64 and int64 arithmetic wraps where the source's does (`Words.Add64`, `Words.Mul64`, `Words.WrapInt64`).

## Where the code and its promises part

- **Last nonce and reorg retries.** One past a held nonce wraps to 0 at 2^64-1 (`txmanager.go:504`). With AllowReorgRetry
  a record whose nonce was consumed elsewhere neither blocks its signer nor holds the nonce, so a node that falls back
  hands it out again, and a retry of the key gets another nonce while its first broadcast is still out. These are the
  only exceptions: `TxWitnesses.CollidesExactly` for nonce exclusivity and `TxWitnesses.ExecutesTwiceExactly` for one
  execution per key.
- **Undone replacements.** Both writes that settle a rejected replacement are best effort. If the original's is lost it
  stays Replaced for good, although its own broadcast may still be mined; if the replacement's is lost the next tick
  relinks the original to a transaction the node rejected. And when an earlier Replace of the same original was
  interrupted before its link, its record survives and the next tick links the original to that one, even if both
  writes take effect (`TxWitnesses.InterruptedReplaceRelinks`). `TxRecovery.RejectedReplaceUndoneExactly` shows that
  these three are the only ways.
- **Schema guard.** `schema_guard.go:128` restarts the reference chain at nil for every `$defs` entry, so cycle detection
  forgets what it followed. Some documents whose definitions refer to `#`, or to nodes with definitions of their own, are
  walked for ever, although `docs/spec/profile-schema-dialect.md` (lines 52-53) forbids recursing without a bound;
  others of those shapes end. `SchemaTermination.GuardTerminatesExactly` tells them apart.
- **Event keys.** `provider + "|" + eventId` is ambiguous exactly when one provider name continues another past a `|`
  (`KycOrder.EventKeyCollision`). Two decisions of a wallet with one event key both pass the supersede check and can
  be handed out of order (`KycDisorder.SwapsExactly`). That takes a repository that stores both: the MongoDB one, whose
  unique index is on the pair (`dal/mongodb/mongodb.go:126-130`), does, while the in-memory one refuses the second
  because it compares the joined text (`dal/memory/kyc_event.go:19`).
- **Decision keys.** The admin status endpoint passes its raw `Idempotency-Key` header to SetStatus
  (`api/compliance.go:222`). A caller who presents a decision's own key before the decision arrives takes a lower
  nonce for it than an older decision gets (`KycDisorder.DisordersExactly`).
- **Rate limiter.** The handler reads the clock for eviction and the bucket reads it again (`ratelimit.go:41,67`).
  `ratePerSecond * ttl >= burst` hides evictions only if the second reading never lags; the exact condition for a
  largest lag is in `RateLimit.InvisibleExactly`.
- **Burns.** The bound of `BurnLedger.RemainingBound` is reached: one late confirmation can overdraw a record by its whole
  amount (`BurnLedger.LateConfirmationOverdraws`).
- **Scoped keys.** A request without a route template is scoped by its path twice. If that path contains NUL it can
  imitate a template and another path; the source notes that case as not expected. `CanonicalQuery.SharedExactly` names
  the requests concerned.

## Model

| member | source | states |
|---|---|---|
| Fees.BuildTx | server/internal/blockchain/txmanager.go:514-573 | any priced fresh transaction keeps every FeeCaps limit, has feeCap >= tipCap, and can be serialized; an EIP-1559 one suggests the quoted tip and can just pay it at twice the quoted base fee |
| Fees.DynamicPriceExactly | server/internal/blockchain/txmanager.go:514-573 | at every base fee b a fresh EIP-1559 payload pays b plus the whole suggested tip if and only if b is at most twice the quoted base fee, and it is refused if and only if an answer is missing or a configured limit lies below it |
| Fees.LegacyPriceExactly | server/internal/blockchain/txmanager.go:557-573 | without a base fee, or in legacy mode, the payload pays the suggested gas price and is refused for the same reasons |
| Fees.BumpOutbids | server/internal/blockchain/txmanager.go:986-1007 | a bumped field strictly exceeds the original and by at least 10 percent, for every requested percentage, even where 100 + pct wraps |
| Fees.BumpIsLeast | server/internal/blockchain/txmanager.go:976-1007 | a bump is the least value above the original that clears ten percent over it and the requested percentage over both the original and the suggestion |
| Fees.BumpedExactly | server/internal/blockchain/txmanager.go:1012-1067 | an EIP-1559 replacement has the least acceptable tip and the least acceptable cap not below it, and is refused if and only if the fresh price is or a limit lies below it |
| Fees.BumpedTxPolicy | server/internal/blockchain/txmanager.go:1012-1067 | a replacement outbids its original in every field of the same fee mode, after the caps were checked again |
| Fees.BumpsCompound | server/internal/blockchain/txmanager.go:970-1007 | k successive bumps give fee_k * 10^k >= fee_0 * 11^k and at least one wei each |
| TxRecords.NextNonceExceedsHeld | server/internal/blockchain/txmanager.go:477-509 | the allocated nonce exceeds every nonce still held by a record of the signer, except one at 2^64-1 |
| TxRecords.NextNonceIsLeast | server/internal/blockchain/txmanager.go:477-509 | the allocated nonce is the larger node nonce or exactly one past some held nonce, never more |
| TxManagers.TxManager.NeedsInterventionTx | server/internal/blockchain/txmanager.go:448-467 | the two passes report a blocker exactly when the signer has a NeedsIntervention record, or a Reorged or NonceConsumedExternally one without AllowReorgRetry |
| TxManagers.TxManager.AllocateNonce | server/internal/blockchain/txmanager.go:477-509 | the loop computes the specified maximum over both node nonces and all held nonces |
| TxManagers.TxManager.Submit | server/internal/blockchain/txmanager.go:255-390 | new store, broadcast history and result of a whole Submit under every failure of every call and write |
| TxExactly.SubmitOutlastsBaseFee | server/internal/blockchain/txmanager.go:514-573 | the payload an EIP-1559 Submit stores suggests the quoted tip, can pay all of it at a base fee b if and only if b is at most twice the quoted one, and buys a fifth more gas than estimated |
| TxExactly.StuckSubmitDeclines | server/internal/blockchain/txmanager.go:448-467 | a signer with a record for the operator, or in doubt without the opt-in, gets an error and nothing happens |
| TxExactly.TakenSubmitReturns | server/internal/blockchain/txmanager.go:255-306 | a key whose record is neither rejected nor in doubt with the opt-in is answered with that record and nothing happens |
| TxExactly.FreeSubmitLaunches | server/internal/blockchain/txmanager.go:255-390 | any other Submit whose calls succeed stores one record at the least free nonce, over the key's earlier record if there is one, broadcasts exactly its bytes once, and settles it by the broadcast's outcome |
| TxManagers.TxManager.Replace | server/internal/blockchain/txmanager.go:826-968 | new store, broadcast history and result of a whole Replace, including the conflicting link and the undone link after a rejected send |
| TxExactly.ReplaceAnswersExactly | server/internal/blockchain/txmanager.go:826-968 | a Replace of a Pending record by its own signer with a positive percentage and every call and write succeeding marks NeedsIntervention if and only if the limit is positive and the record's count has reached it, and otherwise replaces it |
| TxExactly.ReplaceDeclines | server/internal/blockchain/txmanager.go:826-862 | by anyone else, of anything that is not Pending, or by no positive percentage, it changes nothing |
| TxExactly.ReplaceFallsBack | server/internal/blockchain/txmanager.go:918-961 | after a conflicting link nothing is sent and the original stands; after a rejected broadcast it is Pending again with the attempt counted; in both cases the replacement is Failed; after an ambiguous broadcast the original is Replaced |
| TxExactly.LinkingNames | server/internal/blockchain/txmanager.go:790-817 | an original the repair pass makes Replaced names a replacement of its own that was not abandoned |
| TxManagers.TxManager.ReconcileReplacements | server/internal/blockchain/txmanager.go:790-817 | the repair loop's new store, stopping at the first failing read or write |
| TxManagers.TxManager.RefreshStatuses | server/internal/blockchain/txmanager.go:598-632 | the tick's new store and rebroadcasts: repair, then every unfinalized record in order, stopping at the first error |
| TxExactly.ReorgWindow | server/internal/blockchain/txmanager.go:591-645 | on a fixed chain a Confirmed record without a receipt, not event-derived and without a surviving replacement, becomes Reorged in one tick if and only if the head is below its block plus the confirmations plus 256 |
| TxExactly.ConfirmationDepth | server/internal/blockchain/txmanager.go:722-750 | a mined record on the canonical chain is Confirmed if and only if the head is at least the confirmations past its block, and Mined otherwise |
| TxExactly.SuccessfulTickWasTold | server/internal/blockchain/txmanager.go:598-695 | a tick that reports success was answered about every record still open |
| TxConvergence.Refreshed1Settles | server/internal/blockchain/txmanager.go:649-773 | one record's refresh on a fixed chain: a final record is untouched, any other gets the status its receipt, block canonicity, depth and mined nonce dictate, and refreshing it again changes nothing |
| TxEffects.SubmitShape | server/internal/blockchain/txmanager.go:255-390 | whatever fails, a Submit either changes nothing or leaves one new version of one record with a fresh nonce, the old attempt archived, and at most one broadcast of exactly its bytes |
| TxEffects.ReplaceShape | server/internal/blockchain/txmanager.go:826-968 | whatever fails, a Replace changes nothing, marks the original NeedsIntervention, or adds one outbidding record at the original's nonce |
| TxEffects.RefreshShape | server/internal/blockchain/txmanager.go:598-817 | whatever fails, a tick changes statuses, blocks and links only, and rebroadcasts only stored bytes of BroadcastUnknown records |
| TxInvariants.PersistBeforeBroadcast | server/internal/blockchain/txmanager.go:322-390 | in every run with crashes, every byte string ever sent is stored on its record as current payload or archived attempt |
| TxInvariants.RunWellFormed | server/internal/blockchain/txmanager.go:255-390 | every reachable record's payload matches its sender, nonce and call, keys are unique, links point backwards, and all sends are durable |
| TxWitnesses.AttemptsNeverDropped | server/internal/blockchain/txmanager.go:322-339 | whatever follows, a record's archived attempts stay in place as a prefix and its payload is still carried |
| TxExclusivity.NonceExclusivity | server/internal/blockchain/txmanager.go:448-509 | in every run, two live records of a signer that never opted into reorg retries share a nonce only within one replacement family |
| TxWitnesses.LastNonceCollides | server/internal/blockchain/txmanager.go:504-506 | a run, with or without the opt-in, where two unrelated live records both hold nonce 2^64-1 |
| TxWitnesses.CollidesExactly | server/internal/blockchain/txmanager.go:448-509 | some run lets two unrelated live records of a signer share a nonce if and only if the signer opted into reorg retries or the nonce is 2^64-1 |
| TxWitnesses.OptInCollides | server/internal/blockchain/txmanager.go:457-464 | for every nonce below 2^64-1 a run with the opt-in where two unrelated live records hold it |
| TxWitnesses.ExecutesTwiceExactly | server/internal/blockchain/txmanager.go:235-390 | some run has two broadcasts of a key at different nonces, neither definitely rejected, if and only if the key opted into reorg retries |
| TxOneExecution.AtMostOneExecution | server/internal/blockchain/txmanager.go:235-390 | all broadcasts under one key, through retries, replacements and rebroadcasts, that were not definitely rejected carry one sender and nonce |
| TxChains.ReplacementLimit | server/internal/blockchain/txmanager.go:859-862 | with a positive limit no chain of Replaces links is longer than the limit, in every run |
| TxExactly.LimitAttained | server/internal/blockchain/txmanager.go:859-862 | for every positive limit some run has a chain of exactly that many Replaces links |
| TxHeirs.RunRetryable | server/internal/blockchain/txmanager.go:786-817 | in every run, every replacement of a record that a Submit may retry was abandoned |
| TxChains.ReplacementFeesCompound | server/internal/blockchain/txmanager.go:970-1067 | along any line of k same-mode replacements of a run, tips and caps each rise strictly and fee_k * 10^k >= fee_0 * 11^k; a line that ends in an abandoned replacement needs a root that never opted into reorg retries |
| TxWitnesses.FallsShortExactly | server/internal/blockchain/txmanager.go:970-1067 | some run has a same-mode line that does not compound if and only if it ends in an abandoned replacement under a root that opted into reorg retries |
| TxChains.SignedWithinPolicy | server/internal/blockchain/txmanager.go:511-588 | every payload signed in any run keeps the caps and, if EIP-1559, has feeCap >= tipCap |
| TxConvergence.RefreshConverges | server/internal/blockchain/txmanager.go:598-817 | on a fixed chain one tick gives every followed record of a reachable store the status its receipt, block canonicity, depth and mined nonce dictate; originals of surviving replacements become Replaced; final and event-derived records stay |
| TxConvergence.RefreshIsIdempotent | server/internal/blockchain/txmanager.go:598-817 | a second tick on the same chain changes no record |
| TxConvergence.CutoffSkipsOnlyFinal | server/internal/blockchain/txmanager.go:607-645 | the repository cutoff drops only records the finality check would skip, uint64 wrap-around included |
| TxOrder.AllocationDominates | server/internal/blockchain/txmanager.go:477-509 | under a truthful reorg-free node without replacements, a new nonce lies above every attempt of the signer that was not definitely rejected |
| TxOrder.StepSettled | server/internal/blockchain/txmanager.go:598-750 | on such a chain no record is ever Reorged, Replaced or NeedsIntervention, and each archived attempt was rejected or lost its nonce for good |
| TxRecovery.SameKeyIsNotRepeated | server/internal/blockchain/txmanager.go:235-306 | whatever became of a Submit that persisted its record, unless it was definitely rejected a second Submit under the key stores and sends nothing and answers with that record or an error |
| TxRecovery.CrashedSubmitIsSent | server/internal/blockchain/txmanager.go:661-718 | a Submit that crashed after persisting, or whose broadcast was ambiguous, is rebroadcast with exactly the stored bytes by a tick that completes and finds its record without a receipt and its nonce still open |
| TxRecovery.TickDecidesReplacement | server/internal/blockchain/txmanager.go:786-968 | after a Replace that persisted its record, a tick whose repair pass completes leaves the original Replaced if and only if Replace left it so, the new record was not abandoned, or an earlier replacement survives |
| TxRecovery.RejectedReplaceUndoneExactly | server/internal/blockchain/txmanager.go:939-961 | after a definite rejection the original stays out of Replaced through every sequence of ticks, whatever they are answered, if and only if both settling writes took effect and no earlier replacement of it survives |
| TxWitnesses.InterruptedReplaceRelinks | server/internal/blockchain/txmanager.go:920-961 | a run where a replacement left unlinked by a failed write survives: a later rejected Replace settles both its records, and still a tick makes the original Replaced |
| TxRecovery.ReplacedForever | server/internal/blockchain/txmanager.go:636-645 | no sequence of calls, whatever they are answered, takes a record out of Replaced |
| TxRecovery.LostUndoStrandsOriginal | server/internal/blockchain/txmanager.go:939-961 | if the original's restoring write is lost it is Replaced through every later sequence of calls |
| KycServers.KycServer.FinalizeClaim | server/internal/compliance/webhook.go:214-241 | the call takes the claim table and event exactly through the protocol's finalizer steps, up to the first failing operation |
| KycServers.KycServer.ProcessDecision | server/internal/compliance/webhook.go:110-207 | a delivery is refused for the first check it fails and changes nothing, or is stored as Claiming and finalized; Taken is answered exactly when it holds its wallet's claim |
| KycDecisions.StoredExactly | server/internal/compliance/webhook.go:110-182 | a delivery is stored if and only if it is complete, decided between a day ago and five minutes ahead, valid for at most a hundred years, new in body and in event, and from a proven owner or overridden; it is stored word for word |
| KycDecisions.RefusalIsTrue | server/internal/compliance/webhook.go:110-190 | the error a refused delivery gets is true of it, and a repeated body is always reported as one |
| KycDecisions.AnsweredExactly | server/internal/compliance/webhook.go:184-241 | a stored delivery is Taken if and only if it claims its wallet and ends Accepted or Recorded, stale if and only if Superseded, and an error if and only if it is left Claiming |
| KycServers.KycServer.ReconcileOne | server/internal/compliance/reconciler.go:87-114 | one event's handling equals the protocol's steps for the first job of the queue, whatever fails |
| KycServers.KycServer.Submit | server/internal/compliance/reconciler.go:117-159 | the same for enqueueing SetStatus, with the guard's refusals and errors |
| KycMeaning.DecisionsSayWhatTheyMean | server/internal/compliance/reconciler.go:117-159 | in every run whose other Submits avoid decision keys, whatever is stored or was broadcast under a decision's key, replacements included, sets that decision's wallet and expiry, and the status projected from its event is Allowed if and only if the outcome is Allowed, and Blocked if and only if it is Blocked |
| KycMeaning.NumbersSpelled | server/internal/compliance/status.go:46-60 | Unknown, Allowed and Blocked are 0, 1 and 2 on chain, and no other text has a number |
| KycPasses.SubmittedJob | server/internal/compliance/reconciler.go:117-159 | an Accepted decision that holds its wallet and is not refused by the guard is submitted under its own key with its own status and expiry, and linked to the record Submit names |
| KycPasses.WithheldJob | server/internal/compliance/reconciler.go:117-143 | without a relay or a guard's answer it waits; a refused approval and an outcome without a number are Failed; only approvals are put to the guard |
| KycDecisions.PendingNeverRelayed | server/internal/compliance/webhook.go:226-236 | in every run a Pending decision is only ever Claiming, Recorded or Superseded, and only stored Allowed and Blocked decisions are submitted |
| KycServers.KycServer.FollowSubmitted | server/internal/compliance/reconciler.go:163-193 | the same for following a submitted transaction |
| KycPasses.FollowedJob | server/internal/compliance/reconciler.go:163-193 | an Applying decision that holds its wallet becomes Applied when its transaction is Confirmed, Failed when it is Reverted, Accepted without a transaction when it is Failed or Reorged, and otherwise waits |
| KycServers.KycServer.ReopenOne | server/internal/compliance/reconciler.go:63-85 | the same for reopening an Applied event whose transaction was reorged out |
| KycPasses.ReopenedJob | server/internal/compliance/reconciler.go:63-85 | an Applied decision is Accepted again if and only if its transaction is Reorged |
| KycServers.KycServer.Reconcile | server/internal/compliance/reconciler.go:43-58 | a pass drains the pending events, then the Applied ones, and extends the object's run of the protocol |
| KycPasses.PassDecides | server/internal/compliance/reconciler.go:43-159 | after any run that left nothing Claiming, a pass without failures or refusals submits exactly the Accepted decisions that are the latest of their wallets, supersedes every other pending one, reopens Applied ones at most, and leaves the rest alone |
| KycPasses.FinalizedJob | server/internal/compliance/webhook.go:214-241 | a Claiming decision takes its wallet if it is the first there or later in (occurredAt, eventKey), and ends Superseded, Recorded if Pending, or Accepted |
| KycServers.DriveIsARun | server/internal/compliance/reconciler.go:43-58 | draining a queue is a sequence of reconciler steps of the protocol |
| KycServers.WorkerIsARun | server/internal/compliance/webhook.go:184-205 | a delivery's finalization is a sequence of its worker's steps, ending in its death where an operation fails |
| KycClaims.NewestNeverSuperseded | server/internal/compliance/webhook.go:173-241 | in every interleaving of deliveries, finalizers, reconciler and crashes, the newest stored decision of a wallet is never Superseded |
| KycClaims.ClaimSettlesOnNewest | server/internal/compliance/webhook.go:173-241 | once none of a wallet's decisions is Claiming, its claim is exactly the newest of them |
| KycDecisions.LatestStands | server/internal/compliance/webhook.go:173-245 | the same two laws with the order spelled out: no decision decided later, or in the same second under a greater provider and event id |
| KycProgress.OnePassSettles | server/internal/compliance/reconciler.go:43-104 | after any run one pass without failures leaves each wallet claimed by its newest decision, finalized and not Superseded |
| KycOrder.EventKeyCollision | server/internal/compliance/webhook.go:243-245 | two providers can share an event key if and only if one name continues the other past a separator |
| KycOrder.PlainProvidersSuffice | server/internal/compliance/webhook.go:173-190 | without a separator in provider names no two stored decisions share an event key |
| KycOrder.DecisionsHandedInOrder | server/internal/compliance/reconciler.go:87-159 | while no two stored decisions share an event key, a wallet's decisions are handed to SetStatus in non-decreasing (occurredAt, eventKey) order, reorgs or not |
| KycDisorder.SwapsExactly | server/internal/compliance/webhook.go:214-245 | two decisions of a wallet can be handed out of order in some run that stores only them if and only if they share an event key |
| KycNonces.DecisionOrderReachesTheChain | server/internal/compliance/reconciler.go:87-159 | on a truthful reorg-free chain, if stored event keys are distinct and no other Submit of the run uses one of their idempotency keys, every attempt of an older decision that was not definitely rejected has a lower nonce than every such attempt of a newer one |
| KycDisorder.DisordersExactly | server/internal/compliance/reconciler.go:144-153 | other Submits under a key can put some such run out of nonce order if and only if the key is the idempotency key of a deliverable decision |
| Merkle.BuildTree | server/internal/income/merkle.go:39-68 | the three refusals, and otherwise a tree satisfying the heap invariant with sorted leaves at the end and an exact index |
| Merkle.InnerNodesSpelled | server/internal/income/merkle.go:50-79 | every inner node of a built tree is the hash of its children's two digests in ascending order |
| Merkle.LeavesSpelled | server/internal/income/merkle.go:22-68 | the leaf positions descend and hold exactly the double hashes of the given pairs |
| Merkle.HashInnerNodes | server/internal/income/merkle.go:64-66 | filling the array backwards makes every inner node the hash of its children and leaves the leaves alone |
| Merkle.Proof | server/internal/income/merkle.go:83-98 | succeeds exactly for indexed leaf hashes and returns the sibling path to the root |
| Merkle.VerifyProof | server/internal/income/merkle.go:101-107 | accepts exactly when climbing along the proof ends at the root |
| Merkle.OneStepExactly | server/internal/income/merkle.go:71-107 | a one-element proof is accepted if and only if the root is the hash of leaf and element in ascending order |
| Merkle.PathClimbs | server/internal/income/merkle.go:83-107 | for every hash function, the sibling path of any node climbs back to the root |
| Merkle.ProofsVerify | server/internal/income/merkle.go:83-107 | every leaf of a built tree is indexed at a leaf position and its path is accepted |
| Merkle.ClimbStaysInTree | server/internal/income/merkle.go:71-107 | a digest from which some proof climbs to the root is itself a node of the tree, unless hashing collides |
| Merkle.AcceptedProofIsForALeaf | server/internal/income/merkle.go:71-107 | an accepted proof of any length for (account, amount) is for a pair the tree was built from; a negative amount stands for its magnitude |
| Merkle.ProvableExactly | server/internal/income/merkle.go:39-107 | with a hash that does not collide, a pair has an accepted proof if and only if the tree was built from it |
| Merkle.OnlyOwnAmount | server/internal/income/merkle.go:36-107 | with distinct accounts each account can prove only its own amount |
| Merkle.TreeIsCanonical | server/internal/income/merkle.go:50-79 | the nodes and the root depend only on the set of leaves |
| Merkle.ProofLength | server/internal/income/merkle.go:83-98 | each of n leaves has a proof of length floor(log2 n) or ceil(log2 n) |
| JsonLimits.LimitDecoder.Walk | server/internal/auditpkg/limits.go:36-49 | the loop accepts a token stream exactly when the automaton does |
| JsonLimits.LimitDecoder.HandleToken | server/internal/auditpkg/limits.go:51-83 | depth and stack after one token, and when the token is refused |
| JsonLimits.ScanDecidesLimits | server/internal/auditpkg/limits.go:36-109 | on the tokens of any JSON values the scan succeeds if and only if every depth, string and key length, array length, pair count and integer of every value is within bounds |
| JsonLimits.SafeIntegerRange | server/internal/auditpkg/limits.go:111-127 | a decimal integer passes if and only if it lies in [-(2^53-1), 2^53-1] |
| JsonLimits.DepthExactly | server/internal/auditpkg/limits.go:51-83 | containers may nest 32 deep and no deeper |
| JsonLimits.StringExactly | server/internal/auditpkg/canonical.go:17-24 | strings and keys may have 32768 bytes and no more |
| JsonLimits.LengthExactly | server/internal/auditpkg/limits.go:85-109 | arrays may have 4096 elements and objects 4096 pairs, and no more |
| BurnServices.BurnService.RemainingOf | server/internal/assets/burn.go:59-83 | the loop deducts exactly Burned and unexpired Pending burns of the record other than `skip` |
| BurnServices.BurnService.CreateBurn | server/internal/assets/burn.go:111-168 | which of the errors is answered, and otherwise one new reservation and nothing else, as steps of the ledger |
| BurnServices.BurnService.ReissueBurn | server/internal/assets/burn.go:172-219 | which of the errors is answered, and otherwise only that burn's expiry and version change, as steps of the ledger |
| BurnServices.BurnService.ReconcileBurned | server/internal/assets/burn.go:252-322 | every burn becomes what the surviving events say of it, loops over events, operations and burns included, as reads, confirmations and demotions of the ledger |
| BurnServices.ReconciledExactly | server/internal/assets/burn.go:252-322 | a reconciled burn is Burned if and only if some event that is not removed names its operation, with the hash of the last such event, and otherwise Pending without a hash |
| BurnHistory.OnlySurvivorsMatter | server/internal/assets/burn.go:252-322 | after any history of creates, reissues, indexing, rollbacks, removals and partial reconciles, one more reconcile gives each burn the status and hash that replaying the surviving events onto the burns as created gives |
| BurnHistory.ReconcileIsIdempotent | server/internal/assets/burn.go:252-322 | a second reconcile changes nothing, and none touches amounts or reservations |
| BurnServices.DeadEventsBackNothing | server/internal/assets/burn.go:257-266 | an operation is backed exactly when some listed event that is not removed names it |
| BurnServices.ServiceRemainingBound | server/internal/assets/burn.go:59-322 | between calls the service's Remaining is at least minus its burns confirmed after expiry, because every call extends a run of the ledger that ends in the stored burns |
| BurnLedger.RemainingBound | server/internal/assets/burn.go:59-218 | in every interleaving with stale reconcile writes, Remaining is at least minus the total of currently Burned burns confirmed after expiry |
| BurnLedger.NeverOverdrawn | server/internal/assets/burn.go:59-218 | without late confirmations Remaining is never negative |
| BurnLedger.RenewalFits | server/internal/assets/burn.go:172-219 | in every interleaving without late confirmations, a reservation that still counts always passes the check that renews it |
| BurnLedger.ReservationExactly | server/internal/assets/service.go:30-32 | a new or renewed reservation is deducted for exactly 30 days |
| BurnLedger.LateConfirmationOverdraws | server/internal/assets/burn.go:268-288 | for every amount a run whose one late confirmation makes Remaining minus the whole amount, so the bound is reached |
| JsonPointers.ResolvePointer | server/internal/assets/schema_guard.go:159-178 | the loop returns the node reached through object members, or nothing |
| JsonPointers.DecodeIsOnePass | server/internal/assets/schema_guard.go:165-166 | replacing ~1 and then ~0 equals decoding once from the left, as section 4 of RFC 6901 requires |
| JsonPointers.TokenRoundTrip | server/internal/assets/schema_guard.go:165-166 | decoding undoes the standard's escaping of any name |
| JsonPointers.PointersResolve | server/internal/assets/schema_guard.go:159-178 | the pointer written for any path of names resolves to the node at that path, or to nothing when there is none |
| SchemaGuard.ValidateTypeValue | server/internal/assets/schema_guard.go:182-207 | accepts exactly a type name or a nonempty array of distinct type names |
| SchemaGuard.GuardAcceptsExactly | server/internal/assets/schema_guard.go:59-155 | a document is accepted if and only if its reference unfolding is a finite tree with every schema in the dialect and at most 32 nested references between one $defs and the next |
| SchemaEdges.KeywordsExactly | server/internal/assets/schema_guard.go:17-57 | twenty-two keywords may hold any value, and a null under any other name is refused |
| SchemaEdges.TypesExactly | server/internal/assets/schema_guard.go:182-207 | a type is one of seven names or a nonempty array of distinct ones |
| SchemaEdges.PartsAreSchemas | server/internal/assets/schema_guard.go:94-155 | items, properties and definitions are schemas, and additional properties a schema or a boolean |
| SchemaEdges.ReferencesStandAlone | server/internal/assets/schema_guard.go:59-92 | an accepted reference is its object's only member and is "#" or begins with "#/" |
| SchemaEdges.ChainsExactly | server/internal/assets/schema_guard.go:66-92 | definitions that form a chain of n references are accepted if and only if n is at most 32 |
| SchemaGuard.GuardTerminates | server/internal/assets/schema_guard.go:59-155 | with $defs only at the root and no reference to the root, every walk ends within an explicit bound, in any member order |
| SchemaGuard.GuardStable | server/internal/assets/schema_guard.go:59-155 | two finished walks of a document give the same verdict |
| SchemaTermination.GuardTerminatesExactly | server/internal/assets/schema_guard.go:59-155 | the guard ends on a document, in every member order, if and only if its walk never reaches a schema on a fresh chain whose own walk comes back to it on a fresh chain |
| SchemaTermination.UnfinishedPath | server/internal/assets/schema_guard.go:59-155 | a walk that has not ended after n levels has visited a path of n schemas, each after the earlier parts of its node were accepted |
| SchemaTermination.RootReferenceDiverges | server/internal/assets/schema_guard.go:121-132 | one document whose definition refers to the root is walked without end |
| SchemaTermination.NestedDefsDiverge | server/internal/assets/schema_guard.go:121-132 | so is one whose definition refers to a node with definitions of its own, without any reference to the root |
| Projector.BuildStatuses | server/internal/compliance/projector.go:26-61 | the result names exactly the accounts some StatusChanged event is about, each with the state of a last such event |
| Projector.ReplayExactly | server/internal/compliance/projector.go:26-61 | for distinct log positions an account has a state if and only if some StatusChanged event names it, and then that of the event in the highest block and, there, at the highest index |
| Projector.ValidUntilExactly | server/internal/compliance/projector.go:100-115 | a signed expiry is kept, an unsigned one is read in two's complement, and a float that fits loses its fraction |
| Projector.ReplayIsCanonical | server/internal/compliance/projector.go:26-61 | for distinct log positions the result does not depend on the order events are supplied in |
| Projector.NoWrapIntoStatus | server/internal/compliance/projector.go:63-98 | no out-of-range or differently typed number becomes Allowed or Blocked |
| Projector.StatusProjector.Reconcile | server/internal/compliance/projector.go:123-170 | the store after a reconcile, finished or stopped at any failing write, as the next action of the object's history |
| Projector.StatusProjector.VerifyOwnership | server/internal/compliance/challenge.go:148-171 | a proven challenge sets the account's flag, creating it if needed, and touches no status, as the next action of the object's history |
| Projector.OnlySurvivorsMatter | server/internal/compliance/projector.go:117-170 | after any history of indexing, rollbacks, ownership proofs and partial reconciles, one more reconcile shows each account what a replay into an empty store shows, and keeps exactly the proven ownerships |
| Projector.ObjectShowsSurvivors | server/internal/compliance/projector.go:117-170 | the same of the object: its next finished reconcile shows what a replay of the events its history left shows, and keeps exactly the ownerships proven in it |
| Projector.ReconcileIsIdempotent | server/internal/compliance/projector.go:123-170 | a second reconcile changes update times of accounts with events and nothing else |
| Projector.RenewKeepsOffChain | server/internal/compliance/projector.go:130-168 | no reconcile drops an account or touches its ownership flag or creation time |
| CanonicalQuery.BuildCanonicalQuery | server/internal/auth/idempotency.go:144-168 | the nested loops write the canonical text |
| CanonicalQuery.EscapeRoundTrip | server/internal/auth/idempotency.go:161-165 | percent-encoding a component can be undone |
| CanonicalQuery.PairSpelled | server/internal/auth/idempotency.go:142-168 | two parameters stand in the byte order of their names with an ampersand between them |
| CanonicalQuery.CanonicalExactly | server/internal/auth/idempotency.go:142-168 | two queries have one canonical text if and only if they give each name the same values with the same multiplicities |
| CanonicalQuery.ScopeOf | server/internal/auth/idempotency.go:38-62 | the two refusals of the raw key and otherwise the scoped key |
| CanonicalQuery.ScopedKeysExactly | server/internal/auth/idempotency.go:55-62 | two requests share a key if and only if principal, method, route, path and raw key agree and their queries are equivalent |
| CanonicalQuery.SharedExactly | server/internal/auth/idempotency.go:55-62 | a clean request of another scope shares a request's key if and only if its unmatched path has NUL past the first byte, or its matched path mirrors around its template |
| RateLimit.RateLimiter.Serve | server/internal/auth/ratelimit.go:42-74 | the map, sweep time and answer after one request, deletion loop included |
| RateWindows.UnsweptExactly | server/internal/auth/ratelimit.go:55-74 | a bucket admits a request if and only if, in every window from one of its address's requests to this one, at most a burst and the rate times the window's length are admitted |
| RateWindows.ServedExactly | server/internal/auth/ratelimit.go:37-80 | so does the limiter, evictions included, under the refill condition |
| RateWindows.EvictedExactly | server/internal/auth/ratelimit.go:42-53 | a request drops another address's bucket if and only if the sweep interval and that bucket's retention time have both passed |
| RateLimit.EvictionIsInvisible | server/internal/auth/ratelimit.go:37-80 | every request sequence gets the answers of buckets that are never evicted when the retention time refills enough for the longest lag between the two clock readings |
| RateLimit.InvisibleExactly | server/internal/auth/ratelimit.go:37-80 | with lags up to gap, evictions are invisible if and only if burst is 0, or rate * ttl >= burst + min(1, rate * gap) and rate * gap <= burst or rate * (ttl - gap) >= 1 |
| RateLimit.InvisibleWithoutLag | server/internal/auth/ratelimit.go:37-80 | with one clock reading per request evictions are invisible if and only if rate * ttl >= burst |
| RateLimit.LaggingReadingShows | server/internal/auth/ratelimit.go:39-69 | with rate * ttl equal to burst, any possible lag at all makes some eviction visible |

## Left out

- TxExclusivity.NonceExclusivity: excepts nonce 2^64-1 and signers that ever submitted with AllowReorgRetry, exactly the cases that collide (`TxWitnesses.CollidesExactly`).
- TxOneExecution.AtMostOneExecution: says nothing of keys that ever opted into reorg retries, exactly the ones that can execute twice (`TxWitnesses.ExecutesTwiceExactly`).
- TxChains.ReplacementFeesCompound: a line that ends in an abandoned replacement is promised nothing when its root opted into reorg retries, exactly the lines that can fall short (`TxWitnesses.FallsShortExactly`).
- KycNonces.DecisionOrderReachesTheChain: excepts nonce 2^64-1, decisions with one event key (`KycDisorder.SwapsExactly`), and other Submits under a decision's idempotency key (`KycDisorder.DisordersExactly`).
- SchemaGuard.GuardTerminates: one direction with an explicit bound; the exact condition, without a bound a reader could compute at a glance, is `SchemaTermination.GuardTerminatesExactly`.
- CanonicalQuery.ScopedKeysExactly: assumes that both requests matched a route or neither did, unless the unmatched path has no NUL; the rest is `CanonicalQuery.SharedExactly`.
- Projector.ReplayIsCanonical: events at one log position are excluded, since an unstable sort may order them either way.
- TxManagers.TxManager.Submit: two Submits with one key and different signers running at once, where the loser of the unique insert returns the winner's record, are not modelled; calls are one after another.
- A RefreshStatuses tick running inside a Submit or Replace call; the stated granularity excludes it.
- The distributed nonce lease, its renewal and fencing tokens; the model is one process.
- A stored payload that is missing or does not decode when Replace reads it; records reached by runs always carry one that decodes.
- The event projector that writes event-derived transaction records: its writes appear as arbitrary records of that shape.
- Timestamps, kinds, chain ids and error texts of records.
- The holder cap behind the reconciler's guard: the guard's answer is an arbitrary input.
- HMAC verification, JSON decoding and provider mapping of webhooks: a delivery arrives parsed and authenticated; failing reads before it is stored change nothing and are not distinguished.
- Several reconcilers at once, and any promise that a submitted transaction is ever mined.
- Keccak, SHA-256, ECDSA, ABI encoding, RLP and the Go standard library's JSON tokenizer, URL parser and sort: used through their contracts.
- Truncated JSON streams: `Malformed` stands for any tokenizer error; the scan theorem is about complete values.
- Burn metadata, profile validation, publication, nonces and packages; the list of burns and the clock are read in one step. `ReconcileMinted` is not modelled.
- Repository failures inside ReconcileBurned, and version conflicts there beyond the stale writes of `BurnLedger`.
- Floating-point rounding in the token bucket and in event fields: both use real numbers, NaN excluded, and an out-of-range float converts as on amd64.
- Concurrent requests in the rate limiter, and a request's reservation, replay and release in the idempotency middleware.
- Ownership proofs that race a reconcile between its read and its write of one account.
