# Replicated ledger model

A node of the ledger applies events from its own clients and from its peers in
any order. It keeps about a dozen incremental caches (balances, holds, heads,
pending seqs, highest known seqs, rolling digests, idempotency winners, the
event buffer, the queue of events not yet stored, tombstones) beside a plain set
of applied events. This project models that engine and proves that the caches
always agree with the log, that clients are charged exactly once although
duplicates are only corrected after the fact, and that the pieces around it
(seq allocation, persistence, catch-up, quorum acknowledgements, wire keys,
filters) do what the engine relies on.

`dafny verify dfyconfig.toml` checks everything.

## How it is laid out

- `Types`, `Sums`, `Sorting`, `Texts`: events, their keys, the winner order;
  sums over finite sets; sorted event lists; numbers as text, texts split and
  joined.
- `Ledger`: the applied log and what it determines: balances, active holds,
  contiguous heads, rolling digests. SHA-256 appears as the term it hashes, so
  the results hold for any hash function. `Divergence` says what equal digests
  mean.
- `Allocator`, `BucketAllocators`, `AllocatorRace`: seq and epoch allocation as
  values over whole runs, as the class over a storage backend, and one atomic
  operation at a time.
- `Storage`: the storage backend as a class.
- `ReplicaModel` (Replica.dfy): what each request and each delivery does to a
  node, as functions. `Emission` shows that what they mint fits the log,
  `Emitted` gives it field by field; `Requests` says which fields mean which
  mode, and `Reserved` what is turned away or answered without a trace.
- `Caches`, `NodeState` (SharedState.dfy), `Rebuild`: the node's state as a
  class whose `Valid` says that each cache is its projection of the ghost log.
  Every operation's contract gives the whole new state through the replica
  functions. `Rebuild` is the startup path, proved against the same projections.
- `Agreement`: caches are determined by the log, the log by the set of
  deliveries.
- `Tracking`, `Cluster`, `ExactlyOnce`, `OwnLine`: any number of nodes, their
  inductive invariant, and the theorems over every run. `Collision`,
  `AfterRestart` and `LateRefusal` show what is lost where their assumptions
  fail.
- `Funds`: overdraft, reservations, implicit holds, conservation. `Corrections`:
  what a conflict adds, and which hold it frees.
- `Persistence`, `HandOff`, `CatchUp`, `Quorum`: the actors around the engine.
  `Acknowledged` runs the acknowledgement loop beside a whole cluster.
- `HeadKeys`, `Filter`: wire keys, per-user bucket names, filter compilation.

## Where the code departs from its description

The model follows the code; these points are stated as theorems.

- The `hold_blocking` flag and its hint (apps/node/src/service.rs:219-239) speak
  of the implicit hold, but an implicit hold never causes a rejection; only
  caller-sized holds set the flag (`Funds.OnlyExplicitHoldsBlock`).
- After a restart the idempotency cache holds the newest event of a key, not its
  winner (`Rebuild.RestartKeepsWinnerIff`); a duplicate that beats only the
  cached loser is then charged a second time at that node
  (`AfterRestart.VoidedIff`, `AfterRestart.DuplicateSurvivesRestart`). A node
  that caches the duplicate itself, such as the one that minted it, voids it when
  the winner arrives, unless a restart changed its cache
  (`AfterRestart.WinnerVoidsCached`).
- The replay of deletes at startup lacks the exception for the meta bucket that
  the running path makes: after one stored meta event that names the meta bucket
  a restarted node refuses all deletes from elsewhere
  (`Rebuild.TombstonesSurviveIff`, `Rebuild.RestartCanCloseMetaLog`).
- A transfer with a positive amount credits both accounts
  (`Funds.TransferConservesIff`).
- The guards compare 64-bit words, which wrap in a release build: a difference
  below -2^63 can pass a reservation or a debit that nothing covers, or refuse
  one by accident (`Funds.ReserveGuardExactIff`, `Funds.ChargeGuardExactIff`,
  `Funds.ReserveGuardWraps`).
- The gateway deducts usage with an overdraft of 2^64 - 1 so that "billing
  deductions always go through" (apps/gateway/src/main.rs:1952); as a signed
  word that is a floor of one, and a deduction passes exactly when it leaves
  something (`Funds.UnlimitedOverdraftNeedsFunds`).
- The arm of `allocate` for a bucket seen for the first time is outside the bump
  lock; some pair is handed out twice exactly when a writer looks the bucket up
  while another is between its miss and its registration
  (`AllocatorRace.DistinctIffOrderly`).
- A transfer of -2^63 whose funds the guard accepts is refused only after its
  debit was allocated, booked and cached: the account is off its log, an own seq
  is lost, and a retry is answered as granted
  (`LateRefusal.RefusedWithoutTraceIff`, `LateRefusal.LateLeavesHole`,
  `LateRefusal.LateRetryIsGranted`, `NodeState.SharedState.StrandedIsWrong`).
- The credit side of a transfer has a key of its own, without the debited
  account: two accounts that use one nonce for equal transfers to one account
  are different requests by their keys (`ExactlyOnce.TransfersCanShareCreditKey`).
  When one of the two credits is delivered to a node that has the other, that
  node mints a void, and the cluster converges with one credit lost
  (`ExactlyOnce.CollidingCreditIsVoided`, `Collision.CollidingTransfersLoseMoney`);
  a node that mints both itself voids none (`Collision.OwnCreditIsKept`). Only
  this direction is claimed: whether a pair with one credit key loses money
  depends on which node mints and which receives, so distinct keys are
  sufficient for the balance theorem, not necessary.
- The text an event is hashed as joins its fields with colons and does not
  escape them, so a charge of 5 to `alice` and a zero charge to `alice:5` can
  have one text: two logs that differ in them have one digest
  (`Divergence.ConfusedIff`, `Divergence.HiddenDivergence`). Accounts that are
  not confusable in this way are told apart, and so are all other fields
  (`Divergence.DigestDetectsDivergence`).
- A batch flushed after a bucket delete writes rows of the dead bucket back
  (`Persistence.LateFlushIsCleanIff`).
- A node that issues a bucket delete does not count the meta event on an
  account, while nodes that receive it do (`Caches.IssuerCountsOneLess`); a
  count is exact exactly when no own delete is among the account's events
  (`Caches.CountExactIff`, `NodeState.SharedState.CountSeen`).
- A filter search that holds LIKE metacharacters selects differently in the
  database and in memory (`Filter.SearchAgreesIff`), and so does a time bound
  beyond 2^63 - 1, which the binding turns negative (`Filter.SinceBeyondRange`);
  `Filter.FilterExactIff` says exactly which filters agree.
- The range server computes the size of a request in a word; one for all 2^64
  seqs is taken for empty and answered from the buffer alone
  (`Persistence.ServeRange`).

## What the theorems assume

- One `insert_event` and one request are atomic steps; storage calls inside a
  request answer (allocation failures are covered in `Allocator` and
  `BucketAllocators`).
- Delivered events were minted by a node of the system, so one key means one
  event (`ReplicaModel.Deliverable`); event ids are new whenever they are
  minted, and a node's clock does not run backwards (`clock <= m.now`).
- Exactly-once: clients use their own nonces (none of the node's prefixes
  `void:`, `reserve:`, `release:`, `credit:`, `delete:`), a retry repeats the
  request's transfer target, two different transfers never share a credit key,
  the target of a transfer is another account, no transfer is of -2^63, and no
  node restarts during the run (`Cluster.WellUsed`). The gapless own lines of
  `OwnLine` rest on the same.
- Digests: event ids and the ids events refer to are not empty and hold no colon
  (`Divergence.Tidy`); accounts, buckets, origins and nonces are arbitrary.
- Overdraft: limit, debit and hold of a request add up to at most 2^63, and no
  balance exceeds 2^63 - 1 (`Funds.RequestBounded`, `Funds.BalancesBounded`);
  `Funds.BoundIsNeeded` shows that the first bound cannot be dropped.

## Model

| member | source | states |
|---|---|---|
| ExactlyOnce.ExactlyOnceCharging | apps/node/src/state.rs:1423-1605 | over every run of N nodes (creates, retries, deliveries in any order and number, corrections, flushes, deletes): once a live bucket's events are the same at all nodes, each balance is the sum of the granted request keys, each once, plus the transfers to the account, each once |
| ExactlyOnce.CacheHoldsWinner | apps/node/src/state.rs:1423-1508 | in every reachable state, converged or not, a node's cache holds the least event of each client or void key it has events of, and all others are voided there |
| ExactlyOnce.VoidsNeverHitWinners | apps/node/src/state.rs:1453-1508 | no void minted anywhere targets the least event of a key: a preceding event of the same key was minted before it |
| ExactlyOnce.LosersCancel | apps/node/src/state.rs:1456-1508 | the money of beaten duplicates and of winning voids cancels, voids of voids included: the pairing of losers with winning voids is one to one and onto |
| ExactlyOnce.BeatenIsVoided | apps/node/src/state.rs:1453-1508 | at a converged node every beaten event that moves money is voided, also transfer credits, whose cache entries the minting node installs without a check |
| ExactlyOnce.CreditsArePromised | apps/node/src/state.rs:885-950 | the credit keys of an account are, one to one, the transfers requested to it |
| Cluster.RunsKeepInv | apps/node/src/state.rs:606-1605 | the inductive invariant of the whole system holds after any sequence of steps |
| Cluster.CreateKeeps | apps/node/src/state.rs:628-705 | a local request of a client that keeps to the protocol keeps the system invariant: it fails without trace, is answered as a retry of a granted request, or mints its events |
| Cluster.DeliverKeeps | apps/node/src/state.rs:1246-1323 | a delivery, its conflict check and its corrections keep the system invariant |
| Cluster.DeleteKeeps | apps/node/src/state.rs:1332-1420 | a bucket delete keeps the system invariant |
| Cluster.StewardWouldRetry | apps/node/src/state.rs:657-695 | a node that first minted a transfer's credit still has the request in its cache, so it never mints that credit twice |
| Tracking.ConflictLeast | apps/node/src/state.rs:1423-1454 | the entry a conflict leaves in the cache is the least event of the key among all applied ones |
| Tracking.ConflictVoids | apps/node/src/state.rs:1453-1508 | after a conflict only the new loser may still lack its void |
| Types.IdempotencyWinner | libs/types/src/lib.rs:809-819 | the winner is the event that precedes by creation time, then id |
| Types.WinnerIsEarlierOrSmaller | libs/types/src/lib.rs:809-819 | the winner was created earlier or, at equal times, has the smaller id: at the first difference a smaller character, or the end of the id |
| Types.IdempotencyWinnerCommutes | libs/types/src/lib.rs:805-819 | the winner does not depend on the argument order |
| Types.PrecedesTransitive | libs/types/src/lib.rs:809-819 | the winner order is transitive, so a key's winner among many is well defined |
| ExactlyOnce.TransfersCanShareCreditKey | apps/node/src/state.rs:906-950 | requests of two accounts with one nonce are different requests, yet their equal transfers to one account have one credit key |
| ExactlyOnce.CollidingCreditIsVoided | apps/node/src/state.rs:1423-1508 | a node that holds one of two such credits mints a void of one of them when the other is delivered and no void is known yet |
| Collision.CollidingTransfersLoseMoney | apps/node/src/state.rs:906-950 | for every two nodes, accounts, nonce and amount there is a run, which keeps to the protocol but for credit keys, that converges with both debits booked and one credit where two were promised |
| Collision.OwnCreditIsKept | apps/node/src/state.rs:906-950 | a node that mints the credit itself installs it unchecked and voids nothing, whatever its cache holds: the loss needs a delivery |
| OwnLine.OwnHeadIsNextMinusOne | apps/node/src/state.rs:1237-1241 | in every reachable state of every run without transfers of -2^63 the head of a node's own line is the next seq less one and nothing of it is pending |
| OwnLine.RunsGapless | apps/node/src/bucket_allocator.rs:98-145 | in such runs every node holds exactly the own events below the next pair it will hand out |
| NodeState.SharedState.InsertEvent | apps/node/src/state.rs:1246-1323 | accepts exactly the events that are live, positive and new, takes the node to the state the replica function gives, queues the event and its corrections, and keeps every cache equal to its projection of the log |
| NodeState.SharedState.AdmitEvent | apps/node/src/state.rs:1264-1316 | claiming the slot, the delete cascade, booking and head advancement together add exactly the event to the log, less a deleted bucket |
| NodeState.SharedState.CheckIdempotencyConflict | apps/node/src/state.rs:1423-1556 | the cache entry, the void and the hold release a conflict produces, and their effect on all caches; `Corrections` says what both are |
| Corrections.ConflictFreesLoser | apps/node/src/state.rs:1512-1547 | a delivered duplicate frees exactly the reservation of the loser, whichever of the two it is: no active hold has its id any more, and every other hold of the account, the winner's included, is active as before |
| Corrections.NothingElseIsFreed | apps/node/src/state.rs:1246-1547 | every other delivery, and every other account, keeps its active holds, but for those of a bucket the event deletes and those the event itself adds or releases |
| Corrections.ConflictAdds | apps/node/src/state.rs:1456-1556 | field by field, the void and the release a conflict adds: on the loser's account, with the loser's amount reversed and its id, the winner in the note, on consecutive seqs |
| Corrections.OnlyConflictsAdd | apps/node/src/state.rs:1423-1508 | a delivery adds corrections only where two events of a key meet and the loser's void is not known |
| NodeState.SharedState.ApplyCorrectionEvent | apps/node/src/state.rs:1559-1599 | a correction takes the next pair of its line and is stored, booked, cached, queued and announced; nothing applied is lost |
| NodeState.SharedState.EventIsPresent | apps/node/src/state.rs:1787-1804 | true exactly for applied seqs (or seq 0), or for a buffered event with the same id |
| NodeState.SharedState.CreateLocalEvents | apps/node/src/state.rs:628-705 | the whole new state and answer of a request in every mode, and of retries answered from the cache or from storage; the node stays valid but for the late refusal of a transfer, whose account is then off the log by the amount |
| NodeState.SharedState.EmitChargeLocked | apps/node/src/state.rs:727-953 | hold sizing, overdraft guard, reservation, charge and transfer credit, with the caches agreeing again at the end, or the late refusal and what it leaves; `Funds` says what each amounts to |
| NodeState.SharedState.StrandedIsWrong | apps/node/src/state.rs:860-911 | after the late refusal the account's balance is not that of the log |
| LateRefusal.RefusedWithoutTraceIff | apps/node/src/state.rs:628-911 | a refused request leaves the node as it was exactly when it is not a transfer of -2^63 whose funds the guard accepted |
| LateRefusal.LateLeavesHole | apps/node/src/state.rs:860-911 | such a request uses up an own seq for good: the node's line is not gapless any more |
| LateRefusal.LateRetryIsGranted | apps/node/src/state.rs:657-911 | and its retry is answered as granted, with an event that is in no log |
| LateRefusal.LeastTransferIsRefusedLate | apps/node/src/state.rs:860-911 | the first request of a fresh node can be one |
| NodeState.SharedState.EmitReserveLocked | apps/node/src/state.rs:963-1029 | the reserve guard and its single event |
| NodeState.SharedState.EmitSettleLocked | apps/node/src/state.rs:1035-1150 | the refusals in their order, else one charge and one release on two pairs allocated up front |
| NodeState.SharedState.EmitReleaseLocked | apps/node/src/state.rs:1154-1218 | the refusals in their order, else one release event |
| NodeState.SharedState.RefusalSound | apps/node/src/state.rs:1042-1066 | a settle or release is refused for its reservation exactly when no active hold has the id; each reason given is true of the log, and of a reservation not yet forgotten it is the exact one: released before expired |
| NodeState.SharedState.CreateMetaBucketDelete | apps/node/src/state.rs:1332-1385 | the whole new state of a delete: reserved and deleted names are refused; otherwise tombstone, cascade and the recorded meta event, which no account counts |
| Reserved.DeleteGate | libs/types/src/lib.rs:34-43 | a delete is refused as reserved, without a trace, exactly when its bucket is `__meta__` or starts with `__billing__` |
| Reserved.RequestGate | apps/node/src/state.rs:636-638 | a request without the opt-in is refused as reserved, without a trace, exactly for such buckets; one with it never is |
| Reserved.ReservedStays | apps/node/src/state.rs:1332-1340 | in every run of the cluster no node ever deletes the meta log or a billing bucket, so the events there stay where they were minted |
| Reserved.TombstoneGate | apps/node/src/state.rs:639-641 | requests into and deletes of a deleted bucket are refused, and deliveries into it change nothing |
| Reserved.DeleteLeaves | apps/node/src/state.rs:1332-1420 | a delete leaves nothing of the bucket in memory, storage or allocator, keeps everything else, and adds the meta event, which it does not cache |
| Reserved.RetryIsAnswered | apps/node/src/state.rs:657-705 | a retry is answered with the cached event, or else the least stored one, which is cached then; nothing is minted |
| NodeState.SharedState.ApplyBucketDeleteCascade | apps/node/src/state.rs:1397-1420 | each map loses exactly the bucket's entries; the meta bucket is refused |
| NodeState.SharedState.AdvanceHead | apps/node/src/state.rs:1968-2010 | the head ends the gapless run, exactly the seqs beyond it stay pending, the digest folds 1..head and the buffer keeps exactly what is queued or beyond the head |
| NodeState.SharedState.DrainPending | apps/node/src/state.rs:2012-2021 | the head runs to the last joined pending seq, and exactly the joined seqs leave the pending set |
| NodeState.SharedState.UpdateDigest | apps/node/src/state.rs:2024-2047 | the new digest is the left fold over 1..head, none skipped, because every drained event is still buffered |
| NodeState.JumpIsBuffered | apps/node/src/state.rs:2034-2042 | everything a head jumps over is applied and still in the buffer, so the silent skip never happens |
| NodeState.SharedState.PrunePersistedBufferRange | apps/node/src/state.rs:2049-2061 | removes exactly the keys of the range that are no longer queued |
| NodeState.SharedState.FlushLocalEvents | apps/node/src/state.rs:1237-1241 | records each event of a request in turn |
| NodeState.SharedState.MarkPersisted | apps/node/src/state.rs:1808-1823 | the keys leave the queue, the folded ones among them leave the buffer, nothing else changes; a valid state stays valid if the keys it still holds are stored |
| NodeState.SharedState.GetUnpersistedEvents | apps/node/src/state.rs:1825-1831 | exactly the queued events that are old enough, each once |
| NodeState.SharedState.SweepExpiredHolds | apps/node/src/state.rs:1745-1768 | forgets exactly the expired reservations of the accounts that are not locked, with their release markers; active holds at any later time are unchanged |
| NodeState.SharedState.SyncGap | apps/node/src/state.rs:1695-1706 | zero exactly when no seq is pending; otherwise the widest gap of any line |
| NodeState.SharedState.AccountAvailableBalance | apps/node/src/state.rs:1631-1637 | the available balance the log defines |
| NodeState.SharedState.CountSeen | apps/node/src/state.rs:1332-1385 | an account's event count falls short of its events by exactly the deletes this node issued itself since it started, so it is exact outside the meta bucket |
| NodeState.SharedState.constructor | apps/node/src/state.rs:415-576 | rebuilding from any stored log gives a node whose caches all agree with it, with the allocator flagged and the newest event of each key cached; the node is valid exactly when the log is restorable |
| NodeState.SharedState.UnstoredIsQueuedAndBuffered | apps/node/src/state.rs:1808-1831 | an applied event that storage lacks is both queued and buffered |
| NodeState.ActiveHoldTotal | apps/node/src/state.rs:278-282 | sums exactly the active reservations, modulo 2^64 |
| NodeState.ActiveHoldTotalForOrigin | apps/node/src/state.rs:284-298 | sums exactly the active reservations of one origin outside the renewal window, modulo 2^64 |
| NodeState.ImplicitHold | apps/node/src/state.rs:741-786 | in 64-bit words step by step, the multiple of the debit or the headroom, whichever is less, less what the origin holds with a tenth of the duration to go |
| NodeState.GuardCharge | apps/node/src/state.rs:792-810 | a debit is refused exactly when the projected 64-bit word is below the floor, with the amounts the error reports |
| Caches.ActiveAgrees | apps/node/src/state.rs:267-302 | after any sweeps and in any order of release and creation, the account's active holds are those of the log |
| Caches.AccountsBooked | apps/node/src/state.rs:304-319 | booking an event keeps every account equal to its projection of the log |
| Caches.CountExactIff | apps/node/src/state.rs:304-319 | an account counts every event of its log exactly when none of them is a delete the node issued itself |
| Caches.IssuerCountsOneLess | apps/node/src/state.rs:1332-1385 | after a delete the issuing node counts one event less than a node with the same log that received the meta event |
| Caches.CachesDropped | apps/node/src/state.rs:1397-1420 | after a cascade every cache agrees with what is left of the log |
| Caches.NoGapMeansNothingPending | apps/node/src/state.rs:1695-1706 | no line has a gap exactly when nothing is pending |
| Divergence.DigestDetectsDivergence | apps/node/src/state.rs:2024-2047 | the rolling digests of two logs are equal exactly when the logs agree up to there in all twelve hashed fields, if ids and references hold no colon and no two accounts that differ at one place are confusable |
| Divergence.ConfusedIff | libs/types/src/lib.rs:155-171 | two accounts of a line can be mistaken for one another by the canonical text exactly when one goes on after the other with a colon and a number, and ends there or has another colon |
| Divergence.HiddenDivergence | apps/node/src/state.rs:2024-2047 | for every two such accounts there are two logs that differ and have one digest |
| Divergence.AliceIsConfusable | libs/types/src/lib.rs:155-171 | for instance `alice` and `alice:5` |
| Divergence.PlainNamesApart | libs/types/src/lib.rs:155-171 | accounts without a colon are never confusable |
| Agreement.LineCachesDetermined | apps/node/src/state.rs:1968-2076 | heads, pending seqs, highest known seqs and digests are determined by the applied log alone |
| Agreement.AccountsDetermined | apps/node/src/state.rs:240-302 | balances and active holds are determined by the applied log alone, on the incremental and on the rebuilt path |
| Agreement.BufferDetermined | apps/node/src/state.rs:1808-2061 | the buffer is determined by the log and the queue of events not yet stored |
| Agreement.DeliveriesDecide | apps/node/src/state.rs:1246-1316 | after any deliveries the log is what was delivered less the deleted buckets, and the tombstones are exactly the delivered deletes |
| Agreement.DeliveryOrderIsIrrelevant | apps/node/src/state.rs:1246-1316 | the same deliveries in any order and with any repetitions give the same log and tombstones, so a bucket delete wins wherever it arrives |
| Agreement.ReplayIsRejected | apps/node/src/state.rs:1254-1262 | a stored event is never applied again |
| Rebuild.ComputeContiguousHead | apps/node/src/state.rs:2108-2118 | returns the end of the gapless run that starts at 1 |
| Rebuild.RebuildAll | apps/node/src/state.rs:444-576 | all caches rebuilt from the startup queries agree with the stored log |
| Rebuild.RebuildAccounts | apps/node/src/state.rs:444-497 | aggregate balances plus a replay of holds and releases agree with the log from the startup time on |
| Rebuild.RebuildDigests | apps/node/src/state.rs:520-562 | in seq order no event at or below the head is skipped, and exactly the events beyond the head are buffered |
| Rebuild.RebuildCache | apps/node/src/state.rs:506-518 | the newest event of each key among the last 10000 is cached |
| Rebuild.RestartKeepsWinnerIff | apps/node/src/state.rs:506-518 | after a restart a key's winner is cached exactly when its last listed event is among the last 10000, all its events were created at one moment, and that last one has the least id |
| Rebuild.RestartCaches | apps/node/src/state.rs:506-518 | a key is cached exactly when its last listed event is among the last 10000, and then with that event |
| Rebuild.RestartCanCacheLoser | apps/node/src/state.rs:506-518 | a concrete log after which a restart caches a loser |
| AfterRestart.VoidedIff | apps/node/src/state.rs:1423-1508 | a new duplicate of a cached key is voided exactly when the cached event precedes it |
| AfterRestart.SurvivesIff | apps/node/src/state.rs:1423-1508 | a beaten duplicate survives exactly when it precedes the cached event |
| AfterRestart.WinnerVoidsCached | apps/node/src/state.rs:1423-1508 | a node that caches a duplicate voids it when an earlier event of the key arrives |
| AfterRestart.WinnerCachedNoneSurvives | apps/node/src/state.rs:1423-1508 | while the cache holds the winner no beaten duplicate survives |
| AfterRestart.DuplicateSurvivesRestart | apps/node/src/state.rs:506-518 | after a restart that caches a voided loser, a duplicate created between winner and loser is booked at that node without any correction: its account is charged twice there |
| Rebuild.RunningCovers | apps/node/src/bucket_allocator.rs:76-92 | whenever a node stops, its durable allocator rows cover its stored events, so a restart never reissues a pair |
| Rebuild.TombstonesSurviveIff | apps/node/src/state.rs:564-576 | for every listing of the stored meta events the replay rebuilds the running path's tombstones exactly when no stored meta event names the meta bucket itself |
| Rebuild.MetaLogClosesIff | apps/node/src/state.rs:564-576 | a restarted node refuses every event of the meta log exactly when some stored meta event names the meta bucket |
| Rebuild.RestartCanCloseMetaLog | apps/node/src/state.rs:1274-1280 | one such event is harmless to the running node, and makes it refuse all deletes from elsewhere after it is stored and the node restarts |
| Emission.CreateLocalValid | apps/node/src/state.rs:628-1218 | whatever a request does, the replica stays valid and its log grows by exactly the reported events; a refusal changes nothing, but for the late one, which leaves the log alone |
| Emission.MintAllValid | apps/node/src/bucket_allocator.rs:142-144 | events minted in turn are new, consecutive and positive |
| Requests.ModeIffMeant | apps/node/src/state.rs:116-214 | each mode is selected exactly by the field combinations that mean it, and a request is refused exactly when it means none |
| Requests.RefusedForAReason | apps/node/src/state.rs:116-214 | the reason of such a refusal names a fault the request has |
| Emitted.ReserveAdds | apps/node/src/state.rs:963-1029 | field by field, the one event of a granted reserve: it moves no money and holds what was asked until it was asked |
| Emitted.SettleAdds | apps/node/src/state.rs:1035-1150 | the two events of a granted settle, on consecutive seqs: the charge, and the release of the reservation it names |
| Emitted.ReleaseAdds | apps/node/src/state.rs:1154-1218 | the one event of a granted release |
| Emitted.ChargeAdds | apps/node/src/state.rs:727-953 | the events of a granted charge, on consecutive seqs: the hold, if any, with the caller's size and expiry or the node's for the configured duration, the charge, and the credit of a transfer |
| Emitted.DeleteAdds | apps/node/src/state.rs:1342-1385 | the meta event of a granted delete, which names the bucket |
| Funds.NoOverdraft | apps/node/src/state.rs:727-1218 | no run of local requests, deletes and flushes takes an account below the overdraft limit its requests respect, then or later, as long as limit, debit and hold of each request add up to at most 2^63 |
| Funds.BoundIsNeeded | apps/node/src/state.rs:976-992 | for every limit up to 2^62 and every hold that together exceed 2^63 but not 2^64 - 1, a debit and a reservation of that limit leave an account below it |
| Funds.SettleReturnsRemainder | apps/node/src/state.rs:1035-1150 | a settle captures at most the hold and raises the available amount by exactly the uncaptured remainder |
| Funds.EndsActiveOnly | apps/node/src/state.rs:1042-1078 | a settle is granted exactly for an active reservation of at least the amount, a release for any active one; otherwise the answer says what is missing |
| Funds.EndsOnce | apps/node/src/state.rs:1035-1218 | once settled or released, every later settle or release of the reservation is refused |
| Funds.HoldsIff | libs/types/src/lib.rs:186-196 | an event holds funds exactly while it is a reservation or a debit with a positive hold whose time is not over and no release of its account names it |
| Funds.EndedNeverActive | apps/node/src/state.rs:267-319 | a released or expired reservation is never active again, even if its release arrived before its creation |
| Funds.ImplicitHoldNeverRejects | apps/node/src/state.rs:751-810 | an implicit-hold debit is refused for its funds exactly when the bare debit, as a word, is below the floor, but for one wrapping case of limits beyond 2^63, stated by the amount, the multiplier, the limit, the funds and what the origin holds |
| Funds.ImplicitHoldExactIff | apps/node/src/state.rs:751-810 | with a limit in the signed range the refusal is right exactly when the bare debit does not fall below -2^63 |
| Funds.OnlyExplicitHoldsBlock | apps/node/src/state.rs:799-809 | the flag that blames the hold is set only for a caller-sized hold, and then exactly when the bare debit, as a word, clears the floor |
| Funds.ImplicitHoldCoverage | apps/node/src/state.rs:741-786 | after success, what this origin holds with a tenth of the duration or more to go is the greater of what it was and the debit times the multiplier, as far as a word and the headroom of the bare debit allow; what happens beyond 2^64, with multiplier 0 and without a duration is stated too |
| Funds.RefusalReports | apps/node/src/state.rs:792-812 | a refusal for lack of funds reports the balance, what was available, and the amount, below the floor, that the request would have left |
| Funds.CreditsAlwaysPass | apps/node/src/state.rs:792-794 | credits and zero charges pass whatever the account holds |
| Funds.TransferConservesIff | apps/node/src/state.rs:885-950 | a transfer, with or without hold, leaves the bucket total unchanged exactly when its amount is not positive |
| Funds.ReserveGuardExactIff | apps/node/src/state.rs:976-992 | a reservation is granted exactly when the funds allow it, if and only if the 64-bit difference does not run off the range: for every account, limit and hold of 64 bits |
| Funds.ChargeGuardExactIff | apps/node/src/state.rs:792-810 | the same for a debit with any hold |
| Funds.ReserveGuardWraps | apps/node/src/state.rs:976-992 | a granted reservation without funds, and a refusal because of a wrapped hold |
| Funds.UnlimitedOverdraftNeedsFunds | apps/gateway/src/main.rs:1952-1952 | the gateway's unlimited overdraft is a floor of one: its deductions, which are no transfers, pass exactly when they leave at least one |
| Funds.AvailableExactIff | apps/node/src/state.rs:300-302 | the available balance is the exact one exactly when that fits a signed word |
| Allocator.AllocationsNeverRepeatNorSkip | apps/node/src/bucket_allocator.rs:76-163 | over any run of allocations, ambiguous failures, checkpoints and restarts the pairs strictly increase and each epoch's seqs are 1, 2, 3, ... |
| Allocator.AllocateAdvances | apps/node/src/bucket_allocator.rs:98-145 | an allocation moves its own bucket one seq on and no other bucket |
| Allocator.OtherOpsKeepOrSkip | apps/node/src/bucket_allocator.rs:76-163 | no other operation moves the next pair, except to the first seq of a later epoch |
| BucketAllocators.Registry.Allocate | apps/node/src/bucket_allocator.rs:98-145 | the pair and state of a successful allocation, and the state an erring storage call leaves |
| BucketAllocators.Registry.LoadFromStorage | apps/node/src/bucket_allocator.rs:76-92 | flags every row and loads all of them |
| BucketAllocators.Registry.Checkpoint | apps/node/src/bucket_allocator.rs:150-163 | persists one bucket's next seq without rewinding |
| AllocatorRace.OneBumpDistinctSeqs | apps/node/src/bucket_allocator.rs:122-144 | however writers interleave and whichever bumps fail, one durable bump and the seqs 1, 2, 3, ... of one new epoch |
| AllocatorRace.DistinctIffOrderly | apps/node/src/bucket_allocator.rs:99-119 | in every completed run of that arm the pairs handed out are distinct exactly when no writer looked the bucket up while another was between its miss and its registration |
| AllocatorRace.OverlappingMissesRepeat | apps/node/src/bucket_allocator.rs:99-119 | once two writers have missed a bucket at the same time, some pair has been handed out twice when all writers are done, however the run goes on |
| AllocatorRace.MissesInTurnRepeat | apps/node/src/bucket_allocator.rs:99-119 | for instance, two such writers that finish one after the other both get the first pair |
| AllocatorRace.SeparateMissesAreSafe | apps/node/src/bucket_allocator.rs:99-119 | when misses do not overlap, that arm hands out 1, 2, 3, ... too |
| Storage.Backend.InsertEvent | libs/storage/src/memory.rs:39-75 | first come, first kept, by key and by id, with the outcome reported |
| Storage.Backend.InsertEventsBulk | libs/storage/src/memory.rs:77-85 | the events are inserted one after the other, and the count is the number of new rows |
| Storage.KeptAllIsPersist | libs/storage/src/memory.rs:39-85 | inserting applied events in any order and with repetitions stores exactly them |
| Storage.Backend.QueryEventsRange | libs/storage/src/memory.rs:87-104 | the stored events of a seq range in order, each once |
| Storage.Backend.FindByIdempotencyKey | libs/storage/src/memory.rs:280-299 | exactly the stored events of the key |
| Storage.Backend.DeleteBucketCascade | libs/storage/src/memory.rs:123-145 | drops exactly the bucket's events, ids and rows, and refuses the meta bucket |
| Storage.Backend.BumpBucketEpoch | libs/storage/src/memory.rs:376-402 | bumps a flagged row, keeps a clear one, creates a missing one |
| Storage.Backend.PersistBucketNextSeq | libs/storage/src/memory.rs:404-418 | never rewinds the durable counter |
| Persistence.BatchWriter.DoFlush | apps/node/src/batch_writer.rs:98-118 | on success the batch is stored and unqueued, on failure the buffer is dropped and everything stays queued; a valid node stays valid exactly when the call is lost or no event of the batch is of a bucket deleted since |
| Persistence.BatchWriter.Receive | apps/node/src/batch_writer.rs:64-82 | accumulates until the flush size, then flushes the buffer with the new event; a failed flush leaves all of it queued |
| Persistence.BatchWriter.Tick | apps/node/src/batch_writer.rs:84-89 | a timer tick flushes whatever is buffered; a failed flush leaves all of it queued |
| Persistence.OrphanPass | apps/node/src/orphan_detector.rs:42-73 | a successful pass leaves every event older than the threshold stored and unqueued |
| Persistence.LateFlushIsCleanIff | apps/node/src/batch_writer.rs:98-118 | storage keeps agreeing with the log exactly when no event of a flushed batch belongs to a bucket deleted meanwhile |
| Persistence.ServeRange | apps/node/src/server.rs:269-304 | returns exactly the applied events of the range, in seq order, each once, whether buffered or stored; of a request for all 2^64 seqs only the buffered ones |
| Persistence.ListEvents | apps/node/src/service.rs:312-347 | returns every applied event exactly once, in time and id order, whether buffered or stored |
| Persistence.AnswerAck | apps/node/src/server.rs:246-258 | acknowledges exactly the events the node holds afterwards, and refuses exactly those of deleted buckets |
| HandOff.NothingDroppedUnfolded | apps/node/src/state.rs:1808-2061 | in every interleaving of map operations the digest folds 1, 2, 3, ... without a gap and no event leaves the buffer before it is folded and stored |
| HandOff.BufferExactAtRest | apps/node/src/state.rs:1808-2061 | whoever finishes last, at rest an event is buffered exactly while it is queued or beyond the head |
| HandOff.StepKeeps | apps/node/src/state.rs:1808-2061 | each single map operation keeps the hand-off invariant |
| CatchUp.Exchange | apps/node/src/server.rs:306-357 | one exchange brings the head to at least the smaller of old head plus 5000 and the peer's head |
| CatchUp.ExchangeClosesWindow | apps/node/src/server.rs:323-350 | ... whatever later seqs were already held out of order and whatever corrections the batch triggers |
| CatchUp.ExchangesCloseGap | apps/node/src/server.rs:306-357 | over any run of exchanges with peers whose heads have reached a target, answers lost and other activity in between, the node's head reaches it after its gap over 5000, rounded up, answers |
| CatchUp.InsertEventsBatch | apps/node/src/state.rs:1602-1610 | inserts the events one after the other and counts those that were new when their turn came |
| Acknowledged.RepliesMeanQuorum | libs/broadcast/src/libp2p.rs:666-736 | in every run of a cluster beside one node's loop, with each answer computed by the asked peer: a reply without timeout means that many distinct other peers hold the event unless they deleted its bucket since; the timeout flag is exact on what was acknowledged, and no group is answered twice |
| Acknowledged.QuorumRepliesAtOnce | libs/broadcast/src/libp2p.rs:864-885 | in every such run, the acknowledgement that completes a group's quorum brings its reply in the same step, whoever is still to answer; another answer brings one only if it is the last, and then the reply says timeout |
| Acknowledged.UnansweredStillWaits | libs/broadcast/src/libp2p.rs:846-904 | in every such run, a group without reply has fewer acknowledging peers than it wants (or none yet) and an open request, so none is forgotten |
| Acknowledged.ResponseMeansQuorum | apps/node/src/service.rs:182-203 | in every such run, a create response without timeout means that each emitted event is held by at least the requested number of distinct other peers, and nobody was asked if none was requested |
| Acknowledged.HandlerFits | apps/node/src/server.rs:246-258 | the acknowledgement handler's preconditions hold whenever a peer of a run handles a request |
| Acknowledged.StepKeepsLogs | apps/node/src/state.rs:606-1605 | no step of a reachable cluster takes an event from any node, but for deleted buckets |
| Quorum.ResponseKeeps | libs/broadcast/src/libp2p.rs:846-904 | responses and failures keep the counts exact, late ones count for nothing |
| Quorum.AskKeeps | libs/broadcast/src/libp2p.rs:682-702 | asking every connected peer once opens an exact group |
| Quorum.AckGroups.RequestAcks | libs/broadcast/src/libp2p.rs:666-702 | one request per connected peer, or an immediate timeout without peers |
| Quorum.AckGroups.OnResponse | libs/broadcast/src/libp2p.rs:864-885 | counts the answer and answers the group in the same call if it has its quorum or nobody is left, with the exact reply; otherwise the group stays with fewer acknowledgements than it wants and a request open; late responses change nothing but the request table |
| Quorum.AckGroups.OnFailure | libs/broadcast/src/libp2p.rs:889-904 | counts the failure and answers the group in the same call exactly when nobody is left, with the exact reply |
| Quorum.AckGroups.Sweep | libs/broadcast/src/libp2p.rs:719-736 | answers exactly the groups whose deadline has passed, each with what it has, and keeps the others as they are |
| Quorum.AggregateAcks | apps/node/src/service.rs:182-203 | least received, greatest requested, any timeout |
| HeadKeys.HeadKeyRoundTripIff | libs/broadcast/src/libp2p.rs:113-129 | a line's wire key decodes to the line exactly when its bucket name holds no tab |
| HeadKeys.HeadKeysDiffer | libs/broadcast/src/libp2p.rs:113-129 | tab-free lines never share a wire key |
| HeadKeys.InternalBucketOwner | apps/gateway/src/main.rs:2400-2419 | an internal bucket name decodes for its own user and for no other |
| HeadKeys.InternalBucketIsPlain | apps/gateway/src/main.rs:2400-2432 | internal names hold no tab |
| HeadKeys.RewriteNeverCollides | apps/gateway/src/main.rs:1681-1693 | two lines of a user never rewrite to one key, whatever the bucket names hold |
| HeadKeys.RewriteBucketKeys | apps/gateway/src/main.rs:1681-1693 | for any map: exactly the names some key rewrites to, each with the value of the last such key in key order; keys that do not decode are skipped, and gateway-made keys never meet |
| Filter.FilterCompiles | libs/storage/src/postgres.rs:277-400 | for every subset of filters with a plain search and time bounds in the signed range the numbered clause with its binds selects exactly the events that pass each test the filter makes, as the in-memory predicate does, in the count and in the page query; a search is a substring but for the case of ASCII letters |
| Filter.TypeFilterIff | libs/types/src/lib.rs:62-72 | a filter by type knows the five names, and any other selects nothing |
| Filter.CompileWhere | libs/storage/src/postgres.rs:291-323 | the conjuncts carry consecutive placeholder numbers in the order of the tests |
| Filter.CompileBinds | libs/storage/src/postgres.rs:331-355 | the binds come in the same order, the time bounds cast to signed words |
| Filter.LikeContains | libs/storage/src/memory.rs:203-214 | between wildcards a pattern without metacharacters is a substring test |
| Filter.SearchAgreesIff | libs/storage/src/postgres.rs:319-322 | the database's search is the in-memory substring test, on every text with ASCII case folding, exactly when the search holds no LIKE metacharacter |
| Filter.PercentFindsEverything | libs/storage/src/postgres.rs:319-322 | a search for a percent sign matches every text in the database, in memory only texts that hold one |
| Filter.FilterExactIff | libs/storage/src/postgres.rs:277-400 | on events created in the signed range the two evaluations agree exactly when no time bound is beyond 2^63 - 1 and the search is plain or absent, or when names, time bounds, or two bounds beyond that make both select nothing; case folding of the search is ASCII |
| Filter.SinceBeyondRange | libs/storage/src/postgres.rs:349-354 | a lower bound of 2^63 lets every event through in the database and none in memory |

## Left out

- Liveness of corrections: two nodes may keep minting mutual voids, so the balance theorem speaks of converged states.
- Restarts inside the exactly-once runs: the rebuilt cache may hold losers, which `Rebuild.RestartKeepsWinnerIff` and `AfterRestart.SurvivesIff` delimit.
- Finer interleavings inside one `insert_event` (the presence check and the slot claim take no common lock) and wall-clock skew.
- The two clock readings of a void and the hold release that follows it are one reading.
- Debug builds, where an overflow of a balance, a hold sum or a guard's difference panics; the model wraps, as a release build does. The negation of the least 64-bit amount in a void, and overflow of clock readings, expiry times and seqs, are not modelled.
- Cluster.CreateKeeps: leaves out transfers of -2^63, since no invariant of the cluster survives one; `LateRefusal` says what they do to a node.
- OwnLine.OwnHeadIsNextMinusOne: false after a transfer of -2^63 (`LateRefusal.LateLeavesHole`), which the runs leave out.
- OwnLine.RunsGapless: leaves out the same transfers.
- Agreement.DeliveriesDecide: leaves aside the corrections that deliveries trigger; the runs of `Cluster` include them.
- Agreement.DeliveryOrderIsIrrelevant: leaves the corrections aside too, since which of them a node mints does depend on the order.
- Rebuild.RebuildAccounts: the balance query answers only when every sum fits its column; a failed startup query is not modelled.
- NodeState.SharedState.EmitChargeLocked: does not model locks, so it does not show that the code waits for its own lock when an account transfers to itself.
- NodeState.SharedState.constructor: takes the results of the startup queries as parameters with their contracts, and leaves the readiness phase and the total event count out.
- NodeState.SharedState.CreateLocalEvents: allocator failures inside a request are not modelled; the code may leave an account ahead of the log when an allocation fails mid-request.
- NodeState.SharedState.SweepExpiredHolds: which accounts are locked at the moment is a parameter.
- CatchUp.Exchange: heads and range responses are read from the peer at once; lost answers are part of `CatchUp.ExchangesCloseGap`, the outer loop over peers and lines is not modelled.
- Acknowledged.RepliesMeanQuorum: a peer that answers restarts at no time during the run, and acknowledges from memory, before its own flush.
- Persistence.BatchWriter.Receive: the select loop around it, its timers and the materialized-view refresh are left to the caller.
- Persistence.ServeRange: answers a reversed range as the database does, with nothing; the in-memory backend's map panics on one, and a debug build on the size.
- Persistence.ListEvents: the sorted storage listing is a parameter.
- BucketAllocators.Registry.Checkpoint: one bucket's share; the loop over all buckets is a sequence of these, some of which may fail.
- Quorum.AckGroups.RequestAcks: the transport that carries the requests, and peers that connect later, are not modelled.
- Filter.FilterCompiles: the SQL engine is modelled by what each conjunct means; case folding is ASCII, and paging order is not part of it.
- HeadKeys.InternalBucketOwner: bucket names are byte strings; the UTF-8 check of decoded names is not modelled.
- libp2p transport, gossip, discovery, key derivation, SQL execution, migrations, the registry's merge, `compute_checksum`, HTTP handlers, billing, dashboards and tools.
- Divergence.DigestDetectsDivergence: ids and references are taken to be non-empty and free of colons, as the ids nodes mint are; events with other ids from a peer that makes them up are not covered.
