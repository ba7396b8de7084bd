# Idempotency keys: a verified model

This project models the package that makes a handler run once per idempotency
key and gives every retry the stored result or a refusal, and proves what the
package promises. It has five parts.

- **The store contract and three stores.** `StoreContract` says what `acquire`,
  `complete`, `release` and `extend` do to a set of expiring records.
  `InMemoryStore`, `RedisStore` and `DrizzleStore` are classes that work as the
  three stores do (lazy deletion and a sweep; Lua scripts over a hash with
  server-side expiry; SQL statements that other clients can interleave with),
  each proved against the contract. `StoreEquivalence` runs all three.
- **The protocol.** `Protocol` is a step machine: any number of attempts, their
  outstanding store calls (which land at any later moment or never, with clock
  readings taken at any moment since they were issued), replies, timers that
  fire late or never, heartbeats, callers that leave, crashes and shutdown.
  `StoreRuns`, `ProtocolInvariant` and `ProtocolTheorems` prove what holds in
  every reachable state, `LostLocks` when calls of an attempt that lost its lock
  can still write, `Reports` which lock-lost reports are right, `Lease` which
  delays a lock survives, `HoldBound` how long a key stays blocked, and
  `Lifecycle` what a caller that leaves, a refused renewal, a ceiling and a
  shutdown end, and that every attempt can end. `Scenarios` are runs that show
  what the conditions are needed for. `Observer` is the observer that runs the
  handler, event by event.
- **The result codec.** `JsValues` and `JsHeap` are JavaScript values as trees
  and as object graphs. `ResultCodec` encodes and decodes trees; `GraphEncoder`
  walks graphs with one mutable ancestor set and is proved to encode the tree a
  graph unfolds to, to find cycles exactly, and to restore the set.
- **Request identity.** `Sorting`, `JsonText`, `CanonicalText` and `GraphWriter`
  are the canonical text, and what a payload means, told without the printer;
  `Identity` is the store key, the
  length-prefixed framing and the fingerprint; `Envelope` is the sealed record
  and its key ring.
- **End to end.** `EndToEnd` composes the parts: a replay hands out the normal
  form of what the handler returned to an earlier attempt for the same call,
  and every other call that finds the record is refused.

Store and process clocks are one monotone clock of whole milliseconds. When a
call read it is part of the model. The in-memory store and Redis read it inside
the step that decides the call. The PostgreSQL store sends the reading its
client took before, so a statement can carry an old one. Theorems without a
premise about readings hold for all three stores. `LostLocks.ReadsInside` (the
store reads the clock inside the step) and `StoreRuns.InOrder` (no call of the
attempt lands after one that read the clock later) name the premise where one is
needed: the first two stores always meet both
(`StoreRuns.ReadInsideIsInOrder`), the PostgreSQL store meets the second in
every run in which no statement of the attempt overtakes another. Strings
are sequences of Unicode scalar values. SHA-256, AES-256-GCM, base64, ISO dates
and JSON text of a response enter as function parameters; the predicates
`Identity.CollisionFree`, `CanonicalText.IdealDigest`, `Envelope.Ideal` and
`ResultCodec.TextsRoundTrip` state what is taken for granted about them. A
random owner token is any text no attempt has had before.

Where the code and its documentation differ, the model follows the code:

- "No payload makes a request fail" (`lib/utils/fingerprint.util.ts:7-9`) does
  not hold for an own enumerable getter that throws. `GraphWriter.FailsExactly`
  says for which payloads printing fails, and `GraphWriter.ThrowingGetterFails`
  gives one.
- "`extend()` resolves `false`, changing nothing, when `owner` doesn't hold a
  live lock" (`lib/interfaces/idempotency-store.interface.ts:138-148`, and the
  same for the others) holds for a lock that was taken over, whatever the
  readings. For one that has only expired, a PostgreSQL statement with an older
  reading still writes: `LostLocks.UntouchedExactly` and
  `Reports.LateExtendExactly` say exactly when, and
  `Scenarios.StaleRenewalRevives`, `Scenarios.StaleRenewalBeliesReport` and
  `Lease.OvertakenRenewalLosesLock` are runs in which it does.

## Model

| member | source | states |
|---|---|---|
| `StoreContract.Fencing` | lib/interfaces/idempotency-store.interface.ts:72-83 | A call touches at most its own key; it answers acquired exactly where that key is dead, and true exactly where the caller holds its live lock; any other answer comes with no change at all |
| `StoreContract.PerformRespectsView` | lib/interfaces/idempotency-store.interface.ts:66-70 | Expired entries do not exist: stores with equal live views answer every call alike and stay equal from then on, deleted or not |
| `StoreContract.ViewDecidesTheFuture` | lib/interfaces/idempotency-store.interface.ts:66-70 | Equal live views now are equal live views at every later instant |
| `StoreContract.LiveEntryBlocksAll` | lib/interfaces/idempotency-store.interface.ts:94-100 | However many callers race for a key with a live entry, none wins and each is told that entry's fingerprint |
| `StoreContract.OneWinner` | lib/interfaces/idempotency-store.interface.ts:80-82 | Of any number of callers racing for a dead key while the first lock lives, exactly the first wins |
| `InMemoryStore.InMemoryIdempotencyStore.Acquire` | lib/stores/in-memory-idempotency.store.ts:34-62 | Answers and leaves behind what the contract does, up to dead entries, counts the call, and keeps the garbage bound |
| `InMemoryStore.InMemoryIdempotencyStore.Complete` | lib/stores/in-memory-idempotency.store.ts:64-82 | Refines the contract's complete on the live view |
| `InMemoryStore.InMemoryIdempotencyStore.Release` | lib/stores/in-memory-idempotency.store.ts:84-91 | Refines the contract's release on the live view |
| `InMemoryStore.InMemoryIdempotencyStore.Extend` | lib/stores/in-memory-idempotency.store.ts:93-100 | Refines the contract's extend on the live view |
| `InMemoryStore.InMemoryIdempotencyStore.Size` | lib/stores/in-memory-idempotency.store.ts:103-106 | Counts exactly the live records, keeps no others, and changes nothing anyone can see from then on |
| `InMemoryStore.InMemoryIdempotencyStore.Read` | lib/stores/in-memory-idempotency.store.ts:117-124 | Finds an entry exactly if it is live, and deletes it exactly if it is there but dead |
| `InMemoryStore.InMemoryIdempotencyStore.MaybeSweep` | lib/stores/in-memory-idempotency.store.ts:126-130 | Sweeps on every 1,000th acquire and never otherwise |
| `InMemoryStore.InMemoryIdempotencyStore.Sweep` | lib/stores/in-memory-idempotency.store.ts:132-139 | Leaves exactly the entries that are live at its clock reading |
| `InMemoryStore.DeletingTheDeadIsInvisible` | lib/stores/in-memory-idempotency.store.ts:117-139 | Whatever dead entries are deleted, every call answers and leaves behind the same |
| `RedisStore.Redis.Exists` | tests/fixtures/redis/fake-redis.ts:138-149 | A key exists strictly before its expiry; from that millisecond on it is gone, and deleted when met |
| `RedisStore.Redis.HSet` | tests/fixtures/redis/fake-redis.ts:151-157 | Sets fields of a live hash, keeping its expiry, or starts a new hash without one |
| `RedisStore.Redis.HGet` | tests/fixtures/redis/fake-redis.ts:159-165 | A field of a live hash, else nil |
| `RedisStore.Redis.HDel` | tests/fixtures/redis/fake-redis.ts:167-169 | Removes one field of a live hash and leaves its expiry |
| `RedisStore.Redis.PExpire` | tests/fixtures/redis/fake-redis.ts:171-177 | Moves the expiry of a live key, of a dead one nothing; an argument that is not a whole number is an error and changes nothing |
| `RedisStore.Redis.Del` | tests/fixtures/redis/fake-redis.ts:186-190 | Deletes a key and says whether it was alive |
| `RedisStore.RedisIdempotencyStore.AcquireScript` | tests/fixtures/idempotency/redis-idempotency.store.ts:17-27 | Wins exactly a dead key, with a fresh hash of three fields; else reports the stored fields and changes nothing |
| `RedisStore.RedisIdempotencyStore.CompleteScript` | tests/fixtures/idempotency/redis-idempotency.store.ts:28-37 | Compare-and-set on the owner field: response in, owner out, new expiry |
| `RedisStore.RedisIdempotencyStore.Acquire` | tests/fixtures/idempotency/redis-idempotency.store.ts:64-80 | Keeps the representation (owner exactly in flight, response exactly when completed) and answers as the contract does |
| `RedisStore.RedisIdempotencyStore.Complete` | tests/fixtures/idempotency/redis-idempotency.store.ts:82-92 | The same for complete |
| `RedisStore.RedisIdempotencyStore.Release` | tests/fixtures/idempotency/redis-idempotency.store.ts:94-97 | The same for release |
| `RedisStore.RedisIdempotencyStore.Extend` | tests/fixtures/idempotency/redis-idempotency.store.ts:99-102 | The same for extend |
| `RedisStore.RepresentsLater` | tests/fixtures/redis/fake-redis.ts:138-145 | Server-side expiry is the contract's expiry, to the millisecond, for as long as nothing is written |
| `DrizzleStore.DrizzleIdempotencyStore.Acquire` | tests/fixtures/idempotency/drizzle-idempotency.store.ts:28-68 | Linearizes under arbitrary interleaved clients: a reply is what the contract gives at one statement of the last round for the clock reading it took; every earlier round wrote nothing and saw its blocking row go; the throw comes after exactly 5 such rounds, with at most 5 clock readings |
| `DrizzleStore.DrizzleIdempotencyStore.AcquireRound` | tests/fixtures/idempotency/drizzle-idempotency.store.ts:38-65 | One round decides at its insert or its select, or another client changed the row between the two |
| `DrizzleStore.Database.Upsert` | tests/fixtures/idempotency/drizzle-idempotency.store.ts:43-51 | Inserts, or takes over a row that has expired by the caller's clock; the stored key text stays |
| `DrizzleStore.DrizzleIdempotencyStore.Complete` | tests/fixtures/idempotency/drizzle-idempotency.store.ts:70-83 | One conditional update performs the contract's complete on the key's row and touches no other |
| `DrizzleStore.DrizzleIdempotencyStore.Release` | tests/fixtures/idempotency/drizzle-idempotency.store.ts:85-91 | One conditional delete performs the contract's release |
| `DrizzleStore.DrizzleIdempotencyStore.Extend` | tests/fixtures/idempotency/drizzle-idempotency.store.ts:93-101 | One conditional update performs the contract's extend |
| `DrizzleStore.DrizzleIdempotencyStore.Prune` | tests/fixtures/idempotency/drizzle-idempotency.store.ts:107-120 | Deletes only rows still expired when the delete reaches them, and counts them; with fewer expired rows than the limit none of them is left expired; with nobody else writing it deletes as many as there are, up to the limit |
| `DrizzleStore.PruningIsInvisible` | tests/fixtures/idempotency/drizzle-idempotency.store.ts:103-106 | Pruning changes no key's record for anyone, from its clock reading on |
| `DrizzleStore.KeysAreKeptApart` | lib/interfaces/idempotency-store.interface.ts:87-90 | With a collision-free hash, no statement for one key touches what the table says about another |
| `StoreEquivalence.InMemoryAnswers` | lib/stores/in-memory-idempotency.store.ts:30-139 | Every chronological sequence of calls is answered as the contract answers it |
| `StoreEquivalence.RedisAnswers` | tests/fixtures/idempotency/redis-idempotency.store.ts:17-102 | The same replies, from the same sequence |
| `StoreEquivalence.DrizzleAnswers` | tests/fixtures/idempotency/drizzle-idempotency.store.ts:28-101 | The same replies, from the same sequence, for a client that is alone |
| `StoreEquivalence.AloneDecidesAtOnce` | tests/fixtures/idempotency/drizzle-idempotency.store.ts:35-37 | With nobody else writing there is no second round |
| `StoreRuns.EntryOrigin` | lib/interfaces/idempotency-store.interface.ts:66-78 | In every history of landed calls, a key's entry is exactly what its last winning call wrote, under the fingerprint its lock was taken with |
| `StoreRuns.OneEpochAtATime` | lib/interfaces/idempotency-store.interface.ts:80-83 | A second owner takes a key only after the first released it, or its last write had expired for the reading of the next acquire that took the key |
| `StoreRuns.GoneStaysGone` | lib/interfaces/idempotency-store.interface.ts:72-78 | Whatever clock readings calls carry: an owner whose lock was taken over, completed or released never has it back, and all its later calls are answered false |
| `StoreRuns.LostStaysLost` | lib/interfaces/idempotency-store.interface.ts:72-78 | An owner without a live lock at some instant never gets it back by calls that read the clock then or later, and those are all answered false |
| `StoreRuns.RefusedIsLost` | lib/interfaces/idempotency-store.interface.ts:138-148 | Where an owner's calls land in the order of their readings, one refusal is final |
| `StoreRuns.ReadInsideIsInOrder` | lib/stores/in-memory-idempotency.store.ts:34-100 | Calls whose clock is read inside the step that decides them land in the order of their readings |
| `StoreRuns.RecordProvenance` | lib/interfaces/idempotency-store.interface.ts:94-123 | A found record was written by one owner that held the live lock, under the fingerprint of its acquire, less than ttl ago, with nothing written since |
| `StoreRuns.LockProvenance` | lib/interfaces/idempotency-store.interface.ts:94-100 | A found lock was taken under the fingerprint it reports and has not expired since its last acquire or extend |
| `StoreRuns.UnbrokenLease` | lib/interfaces/idempotency-store.interface.ts:72-76 | A lease renewed without a gap, by renewals that do not overtake each other, is never lost, whatever calls others make, and every renewal is confirmed |
| `ProtocolInvariant.StepKeeps` | lib/interceptors/idempotency.interceptor.ts:323-683 | Every action any caller, handler, timer, process or the network can take keeps the protocol invariant |
| `ProtocolTheorems.OneHolderPerKey` | lib/interceptors/idempotency.interceptor.ts:390-405 | In every reachable state, two attempts that hold a live lock on a store key are one attempt: no two attempts share an owner token |
| `ProtocolTheorems.GoneLockStaysHarmless` | lib/interceptors/idempotency.interceptor.ts:564-603 | Fencing, on all three stores: from any state on in which an attempt's lock was taken over, completed or released, in every run, it never has it again and none of its calls, however late and however old their readings, changes any record or lock |
| `LostLocks.LostLockStaysHarmless` | lib/stores/in-memory-idempotency.store.ts:64-100 | Fencing for expired locks, on a store that reads the clock inside its steps: from any state on in which an attempt has lost its lock, it never holds it again and all its calls are refused |
| `LostLocks.UntouchedExactly` | tests/fixtures/idempotency/drizzle-idempotency.store.ts:70-101 | On any store, in every run: an attempt's lock stays untouched by its calls if and only if each of them that lands while it is in place read the clock at its expiry or later |
| `Scenarios.StaleRenewalRevives` | tests/fixtures/idempotency/drizzle-idempotency.store.ts:93-101 | A run in which a renewal with a reading from before the expiry lands after it, and the lost lock is live again |
| `ProtocolTheorems.StartedMeansAcquired` | lib/interceptors/idempotency.interceptor.ts:403-405 | Every attempt that ran its handler took the lock at an instant when its key had no live lock and no live record |
| `ProtocolTheorems.OneExecutionPerEpoch` | lib/interceptors/idempotency.interceptor.ts:403-451 | Of two executions under one store key, the earlier one's last word before the later acquire was a release, or had expired (a lock by lockTtl, a record by ttl) for the reading of the next acquire that took the key |
| `ProtocolTheorems.ReplayProvenance` | lib/interceptors/idempotency.interceptor.ts:430-451 | Every replay returns the outcome one earlier attempt captured under the same store key and fingerprint, whose complete landed under its live lock less than its ttl before the replaying acquire asked, with no change in between |
| `ProtocolTheorems.AnswerDecides` | lib/interceptors/idempotency.interceptor.ts:403-452 | What acquire answered decides, in every run and both ways: run, replay, 422, 409 or unreadable, each exactly under its condition; an attempt that took the lock and gave up had been left by its caller; a live completed record, readable or not, never leads to an execution |
| `Lifecycle.AcquiredDecides` | lib/interceptors/idempotency.interceptor.ts:239-260 | In every run, an attempt that hears it took the lock calls the handler exactly if its caller has not left by then; otherwise it makes one release with its own token and nothing runs |
| `Lifecycle.LeftNeverStarts` | lib/interceptors/idempotency.interceptor.ts:247-252 | A caller that leaves before its handler was called never has it called, in every later state of every run, whatever lands or is answered |
| `Lifecycle.OutcomeIsSettled` | lib/interceptors/idempotency.interceptor.ts:564-589 | What the end of a handler starts, in every run: an outcome is sealed under its record's key and stored for ttl, without one the key is released, and renewals go on; only a seal that throws ends both |
| `Lifecycle.RecordStepTells` | lib/interceptors/idempotency.interceptor.ts:576-602 | The record step is confirmed exactly if the store answered true, ends the renewals, and is reported as a lost lock exactly if it was not confirmed and no refused renewal was reported before, as a complete or a release by the outcome it had |
| `Lifecycle.RefusalStopsAndTells` | lib/interceptors/idempotency.interceptor.ts:626-649 | A refused renewal ends the renewals, and is reported exactly if the handler was still running and nothing had ended them before; a confirmed one and one without an answer end and report nothing |
| `Lifecycle.RenewalsStopFor` | lib/interceptors/idempotency.interceptor.ts:614-683 | In every run, renewals stop for nothing but a refusal of one of them, the end of the record step, a seal that throws, a shutdown of their own process, or the ceiling, not before startedAt + min(maxLockHold, 2^31-1) and only while the handler runs |
| `Lifecycle.NoBeatAfterStop` | lib/interceptors/idempotency.interceptor.ts:306-310 | After the ceiling, or a shutdown of its process, an attempt whose handler was called never renews again: no beat of it is enabled in any later state |
| `Lifecycle.OneRenewalAtATime` | lib/interceptors/idempotency.interceptor.ts:620-648 | Between two renewals of an attempt it heard of the first or gave up on it |
| `Lifecycle.AlwaysEnds` | lib/interceptors/idempotency.interceptor.ts:171-188 | No attempt is ever stuck: from every state, at most two actions, none of them the store's, bring a live attempt to its end |
| `ProtocolInvariant.ProcessWideEvolves` | lib/interceptors/idempotency.interceptor.ts:306-310 | A shutdown stops the renewals of its own process's attempts, a crash ends that process's attempts, and neither touches anything of any other attempt, the store or the calls on their way |
| `ProtocolTheorems.WhoseEntry` | lib/interceptors/idempotency.interceptor.ts:407-428 | A live entry some acquire found belongs to an attempt that took the lock with the fingerprint that was reported |
| `ProtocolTheorems.RefusedFoundLiveEntry` | lib/interceptors/idempotency.interceptor.ts:407-451 | An attempt that was refused or replayed found a live entry and has made no settling call |
| `ProtocolTheorems.LockLostToldOnce` | lib/interceptors/idempotency.interceptor.ts:576-681 | At most one lock-lost event per attempt; exactly one if the record step settled unconfirmed; if it was confirmed, none but one a refused renewal told before |
| `Reports.LostReportIsRight` | lib/interceptors/idempotency.interceptor.ts:576-590 | Where the attempt's calls land in order, a loss told by the store's answer, to a renewal or to the settling call, is final: no lock, every later call refused, the outcome never stored, in that state and every later one |
| `Reports.WrongReportHadNoAnswer` | lib/interceptors/idempotency.interceptor.ts:591-599 | If a loss was reported and the outcome is stored, the report came from a record step that failed without an answer |
| `Scenarios.LostReportMayBeWrong` | lib/interceptors/idempotency.interceptor.ts:591-599 | A run in which that happens: the report is conservative |
| `Scenarios.StaleRenewalBeliesReport` | lib/interceptors/idempotency.interceptor.ts:628-639 | A run with a stale reading in which a refused renewal told the loss and the outcome is stored and confirmed all the same |
| `ProtocolTheorems.NoLeakedLock` | lib/interceptors/idempotency.interceptor.ts:239-260 | Every attempt that may have the lock and whose handler is not running has made exactly one complete or release with its own token, unless sealing its outcome threw; one that replays, is refused or runs has made none |
| `HoldBound.RenewalsEnd` | lib/interceptors/idempotency.interceptor.ts:655-675 | With the attempt's own timers on time, no renewal is issued later than min(maxLockHold, 2^31-1) + storeTimeout after the handler started, with the option and the number written out |
| `HoldBound.BlockedNoLongerThan` | lib/interceptors/idempotency.interceptor.ts:605-613 | With the attempt's own timers on time, a lock's expiry is bounded by start + min(maxLockHold, 2^31-1) + storeTimeout + landing delay + lockTtl; a lock whose attempt never ran is never renewed and lasts exactly lockTtl |
| `Reports.LateExtendExactly` | lib/interceptors/idempotency.interceptor.ts:626-639 | On any store, a renewal that lands on its live lock moves the expiry back if and only if it read the clock earlier than the acquire or renewal that set it |
| `Reports.LateExtendNeverShortens` | lib/interceptors/idempotency.interceptor.ts:626-639 | Where the attempt's calls land in order, a late renewal never moves the expiry back |
| `Lease.RenewedLockNeverExpires` | lib/interceptors/idempotency.interceptor.ts:614-653 | With delays at most d, at most m beats in a row missed and no renewal overtaking another, (m+1)*period + 2*d < lockTtl keeps the lock alive and every renewal confirmed, in every reachable state |
| `Lease.LeaseBoundIsTight` | lib/interceptors/idempotency.interceptor.ts:614-653 | Where that bound fails, for any lockTtl, m and d, a run on the same schedule has lost the lock |
| `Lease.LeaseExactly` | lib/interceptors/idempotency.interceptor.ts:614-653 | The bound holds if and only if every lock renewed on that schedule is held in every reachable state |
| `Lease.OvertakenRenewalLosesLock` | tests/fixtures/idempotency/drizzle-idempotency.store.ts:93-101 | A run inside the bound in which an overtaken renewal moves the expiry back and the lock is lost |
| `Lease.SlackIffTwo` | lib/interceptors/idempotency.interceptor.ts:651 | Without delays or misses the bound can be met exactly if lockTtl is at least 2 ms |
| `Lease.DefaultSlack` | lib/idempotency.constants.ts:2 | With the default lockTtl, one beat in a row may be missed when calls land within 9.999 s; with two missed, and everything else immediate, a run loses the lock |
| `Lease.OneMillisecondLockIsLost` | lib/interceptors/idempotency.interceptor.ts:651 | A lock of 1 ms is gone when its first beat lands, even at once |
| `Observer.Execution.OnNext` | lib/interceptors/idempotency.interceptor.ts:505-520 | Keeps deliveries and records equal to the closed form of the trace so far when a value arrives |
| `Observer.Execution.OnError` | lib/interceptors/idempotency.interceptor.ts:521-524 | The same for an error |
| `Observer.Execution.OnComplete` | lib/interceptors/idempotency.interceptor.ts:525-539 | The same for completion |
| `Observer.Execution.Unsubscribe` | lib/interceptors/idempotency.interceptor.ts:552-560 | The same when the caller leaves: a stream stops and releases, a single result runs on |
| `Observer.Execution.OnSettled` | lib/interceptors/idempotency.interceptor.ts:523-538 | The same when the record step settles and what waited for it goes out |
| `Observer.Observe` | lib/interceptors/idempotency.interceptor.ts:470-561 | For every grammatical trace, unsubscribe point and quota, what was delivered and what was recorded are their closed forms |
| `Observer.LastValueOnly` | lib/interceptors/idempotency.interceptor.ts:454-458 | For every grammatical event list with one result, leave point and quota: nothing is delivered unless the record step settled after the end and the caller was still there, and then exactly the last value, the error or the bare end |
| `Observer.StreamInOrder` | lib/interceptors/idempotency.interceptor.ts:458-461 | For every grammatical event list with several values, leave point and quota: the values delivered are a prefix of the source, all of them unless the caller left or had enough, and an end comes last, after the record step settled |
| `Observer.StreamExactly` | lib/interceptors/idempotency.interceptor.ts:505-560 | Exactly which values of a stream are delivered: as many as the caller takes, of all of them if it stayed, of those emitted before it left otherwise, none if it left before a second value came |
| `Observer.GrammarExactly` | lib/interceptors/idempotency.interceptor.ts:470-562 | The traces these theorems range over: every list of events in which only leaving and settling follow an end |
| `Observer.OneValueThenError` | lib/interceptors/idempotency.interceptor.ts:505-524 | One value followed by an error delivers only the error: the held value is dropped |
| `Observer.RecordedOnce` | lib/interceptors/idempotency.interceptor.ts:473-475 | For every grammatical event list, leave point and quota: recording happens at most once, exactly once if the source ends; a single result is recorded only then; a stream never stores an outcome |
| `Observer.RecordedExactly` | lib/interceptors/idempotency.interceptor.ts:521-538 | What is recorded, from the events alone, for every leave point and quota: of a single result, nothing before the end, then captureSuccess of the last value, captureError of the error, or the release of the key where there was neither; of a stream, the release alone, as soon as it ended or the caller left or had enough |
| `Observer.OnlyAppends` | lib/interceptors/idempotency.interceptor.ts:504-540 | Nothing delivered or recorded is ever taken back |
| `JsValues.Target.Assign` | lib/utils/result.util.ts:164-171 | A new key becomes an own member whatever its name, `__proto__` too, and never the prototype |
| `JsHeap.FieldKeys` | lib/utils/result.util.ts:178-194 | The nested loops collect the own keys and then the inherited getters, in order |
| `JsHeap.GettersAre` | lib/utils/result.util.ts:173-177 | A getter is a field exactly if a property read of its name reaches it: nothing nearer has the name |
| `JsHeap.FieldsDistinct` | lib/utils/result.util.ts:178-194 | No key is a field twice, and the own members come first, unchanged |
| `JsHeap.FieldsAre` | lib/utils/result.util.ts:173-194 | What strict mode reads of an object, from its names alone: its own members, and each inherited getter that no own name, enumerable or not, and no nearer prototype hides |
| `GraphEncoder.StoredKeys` | lib/utils/result.util.ts:113-119 | An object is stored with its own keys, and in strict mode also with the names of the getters a read reaches, and no others |
| `ResultCodec.RoundTrip` | lib/utils/result.util.ts:54-162 | For every value, decoding its encoding gives its explicit normal form, also where objects use the tag key at any depth; the encoding is JSON-safe throughout; a value is left out exactly if it has no normal form |
| `ResultCodec.ExactWhenFaithful` | lib/utils/result.util.ts:11-17 | The normal form is the value itself exactly if nothing in it is omitted or written as null and no two primitive keys or items of a Map or Set coincide |
| `StoredForm.StoredLeaves` | lib/utils/result.util.ts:54-86 | How each value without parts is stored, written out: JSON's own as they are, a non-finite number as null, dates, BigInts and bytes tagged, what JSON leaves out not at all |
| `StoredForm.StoredItems` | lib/utils/result.util.ts:98-111 | Arrays, Sets and Maps are stored item by item, in order, with null in each place of an undefined, a function or a symbol; a Map as its entries |
| `StoredForm.StoredMembers` | lib/utils/result.util.ts:113-122 | Objects are stored with exactly the members whose value is not left out, each under its own key, and wrapped exactly if one of those keys is the tag key |
| `StoredForm.ReplayedItems` | lib/utils/result.util.ts:129-148 | What a replay makes of arrays, Sets and Maps: each item's normal form in its place, null for what was left out, a Map built from exactly those entries, a Set from exactly those items |
| `StoredForm.MapPutExactly` | lib/utils/result.util.ts:145-146 | Of entries with the same key compared by value, the earlier place is kept with the later value; any other entry goes last |
| `StoredForm.SetAddExactly` | lib/utils/result.util.ts:147-148 | A Set takes an item unless it compares it by value and has it already |
| `StoredForm.OnlyJsonIsStored` | lib/utils/result.util.ts:11-17 | Whatever is encoded, at any depth of what is stored there is nothing but JSON |
| `ResultCodec.DecodeMembers` | lib/utils/result.util.ts:156-162 | The members loop decodes every member under its own key, in order, or fails if one of them does |
| `GraphEncoder.Encoder.EncodeValue` | lib/utils/result.util.ts:54-126 | The walk with one mutable ancestor set gives the specified encoding or error and leaves the set as it found it on every exit; it ends on every finite graph |
| `GraphEncoder.Encoder.EncodeMembers` | lib/utils/result.util.ts:113-119 | The members loop keeps exactly the members that are not left out, in field order |
| `GraphEncoder.EncodesTheTree` | lib/utils/result.util.ts:54-126 | Encoding a graph is encoding the tree it unfolds to, with the same errors: sharing leaves no trace |
| `GraphEncoder.CycleExactness` | lib/utils/result.util.ts:92-94 | The circular error comes only from a cycle reachable through encoded edges; such a cycle always makes encoding fail; in either mode, where no object that can be reached stops the encoder by itself, error and cycle are equivalent |
| `GraphEncoder.SucceedsExactly` | lib/utils/result.util.ts:39-46 | In either mode, encoding an object succeeds if and only if no way through encoded edges leads back into an enclosing object, to a getter that throws, or, in strict mode, to a promise, a stream or a function |
| `GraphEncoder.ErrorsAreRight` | lib/utils/result.util.ts:74-125 | Whichever error it is, a way through encoded edges leads to what it names: an enclosing object, a function or a promise or stream in strict mode, a throwing getter of a strict field, or one read otherwise, whose own exception goes through |
| `GraphEncoder.UnreplayableExactly` | lib/utils/result.util.ts:23-37 | A result is refused outright as a file, a stream or an iterable, the first of them that it is; a promise alone is no reason |
| `GraphEncoder.SharingIsNoCycle` | lib/utils/result.util.ts:92-125 | However much objects share, a graph whose edges descend never gives the circular error, and encodes where nothing that can be reached stops the encoder by itself |
| `GraphEncoder.GraphRoundTrip` | lib/utils/result.util.ts:47-162 | For every graph, encoding succeeds exactly if it unfolds, and decodes to the normal form of the unfolded tree |
| `Sorting.SortedIsUnique` | lib/utils/fingerprint.util.ts:68-76 | A sorted list, in UTF-16 code unit order, is determined by what it holds |
| `Sorting.SortForgetsOrder` | lib/utils/fingerprint.util.ts:64-76 | Two lists sort alike exactly if they hold the same |
| `Sorting.RankIsUnitOrder` | lib/utils/fingerprint.util.ts:68-76 | The order of two texts is the order of their UTF-16 code units, surrogate pairs included |
| `JsonText.QuoteSeparates` | lib/utils/fingerprint.util.ts:28 | A quoted string is read back exactly, whatever follows it |
| `JsonText.JoinSeparates` | lib/utils/fingerprint.util.ts:62-72 | A comma-joined list is read back part by part up to its closing delimiter |
| `CanonicalText.TextsSeparate` | lib/utils/fingerprint.util.ts:21-87 | A canonical text ends where its value ends: nothing that may follow changes how it is read |
| `CanonicalText.TextIdentifies` | lib/utils/fingerprint.util.ts:5-15 | Two payloads print the same text if and only if they have the same normal form, at every depth |
| `CanonicalText.KeyOrderIsForgotten` | lib/utils/fingerprint.util.ts:75-83 | Key insertion order never changes the text |
| `CanonicalText.BagOrderIsForgotten` | lib/utils/fingerprint.util.ts:64-73 | Nor does the order of a Set's items or a Map's entries |
| `CanonicalText.ArrayOrderCounts` | lib/utils/fingerprint.util.ts:61-63 | Arrays print alike exactly if they have the same length and the same payload in every place |
| `GraphWriter.Writer.Write` | lib/utils/fingerprint.util.ts:21-87 | The walk with one mutable ancestor set prints what the specification finds and leaves the set as it found it on every exit; it ends on every finite graph |
| `GraphWriter.Writer.WriteLines` | lib/utils/fingerprint.util.ts:75-81 | The members loop prints the members that are there, in key order |
| `GraphWriter.SortedKept` | lib/utils/fingerprint.util.ts:75-81 | Leaving members out after sorting the keys is sorting what is left |
| `GraphWriter.SortedLines` | lib/utils/fingerprint.util.ts:75-83 | Walking an object in sorted key order prints what walking it in its own order finds, failures included |
| `GraphWriter.TextIsIdentity` | lib/utils/fingerprint.util.ts:16-87 | Payload graphs, cyclic and streaming ones too, have the same text if and only if they mean the same, where the meaning is told leaf by leaf, member by member and item by item, without the printer or its walk |
| `GraphWriter.WalkFindsMeaning` | lib/utils/fingerprint.util.ts:21-87 | The walk finds exactly what a payload means: leaves themselves, dates their ISO text, null for what JSON cannot write, objects the members that mean something, arrays, Maps and Sets null for what does not |
| `GraphWriter.LeavesPrint` | lib/utils/fingerprint.util.ts:21-48 | The text of each kind of value without parts, written out |
| `GraphWriter.FailsExactly` | lib/utils/fingerprint.util.ts:7-9 | Printing a payload fails if and only if a way without repetition, through objects that are no stream and no promise, leads to an object that has a getter that throws |
| `GraphWriter.ThrowingGetterFails` | lib/utils/fingerprint.util.ts:75-78 | A payload for which it fails |
| `Identity.Utf8Injective` | lib/utils/fingerprint.util.ts:107-109 | The hashed bytes determine the text (RFC 3629) |
| `Identity.Utf8CodePoint` | lib/utils/fingerprint.util.ts:107-109 | A character's bytes give back its code point, with the lead and trail bytes of section 3 of RFC 3629 |
| `Identity.PercentInjective` | lib/interceptors/idempotency.interceptor.ts:918-923 | Percent-encoding over UTF-8 gives back the text (section 2.1 of RFC 3986) |
| `Identity.PercentKeeps` | lib/interceptors/idempotency.interceptor.ts:918-923 | A part stays readable as it is exactly if all its characters are unreserved |
| `Identity.SameStoreKey` | lib/interceptors/idempotency.interceptor.ts:918-923 | Two calls share a store key exactly if the parts that are there are the same, in order |
| `Identity.StoreKeyInjective` | lib/interceptors/idempotency.interceptor.ts:914-923 | For a fixed presence of the suffix, the store key gives back scope, key and suffix |
| `Identity.StoreKeyForm` | lib/interceptors/idempotency.interceptor.ts:914-923 | A scope, a key and a suffix, each percent-encoded, with a colon between them |
| `Identity.EmptyIsAbsent` | lib/interceptors/idempotency.interceptor.ts:918-923 | An empty scope or suffix is no part of the store key |
| `Identity.ShapesCollide` | lib/interceptors/idempotency.interceptor.ts:918-923 | Across shapes it does not: a scope before one key is a suffix behind another |
| `Identity.FramingInjective` | lib/utils/fingerprint.util.ts:104-111 | The length-prefixed framing determines the list of parts: parts cannot run into each other |
| `Identity.Sha256` | lib/utils/fingerprint.util.ts:105-111 | The loop feeds the hash the UTF-8 bytes of the framing |
| `Identity.FingerprintSeparates` | lib/interceptors/idempotency.interceptor.ts:377-379 | Fingerprints are equal exactly if scope, identity and payload text are |
| `Identity.KindsDiffer` | lib/contexts/http.context.ts:84-93 | Calls to http, graphql and rpc targets never share an identity |
| `Identity.VerbsDiffer` | lib/contexts/http.context.ts:88-91 | Two calls with upper-case verbs share an identity exactly if verb and URL are the same |
| `Identity.UpperExactly` | lib/contexts/http.context.ts:88-91 | Upper-casing moves each letter to its own place in the upper-case alphabet and changes nothing else |
| `Identity.SeparateCalls` | lib/interceptors/idempotency.interceptor.ts:377-388 | Store key and fingerprint are both equal exactly if scope, key, suffix, identity and payload text are, also where store keys alone collide |
| `Envelope.SplitJoin` | lib/utils/encryption.util.ts:83-97 | Dot-free parts joined with dots are split back |
| `Envelope.SealedForm` | lib/utils/encryption.util.ts:71-88 | A sealed record is the version, the id of the newest key, IV, ciphertext and tag, sealed for the store key |
| `Envelope.OpensExactly` | lib/utils/encryption.util.ts:71-125 | What opening a sealed storable response gives for any ring and store key: the response exactly if the ring has the sealing key under its id and the store key matches, else the specific error |
| `Envelope.OnlySealedOpens` | lib/utils/encryption.util.ts:90-125 | Whatever opens was encrypted under a key of the ring for this store key with that content; plaintext never opens |
| `Envelope.RefusedUnread` | lib/utils/encryption.util.ts:90-104 | What is turned away before any decryption, both ways: plaintext, anything but five parts with the version first and a tag last, and a key id the ring does not have |
| `Envelope.CodecsRefuseEachOther` | lib/utils/encryption.util.ts:90-137 | A sealed record is never read as plaintext, nor a plain one as sealed |
| `Envelope.RotationKeepsReadable` | lib/utils/encryption.util.ts:71-104 | Prepending a key with an id of its own changes nothing about any record that opened before |
| `Envelope.RotationExactly` | lib/utils/encryption.util.ts:102-105 | A sealed record stays readable after prepending a key exactly if that key does not take its id, or is its key |
| `EndToEnd.SameRecordSameCall` | lib/interceptors/idempotency.interceptor.ts:379-388 | Record key and fingerprint agree exactly for the same scope, key, suffix, identity and payload meaning |
| `EndToEnd.ReplayAnswersTheSameCall` | lib/interceptors/idempotency.interceptor.ts:379-451 | In every run, a replay hands out what one earlier attempt captured for the same call and stored under its live lock less than its ttl ago |
| `EndToEnd.OtherCallsAreRefused` | lib/interceptors/idempotency.interceptor.ts:407-416 | An attempt that finds a live entry is refused as a reused key exactly if the entry was taken for a different call |
| `EndToEnd.CodecsRoundTrip` | lib/utils/encryption.util.ts:128-137 | Both codecs give back every storable response they sealed under the same store key |
| `EndToEnd.ReplayHandsOutTheResult` | lib/contexts/context.adapter.ts:205-217 | In every run, encrypted or not, a successful replay's body decodes to the normal form of the tree the handler's returned graph unfolds to |
| `EndToEnd.CapturedIsStorable` | lib/contexts/context.adapter.ts:205-217 | What a successful result is captured as is JSON-safe, or undefined, so any store can persist it |

## Left out

- One SQL statement, one Lua script and one in-memory call are each one atomic step; a script sees one frozen clock reading. Networking, pools, migrations and the databases' own internals are not modelled.
- All clocks are one clock: processes and the database server whose clocks disagree are not modelled.
- LostLocks.LostLockStaysHarmless: for a store that reads the clock inside its steps; what the PostgreSQL store does instead is `LostLocks.UntouchedExactly`.
- Reports.LostReportIsRight: for attempts whose calls land in order; `Scenarios.StaleRenewalBeliesReport` shows that the premise is needed.
- Lease.RenewedLockNeverExpires: that beats land on schedule and in order is a premise about the run; the event loop that would skip them is not modelled.
- StoreEquivalence.DrizzleAnswers: one client on its own, whose statements run at the instant it read the clock; what other clients can do in between is stated by the store's own contract.
- StoreEquivalence.RedisAnswers: for responses that JSON text carries unchanged.
- RedisStore.Redis: the commands only the specs call.
- Protocol: `storeTimeout` is taken as already capped at 2^31 - 1. Captured outcomes are storable: for successful results that is proved (`EndToEnd.CapturedIsStorable`); the body of a captured error is assumed JSON-safe.
- ProtocolTheorems.ReplayProvenance: one codec for all processes of a run; processes with different key rings are covered by the envelope lemmas only.
- Observer.Observe: RxJS is the Observable grammar (values, then at most one end) and a subscriber that may leave from inside a call; handlers that throw before subscribing count as an error event.
- ResultCodec.RoundTrip: `toJSON()` other than a Date's, sparse arrays, boxed primitives, negative zero and lone surrogates are not values of the model; integer-like keys are listed in enumeration order; numbers are known by their text.
- ResultCodec.DecodeMembers: tagged values the encoder never writes decode to one error, Malformed, instead of the various exceptions and coercions of the runtime.
- GraphEncoder: getters that build a new object on every read.
- GraphWriter.Writer.WriteLines: the keys and values are sorted before the loop instead of looked up inside it.
- Identity.SeparateCalls: the canonical text of a message pattern that is not a string is taken as the pattern's text; verbs are upper-cased in ASCII.
- Envelope.OpensExactly: cryptographic strength, key derivation and the checks on key material; base64url decoding of text that was never encoded.
- The context adapters (reading keys, headers, status codes, what counts as a stored error), option merging, `normalizeKey`, `normalizeScope`, durations, the store registry, module wiring, logging and the other events.
