# Delivery, limiting and checking machinery of `tr_shared`, in Dafny

This project models the concurrent and algorithmic core of the `tr_shared`
library and proves what it keeps over every run, every history of calls or every
input. `dafny verify dfyconfig.toml` checks all of it.

Redis and PostgreSQL are abstract state: maps, sequences, sorted sets and expiry
times, changed by one atomic step per command. A protocol is a function
`Apply(state, action)` that gives the next state, or none when the action is not
enabled; a run is any list of enabled actions, so a theorem about runs covers
every interleaving of processes, crashes at any point, and commands that take
effect although their answer is lost. Objects that the library updates in place
are classes, each method tied to a function of the old state about which the
theorems are proved. Clocks are parameters (`real` or `int`), network answers and
faults are parameters or nondeterministic choices.

| module | what it is |
|---|---|
| `StreamConsumer`, `StreamSafety`, `StreamOutcomes`, `GroupReads`, `RetryRounds`, `FailureLedger`, `LastPass`, `RetryClock`, `ConsumerLoop` | the Redis Streams consumer group: the machine and its safety, what becomes of entries, who holds what since when, the retry counter, the ledger of all handler failures, when a message must be decided, how long a round lasts, and the code of one loop refining the machine |
| `DedupMemory` | the in-memory duplicate checker |
| `Outbox`, `OutboxSchedule`, `OutboxLoop` | transactional outbox: the protocol over any number of drainers, when a row is tried again, and the code of insert and row loop refining it |
| `Idempotency`, `IdempotencyAnswers` | the request-idempotency middleware for one key: exclusion, and what is stored and answered |
| `SingleFlight`, `ConfigCache` | the config client's fetch lock and its cache |
| `WindowLimits`, `Counters` | the three counting windows as one machine, and the objects that refine it |
| `SlidingWindow` | the sliding-window script against a full attempt log |
| `RateLimiter`, `LimiterStores` | multi-window checks with fail modes, and the stores that refine them |
| `CircuitBreaker` | the circuit breaker |
| `TemplateBuild` | the crash-safe template database build |
| `DbReach`, `ErrorCategories` | call-graph reachability, class walks and the two class fixpoints of the test guards |
| `LikeEscape`, `StorableText` | LIKE escaping and the search for unstorable text |
| `Prelude`, `KeyText` | shared types; text facts about composite keys |

What the proofs show about the code beyond its documentation:

- A failed dead-letter write is swallowed and the entry is acked all the same, and
  an entry trimmed while pending is dropped by the next claim. Either way it
  vanishes (`StreamOutcomes.SwallowedWriteLosesEntry`, `LastPass.TrimmedEntryIsLost`).
- A crash between a handler's failure and the counter's increment leaves the
  message pending without counting it, any number of times
  (`LastPass.CrashesAreNotCounted`). `FailureLedger.PendingFailuresPerRound` is the
  bound that counts such passes.
- The template is kept whole by the lock, and by nothing else
  (`TemplateBuild.TemplateOkIffLocked`).
- An owner that overruns the processing TTL can always be overlapped, and a late
  release deletes another owner's claim (`Idempotency.LateOwnerIsOverlapped`,
  `Idempotency.LateReleaseAllowsOverlap`). Without an overrun there is no overlap
  exactly when responses are kept at least as long as claims
  (`Idempotency.NoOverlapIffLongTtl`).
- The fetch lock is popped while callers still wait on it. Dropping the cached entry
  is harmless exactly in the states that `SingleFlight.Quiet` describes.
- Cache order is expiry order only while puts follow misses: overwriting a live
  entry keeps its place (`ConfigCache.OverwriteKeepsOrderIff`). A platform name
  with a colon is never found by its own invalidation
  (`ConfigCache.OwnNameMatchesIffColonFree`).
- Marking an id that is already remembered does not renew its place, so the next
  new id can push it out (`DedupMemory.ForgetsExactly`, `DedupMemory.RemarkIsNotRenewed`).
- A closed breaker is below its threshold exactly when the threshold is positive
  (`CircuitBreaker.ClosedBelowThresholdIffPositive`).
- Requests that draw the same sorted-set member count once, even at different times
  (`SlidingWindow.SharedMemberPassesTwice`).
- Bases are known by their last name, so a class can seem to be its own base. The
  rounds then still find the meaning exactly when no class still to be resolved
  stands above such a name, or something unknown does
  (`ErrorCategories.ResolveTable`, `ErrorCategories.SelfBaseOnUnresolved`).

## Model

| member | source | states |
|---|---|---|
| `StreamOutcomes.NothingIsLost` | src/tr_shared/events/consumer.py:235-318 | in every run of any number of consumers, with crashes, concurrent claims, lost answers and failing acks, a delivered entry is pending, or has a recorded outcome, or its dead-letter write failed, or it was trimmed while pending |
| `StreamSafety.ReachableSafe` | src/tr_shared/events/consumer.py:343-419 | the invariant behind it: pending entries were delivered, and a loop acks only messages whose outcome is decided |
| `StreamSafety.EffectsAreOk` | src/tr_shared/events/consumer.py:235-322 | no command acks an undecided message, and a message becomes decided together with its outcome or with a swallowed dead-letter write |
| `StreamOutcomes.SwallowedWriteLosesEntry` | src/tr_shared/events/consumer.py:246-257 | the assumption on dead-letter writes is needed: a concrete run ends with a delivered entry neither pending nor recorded |
| `LastPass.TrimmedEntryIsLost` | src/tr_shared/events/consumer.py:393-419 | the assumption on trimming is needed: a run without any failed dead-letter write ends with a delivered entry neither pending nor recorded |
| `StreamOutcomes.OutcomesAreTrue` | src/tr_shared/events/consumer.py:259-288 | in every run a recorded duplicate repeats an event whose handler returned, a handled message had a handler, an unhandled one lacked one, and a malformed message is only ever dead-lettered |
| `StreamConsumer.DeletionDiscardsNothing` | src/tr_shared/events/consumer.py:436-476 | whenever the sweep or the shutdown deletes a consumer, it holds no pending entry at that instant, so the pending list is unchanged |
| `StreamConsumer.ReachableDeletion` | src/tr_shared/events/consumer.py:178-205 | in every run, whoever was found empty or chosen for the sweep is not running and holds nothing until it is deleted, whatever siblings read or claim in between |
| `StreamConsumer.OnlyRunningGain` | src/tr_shared/events/consumer.py:393-419 | reading and claiming assign entries to the calling consumer only, so a stopped consumer's holdings only shrink |
| `GroupReads.ZombieIsChosen` | src/tr_shared/events/consumer.py:186-198 | a sibling can be chosen for the sweep exactly when it is registered, holds nothing and has been idle for the threshold |
| `GroupReads.ZombieIsSwept` | src/tr_shared/events/consumer.py:199-205 | sweeping a chosen sibling, whatever happened since, takes it off the registry |
| `GroupReads.StopEndsLoops` | src/tr_shared/events/consumer.py:324-341 | a consumer that stops ends both its loops and keeps what it holds |
| `GroupReads.StoppedIsChecked` | src/tr_shared/events/consumer.py:458-471 | a stopped consumer goes on to deregister exactly when it holds nothing |
| `GroupReads.CheckedDeregisters` | src/tr_shared/events/consumer.py:472-476 | a consumer found empty, and no other, leaves the registry |
| `GroupReads.ReadGives` | src/tr_shared/events/consumer.py:348-354 | a read hands its caller, in order, exactly the untrimmed entries past the group's cursor, now pending with it |
| `GroupReads.ReadsAreNew` | src/tr_shared/events/consumer.py:348-354 | in every run no read hands out an entry a second time |
| `GroupReads.ClaimTakes` | src/tr_shared/events/consumer.py:406-414 | a claim may take an entry exactly when it is pending, was not handed out for the idle floor, and is not trimmed |
| `GroupReads.ClaimsKeepTheFloor` | src/tr_shared/events/consumer.py:393-414 | in every run no claim takes an entry within the idle floor of its last being handed out, by any consumer |
| `GroupReads.PendingIsLastGiven` | src/tr_shared/events/consumer.py:393-414 | in every run a pending entry is held by the consumer it was last handed to, since that moment |
| `GroupReads.SeenIsLastActive` | src/tr_shared/events/consumer.py:186-198 | in every run a registered consumer's idle time counts from its last read or claim |
| `GroupReads.NoCheckerNoDuplicates` | src/tr_shared/events/consumer.py:259-261 | without a checker nothing is remembered and no message is ever skipped as a duplicate |
| `GroupReads.LostAnswersStillAct` | src/tr_shared/events/consumer.py:246-318 | a command that raises after it was executed leaves Redis as an answered one does, and one not executed leaves it alone |
| `RetryRounds.FailuresLeftPending` | src/tr_shared/events/consumer.py:290-318 | in every run, the passes that `_handle_failure` ends by leaving the message pending number at most max(maxRetries - 1, 0) per round, under any interleaving |
| `FailureLedger.EveryFailureIsAccountedFor` | src/tr_shared/events/consumer.py:278-318 | in every run, the handler failures of a message are exactly those that left it pending, those that decided it, those cut short by a stop or crash, and those in progress |
| `FailureLedger.PendingFailuresPerRound` | src/tr_shared/events/consumer.py:290-318 | all handler failures that leave a message pending in a round, crashes and stops included, number at most max(maxRetries - 1, 0) plus the passes cut short before they were counted or when about to dead-letter |
| `FailureLedger.ReachableSpent` | src/tr_shared/events/consumer.py:290-318 | an attempt number below the limit is used up once per round, whether its pass left the message pending or was cut short |
| `LastPass.ExhaustedMeansDecided` | src/tr_shared/events/consumer.py:290-318 | in every run that cuts no failing pass of the message short, once max(1, maxRetries) failures of a round are counted the message has its outcome, or a loop is past its last attempt and can only dead-letter it |
| `RetryClock.DecidedWithinPasses` | src/tr_shared/events/consumer.py:290-318 | while the clock leaves no gap of the TTL after an EXPIRE, the message was not cleared and no pass was cut short, max(1, maxRetries) handler failures are enough: the message has its outcome, or one of those passes is still in progress |
| `LastPass.CrashesAreNotCounted` | src/tr_shared/events/consumer.py:282-300 | for every n some run has n handler failures of one message, each cut short by a crash before its increment, with the message pending and its counter at zero |
| `RetryRounds.ReachableRounds` | src/tr_shared/events/consumer.py:290-318 | no attempt number of a round is drawn twice, by whichever claimers, and none left pending reaches the limit |
| `RetryRounds.CounterIsExact` | src/tr_shared/events/retry_state.py:29-39 | in every run the stored counter is the number of failures counted since the round began, a round ending with a clear or the hash's expiry |
| `RetryClock.ExpiryIsExact` | src/tr_shared/events/retry_state.py:29-39 | in every run the hash's expiry is the TTL past the last executed EXPIRE, and it has none if there was no EXPIRE since the hash was last empty |
| `RetryClock.EpochExactly` | src/tr_shared/events/retry_state.py:29-32 | the clock starts a new epoch, emptying the hash, exactly when it reaches the last EXPIRE plus the TTL, and nothing else starts one |
| `RetryRounds.PassIsTerminalExactlyFrom` | src/tr_shared/events/consumer.py:296-318 | whatever happens elsewhere meanwhile, a failing pass dead-letters exactly when it is at least the maxRetries-th counted failure of the round, and otherwise leaves the entry pending |
| `RetryRounds.DeadLetteringEnds` | src/tr_shared/events/consumer.py:309-322 | a dead-lettering pass whose commands succeed ends recorded in the dead-letter stream and no longer pending, whatever happens elsewhere meanwhile |
| `RetryRounds.HandledPassEnds` | src/tr_shared/events/consumer.py:278-288 | a pass whose handler returns and whose commands succeed ends handled, its event remembered by the checker and the entry no longer pending, whatever happens elsewhere meanwhile |
| `RetryRounds.PendingIsClaimable` | src/tr_shared/events/consumer.py:393-419 | an idle claim loop of any running consumer can take a pending entry, whoever holds it, exactly when the entry is idle past the floor and not trimmed, and is then about to process it |
| `ConsumerLoop.Loop.CountFailure` | src/tr_shared/events/retry_state.py:29-32 | increment then expire; a failure of either counts as exhausted; the loop ends up dead-lettering exactly when the returned attempts reach the limit |
| `ConsumerLoop.Loop.HandleFailure` | src/tr_shared/events/consumer.py:290-318 | the code's branches are steps of the machine; it asks for an ack exactly when the message was dead-lettered, always if a counter command raised, and raises exactly when the clearing command then does |
| `ConsumerLoop.Loop.ProcessMessage` | src/tr_shared/events/consumer.py:235-288 | the code's control flow is a run of the machine, with anything happening elsewhere between two commands; its answer is fixed by the message, the checker, the counter and which commands raise |
| `ConsumerLoop.Loop.ProcessBatch` | src/tr_shared/events/consumer.py:356-361 | a whole batch, cut short exactly by a raised command, is a run of the machine that leaves the loop idle; without a raise every message had its turn, and while the client is there every ack is sent |
| `DedupMemory.OnlyMarkedAreRemembered` | src/tr_shared/events/consumer.py:71-79 | the memory stays within 10,000 ids, has no id twice, and holds only marked ids |
| `DedupMemory.NewIsRemembered` | src/tr_shared/events/consumer.py:71-79 | a newly inserted id is remembered through the next 5,000 marks |
| `DedupMemory.ForgetsExactly` | src/tr_shared/events/consumer.py:72-79 | a mark forgets an id exactly when the marked id is new, the memory is full and the id is in its older half |
| `DedupMemory.RemarkIsNotRenewed` | src/tr_shared/events/consumer.py:72-79 | in some history an id is marked again last of all, and forgotten by the very next mark |
| `DedupMemory.Checker.IsProcessed` | src/tr_shared/events/consumer.py:63-69 | true exactly for ids remembered locally or with an unexpired Redis key |
| `DedupMemory.Checker.MarkProcessed` | src/tr_shared/events/consumer.py:71-82 | the eviction loop computes the remembered ids of the longer history; the local mark stays when Redis raises |
| `Outbox.AppendsOnlyCommitted` | src/tr_shared/events/outbox_drainer.py:83-130 | with any number of drainers, every appended event comes from a committed row, a published row was appended, and nothing of an open transaction is |
| `Outbox.SingleDrainerBound` | src/tr_shared/events/outbox_drainer.py:110-164 | while drains do not overlap, a row is appended at most max(1, maxRetries) times plus attempts lost to crashes or failed updates, and is dead-lettered only after exactly that many recorded failures |
| `Outbox.ReachableAlone` | src/tr_shared/events/outbox_drainer.py:110-164 | the accounting behind it: every attempt is a recorded failure, a confirmed mark, lost, or in progress |
| `Outbox.CountsSumToBatch` | src/tr_shared/events/outbox_drainer.py:79-166 | in every run the returned counts sum to the batch size |
| `Outbox.DelaysGrowToCap` | src/tr_shared/events/retry_policy.py:7-18 | for a base of at least 1, delays never shrink from one attempt to a later one and never pass the cap |
| `OutboxSchedule.DelayIsMinimum` | src/tr_shared/events/retry_policy.py:17-18 | the delay is the power or the cap, whichever is smaller |
| `OutboxSchedule.TimeIsExact` | src/tr_shared/events/outbox_drainer.py:142-160 | in every run a row's stored time is the one its history gives: T + min(base^n, cap) after its last failure below the limit, recorded at T as its n-th, and its commit before any |
| `OutboxSchedule.SelectableExactly` | src/tr_shared/events/outbox_drainer.py:84-101 | in every run a free drainer can select a row exactly when it is neither published nor dead and that time has come |
| `OutboxSchedule.BackoffIsKept` | src/tr_shared/events/outbox_drainer.py:91-93 | no batch takes a row before T + min(base^n, cap) of its last such failure |
| `OutboxSchedule.TransactionsEnd` | src/tr_shared/events/durable_publisher.py:84-99 | an open transaction can commit, adding exactly its rows, unpublished and due at once, or roll back, adding nothing |
| `OutboxSchedule.LostAnswersStillAct` | src/tr_shared/events/outbox_drainer.py:113-164 | a publish, mark or record that raises after it took effect leaves stream and row as one that answers does |
| `OutboxLoop.RowExactlyIfCommitted` | src/tr_shared/events/durable_publisher.py:73-99 | in every run, an event inserted in a transaction is a row exactly if that transaction commits: not while it is open, never if it rolls back, and it is appended only if it committed |
| `OutboxLoop.Process.Publish` | src/tr_shared/events/durable_publisher.py:73-99 | raises exactly outside a transaction and inserts nothing then; inside one it makes exactly the protocol's insert, and no commit |
| `OutboxLoop.Process.DrainRow` | src/tr_shared/events/outbox_drainer.py:113-164 | one row's turn, with anything happening elsewhere between its commands: it fails exactly when publish or mark raises; exactly one count rises by one, published after the mark, dead-lettered or retried after a recorded failure by the number of that failure, and the row holds what was decided; a record that raises ends the drain |
| `OutboxLoop.Process.DrainOutbox` | src/tr_shared/events/outbox_drainer.py:79-166 | on the rows the select returned the call is a run of the protocol, whatever raises and whatever happens meanwhile; it ends early exactly when a recording update raises, and otherwise the code's counters are what the faults make of the rows and sum to the batch size |
| `Idempotency.ExecutionsNeverOverlap` | src/tr_shared/middleware/idempotency.py:68-98 | two owning executions of one key never overlap while no owner overruns the processing TTL, a lost store's answer included whenever responses are kept at least that long |
| `Idempotency.NoOverlapIffLongTtl` | src/tr_shared/middleware/idempotency.py:152-182 | "no overlap unless an owner overruns" holds of every run exactly when the response TTL is at least the processing TTL |
| `Idempotency.LateOwnerIsOverlapped` | src/tr_shared/middleware/idempotency.py:68-98 | from every reachable state in which an owner in flight is late, a new request can be made to overlap with it |
| `Idempotency.ReachableInv` | src/tr_shared/middleware/idempotency.py:119-182 | the key is taken until its owner would be late, by the claim or by a response stored without an answer; a stored response that has not lapsed is what Redis holds, and nobody owns the key then |
| `IdempotencyAnswers.DuplicatesAreReplayed` | src/tr_shared/middleware/idempotency.py:100-117 | for the response TTL after a store, a later request does not run the handler and gets the stored status, content type and, if it survives decoding, body |
| `IdempotencyAnswers.DuplicatesConflict` | src/tr_shared/middleware/idempotency.py:100-117 | while an owner is at work a duplicate gets a conflict, also when its lookup fails, and never the handler |
| `IdempotencyAnswers.OnlyKeptIsHeld` | src/tr_shared/middleware/idempotency.py:152-176 | in every run, what Redis holds as completed has a status below 500 other than 401, 403 and 429 and came with a body within the limit |
| `IdempotencyAnswers.KeptIsStored` | src/tr_shared/middleware/idempotency.py:152-176 | a response of that kind is what Redis holds once stored, for the response TTL, and the caller gets the original |
| `IdempotencyAnswers.OthersFreeTheKey` | src/tr_shared/middleware/idempotency.py:140-150 | any other response is not stored: the key is released and the next request's claim runs the handler |
| `IdempotencyAnswers.RaisingFreesTheKey` | src/tr_shared/middleware/idempotency.py:126-133 | a handler that raises releases the key in the same way |
| `IdempotencyAnswers.CrashedClaimLapses` | src/tr_shared/middleware/idempotency.py:86-98 | a crashed owner blocks the key for 300 seconds from its claim, and no longer |
| `IdempotencyAnswers.LapsedResponseIsForgotten` | src/tr_shared/middleware/idempotency.py:86-98 | once a response's time is over, a new request runs the handler under a claim of 300 seconds |
| `IdempotencyAnswers.RepliesAreTrue` | src/tr_shared/middleware/idempotency.py:100-150 | in every run an original response is what the caller's own handler returned, and a replayed one has the status, content type and body of a kept response |
| `IdempotencyAnswers.LostAnswersStillAct` | src/tr_shared/middleware/idempotency.py:86-182 | a claim, store or release that raises after it was executed leaves the key as an answered one does |
| `Idempotency.UnprotectedOnlyIfRedisFailed` | src/tr_shared/middleware/idempotency.py:68-98 | no execution runs unprotected unless a claim command failed |
| `Idempotency.LateReleaseAllowsOverlap` | src/tr_shared/middleware/idempotency.py:178-182 | an owner past the TTL deletes its successor's claim: a concrete run with two overlapping executions |
| `SingleFlight.OneFetch` | src/tr_shared/integrations/config_client.py:83-119 | over every interleaving without a dropped entry, at most one fetch is in flight, at most one succeeds, and every caller that returns returns its config |
| `SingleFlight.StepKeepsInv` | src/tr_shared/integrations/config_client.py:98-119 | every step keeps the lock exclusive and the cached entry equal to the one fetch, although the lock entry is popped under waiters |
| `SingleFlight.QuietDropsKeepOneFetch` | src/tr_shared/integrations/config_client.py:83-119 | in every run whose drops of the entry all happen while no caller has still to pop and none uses a lock outside the dictionary, at most one fetch is in flight and every call that returns returns a fetched config |
| `SingleFlight.UnquietDropAllowsTwo` | src/tr_shared/integrations/config_client.py:98-119 | the condition is exact: after any run, a drop in any other state lets two fetches run at once |
| `SingleFlight.DroppedEntryAllowsTwoFetches` | src/tr_shared/integrations/config_client.py:98-119 | such drops exist: a waiter still has the popped lock when the entry goes |
| `SingleFlight.HitNeedsNoLock` | src/tr_shared/integrations/config_client.py:96-98 | a first check returns the cached entry if there is one and touches nothing else |
| `SingleFlight.FailedFetchPassesOn` | src/tr_shared/integrations/config_client.py:102-108 | a failed fetch raises in its own caller only, and a caller waiting on the lock gets to fetch |
| `SingleFlight.NoCallerIsStuck` | src/tr_shared/integrations/config_client.py:100-119 | in every reachable state, unless all callers have finished, one of those that have not can take its next step |
| `ConfigCache.MatchesExactlyThePair` | src/tr_shared/integrations/config_client.py:274-288 | for colon-free platform names a key matches exactly its own tenant and platform |
| `ConfigCache.OwnNameMatchesIffColonFree` | src/tr_shared/integrations/config_client.py:274-288 | an entry answers to its own platform, or its own tenant, exactly when the platform name has no colon |
| `ConfigCache.SecretsNeverShareKey` | src/tr_shared/integrations/config_client.py:271-272 | equal keys mean equal secrecy, whatever the names |
| `ConfigCache.KeyIdentifiesTriple` | src/tr_shared/integrations/config_client.py:271-272 | for colon-free platform names the key determines tenant, platform and secrecy |
| `ConfigCache.SizeBounded` | src/tr_shared/integrations/config_client.py:300-307 | over every history the cache never exceeds its positive maximum and holds no key twice |
| `ConfigCache.HitIsFreshAndLatest` | src/tr_shared/integrations/config_client.py:290-298 | a hit returns what the last put of that key stored, no longer than the TTL ago |
| `ConfigCache.HitExactly` | src/tr_shared/integrations/config_client.py:290-298 | over every history, a get is a hit exactly when the key was put, its entry was neither evicted nor invalidated since, and its TTL is not over |
| `ConfigCache.InvalidationIsExact` | src/tr_shared/integrations/config_client.py:176-196 | invalidation removes an entry exactly when it matches the given tenant and platform |
| `ConfigCache.OrderIsExpiryOrder` | src/tr_shared/integrations/config_client.py:300-307 | when puts follow misses, dictionary order is expiry order in every history |
| `ConfigCache.OverflowEvictsNearestExpiry` | src/tr_shared/integrations/config_client.py:300-307 | so an overflowing put evicts the entry nearest to its expiry |
| `ConfigCache.OverwriteKeepsOrderIff` | src/tr_shared/integrations/config_client.py:300-307 | a put over a live entry keeps the order exactly when nothing behind it expires sooner |
| `ConfigCache.Cache.GetFromCache` | src/tr_shared/integrations/config_client.py:290-298 | returns a live entry, drops an expired one, and leaves the rest in order |
| `ConfigCache.Cache.PutInCache` | src/tr_shared/integrations/config_client.py:300-307 | evicts first on overflow, then assigns in place or appends; raises when told to evict from an empty cache |
| `ConfigCache.Cache.InvalidateCache` | src/tr_shared/integrations/config_client.py:176-196 | keeps exactly the unmatched entries, in order, or nothing when no filter is given |
| `WindowLimits.AtMostCapPerWindow` | src/tr_shared/rate_limiter/lua_scripts.py:30-48 | over every history, one window admits at most its limit; the fallback at most max(1, limit) |
| `WindowLimits.AllowedExactly` | src/tr_shared/rate_limiter/lua_scripts.py:30-48 | over every history, a call passes exactly when the calls before it in its window, all of them for Redis and the admitted ones for the other two, are fewer than its limit; the fallback also lets a window's first call through |
| `WindowLimits.ExactlyCapPass` | src/tr_shared/alerts/slack.py:24-33 | under one limit, m calls of a window let exactly the smaller of m and the cap through |
| `WindowLimits.CellIsWindow` | src/tr_shared/rate_limiter/memory_fallback.py:38-66 | the stored counter is the weight of its window's calls and ends a window length after the window's first call |
| `WindowLimits.AtMostTwiceCapPerSpan` | src/tr_shared/rate_limiter/memory_fallback.py:29-68 | with a nondecreasing clock, any span of one window length admits at most twice that |
| `WindowLimits.SpanMeetsTwoWindows` | src/tr_shared/alerts/slack.py:24-33 | two calls of one such span fall in the same window or in neighbouring ones |
| `Counters.FixedWindowScript.Eval` | src/tr_shared/rate_limiter/lua_scripts.py:30-48 | one evaluation of the script is one step of the window machine, and it reports over-limit exactly when that machine refuses |
| `Counters.MemoryFallback.Check` | src/tr_shared/rate_limiter/memory_fallback.py:29-68 | one check on the buckets is one step of the window machine on its key, cleanup included |
| `Counters.MemoryFallback.CleanupExpired` | src/tr_shared/rate_limiter/memory_fallback.py:70-74 | removes exactly the lapsed buckets |
| `Counters.CleanupIsInvisible` | src/tr_shared/rate_limiter/memory_fallback.py:29-74 | whenever cleanups happen, every answer of every history is the one given without any cleanup |
| `Counters.SlackAlertBudget.Allow` | src/tr_shared/alerts/slack.py:24-33 | one call is one step of the window machine on its key and leaves other keys alone |
| `SlidingWindow.Script.Eval` | src/tr_shared/rate_limiter/lua_scripts.py:7-27 | the four commands leave the trimmed live set with the member's score set to now and a fresh expiry, and report its size; a member drawn before has its score moved |
| `SlidingWindow.ExpiryIsInvisible` | src/tr_shared/rate_limiter/lua_scripts.py:7-27 | in every history the stored members and scores are those of the full attempt log restricted to the window: neither trimming nor EXPIRE changes an answer |
| `SlidingWindow.AllowedByLog` | src/tr_shared/rate_limiter/algorithms.py:64-91 | a request is allowed exactly when the log's window holds at most the limit |
| `SlidingWindow.AtMostLimitPerSpan` | src/tr_shared/rate_limiter/algorithms.py:64-91 | with distinct members, every half-open span of one window length admits at most the limit |
| `SlidingWindow.AtMostLimitMembers` | src/tr_shared/rate_limiter/lua_scripts.py:7-27 | without that assumption, at most the limit of distinct members is admitted |
| `SlidingWindow.SharedMemberPassesTwice` | src/tr_shared/rate_limiter/lua_scripts.py:16-17 | distinctness is needed: two requests that share a member, at any two times of a window, both pass under a limit of one |
| `RateLimiter.WindowKeyInjective` | src/tr_shared/rate_limiter/core.py:112 | distinct (key, window length) pairs never share a counter |
| `RateLimiter.ClosedObeysEveryWindow` | src/tr_shared/rate_limiter/core.py:77-139 | with fail mode CLOSED, under any pattern of Redis failures, the admitted requests of a key obey the bounds of all configured windows at once, in every span of each window's length |
| `RateLimiter.OpenObeysEveryWindow` | src/tr_shared/rate_limiter/core.py:77-146 | with OPEN and the fallback, the same with Redis's bound plus one fallback bound per process |
| `RateLimiter.FailClosedBound` | src/tr_shared/rate_limiter/core.py:104-139 | with fail mode CLOSED the requests that pass one window obey its bound, needing a steady clock and distinct members of that window's own calls only |
| `RateLimiter.FailOpenBound` | src/tr_shared/rate_limiter/core.py:141-146 | with OPEN and the fallback, the requests that pass one window number at most Redis's bound plus one fallback bound per process |
| `RateLimiter.StoreBound` | src/tr_shared/rate_limiter/core.py:104-158 | what one store admits for a window within a whole run obeys that store's bound |
| `RateLimiter.UnansweredPasses` | src/tr_shared/rate_limiter/core.py:129-158 | without an answer CLOSED refuses, and OPEN without a fallback lets every request through |
| `LimiterStores.Stores.CheckWindow` | src/tr_shared/rate_limiter/core.py:104-158 | the stores' answer is the one of the run's history, the fallback's cleanup included, and the stores stay in step with it |
| `LimiterStores.Stores.CheckRequest` | src/tr_shared/rate_limiter/core.py:77-102 | the loop checks every window, and a new request is blocked exactly when it is not admitted |
| `LimiterStores.StoresAnswerLikeHistory` | src/tr_shared/rate_limiter/core.py:114-158 | for every reply of Redis and each fail mode, the stored counters give the history's answer |
| `LimiterStores.StepStays` | src/tr_shared/rate_limiter/core.py:104-158 | one check keeps every counter of every store in step with its own history |
| `LimiterStores.CleanupDropsLapsed` | src/tr_shared/rate_limiter/memory_fallback.py:34-36 | a check that finds too many buckets leaves its process only its own and those that have not lapsed |
| `CircuitBreaker.Breaker.IsOpen` | src/tr_shared/http/circuit_breaker.py:50-64 | the new state is that of the call machine, and open is its refusal |
| `CircuitBreaker.Breaker.RecordSuccess` | src/tr_shared/http/circuit_breaker.py:66-70 | the new state is that of the call machine after a success |
| `CircuitBreaker.Breaker.RecordFailure` | src/tr_shared/http/circuit_breaker.py:72-83 | the new state is that of the call machine after a failure |
| `CircuitBreaker.CountsFailuresSinceSuccess` | src/tr_shared/http/circuit_breaker.py:66-77 | in every history the failure count is the number of failures since the last success |
| `CircuitBreaker.ProbeExactlyWhenHalfOpen` | src/tr_shared/http/circuit_breaker.py:50-83 | a probe time is set exactly in the half-open state |
| `CircuitBreaker.HalfOpenExactly` | src/tr_shared/http/circuit_breaker.py:50-83 | the breaker is half-open exactly while a probe is out: admitted, and no result recorded since |
| `CircuitBreaker.PhaseExactly` | src/tr_shared/http/circuit_breaker.py:66-83 | it is closed exactly when it was new or a success closed it, recorded while a probe was out, and since then no probe failed and the failures without a success between them stayed below the threshold; it is open exactly when such a failure opened it and no probe was let out since |
| `CircuitBreaker.AnswersExactly` | src/tr_shared/http/circuit_breaker.py:50-64 | a caller passes while the breaker is closed, and otherwise exactly when a full recovery timeout has passed since the opening failure or the last probe that is out |
| `CircuitBreaker.ClosedBelowThresholdIffPositive` | src/tr_shared/http/circuit_breaker.py:72-77 | "closed means below the threshold" holds of every history exactly when the threshold is positive |
| `CircuitBreaker.ProbesExactlyAfterTimeout` | src/tr_shared/http/circuit_breaker.py:50-64 | while not closed, a call passes exactly when a full recovery timeout has passed since the last opening or probe |
| `CircuitBreaker.ProbesAreSpaced` | src/tr_shared/http/circuit_breaker.py:50-64 | two probes of one non-closed episode are at least the recovery timeout apart |
| `CircuitBreaker.ProbesPerSpan` | src/tr_shared/http/circuit_breaker.py:50-77 | a span of length L admits at most 1 + floor(L / recovery timeout) probes of one episode |
| `TemplateBuild.RunNeverNamesTemplate` | src/tr_shared/testing/stack.py:413-420 | no run database of any service, run or worker bears a template's or scratch database's name |
| `TemplateBuild.RunNameFits` | src/tr_shared/testing/stack.py:413-420 | run names never reach the identifier limit, so the truncation never applies |
| `TemplateBuild.RunNamesDiffer` | src/tr_shared/testing/stack.py:413-420 | two run databases of a service share a name exactly when what is kept of run and worker, joined, is the same |
| `TemplateBuild.WorkersDiffer` | src/tr_shared/testing/stack.py:413-420 | two workers of one run share a database exactly when the first six characters of their names agree |
| `TemplateBuild.TemplateIsFullyMigrated` | src/tr_shared/testing/stack.py:376-406 | in every reachable state, after a crash between any two statements of any worker, a database with the template name is fully migrated, although the rename looks at nothing but the migration's exit code |
| `TemplateBuild.StepKeepsInv` | src/tr_shared/testing/stack.py:423-441 | every statement, failure, crash and unlocked drop keeps that; the lock has one holder, and the scratch database holds exactly what the holder ran |
| `TemplateBuild.TemplateOkIffLocked` | src/tr_shared/testing/stack.py:429-441 | every run keeps the template fully migrated exactly when workers take the lock |
| `TemplateBuild.UnlockedRenameBreaks` | src/tr_shared/testing/stack.py:388-406 | without the lock, a second worker re-creates the scratch database between the first one's exit code and its rename, and an empty database becomes the template |
| `TemplateBuild.CrashedBuildIsRecovered` | src/tr_shared/testing/stack.py:388-406 | from every reachable state with the lock free and no template, any worker can still build it, whatever scratch database a crash left behind |
| `TemplateBuild.FailureCleansUp` | src/tr_shared/testing/stack.py:392-403 | a failed migration drops the scratch database and leaves the lock, and neither a scratch database nor a template remains |
| `TemplateBuild.CloneIsFullyMigrated` | src/tr_shared/testing/stack.py:463-469 | a cloned run database is fully migrated |
| `TemplateBuild.TeardownSparesTemplate` | src/tr_shared/testing/stack.py:485-491 | the unlocked drop removes the worker's run database and leaves template, scratch and every other database as they were, in any state |
| `DbReach.CollectEdges` | src/tr_shared/testing/db_reach.py:535-547 | the first loop builds exactly the call graph and marks exactly the direct callers and repository methods |
| `DbReach.Solve` | src/tr_shared/testing/db_reach.py:535-555 | the fixpoint ends, and marks a function exactly when a chain of calls leads from it to a seed; `via` links are real calls and acyclic |
| `DbReach.MarksAreExact` | src/tr_shared/testing/db_reach.py:548-555 | sound marks that no call can extend are exactly the functions that reach a seed |
| `DbReach.Chain` | src/tr_shared/testing/db_reach.py:168-174 | a reported chain is a walk of real calls without repetition, and one shorter than the cap ends at a seed |
| `DbReach.TryReaches` | src/tr_shared/testing/db_reach.py:156-166 | a block is reported exactly when one of its calls is a database call or has a marked target, and the report is that of the first such call |
| `DbReach.Mro` | src/tr_shared/testing/db_reach.py:455-463 | the order has no duplicate, starts at the class, holds exactly its ancestors, cyclic hierarchies included, and is breadth-first, parents in their declared order |
| `DbReach.NearerFirst` | src/tr_shared/testing/db_reach.py:455-463 | in that order nearer classes come first: for every k, those at most k steps up are exactly the first ones |
| `DbReach.Descendants` | src/tr_shared/testing/db_reach.py:465-473 | the result has no duplicate and holds exactly the classes below |
| `ErrorCategories.ResolveTable` | src/tr_shared/testing/guards.py:1294-1304 | for every hierarchy without a cycle longer than a class that seems its own base, the bounded, non-monotone rounds reach the lineage meaning of every name, early stop included, exactly when no class still to be resolved stands above a name that is its own base, or something unknown does |
| `ErrorCategories.ErrorClassCategories` | src/tr_shared/testing/guards.py:1294-1310 | under that condition a name gets a category exactly when all its lineages end in that one category |
| `ErrorCategories.SelfBaseOnUnresolved` | src/tr_shared/testing/guards.py:1274-1304 | the condition fails for a shared class redefined on itself and on a class still to be resolved, although all its lineages end in one category |
| `ErrorCategories.FixpointIsSettled` | src/tr_shared/testing/guards.py:1302-1303 | an early stop is sound: a sound table that is its own round is the unique solution |
| `ErrorCategories.CarriesUnfolds` | src/tr_shared/testing/guards.py:1299-1301 | the lineage meaning satisfies the recursive equation the rounds iterate |
| `ErrorCategories.AdvanceGrows` | src/tr_shared/testing/guards.py:1298-1304 | in an acyclic hierarchy every round settles at least one more name until all are |
| `ErrorCategories.ClassFamily` | src/tr_shared/testing/guards.py:1181-1184 | the family is exactly the roots and the classes with a line of subclassing to a root that avoids the excluded names |
| `LikeEscape.EscapeIsPerCharacter` | src/tr_shared/db/utils.py:37-51 | the three successive replacements equal one escape in front of every special character |
| `LikeEscape.EscapedMatchesOnlyItself` | src/tr_shared/db/utils.py:37-51 | under LIKE semantics (section 9.7.1 of the PostgreSQL manual) the escaped pattern matches exactly the original string |
| `LikeEscape.SearchIsSubstring` | src/tr_shared/db/utils.py:37-51 | with a percent sign on both sides it matches exactly the strings that contain the original |
| `LikeEscape.EscapedPrefixMatches` | src/tr_shared/db/utils.py:37-51 | an escaped term consumes exactly itself, whatever pattern follows |
| `LikeEscape.EscapeIsInjective` | src/tr_shared/db/utils.py:37-51 | distinct terms never share a pattern |
| `StorableText.UnstorableTextLocation` | src/tr_shared/schemas/validators.py:44-58 | the search ends on every value, answers none exactly for clean values, and otherwise gives a path to an offending string or object |
| `StorableText.CleanMeansNothingOffending` | src/tr_shared/schemas/validators.py:44-58 | the tree predicate says exactly that no path reaches an offending item |
| `StorableText.CleanExactly` | src/tr_shared/schemas/validators.py:14-58 | a value is clean exactly when no string and no string key anywhere in it holds a NUL or an unpaired surrogate |
| `StorableText.PushFields` | src/tr_shared/schemas/validators.py:49-54 | stops only for an object with an offending key; otherwise every pushed path leads to its item, and the stack is clean exactly when it was before and the object is |
| `StorableText.PushItems` | src/tr_shared/schemas/validators.py:55-57 | every pushed path leads to its item, the stack is clean exactly when it was before and the list is, and it grows by exactly the list's content |

## Left out

- Event consumer: consumer names are distinct and a running consumer polls within the zombie threshold, as assumed by the sweep; handler lookup by pattern is an input, and so are parsing and payloads.
- XAUTOCLAIM's scan order and count: a claim may take any idle entries, which covers them.
- The sweep's and the deregistration's own code are steps of the machine, not methods; the read and claim loops' endless repetition, reconnecting and sleeping are left to the machine's free choice of steps.
- DedupMemory.Checker.IsProcessed: the Redis keys carry an expiry, but several processes sharing them are modelled only by the consumer machine's checker, which may forget and never invents.
- Outbox: the order, limit and row locks of the select are free choices of the model, since the locks end with the select's own transaction; event ids minted by the producer, payload decoding and the dead-letter callback are not modelled. Row ids are UUIDs and taken to be new.
- Idempotency: one key at a time; key hashing, the fingerprint of tenant and path, and the UTF-8 codec are abstract, and requests without a key or Redis are not modelled.
- SingleFlight: storing and popping are two steps, although no other coroutine of one event loop runs between them.
- The config client's HTTP fetch, audit log, `warm_all` and tenant listing.
- Rate limiter: `reset`, `status`, remaining counts, `reset_at` and `retry_after` (the fallback truncates it, so waiting that long guarantees nothing); one algorithm per limiter.
- SlidingWindow.AtMostLimitPerSpan: assumes distinct sorted-set members; how Lua prints the time and draws the suffix is outside the model, which lets any two requests draw the same member.
- Template build: container start-up, Redis provisioning, the lock's timeout, and a migration process that outlives its killed parent.
- ErrorCategories.ResolveTable: leaves out cycles of two or more class names; for those the rounds are only bounded.
- Name resolution and syntax trees in `db_reach.py` and `guards.py`: call targets and class definitions are inputs.
- Webhook signatures, vault, HikCentral and PropertyFinder clients: network calls and cryptography.
- Monitoring, logging, health checks, Celery wiring, enum and payload declarations: plumbing over other libraries, and declarations.
