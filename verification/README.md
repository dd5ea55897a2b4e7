# Verification of go-infra's concurrent core

A Dafny 4.11 model of the parts of go-infra that are hard to get right: the Redis lock manager, the
Kafka consumer runner, the RabbitMQ publisher channel, the property-file loader, the TTL deduplicator,
the lifecycles and the component registry. `dafny verify dfyconfig.toml` checks all of it.

## How it is organised

| file | what it models |
|---|---|
| `Types.dfy`, `Sequences.dfy`, `TtlStore.dfy` | small shared types and facts about concatenation; Redis as expiring entries under atomic time-stamped commands; histories of commands; the server object |
| `KeyQueue.dfy` | the process-local FIFO queue: what each critical section does, and the mutable object |
| `LockSystem.dfy` | all managers, calls, handles and the server as one machine of atomic steps |
| `LockSlots.dfy`, `LockFifo.dfy`, `LockHandles.dfy` | slot conservation, first come first served, finalisation and exit accounting |
| `LockLeases.dfy`, `LockBelief.dfy`, `LockOrphans.dfy`, `LockMutex.dfy` | mutual exclusion of leases, what a client may conclude, writes applied behind an error, the single-manager mutex |
| `Watchdog.dfy`, `WatchdogRun.dfy` | the auto-refresh bound, on histories of commands and in every run of the machine |
| `Retry.dfy`, `LockManager.dfy`, `LockSolo.dfy` | the retry loop, the handle and manager objects, and the machine's runs that match them |
| `Kafka.dfy`, `RabbitMq.dfy` | the consumer pipeline and the publisher-channel cache as step machines; the consumer-runner and client objects |
| `PropertyText.dfy`, `Properties.dfy`, `PropertyCompose.dfy`, `PropertyRoundTrip.dfy` | trimming and line splitting, the loader loop, files loaded in turn, the exact image and its printer |
| `Dedupe.dfy`, `Lifecycle.dfy`, `Registry.dfy` | deduplication windows, phases whose tasks add tasks, get-or-create accessors |

**Runs.** A concurrent component is a function `Step(state, event)`; an event that is not enabled leaves
the state alone. A run is *any* sequence of events, so a lemma about all sequences is a lemma about
every schedule, including every choice a Go `select` may make, every loss of a command or answer, and
commands that the server executes after the client has been told of an error.

**Objects.** The code that runs inside one critical section or one goroutine is a class with the
source's fields (`LocalKeyQueue`, `Lock`, `Manager`, `ConsumerRunner`, `Client`, `PropertyStore`,
the lifecycles, `ModuleBase`). The methods of the queue, the consumer runner, the RabbitMQ client and the
registry are proved equal to the functions that their machines step with. The methods of `Lock` and
`Manager` and the retry loop span several steps: `LockSolo` proves that the lock system's steps of one
caller whom nobody interrupts do what those methods promise, for every network outcome.

**Assumptions about the environment.** Redis scripts are atomic and each command takes effect at most
once (see *Resent commands* below); an entry written at `t` for a span `d` exists until `t + d`; SET NX PX rounds a positive duration
below a millisecond up to one millisecond. Tokens are distinct (a call's number is its token). All
clients and the server read one clock that does not go back. Kafka offsets of a partition increase and
there is no rebalance. An AMQP channel that ends before NotifyClose is registered reports no error.
Components enter the registry only through the accessors.

## What the proofs found

- **Abandoned hand-off.** A waiter that takes `ctx.Done()` after `release` has popped it leaves the slot
  held by nobody, for ever (`LockSlots.LostIffAbandoned`, `LockSlots.LostForever`, with a run of six
  steps in `LockSlots.AbandonedRunLoses`).
- **Dropped handles.** `Release` failing with anything but "not held" does not finalise; `WithLock` then
  drops the handle and, without auto-refresh, the key stays blocked in that manager. Exactly which
  answers leave a handle so is `LockHandles.DroppedIffNoneEnded`; the consequence is
  `LockHandles.DroppedBlocksForever`.
- **Writes behind an error.** "Deletion precedes hand-off" and "the owner of the slot succeeds at its first
  SETNX" fail when the server granted a SETNX whose client saw an error: the slot is handed on while
  the entry lives, and until it expires every SETNX of that manager for the key is refused. Both are
  characterised exactly (`LockOrphans.LeaseAtHandOn`, `LockMutex.RefusedIffOrphan`).
- **Sub-millisecond refresh.** `Refresh` truncates to milliseconds, so a duration below one millisecond
  returns nil and deletes the lease; the watchdog of a handle with such a time-to-live does so at its first
  tick (`TtlStore.RefreshKeepsLeaseIff`, `Watchdog.FirstTickKeepsLeaseIff`).
- **Linear backoff** overflows exactly when the product leaves 63 bits (`Retry.LinearDelayExactIff`).
- **RabbitMQ.** A channel that dies before its goroutine has registered stays cached and is returned to
  every publish while the connection lives; for a watched channel of whose end no report is under way
  that is the only way to stay cached dead (`RabbitMq.DeadIffLateWatch`, `RabbitMq.MissedEndSticks`). The
  connection that `connection` reads without the mutex is nil exactly after an intervening Close.
- **Property files.** Loading two files in turn is loading their concatenation if and only if the first
  ends in a newline, up to white space, and not inside a continuation (`PropertyCompose.TextsComposeIff`);
  a file that ends inside a continuation swallows the next one's lines as long as they go on with the
  value, the first of them in any case (`PropertyCompose.OpenFileSwallows`).
- **Kafka.** AwaitTermination may return while a handler runs. Nothing more is handled or committed, in any
  continuation, if and only if the handling goroutine has exited or waits on an empty queue that a
  cancelled poller will not fill any more; the return through `done` guarantees that, a return by timeout
  or by the caller's context does not (`Kafka.QuietIffSpent`, `Kafka.AwaitDoneIsFinal`,
  `Kafka.TimeoutLeavesHandler`).
- **Resent commands.** The repository's client keeps go-redis at its default options, which resend a command
  after a network error (`internal/redis/client.go:11-19`). All runs here assume that no command is executed
  twice; `LockMutex.RefusedIffOrphan` in particular rests on it, because a resent SETNX is refused by its
  own entry without any error. What a resend changes of one answer is `TtlStore.ResentAnswer`.

## Model

| member | source | states |
|---|---|---|
| TtlStore.LeaseExclusion | internal/redislock/manager.go:52-94 | in every time-ordered history of server commands, at every instant at most one token holds a key, where leases are read off commands and answers without looking at the store |
| TtlStore.HeldMatchesStore | internal/redislock/manager.go:52-83 | the leases read off the history are exactly the live entries of the store |
| TtlStore.OnlyOwnerActs | internal/redislock/manager.go:52-94 | release and refresh are accepted if and only if the token owns the live entry; a refused one changes nothing and neither touches other keys |
| TtlStore.RefreshKeepsLeaseIff | internal/redislock/manager.go:85-94 | an owner's refresh always reports success, and keeps the lease if and only if the duration is at least one millisecond |
| TtlStore.SpanValues | internal/redislock/manager.go:70-94 | in numbers: from one million nanoseconds on both spans are the duration rounded down to whole milliseconds; below, one millisecond is stored and no positive span is asked for |
| TtlStore.ResentAnswer | internal/redislock/manager.go:52-94 | when a command answered "done" is executed a second time, the second answer is "done" exactly: for SETNX once the span is over, for release never, for refresh while a positive span lasts |
| TtlStore.RedisServer.RoundTrip | internal/redislock/manager.go:70-94 | one round trip: the store and history after it under delivery, loss of the command and loss of the answer |
| KeyQueue.LocalKeyQueue.TryAcquireKey | internal/redislock/manager.go:454-469 | the critical section of tryAcquire on the mutable per-key records |
| KeyQueue.LocalKeyQueue.AcquireOrJoin | internal/redislock/manager.go:471-487 | acquire takes a free slot or joins the end of the line with a new channel |
| KeyQueue.SpliceOut | internal/redislock/manager.go:507-512 | the search loop removes exactly the first occurrence of a waiter, if there is one |
| KeyQueue.LocalKeyQueue.RemoveWaiter | internal/redislock/manager.go:498-517 | the waiter leaves the line, and the key goes only if it is free and nobody waits |
| KeyQueue.LocalKeyQueue.ReleaseKey | internal/redislock/manager.go:528-546 | release pops and closes the head of the line, or forgets the key |
| KeyQueue.WithoutKeepsOrder | internal/redislock/manager.go:507-512 | cancelling one waiter keeps the order of all others |
| KeyQueue.WithoutMembers | internal/redislock/manager.go:507-512 | cancelling removes that waiter and no other |
| KeyQueue.TakeAndGiveBack | internal/redislock/manager.go:454-469 | a slot taken by tryAcquire and released at once leaves the map as it was |
| LockSystem.OperationsWorkOnHandles | internal/redislock/manager.go:221-302 | in every run every Release, Refresh or watchdog tick works on a call that returned a handle |
| LockSlots.SlotConservation | internal/redislock/manager.go:454-546 | in every reachable state a key is in the map iff it is held, and iff exactly one call claims it |
| LockSlots.Invariant | internal/redislock/manager.go:454-546 | the inductive invariant: waiters are exactly the calls in line, once each, and the claimant is unique, in every run |
| LockSlots.ClaimKindsExclude | internal/redislock/manager.go:471-546 | a claim is exactly one of owner, handed-off waiter, lost hand-off |
| LockSlots.CleanUpNeverFires | internal/redislock/manager.go:498-517 | the `!state.held` clean-up of removeWaiter never deletes a key |
| LockSlots.OneAcquireInFlight | internal/redislock/manager.go:336-399 | per manager and key at most one backend Acquire is outstanding |
| LockSlots.LostIffAbandoned | internal/redislock/manager.go:489-494 | a slot is lost if and only if some step of the run left a handed-off waiter behind |
| LockSlots.AbandonedRunLoses | internal/redislock/manager.go:489-494 | a run of six steps that loses a slot, for every slot |
| LockSlots.LostForever | internal/redislock/manager.go:489-517 | a lost slot stays lost in every continuation, and whoever claims it there is the call that lost it |
| LockSlots.QuietMeansEmpty | internal/redislock/manager.go:454-546 | once all calls have left or finished, the map is empty if and only if nothing was lost |
| LockFifo.FirstComeFirstServed | internal/redislock/manager.go:471-546 | law of the atomic FIFO lock: uncancelled arrivals in order are those served followed by those in line |
| LockFifo.StepRefines | internal/redislock/manager.go:454-546 | every step of the lock system is one step, or none, of the atomic FIFO lock on each slot |
| LockFifo.RefinesFifoLock | internal/redislock/manager.go:454-546 | in every run each slot's claimant and waiters are what the atomic FIFO lock makes of its history |
| LockFifo.SlotIsFifo | internal/redislock/manager.go:471-546 | in every run each slot serves the uncancelled arrivals, TryLock included, in arrival order |
| LockFifo.NoOvertaking | internal/redislock/manager.go:454-546 | an earlier uncancelled arrival has had the slot and returned it before a later one claims it |
| LockHandles.AtMostOnce | internal/redislock/manager.go:221-302 | in every run a call is granted its slot, returns it, and closes its stop channel at most once, and its state tells how often |
| LockHandles.ExitAccounting | internal/redislock/manager.go:304-399 | grants and returns balance on every exit of TryLock and Acquire and over the handle's life |
| LockHandles.HandleOwnsAlone | internal/redislock/manager.go:304-399 | a handle that is not finalised is the only claimant of its slot |
| LockHandles.ReleasedStays | internal/redislock/manager.go:261-271 | `released` never reverts, and a finished finalisation stays finished |
| LockHandles.NoCallAfterRelease | internal/redislock/manager.go:221-259 | an operation begun after `released` is set is refused and never sends a command |
| LockHandles.FinalizeNeverStuck | internal/redislock/manager.go:261-271 | among concurrent finalisers some next step is always enabled |
| LockHandles.AnsweredMeansFinished | internal/redislock/manager.go:229-271 | in every run, once a Release has returned nil or any operation "not held", the slot has been returned exactly once and the stop channel closed |
| LockHandles.DroppedIffNoneEnded | internal/redislock/manager.go:221-259 | in every run a handle keeps its slot with nothing under way if and only if each of its operations failed or was a nil Refresh |
| LockHandles.WithLockDropsIffFailed | internal/redislock/manager.go:411-416 | if the handle's one operation is a Release that has returned, the handle is left with its slot if and only if the Release failed with another error than "not held" |
| LockHandles.FailedReleaseDrops | internal/redislock/manager.go:229-236 | from every state with an unused handle a failing Release leads there |
| LockHandles.DroppedRunDrops | internal/redislock/manager.go:411-416 | a run of six steps from the start that drops a handle, for every slot |
| LockHandles.DroppedBlocksForever | internal/redislock/manager.go:411-416 | such a handle keeps its slot in every continuation without a new operation on it, and no other call claims it |
| LockLeases.ServerHistory | internal/redislock/manager.go:70-94 | in every run the store is what its time-ordered commands make of an empty one |
| LockLeases.LeasesExclude | internal/redislock/manager.go:52-94 | mutual exclusion of leases in every run of any number of managers, at every instant |
| LockLeases.Invariant | internal/redislock/manager.go:221-271 | entries carry the token of a call for that key; once the server has ended a lease the token never has a live entry again |
| LockLeases.OneSuccessfulRelease | internal/redislock/manager.go:221-240 | at most one Release of a handle ever returns nil |
| LockLeases.EndedOwnsNothing | internal/redislock/manager.go:229-258 | after an answered Release, or a "not held", the token owns nothing |
| LockBelief.TrustIsSound | internal/redislock/manager.go:242-333 | a client that counts a span, which neither its time-to-live nor any of its refreshes undercuts, from the sending of the last acknowledged command owns the key on the server |
| LockBelief.TrustExcludes | internal/redislock/manager.go:242-333 | two clients, each with such a span of its own, never trust a lease of one key at the same time |
| LockOrphans.GrantEndIsEnd | internal/redislock/manager.go:70-94 | in every run a token whose call has no handle owns its key exactly up to the end of the span it was last granted |
| LockOrphans.LeaseAtHandOn | internal/redislock/manager.go:229-271 | for every step that returns a slot, in every run of any managers: the server has given up the lease, except on the error path of Acquire when a SETNX was granted behind the error and its span is not over |
| LockOrphans.HandOnBeforeDeletion | internal/redislock/manager.go:350-370 | a run in which the error path hands the slot on while its token owns the key |
| LockOrphans.OrphanedWriteBlocks | internal/redislock/manager.go:362-373 | continued, the next owner of the slot is refused, with one manager and nobody holding the lock |
| LockMutex.RefusedIffOrphan | internal/redislock/manager.go:336-399 | with one manager, in every run without resent commands, a SETNX is refused if and only if an earlier call of its key left with an error behind which the server had granted a span that is not over |
| LockMutex.FirstTrySucceeds | internal/redislock/manager.go:336-399 | hence, when no error hides a write, every SETNX succeeds |
| LockMutex.EntryIsHeadIff | internal/redislock/manager.go:336-399 | with one manager a key's live entry carries the token of the head of its FIFO line, if and only if its call has not left with an error |
| LockMutex.LeaseEndsExactlyWhen | internal/redislock/manager.go:52-94 | a lease ends at a step if and only if time passes its end or its own Release or sub-millisecond Refresh is executed |
| Watchdog.PromptKeepsLease | internal/redislock/manager.go:287-301 | prompt refreshes keep the lease whatever other clients send in between |
| Watchdog.WatchdogKeepsLease | internal/redislock/manager.go:273-302 | the continuity bound with start lag, tick delay and interval, for any number of ticks |
| Watchdog.IntervalIsHalf | internal/redislock/manager.go:278-285 | the period is half the time-to-live rounded down, one nanosecond at least |
| Watchdog.FirstTickKeepsLeaseIff | internal/redislock/manager.go:273-302 | after a granted SETNX and any commands of other clients, the first tick is answered "done", and keeps the lease if and only if the time-to-live is at least one millisecond |
| WatchdogRun.LeaseStandsInRun | internal/redislock/manager.go:273-302 | in every run of the whole lock system, among any other steps, a lease refreshed on schedule stands |
| WatchdogRun.HalfTimeTicksKeepLease | internal/redislock/manager.go:273-302 | the same in the caller's numbers: ticks every half time-to-live keep the lease if twice lag + delay leaves two milliseconds of it |
| WatchdogRun.SinceAreBystanders | internal/redislock/manager.go:242-302 | the commands the server executed between two of a handle's own are other calls' commands |
| Retry.AskUntilDecided | internal/redislock/manager.go:356-398 | the loop: number of calls, outcome and total wait, a last wait cut short included, for all answers and cancellations |
| Retry.AcquireWithSlot | internal/redislock/manager.go:345-398 | the loop with its deferred return: the slot is kept or given back once |
| Retry.FixedDelays | internal/redislock/manager.go:144-157 | the delays of a fixed backoff, from the caller's arguments |
| Retry.LinearDelays | internal/redislock/manager.go:159-172 | the delays of a linear backoff, as 64 bits hold the product, from the caller's arguments |
| Retry.OptionsDecide | internal/redislock/manager.go:99-142 | which option decides; by default 20 retries, 50 ms apart |
| Retry.OneWait | internal/redislock/manager.go:389-396 | a wait lasts its delay, and a negative delay nothing |
| Retry.WaitBound | internal/redislock/manager.go:144-172 | total waiting is at most N units (fixed) or N(N+1)/2 units (linear, with overflow or without) |
| Retry.FixedTotal | internal/redislock/manager.go:144-157 | n waits of a fixed backoff |
| Retry.LinearTotal | internal/redislock/manager.go:159-172 | n waits of a linear backoff that fits in 63 bits |
| Retry.LinearDelayExactIff | internal/redislock/manager.go:170 | the delay is the exact product if and only if that fits in 63 bits |
| Retry.LinearOverflowInstance | internal/redislock/manager.go:170 | a step and attempt whose delay comes out negative |
| LockManager.BackendAcquire | internal/redislock/manager.go:70-72 | answer and store of one SETNX under delivery, lost command and lost answer |
| LockManager.BackendRelease | internal/redislock/manager.go:74-83 | answer and store of one compare-and-delete under the same outcomes |
| LockManager.BackendRefresh | internal/redislock/manager.go:85-94 | answer and store of one compare-and-expire, with the deletion below one millisecond |
| LockManager.Lock.Finalize | internal/redislock/manager.go:261-271 | runs once: flag, stop channel and slot |
| LockManager.Lock.Release | internal/redislock/manager.go:221-240 | result, flag, store and queue for every network outcome |
| LockManager.Lock.Refresh | internal/redislock/manager.go:242-259 | result, flag, lease end and queue for every network outcome and duration; an accepted refresh leases the key for the duration, to the millisecond, and deletes it below one |
| LockManager.Lock.Tick | internal/redislock/manager.go:287-301 | one tick of the watchdog leases the key for the handle's own time-to-live |
| LockManager.Manager.TryWithSlot | internal/redislock/manager.go:317-333 | one backend call; the slot goes back unless it is granted |
| LockManager.Manager.TryLock | internal/redislock/manager.go:304-334 | either a handle owning slot and entry, leased for the time-to-live to the millisecond, or the queue exactly as it was, with the right error |
| LockManager.Manager.FinishWithLock | internal/redislock/manager.go:411-416 | WithLock's end: which error the caller gets, and the slot stays with the dropped handle unless the server answered or the handle had been finalised before |
| LockSolo.SlotOrLine | internal/redislock/manager.go:471-487 | Acquire takes a free slot and joins the end of the line of a held one |
| LockSolo.HandedOffWakes | internal/redislock/manager.go:489-491 | the return of a slot wakes the first in line, which then has it |
| LockSolo.CancelLeavesLine | internal/redislock/manager.go:492-517 | a cancelled waiter leaves the line and nothing else changes |
| LockSolo.SoloOpKeepsPromise | internal/redislock/manager.go:221-271 | the machine's steps of one uninterrupted Release or Refresh do what the methods promise, for every network outcome |
| LockSolo.SoloTryKeepsPromise | internal/redislock/manager.go:304-334 | the same for TryLock |
| LockSolo.SoloAcquireKeepsPromise | internal/redislock/manager.go:350-398 | the same for the retry loop of Acquire, with any number of refused attempts and their waits |
| Kafka.PipelineConservation | internal/kafka/client.go:206-271 | polled = handled, in handler, queued, with the poller, given up at stop, in that order; queue bounded; nothing offered after close |
| Kafka.CommitSafety | internal/kafka/client.go:256-267 | when an offset is committed every smaller polled offset of its partition has been handled |
| Kafka.LedgersAgree | internal/kafka/client.go:216-267 | in every run the polled, handled and committed messages are exactly those that the events returned, handled and handled with nil, in order |
| Kafka.WaitsIff | internal/kafka/client.go:216-253 | exactly when an offered message and an idle worker wait |
| Kafka.BoundedDrain | internal/kafka/client.go:206-280 | after cancellation at most queue length + 1 handler calls begin, in at most 3 * queue length + 10 steps |
| Kafka.DrainCompletes | internal/kafka/client.go:206-280 | when after cancellation no step is enabled any more, both goroutines have exited, within the bounds, and every polled message is accounted for |
| Kafka.QuietIffSpent | internal/kafka/client.go:206-308 | in every run: nothing more is handled or committed in any continuation if and only if the handling goroutine has exited or waits on an empty queue that a cancelled poller will not fill |
| Kafka.AwaitLeaves | internal/kafka/client.go:282-308 | when AwaitTermination stops polling the counter, sees `done`, times out and gives up |
| Kafka.AwaitDoneIsFinal | internal/kafka/client.go:282-308 | in every run, once AwaitTermination has returned through `done`, nothing is handled or committed again |
| Kafka.TimeoutLeavesHandler | internal/kafka/client.go:282-308 | a run in which it returns by its timeout and the handler is running |
| Kafka.ConsumerRunner.PollRound | internal/kafka/client.go:216-229 | one round of the poller from its cancellation check to the answer of Poll: the step machine's step |
| Kafka.ConsumerRunner.Offer | internal/kafka/client.go:228-234 | the select between queue and cancellation: the message is queued at the end, or given up |
| Kafka.ConsumerRunner.Receive | internal/kafka/client.go:247-254 | the consumer's receive: cancellation, a message from the head, or the closed and empty queue |
| Kafka.ConsumerRunner.FinishHandler | internal/kafka/client.go:256-267 | the handler's return: the message is handled, and committed if and only if the handler succeeded |
| Kafka.ConsumerRunner.Stop | internal/kafka/client.go:273-280 | Stop's effect and its being harmless when repeated |
| RabbitMq.ReturnsCurrentChannel | rabbitmq/client.go:172-209 | in every run a returned channel belongs to the connection current at that step |
| RabbitMq.Invariant | rabbitmq/client.go:73-209 | the cached channel was opened on the present connection, in every run |
| RabbitMq.CloseEnds | rabbitmq/client.go:143-163 | Close ends the cached channel, closes the connection with every channel on it, and leaves the others alone |
| RabbitMq.DeathsEnd | rabbitmq/client.go:73-206 | what a dying connection or channel takes with it, and that it leaves the client's fields alone |
| RabbitMq.NoticesMove | rabbitmq/client.go:196-208 | what registering for an end and being told of it change |
| RabbitMq.TimelyWatchRepairs | rabbitmq/client.go:172-209 | a channel that is watched, dies and is reported is not returned again |
| RabbitMq.PublishKeeps | rabbitmq/client.go:172-209 | a publish that cannot dial changes nothing, a live connection and an open cached channel are kept, and otherwise exactly one channel is opened |
| RabbitMq.SupersededNoticeIgnored | rabbitmq/client.go:197-206 | in every run a notification for a superseded channel changes the answer of no later publish, whatever happens in between |
| RabbitMq.DeadIffLateWatch | rabbitmq/client.go:186-208 | in every run a channel cached open, watched, and with no report under way is dead if and only if its goroutine registered after its end |
| RabbitMq.ReturnedDeadIff | rabbitmq/client.go:172-209 | a watched channel that is returned is dead if and only if its end is being reported or was missed in this way |
| RabbitMq.MissedEndSticks | rabbitmq/client.go:186-206 | a missed end is never repaired while the connection lives |
| RabbitMq.MissedEndInstance | rabbitmq/client.go:190-206 | a run in which an end is missed |
| RabbitMq.UnlockedReadIsNilIff | rabbitmq/client.go:165-170 | the unlocked read of the connection is nil iff the last close or dial since was a close |
| RabbitMq.UnlockedReadInstance | rabbitmq/client.go:165-170 | a run in which the read is nil |
| RabbitMq.Client.ConnectIfNeeded | rabbitmq/client.go:73-90 | Connect's critical section |
| RabbitMq.Client.PublisherChannelFor | rabbitmq/client.go:172-209 | publisherChannel's critical section and result |
| RabbitMq.Client.OnClosed | rabbitmq/client.go:197-206 | the notification goroutine's critical section |
| RabbitMq.Client.Shutdown | rabbitmq/client.go:143-163 | Close's critical section, and the first error it returns |
| PropertyText.ScanUnlines | config/property.go:104-116 | splitting a text of plain lines gives back the lines |
| PropertyText.TrimTrims | config/property.go:116 | TrimSpace yields a contiguous piece of the text, cuts off nothing but white space, and leaves none at the ends |
| PropertyText.SpacesAre | config/property.go:116 | the white space by its code points |
| PropertyText.ScanAppend | config/property.go:104-116 | a text that is empty or ends in a newline keeps its lines whatever follows |
| PropertyText.FirstLineEnds | config/property.go:104-116 | the first line ends at the first newline, or at a carriage return just before it |
| Properties.PropertyStore.Load | config/property.go:103-155 | the scan loop with its continuation state does what the recursive reading of the text says |
| Properties.PropertyStore.AddProperty | config/property.go:108-113 | the pending assignment is stored if it has a key |
| Properties.LastAssignmentWins | config/property.go:88-113 | an assignment sets its key and leaves the others; the last one wins |
| PropertyCompose.TextsComposeIff | config/property.go:103-155 | loading a text and then another is loading their concatenation, for every store and second text, if and only if the first ends in a newline up to white space and not inside a continuation |
| PropertyCompose.LinesComposeIff | config/property.go:103-155 | for lists of lines: a file composes with every file that follows if and only if it does not end inside a continuation |
| PropertyCompose.OpenFileSwallows | config/property.go:118-127 | for every file that ends inside a continuation and every file that follows: its lines go on with the pending value as long as that is open, and only the rest is read as usual |
| PropertyCompose.SkippedLineIsNoOp | config/property.go:129-136 | lines that are empty, begin with '#' or "//", or lack '=' are no-ops outside continuations |
| PropertyCompose.AssignmentLine | config/property.go:133-148 | every other line assigns what stands behind its first '=' to what stands before it, trimmed, and nothing if that is empty |
| PropertyCompose.ContinuedLine | config/property.go:118-148 | a value ending in a backslash goes on with the next line |
| PropertyCompose.TextInside | config/property.go:118-127 | inside a continuation any line is literal text of the value, which goes on behind a line that ends in a backslash |
| PropertyRoundTrip.LoadKeepsGood | config/property.go:103-155 | loading any text keeps keys and values well-formed |
| PropertyRoundTrip.RoundTrip | config/property.go:103-155 | every listing of a well-formed store, printed, loads as that store |
| PropertyRoundTrip.ReachableIffGood | config/property.go:103-155 | a store is reachable by Load from empty if and only if it is well-formed |
| Dedupe.Manager.Handle | internal/dedupe/manager.go:76-112 | validation errors, answer, store and history of each request under every network outcome, in the request's own terms |
| Dedupe.RequestDoes | internal/dedupe/manager.go:52-66 | what the server makes of each request: what it answers, which mark it leaves and for how long |
| Dedupe.LiveIffCovered | internal/dedupe/manager.go:52-66 | a mark exists exactly while an accepted uncleared mark covers the present |
| Dedupe.AcceptedIffWindowOver | internal/dedupe/manager.go:52-54 | a TryMark is accepted if and only if no accepted uncleared mark is within its time-to-live |
| Dedupe.AcceptedMarksApart | internal/dedupe/manager.go:52-66 | two accepted marks with no clear between are at least the first's stored time-to-live apart |
| Dedupe.MarkedChangesNothing | internal/dedupe/manager.go:56-62 | Marked changes no later outcome |
| Dedupe.RequestAnswered | internal/dedupe/manager.go:52-112 | in every history of requests: TryMark is accepted, and Marked false, if and only if no accepted uncleared TryMark is within its own time-to-live |
| Dedupe.AcceptedTryMarksApart | internal/dedupe/manager.go:52-112 | two accepted TryMarks with no Clear between are the first's time-to-live apart, to the millisecond |
| Dedupe.MarkedIsInvisible | internal/dedupe/manager.go:56-62 | leaving out a Marked changes no later answer |
| Lifecycle.PhaseExecutes | internal/module/shutdown_tasks.go:45-59 | a phase executes its registered tasks and then exactly those sent to it by tasks of strictly earlier phases, in order |
| Lifecycle.LateTasksNeverRun | internal/module/shutdown_tasks.go:45-59 | a task sent to a phase that has begun stays in the list and never runs |
| Lifecycle.TaskSentOn | internal/module/shutdown_tasks.go:45-59 | the smallest case: a task sent to a later phase runs there after those registered |
| Lifecycle.TaskSentBack | internal/module/shutdown_tasks.go:45-59 | sent to its own phase it never runs |
| Lifecycle.ShutdownLifecycle.Run | internal/module/shutdown_tasks.go:45-49 | the loop runs over the list as it was when the phase began |
| Lifecycle.ShutdownLifecycle.RunAll | internal/module/shutdown_tasks.go:51-59 | the trace and final lists of the seven phases, in their order |
| Lifecycle.StartupLifecycle.RunAll | internal/module/startup_tasks.go:57-61 | the same for the three startup phases |
| Registry.NamesInjective | app/module/redis_component.go:136-141 | different kinds or names never share a component name |
| Registry.NamesInFull | app/module/redis_component.go:12-13 | the component names in full |
| Registry.NeverWrongType | app/module/module_base.go:183-263 | type-mismatch panics are unreachable; an accessor fails only after the start for a missing component |
| Registry.AccessFinds | app/module/module_base.go:183-263 | a registered component is returned, a missing one refused if and only if the application has started, and neither changes anything |
| Registry.StartedIff | app/module/module_base.go:196-198 | the application counts as started exactly after a start |
| Registry.AccessCreates | app/module/module_base.go:207-263 | before the start a missing component is made, initialised and registered, after its Redis component where it needs one; nothing else is touched |
| Registry.SameComponentAgain | app/module/module_base.go:183-263 | repeated access returns the same component whatever happens in between |
| Registry.InitialisedOnce | app/module/module_base.go:183-263 | each registered name was initialised exactly once |
| Registry.RedisLookupSucceeds | app/module/redis_lock_manager.go:74-91 | the Redis component a lock manager or deduplicator looks up is registered with the right type |
| Registry.ModuleBase.GetSimple | app/module/module_base.go:183-205 | the plain get-or-create accessor |
| Registry.ModuleBase.GetOverRedis | app/module/module_base.go:207-263 | RedisLock and Deduplicator, which create their Redis component first |

## Left out

- Liveness of lock waiters: none holds, because of the abandoned hand-off.
- Custom RetryStrategy values: with one the retry loop may run for ever; the model has the two built-in strategies.
- Retry.AcquireWithSlot: backend answers and cancellations are arbitrary functions of the attempt; other callers' effects on the queue during the loop are in LockSystem.
- LockManager.Manager.TryLock: one caller at a time; interleavings are in LockSystem, whose steps use the same queue functions.
- Acquire as one method: blocking in the select needs other callers, so it is the method AcquireOrJoin, the steps Wake, CtxDone and RemoveWaiter, and the method AcquireWithSlot.
- The Redis server's millisecond clock: instants are nanoseconds, durations are truncated as the client truncates them.
- TtlStore.RedisServer.RoundTrip: its error outcomes are an executed and a lost command; a command executed only after the client was told of the error is in LockSystem.
- LockHandles.DroppedBlocksForever: a handle dropped with auto-refresh keeps its watchdog, whose ticks are operations on it.
- LockSolo.SoloAcquireKeepsPromise: between two attempts only time passes; what other callers do meanwhile is in LockSystem.
- Watchdog.WatchdogKeepsLease: assumes each tick is delivered; a ticker that drops ticks breaks the schedule it starts from.
- Kafka's two goroutine loops as running loops: the methods of ConsumerRunner are the code between two points where a goroutine can block, and runs put them in any order; aliasing of message buffers is not modelled.
- Kafka.ConsumerRunner.Stop: cancels the context; closing the consumer is client-library behaviour.
- Kafka subscribe and offset reset, the producer, and closing the consumer while Poll runs: client-library behaviour.
- The RabbitMQ consumer runner: it has no queue of its own and repeats the counter and wait of the Kafka one.
- Callback and handler panics, wall-clock jumps and scheduler fairness: the code does not handle them.
- Token generation and its hexadecimal text; tokens are assumed distinct.
- Opening property files, the embedded file system and bufio.Scanner's token limit; texts are sequences of Unicode characters.
- The unused-property validator and RequiredProperty: easy members.
- Lifecycle phases in which each component registers its tasks, and a failing task: tasks only add tasks here.
- Registrations made directly on the exported registry, bypassing the accessors.
- The root-level redislock, dedupe, kafka and config twins: same logic as the files cited.
- gRPC pool, scheduler engine, error texts, DSN helpers, web middleware and the startup probe: easy or owned by libraries.
