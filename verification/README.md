# Protocols of the harness, verified

The harness is an asyncio orchestrator. Its hard part is a set of small in-memory protocols whose steps interleave
only at `await` points. This project models them and proves what every run keeps. Each component has

- a value model: the state as a datatype and one step function whose cases are the stretches of source code between
  two awaits, so that a sequence of actions is an interleaving;
- theorems about every sequence of actions (or every input), proved from an invariant or against an independent
  reference definition;
- where the source updates objects in place, a class whose methods follow the source's branches and are proved equal to
  the step function.

| file | component |
|---|---|
| `Events.dfy`, `Splice.dfy`, `EventStream.dfy` | event broker, SSE response, reconnecting client |
| `PublisherThreads.dfy` | `publish` called from several threads |
| `Tracking.dfy`, `Deliveries.dfy` | task tracking sets; webhook admission and retries |
| `RetryLedger.dfy`, `RetryChain.dfy` | retry-byte budget; one delivery and its retry chain |
| `Continuations.dfy` | continuation fan-in, caps, TTL |
| `Bus.dfy` | message bus and worker |
| `Sessions.dfy` | session LRU |
| `Merge.dfy` | merge of backend answers with a pushed-down limit |
| `Jsonl.dfy`, `Text.dfy` | JSONL reader with its cache; string operations |
| `Windows.dfy` | task windows |
| `Traceparent.dfy` | `traceparent` header (section 3.2.2 of W3C Trace Context) |
| `Seqs.dfy`, `Sets.dfy` | tails of sequences; sizes of sets |

`dafny verify dfyconfig.toml` checks everything.

## What the code does not do

Where a promise fails, the model follows the code. Lemmas give a run or input on which it fails and the exact condition
under which it holds.

- Exactly-once delivery over reconnects holds for a run if and only if the client never keeps a frame of an evicted
  subscription or of a reconnect behind the ring window (`Splice.ExactlyOnce`, `Splice.EvictionBreaksExactlyOnce`).
  Eviction discards the oldest queued event, and a client that hangs up before the overrun frame comes back with a
  numeric id beyond it.
- An evicted client that does read the overrun frame recovers what it missed if and only if the ring exceeds the queue by
  enough (`Splice.OverrunRecovery`, `Splice.OverrunRecoversOrNot`); with the default sizes, which are equal, never.
- The comment at harness/events.py:239-244 wants rejected envelopes to leave the ids contiguous. With publishers on
  several threads they do if and only if every rejection still finds the counter at its own id
  (`PublisherThreads.GapFreeExactly`, `PublisherThreads.TwoPublishersLeaveGap`).
- `WEBHOOK_MAX_CONCURRENT_DELIVERIES` bounds the delivery tasks if and only if no retry is registered at the cap
  (`Deliveries.CapHoldsExactly`); twice the cap always bounds them, and is reached (`Deliveries.TwiceTheCap`,
  `Deliveries.TwiceTheCapIsReached`).
- The comment at harness/webhooks.py:1348-1356 promises that a retry's bytes are always released. A task cancelled before
  its first step never enters the `try`. With no retry task left, nothing is reserved if and only if no task with a
  non-empty body was cancelled that way (`RetryLedger.NothingReservedExactly`, `RetryLedger.CancelledUnstartedLeaks`).
- The per-name sets of the continuation runner are never empty at any point of a run if and only if no event makes a
  continuation try to fire whose cap is not positive, whose name has no set, and which the global cap lets through
  (`Continuations.NoEmptySetsExactly`, `Continuations.NonPositiveCapLeavesEmptySet`). Only the environment default
  CONTINUATION_MAX_CONCURRENT_FIRES can be non-positive: a value in a file is raised to at least 1
  (harness/continuations.py:201).
- `try_send` dedups a kind that `send` uses too if and only if no release and no failing send clears the kind while
  another message of it is live (`Bus.DedupExactly`). A cancelled `send` does that
  (`Bus.CancelledSendBreaksDedup`), and so do two overlapping sends that both succeed
  (`Bus.OverlappingSendsBreakDedup`).
- The comment at harness/tasks.py:366-373 announces that the search goes on to tonight's opening; the code goes on to
  tomorrow, so it is exact if and only if it is not an eligible early morning before a midnight-spanning window's end
  (`Windows.ExactUnlessTonightSkipped`).
- `_inside_window` asks about today's eligibility even for the tail of yesterday's window, and knows only the time of day
  at which a window ends. It is exact if and only if no day is eligible, or the window is under a day long and no such
  morning differs from the day before (`Windows.InsideIsInOpenedWindow`, `Windows.InsideExactly`,
  `Windows.LongWindowMissed`).
- The comment at shared/conversations.py:72-75 describes an incremental tail read; the code re-reads the whole file on
  every change, and the model follows the code.
- A backend that lists each row once may be asked for its last rows only, for every limit of at least one and whatever
  its peers hold, if and only if its timestamps are strictly ascending (`Merge.SafeAmongAnyPeers`); for given answers,
  shared rows and ties outside one backend do no harm (`Merge.PushdownPreservesAnswer`). A tie with a row that a peer
  has too, a row listed twice and a limit of zero change the answer (`Merge.SharedTieBreaksPushdown`,
  `Merge.DuplicatesBreakPushdown`, `Merge.ZeroLimitReturnsNothing`).

## Model

| member | source | states |
|---|---|---|
| `Events.EvictionShape` | harness/events.py:165-321 | In every run of one subscription: while open, yielded ++ queued is everything published since it began; once evicted, it yields what it took while open, the full queue without its oldest event, one overrun, and nothing else; the sentinel never enters the queue |
| `Events.EvictedYields` | harness/events.py:178-192 | An evicted iterator yields once per resumption for every envelope left in its queue, in order, without blocking |
| `Events.EvictedIteratorEnds` | harness/events.py:188-190 | The resumption after those ends the iterator, so it ends within queue_max further pulls although the sentinel never fits |
| `Events.FlowOffer` | harness/events.py:261-321 | Fanning an event out to one subscriber, open, full or closed, keeps the subscription invariant |
| `Events.FlowPull` | harness/events.py:178-192 | Resuming the iterator keeps the invariant; it yields the oldest queued envelope and leaves the rest, and it blocks exactly on an empty queue (an evicted iterator past a yield ends instead) |
| `Events.OpenPull` | harness/events.py:178-192 | An open iterator with a non-empty queue yields its oldest envelope and leaves the rest; with an empty one, and only then, it blocks |
| `Events.OpenCatchesUp` | harness/events.py:178-192 | In every run, one resumption per queued envelope brings an open subscription up to everything published since it began |
| `Events.PublishValid` | harness/events.py:220-250 | On one loop a publish, valid or rejected, keeps the ids contiguous from 1 and the ring equal to the last ring_max events |
| `Events.SinglePublisherContiguous` | harness/events.py:239-250 | The same for any sequence of publishes by a single publisher; history only grows, by as many events as were valid |
| `Events.PublishesTheValid` | harness/events.py:208-259 | What such a sequence publishes is exactly the valid bodies, in order, under the next ids |
| `Events.ReplayIsSlice` | harness/events.py:325-344 | Replay from a numeric id is exactly the slice of the history after that id which the ring still holds |
| `Events.ReplayWithoutId` | harness/events.py:325-344 | Without a numeric id the last min(n, ring_max) events are replayed |
| `Splice.NeverFilters` | harness/main.py:2375-2414 | Neither the snapshot filter nor the delivered-ids dedup ever drops anything |
| `Splice.SpliceInEveryRun` | harness/main.py:2361-2418 | In every run the frames sent and in hand are the replay followed by what the subscription yielded, and with the queue they are all events since the replay began |
| `Splice.ExactlyOnce` | harness/main.py:2358-2435 | Over any number of reconnects in any interleaving, whatever the first Last-Event-ID: reception is a gap-free, duplicate-free stretch of the history after k0 (the first id, or without one the events before the first replay kept) if and only if no kept frame came from a reconnect behind the ring window or from an evicted queue |
| `Splice.ReconnectsLoseNothing` | harness/main.py:2358-2435 | A client that always returns within the ring window and is never hung up evicted receives exactly a gap-free stretch of the events after k0 |
| `Splice.ClientCatchesUp` | harness/main.py:2371-2418 | From every reachable state with an open connection, finitely many turns of the generator and of its pending task send everything since the replay began |
| `Splice.KeptFrames` | harness/main.py:2358-2435 | A client that keeps a prefix of what was sent has received that, and its cursor is the last id of it, if that is a number |
| `Splice.ReturningCatchesUp` | harness/main.py:2358-2435 | From every reachable state, a client that has missed nothing, returns within the ring window and stays that long has received all events after k0 up to the newest |
| `Splice.EvictionBreaksExactlyOnce` | harness/events.py:302-305 | A concrete run with a numeric cursor that loses an event for good |
| `Splice.EvictedResponse` | harness/main.py:2408-2410 | A response read to its end after eviction sent every event since its replay began except one discarded event and those from the triggering one on, then the overrun |
| `Splice.OverrunRecovery` | harness/events.py:289-336 | In every run: with trigger id N and latest id M at reconnect, replaying the ring recovers everything missed if and only if M - N <= ring_max - queue_max - 1 |
| `Splice.OverrunRecoversOrNot` | harness/events.py:289-336 | For every ring size such a run exists, with queues of two, and recovery there succeeds if and only if the ring holds three |
| `EventStreams.Subscriber.PutNowait` | harness/events.py:267-270 | put_nowait on the bounded queue |
| `EventStreams.EventStream.constructor` | harness/events.py:125-139 | Sizes are at least one; the stream starts empty |
| `EventStreams.EventStream.Subscribe` | harness/events.py:165-176 | Registers one fresh, empty subscriber |
| `EventStreams.EventStream.Publish` | harness/events.py:208-259 | Stream, every subscriber and the registry change exactly as the step functions say, including the rollback of a rejected id |
| `EventStreams.EventStream.Fanout` | harness/events.py:261-270 | Every registered subscriber is offered the envelope; exactly the evicted ones leave the registry |
| `EventStreams.EventStream.EvictSlow` | harness/events.py:272-321 | Drains one slot, puts the overrun, tries the sentinel, closes and deregisters |
| `EventStreams.EventStream.RemoveSubscriber` | harness/events.py:194-197 | The registry loses at most this subscriber |
| `EventStreams.EventStream.Resume` | harness/events.py:178-192 | One resumption of the iterator: it blocks exactly on an empty queue (unless closed after a yield), else yields the head and leaves the rest; ending it deregisters |
| `EventStreams.EventStream.Replay` | harness/events.py:325-344 | The loop over the ring returns the events after the cursor, or the whole ring |
| `EventStreams.EventsResponse.constructor` | harness/main.py:2368-2372 | Snapshot, subscribe and replay happen with nothing in between |
| `EventStreams.EventsResponse.Next` | harness/main.py:2371-2418 | One resumption of the generator: filter, replayed frame, dedup, live frame |
| `EventStreams.EventsResponse.Fetch` | harness/main.py:2394-2418 | One run of the task that awaits the subscription |
| `PublisherThreads.AppendedIdsUnique` | harness/events.py:220-250 | Under any interleaving of assign, reject-with-rollback and append by any number of publishers, no two appended envelopes share an id |
| `PublisherThreads.GapFreeExactly` | harness/events.py:239-248 | Under any interleaving the ids are free of gaps if and only if every rejection found the counter at its own id; with nobody publishing, all ids up to the counter are then appended |
| `PublisherThreads.StepKeepsNoGap` | harness/events.py:245-247 | One stage keeps the ids free of gaps if and only if it is not a rejection that finds the counter moved on |
| `PublisherThreads.RejectionLeavesGap` | harness/events.py:239-248 | The id of such a rejection is never appended, whatever follows |
| `PublisherThreads.TwoPublishersLeaveGap` | harness/events.py:220-248 | A run of two publishers that appends id 2 and loses id 1 |
| `Tracking.AddSound` | harness/webhooks.py:1739-1741 | Registering a task in both structures keeps the per-name sets a partition of the active set |
| `Tracking.RemoveSound` | harness/webhooks.py:1743-1752 | So does the done-callback, which leaves no empty per-name set |
| `Deliveries.PerNameSetsPartition` | harness/webhooks.py:1698-1754 | In every run the per-name sets are non-empty and partition the active set |
| `Deliveries.TwiceTheCap` | harness/webhooks.py:1676-1754 | In every run: active tasks plus completion deliveries that may still register a retry are at most twice the global cap |
| `Deliveries.TwiceTheCapPerName` | harness/webhooks.py:1679-1709 | The same per subscription name and its cap |
| `Deliveries.TwiceTheCapIsReached` | harness/webhooks.py:1416-1431 | For every cap there is a run with exactly twice the cap in flight |
| `Deliveries.CapHoldsExactly` | harness/webhooks.py:1689-1705 | The configured cap bounds the tasks throughout a run if and only if no retry is registered while that many are in flight |
| `Deliveries.StepWithinCap` | harness/webhooks.py:1703-1705 | The same for one step |
| `Deliveries.AdmittedExactly` | harness/webhooks.py:1672-1741 | From every state of a run, a completion or hook.decision delivery gets a task under its name if and only if fewer than its own cap are in flight under that name and fewer than the global cap at all; otherwise nothing changes |
| `Deliveries.RetryAlwaysRegistered` | harness/webhooks.py:1703-1717 | A delivery that may retry and calls for it always gets one more task, under its name |
| `Deliveries.DoneFreesRoom` | harness/webhooks.py:1743-1752 | A finished task leaves the active set and its name's set, and nothing else does |
| `Deliveries.AllAdmitted` | harness/webhooks.py:1801-1840 | With room for all of them, distinct names and each below its own cap, a fire call creates one task per matching subscription |
| `Deliveries.EachAdmitted` | harness/webhooks.py:1801-1840 | one of them under each of their names |
| `Deliveries.WebhookRunner.Register` | harness/webhooks.py:1739-1754 | A task enters both tracking structures |
| `Deliveries.WebhookRunner.Fire` | harness/webhooks.py:1672-1754 | The loop over matching subscriptions admits each one exactly when its own cap and then the global cap have room; with room for all, all of them |
| `Deliveries.WebhookRunner.OnRetryTask` | harness/webhooks.py:1703-1717 | A retry joins both structures with no cap check |
| `Deliveries.WebhookRunner.Cleanup` | harness/webhooks.py:1743-1752 | The done-callback |
| `RetryLedger.Conservation` | harness/webhooks.py:1301-1402 | In every run: the global counter is the sum of outstanding reservations and of the per-subscription counters, each of these the sum of its own; both stay within their caps; no clamp changes a value |
| `RetryLedger.GrantedExactly` | harness/webhooks.py:1301-1330 | In every reachable ledger a new reservation is granted if and only if it fits the budget with the sum of all outstanding grants, and the per-subscription ceiling, if there is one, with the sum of those of its own name |
| `RetryLedger.PeersDoNotStarve` | harness/webhooks.py:1301-1330 | A name with nothing outstanding is granted any body within its ceiling that the budget has room for, whatever its peers hold |
| `RetryLedger.ClampsNeverBite` | harness/webhooks.py:1395-1398 | A reservation is covered by both counters when it is released |
| `RetryLedger.ReserveInv` | harness/webhooks.py:1303-1330 | An admitted reservation keeps the ledger invariant |
| `RetryLedger.ReleaseInv` | harness/webhooks.py:1392-1402 | A release keeps it, dropping a per-subscription counter that reaches zero |
| `RetryLedger.NothingReservedExactly` | harness/webhooks.py:1347-1402 | In every run of retry tasks: with none scheduled or running, nothing is reserved if and only if no granted task with a non-empty body was cancelled before its first step; what is reserved is exactly those tasks' grants |
| `RetryLedger.CancelledUnstartedLeaks` | harness/webhooks.py:1416-1426 | The run that leaks: granted, then cancelled before the first step |
| `RetryLedger.LeakedGrantShrinksTheBudget` | harness/webhooks.py:1347-1358 | From a leak on, whatever follows, everybody else shares the budget less the lost grant |
| `RetryLedger.RetryBytes.Reserve` | harness/webhooks.py:1301-1330 | Grants exactly when the outstanding grants leave room under both ceilings |
| `RetryLedger.RetryBytes.Release` | harness/webhooks.py:1388-1402 | Undoes one reservation |
| `RetryChain.IterationsShape` | harness/webhooks.py:987-1060 | The iterations a chain runs are the outcomes in order, all but the last calling for another, fewer than allowed only if the last does not |
| `RetryChain.OneResultPerSurvivor` | harness/webhooks.py:982-1060 | Each iteration that survives its backoff records exactly one result, the one its outcome calls for |
| `RetryChain.TotalBackoff` | harness/webhooks.py:988-992 | Total backoff after n retries is 2^n - 1 up to n = 9, then 511 + 300(n - 9) |
| `RetryChain.DeliveryBounds` | harness/webhooks.py:1236-1277 | One delivery makes at most 1 + retries POSTs, and none after an answer below 400, or of 400 to 499 other than 408 and 429, however its first attempt ends, cancellation included |
| `RetryChain.RetryableExactly` | harness/webhooks.py:232-244 | A status is retried if and only if it is 408, 429 or 500 to 599 |
| `RetryChain.RecordedExactly` | harness/webhooks.py:998-1060 | What each outcome records and POSTs, and that the loop goes on exactly after an exception, 408, 429 or 5xx |
| `RetryChain.RetryFollows` | harness/webhooks.py:1270-1277 | A first attempt that raised or was answered 408, 429 or 5xx is followed by the first retry when retries are configured and the bytes are granted |
| `RetryChain.ChainGoesOn` | harness/webhooks.py:986-1060 | A retry that raised or was answered 408, 429 or 5xx is followed by the next while attempts are left |
| `RetryChain.NoPostAfterFailedRecheck` | harness/webhooks.py:1002-1009 | A failed URL re-check is the chain's last iteration and makes no POST |
| `RetryChain.Attempt` | harness/webhooks.py:998-1060 | One iteration: POSTs, recorded result, and the loop goes round after 408, 429, 5xx or an exception |
| `RetryChain.RetryDeliver` | harness/webhooks.py:952-1060 | The loop's POSTs, records and backoff are those of the specified iterations, which stop early only after an outcome that is no exception, 408, 429 or 5xx |
| `Continuations.FiresNeverExceedMatches` | harness/continuations.py:532-653 | In every run, for each session and each pattern of a registered continuation: every fire since registration has its own later match of that pattern, so fires never exceed matches |
| `Continuations.NotifyItemRecords` | harness/continuations.py:535-640 | The history the counts are read from records a match exactly per eligible item and a fire exactly per created task |
| `Continuations.TurnFiresExactly` | harness/continuations.py:532-640 | An item's turn creates its task and records a fire if and only if the item is enabled, a pattern matches, outcome and content filters pass, every pattern is matched by this kind or one seen since the last fire, and both caps have room |
| `Continuations.NotifyFiresExactly` | harness/continuations.py:532-653 | In every reachable state a notify adds one fire to a registered continuation if that holds at its turn, and none otherwise |
| `Continuations.FaninLifetime` | harness/continuations.py:433-462 | An entry that has seen d kinds is evicted by the first notify later than created + d TTLs (plus d - 1 lags between the clock readings of one notify), however often old kinds repeat |
| `Continuations.EvictedExactly` | harness/continuations.py:433-462 | An entry goes if and only if the TTL is on and the entry was last refreshed before it; one refreshed within it stays as it is |
| `Continuations.RefreshedExactly` | harness/continuations.py:561-640 | An eligible event refreshes the timestamp exactly when its kind is new to the entry; a fire drops the entry; other keys keep theirs |
| `Continuations.RecordLife` | harness/continuations.py:562-577 | Recording a kind keeps timestamp <= created + (seen - 1)(TTL + lag) |
| `Continuations.FiresWithinCaps` | harness/continuations.py:597-653 | In every run the fires in flight respect a positive global cap and each name's cap, and the per-name sets partition them |
| `Continuations.NoEmptySetsExactly` | harness/continuations.py:597-651 | In a run no per-name set is empty at any point, also between the items of one notify, if and only if no event makes an item try to fire with a cap that is not positive, no set for its name, and the global cap not reached |
| `Continuations.NoEmptySetsInRuns` | harness/continuations.py:618-651 | In every run whose registered caps are positive no per-name set is ever left empty |
| `Continuations.NonPositiveCapLeavesEmptySet` | harness/continuations.py:618-629 | A run of one registration and one event that leaves an empty set |
| `Continuations.EmptySetsExactly` | harness/continuations.py:618-629 | A fire attempt leaves an empty per-name set behind if and only if the item's cap is not positive, its name has no set, and the global cap has room |
| `Continuations.HeldFiresExactlyWithRoom` | harness/continuations.py:580-640 | A complete fan-in fires on the next eligible event of its session if and only if both caps have room; otherwise it is held |
| `Continuations.ShedIsNotLost` | harness/continuations.py:611-629 | From any reachable state, over any run without eviction of the entry or re-registration of its path, a complete fan-in is still held or has fired |
| `Continuations.ShedFiresWithRoom` | harness/continuations.py:532-640 | From any reachable state that holds a complete fan-in, over any run that spares it, a notify whose event is eligible and which finds room under both caps at its turn leaves it fired at least once more |
| `Continuations.UnregisteredInv` | harness/continuations.py:421-429 | Unregistering removes exactly the item and the fan-in entries of that path and keeps the invariants |
| `Continuations.RegisteredExactly` | harness/continuations.py:398-429 | Registering replaces what was registered for the path and nothing else |
| `Continuations.DoneFreesRoom` | harness/continuations.py:642-651 | A finished fire leaves the active set and its name's set, and nothing else does |
| `Continuations.ContinuationRunner.Throttle` | harness/continuations.py:597-640 | Global cap, then setdefault, then the item's cap; it fires exactly when both have room |
| `Continuations.ContinuationRunner.Fire` | harness/continuations.py:636-640 | Creates the task, clears a fan-in entry, joins both tracking structures |
| `Continuations.ContinuationRunner.Accumulate` | harness/continuations.py:561-577 | Only a kind that is new to the entry refreshes its timestamp |
| `Continuations.ContinuationRunner.NotifyOne` | harness/continuations.py:532-653 | One item's filters, fan-in and throttles |
| `Continuations.ContinuationRunner.Notify` | harness/continuations.py:513-653 | Evict, then every registered item in order |
| `Continuations.ContinuationRunner.EvictStale` | harness/continuations.py:433-462 | Removes exactly the entries older than the TTL |
| `Continuations.ContinuationRunner.UnregisterPath` | harness/continuations.py:421-429 | Drops the item and its path's fan-in state |
| `Continuations.ContinuationRunner.RegisterItem` | harness/continuations.py:398-411 | Re-registration drops fan-in state first |
| `Continuations.ContinuationRunner.Cleanup` | harness/continuations.py:642-651 | The done-callback |
| `Bus.PendingIsLive` | harness/bus.py:117-217 | In every interleaving a pending kind has a message waiting, queued or processing, and the worker receives exactly what was enqueued, in order |
| `Bus.TrySendIsExclusive` | harness/bus.py:163-188 | A kind only ever sent by try_send is pending exactly when one message is live, and there are never two |
| `Bus.StepLive` | harness/bus.py:135-217 | What each step does to the number of live messages of a kind |
| `Bus.DedupExactly` | harness/bus.py:155-217 | For a kind sent either way: it is pending exactly while a message of it is live, throughout a run, if and only if no release and no failing send clears it while another of its messages is live |
| `Bus.StepKeepsFaithful` | harness/bus.py:155-217 | The same for one step |
| `Bus.FaithfulDedups` | harness/bus.py:165-188 | While that holds, try_send enqueues exactly when no message of the kind is live and the queue has room; once it does not, it enqueues a second live one |
| `Bus.CancelledSendBreaksDedup` | harness/bus.py:155-161 | A run in which a cancelled send lets try_send enqueue a second message of a queued kind |
| `Bus.OverlappingSendsBreakDedup` | harness/main.py:821 | A run in which two sends overlap, nothing fails, and try_send enqueues a second message of a queued kind |
| `Bus.WorkerClearsPending` | harness/main.py:796-821 | From any reachable state the worker's steps alone leave pending only kinds a send is still waiting to enqueue |
| `Bus.BoundedQueue` | harness/bus.py:117-188 | In every run a queue with a positive maxsize holds at most that many; a put and a try_send of a kind that is not pending go through exactly when there are fewer, or maxsize is not positive |
| `Bus.MessageBus.SendBegin` | harness/bus.py:129-138 | send marks its kind pending, unconditionally |
| `Bus.MessageBus.SendPut` | harness/bus.py:139-154 | The put succeeds exactly when the queue has room |
| `Bus.MessageBus.SendCleanup` | harness/bus.py:155-161 | Timeout, cancellation and failure all clear the kind |
| `Bus.MessageBus.TrySendMessage` | harness/bus.py:163-188 | Skips a pending kind, backs out of a full queue, else enqueues |
| `Bus.MessageBus.ReceiveMessage` | harness/bus.py:190-203 | Takes the oldest message and leaves its kind pending |
| `Bus.MessageBus.ReleasePending` | harness/bus.py:205-217 | Clears the kind after processing |
| `Sessions.TrackedIsRecent` | harness/executor.py:204-225 | After any trace the map is exactly the last min(MAX_SESSIONS, distinct) sessions in order of last use, each with its last use |
| `Sessions.LastUsesUnique` | harness/executor.py:204-225 | The reference lists every session used exactly once |
| `Sessions.LastUsesAt` | harness/executor.py:204-225 | namely, in the order of the trace, the uses that no later use of the same session follows |
| `Sessions.SmallerIsSuffix` | harness/executor.py:209-210 | A smaller map is a suffix of a larger one fed the same trace |
| `Sessions.NonPositiveBoundRaises` | harness/executor.py:209-210 | popitem raises exactly when the bound is not positive and the map is empty |
| `Sessions.SessionMap.TrackSession` | harness/executor.py:204-225 | The in-place update is the specified one |
| `Merge.SortIsStable` | harness/conversations_proxy.py:190-192 | The sort is ascending and keeps the order of equal timestamps |
| `Merge.StableSortUnique` | harness/conversations_proxy.py:190-192 | That determines the result, whatever the sorting algorithm |
| `Merge.MergedExactly` | harness/conversations_proxy.py:344-367 | The merged answer is the stable sort of the first row of each timestamp and id, in backend order; with a positive limit the last rows of it |
| `Merge.PushdownPreservesAnswer` | harness/conversations_proxy.py:125-192 | For limit >= 1 and backends that list their rows in order and once each, with rows that tie within a backend its own: pushing the limit down does not change the answer, rows shared between backends and ties between them included |
| `Merge.SafeAmongAnyPeers` | harness/conversations_proxy.py:125-192 | For a backend that lists each row once: cutting its list to its last n rows changes the merged top n for no n >= 1 and no rows of its peers if and only if its timestamps are strictly ascending |
| `Merge.DistinctIsOrderly` | harness/conversations_proxy.py:176-188 | Sorted lists in which no key repeats are such backends, whatever their ties |
| `Merge.SharedTieBreaksPushdown` | harness/conversations_proxy.py:125-192 | A row shared between backends and tied within one makes the pushed-down answer another one |
| `Merge.DuplicatesBreakPushdown` | harness/conversations_proxy.py:125-192 | A backend that repeats its last row makes the pushed-down answer lose one |
| `Merge.ZeroLimitReturnsNothing` | harness/conversations_proxy.py:191-192 | With limit 0 the pushed-down answer is empty and the slice alone would cut nothing |
| `Merge.AddEntries` | harness/conversations_proxy.py:353-362 | The inner loop keeps first occurrences by key |
| `Merge.MergeBackends` | harness/conversations_proxy.py:344-367 | Deduplicate across answers in order, sort, slice; unreachable backends are skipped |
| `Text.StripOf` | harness/tracing.py:107 | Stripping finds the trimmed core whatever the padding |
| `Jsonl.TornReadSafe` | shared/conversations.py:128-151 | Reading any prefix of a log of newline-terminated records gives exactly the records whose newline is there |
| `Jsonl.PrefixReadsCompleteLines` | shared/conversations.py:128-151 | The same for arbitrary lines: malformed, blank and torn ones never spoil their neighbours |
| `Jsonl.LineContributes` | shared/conversations.py:137-148 | A padded line adds its record, a blank or malformed one nothing |
| `Jsonl.TornTailRetried` | shared/conversations.py:119-151 | A torn line is neither used nor lost: later growth reads on from the safe offset |
| `Jsonl.EarlierReadIsPrefix` | shared/conversations.py:119-151 | An earlier read is a prefix of a later one |
| `Jsonl.SafeOffsetIsLastNewline` | shared/conversations.py:127-151 | The safe offset is just after the last newline |
| `Jsonl.CapSound` | shared/conversations.py:151-170 | For every cap, filter and limit the capped answer is a suffix of the uncapped one, and equal to it exactly when enough was kept or nothing relevant was cut |
| `Jsonl.AnswersExactly` | shared/conversations.py:158-170 | The answer is, in order, exactly the entries stamped at or after `since` (all without one), with a limit n the last n of those; a negative limit raises |
| `Jsonl.AnswersAreCurrent` | shared/conversations.py:96-155 | After any calls an answer comes from the capped entries of the file as it is now, or is empty because the file is gone |
| `Jsonl.CacheIsTransparent` | shared/conversations.py:100-109 | No history of calls changes an answer |
| `Jsonl.UnchangedIsNotRead` | shared/conversations.py:96-105 | Polling a file whose stat key has not changed gives the same entries without opening it |
| `Jsonl.CachedAnswerIsSuffix` | shared/conversations.py:96-170 | Every cached, capped, filtered, limited answer is a suffix of the uncached, uncapped, unlimited one; only a negative limit raises |
| `Jsonl.Readline` | shared/conversations.py:129-149 | readline and the tell after it: a line without a newline is the torn tail, any other ends at the next newline |
| `Jsonl.ParseLine` | shared/conversations.py:137-148 | A complete line adds its record, or nothing when it is blank or malformed |
| `Jsonl.ReadLines` | shared/conversations.py:127-149 | The read loop returns the entries of the complete lines and the safe offset |
| `Jsonl.FilterAndLimit` | shared/conversations.py:158-170 | The loop into a bounded deque keeps the last entries that pass the filter |
| `Jsonl.TailCache.ReadJsonl` | shared/conversations.py:84-155 | Serve from the cache on an unchanged stat key, else re-read, trim and store |
| `Windows.NextWindowOpen` | harness/tasks.py:353-399 | The search loop computes the specified search |
| `Windows.SearchFinds` | harness/tasks.py:389-399 | It finds the first eligible date of its range, or none if there is none |
| `Windows.NextOpenShape` | harness/tasks.py:380-399 | The iteration limit never hides an eligible day up to the item's end, or among the first 3660 dates looked at without one |
| `Windows.FoundWithinTenYears` | harness/tasks.py:388-399 | A matching day after `after` is found up to the end date, or without one within 3659 days; with no matching day in 3660 there is no result |
| `Windows.ExactUnlessTonightSkipped` | harness/tasks.py:353-399 | The result is the least eligible opening strictly after `after`, and None exactly when there is none in range, if and only if it is not an eligible early morning before a midnight-spanning window's end |
| `Windows.ExactFromOpening` | harness/tasks.py:376-378 | From an opening the search is exact and moves to a later date |
| `Windows.VisitsInOrder` | harness/tasks.py:353-399 | Repeated searches visit openings in strictly increasing order |
| `Windows.VisitsEveryOpening` | harness/tasks.py:353-399 | and miss none up to the last visited |
| `Windows.InsideIsInOpenedWindow` | harness/tasks.py:402-422 | For a window under a day long, `_inside_window` is membership in a window of its duration opened on an eligible day, if and only if it is not a tail morning on which today's and yesterday's eligibility differ |
| `Windows.InsideExactly` | harness/tasks.py:247-250 | For every duration: it is that at every instant if and only if no day is eligible, or the window is under a day and there is no such morning |
| `Windows.LongWindowMissed` | harness/tasks.py:247-250 | For a duration of a day or more and any eligible day, an instant inside the window at which it says no |
| `Windows.InsideMovesOn` | harness/tasks.py:374-378 | From inside a window the next opening is on a later date |
| `Windows.OpenAtOpening` | harness/tasks.py:413-421 | At the opening found a window is open unless its end equals its start, and such a window never is |
| `Traceparent.RoundTrip` | harness/tracing.py:69-124 | Parsing the header of a valid context gives that context |
| `Traceparent.ParsesBack` | harness/tracing.py:104-124 | Also with padding and further comma-separated values |
| `Traceparent.PrintsBack` | harness/tracing.py:69-124 | Printing what was parsed gives the trimmed first value, and what was parsed is valid |
| `Traceparent.ParsesExactly` | harness/tracing.py:42-124 | Parsing gives a context if and only if that context is valid and its header is the trimmed first value |
| `Traceparent.RejectsExactly` | harness/tracing.py:101-119 | None is returned if and only if there is no header or no valid context prints as its first value |
| `Traceparent.HeaderInjective` | harness/tracing.py:69-71 | Different valid contexts have different headers |
| `Traceparent.LowerHexExactly` | harness/tracing.py:42-44 | The accepted digits are those of 0123456789abcdef |
| `Traceparent.ChildReachesNextHop` | harness/tracing.py:73-80 | The next hop reads back the same trace with the new span |

## Left out

- HTTP, authentication, URL checks, templates, HMAC, YAML parsing, file watching, metrics, logging and tracing spans: foreign calls or observability. A POST, a URL check, the envelope validator and a JSON parse are arbitrary outcomes or parameters.
- `fnmatch`, substring search, `croniter`, `json.loads` and timestamp parsing: arbitrary functions passed in.
- SSE text and keepalive frames: no state of the protocol depends on them.
- Envelope timestamps and payloads: carried as an opaque body.
- Order of the ring under several publishing threads: only ids are modelled there; `Splice` assumes publishes on one loop.
- Process restarts, which reset the id counter, and clients that present an id above the current one.
- Splice.SpliceInEveryRun: says nothing about a cancelled `__anext__` task during the handler's shutdown, where an envelope in hand is dropped with the connection.
- Splice.OverrunRecovery: is about a response read to its end; a client that hangs up earlier is covered by `Splice.ExactlyOnce`.
- RetryLedger.Conservation: with the budget switched on; switched off, no counter is touched. `RetryLedger.NothingReservedExactly` says which reservations stay outstanding.
- Deliveries.TwiceTheCapPerName: for a name whose cap does not rise between reloads; a reload is an admission with other numbers.
- Hot reload of the webhook registry, `close` and draining: they change which subscriptions are offered, not the counts.
- The prompt a continuation fires, its delay and its bus traffic.
- Bus.PendingIsLive: the put of a `send` that is cancelled in the same loop turn in which it completes is one atomic step here.
- Merge.PushdownPreservesAnswer: for the conversations and trace merges; the tool-audit merge has the same shape with other keys. Backends are taken to answer with the last `limit` rows they hold. For given answers its condition is sufficient; `Merge.SafeAmongAnyPeers` is exact for peers unknown.
- Text encoding: a file is a sequence of characters, so a read that ends inside a multi-byte character is not modelled, nor is universal newline translation.
- Jsonl.CacheIsTransparent: assumes that a path and its stat key determine the content, also between the stat and the open of one call.
- The seek branch of `_read_jsonl`: unreachable, because line 109 clears the cached entry.
- Time zones and DST in the window search: `after` is given in local wall time. Dates past the year 9999 do not overflow.
- Windows.InsideIsInOpenedWindow: for durations under a day; `Windows.InsideExactly` says what remains of it for longer ones.
- Loop mode, checkpoints and the semaphore of `run_task`.
- Random span ids: any non-zero lower-case hex string.
