# Recruitment platform: delivery, upload, canonical form and decision guarantees

This Dafny project models the parts of the platform on which its promises rest, and proves those promises for every
input, run or interleaving. `dafny verify dfyconfig.toml` checks all of it.

| area | files | what is proved |
|---|---|---|
| Transactional outbox | `OutboxTable`, `OutboxProtocol`, `OutboxSafety`, `OutboxOrder`, `OutboxRelay`, `OutboxRefinement`, `OutboxCalls`, `OutboxProgress`, `OutboxCommitOrder`, `OutboxCounterexamples` | at-least-once delivery, staging order, commit order, progress of the relay |
| Kafka consumer | `DeadLetterPolicy`, `KafkaConsumer`, `KafkaConsumerLaws`, `KafkaPartition` | an offset is passed only if its message was handled, parked or empty; retry arithmetic |
| Re-drive of parked events | `Redrive`, `RedriveLedger`, `RedriveStreaks`, `RedriveBudget`, `RedriveRuns` | agreement of schedule and decision, the exact number of re-drives of an event, when the breaker trips, settled letters stay settled |
| Multipart upload | `Scanning`, `Utf8`, `MultipartHeaders`, `MultipartReading`, `MultipartBoundary`, `MultipartParser`, `MultipartGrammar`, `MultipartFraming`, `MultipartNames`, `MultipartBuilder`, `MultipartRoundTrip`, `MultipartExact` | which bodies parse and to what; truncation is always detected; build then parse is the identity, with its exact conditions |
| Canonical campaign JSON | `JsonText`, `CanonicalJson`, `CanonicalJsonLaws`, `CanonicalText`, `CanonicalSerializer`, `Coverage` | the text is faithful, order-blind and of the stated shape; one coverage text per set of sessions |
| Campaign policy v2 | `PolicyV2`, `PolicyV2Laws`, `PolicyV2Order`, `PolicyV2Authored`, `PolicyV2Ages` | which blocks are accepted; normalisation is a canonical form; the age rules over it |
| Identity matching | `NameMatching`, `IdentityBinding` | the one-edit test is exact; what EXACT, PARTIAL and BOUND mean |
| SMS cost guards | `SmsGuards`, `SmsSending` | the sliding window refines the full history; the daily cap under concurrency is exact |
| Cookies | `Cookies`, `CookieText` | header round trip, what any header puts into the jar, no smuggled attributes |
| Shared | `Wrappers`, `Sorting` | results and errors; sorting by a comparator |

## How the model is built

Code that computes a value by expressions and recursion is a function. Code that works by loops, updated variables or
object fields is a method or a class with those fields, and every such method is proved against a specification: its
result or new state is a function of the inputs or the old state, about which the laws are then proved, or the contract
says the property outright. Behaviour of the outside world (answers of a
transport, database faults, heartbeats, responses of a provider, readings of a clock) enters as parameters, so each
claim holds for all of it.

Concurrent protocols are transition systems. `Can` says when a step is possible, `Do` what it does, `Run` strings steps
together, and a safety result is about the state after any run. The outbox has one step per statement or publish of
each party: callers' transactions, dispatchers, relays with their lock and their lost connections, and the purge. The
methods of the dispatcher, the relay and the purge are tied to it: each call is shown to be a run of the protocol. The
re-drive ledger has one step per transaction of each intake and each worker, any number of them at work at once; the
daily SMS cap one per check and record, to which the methods of the cap and the channel are tied in the same way.

## Where the code is weaker than its comments

- `packages/shared-database/src/outbox.ts` line 18, "relayed order is commit order". A relay takes rows by id, and only
  those whose transaction started long enough ago; neither is the order of commits. In `CommitOrderIsNotRelayOrder` the
  row committed later is published first because its id is smaller, in `IdOrderIsNotRelayOrder` the row with the larger
  id because its transaction started earlier. `RelayedInCommitOrderExactly`: of two waiting rows of one producer, the one
  committed first is published first in every later run if and only if it has the smaller id and its transaction did not
  start later (the runs choose grace and batch size drain by drain, and dispatchers do not reverse the two). A dispatcher
  owes earlier transactions nothing (`DispatcherOvertakes`). Rows of one transaction always qualify.
- `packages/shared-database/src/outbox.ts` line 267, "keep the pipeline moving". A quarantined row stays pending and
  keeps its place in the batch. `PublishedIffFewInvalidAhead` gives the exact condition for a valid row to be reached,
  `DrainsClearExactly` the one for a backlog to be cleared.
- Staging order can be lost when an event is staged again after its purge: the unique constraint only covers rows still
  in the table. `RestagedOutOfOrder` is such a run, and `OrderKeptExactly` says when order is kept: if and only if the
  events of the batch that were committed before are a prefix of it, which is trivially so for fresh events.
- `packages/shared-events/src/kafka-bus.ts` line 18, "never dropped". A message without a value is passed without being
  handled or parked; `NeverDroppedIffNoneEmpty` says that this is the only exception.
- `packages/shared-events/src/redrive.ts` line 200, "inheriting it is what stops" the loop. A letter inherits attempts at
  the moment its event's earlier ones are looked up, so letters of one event that are open at once each get a schedule of
  their own. `RedrivenExactly`: with at most `k` letters of an event open at once, the numbers of publishes and of lost
  records that occur are exactly those with at most `k` schedules of publishes more than lost records, for every policy;
  so the promised cap holds if and only if no letter is registered while another of its event is open
  (`CappedIffOneAtATime`). A publish whose record a crash or a fault loses costs no attempt.
- `services/event-redrive-service/src/adapters/redrive-ledger.pg.ts` lines 7-10, two workers "never claim the same letter".
  The rows are locked until the claim's own transaction ends, not until the letter is dealt with: a row stays due while a
  worker replays it. `OverlappingClaimsUnbounded`: under any policy one letter is published any number of times, each
  time with a record and without a crash, if that many workers claim it before the first settles it. What keeps them
  apart is the leader's advisory lock alone; `RedrivenWithinWidth` and `RedrivenWithinLetters` are the caps that hold
  while no two workers hold the same letter.
- `services/event-redrive-service/src/ports/redrive-ledger.ts` lines 10-11, on a success "the group's consecutive-failure
  counter RESETS". The statement resets the row it settles and no other. `SuccessResetsExactly`: after a recorded success
  the streaks of its group and topic are at zero if and only if those of the other letters were zero already;
  `StreakOutlivesSuccess` is a ledger in which they were not. So the breaker counts failures in all, not in a row:
  `BreakerTripsExactly`.
- `packages/shared-http/src/multipart.ts` line 293 leaves names and values to the caller beyond a few refusals. A
  backslash or a character outside ASCII in a name is not read back, a name may hide a `filename` parameter and turn a
  field into a file, and a value that starts with the boundary line is read as empty. `RoundTrip` has the exact condition
  for everything the builder accepts, `FramedRoundTrip` for any boundary.

## Model

| member | source | states |
|---|---|---|
| `OutboxTable.BacklogAnswersQuery` | packages/shared-database/src/outbox.ts:252-261 | Sorting the eligible rows by id and cutting at the batch size answers the relay's SELECT: within the limit, in id order, and whatever is left out has a larger id than everything taken. |
| `OutboxTable.UpdateAllKeepsRecords` | packages/shared-database/src/rls/0020_event_outbox.sql:58-67 | Delivery edits never change id, event, producer, payload or creation time; a row becomes stamped only through a stamping change of its own id, and no stamp is taken back. |
| `OutboxSafety.KeepsParties` | packages/shared-database/src/outbox.ts:118-145 | Every step keeps what dispatchers and relays know: all they are done with reached the transport, and a relay plans to stamp only what it published; one live relay per producer. |
| `OutboxSafety.KeepsRows` | packages/shared-database/src/outbox.ts:91-100 | Every step keeps the table sound: rows once each, one row per event, and a stamp only on an event that reached the transport. |
| `OutboxSafety.KeepsStaging` | packages/shared-database/src/outbox.ts:77-89 | Every step keeps open transactions apart: their rows are uncommitted, in id order, created at the transaction's start, and no id is in two of them. |
| `OutboxSafety.KeepsEverything` | packages/shared-database/src/outbox.ts:309-327 | No step loses an event: after stamps, relay commits, rollbacks and purges, a committed event is still pending or was published. |
| `OutboxSafety.KeepsInvention` | packages/shared-database/src/outbox.ts:118-145 | No step publishes an event that was not committed. |
| `OutboxSafety.EveryRunSound` | packages/shared-database/src/outbox.ts:77-327 | All of these hold after every run, and ids, commits and publishes are never taken back. |
| `OutboxSafety.AtLeastOnce` | packages/shared-database/src/outbox.ts:30-34 | Over every run from an empty outbox: each committed event is pending or published, a stamped row was published, a row that is gone was published, and nothing uncommitted ever was. |
| `OutboxOrder.SelectionFollows` | packages/shared-database/src/outbox.ts:252-261 | If a relay's selection holds a row of a batch, it holds each unpublished earlier row of that batch, in front of it. |
| `OutboxOrder.NextInOrder` | packages/shared-database/src/outbox.ts:118-145 | Whatever a step sends, the events staged before it in its batch are already out. |
| `OutboxOrder.StepOrdered` | packages/shared-database/src/outbox.ts:118-307 | Every step keeps the published part of a batch closed under predecessors, and all queues and dispatch lists in staging order. |
| `OutboxOrder.CommittedBatch` | packages/shared-database/src/outbox.ts:77-89 | The rows one call staged are, once committed, a batch: ids increase and creation times do not decrease. |
| `OutboxOrder.CommitOrdered` | packages/shared-database/src/outbox.ts:77-89 | Right after a commit, a batch whose later rows it committed is in order everywhere if what is published of it is: whoever still holds one of these events holds one that was published in an earlier life. |
| `OutboxOrder.PublishedIsRestaged` | packages/shared-database/src/outbox.ts:77-307 | At its commit, exactly the events of a batch that were committed before are published. |
| `OutboxOrder.PublishedIsPrefix` | packages/shared-database/src/outbox.ts:77-307 | From the commit of a fresh batch on, in every state of every run in which dispatchers name its events in staging order, the published events of the batch are a prefix of it. |
| `OutboxOrder.OrderKeptExactly` | packages/shared-database/src/outbox.ts:77-307 | For every commit and every batch of it, restaged events included: published in staging order in every state of every later run if and only if the events committed before are a prefix of the batch. |
| `OutboxCounterexamples.RestagedOutOfOrder` | packages/shared-database/src/rls/0020_event_outbox.sql:34-45 | A run in which an event staged again after its purge is out while its predecessor in the new batch is not. |
| `OutboxCommitOrder.RelayedInCommitOrderExactly` | packages/shared-database/src/outbox.ts:15-21 | Of two waiting rows of one producer, the one committed first is published first in every later run, dispatchers not reversing them, if and only if it has the smaller id and its transaction did not start later. |
| `OutboxCommitOrder.DispatcherOvertakes` | packages/shared-database/src/outbox.ts:118-145 | From every state, a dispatcher can publish its committed event while any other unpublished one still waits. |
| `OutboxCounterexamples.CommitOrderIsNotRelayOrder` | packages/shared-database/src/outbox.ts:15-21 | A run of two interleaved transactions in which B commits before A and one drain publishes A before B. |
| `OutboxCounterexamples.IdOrderIsNotRelayOrder` | packages/shared-database/src/outbox.ts:252-261 | A run in which A has the smaller id and commits first, and one drain publishes B and not A. |
| `OutboxRelay.Dispatch` | packages/shared-database/src/outbox.ts:118-145 | Publishes and stamps in order and stops at the first refusal; an event whose stamp fails stays pending and the loop goes on. |
| `OutboxRelay.Relay.DrainOnce` | packages/shared-database/src/outbox.ts:242-307 | Without the lock nothing happens. With it, the table, the transport and the result are those of working through the queue up to the first refusal; with a database fault the table is as before, and what was published stays published. |
| `OutboxRelay.Relay.PurgeIfDue` | packages/shared-database/src/outbox.ts:309-327 | At most once an hour, deletes the rows the query picks, and remembers when. |
| `OutboxRelay.DoomedAnswersQuery` | packages/shared-database/src/outbox.ts:309-327 | What the purge picks are expired rows of the producer, at most 5,000 and in id order, and an expired row is passed over only if the batch is full of smaller ids. |
| `OutboxCalls.DispatchMeans` | packages/shared-database/src/outbox.ts:118-145 | Up to the first refusal everything arrives in order; a row comes out stamped if and only if it was or its event was delivered with a stamp that succeeded, at the clock of the first such; every other row is as it was. |
| `OutboxCalls.DrainMeans` | packages/shared-database/src/outbox.ts:242-307 | Which rows a drain takes, where it stops and what becomes of each row, said of rows, answers and clocks alone. |
| `OutboxCalls.PurgeMeans` | packages/shared-database/src/outbox.ts:309-327 | A purge takes away the expired stamped rows of the producer, 5,000 of the smallest ids at most, and no other. |
| `OutboxRefinement.DrainSendsInQueueOrder` | packages/shared-database/src/outbox.ts:263-303 | A drain has sent exactly the valid rows of the part of its queue it got through, in queue order; `published` counts them; only the refused last one may be missing. |
| `OutboxRefinement.DrainMarksRows` | packages/shared-database/src/outbox.ts:263-303 | Row by row: stamped if and only if valid and acknowledged; an invalid or refused one keeps a note of why; blocked if and only if a valid row was refused. |
| `OutboxRefinement.DrainIsRun` | packages/shared-database/src/outbox.ts:242-307 | A drain that meets no database fault is a run of the protocol with that very outcome. |
| `OutboxRefinement.FailedDrainIsRun` | packages/shared-database/src/outbox.ts:242-307 | A drain the database fails at any statement is a run that leaves the table alone and keeps what was published. |
| `OutboxRefinement.DispatchIsRun` | packages/shared-database/src/outbox.ts:118-145 | A dispatch of durable events whose rows no live relay holds, the clock moving on during it, is a run of the protocol with that very outcome. |
| `OutboxRefinement.PurgeIsStep` | packages/shared-database/src/outbox.ts:309-327 | What the purge deletes is a possible step: stamped rows of the producer past retention, all of them published. |
| `OutboxProgress.DrainPublishesReached` | packages/shared-database/src/outbox.ts:252-306 | With a working transport a drain stamps exactly the valid rows of its queue; every other pending row stays pending. |
| `OutboxProgress.QueuedIffFewAhead` | packages/shared-database/src/outbox.ts:252-261 | An eligible row is selected if and only if fewer eligible rows than the batch has places have a smaller id. |
| `OutboxProgress.AheadAfterDrain` | packages/shared-database/src/outbox.ts:264-276 | A drain leaves the invalid rows in front of a row as they are, and takes away the valid ones it reached. |
| `OutboxProgress.EachDrainPublishes` | packages/shared-database/src/outbox.ts:252-306 | While a valid row waits behind fewer invalid rows than the batch has places, each drain publishes something and brings it closer. |
| `OutboxProgress.PublishedIffFewInvalidAhead` | packages/shared-database/src/outbox.ts:264-276 | Repeated drains publish a valid row if fewer invalid eligible rows than the batch has places come before it, within one drain more than there are valid rows before it; otherwise they never do. |
| `OutboxProgress.PublishedWhileRowsArrive` | packages/shared-database/src/outbox.ts:252-306 | With a clock that moves on and rows that arrive behind it, a valid row past its grace is published after one drain more than valid rows wait before it if fewer invalid ones than the batch has places precede it at the last drain, and never if that many do at the first. |
| `OutboxProgress.DrainsClearExactly` | packages/shared-database/src/outbox.ts:264-276 | Enough drains clear every valid eligible row if and only if none waits behind a full batch of invalid ones. |
| `DeadLetterPolicy.ResolvedIsUsable` | packages/shared-events/src/dead-letter.ts:89-101 | Exactly these overrides are accepted: a whole number of at least one attempt, 0 <= base <= cap, and a topic that is not blank; what they leave open is 6 attempts, 500 ms and 15 s. |
| `DeadLetterPolicy.BackoffDoubles` | packages/shared-events/src/dead-letter.ts:103-106 | The first delay is the base, each later one twice the one before until the cap, and from then on the cap. |
| `DeadLetterPolicy.TotalBackoffBounded` | packages/shared-events/src/dead-letter.ts:103-106 | The delays between n attempts add up to at most base * (2^(n-1) - 1), and to exactly that if and only if the last of them is within the cap. |
| `DeadLetterPolicy.SlicesCoverDelay` | packages/shared-events/src/kafka-bus.ts:322-331 | The slices of a sleep add up to the delay; all but the last are 3000 ms, and the last is positive and no longer. |
| `KafkaConsumer.KafkaEventBus.Connect` | packages/shared-events/src/kafka-bus.ts:100-113 | Connects once; afterwards connected exactly if it returned. |
| `KafkaConsumer.KafkaEventBus.DeadLetter` | packages/shared-events/src/kafka-bus.ts:253-319 | Connect, write, and only then tell the observer; a failed connection or write throws, an observer's failure does not. |
| `KafkaConsumer.KafkaEventBus.SleepWithHeartbeat` | packages/shared-events/src/kafka-bus.ts:322-331 | The loop over the remaining time is the sliced sleep, one heartbeat after each slice, cut short by a failing one. |
| `KafkaConsumer.KafkaEventBus.HandleWithRetry` | packages/shared-events/src/kafka-bus.ts:205-246 | The unbounded attempt loop ends, and does what the specification of the retries says. |
| `KafkaConsumer.KafkaEventBus.EachMessage` | packages/shared-events/src/kafka-bus.ts:153-183 | The body of eachMessage, with its null value, its undecodable bytes and its retries. |
| `KafkaConsumerLaws.SleepIsSliced` | packages/shared-events/src/kafka-bus.ts:322-331 | A sleep returns if and only if all its heartbeats succeeded; what was slept is the slices of the delay or a beginning of them. |
| `KafkaConsumerLaws.RetryStops` | packages/shared-events/src/kafka-bus.ts:205-246 | The loop stops at one attempt: all before it failed in a way worth retrying, and that one succeeded, was given up with the right letter, or was followed by a failed heartbeat. |
| `KafkaConsumerLaws.RetrySleeps` | packages/shared-events/src/kafka-bus.ts:205-246 | It sleeps at most the delays before its last allowed attempt, and exactly the delays between the attempts it made unless a heartbeat cut it short. |
| `KafkaConsumerLaws.PassedOnlyWhenSettled` | packages/shared-events/src/kafka-bus.ts:153-188 | eachMessage returns only if there was nothing to handle, the handler succeeded, or the letter is on the dead-letter topic; the observer is told only after that. |
| `KafkaConsumerLaws.ObserverIsTold` | packages/shared-events/src/kafka-bus.ts:292-318 | What the observer is shown grows, by exactly the letter just written, if and only if the message has a value and decodes, the write was acknowledged and there is an observer; in every other case, the undecodable one included, it stays as it is. |
| `KafkaConsumerLaws.NotHandled` | packages/shared-events/src/kafka-bus.ts:153-183 | A message without a value does nothing; one that cannot be decoded is parked without a handler call, and returned if the write was acknowledged. |
| `KafkaConsumerLaws.AttemptsBounded` | packages/shared-events/src/kafka-bus.ts:205-246 | At most maxHandlerAttempts handler calls, and a letter's reason and count say truthfully why and after how many calls. |
| `KafkaConsumerLaws.SleepBounded` | packages/shared-events/src/dead-letter.ts:78-87 | One delivery sleeps at most base * (2^(max-1) - 1) in all, in slices of at most 3000 ms with a heartbeat each; a delivery that returns slept exactly the delays between its calls. |
| `KafkaConsumerLaws.ObserverCannotUndo` | packages/shared-events/src/kafka-bus.ts:292-318 | With another observer, a failing one or none, the delivery returns, parks, calls and sleeps the same. |
| `KafkaPartition.StepSafe` | packages/shared-events/src/kafka-bus.ts:153-188 | Deliveries, throws, commits, crashes and rebalances keep every passed offset settled. |
| `KafkaPartition.CommittedIsSettled` | packages/shared-events/src/dead-letter.ts:23-25 | In every state of every run of one partition, each committed offset was handled, parked, or had no value. |
| `KafkaPartition.NeverDroppedIffNoneEmpty` | packages/shared-events/src/kafka-bus.ts:14-18 | A log is never dropped from, whatever happens, if and only if no message in it has a null value. |
| `Redrive.ResolvePolicy` | packages/shared-events/src/redrive.ts:75-86 | Accepts exactly the policies with delays, all positive, and a whole threshold and tick size of at least one. |
| `Redrive.DefaultIsUsable` | packages/shared-events/src/redrive.ts:69-73 | The default schedule has six re-drives and passes its own validation. |
| `Redrive.DelayMs` | packages/shared-events/src/redrive.ts:126-134 | Within the schedule, the delay of that attempt; past its end, the last one; always positive for a usable policy. |
| `Redrive.ScheduleAgrees` | packages/shared-events/src/redrive.ts:155-214 | A letter is due when registration says so: refused or exhausted ones are due and parked at once, others wait at every moment before the schedule's time and are re-driven from then on, unless the breaker parks them. |
| `Redrive.DueIsDecided` | packages/shared-events/src/redrive.ts:155-180 | A due letter never waits: it is parked, or re-driven with an attempt left in the budget. |
| `RedriveStreaks.StreakCounts` | services/event-redrive-service/src/adapters/redrive-ledger.pg.ts:138-168 | Over every run, a letter still on the schedule has counted every failed re-drive recorded for its group and topic since, its own and those of the other letters, and nothing takes one back. |
| `RedriveStreaks.BreakerTripsExactly` | packages/shared-events/src/redrive.ts:166-168 | A worker that claims the letter then parks it for repeated failure, publishing nothing, if and only if that count has reached the threshold and the letter was not refused for good. |
| `RedriveStreaks.SuccessResetsExactly` | services/event-redrive-service/src/adapters/redrive-ledger.pg.ts:119-136 | A recorded success leaves the streaks of its group and topic at zero if and only if those of the other letters were zero before. |
| `RedriveStreaks.StreakOutlivesSuccess` | services/event-redrive-service/src/adapters/redrive-ledger.pg.ts:119-136 | A ledger in which a letter keeps a streak of two while another of its group and topic succeeds. |
| `RedriveLedger.SettledStays` | services/event-redrive-service/src/adapters/redrive-ledger.pg.ts:119-187 | In every run of any number of workers and intakes, stale claims included, no parked or re-driven letter comes back and no attempt is taken back. |
| `RedriveLedger.StepClaims` | services/event-redrive-service/src/adapters/redrive-ledger.pg.ts:103-117 | While claims of a chain exclude each other, every step of every worker keeps what the workers hold of it current and apart, both transactions of a failure included. |
| `RedriveLedger.EachPassCounts` | services/event-redrive-service/src/application/redrive-dead-letters.service.ts:139-189 | Each pass over a claimed letter settles it or spends exactly one attempt and sets the next time by the schedule. |
| `RedriveBudget.StepSound` | services/event-redrive-service/src/application/redrive-dead-letters.service.ts:103-189 | Every step, reads and inserts of an intake included, keeps every recorded publish paid for by an attempt below what the open letters have left. |
| `RedriveBudget.RedrivenWithinWidth` | packages/shared-events/src/redrive.ts:198-204 | With claims that exclude each other and at most k letters of an event open at once, it is published again at most k times as often as the schedule has delays, not counting publishes whose record is lost. |
| `RedriveBudget.LostWithinRedriven` | services/event-redrive-service/src/application/redrive-dead-letters.service.ts:139-189 | In any run, a record is lost only of a publish. |
| `RedriveBudget.RedrivenWithinLetters` | services/event-redrive-service/src/application/redrive-dead-letters.service.ts:103-189 | However many letters are open at once, at most budget times letters re-drives, not counting publishes whose record is lost, while claims exclude each other. |
| `RedriveRuns.RedrivenExactly` | packages/shared-events/src/redrive.ts:198-204 | For every usable policy and every k, the pairs of publishes x and lost records y that occur are exactly those with y <= x <= k * budget + y. |
| `RedriveRuns.CappedIffOneAtATime` | packages/shared-events/src/redrive.ts:198-204 | All runs keep to one schedule, lost records apart, if and only if at most one letter of the event is open at a time. |
| `RedriveRuns.OverlappingClaimsUnbounded` | services/event-redrive-service/src/adapters/redrive-ledger.pg.ts:7-10 | Under every usable policy and for every n, a run in which n workers claim the one letter of an event and it is published n times, nothing lost. |
| `MultipartHeaders.PartHeader` | packages/shared-http/src/multipart.ts:145-152 | The first line whose name, trimmed and lower-cased, is the one asked for. |
| `MultipartHeaders.BoundaryFrom` | packages/shared-http/src/multipart.ts:121-138 | A boundary that is returned has 1 to 70 characters, all RFC 2046 boundary characters. |
| `MultipartBoundary.BoundaryIsTaken` | packages/shared-http/src/multipart.ts:128-137 | Bare or quoted, a boundary comes back letter for letter if and only if it is 1 to 70 of the characters of the expression. |
| `MultipartBoundary.BoundaryIsRead` | packages/shared-http/src/multipart.ts:121-138 | So it does behind any media type that begins as multipart/form-data in any case, other parameters, white space around the parts of the parameter, its name in any case, and whatever follows. |
| `MultipartReading.HeaderIsFirstLine` | packages/shared-http/src/multipart.ts:145-152 | Of the lines of a header block, the first that carries the name, trimmed and in lower case, before its first colon gives the header its trimmed value. |
| `MultipartReading.DispositionMeans` | packages/shared-http/src/multipart.ts:159-168 | A parameter is read from the first place that names it, in any case and with white space; a quotation is unescaped, anything else is taken up to a space or semicolon, and nothing is no value. |
| `MultipartReading.QuotedMeans` | packages/shared-http/src/multipart.ts:159-168 | A quotation reads as a text if and only if what stands before the first mark that is not escaped spells it. |
| `MultipartReading.EscapedReadBack` | packages/shared-http/src/multipart.ts:159-168 | Any text, its marks and backslashes escaped, is read back as it was. |
| `MultipartReading.MediaTypeMeans` | packages/shared-http/src/multipart.ts:170-174 | What stands before the first semicolon, trimmed and in lower case. |
| `MultipartParser.AddPart` | packages/shared-http/src/multipart.ts:247-274 | One delimited part is added to the form or refused: first field of a name wins, files are counted. |
| `MultipartParser.ScanFrame` | packages/shared-http/src/multipart.ts:217-245 | One turn of the scan finds the closing delimiter, a framed part and the next delimiter, or a framing violation. |
| `MultipartParser.ParseMultipartFormData` | packages/shared-http/src/multipart.ts:189-283 | The scanning loop is the walk from delimiter to delimiter that the laws below are about. |
| `MultipartGrammar.ParsesExactly` | packages/shared-http/src/multipart.ts:189-283 | A body parses to a form if and only if from its first delimiter on it is a chain of delimiter lines, header blocks, blank lines and contents up to the closing delimiter, within the limits, every part named, and the form is what they hold: files in order, of each field the first. |
| `MultipartGrammar.TooLargeExactly` | packages/shared-http/src/multipart.ts:251-262 | Answered to be too large if and only if the first part that cannot be read is a text field over the limit. |
| `MultipartGrammar.ReadAllMeans` | packages/shared-http/src/multipart.ts:247-274 | Parts are read if and only if each has a name, no text field is too long and the files are not too many; the form then collects them. |
| `MultipartParser.CutWalk` | packages/shared-http/src/multipart.ts:214-282 | On a cut body the walk succeeds if and only if its closing delimiter fits, and then with the same outcome. |
| `MultipartParser.ClosedOnClosingDelimiter` | packages/shared-http/src/multipart.ts:217-221 | The point at which a parse closes is the end of a `--boundary--` of the body. |
| `MultipartParser.TruncationIsDetected` | packages/shared-http/src/multipart.ts:183-188 | A cut body parses if and only if the closing delimiter survived whole, and then to the same form. |
| `MultipartParser.TrailerIsIgnored` | packages/shared-http/src/multipart.ts:217-221 | Bodies that agree up to the closing delimiter parse to the same form. |
| `MultipartFraming.FramesContent` | packages/shared-http/src/multipart.ts:223-245 | A header block, a blank line and content without a delimiter are framed as exactly that header and that content: the delimiter cannot overlap itself. |
| `MultipartFraming.FramesNothing` | packages/shared-http/src/multipart.ts:223-245 | Content that begins with the boundary line is framed as empty. |
| `MultipartFraming.WalkShifted` | packages/shared-http/src/multipart.ts:214-277 | The walk sees only what lies ahead of its cursor. |
| `MultipartNames.NameReadBack` | packages/shared-http/src/multipart.ts:159-168 | A frameable name is read back from its header if and only if it has no backslash. |
| `MultipartNames.FieldStaysField` | packages/shared-http/src/multipart.ts:251-253 | A built field is read as a field if and only if its name hides no filename parameter. |
| `MultipartNames.NameRead` | packages/shared-http/src/multipart.ts:159-168 | Whatever the name, some name is read from the header: one with a quote, one with fewer backslashes, or the very same one if it had none. |
| `MultipartNames.FileStaysFile` | packages/shared-http/src/multipart.ts:323-331 | The built file part is read as a file called upload if and only if its name hides no filename parameter or one that reads upload; as a file at all unless it hides one without a value. |
| `MultipartNames.ReadsFileHead` | packages/shared-http/src/multipart.ts:145-152 | Both headers of the built file part are found, with their values. |
| `MultipartNames.TypeReadBack` | packages/shared-http/src/multipart.ts:170-174 | A content type that is its own media type is read back whole. |
| `MultipartBuilder.BuildMultipartFormData` | packages/shared-http/src/multipart.ts:299-333 | The building loop produces the body and content type, or the refusal, that the round trip is about. |
| `MultipartBuilder.BodyOnTheWire` | packages/shared-http/src/multipart.ts:305-332 | Behind the CRLF the parser adds, a built body is delimiter, part, delimiter, ..., closing delimiter, names and values in UTF-8. |
| `MultipartRoundTrip.WalksFields` | packages/shared-http/src/multipart.ts:214-277 | Walking over built fields reads each of them, and refuses or misreads exactly the ones that cannot survive. |
| `MultipartExact.WalkItems` | packages/shared-http/src/multipart.ts:214-277 | Whatever a built body parses to consists of what its parts add, each at most once, also when a value that begins with the boundary line shifts the framing. |
| `MultipartExact.ItemsDecide` | packages/shared-http/src/multipart.ts:247-274 | If the parts add up to what was built, every name was read as it was sent, no field made a file, and the file is the file: names cannot make up for each other. |
| `MultipartExact.RoundTrip` | packages/shared-http/src/multipart.ts:189-333 | For everything the builder accepts: parsing a built body returns exactly the fields and the file if and only if names are ASCII without backslash and hide no filename, the file keeps its name and content type, parts and file fit the limits, and no value is too long or begins with the boundary line. |
| `MultipartExact.FramedRoundTrip` | packages/shared-http/src/multipart.ts:189-333 | The same for a body framed with any boundary its content type names, mixed case included. |
| `Utf8.DecodeEncode` | packages/shared-http/src/multipart.ts:263-263 | Decoding UTF-8 undoes encoding it. |
| `Utf8.DecodesFront` | packages/shared-http/src/multipart.ts:263-263 | At the front of any octets an encoded character is decoded; if there is none, the longest beginning of one, or a single octet, becomes U+FFFD. |
| `JsonText.QuoteIsReadable` | packages/shared-security/src/campaign-canonical.ts:23-23 | Quoted strings end at their own quotation mark and determine the string, whatever follows. |
| `CanonicalSerializer.CanonicalSerialize` | packages/shared-security/src/campaign-canonical.ts:20-86 | The recursive serializer rejects what is not acceptable, and writes the canonical text of everything else: literals, strings that read back, entries in order, and keys ascending by code units. |
| `CanonicalSerializer.SerializeArray` | packages/shared-security/src/campaign-canonical.ts:30-51 | The loop over the entries, with its early rejection. |
| `CanonicalSerializer.SerializeObject` | packages/shared-security/src/campaign-canonical.ts:66-85 | The loop with the set of seen keys, the sort in place and the printing of the sorted entries. |
| `CanonicalSerializer.SortThenPrint` | packages/shared-security/src/campaign-canonical.ts:66-85 | Sorting properties and then printing them is printing them and then sorting. |
| `CanonicalJsonLaws.AcceptsExactly` | packages/shared-security/src/campaign-canonical.ts:20-86 | Accepted exactly: plain data, finite numbers, and no key twice once normalised, at every depth. |
| `CanonicalJsonLaws.Readable` | packages/shared-security/src/campaign-canonical.ts:20-86 | A text determines its value up to equivalence, wherever it stands in a longer text. |
| `CanonicalJsonLaws.EquivalentSameText` | packages/shared-security/src/campaign-canonical.ts:20-86 | Values equal up to key order, normal form and the sign of zero have the same text. |
| `CanonicalJsonLaws.CanonicalTextIsFaithful` | packages/shared-security/src/campaign-canonical.ts:88-98 | Two accepted values have the same text if and only if they are equal up to key order, normal form and the sign of zero. |
| `CanonicalJsonLaws.PropertyOrderIsInvisible` | packages/shared-security/src/campaign-canonical.ts:66-85 | Permuting the properties of an object gives the same text, or both are rejected. |
| `CanonicalText.AcceptedIsWritten` | packages/shared-security/src/campaign-canonical.ts:20-98 | A value is rejected, or its text is the one described without the serializer: braces, commas and colons, strings by the grammar of JSON, and the normalised keys, each once, in ascending order of UTF-16 code units. |
| `CanonicalText.TextIsCanonical` | packages/shared-security/src/campaign-canonical.ts:20-98 | The shape of the text of an accepted value, by recursion on the value. |
| `CanonicalText.EscapesAsLittleAsPossible` | packages/shared-security/src/campaign-canonical.ts:23-23 | Each unit of a string is written as itself or by its shortest escape. |
| `Coverage.SessionsCompare` | packages/shared-security/src/campaign-canonical.ts:121-140 | The seven-key comparator changes sign with its arguments and is zero only for the same session. |
| `Coverage.SessionsTransitive` | packages/shared-security/src/campaign-canonical.ts:121-140 | It is transitive. |
| `Coverage.CoverageAccepted` | packages/shared-security/src/campaign-canonical.ts:143-164 | The coverage form is never rejected. |
| `Coverage.SessionsAscend` | packages/shared-security/src/campaign-canonical.ts:117-164 | The sessions stand by district, province, date, venue, hour, limit and activity, each as often as it was given. |
| `Coverage.CoverageIsCanonical` | packages/shared-security/src/campaign-canonical.ts:143-164 | Two coverage texts are the same if and only if campaign and sessions are, after NFC, the same, each session equally often. |
| `PolicyV2.CodeSet` | packages/shared-campaign-policy/src/index.ts:141-149 | The loop with its duplicate check and sort computes the code set or fails. |
| `PolicyV2.CheckBands` | packages/shared-campaign-policy/src/index.ts:166-173 | The loop over the set of seen qualifications finds out whether two bands share one. |
| `PolicyV2.NormalizePolicyV2` | packages/shared-campaign-policy/src/index.ts:152-221 | The whole normalisation computes the normal form, or fails. |
| `PolicyV2Laws.BandsTotal` | packages/shared-campaign-policy/src/index.ts:174-174 | The order of the band comparator is strict and total: a tie means the very same band. |
| `PolicyV2Laws.ComparatorConsistentExactly` | packages/shared-campaign-policy/src/index.ts:166-174 | The comparator, which answers 1 both ways on a tie, is consistent on a list if and only if no band is in it twice, as disjoint bands make sure. |
| `PolicyV2Laws.NormalizeIsNormal` | packages/shared-campaign-policy/src/index.ts:151-221 | A result is a normal form: within all bounds, bands disjoint, every list sorted and free of repetitions. |
| `PolicyV2Laws.NormalIffFixed` | packages/shared-campaign-policy/src/index.ts:151-152 | The normal forms are exactly the policies that normalisation leaves alone. |
| `PolicyV2Laws.NormalizeTwice` | packages/shared-campaign-policy/src/index.ts:151-152 | Normalising twice is normalising once. |
| `PolicyV2Laws.NormalFormIsFaithful` | packages/shared-campaign-policy/src/index.ts:151-221 | Accepted blocks have the same normal form if and only if they rule the same, lists compared as sets. |
| `PolicyV2Authored.NormalizeExactly` | packages/shared-campaign-policy/src/index.ts:151-221 | Normalisation gives a policy if and only if the block says it: exact keys, bounds and vocabularies, no qualification in two bands, and every list in its documented order; any other block is refused. |
| `PolicyV2Authored.BandExactly` | packages/shared-campaign-policy/src/index.ts:157-165 | A band is read exactly as authored: its qualifications once each in ascending order, ages within 0 to 130. |
| `PolicyV2Authored.CodesExactly` | packages/shared-campaign-policy/src/index.ts:141-149 | A code set is read exactly if all entries are registry codes and different, and comes out ascending. |
| `PolicyV2Order.OrderIsInvisible` | packages/shared-campaign-policy/src/index.ts:151-221 | Bands, qualifications, alternatives, documents and codes in another order: the same normal form, or both blocks fail. |
| `PolicyV2Ages.AgeBandFor` | packages/shared-campaign-policy/src/index.ts:242-256 | The search loop keeps the first band with the highest cap among those that apply. |
| `PolicyV2Ages.MatchesMeans` | packages/shared-campaign-policy/src/index.ts:243-250 | Holding a level is holding itself and every level below it on the ladder, and no higher one; a specialist field is held only by name. |
| `PolicyV2Ages.MostGenerousBand` | packages/shared-campaign-policy/src/index.ts:237-256 | For a normal form, the chosen band has the highest cap of those that apply and, among equal caps, the lowest minimum; none only if none applies. |
| `PolicyV2Ages.HigherLevelNeverLowersCap` | packages/shared-campaign-policy/src/index.ts:243-250 | A level no lower on the ladder, a missing or unknown one standing below it, with the same field never lowers the cap. |
| `PolicyV2Ages.VerdictMeans` | packages/shared-campaign-policy/src/index.ts:268-274 | Each verdict if and only if: no band applies; the age is over every cap; some applying band with the highest cap holds it; it is under the minimum of each of those. |
| `PolicyV2Ages.EnvelopeHolds` | packages/shared-campaign-policy/src/index.ts:223-229 | The envelope is the narrowest window that holds every band. |
| `PolicyV2Ages.EligibleWithinV1` | packages/shared-campaign-policy/src/index.ts:322-335 | When the envelopes agree, every eligible age lies in the v1 window. |
| `PolicyV2Ages.EnvelopeAgreesExactly` | packages/shared-campaign-policy/src/index.ts:322-335 | checkEnvelope is silent if and only if ages and threshold agree and the document types are the same, each equally often; ages are reported before the threshold. |
| `NameMatching.EditDistanceAtMostOne` | packages/shared-identity-match/src/index.ts:102-136 | True if and only if the optimal-string-alignment distance, defined recursively, is at most one. |
| `NameMatching.SameLength` | packages/shared-identity-match/src/index.ts:107-119 | The loop over the differing places decides one substitution or one swap of neighbours. |
| `NameMatching.OneLonger` | packages/shared-identity-match/src/index.ts:120-135 | The loop that skips greedily decides one insertion. |
| `NameMatching.CloseIsWithinOne` | packages/shared-identity-match/src/index.ts:101-136 | Every alignment with at most one edit shows at the first difference: the greedy skip loses nothing. |
| `NameMatching.WithinOneMeans` | packages/shared-identity-match/src/index.ts:101-136 | At most one edit means the same token, one unit more or less, one replaced, or two neighbours swapped, at whatever place. |
| `NameMatching.DistanceBothWays` | packages/shared-identity-match/src/index.ts:101-136 | The test is symmetric. |
| `IdentityBinding.CountTokens` | packages/shared-identity-match/src/index.ts:138-142 | The Map built by the loop counts each token as often as it occurs. |
| `IdentityBinding.Leftover` | packages/shared-identity-match/src/index.ts:144-152 | The nested loops compute the multiset difference. |
| `IdentityBinding.CompareNames` | packages/shared-identity-match/src/index.ts:157-175 | The comparison over counts and leftovers is the one defined on multisets. |
| `IdentityBinding.ComparedBothWays` | packages/shared-identity-match/src/index.ts:157-175 | Comparing the other way round gives the same answer. |
| `IdentityBinding.ComparedInAnyOrder` | packages/shared-identity-match/src/index.ts:157-175 | Token order does not matter. |
| `IdentityBinding.ExactMeansSameTokens` | packages/shared-identity-match/src/index.ts:165-165 | EXACT if and only if both names have tokens and the multisets are equal. |
| `IdentityBinding.PartialMeans` | packages/shared-identity-match/src/index.ts:166-173 | PARTIAL if and only if one name has all tokens of the other and more, or they differ in one token of three letters or more that is one edit off. |
| `IdentityBinding.BindCredential` | packages/shared-identity-match/src/index.ts:249-265 | The name field and each other field as stated; NOT_BOUND if and only if the names are neither equal nor close or a field stated on both sides reads as two values; REVIEW if and only if not that, and the name is close, a stated field is unreadable or a required one is missing; BOUND otherwise. |
| `IdentityBinding.FieldMeans` | packages/shared-identity-match/src/index.ts:230-244 | What a field of the report says, in terms of what both sides state and how it reads. |
| `IdentityBinding.BoundMeansAgreement` | packages/shared-identity-match/src/index.ts:249-265 | BOUND if and only if the names have the same tokens, every field both sides state reads as the same value, and every required field is stated and agrees. |
| `SmsGuards.PerNumberLimiter.Take` | packages/shared-sms/src/twilio-guards.ts:80-94 | Refused if and only if `max` takes of that number were accepted within the last window, counted over the full history; filtering and pruning never change an answer. |
| `SmsGuards.PerNumberLimiter.Prune` | packages/shared-sms/src/twilio-guards.ts:90-92 | Dropping numbers with no recent time keeps the refinement of the full history. |
| `SmsGuards.RecentTwice` | packages/shared-sms/src/twilio-guards.ts:83-83 | What left the window does not come back: filtering earlier first changes nothing. |
| `SmsGuards.RecentTakes` | packages/shared-sms/src/twilio-guards.ts:80-88 | What a take is decided by is the number of accepted takes of that very number less than a window ago. |
| `SmsGuards.WindowHoldsAtMostMax` | packages/shared-sms/src/twilio-guards.ts:9-10 | No window of the configured length holds more than `max` accepted messages of one number, wherever it starts. |
| `SmsGuards.DailyCostCap.Used` | packages/shared-sms/src/twilio-guards.ts:36-47 | The number of messages recorded today, whether counted in memory or in the lines of the state file. |
| `SmsGuards.DailyCostCap.Allows` | packages/shared-sms/src/twilio-guards.ts:49-51 | True if and only if fewer than the limit are recorded today. |
| `SmsGuards.DayTurns` | packages/shared-sms/src/twilio-guards.ts:17-20 | A Kigali day begins at 22:00 UTC and lasts 24 hours. |
| `SmsGuards.CountMeans` | packages/shared-sms/src/twilio-guards.ts:36-47 | The count of a day is the number of records of that day. |
| `SmsGuards.DailyCostCap.Record` | packages/shared-sms/src/twilio-guards.ts:53-61 | Adds one message of today in memory or in the file; a failing write adds none. |
| `SmsSending.LastAttempt` | packages/shared-sms/src/twilio-sms.channel.ts:147-172 | The attempt a send stops at: within the configured number, nothing final before it. |
| `SmsSending.RetriedExactly` | packages/shared-sms/src/twilio-sms.channel.ts:147-172 | Every answer before the last was a fault, 429 or at least 500; the last is a success, another answer below 500, or the answer to the last attempt there is. |
| `SmsSending.TwilioSmsChannel.Send` | packages/shared-sms/src/twilio-sms.channel.ts:123-174 | A send the guards refuse makes no request and, refused by the cap, takes no slot; an admitted one makes between one and the configured number of requests under one key, and is recorded once exactly if accepted. |
| `SmsSending.StepBounded` | packages/shared-sms/src/twilio-guards.ts:4-8 | Ticks over midnight, checks and finishes keep today's records and the sends in flight within the day's bound. |
| `SmsSending.DailyCapUnderConcurrency` | packages/shared-sms/src/twilio-guards.ts:4-8 | From any records of a state file on and with at most k sends in flight, no Kigali day ever records more than limit + k - 1 messages, or than it held at the start. |
| `SmsSending.CheckIsStep` | packages/shared-sms/src/twilio-guards.ts:49-51 | The check of the cap is a step of that system: it passes exactly if a send can begin. |
| `SmsSending.RecordIsStep` | packages/shared-sms/src/twilio-guards.ts:53-61 | So is the end of a send, recorded if accepted and written. |
| `SmsSending.SendIsRun` | packages/shared-sms/src/twilio-sms.channel.ts:123-174 | And a whole send of the channel is a run of it. |
| `SmsSending.BoundIsReached` | packages/shared-sms/src/twilio-guards.ts:49-61 | For every limit and every k, some run records exactly that many on one day. |
| `Cookies.ParseCookieHeader` | packages/shared-http/src/cookies.ts:150-167 | The loop over the pairs fills the jar the specification says. |
| `Cookies.PairReadBack` | packages/shared-http/src/cookies.ts:154-163 | A pair of an accepted cookie is read back as it was, with the separator's space or without. |
| `Cookies.HeaderReadBack` | packages/shared-http/src/cookies.ts:141-167 | The header made of accepted cookies parses to exactly their names, each with the value of its first occurrence. |
| `CookieText.JarIsFirstGiven` | packages/shared-http/src/cookies.ts:141-167 | The jar of any header holds exactly the names its pieces give before their first equals sign, each with the value of the first piece that gives it, trimmed and without enclosing quotation marks. |
| `Cookies.SerializeSetCookie` | packages/shared-http/src/cookies.ts:81-139 | Emits exactly the acceptable cookies, their parts joined in order; refuses the others. |
| `CookieText.EmittedExactly` | packages/shared-http/src/cookies.ts:44-139 | Exactly these cookies are emitted, character by character and attribute by attribute. |
| `CookieText.TextOfCookie` | packages/shared-http/src/cookies.ts:113-138 | The text: name, equals sign and value, then each attribute asked for in this order, Max-Age in decimal. |
| `CookieText.NumberReadBack` | packages/shared-http/src/cookies.ts:127-127 | A number is written in digits that read back as it, without leading zeros. |
| `Cookies.NothingSmuggled` | packages/shared-http/src/cookies.ts:64-73 | Cut at its semicolons, the emitted text is the pair followed by exactly the attributes asked for. |
| `Cookies.HostCookiesLocked` | packages/shared-http/src/cookies.ts:92-106 | A __Host- cookie is emitted only Secure, with Path=/ and without Domain. |

## Left out

- OutboxProgress.PublishedIffFewInvalidAhead: at one reading of the clock over a table nobody else changes; `PublishedWhileRowsArrive` has the clock move and rows arrive behind the waiting row, but not in front of it.
- OutboxRefinement.DispatchIsRun: no live relay holds a row of the events; a stamp that waits for such a row is left out.
- OutboxCommitOrder.RelayedInCommitOrderExactly: grace and batch size may differ from drain to drain; the relay fixes both when it is constructed.
- RedriveBudget.RedrivenWithinWidth: letters and claims are counted along the run; that the leader's advisory lock keeps claims apart is not modelled.
- PostgreSQL beyond rows, transactions, locks and the clock of a transaction: waiting for a row lock, serialization failures, and the two steps of an UPDATE that waits are one atomic statement here.
- The timers of the relay (`start`, `stop`, the poll interval) and the logging around every loop.
- Kafka beyond one partition: group membership, producer batching, topics and keys of published events.
- The text of error messages, and the paths in them.
- NFC, NFKD and regular-expression engines: NFC is a function with the two laws a coverage text needs, names arrive as token lists, and the expressions of the multipart headers, codes and cookies are written out as functions.
- Parsing of dates of birth, sexes and national ID hints: parameters of the binding rule.
- Hashes and digests: results are about the canonical texts and about opaque keys.
- JavaScript numbers beyond what the code distinguishes: finite doubles are named by their shortest text in the canonical form, milliseconds are reals or integers, NaN and infinities are not policy values.
- Strings with lone surrogates in multipart field values; buffers are sequences of Latin-1 characters.
- The order of Map and object entries where only their contents matter.
- In-place sorting algorithms: `sort` is a stable insertion sort by the given comparator, which for a strict total order is the only possible result.
- The constructors' refusals of limits below one, of empty producers and of missing senders: they are preconditions of the modelled constructors, or lie outside the model.
- Education, science and conviction verdicts, the document plan and the picker rows of policy v2: one-branch readings of a normal form.
- The pauses between the attempts of a send, and the error codes of a multipart refusal beyond 413 for a field and the detail of a 400.
- Signatures of status callbacks, phone normalisation and the provider's response bodies: outside the send loop that is modelled.
- The HTTP server shell, authentication, permissions, configuration and the selfcheck scripts: lookups and plumbing.
