# Verification of the queue example application

A Dafny 4.11 model of the state that the example application keeps itself and of the step-by-step protocols its own code
decides, with proofs that hold for every input, every run and every interleaving. The queue library, Redis, NestJS and
React are not modelled; where a protocol depends on the library, only the contract named at the head of the module is
assumed, as part of the transition relation.

| file | about |
|---|---|
| `SseFrames.dfy`, `SseCollect.dfy`, `SseRoundTrip.dfy` | cutting an event stream into frames, collecting its first events, and the way from a writer to the collector |
| `EventFeeds.dfy` | the event feed: bounded history, replay then live, the browser's list |
| `BoundedBuffers.dfy`, `JsMaps.dfy` | ring and shifting buffers; insertion-ordered maps and their two eviction orders |
| `Orders.dfy`, `Email.dfy`, `Webhooks.dfy` | order store, receipt idempotency, deterministic retries |
| `FlowEngine.dfy`, `FlowRuns.dfy`, `FlowTraces.dfy`, `FlowOrder.dfy`, `FlowCounts.dfy` | flow runs on arbitrary trees: invariants, rest states, termination, trace order, what the bounded trace shows of it, and how often each job runs |
| `Fulfillment.dfy`, `FlowHandlers.dfy`, `FlowTrees.dfy` | the fulfillment flow, its handlers, its live tree and the polling decision |
| `Tenants.dfy`, `TenantOverlaps.dfy`, `TenantTiers.dfy`, `Onboarding.dfy`, `Reindexing.dfy` | check-then-act services whose requests interleave at their awaits |
| `Redaction.dfy`, `Invoices.dfy` | redaction of JSON values; the nested hashing loop |
| `Prelude.dfy` | sequences, windows, options |

How runs are stated. A protocol is a state, a datatype of steps, `Enabled` and `Apply`; `Exec` runs a list of steps and
is `None` when some step was not possible. A theorem about every run is a lemma over every list of steps. A request that
awaits between a read and a write is one step up to the await and one or more after it. Clocks, random ids, JSON text
parsing, the hash function and the wire encoding are parameters or arbitrary values. JavaScript strings are sequences of
characters. A ring buffer's capacity is at least 1, because the head index is taken modulo the capacity.

## Where the code does not do what is written beside it

Each of these has a lemma that says exactly when the promise holds, and a concrete run or input on which it fails.

- `unregister` is said to return `true` when a worker existed and was removed, and `false` when there was nothing to remove
  (`apps/api/src/workers/tenant-workers.service.ts:72-73`). The answer is right if and only if the last registration or
  removal of the tenant between the call's read and its removal, if any, left the liveness it had read
  (`TenantOverlaps.AnswerIsRight`). Two calls can both return `true` for one removal (`TenantOverlaps.BothReportRemoval`),
  and a call can return `false` although it removed the worker (`TenantOverlaps.RemovalUnreported`).
- The tier is dropped only after a successful unregister, so that no failure leaves a worker registered without its tier and
  the list inconsistent (:78-79 of the same file). A failure does not (`TenantTiers.FailureKeepsList`), but an overlap
  does (`TenantOverlaps.TierLost`). Over
  every run, a worker is live without its tier if and only if, since its registration was accepted, no worker of the tenant
  was removed but some unregister of the tenant returned (`TenantTiers.TierLessExactly`). For a registration whose
  overlapping requests have all settled, that is so if and only if the library failed every unregister that had been asked
  for and had not removed yet, and another was then between its removal and its return
  (`TenantTiers.TierLessOnceSettled`); the worker is gone if and only if one of the former did remove it
  (`TenantTiers.LiveOnceSettled`); and worker and tier are both in place if and only if the library failed every unregister
  that was under way (`TenantOverlaps.RegistrationHolds`).
- The result of `reindex` is described as `true` when the enqueue was collapsed. In simple and throttle mode it is wrong if
  and only if the last step between the read of the key and the enqueue that set or lost the key left it at another job
  (`Reindexing.ReportIsExact`); when only such requests are made for a term, that is an insertion by another request that
  was not lost since (`Reindexing.WrongByInsertion`). `Reindexing.CollapseUnreported` is such a run.
- `created` can be true for two welcome requests, as its own comment admits (`Onboarding.BothReportCreated`). A request reports
  `true` if and only if it read before the user's one job was inserted (`Onboarding.OneWelcomeJob`), so two such requests
  always overlapped (`Onboarding.CreatedTwiceOverlaps`).
- `redact` is described as keeping the shape visible. An own key `__proto__`, which JSON can carry, is dropped: assigning to
  it on a plain object creates no property (`Redaction.ProtoIsDropped`). The shape is kept at every depth if and only if no
  such key stands outside what is masked (`Redaction.ShapeKept`).
- `recent(limit)` is described as the last `limit` entries; with `limit` 0 it returns everything (`EventFeeds.RecentOfZero`),
  and a limit of `-n` drops only the `n` oldest. With a limit below 1 read as none, it is as described if and only if the
  limit is at least 1 or the negated limit is not below the number of entries (`EventFeeds.RecentIsLast`).
- A redelivered receipt job is said never to send a second receipt. It does after 1000 further jobs were remembered
  (`Email.SecondReceipt`); it is silent if and only if its id is among the last 1000 (`Email.RedeliveryIsSilent`).
- The webhook handler is said to give exactly the configured number of failures followed by one success. That is so if and
  only if the job has more attempts than failures (`Webhooks.FailsThenSucceedsExactly`), and the configuration sets no upper
  limit to the failures; four use up four attempts (`Webhooks.AttemptsRunOut`).
- The `default` variant is described as the happy path on which every node succeeds. An order with the failure prefix sticks
  under it (`Fulfillment.DefaultCanStick`); every node succeeds, in any variant, if and only if the order has not that prefix
  (`Fulfillment.HappyPathExactly`).
- The root of a flow is said to run only after every descendant has completed. A flow that ignores a failed payment ships
  with the payment failed (`Fulfillment.SomeRootShipsUnpaid`), and no other does (`Fulfillment.RootRunsAfterCompletion`).

Two promises hold on a condition, which is given exactly.

- The trace shows every descendant before its parent. For arbitrary trees that is so, at rest, if and only if no tree has an
  ignored inner job that ends failed by a child of its own under a job that nothing else holds back
  (`FlowOrder.OrderAtRest`). The fulfillment flow ignores failures of a leaf only, and such trees never have one
  (`FlowOrder.LeafFlagsNeverLeak`); `FlowTraces.InnerFlagBreaksOrder` is a run of another tree.
- Frames are separated by a blank line. Frames written with terminators and read back are the same if and only if none
  contains a separator, ends in a line feed, or ends in a carriage return before an LF terminator
  (`SseFrames.JoinThenSplit`); `SseFrames.TrailingLineFeedMoves` is a frame that comes back changed.

## Model

| member | source | states |
|---|---|---|
| `SseFrames.SplitFrames` | apps/api/test/support/sse.ts:20-31 | the loop returns the frames and the rest that repeated leftmost matching of a blank line gives, and ends |
| `SseFrames.SearchSpec` | apps/api/test/support/sse.ts:22-24 | the search returns the leftmost position where LF or CRLF twice in a row begins, and nothing exactly when there is none |
| `SseFrames.SepIsOneOfFour` | apps/api/test/support/sse.ts:22 | what matches is one of the four texts that the separator expression stands for, and each of them matches |
| `SseFrames.SplitResumes` | apps/api/test/support/sse.ts:20-31 | splitting a prefix and then its rest followed by more text gives the frames and rest of the whole text, wherever the cut falls in a separator |
| `SseFrames.ChunkingIsIrrelevant` | apps/api/test/support/sse.ts:85-87 | for every way of cutting a text into chunks, feeding them one by one yields the frames and rest of splitting the text once |
| `SseFrames.PiecesHaveNoSeparator` | apps/api/test/support/sse.ts:13-18 | no frame and no rest contains a separator |
| `SseFrames.JoinThenSplit` | apps/api/test/support/sse.ts:13-18 | frames joined with any mix of LF and CRLF terminators split back to themselves if and only if each can be told apart from its terminator |
| `SseFrames.TrailingLineFeedMoves` | apps/api/test/support/sse.ts:13-18 | a frame that does not come back as it was written |
| `SseFrames.CrlfStreamSplitsAlike` | apps/api/test/support/sse.ts:14-15 | a stream and the same stream with CRLF line ends give the same frames up to line ends |
| `SseCollect.CollectSseEvents` | apps/api/test/support/sse.ts:67-104 | for every response (none before the timer fires, no body, a body that ends or is cut off) reading chunk by chunk has the outcome of one pass over the frames of the whole text, for any chunking |
| `SseCollect.AbortedExactly` | apps/api/test/support/sse.ts:55-56 | a body cut off by the timer ends in the timer's error exactly when what arrived is well formed and holds fewer than `count` payloads; otherwise the timer makes no difference |
| `SseCollect.NothingToRead` | apps/api/test/support/sse.ts:68-74 | no answer before the timer fires is the timer's error, and exactly a response without a body is the error for that |
| `SseCollect.TakeEvents` | apps/api/test/support/sse.ts:88-96 | the inner loop stops at the count and leaves later frames unparsed |
| `SseCollect.LinesPartition` | apps/api/test/support/sse.ts:40 | the lines of a frame are its parts between line feeds, nothing lost |
| `SseCollect.FirstDataLineIsFirst` | apps/api/test/support/sse.ts:40-43 | the first line that starts with `data:`, and none exactly when no line does |
| `SseCollect.ParseFrameYields` | apps/api/test/support/sse.ts:39-45 | a frame yields nothing exactly when none of its lines starts with `data:`, and otherwise the value of the trimmed text of the first that does, or a failure exactly when that does not parse |
| `SseCollect.TrimSpec` | apps/api/test/support/sse.ts:44 | the payload text loses all white space at both ends and nothing else |
| `SseCollect.SpaceCodes` | apps/api/test/support/sse.ts:44 | white space is exactly the code points of ECMA-262, sections 12.2 and 12.3 |
| `SseCollect.CollectExactly` | apps/api/test/support/sse.ts:80-97 | success is exactly the payloads of the shortest well-formed run of frames holding `count` of them; ending short and failing on a payload are characterised the same way |
| `SseCollect.CrlfStreamCollectsAlike` | apps/api/test/support/sse.ts:39-45 | LF and CRLF senders deliver the same events |
| `SseRoundTrip.WrittenIsCollected` | apps/api/test/support/sse.ts:47-57 | events written as frames of field lines and one `data:` line, with frames without data anywhere between them, with any terminators and cut into any chunks, are collected as the first `count` values in order; too few end short or abort |
| `SseRoundTrip.FrameCarries` | apps/api/test/support/sse.ts:39-45 | such a frame can be told apart from its terminator and its payload is the value that was written |
| `SseRoundTrip.SilentCarriesNothing` | apps/api/test/support/sse.ts:41-43 | a comment, an id-only frame or an empty one can be told apart from its terminator and carries nothing |
| `SseRoundTrip.SilentChangesNothing` | apps/api/test/support/sse.ts:88-92 | such a frame anywhere in a stream changes no outcome |
| `EventFeeds.RecentIsLast` | apps/api/src/events/event-feed.service.ts:44-46 | for every integer limit, `recent(limit)` is the last `limit` entries, none for a limit below 1, if and only if the limit is at least 1 or the negated limit is not below the number of entries; otherwise it drops that many of the oldest |
| `EventFeeds.RecentOfZero` | apps/api/src/events/event-feed.service.ts:44-46 | a limit of 0 returns all of any buffer |
| `EventFeeds.EventFeed.Push` | apps/api/src/events/event-feed.service.ts:30-36 | the buffer stays the last 200 of everything pushed, and each push is emitted once |
| `EventFeeds.EventFeed.RecentEntries` | apps/api/src/events/event-feed.service.ts:44-46 | in terms of the push history, with limits of 0, below, and above the capacity included |
| `EventFeeds.EventStream.OnMessage` | apps/web/lib/use-event-stream.ts:61-65 | the list stays the reverse of the last 200 decodable messages |
| `EventFeeds.ReachableFeed` | apps/api/src/events/events.controller.ts:41-44 | invariant of every run of pushes, calls, subscriptions, deliveries and disconnections on any number of connections |
| `EventFeeds.ReplayThenLive` | apps/api/src/events/events.controller.ts:41-44 | in every reachable state a connection was sent the last 20 entries before its call, then every push since its subscription, and its browser shows the reverse of the last 200 received |
| `EventFeeds.StreamIsSubsequence` | apps/api/src/events/events.controller.ts:35-37 | what is sent is an order-preserving, duplicate-free part of the push history |
| `EventFeeds.StreamMisses` | apps/api/src/events/events.controller.ts:41-44 | from the replay on, exactly the entries pushed between call and subscription are missing |
| `EventFeeds.NoGapIffNoPushBetween` | apps/api/src/events/events.controller.ts:41-44 | there is no gap if and only if no push fell in between |
| `EventFeeds.AnyoneCanJoin` | apps/api/src/events/events.controller.ts:41-44 | at every point of every run a connection can open and subscribe, and is then sent the last 20 entries |
| `EventFeeds.CatchesUp` | apps/web/lib/use-event-stream.ts:61-65 | from every point of every run deliveries alone bring it up to date |
| `EventFeeds.LeftForGood` | apps/api/src/events/events.controller.ts:35-37 | after it disconnects it is gone unless it opens again |
| `BoundedBuffers.BoundedRingBuffer.Push` | apps/api/src/common/bounded-ring-buffer.ts:26-37 | the snapshot becomes the last `capacity` of the old snapshot and the item |
| `BoundedBuffers.RingKeepsLast` | apps/api/src/common/bounded-ring-buffer.ts:26-52 | for every capacity and push sequence the wrapping ring shows the last pushes, oldest first |
| `BoundedBuffers.RingRefinesShift` | apps/api/src/common/bounded-ring-buffer.ts:20-22 | the ring and the push-then-shift array of the same capacity cannot be told apart |
| `BoundedBuffers.AuditTrail.Append` | apps/api/src/processors/audit-trail.service.ts:24-29 | the trail stays the last 100 of everything appended |
| `JsMaps.EvictionOrdersAgree` | apps/api/src/orders/orders.repository.ts:40-48 | evicting before the insert and after it leave the same map if and only if the capacity is at least 1 or the key was there |
| `Orders.StoreKeepsNewest` | apps/api/src/orders/orders.repository.ts:39-60 | over any saves the store holds the last 500 newly inserted ids in order, and a lookup returns the latest save of an id exactly when it is among them |
| `Orders.FindableUntilCapacity` | apps/api/src/orders/orders.repository.ts:33-50 | a newly inserted id is findable if and only if fewer than 500 further ids have been newly inserted, or it is itself among the last of those |
| `Orders.OrdersRepository.Save` | apps/api/src/orders/orders.repository.ts:39-50 | the store after a save is the store of the longer save history |
| `Orders.OrdersRepository.Find` | apps/api/src/orders/orders.repository.ts:58-60 | returns the latest save of a retained id and nothing for any other |
| `Email.EmailProcessor.SendReceipt` | apps/api/src/processors/email.processor.ts:70-81 | a memoized id returns its memo and sends nothing; any other delivery sends one mail, to the recipient of the job under the receipt template, and remembers its result |
| `Email.EmailProcessor.RememberReceipt` | apps/api/src/processors/email.processor.ts:180-190 | stores under the id, evicts after the insert, and does nothing without an id |
| `Email.RedeliveryIsSilent` | apps/api/src/processors/email.processor.ts:62-81 | after any deliveries a receipt sends nothing if and only if its id is among the last 1000 memoized, and then returns its most recent send |
| `Email.RedeliveredInTime` | apps/api/src/processors/email.processor.ts:62-64 | redelivery before 1000 further ids were memoized sends nothing and returns the first result |
| `Email.SecondReceipt` | apps/api/src/processors/email.processor.ts:62-64 | a run of 1001 jobs after which redelivering the first sends a second receipt |
| `Email.SendsAreAccounted` | apps/api/src/processors/email.processor.ts:70-81 | sends and repeats add up to deliveries; memos and id-less deliveries add up to sends |
| `Email.SendsCarry` | apps/api/src/processors/email.processor.ts:78 | over any deliveries the mails sent are, one for one and in order, those of the deliveries that sent, with their recipients and times |
| `Email.MailerStub.Send` | apps/api/src/processors/mailer.stub.ts:45-51 | the buffer stays the last 500 of everything sent, and the id is returned |
| `Webhooks.WebhookProcessor.DeliverJob` | apps/api/src/processors/webhook.processor.ts:99-108 | fails without a log entry while failures are left, then logs one delivery with its attempts; the log stays the last 500 |
| `Webhooks.RetryTheater` | apps/api/src/processors/webhook.processor.ts:89-108 | a job succeeds if and only if it has more attempts than failures, logs `failures + 1` attempts then and nothing otherwise; its failures are numbered from 0, its delays double from 1500 ms and add up to 1500 times (2^k - 1) |
| `Webhooks.FailsThenSucceedsExactly` | apps/api/src/processors/webhook.processor.ts:8-11 | exactly that many failures followed by one success, if and only if the job has more attempts than failures |
| `Webhooks.AttemptsRunOut` | apps/api/src/processors/webhook.processor.ts:8-11 | four failures against four attempts: the job fails and logs nothing |
| `FlowHandlers.PaymentsProcessor.Charge` | apps/api/src/flows/payments.processor.ts:37-43 | records in the trace first, then fails exactly for the failure prefix |
| `FlowHandlers.FulfillmentProcessor.Ship` | apps/api/src/flows/fulfillment.processor.ts:32-35 | records in the trace and succeeds |
| `FlowHandlers.FlowTrace.Record` | apps/api/src/flows/flow-trace.service.ts:33-35 | the ring stays the last 500 of everything recorded, which grows by the entry |
| `FlowEngine.ReachableFits` | apps/api/src/flows/fulfillment.types.ts:12-19 | in every reachable state every node's status fits its children's, for arbitrary trees, any number of flows, retries and redelivery |
| `FlowRuns.RestIsDetermined` | apps/api/src/flows/fulfillment.types.ts:12-19 | a run that comes to rest rests in the one state its trees determine, whatever the interleaving |
| `FlowRuns.WorkEnds` | apps/api/src/flows/payments.processor.ts:29-30 | without redelivery no run from a reachable state is longer than an explicit measure |
| `FlowRuns.RestIsReached` | apps/api/src/flows/fulfillment.types.ts:12-19 | from every reachable state the work at hand leads to rest |
| `FlowRuns.FinishedStays` | apps/api/src/flows/fulfillment.types.ts:12-19 | under the outcomes given there (fails, stays waiting for ever, proceeds) a finished job keeps its status in every continuation |
| `FlowTraces.TraceShowsDescendantsFirst` | apps/api/src/flows/flow-trace.service.ts:2-6 | every trace entry of a node is preceded by an entry of every descendant in its flow, failed ones included, with redelivery allowed |
| `FlowOrder.ParentEntryLandsLast` | apps/api/src/flows/fulfillment.processor.ts:4-6 | with redelivery allowed, no entry of a node is followed by one of a descendant |
| `FlowOrder.VisibleOrder` | apps/api/src/flows/flow-trace.service.ts:2-6 | in the list of the last 500 entries no descendant follows its ancestor, and a descendant precedes it if and only if it is still listed |
| `FlowOrder.RecordedIsTrace` | apps/api/src/flows/fulfillment.processor.ts:32-35 | over every run the recorded history names the nodes of the trace, entry by entry |
| `FlowOrder.VisibleNames` | apps/api/src/flows/flow-trace.service.ts:33-44 | over every run, with each handler call recording its job's name, the list shows the names of those entries, position by position |
| `FlowOrder.OrderFailsExactly` | apps/api/src/flows/flow-trace.service.ts:2-6 | for arbitrary trees, in every reachable state, children come first if and only if no job ran over a child that was failed from below |
| `FlowOrder.OrderAtRest` | apps/api/src/flows/fulfillment.types.ts:16-19 | at rest that is so if and only if no tree has an ignored inner job that its own child fails, under a job nothing else holds back |
| `FlowOrder.LeafFlagsNeverLeak` | apps/api/src/flows/fulfillment.service.ts:182-190 | trees that ignore failures of leaves only have no such job |
| `FlowTraces.WithoutRedeliveryOnce` | apps/api/src/flows/flow-trace.service.ts:2-6 | without redelivery a job that does not throw is in the trace at most once |
| `FlowTraces.InnerFlagBreaksOrder` | apps/api/src/flows/fulfillment.types.ts:16-19 | the two failure flags combined on an inner job: a run in which the root runs although its child never did |
| `Fulfillment.FlowNodes` | apps/api/src/flows/fulfillment.service.ts:53-65 | the flow is six nodes with their names and parents, four attempts each but one for a demo variant's payment, and the payment's failure flag |
| `Fulfillment.FlowIsAboutOrder` | apps/api/src/flows/fulfillment.service.ts:54-63 | all six jobs of a flow carry its order id |
| `Fulfillment.BulkKeepsOrder` | apps/api/src/flows/fulfillment.service.ts:86-88 | a bulk launch creates one flow per order id, in input order |
| `Fulfillment.RootStaysStuck` | apps/api/src/flows/fulfillment.types.ts:13-15 | with the failure prefix under `stuck` or `default` the root waits for its children in every reachable state |
| `Fulfillment.VariantOutcome` | apps/api/src/flows/fulfillment.service.ts:182-190 | any number of interleaved flows rest with all six statuses, and which nodes left trace entries, fixed by variant and order id |
| `Fulfillment.RootRunsAfterCompletion` | apps/api/src/flows/fulfillment.processor.ts:23-24 | in every reachable state the descendants of a root that has run are all completed if and only if the flow does not ignore a failed payment, and then all but the payment are |
| `Fulfillment.SomeRootShipsUnpaid` | apps/api/src/flows/fulfillment.types.ts:18-19 | a run in which such a root ships although the payment failed, for every such order |
| `Fulfillment.HappyPathExactly` | apps/api/src/flows/fulfillment.types.ts:12 | at rest every node has succeeded if and only if the order has not the failure prefix |
| `Fulfillment.DefaultCanStick` | apps/api/src/flows/fulfillment.types.ts:12-15 | a run of the default variant that rests with the payment failed and the root waiting, for every order with the prefix |
| `Fulfillment.CountsAlongTrace` | apps/api/src/flows/fulfillment.service.ts:53-65 | without redelivery every trace prefix has at most as many shipped orders as rendered invoices, and as many of those as fetched lines |
| `FlowCounts.CallsExactly` | apps/api/src/flows/fulfillment.types.ts:12-19 | over every run a job was called once for each attempt it began (those failed, the one running, the one that completed, all allowed if its handler failed it, none if a child failed it) and once more per redelivery |
| `FlowCounts.RedeliveriesCount` | apps/api/src/flows/fulfillment.types.ts:12-19 | redeliveries are counted as the run takes them |
| `FlowCounts.CallsOfFlow` | apps/api/src/flows/payments.processor.ts:29-30 | at rest the payment was called four times for a failing default order and once otherwise, the root once or never, every other node once, and once more per redelivery |
| `FlowCounts.RedeliveredRunsAgain` | apps/api/src/flows/fulfillment.types.ts:12-19 | a running job may always be delivered again, and then runs again at the same attempt |
| `FlowTrees.ProjectionMirrors` | apps/api/src/flows/fulfillment.service.ts:123-129 | the projection is the one tree with the same shape, order, ids, names and queues and the states that were read |
| `FlowTrees.FulfillmentProjection` | apps/api/src/flows/fulfillment.service.ts:53-65 | the tree of a fulfillment flow shows six jobs with their names, their queues, their nesting and the states that were read |
| `FlowTrees.FulfillmentTree` | apps/api/src/flows/fulfillment.service.ts:139-168 | the tree that was launched has each job on its queue |
| `FlowTrees.ShownAtRest` | apps/api/src/flows/fulfillment.types.ts:12-19 | the states shown for the six jobs at rest, by variant and order id |
| `FlowTrees.ShownOnTheWay` | apps/api/src/flows/fulfillment.types.ts:46-47 | the states shown while a job waits for its children, is queued, runs, or waits for another attempt |
| `FlowTrees.FinalMeansEveryNode` | apps/web/hooks/use-flows.ts:31-33 | the finality check holds if and only if every node of the tree was read as completed or failed |
| `FlowTrees.PollingGoesOn` | apps/web/hooks/use-flows.ts:100-103 | the tree is polled every 1000 ms while none has been read or it is not final, and no longer exactly when it is final |
| `FlowTrees.TreeHolds` | apps/api/src/flows/fulfillment.service.ts:112-114 | the tree of a flow holds exactly the nodes its launch created |
| `FlowTrees.PollingStopsSoundly` | apps/web/hooks/use-flows.ts:100-103 | when polling stops every node of the flow has finished and the tree shows the state it is in, although the projection's reads happen at different times of the run |
| `FlowTrees.StuckFlowIsPolled` | apps/web/hooks/use-flows.ts:100-103 | a flow whose failed payment holds the root is polled at every point of every run |
| `FlowTrees.PollingAtRest` | apps/web/hooks/use-flows.ts:100-103 | at rest polling stops if and only if the flow is not such a one |
| `Tenants.ListIsNeverStale` | apps/api/src/workers/tenant-workers.service.ts:85-91 | in every interleaving the list shows a view for exactly the live tenant workers, each at its registered tier or none |
| `Tenants.ListIsOrdered` | apps/api/src/workers/tenant-workers.service.ts:94-103 | in every interleaving the views stand in registry order and no tenant has two |
| `Tenants.SerialRunsAgree` | apps/api/src/workers/tenant-workers.service.ts:50-83 | when work on a tenant does not overlap, a tier is on record exactly for a live worker once no unregister is between removal and return, and answers are right |
| `TenantOverlaps.AnswerIsRight` | apps/api/src/workers/tenant-workers.service.ts:72-82 | over every interleaving, `unregister` answers what it removed if and only if the last registration or removal of the tenant between its read and its removal, if any, left the liveness it read |
| `TenantOverlaps.AnswerIsKept` | apps/api/src/workers/tenant-workers.service.ts:80-82 | whatever happens between removal and return, the answer returned is the one read |
| `TenantOverlaps.TrueIsRight` | apps/api/src/workers/tenant-workers.service.ts:72-82 | for a live worker with no registration meanwhile, `true` is right if and only if no other request removed it in between |
| `TenantOverlaps.RemovalUnreported` | apps/api/src/workers/tenant-workers.service.ts:72-82 | a run where a call returns `false` although it removed a worker, which is then gone |
| `TenantOverlaps.BothReportRemoval` | apps/api/src/workers/tenant-workers.service.ts:71-83 | a run where two calls report the same removal |
| `TenantOverlaps.RegistrationHolds` | apps/api/src/workers/tenant-workers.service.ts:75-83 | once all settles, an accepted registration is in force at its tier if and only if the library failed every unregister that was under way when it was accepted |
| `TenantOverlaps.RegistrationHoldsAlone` | apps/api/src/workers/tenant-workers.service.ts:75-83 | when the library fails none of those, it is in force at its tier if and only if none was under way |
| `TenantOverlaps.TierLost` | apps/api/src/workers/tenant-workers.service.ts:78-81 | a run after which a live worker has no tier and nothing is under way |
| `TenantTiers.TierLessExactly` | apps/api/src/workers/tenant-workers.service.ts:78-81 | over every run, a worker is live without its tier if and only if, since its registration was accepted, no worker of the tenant was removed but some unregister of the tenant returned |
| `TenantTiers.InForceShows` | apps/api/src/workers/tenant-workers.service.ts:94-103 | a worker not removed since its registration shows the tier of that registration, or none once an unregister of the tenant has returned since |
| `TenantTiers.LiveIsInForce` | apps/api/src/workers/tenant-workers.service.ts:50-65 | every live tenant worker has such a registration |
| `TenantTiers.TierLessOnceSettled` | apps/api/src/workers/tenant-workers.service.ts:75-83 | once all settles, an accepted registration has lost its tier but not its worker if and only if the library failed every unregister then asked for and not removed, and another was between its removal and its return |
| `TenantTiers.LiveOnceSettled` | apps/api/src/workers/tenant-workers.service.ts:75-83 | once all settles, its worker is live if and only if the library failed every unregister then asked for and not removed |
| `TenantTiers.TierLessIsShown` | apps/api/src/workers/tenant-workers.service.ts:98-101 | the list shows a view without a tier exactly for such a worker |
| `TenantTiers.FailureKeepsList` | apps/api/src/workers/tenant-workers.service.ts:78-80 | an unregister that the library fails leaves the list as it was |
| `TenantTiers.OthersAreNotListed` | apps/api/src/workers/tenant-workers.service.ts:97 | a worker registered by others is not in the list |
| `Tenants.Scoped` | apps/api/src/workers/tenant-workers.service.ts:102 | scoping keeps exactly the views of the tenant |
| `Tenants.TenantWorkersService.RegisterTenant` | apps/api/src/workers/tenant-workers.service.ts:50-65 | a second registration is refused and changes nothing; an accepted one records worker and tier together |
| `Tenants.TenantWorkersService.AskUnregister` | apps/api/src/workers/tenant-workers.service.ts:76-77 | what is read is whether the list shows the tenant |
| `Tenants.TenantWorkersService.FinishUnregister` | apps/api/src/workers/tenant-workers.service.ts:81 | the list afterwards is the list before, view by view, except that the tenant's own view has no tier |
| `Tenants.TenantWorkersService.ListWorkers` | apps/api/src/workers/tenant-workers.service.ts:94-103 | without a tenant the whole list in order; with one exactly its one view if its worker is live, and nothing otherwise |
| `Onboarding.WelcomeJobIdsDiffer` | apps/api/src/orders/onboarding.service.ts:21-23 | different users have different job ids |
| `Onboarding.OneWelcomeJob` | apps/api/src/orders/onboarding.service.ts:51-64 | in every interleaving an answered user has exactly one job, its inserter reports `created: true`, and `created: false` means exactly that the request read after the insertion |
| `Onboarding.CreatedTwiceOverlaps` | apps/api/src/orders/onboarding.service.ts:42-46 | two `created: true` answers for one user come from overlapping requests |
| `Onboarding.ExactlyOneCreated` | apps/api/src/orders/onboarding.service.ts:38-40 | without overlap exactly one request reports `created: true` |
| `Onboarding.BothReportCreated` | apps/api/src/orders/onboarding.service.ts:42-46 | a run with two `created: true` answers and one job |
| `Reindexing.DeduplicatedIsTrue` | apps/api/src/search/reindex.service.ts:84-95 | in every interleaving and mode, `deduplicated: true` means nothing was inserted and the job is the one the key pointed at when read |
| `Reindexing.ReportIsExact` | apps/api/src/search/reindex.service.ts:35-36 | a simple or throttle request, among any traffic, misreports if and only if the last step between its read and its enqueue that set or lost the key left it at a job other than the one read |
| `Reindexing.WrongByInsertion` | apps/api/src/search/reindex.service.ts:84-95 | when only such requests are made for the term, it misreports if and only if another request inserted a job in between and the key was not lost after that |
| `Reindexing.RunHasHistory` | apps/api/src/search/reindex.service.ts:84-95 | every run has the sequence of states that these results are stated over |
| `Reindexing.CollapseUnreported` | apps/api/src/search/reindex.service.ts:84-95 | a run with a collapse reported as `false` |
| `Reindexing.LostKeyInserts` | apps/api/src/search/reindex.service.ts:84-95 | a run in which the key is lost and the next request inserts a job of its own |
| `Reindexing.ModesAsk` | apps/api/src/search/reindex.service.ts:57-71 | the key, time to live, extension, replacement, delay and keep-last of the four modes |
| `Reindexing.ModesAllow` | apps/api/src/search/reindex.service.ts:57-71 | what the queue may do with each: collapse into the keyed job or insert a keyed one in simple and throttle mode, any issued or a fresh job in the others |
| `Reindexing.SerialReports` | apps/api/src/search/reindex.service.ts:57-60 | one-at-a-time simple requests for a term report false once and then always true, with the same id |
| `Redaction.Redact` | apps/api/src/events/redact.ts:42-54 | the recursion, with its list map and record loop, computes the redacted value |
| `Redaction.SensitiveExactly` | apps/api/src/events/redact.ts:17-28 | a key is masked if and only if it spells one of the ten names in any mix of cases |
| `Redaction.FieldMasked` | apps/api/src/events/redact.ts:50-52 | in the copy of an object a field has the marker if its key is masked, and its redacted value if not |
| `Redaction.AnyCaseIsMasked` | apps/api/src/events/redact.ts:51 | an address under its key in any case becomes the marker |
| `Redaction.PlainPathsKept` | apps/api/src/events/redact.ts:36-37 | along every path without sensitive keys the redacted value has what the original has |
| `Redaction.NothingSensitiveSurvives` | apps/api/src/events/redact.ts:42-54 | at any depth, below a sensitive key there is the marker and nothing else |
| `Redaction.ShapeKept` | apps/api/src/events/redact.ts:4-6 | the redacted value has the same items, keys and order at every depth, and the same scalars, outside what is masked, if and only if no key `__proto__` stands there |
| `Redaction.KeysKept` | apps/api/src/events/redact.ts:49-52 | one object's keys and their order are kept if and only if none is `__proto__` |
| `Redaction.ProtoIsDropped` | apps/api/src/events/redact.ts:49-52 | an object that loses its `__proto__` key |
| `Redaction.CleanIsFixed` | apps/api/src/events/redact.ts:42-54 | redaction leaves a value unchanged if and only if there is nothing to mask in it |
| `Redaction.RedactIsIdempotent` | apps/api/src/events/redact.ts:42-54 | redacting twice is redacting once |
| `Redaction.RedactHidesExactly` | apps/api/src/events/redact.ts:4-6 | two values redact alike if and only if they differ at most under sensitive keys and in `__proto__` fields |
| `Invoices.RenderInvoice` | apps/api/src/workers/invoice.sandboxed.ts:51-62 | the checksum is the last of the 10001 digests that start with the hash of the id and go on with the hash of the digest before and all lines |
| `Invoices.ChainEnds` | apps/api/src/workers/invoice.sandboxed.ts:53-60 | every such chain of digests, of any length, ends in the iterate |
| `Invoices.SomeChain` | apps/api/src/workers/invoice.sandboxed.ts:53-60 | there is such a chain for every number of rounds |
| `Invoices.LineBoundariesInvisible` | apps/api/src/workers/invoice.sandboxed.ts:54-60 | for any hash and number of rounds the checksum does not depend on where lines are cut |
| `Invoices.RoundsCompose` | apps/api/src/workers/invoice.sandboxed.ts:54-60 | rounds can be split anywhere |

## Left out

- The queue library and Redis: scheduling, locks, stall detection, rate limits, metrics and shutdown. Their part in each
  protocol is the contract stated at the head of `FlowEngine`, `Tenants`, `Onboarding`, `Reindexing` and `Webhooks`.
- Controllers, schemas, configuration parsing, telemetry, and the web pages and hooks other than those in the table.
- JSON text parsing, character decoding and SHA-256: uninterpreted parameters.
- `SseCollect.CollectSseEvents`: cancelling the reader; a timer that fires while a chunk is handled shows at the next read.
- `EventFeeds.ReplayThenLive`: one connection; the browser's reconnection after an error starts another.
- `Redaction.Redact`: JSON values only. Dates, functions and other non-JSON objects, and what a `__proto__` assignment
  does to the prototype of the copy, are not modelled. Lower-casing is exact for membership in a set of ASCII names.
- `Reindexing.DeduplicatedIsTrue`: in debounce and keep-last mode the queue may return any job issued before or a fresh one.
- `Reindexing.ReportIsExact`: therefore about simple and throttle requests, whatever the others are; in the other two modes the
  key alone does not determine the job returned.
- `Invoices.LineBoundariesInvisible`: strings hold no lone surrogates, so a cut inside a surrogate pair, which changes the
  encoded bytes and with them the checksum, is not expressed.
- `FlowRuns.WorkEnds`: redelivery of stalled jobs is excluded, since it may repeat without bound.
- `Tenants.ListIsNeverStale`: workers registered by others never use a tenant queue name.
- `FlowHandlers.FulfillmentProcessor.Ship`: stands for the render, stock and data handlers too, which have the same body.
- The services whose requests interleave are modelled on values, one step per segment between awaits; only the segments
  of the tenant service that change its own fields are also given as methods.
- Further push-then-shift and ring stores (`listDeliveries`, the webhook log's list): the same buffers again.
