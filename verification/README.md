# Verified models of a deterministic trading engine

These Dafny files model the pure-logic crates of the engine and prove what they are for. Each module
follows one source component. Code that updates fields or loops over variables is a class or a method
proved against a specification function; the properties are lemmas about that function, over every
input, run or interleaving.

- **Order execution and paper broker** (`Scheduler`, `ChildPlan`, `OrderBook`, `PaperBroker`, `Trading`,
  `Tca`, with `BrokerApi`, `Sums`, `Decimal`, `Ordered`). The broker queues events that the book applies
  later. `Trading` is the system of both with the events in flight: the book never refuses one, and the
  two sides agree once the queue is empty.
- **Journal** (`Crc32c`, `Journal`, `JournalFailures`). A file is a sequence of bytes; a crash, or a call
  that fails, leaves any first part of the frame being written. The checksum is CRC32C (section 12.1 of RFC 3720) over words of bits.
- **Context graph** (`GraphSearch`, `Facts`, `ContextGraph`). Two breadth-first searches, versions of
  facts in two time dimensions, and the graph that keeps both.
- **Configuration text** (`Text`, `Cfg`, `Launcher`). Parser and printer with their escapes, and a line
  editor whose effect is a map update.
- **Plans** (`Plans`, `PlanCodec`, `DurablePlans`, with `Wire`). A lifecycle that is replayed from its
  events, their bytes, and the journal they are written to before they take effect.
- **Command channel** (`Ipc`, with `Wire`). Three codecs, the error body, one connection end to end.
- **Order admission** (`IbkrGateway`). Two critical sections with a transport call between them, in
  every interleaving.

Where the code parts from its documentation or from what its names promise, the code is modelled:

- Front-loading is documented to keep one tick for every child; it keeps the promise by refusing
  (`Scheduler.FullUrgencyCanRefuse`, `Scheduler.FrontSucceedsExactly`).
- A fill the lifecycle refuses still adds to the filled count (`OrderBook.RefusedFillStillCounts`,
  `OrderBook.RefusalChangesExactly`).
- For a resting order the paper broker remembers the next order id, not the one it acknowledged
  (`PaperBroker.RemembersLastExactly`), and the book refuses what it then answers
  (`Trading.RestingIsMisremembered`).
- Adding an edge again is documented to be idempotent and shows one more copy of it
  (`ContextGraph.AddedAgain`).
- Broker reports to a child plan are documented to apply idempotently (`ChildPlan.RepeatedExactly`), and a
  fill that races a cancel request is refused (`ChildPlan.ActionExactly`).
- A claim that fails marks children it never hands out (`ChildPlan.HandedOutExactly`).
- A journal that stays open after a failed append can lose acknowledged records behind it, or become
  unreadable (`JournalFailures.LostBehindTheTear`, `JournalFailures.UnbrokenExactly`).
- Fact upserts close older versions only (`Facts.LateArrivalOverlaps`, `Facts.UpsertExclusiveExactly`).
- Line breaks in string settings are not escaped (`Cfg.LineBreakIsLost`, `Cfg.RoundTripExactly`).
- A plan store can emit an event its own restore refuses (`Plans.ExpiresWhileExecuting`,
  `Plans.ReplayExactly`).
- After a failed call another call can start without `connect_ready` in two ways: until the failure is
  recorded the session still admits orders (`IbkrGateway.StartsBeforeFailureIsSeen`), and afterwards a
  call admitted before still goes out (`IbkrGateway.StartsAfterFailure`); there is no third
  (`IbkrGateway.StartsExactly`).
- A plan event the store emits can stop the next start of the engine: for an executing plan that
  recovery finds expired (`DurablePlans.ExpiryStopsTheRestart`, `DurablePlans.RecoveryStopsTheRestart`),
  for a plan that expires when it is generated (`DurablePlans.StillbornStopsTheRestart`), and in no other
  case than those of `DurablePlans.RestartIsInvisible`.
- While a cancel is pending, fills and the snapshot's cumulative count disagree
  (`OrderBook.PendingCancelDiffers`, `OrderBook.CumulativeMatchesExactly`), and a cancellation is not
  replayed onto a persisted intent (`OrderBook.CancelIsNotReplayed`, `OrderBook.ReplayShadowsLive`).
- A response can begin like an error and is then lost (`Ipc.AnswerIsReceived`, `Ipc.SpellingNeedsRoom`).

`dafny verify dfyconfig.toml` checks the whole project.

## Model

| member | source | states |
|---|---|---|
| Trading.RunKeeps | crates/exchange-sim/src/lib.rs:63-311 | in every run of price changes, submissions, cancellations, drains and deliveries, book, broker and the events between them tell one consistent story of every order |
| Trading.RunNeverRefuses | crates/execution/src/lib.rs:1155-1236 | in every such run, however long events wait, the book refuses no broker event |
| Trading.EveryFillIsGood | crates/exchange-sim/src/lib.rs:76-115 | every fill ever reported is for the whole order, at a positive price at or better than its limit, and is the broker's last word on the order |
| Trading.NothingIsMissed | crates/exchange-sim/src/lib.rs:63-226 | in every run each resting order is a limit order of a priced instrument whose current price does not meet its limit |
| Trading.AcksAreNumbered | crates/exchange-sim/src/lib.rs:166-175 | in every run the k-th acknowledgement carries the id paper-k, as long as the counter lasts |
| Trading.RestingIsUnfinished | crates/exchange-sim/src/lib.rs:139-311 | no order both rests and is finished |
| Trading.DrainedAgree | crates/execution/src/lib.rs:1155-1236 | once nothing is in flight, filled quantity and lifecycle state of each order agree with the broker, state by state and in both directions |
| Trading.SnapshotIsTheBook | crates/exchange-sim/src/lib.rs:235-288 | once nothing is in flight, the snapshot succeeds if and only if in every instrument the book's fills, buys counted up and sells down order by order in id order, never leave the range of an i64; its positions are then those sums, without the instruments that net to nothing, and else the error is the overflow |
| Trading.SnapshotOrdersAreTheBook | crates/exchange-sim/src/lib.rs:235-252 | once nothing is in flight, a successful snapshot has a line for exactly the orders the broker knows, and its cumulative count, present exactly for filled orders, is the one the book already has |
| Trading.RestingIsMisremembered | crates/exchange-sim/src/lib.rs:201-233 | over every run, once nothing is in flight, what the broker answers for a resting order is refused by the book as a mismatch, unless the order has the last id the counter can give |
| Trading.SubmitOrderTo | crates/execution/src/lib.rs:1334-1356 | the in-place submission, queued, sending, then sent or unknown, changes book and broker as the specification's submission does |
| Trading.CancelOrderIn | crates/execution/src/lib.rs:1367-1383 | the in-place cancellation, with the ambiguous outcome when the broker refuses, changes both as specified |
| OrderBook.Book.InsertIntent | crates/execution/src/lib.rs:1097-1116 | what insertion leaves in the book and which error it reports, duplicates and wrong initial states included |
| OrderBook.Book.Advance | crates/execution/src/lib.rs:1123-1139 | an explicit transition moves exactly one record, or none with the error |
| OrderBook.Book.MarkUnknown | crates/execution/src/lib.rs:1146-1148 | an uncertain send moves the record to unknown or is refused |
| OrderBook.Book.ApplyBrokerEvent | crates/execution/src/lib.rs:1155-1236 | what each broker event does to its record, the fill count written before the transition check included |
| OrderBook.Book.ApplyCumulativeCount | crates/execution/src/lib.rs:1245-1269 | what a snapshot's cumulative count does to its record |
| OrderBook.MovesExactly | crates/execution/src/lib.rs:1424-1482 | a transition is accepted exactly from the states listed for its target, and then changes the state alone |
| OrderBook.EventExactly | crates/execution/src/lib.rs:1155-1236 | for each kind of broker event, exactly the states and quantities it is accepted for, and the record it leaves |
| OrderBook.ReplayMatchesLive | crates/execution/src/lib.rs:1155-1236 | with no local move in between, broker events a live order accepted after its send replay onto the persisted risk-approved intent and end in the same record |
| OrderBook.ReplayShadowsLive | crates/execution/src/lib.rs:1123-1236 | for a live run with cancel requests and uncertain calls in which nothing was refused, the persisted intent takes the same broker events if and only if none of them clashes with its state, and then agrees with the live record up to those moves |
| OrderBook.RecoveryKeepsTheCount | crates/engine/src/lib.rs:1470-1490 | recovery, which applies every journalled broker event and goes on past refusals, ends with the filled count of the live run, whatever was refused or moved locally in that run, from any two records with the same count of which none is complete without being filled |
| OrderBook.RestartedKeepsTheCount | crates/engine/src/lib.rs:4623-4633 | so the persisted intent with all events heard since ends with the live filled count, starting from any record that is not complete without being filled |
| OrderBook.CancelIsNotReplayed | crates/execution/src/lib.rs:1424-1482 | acknowledged, asked to cancel, cancelled: the live order ends cancelled, and the replay refuses the cancellation |
| OrderBook.CumulativeMatchesFills | crates/execution/src/lib.rs:1245-1269 | from a state in which the order can be filled in part, fills within the order are all accepted, and the cumulative count leaves the record they leave |
| OrderBook.CumulativeMatchesExactly | crates/execution/src/lib.rs:1186-1269 | from any state and for any positive fills whose total fits an i64, refused ones included, the cumulative count leaves the record the fills leave if and only if the order is complete, or there are no fills, or the count is within the order and the lifecycle allows the state it calls for, or the count is beyond it and no single fill fits |
| OrderBook.PendingCancelDiffers | crates/execution/src/lib.rs:1211-1269 | with a cancel pending, one of two ticks filled: the fill is refused but counted, the cumulative count refused and not counted |
| OrderBook.FillsAcceptedExactly | crates/execution/src/lib.rs:1186-1236 | in any state, positive fills are all accepted if and only if there are none, or the order is complete, or it can be filled in part and they stay within it or complete it to the tick before exceeding it, or it can only be completed and the first one does that |
| OrderBook.CompletedIgnoresFills | crates/execution/src/lib.rs:1186-1236 | a completed order takes further fills without a change |
| OrderBook.RefusedFillStillCounts | crates/execution/src/lib.rs:1211-1219 | a refused fill can still add to the filled count |
| OrderBook.RefusalChangesExactly | crates/execution/src/lib.rs:1155-1236 | the exact fills and acknowledgements whose refusal changes a record; no refusal changes the intent |
| PaperBroker.Exchange.SendIntent | crates/exchange-sim/src/lib.rs:139-226 | a send refuses or accepts in the source's order of checks, and what it leaves resting, remembered and queued |
| PaperBroker.RemembersLastExactly | crates/exchange-sim/src/lib.rs:139-226 | what is remembered for an accepted order is the last event emitted for it if and only if it was filled at once, or the order id counter is at its end |
| PaperBroker.Exchange.UpdatePrice | crates/exchange-sim/src/lib.rs:63-74 | a price update, then every resting order it crosses filled at that price in id order |
| PaperBroker.Exchange.MatchResting | crates/exchange-sim/src/lib.rs:76-115 | the matching loop fills exactly the crossed candidates |
| PaperBroker.PriceMoveFillsExactly | crates/exchange-sim/src/lib.rs:63-115 | a price move fills exactly the resting orders of its instrument whose buy limit is at or above, or whose sell limit is at or below the price: each whole, once, at that price and in id order, and every other order stays as it is |
| PaperBroker.SendExactly | crates/exchange-sim/src/lib.rs:139-226 | a send is accepted exactly for a positive quantity, a priced instrument and a new id; a market order or one whose limit is met is then filled whole at the current price, any other rests, and nothing else changes |
| Ordered.LessExactly | crates/exchange-sim/src/lib.rs:76-115 | the order of ids is by the first character that differs, a first part before the whole |
| PaperBroker.Exchange.CancelOrder | crates/exchange-sim/src/lib.rs:290-311 | a cancel takes a resting order off and queues the event, or reports that it does not work |
| PaperBroker.Exchange.DrainEvents | crates/exchange-sim/src/lib.rs:118-122 | draining returns the queued events in order and empties the queue |
| PaperBroker.Exchange.TakeSnapshot | crates/exchange-sim/src/lib.rs:235-288 | the snapshot reports the broker's last word on every order and the positions, or the overflow |
| PaperBroker.Exchange.AddPositions | crates/exchange-sim/src/lib.rs:255-272 | the loop over the fills computes the checked sums |
| Scheduler.PlanChildren | crates/execution/src/lib.rs:561-770 | the planning loops compute the specified plan or error for every policy, the adaptive one included |
| Scheduler.PlanQuantities | crates/execution/src/lib.rs:561-770 | the loops of one policy compute its quantities or its error |
| Scheduler.TakeVolumes | crates/execution/src/lib.rs:620-656 | the participation loop takes min(capacity, remaining) of each volume, and what remains is the total less what was taken |
| Scheduler.DistributeRemainder | crates/execution/src/lib.rs:590-705 | the loop that hands out a remainder tops up one tick each from the front |
| Scheduler.PlanIsExact | crates/execution/src/lib.rs:561-770 | for every policy a plan that succeeds has positive children that add up to the parent; the i-th is numbered i, named after parent and number, due (i-1) intervals after the start, and has the parent's side, order type and limit |
| Scheduler.SplitExactly | crates/execution/src/lib.rs:561-770 | for every policy, how much each child gets: equal parts that fall by at most one tick, proportional shares rounded down with one tick more for the first, or what each slice of volume allows, the last cut to fit |
| Scheduler.ChildIdsAreDistinct | crates/execution/src/lib.rs:735-770 | child ids of one parent determine the sequence number |
| Scheduler.SharesAddUp | crates/execution/src/lib.rs:590-705 | floors plus the handed-out remainder are the total, for any weights |
| Scheduler.SharesAreClose | crates/execution/src/lib.rs:590-705 | each weighted share is within one tick of its exact rational share |
| Scheduler.LeftoverIsSmall | crates/execution/src/lib.rs:590-705 | the remainder is smaller than the number of children |
| Scheduler.TwapSucceedsExactly | crates/execution/src/lib.rs:570-588 | an even split succeeds if and only if there are 1 to total slices and a positive interval |
| Scheduler.VwapSucceedsExactly | crates/execution/src/lib.rs:589-619 | a weighted split succeeds if and only if the weights are positive, their sum fits and every child behind the remainder has a share of one tick |
| Scheduler.PovSucceedsExactly | crates/execution/src/lib.rs:620-656 | participation succeeds if and only if its total capacity covers the order, for well-formed parameters |
| Scheduler.FrontSucceedsExactly | crates/execution/src/lib.rs:657-705 | front-loading succeeds if and only if the smallest share is worth a tick; the schedule is then non-increasing |
| Scheduler.FullUrgencyCanRefuse | crates/execution/src/lib.rs:657-705 | two ticks in two slices at full urgency are refused: a tick for every child is kept by refusing |
| Scheduler.PlanSucceedsExactly | crates/execution/src/lib.rs:561-770 | for every policy, the adaptive one included, a plan is made if and only if the quantity is positive, the parameters are in range, every child is worth a tick, and the number of children and the last due time fit their types |
| Scheduler.EvenIsSlowest | crates/execution/src/lib.rs:570-588 | among all non-increasing splits of a total the even one has done least at every prefix |
| Scheduler.FrontLoadedLeadsTwap | crates/execution/src/lib.rs:657-705 | the front-loaded schedule is non-increasing and at every prefix at least as far as the even one |
| Scheduler.NoUrgencyIsTwap | crates/execution/src/lib.rs:657-705 | with urgency 0 the front-loaded result equals the even one, errors included |
| ChildPlan.ChildPlan.Create | crates/execution/src/lib.rs:327-355 | a plan holds the scheduler's children, all pending, or reports the scheduler's error |
| ChildPlan.ChildPlan.ClaimDue | crates/execution/src/lib.rs:362-375 | a claiming pass marks and returns the due children; a due-time overflow stops it with the earlier ones marked |
| ChildPlan.ChildPlan.Do | crates/execution/src/lib.rs:402-552 | each reported action applies its rule to one child or changes nothing |
| ChildPlan.ActionExactly | crates/execution/src/lib.rs:402-552 | for each state, exactly the actions a child takes, and the record each leaves; while a cancel is requested a fill is refused |
| ChildPlan.RepeatedExactly | crates/execution/src/lib.rs:426-525 | a report that was taken is taken again without a change if and only if it is an acknowledgement, or a fill that completed the child or found it complete |
| ChildPlan.TerminalExactly | crates/execution/src/lib.rs:531-543 | completed, cancelled and refused children are exactly those that, once claimed, no action can change any more |
| ChildPlan.ClaimPass | crates/execution/src/lib.rs:362-375 | the claiming loop over the records computes the specified pass |
| ChildPlan.HandedOutOnce | crates/execution/src/lib.rs:327-375 | in every run no child order is handed out twice |
| ChildPlan.HandedOutExactly | crates/execution/src/lib.rs:362-375 | in every run a child has left the pending state if and only if some claim came at or after its due time and no due time up to it overflows, and it was handed out if and only if moreover no due time of the plan overflows |
| ChildPlan.FewChanges | crates/execution/src/lib.rs:402-552 | each child makes at most seven state changes, and its state determines where its filled amount lies |
| ChildPlan.CompleteStays | crates/execution/src/lib.rs:538-545 | a completed plan never changes again |
| ChildPlan.NeverOverfilled | crates/execution/src/lib.rs:431-517 | total fills never exceed the parent quantity, whatever is reported |
| ChildPlan.ClaimFailsExactly | crates/execution/src/lib.rs:362-375 | at any point of any run, claiming fails if and only if the creation time plus the last due offset does not fit a u64 |
| Tca.TcaSucceedsExactly | crates/execution/src/lib.rs:84-136 | the calculation succeeds if and only if its inputs are in range and the quantities fit an i64; quantity, notional and shortfall are then the sums over the fills, the latency and the participation, rounded down and capped, those of the inputs |
| Tca.TcaAdds | crates/execution/src/lib.rs:84-136 | analysing two fill lists together adds up what analysing each gives |
| Tca.CalculateDetailed | crates/execution/src/lib.rs:924-1004 | the accumulating loop computes the specified shortfall or error |
| Tca.DetailedSucceedsExactly | crates/execution/src/lib.rs:924-1004 | the report succeeds if and only if all observations are complete and in order, the quantity stays within the order and the volume fits an i64; the shortfall is the difference of the two averages, each rounded down, within one tick of the exact one, its sign by the side |
| Tca.DetailedFailsAs | crates/execution/src/lib.rs:913-1020 | which error: the first observation that is incomplete, out of order or one too many tells, and after all pass a quantity beyond the order |
| Tca.RoundedIsClose | crates/execution/src/lib.rs:848-877 | rounding both averages costs less than one tick |
| Crc32c.Compute | crates/journal/src/lib.rs:649-662 | the two nested loops compute the checksum, for any polynomial |
| Crc32c.ComputeByte | crates/journal/src/lib.rs:652-660 | the eight-step inner loop shifts one byte into the register |
| Crc32c.WindowInjective | crates/journal/src/lib.rs:649-662 | the register is injective on any window of up to four bytes, whatever surrounds it |
| Crc32c.ChecksAtResidue | crates/journal/src/lib.rs:649-662 | a message checks against its stored checksum if and only if the register of both ends in one fixed value |
| Crc32c.CorruptionSeen | crates/journal/src/lib.rs:621-635 | no change confined to four consecutive bytes of a checked message, its trailer included, goes unseen |
| Crc32c.StoredChecksum | crates/journal/src/lib.rs:207-243 | a stored checksum reads back as written |
| Crc32c.ChecksumIsRemainder | crates/journal/src/lib.rs:649-662 | with the polynomial of the code the checksum is the CRC-32C of section 12.1 of RFC 3720: the complemented remainder of the message times x^32, its first 32 bits complemented, on long division by the generator with the powers listed there |
| Journal.ScanPath | crates/journal/src/lib.rs:550-647 | the scan loop finds the records, the valid length and the invalid tail that the specification finds |
| Journal.ReadAt | crates/journal/src/lib.rs:560-640 | one turn of the scan loop on the buffer reads what is read from the bytes at that offset |
| Journal.FrameLayout | crates/journal/src/lib.rs:218-230 | a frame is the four letters ITJR, version 1, sequence, length, payload, and the CRC-32C of all that |
| Journal.ScanIsExact | crates/journal/src/lib.rs:550-647 | the records found, framed again, are exactly the first valid bytes |
| Journal.ScanIsMaximal | crates/journal/src/lib.rs:550-647 | no longer prefix of the file is a run of frames |
| Journal.RescanIsClean | crates/journal/src/lib.rs:173-194 | scanning the kept prefix finds the same records and no invalid tail |
| Journal.CutFrameIsTorn | crates/journal/src/lib.rs:550-647 | a frame cut short anywhere is never read as a record |
| Journal.CorruptionStopsScan | crates/journal/src/lib.rs:621-635 | a change to one frame confined to four bytes, its version and length aside, stops the scan exactly at that frame with all earlier records |
| Journal.Writer.Open | crates/journal/src/lib.rs:173-194 | opening truncates the invalid tail and continues the sequence |
| Journal.Writer.Append | crates/journal/src/lib.rs:207-243 | an append writes one frame and takes the next sequence, or is refused for its size with nothing written, or fails with any first part of the frame written and the sequence not taken |
| Journal.RunRecoversEverything | crates/journal/src/lib.rs:173-243 | in every run of appends, crashes at any byte and reopenings, a scan finds exactly the kept payloads numbered 0 to n-1, the next append gets n, and the counter cannot saturate |
| Journal.AcknowledgedIsKept | crates/journal/src/lib.rs:207-243 | an acknowledged append is found under its sequence after every later event; appends are refused exactly for their size |
| Journal.CrashKeepsAtMostTheOneInFlight | crates/journal/src/lib.rs:173-243 | a crash adds at most the append it interrupted, and only if its whole frame was written |
| Journal.KeptGrows | crates/journal/src/lib.rs:173-243 | nothing kept is ever lost |
| JournalFailures.UnbrokenExactly | crates/journal/src/lib.rs:207-243 | in every run of appends that may fail, with the journal left open, a scan finds exactly the frames written whole, to the end of the file, if and only if no failed call left a proper part of a frame |
| JournalFailures.SequencesCount | crates/journal/src/lib.rs:232-242 | each of those frames carries the number of payloads acknowledged before it |
| JournalFailures.RepeatedExactly | crates/journal/src/lib.rs:239-242 | two consecutive frames carry the same sequence if and only if the call of the first one failed after writing it whole |
| JournalFailures.BehindTheTear | crates/journal/src/lib.rs:550-647 | if a file with part of a frame in it can be read at all, all frames before that part are found and none is read where the part ends, whatever follows |
| JournalFailures.ShortTear | crates/journal/src/lib.rs:560-600 | one to three bytes of a frame in front of another end the scan, four or five are a corruption error |
| JournalFailures.LostBehindTheTear | crates/journal/src/lib.rs:173-243 | in every run, after the first call that left part of a frame, opening at once keeps all that was whole; going on instead, no later frame is read where it was written, and if four or five bytes were left and the next append succeeds, the journal cannot be opened |
| GraphSearch.PathBetween | crates/context-graph/src/lib.rs:801-836 | the search returns nothing if and only if no walk of at most the limit exists, else a simple, connected, shortest path |
| GraphSearch.Neighborhood | crates/context-graph/src/lib.rs:677-707 | the search returns exactly the nodes within the limit, each once, in order of distance |
| GraphSearch.Expand | crates/context-graph/src/lib.rs:690-703 | the loop over the edges, taken in both directions, meets each unknown neighbour once, in the order of the first edge that leads to it |
| GraphSearch.Unwind | crates/context-graph/src/lib.rs:808-815 | following the parent pointers ends at the root and yields the path |
| GraphSearch.StepKeeps | crates/context-graph/src/lib.rs:801-836 | one step of the search keeps distances, queue order and completeness |
| GraphSearch.Exhausted | crates/context-graph/src/lib.rs:801-836 | when the queue is empty, the met nodes are exactly those within the limit |
| Facts.UpsertAnswers | crates/context-graph/src/lib.rs:538-570 | nothing changes where the new knowledge has not started; from then on the fact is added and exactly the versions of its interval that were known before and still running are gone; what is retained only grows |
| Facts.OtherTimesStay | crates/context-graph/src/lib.rs:553-563 | an upsert changes no answer about any other valid interval |
| Facts.UpsertStores | crates/context-graph/src/lib.rs:553-563 | what is stored after an upsert: each version of the same interval that was known before and still running, with its knowledge ended at the new start; every other one as it was; and the fact, each once |
| Facts.UpsertExclusiveExactly | crates/context-graph/src/lib.rs:553-563 | in whatever order the versions are stored, an upsert keeps at most one of them known at a time if and only if the new fact ends before every version known from its start on |
| Facts.UpsertSeesOneExactly | crates/context-graph/src/lib.rs:538-658 | in terms of what is seen, and in whatever order the versions are stored: where at most one version of a valid interval was visible at any time, that stays so if and only if the same condition holds |
| Facts.SortExclusive | crates/context-graph/src/lib.rs:553-563 | sorting versions by their times neither makes nor resolves an overlap |
| Facts.ExclusiveSeesOne | crates/context-graph/src/lib.rs:642-658 | versions with valid intervals are never known together if and only if they are never visible together |
| Facts.LateArrivalOverlaps | crates/context-graph/src/lib.rs:553-658 | older knowledge arriving last: both versions stay open and are visible at every time from the later knowledge on |
| Facts.RisingMeansOne | crates/context-graph/src/lib.rs:538-570 | facts whose knowledge starts strictly increase for each valid interval leave versions that are ordered and never known together |
| Facts.RisingSeesOne | crates/context-graph/src/lib.rs:642-658 | after such arrivals, at most one version of a valid interval is visible at any valid and knowledge time |
| Facts.ExclusiveMeansOne | crates/context-graph/src/lib.rs:642-658 | versions never known together are never visible together |
| Facts.UpsertInserts | crates/context-graph/src/lib.rs:564-565 | on ordered versions the stable sort amounts to one insertion |
| Facts.SortOrders | crates/context-graph/src/lib.rs:564-565 | the stable sort orders by knowledge start, then valid start |
| ContextGraph.Graph.UpsertNode | crates/context-graph/src/lib.rs:498-532 | the older entry point adds a node once, refuses a redefinition, and keeps the graph consistent |
| ContextGraph.Graph.UpsertNodeFact | crates/context-graph/src/lib.rs:538-570 | each check in its order; on success exactly one identity's versions change as Upsert says and the node shows its latest version |
| ContextGraph.Graph.AddEdge | crates/context-graph/src/lib.rs:576-607 | the older entry point inserts the edge and appends one more undated version of it, after its checks |
| ContextGraph.AddedAgain | crates/context-graph/src/lib.rs:571-607 | calling it again leaves the set of edges as it was, but each call shows one more copy of the edge at every time from zero on |
| ContextGraph.Graph.AddEdgeFact | crates/context-graph/src/lib.rs:613-640 | an edge fact needs both nodes; on success exactly one edge's versions change as Upsert says |
| ContextGraph.AddVersion | crates/context-graph/src/lib.rs:553-565 | the closing loop, the push and the sort are one upsert |
| ContextGraph.Graph.NodesAt | crates/context-graph/src/lib.rs:642-650 | the answer holds each visible version as often as it is filed under its identity |
| ContextGraph.Graph.EdgesAt | crates/context-graph/src/lib.rs:652-660 | the same for edges |
| ContextGraph.AnswersAfterFact | crates/context-graph/src/lib.rs:613-660 | across the whole graph, a new fact changes no as-of answer before its knowledge start nor about another identity, and later ones as stated |
| ContextGraph.Graph.NeighborhoodOf | crates/context-graph/src/lib.rs:677-707 | a graph's neighbourhood is the current nodes within the limit, by distance |
| ContextGraph.Graph.PathTo | crates/context-graph/src/lib.rs:801-836 | a graph's path search over its own nodes and edges is shortest or shows there is none |
| ContextGraph.InsertEdgeKeeps | crates/context-graph/src/lib.rs:636-637 | the edge set stays in its order and gains exactly the edge |
| ContextGraph.EdgeLessExactly | crates/context-graph/src/lib.rs:71-80 | edges are ordered by start, then relation, then end |
| ContextGraph.UpsertAgrees | crates/context-graph/src/lib.rs:538-563 | a fact that is not refused leaves no artifact with two claims about one node for the same times |
| ContextGraph.FitIsShown | crates/context-graph/src/lib.rs:553-570 | after any operations a node is shown as the version says whose knowledge starts last, and whose validity starts last among those |
| Text.FromToUtf8 | crates/ipc/src/lib.rs:486-497 | text survives UTF-8 (section 3 of RFC 3629) |
| Text.ToFromUtf8 | crates/ipc/src/lib.rs:486-497 | accepted bytes are the only encoding of their text |
| Text.BlankExactly | crates/ipc/src/lib.rs:182-192 | a text trims to nothing if and only if it is all white space |
| Cfg.ParseCfg | crates/cfg-core/src/lib.rs:35-99 | the line loop parses to the specified settings, or to the first error with its line |
| Cfg.StripComment | crates/cfg-core/src/lib.rs:102-122 | the scanner with its two flags keeps the specified part of a line |
| Cfg.OnlyCommentsGo | crates/cfg-core/src/lib.rs:102-122 | every line is bare characters and quoted strings, then ends, goes on with a comment, or with a quote never closed; exactly the comment is dropped |
| Cfg.UnquotedComment | crates/cfg-core/src/lib.rs:102-122 | a line without quotes is kept up to its first hash sign |
| Cfg.LooseEntryReads | crates/cfg-core/src/lib.rs:38-50 | an entry is read whatever the white space around its key and value, and whatever comment follows |
| Cfg.ErrorNamesTheLine | crates/cfg-core/src/lib.rs:40-97 | the first line that cannot be read, repeats a key or has a bad value is reported under its number from one |
| Cfg.LineEnds | crates/cfg-core/src/lib.rs:40-41 | a line ends at a line feed, with or without a carriage return before it; what is left at the end is a line as it stands unless it is empty |
| Cfg.BareValueExactly | crates/cfg-core/src/lib.rs:72-92 | of bare text exactly true and false are truth values, what has a point or an exponent is read as a float, and anything else as an integer |
| Decimal.ParseExactly | crates/cfg-core/src/lib.rs:84-90 | an integer is read from digits with or without a sign, whatever zeros they begin with, if it fits an i64 |
| Cfg.RenderCfg | crates/cfg-core/src/lib.rs:126-146 | the output buffer holds one line per key, in key order |
| Cfg.UnescapedEscaped | crates/cfg-core/src/lib.rs:66-68 | the two replace passes undo the two escapes, for every mix of backslashes and quotes |
| Cfg.FirstPass | crates/cfg-core/src/lib.rs:66-68 | the first pass takes back the doubled backslashes and nothing else |
| Cfg.RoundTripExactly | crates/cfg-core/src/lib.rs:35-146 | settings without floats parse back from their rendering if and only if the text is short enough, the keys are valid and the strings bounded and on one line |
| Cfg.LineBreakIsLost | crates/cfg-core/src/lib.rs:132-136 | a line break in a string does not survive |
| Cfg.ParsedFits | crates/cfg-core/src/lib.rs:35-99 | whatever parses has valid keys and bounded one-line strings |
| Cfg.EntryReads | crates/cfg-core/src/lib.rs:41-61 | a rendered line is read as its key and its value |
| Launcher.UpdateCfgSetting | crates/launcher/src/lib.rs:233-258 | the loop with its flag computes the edited lines |
| Launcher.EditShape | crates/launcher/src/lib.rs:233-258 | lines before the first match stay, the new line takes its place or comes last, and all other lines follow in their order without later matches |
| Launcher.MatchesExactly | crates/launcher/src/lib.rs:239-240 | for a key the parser accepts, the editor finds a line if and only if the parser reads that key from it |
| Launcher.EditIsUpdate | crates/launcher/src/lib.rs:233-258 | editing a valid key of a text that parses gives text that parses to the map with that key set, if and only if it stays within the size bound |
| Plans.ValidatePlan | crates/autonomy/src/lib.rs:739-758 | the validation loop reports the specified refusal |
| Plans.ActionsPassExactly | crates/autonomy/src/lib.rs:749-757 | actions pass if and only if each is acceptable and no two concern one proposal |
| Plans.PlanStore.Submit | crates/autonomy/src/lib.rs:552-569 | a submission stores the plan as pending and emits it, or changes nothing |
| Plans.PlanStore.TransitionPlan | crates/autonomy/src/lib.rs:601-638 | a transition moves the record and emits the state reached, expiry first |
| Plans.PlanStore.RestoreEvent | crates/autonomy/src/lib.rs:657-690 | a restored event changes the records as specified or is refused without a change |
| Plans.TransitionExactly | crates/autonomy/src/lib.rs:601-638 | every answer to a transition: a plan before its expiry moves exactly along seven listed ways, at its expiry it expires unless completed or failed, and what is refused changes nothing |
| Plans.RestoreExactly | crates/autonomy/src/lib.rs:657-690 | a stored transition is restored exactly along the same seven ways, or if it repeats the state |
| Plans.SubmitExactly | crates/autonomy/src/lib.rs:552-566 | a plan is accepted exactly when it is named, its interval is in order and not over, every action is acceptable, no two concern one proposal, and its identity is new |
| Plans.EveryStateIsReached | crates/autonomy/src/lib.rs:601-732 | each of the seven states is the end of some run |
| Plans.PlanStore.DrainEvents | crates/autonomy/src/lib.rs:646-648 | draining returns the emitted events in order and empties the queue |
| Plans.ReplayExactly | crates/autonomy/src/lib.rs:552-690 | replaying a run's events rebuilds its records if every call was replayable, and is refused if not |
| Plans.ExpiresWhileExecuting | crates/autonomy/src/lib.rs:601-638 | in any replayable run, a transition of an executing plan at or after its expiry expires it instead and is answered so; the run replayed until then and no longer does |
| Plans.ExpiredWhileExecuting | crates/autonomy/src/lib.rs:612-616 | such a run: submitted, approved and executing in time, completed at the expiry |
| Plans.NothingStartsLate | crates/autonomy/src/lib.rs:601-638 | a call at or after a plan's expiry can only expire it |
| Plans.RecordsStay | crates/autonomy/src/lib.rs:552-638 | a step keeps every plan, moves states only along the lifecycle or to expired when due, and leaves completed, failed and expired plans alone |
| Plans.RunKeepsPlans | crates/autonomy/src/lib.rs:552-638 | the same over whole runs |
| Plans.StatesAreExplained | crates/autonomy/src/lib.rs:601-638 | no plan runs without an approval event, and none ends without having run |
| PlanCodec.EncodePlanEvent | crates/autonomy/src/lib.rs:256-292 | the growing buffer holds the specified bytes |
| PlanCodec.DecodePlanEvent | crates/autonomy/src/lib.rs:300-367 | the moving cursor reads the specified event or error |
| PlanCodec.DecodeEncode | crates/autonomy/src/lib.rs:256-367 | an event reads back as itself if it is within the codec's bounds and valid when generated, and is refused if not |
| PlanCodec.ActionBack | crates/autonomy/src/lib.rs:270-283 | an action reads back behind any other bytes, or is refused for its size |
| PlanCodec.CodesCount | crates/autonomy/src/lib.rs:447-503 | the codes of states and actions count them in the order of their declaration, and read back |
| PlanCodec.TransitionLayout | crates/autonomy/src/lib.rs:256-298 | the bytes of a transition: marker, kind, identity behind its length, state |
| PlanCodec.SubmissionLayout | crates/autonomy/src/lib.rs:256-298 | the bytes of a submission up to its actions |
| PlanCodec.StoredReplayExactly | crates/autonomy/src/lib.rs:256-690 | storing a run's events as bytes and replaying them rebuilds its records if every event is in bounds and every call replayable, and fails if not |
| DurablePlans.RestartExactly | crates/engine/src/lib.rs:4932-4976 | once a call's event is journalled, a restart comes back to the published records if and only if the call was recoverable |
| DurablePlans.CrashIsAtomic | crates/engine/src/lib.rs:4932-4976 | a crash before the event's frame is whole leaves the state before the call; after that the start comes back to the state after it if and only if the call was recoverable |
| DurablePlans.RestartIsInvisible | crates/engine/src/lib.rs:1546-1549 | in every history of calls, crashes and restarts, one more restart succeeds if and only if every call whose event reached the journal whole was recoverable, and then changes nothing |
| DurablePlans.StillbornStopsTheRestart | crates/engine/src/lib.rs:4932-4946 | a plan that expires when it is generated is accepted and journalled, and the next start fails on it; a crash before any byte of it leaves nothing |
| DurablePlans.ExpiryStopsTheRestart | crates/engine/src/lib.rs:5086-5088 | in every history that would come up again, a transition of an executing plan at or after its expiry leaves it expired, and the next start fails, if and only if the event could be journalled |
| DurablePlans.RecoveryStopsTheRestart | crates/engine/src/lib.rs:5070-5103 | a plan submitted, approved and started in time survives a restart; expiring it at its expiry, as recovery does, makes the next start fail |
| IbkrGateway.Gateway.BeginSend | crates/ibkr-adapter/src/lib.rs:915-951 | the checks in their order and the first critical section: refused, already accepted, or pending |
| IbkrGateway.Gateway.EndSend | crates/ibkr-adapter/src/lib.rs:956-972 | the second critical section: accepted, or the session degraded |
| IbkrGateway.Gateway.BeginConnect | crates/ibkr-adapter/src/lib.rs:822-832 | connecting is refused only when ready |
| IbkrGateway.Gateway.ConnectReady | crates/ibkr-adapter/src/lib.rs:835-842 | makes the session ready; that nothing else does is NothingIsAdmitted |
| IbkrGateway.Gateway.MarkDegraded | crates/ibkr-adapter/src/lib.rs:845-852 | a reported problem degrades the session |
| IbkrGateway.Gateway.Disconnect | crates/ibkr-adapter/src/lib.rs:855-862 | a disconnection keeps what was accepted |
| IbkrGateway.Gateway.DrainCallbacks | crates/ibkr-adapter/src/lib.rs:894-899 | draining returns the callbacks in order and empties the queue |
| IbkrGateway.Gateway.OnCallback | crates/ibkr-adapter/src/lib.rs:874-891 | a callback is queued once, and the queue bounded |
| IbkrGateway.CheckedIsSound | crates/ibkr-adapter/src/lib.rs:915-972 | the checks pass exactly for a usable identity, a positive quantity, and a declared order type with a price exactly if it is a limit order |
| IbkrGateway.AdmitExactly | crates/ibkr-adapter/src/lib.rs:915-972 | every answer of the first critical section and when it is given |
| IbkrGateway.FinishedOrderAgain | crates/ibkr-adapter/src/lib.rs:915-972 | after a failed call and a new connection the same order can be sent again, after a successful one it is answered without a call |
| IbkrGateway.CallbackExactly | crates/ibkr-adapter/src/lib.rs:874-891 | a callback is queued exactly when it has an identity, is not waiting already and there is room |
| IbkrGateway.QueueStaysGood | crates/ibkr-adapter/src/lib.rs:874-897 | in every interleaving the queue has no callback twice, none without identity, and at most 8192 |
| IbkrGateway.RunsAreOrderly | crates/ibkr-adapter/src/lib.rs:915-972 | in every interleaving each order has at most one transport call in flight, none starts after one succeeded, and an order succeeded if and only if it is accepted or its call is about to make it so |
| IbkrGateway.NoCallAfterSuccess | crates/ibkr-adapter/src/lib.rs:915-972 | once a call succeeded, the broker never sees another for that order |
| IbkrGateway.OnlySoundOrdersLeave | crates/ibkr-adapter/src/lib.rs:915-972 | in every interleaving only orders within the declared capabilities reach the transport or are remembered |
| IbkrGateway.FailureCloses | crates/ibkr-adapter/src/lib.rs:960-967 | finishing a failed call degrades the session, and until connect_ready it stays closed and admits nothing |
| IbkrGateway.NothingIsAdmitted | crates/ibkr-adapter/src/lib.rs:835-862 | without connect_ready a session that is not ready never becomes so, and admits nothing |
| IbkrGateway.StartsExactly | crates/ibkr-adapter/src/lib.rs:915-972 | from any point of any interleaving, a call can start without connect_ready if and only if one was admitted before and still waits, or the session still admits an order |
| IbkrGateway.StartsWhenClosed | crates/ibkr-adapter/src/lib.rs:915-972 | from a session that is not ready, as after a failed call is finished, if and only if one was admitted before and still waits |
| IbkrGateway.StartsBeforeFailureIsSeen | crates/ibkr-adapter/src/lib.rs:951-967 | between the transport's failure and the second critical section the session is ready and no call waits: another order is admitted and starts |
| IbkrGateway.StartsAfterFailure | crates/ibkr-adapter/src/lib.rs:948-967 | two orders admitted, the first fails: the second still starts with the session degraded |
| Ipc.EncodeCommandBytes | crates/ipc/src/lib.rs:238-256 | the growing buffer holds the command's bytes, or validation fails |
| Ipc.DecodeCommandBytes | crates/ipc/src/lib.rs:259-278 | the moving cursor reads the command or the error |
| Ipc.CommandCanonical | crates/ipc/src/lib.rs:238-278 | bytes decode to a command if and only if the command encodes to them |
| Ipc.ResponseCanonical | crates/ipc/src/lib.rs:311-347 | the same for responses |
| Ipc.FrameCanonical | crates/ipc/src/lib.rs:598-627 | the same for frames |
| Ipc.RemoteErrorReads | crates/ipc/src/lib.rs:662-699 | an encoded error reads back as itself if it is 1 to 4096 bytes long, and else as the fixed replacement |
| Ipc.RemoteErrorLayout | crates/ipc/src/lib.rs:657-675 | the bytes of an error: the marker with its zero, and the diagnostic behind its length |
| Ipc.RemoteErrorIsRead | crates/ipc/src/lib.rs:677-699 | bytes read as an error are that error's only encoding |
| Ipc.SpellsExactly | crates/ipc/src/lib.rs:657-684 | a response begins like an error if and only if its version, its length and the start of its payload spell the marker |
| Ipc.SpellingNeedsRoom | crates/ipc/src/lib.rs:311-325 | such a response exists if and only if the payload bound reaches 0x544F4D45 bytes |
| Ipc.ServeNext | crates/ipc/src/lib.rs:817-856 | the connection loop writes the specified answers and ends as specified |
| Ipc.RequestArrives | crates/ipc/src/lib.rs:817-856 | a request reaches the handler as sent, and its answer is all that is written |
| Ipc.AnswerIsReceived | crates/ipc/src/lib.rs:921-958 | the client gets the handler's error, or its response unless that spells the marker; then a protocol failure |
| Ipc.AnswerSucceedsExactly | crates/ipc/src/lib.rs:817-856 | an answer is sent if and only if the response's payload is within the bound, or the diagnostic with its 25 bytes of marker and length fits a frame |
| Ipc.RequestSucceedsExactly | crates/ipc/src/lib.rs:921-936 | a request is sent if and only if no identity is blank or too long, the payload is within its bound, the time is positive, and the fields, with 28 bytes of lengths and numbers, fit a frame |
| Ipc.RefusalExactly | crates/ipc/src/lib.rs:181-215 | which refusal a command gets, with the size it reports |
| Ipc.ExtraIsSeen | crates/ipc/src/lib.rs:259-280 | bytes behind an encoded command are refused with both lengths |
| Ipc.OversizedIdIsNamed | crates/ipc/src/lib.rs:486-497 | a first identity whose length is beyond the bound is reported with that length, whatever follows; bytes that end inside the length are incomplete |
| Ipc.AllAreServed | crates/ipc/src/lib.rs:817-856 | requests sent one behind the other are answered each and in order, up to 256; what comes behind those is not read |
| Ipc.Exchange | crates/ipc/src/lib.rs:817-958 | over a whole exchange with a request that fits, the client gets the handler's diagnostic or response if that fits a frame, except that a response spelling the marker is reported as a protocol failure; an answer that does not fit is never sent |
| Wire.StringIsRead | crates/ipc/src/lib.rs:486-497 | a taken string was written as its length and its bytes, within the bound |
| Wire.Cursor.Str | crates/ipc/src/lib.rs:486-497 | the cursor takes exactly what the specification takes and moves past it |

## Left out

- Journal.Writer.Append: how much a failing call writes is a parameter; locks, I/O errors before the write, seals, hashes and backups are effects over the file system.
- PaperBroker.Exchange.SendIntent: `replace`, which does not match again, is not modelled, so no claim is made about it.
- OrderBook.Book.Advance: `prepare_replace` and the replacement of a live order are not modelled.
- Trading.CancelOrderIn: runs contain no replacement; the broker is the paper broker.
- Scheduler.PlanChildren: `child_intent`, `apply_limit_style`, `plan_target` and its risk checks are not modelled; the first two are short expressions, the others depend on code outside these crates.
- Tca.CalculateDetailed: latencies, participation, adverse selection and the floating-point ratios of the detailed report are left out; only its integer shortfall and every error are modelled.
- Facts.UpsertAnswers: answers are compared up to the end of a version's knowledge, which later facts set.
- ContextGraph.Graph.UpsertNodeFact: a confidence is a real number, so the check for NaN and infinity is not modelled; embeddings and hybrid search are floating point.
- Cfg.RoundTripExactly: covers integers, booleans and strings; floats are carried as bits with their text conversions as parameters, because the rendering to 17 decimals does not read back in general.
- Cfg.ParseCfg: published snapshots and reloading are not modelled.
- Launcher.UpdateCfgSetting: reading, writing and renaming the file are effects.
- Plans.ValidatePlan: what makes a single action acceptable is a parameter, independent of time; `approve` adds a policy decision before a transition and is a transition or nothing here.
- PlanCodec.DecodePlanEvent: scales are 64-bit patterns, and error messages are one malformed case.
- DurablePlans.RestartIsInvisible: the journal holds plan events only; the other record kinds the engine writes are not part of this model.
- IbkrGateway.Gateway.BeginSend: lock poisoning and the HTTP transport are not modelled; `cancel` and `replace` appear only through the session change their failure makes.
- Ipc.ServeNext: sockets, time limits and authentication are effects; the handler is a function of the request's position and the command. The capability policy, the caching dispatcher and the request tracker are not modelled.
- Ipc.EncodeCommandBytes: the width checks on already validated fields cannot fail and are not repeated.
- The engine's command payload codecs, the event bus, alerts, instruments, clocks, models and the desktop bridge are plumbing or repeat round trips proved here.
