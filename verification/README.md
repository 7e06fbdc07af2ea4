# A verified model of the chain indexer's core

The indexer follows a chain block by block, decodes launches and trades, and keeps the result in a few
tables. This project models its stateful core in Dafny and proves what every call and every run of it keeps.

| file | models |
|---|---|
| `WeightedRoundRobin.dfy`, `TokenBucket.dfy`, `RpcPool.dfy`, `PoolRuns.dfy` | the RPC pool: smooth weighted round robin over the ready members, a token bucket and a cool-down per member, and runs of the whole pool |
| `PoolFairness.dfy` | how fair the pool's schedule is while the set of ready members changes from turn to turn |
| `StaleReadings.dfy`, `PoolStaleReadings.dfy` | exactly how late clock readings may be before a member, alone or in a pool, exceeds its rate |
| `Poller.dfy`, `PollerLaws.dfy`, `SkippedHistory.dfy`, `Prefetch.dfy` | the block poller: watermark, forks, history skip, in-order commits, what polls do read off the node's answers alone, and the concurrent prefetch under every schedule |
| `WriteQueue.dfy`, `Tables.dfy`, `TableLaws.dfy`, `CommitLaws.dfy`, `CommitAnswers.dfy` | the single writer, the whole-block transaction, the invariants of the tables, what a commit stores and reports, when it succeeds and under which keys it stores |
| `Registrations.dfy`, `RegistrationLaws.dfy`, `RebuildLaws.dfy` | the in-memory index of pools and curves against what the tables would rebuild |
| `DecodeLaws.dfy`, `BlockLaws.dfy` | what decoding plans and registers and what a block does, read off its logs and the tables |
| `Fifo.dfy`, `FifoScale.dfy` | profit and loss by a queue of lots, its closed form, and its independence of the unit of the raw numbers |
| `DirtySet.dfy`, `PriceRuns.dfy` | the bounded set of prices waiting to be written, under every interleaving with its flusher |
| `Attribution.dfy`, `CallTrace.dfy`, `EventId.dfy`, `Purge.dfy`, `Receipts.dfy` | user attribution, native value of a call tree, event keys, batched purge, receipt alignment |
| `Prelude.dfy`, `Sums.dfy` | options, results, parsed fields and outcomes of writes; sums and products |

Code that works by changing things in place is modelled by classes and methods whose contracts tie the new
state to a function of the old one; the theorems are lemmas about those functions. Protocols (prefetch, writer
queue, price flusher) are step systems over all schedules. Everything outside (clock readings, node answers,
database errors, a commit whose caller saw an error although it took effect, rows written by others) is a
parameter, so that a theorem over all inputs is one over all behaviours of the surroundings.

`dafny verify dfyconfig.toml` checks everything.

## What the proofs brought to light

- A member can be picked without paying a token, exactly when its rate does not divide 10^9: the wait is truncated
  to whole nanoseconds, so it is zero while less than `qps` nano-tokens are missing (internal/chain/pool.go:252).
  The rate bound holds for paying picks. Free ones are bounded while the clock moves between events; on one and the
  same reading there is no bound.
- A clock reading taken before the lock can be older than readings others have used (internal/chain/pool.go:190-191).
  It can come from a cool-down that has already been ended, and sleeping the wait computed from it is then not
  enough. It can also let a member pay for more picks on readings of a window than its rate allows: in a pool of
  several members a reading that is late by a single nanosecond is enough, in a pool of one a reading late by more
  than the time of a token, if it can hold two. The excess is never more than the member gains while readings are late.
- The catalog can differ from what the tables would rebuild after a block that succeeds: a token created twice leaves
  the first curve in the tables but both in the catalog, and a stored token created again before it graduates gives
  its pool the wrong pair (internal/app/process_block.go:85-153). No restore follows, as no category conflicts.
- Event keys are in chain order only while all three numbers fit. They stay unique while at most one number outgrows
  its width; two that do can make two events share a key. The function reports over-wide numbers, the commit stores
  the event nevertheless (internal/store/writer.go:186-192).
- Receipt alignment accepts a block with a repeated transaction hash and then loses a row.

## Model

| member | source | states |
|---|---|---|
| `WeightedRoundRobin.PickedIsFirstMax` | internal/chain/pool.go:226-238 | the member picked has the greatest raised `current`, and among equals it is the first |
| `WeightedRoundRobin.RunKeepsFloor` | internal/chain/pool.go:226-238 | over every run from a zero total, the currents keep summing to zero and none falls to minus the total weight |
| `WeightedRoundRobin.Ledger` | internal/chain/pool.go:229-236 | a member's `current` after t picks is what it gained, t times its weight, minus the total weight for each time it was picked |
| `WeightedRoundRobin.FullCycle` | internal/chain/pool_test.go:24-34 | from rest, as many picks as the total weight pick every member exactly its weight in times and end at rest; the test only bounds the counts of 110 picks of two members |
| `WeightedRoundRobin.EveryWindowIsExact` | internal/chain/pool.go:226-238 | the schedule has the total weight as period, and every window of that length, wherever it starts, serves each member exactly by weight |
| `WeightedRoundRobin.NeverAheadByOne` | internal/chain/pool.go:226-238 | at no moment has a member been picked a whole pick more than its fair share |
| `TokenBucket.RunKeepsValid` | internal/chain/pool.go:255-291 | over every run of looks, picks and penalties the tokens stay within [0, qps] and the cool-down is consistent with the last refill |
| `TokenBucket.RateBound` | internal/chain/pool.go:255-273 | over every run of a member and every window of clock readings [s, t], in whatever order readings arrive: when no reading beyond u comes before one inside the window, at most qps + qps * (u - s) picks on readings in the window take a token, whatever happens before, between and after them; with u = t this is the member's rate |
| `StaleReadings.LateRateBound` | internal/chain/pool.go:190-191 | readings that are at most d behind an earlier one exceed the rate of a window by no more than the qps * d that the member gains in that time |
| `StaleReadings.RateKeptExactly` | internal/chain/pool.go:190-191 | for every rate: all runs of a new member whose readings are at most d nanoseconds late keep its rate in all windows if and only if d is 0 |
| `StaleReadings.LateReadingBreaks` | internal/chain/pool.go:190-191 | the run that breaks it for a single nanosecond: emptied, looked at when a token has just come in, and picked on a reading from just before |
| `StaleReadings.GreedyRateKeptExactly` | internal/chain/pool.go:190-208 | for runs in which every ready look picks the member, the rate is kept in all of them if and only if qps is 1 or the member gains no more than one token in d nanoseconds |
| `TokenBucket.PenalisedForOneSecond` | internal/chain/pool.go:275-291 | after a penalty no pick happens on a reading less than a second later |
| `TokenBucket.ReadyIff` | internal/chain/pool.go:240-253 | the wait is zero exactly when the cool-down is over and less than qps nano-tokens are missing from a whole token, which is what the truncating conversion allows |
| `TokenBucket.SleepSufficesExactly` | internal/chain/pool.go:206-220 | sleeping exactly the wait that was returned makes the member ready, then and at every later reading, if and only if the reading did not come from a cool-down that a newer one had already ended, or the bucket fills up in time anyway |
| `TokenBucket.OutdatedCoolDownWitness` | internal/chain/pool.go:190-220 | the exception occurs in a run of a new member: penalty, a pick as soon as it ends, and a reading from a nanosecond before |
| `TokenBucket.FreePicksNeedPayers` | internal/chain/pool.go:268-273 | with a clock that moves between events, picks that take no token are at most one more than paying picks plus penalties, and none more when the bucket starts just below a token |
| `TokenBucket.TotalPicksBound` | internal/chain/pool.go:240-273 | so all picks of a window, free ones included, are at most twice the rate bound plus penalties plus one |
| `TokenBucket.FreePicksExactly` | internal/chain/pool.go:240-273 | some run of a new member has a pick that takes no token if and only if its rate does not divide 10^9 |
| `TokenBucket.EvenRateBound` | internal/chain/pool.go:240-273 | for rates that do, every pick pays and the rate bound is one on all picks |
| `TokenBucket.FreePickWitness` | internal/chain/pool.go:246-252 | a new member at 3 requests per second, emptied and a nano-token short a third of a second later, is picked without paying |
| `TokenBucket.FreePickRepeats` | internal/chain/pool.go:240-273 | a member that is picked without paying on some reading is picked so on that reading any number of times |
| `TokenBucket.FreePicksOnOneReading` | internal/chain/pool.go:240-273 | for every rate that does not divide 10^9 and every n, a new member that was emptied is picked n times without paying on the first reading at which it is ready again, no reading going back |
| `TokenBucket.FreePicksBoundedExactly` | internal/chain/pool.go:240-273 | where readings may stand still but never go back, free picks are at most one more than paying picks plus penalties in all runs of a new member if and only if its rate divides 10^9 |
| `RpcPool.RpcMember.constructor` | internal/chain/pool.go:119-122 | a member starts full, at rest and without a cool-down |
| `RpcPool.RpcMember.Refill` | internal/chain/pool.go:255-266 | the method changes tokens and clock as the exact refill of the specification |
| `RpcPool.RpcMember.WaitDuration` | internal/chain/pool.go:240-253 | the method refills unless cooling down and returns the truncated wait |
| `RpcPool.RpcMember.Take` | internal/chain/pool.go:268-273 | the method refills and takes a whole token if there is one |
| `RpcPool.RpcMember.Penalise` | internal/chain/pool.go:275-291 | the method empties the bucket and starts a cool-down of a second |
| `RpcPool.WeightedPick` | internal/chain/pool.go:226-238 | the in-place loop over the ready members is one step of the round robin: the winner is the first maximum, all currents change as specified, nothing else does |
| `RpcPool.RpcPool.Attempt` | internal/chain/pool.go:190-209 | one turn of acquiring looks at every member, picks by weight among the ready ones, lets the winner take its token, or reports the shortest wait; the whole new state of every member is given |
| `RpcPool.RpcPool.LookAtAll` | internal/chain/pool.go:192-204 | the loop over the members collects the ready ones in order, refills those it may, and finds the shortest wait of the others |
| `RpcPool.RpcPool.PickAndTake` | internal/chain/pool.go:205-209 | the winner takes its token, the ready members' currents change by one round, all other fields stay |
| `PoolRuns.MembersRunTheirBuckets` | internal/chain/pool.go:185-224 | over every run of the pool each member goes through a valid run of its own token bucket |
| `PoolRuns.MemberRateBound` | internal/chain/pool.go:185-224 | over every run of acquisitions and penalties and every window of readings: when no reading beyond u comes before one inside the window, no member takes more than qps + qps * (u - s) tokens on readings in the window, and its tokens stay within [0, qps] |
| `PoolStaleReadings.MemberLateRateBound` | internal/chain/pool.go:185-224 | over every run of the pool whose readings are at most d late, a member exceeds the rate of a window by no more than it gains in d |
| `PoolStaleReadings.MemberRateKeptExactly` | internal/chain/pool.go:185-224 | for every new pool, member and d: the member keeps its rate in all windows of all runs whose readings are at most d nanoseconds late if and only if d is 0, or it is the only member and holds one token at most or gains one at most in d |
| `PoolStaleReadings.OneNanosecondBreaks` | internal/chain/pool.go:185-291 | every member of every new pool of two or more exceeds its rate in some run late by one nanosecond: at a turn where another one is due, the others are penalised, the member is emptied, all become ready again, the other one is picked, and the member is emptied once more on readings from a nanosecond before |
| `PoolRuns.MemberPicksBound` | internal/chain/pool.go:185-273 | with a clock that moves between events, all picks of a member over a run of the pool, free ones included, are at most twice its rate bound plus its penalties plus one |
| `PoolRuns.PenalisedMemberLoses` | internal/chain/pool.go:275-291 | over every run of the pool, after a penalty the member is picked by no attempt whose reading is less than a second later |
| `PoolRuns.RunKeepsCurrentTotal` | internal/chain/pool.go:226-238 | whichever members are ready at each turn, the currents of the whole pool keep their total |
| `PoolFairness.RoundKeepsFloor` | internal/chain/pool.go:226-238 | a round over any set of ready members keeps this: no set of k of the n members has currents that sum to less than minus the greatest rate times k * (n - k) |
| `PoolFairness.RunKeepsFloor` | internal/chain/pool.go:185-238 | so does every run of the pool, whichever members are ready at each turn |
| `PoolFairness.RunLedger` | internal/chain/pool.go:226-238 | over every run a member's `current` grows by its rate for each turn at which it was ready and falls by the joint rate of the ready ones for each turn it won |
| `PoolFairness.EveryRunIsFair` | internal/chain/pool.go:185-238 | from rest, over every run and under any readiness, what a member was given and what it was entitled to never differ by more than the greatest rate times the number of the other members |
| `PoolFairness.BoundIsReached` | internal/chain/pool.go:226-238 | that bound is the best one: with equal rates the winner of the first turn is there |
| `PoolRuns.UncontendedRunIsRoundRobin` | internal/chain/pool.go:185-238 | while all members are ready, attempts on the pool are the plain weighted schedule |
| `PoolRuns.UncontendedCycle` | internal/chain/pool_test.go:24-34 | as many uncontended attempts as the total rate pick every member exactly its own rate in times and return its `current` to zero |
| `PoolRuns.SleepThenPick` | internal/chain/pool.go:206-220 | a turn that found nobody ready, whatever older reading it carried, returned a positive wait, the least that any member asks for, and the turn after a sleep that began no earlier than any member's last reading picks a member, provided the sleep suffices for each as `SleepSufficesExactly` says |
| `Fifo.MatchSell` | internal/domain/fifo.go:48-62 | the inner loop, which shortens the front lot in place, consumes the queue as specified, and stops at a lot of other decimals |
| `Fifo.ReplayFifo` | internal/domain/fifo.go:28-66 | the replay with its queue of lots returns exactly the closed form: results, order and errors |
| `Fifo.ConsumeCoversInterval` | internal/domain/fifo.go:48-62 | a sell that finds M already matched covers [M, min(M + quantity, total bought)) of the cumulative bought quantity; its profit is the sum over buys of the overlap times the price difference; it fails exactly when that interval meets a buy of other decimals |
| `Fifo.ReplayIsClosedForm` | internal/domain/fifo.go:28-66 | for every list of events the queue and the closed form agree, on results and on errors |
| `Fifo.ConsumeConserves` | internal/domain/fifo.go:48-63 | per sell: matched plus overflow is the quantity, what is matched left the queue, the profit is proceeds minus the cost that left, and an overflow means the queue is empty |
| `Fifo.ReplayConserves` | internal/domain/fifo.go:28-66 | over a whole replay, bought is matched plus held, and the total profit is the proceeds minus the cost of what is no longer held |
| `Fifo.ReplayComposes` | internal/domain/fifo.go:28-66 | replaying a followed by b is replaying b from the lots that a left, with a's results first; an error in a is the error of the whole |
| `Fifo.UnpricedTradesDoNotMatter` | internal/domain/fifo.go:32-37 | events without a price or with another direction change neither results nor errors |
| `FifoScale.LoneSell` | internal/domain/fifo.go:68-75 | without decimals a raw number is a quantity: a lone sell overflows by exactly that |
| `FifoScale.SellAfterBuy` | internal/domain/fifo.go:48-63 | a buy and a sell of whole tokens, for all numbers and prices: the lesser quantity is matched at the difference of the prices, the rest of the sell overflows |
| `FifoScale.UnitsDoNotMatter` | internal/domain/fifo.go:68-75 | whichever trades of a list are given with ten times the raw number and one more decimal, results and errors stay the same as long as neither list clashes in decimals |
| `FifoScale.TheUnitDoesNotMatter` | internal/domain/fifo.go:49-75 | done to all trades, any list keeps its results and its errors, clashes included |
| `FifoScale.OthersLeaveNoTrace` | internal/domain/fifo.go:32-37 | a trade in another direction or without a price can be left out anywhere |
| `FifoScale.BadQuantityStops` | internal/domain/fifo.go:38-44 | a priced buy or sell whose raw number is no integer above zero ends the replay with its id |
| `DirtySet.PriceBuffer.Mark` | internal/price/dirty.go:60-90 | a valid mark stamps the next version, makes the token the most recent one and evicts the oldest from a full set; an invalid one changes nothing; the bijection of map and list is kept |
| `DirtySet.PriceBuffer.RemoveVersion` | internal/price/dirty.go:132-139 | removal drops the token only if it still carries the version at hand |
| `DirtySet.PriceBuffer.Flush` | internal/price/dirty.go:93-130 | an undisturbed flush removes exactly the tokens whose row was read and either showed the price or was written, writes exactly those rows, and reports an error iff something stays |
| `DirtySet.FlushMeans` | internal/price/dirty.go:101-128 | token by token: it stays exactly when its row could not be read, or not be written although it does not show the price; otherwise its row shows price, block and transaction of the last mark; rows of other tokens are as they were |
| `DirtySet.MarkedIsValid` | internal/price/dirty.go:60-90 | marking keeps the set bounded, map and list in bijection, and the list strictly ascending in version |
| `DirtySet.ListedAscends` | internal/price/dirty.go:71-88 | in a valid set the list is strictly ascending in version |
| `DirtySet.EvictionTakesLeastRecent` | internal/price/dirty.go:78-86 | an overflow evicts the token whose last mark is oldest, and only that one |
| `DirtySet.PriceBuffer.constructor` | internal/price/dirty.go:52-57 | a new set is empty and valid |
| `DirtySet.PriceBuffer.Snapshot` | internal/price/dirty.go:94-99 | the snapshot names every held point once, in some order |
| `DirtySet.PriceBuffer.FlushPoint` | internal/price/dirty.go:101-128 | one turn of the flushing loop removes the point and writes its row exactly when the token is one the flush can deal with |
| `DirtySet.DroppedIsValid` | internal/price/dirty.go:132-139 | removal keeps map and list in bijection and in order |
| `PriceRuns.EveryInterleaving` | internal/price/dirty.go:60-139 | under every interleaving of marks with the one flusher: bounded, bijective, ordered; each held point is the token's last mark; each last mark is held, was evicted, or is what the directory shows |
| `PriceRuns.RowsNeverGoBack` | internal/price/dirty.go:93-139 | the version a directory row shows never goes back, from any reachable state on |
| `PriceRuns.NoOverflowNoLoss` | internal/price/dirty.go:78-86 | with room for every marked token nothing is ever evicted, so no mark is lost |
| `Poller.BlockPoller.Poll` | internal/chain/poller.go:115-159 | one poll computes the specified poll: start point or skip, range, in-order processing, count and error, whatever the node and the writes answer |
| `Poller.BlockPoller.ProcessBlocks` | internal/chain/poller.go:226-264 | the consuming loop, with its fork handling, is the sequential fetch-check-process loop stopped at the first error |
| `Poller.CommittedKeeps` | internal/chain/poller.go:227-262 | a commit at the next height whose parent is the stored hash keeps the chain of commits, even if its caller sees an error |
| `Poller.EveryRun` | internal/chain/poller.go:115-265 | over every run of polls, failures, retries, skips and forks each commit directly continues the watermark it found or stands on a hash-less start at its height; no height is committed twice or out of order; without skipping the committed heights are exactly the range from the start point to the watermark |
| `Poller.RunsOnlyAdvance` | internal/chain/poller.go:115-159 | from any reachable store on, the log of commits only grows and the next height never decreases |
| `Poller.GoodRangeCompletes` | internal/chain/poller.go:226-264 | when the node answers and writes succeed the whole range is processed, even with a fork at every height |
| `Poller.PollKeeps` | internal/chain/poller.go:115-159 | a single poll processes at most the configured number of blocks and keeps all of the above |
| `Poller.BlockPoller.SaveWatermark` | internal/chain/poller.go:267-269 | the watermark is stored, also when the caller sees an error although the write took effect |
| `Poller.BlockPoller.CommitBlock` | internal/chain/poller.go:254-262 | business rows and watermark are stored together or not at all |
| `PollerLaws.HeightMeans` | internal/chain/reorg.go:12-26 | one height, read off the node's answers: where the node does not give the block of that height nothing changes and the call fails; where it does, a block whose parent is not the hash held below is committed only if the node names exactly that parent as the canonical block below, otherwise the call fails with store and log unchanged; and what is stored in each case of a failing or unanswered write |
| `PollerLaws.RangeMeans` | internal/chain/poller.go:226-264 | a range is processed up to the first height that does not pass, it fails exactly if there is one, and what it commits are the blocks the node gave for its heights in order, each on the hash held below or on a parent the node confirmed |
| `PollerLaws.PollMeans` | internal/chain/poller.go:115-190 | every poll: nothing without a watermark read or a head; where it starts (the stored watermark, the configured block, ten below the head, or ten below a head that is more than the threshold ahead), what a failing save of that leaves; then the range from there up to the head or the block limit |
| `PollerLaws.GoodPollCompletes` | internal/chain/poller.go:115-159 | a poll that is answered well commits every height from its start up to min(head, next + limit - 1), across forks and from any store |
| `PollerLaws.UnconfirmedForkIsRefused` | internal/chain/reorg.go:22-24 | a poll that meets a fork whose parent the node does not confirm ends with an error, the store and the log as they were |
| `PollerLaws.EveryCommitIsVouched` | internal/chain/poller.go:227-262 | over every run of polls each commit is a block the node gave for its height, on the block committed right below it, on a hash the node had by then named as canonical below, or at a start point nothing is known below of |
| `Prefetch.EveryScheduleIsSequential` | internal/chain/poller.go:193-265 | under every schedule of producer, workers and consumer the call ends as the sequential loop does unless the parent context is cancelled, and at every moment of every schedule the database is that of a prefix of that loop |
| `Prefetch.EveryScheduleCommitsInOrder` | internal/chain/poller.go:193-265 | from a sound store on, under every schedule, cancelled or not, every commit continues the watermark before it, and the log and the next height only grow |
| `Prefetch.EveryScheduleCommitsTheRange` | internal/chain/poller.go:193-265 | from whatever store, right after a history skip too, what a call has committed at any moment of any schedule is the first heights of its range, ascending and without a gap |
| `Prefetch.SlotsAreFilledOnce` | internal/chain/poller.go:203-218 | every slot is filled at most once and by its own height, no height is fetched twice at a time, and at most min(count, 8) fetches are in flight |
| `Prefetch.NeverStuck` | internal/chain/poller.go:193-265 | until the consumer has returned and every worker has exited, some step other than an outside cancellation is possible |
| `Prefetch.SchedulesAreBounded` | internal/chain/poller.go:193-265 | no schedule runs forever: its length is bounded by the work left plus the outside cancellations |
| `Prefetch.CancelledStartsNothing` | internal/chain/poller.go:207-212 | once the context is cancelled no worker begins another fetch |
| `Prefetch.FailureCancels` | internal/chain/poller.go:234-262 | a call that ended with an error has cancelled the context of its workers |
| `WriteQueue.EveryRun` | internal/store/writer.go:65-118 | over every run requests are answered in acceptance order, each at most once; the database is the sequential fold of those that committed; at most 256 wait; once the queue is closed nobody is about to send, and before that nobody is turned away whose context is not over; once the writer has stopped every accepted request has its answer |
| `WriteQueue.RunFollowsTheWriter` | internal/store/writer.go:98-118 | over every run the i-th accepted request ends as the i-th turn of the writer says (expired, committed or rolled back), is answered so, and the database is what exactly those whose turn committed have made of it in that order |
| `WriteQueue.FoldKeeps` | internal/store/writer.go:98-118 | what the initial database satisfies and every request keeps holds of the database after any run |
| `WriteQueue.RejectedStaysOut` | internal/store/writer.go:65-77 | a request that was refused, or whose caller left before it was queued, never enters the queue |
| `WriteQueue.GivenUpStaysOut` | internal/store/writer.go:98-103 | a request whose context is over before its transaction begins, wherever it was then, is over for good: its transaction never begins and its only possible answer is the context's error |
| `WriteQueue.GivenUpHasNoEffect` | internal/store/writer.go:98-118 | so at every moment of every run the database is the sequential fold of the other requests that committed |
| `WriteQueue.NeverStuck` | internal/store/writer.go:65-118 | while a caller is sending, a request waits, or closing is under way, some step of the writer or of a sending caller is possible |
| `Tables.Store.CommitBlock` | internal/store/writer.go:121-228 | the transaction is all or nothing: on success the tables are the specified block application, on any error they are unchanged; it succeeds exactly when no database error strikes and the application does (`CommitAnswers.CommitsExactly`); a database error may strike before any item or at the end, and the error that comes first is the one reported |
| `Tables.InsertLaunches` | internal/store/writer.go:125-166 | the loop over the launches of a category is the fold of the single launches, up to a failing one or a database error |
| `Tables.UpdateGraduations` | internal/store/writer.go:167-174 | the loop over the graduations is the fold of the single updates, up to a database error |
| `Tables.InsertEvents` | internal/store/writer.go:175-221 | the loop over the events is the fold of the single events, up to a failing one or a database error |
| `TableLaws.CommitKeepsTables` | internal/store/writer.go:121-228 | every committed block keeps the joint invariant of directory and detail tables and never changes a token's category, whatever graduations and conflicts it contains; the watermark is stored with it |
| `TableLaws.SkippedIsFinal` | internal/store/writer.go:125-166 | which launch events a block skips is decided by the final directory alone |
| `TableLaws.GraduateAllMeans` | internal/store/writer.go:167-174 | a list of graduations gives each present Pons row the last one for its token, marks its directory row, and moves nothing else |
| `TableLaws.ReplayChangesNothing` | internal/store/writer.go:121-228 | replaying a block right after it was committed changes nothing, with repeated tokens, conflicts, repeated graduations and duplicate event keys inside it |
| `TableLaws.EveryWriterRunKeepsTables` | internal/store/writer.go:98-228 | through the writer queue, whatever requests are queued, expire, fail or commit, the stored tables stay consistent |
| `TableLaws.AddLaunchLaws` | internal/store/launch_index.go:31-70 | one launch keeps every category, leaves its token in the directory, and is recorded as skipped exactly when the directory holds another category |
| `TableLaws.GraduationsKeep` | internal/store/writer.go:167-174 | graduations keep the joint invariant and every category, also for unknown tokens and tokens of another category |
| `Registrations.RuntimeCatalog.RegisterPool` | internal/contracts/catalog.go:152-160 | registering a pool sets that key and nothing else |
| `Registrations.RuntimeCatalog.RegisterCurve` | internal/contracts/catalog.go:169-177 | registering a curve sets that key and nothing else |
| `Registrations.RuntimeCatalog.RebuildRegistrations` | internal/contracts/catalog.go:131-150 | a rebuild leaves exactly the keys of the rows, each with the data of one of its rows, and nothing of what was there before |
| `Registrations.LoadRegistrations` | internal/store/launch_index.go:186-221 | the rows read are exactly those of the tables: a curve per Pons launch, a pool per graduated Pons launch and per o1 launch |
| `Registrations.App.RestoreRegistrations` | internal/app/process_block.go:375-386 | a restore makes the catalog what the tables rebuild, or, when it fails, leaves it alone |
| `Registrations.App.DecodeLogs` | internal/app/process_block.go:61-153 | the decoding loop registers, plans and stops as specified, log by log |
| `Registrations.App.ProcessBlock` | internal/app/process_block.go:27-217 | the block as a whole, with its commit and the restore on failure and on conflict, is one step of the specified relation between tables and catalog |
| `RegistrationLaws.AcceptedNeverConflicts` | internal/app/process_block.go:392-414 | what passed the category check while decoding never conflicts inside the transaction when nobody else writes the directory in between |
| `RegistrationLaws.BlockKeepsCovers` | internal/app/process_block.go:27-33 | however a block ends, with or without a restore that works, no key of the tables is missing from the catalog afterwards |
| `RegistrationLaws.EveryRunCovers` | internal/app/process_block.go:27-217 | over every run of blocks, whatever fails, every pool and curve the tables would rebuild is registered |
| `RebuildLaws.BlockKeepsRebuilds` | internal/app/process_block.go:85-191 | a plain condition on the logs that suffices: where tokens are created once and graduate to one pool, a block that succeeds, or fails and is restored, leaves the catalog as a rebuild would make it; the exact condition is that of `RebuildLaws.BlockRebuildsExactly` |
| `RebuildLaws.EveryRunRebuilds` | internal/app/process_block.go:27-217 | under that plain condition and with working restores, the catalog is at every moment of every run what a rebuild would give; the exact condition is that of `RebuildLaws.EveryRunRebuildsExactly` |
| `RebuildLaws.CreatedTwiceWitness` | internal/app/process_block.go:85-106 | one way to differ from a rebuild: a token created twice in one block leaves a curve registered that no table row has |
| `RebuildLaws.CurvesAfter` | internal/app/process_block.go:85-106 | after decoding, a curve carries the data of the last creation taken up that names it, or what it carried before |
| `RebuildLaws.PoolsAfter` | internal/app/process_block.go:107-153 | after decoding, a pool carries the data of the last o1 creation or graduation taken up that names it, or what it carried before |
| `RebuildLaws.PonsRowAfter` | internal/store/writer.go:121-174 | after the commit, a stored or created Pons token has the row that was stored, else the first of the block, with the block's last graduation |
| `RebuildLaws.BlockRebuildsExactly` | internal/app/process_block.go:27-217 | for every block from a rebuilt catalog: if it succeeds, the catalog is afterwards what a rebuild would give, keys and data, if and only if the last log to register each key is about the row that stays for its token (key, pair and decimals; for graduations, the token's last pool) and no token registered with a pool leaves it; if it fails and is restored, it always is |
| `RebuildLaws.EveryRunRebuildsExactly` | internal/app/process_block.go:27-217 | over every run with working restores the catalog is what a rebuild would give at every moment if and only if every block that succeeds meets that condition |
| `RebuildLaws.RecreatedThenGraduatedWitness` | internal/app/process_block.go:128-153 | a second way to differ: a stored token is created again with another pair and then graduates, so that its pool is registered with the pair that does not stay |
| `DecodeLaws.DecodingMeans` | internal/app/process_block.go:61-153 | decoding, read off logs and tables: the block fails exactly when a category check that is asked, a metadata call of a creation taken up, or a look-up of a graduation fails; otherwise it plans exactly the creations under the category their token has in the directory or, if new, at its first creation, and exactly the graduations of tokens with a stored Pons row or an earlier creation in the block; each curve and pool is as the last of these logs that names it says, or as it was |
| `DecodeLaws.LookUpIsRow` | internal/app/process_block.go:361-371 | a graduation finds a row if and only if its token has a stored one or was created before in the block, and then gets that of the first such creation, else the stored one |
| `BlockLaws.BlockSucceedsExactly` | internal/app/process_block.go:27-217 | a block succeeds if and only if no log breaks it, no launch it takes up clashes with a row, all its events are proper and the write succeeds; one that does not leaves the tables alone unless only the answer was lost |
| `BlockLaws.BlockGraduates` | internal/app/process_block.go:128-153 | after a block that succeeded, a token with a stored Pons row, or a new one created in the block, has that row, graduated to the pool and at the time of the last of its graduations that count, or as it was if there is none |
| `BlockLaws.BlockRegisters` | internal/app/process_block.go:85-153 | and the catalog has each curve and pool as the last log to register it says: a graduation with the pair of the first creation of its token in the block, else of the stored row |
| `Attribution.NetFlows` | internal/venue/v4fill/transfer.go:60-85 | one pass gives every touched address its net inflow, the zero address excepted, and refuses a negative amount |
| `Attribution.AttributeUser` | internal/venue/v4fill/transfer.go:53-107 | the answer is the one non-excluded address whose absolute net is nonzero and exceeds every other, with its side and amount, or an error exactly when there is none |
| `Attribution.AnswerIsDetermined` | internal/venue/v4fill/transfer.go:86-99 | the answer does not depend on the order in which the map is walked |
| `Attribution.PlainSwap` | internal/venue/v4fill/transfer.go:68-107 | who receives the token from a protocol address is a buyer, who sends it there a seller, of the amount transferred |
| `Attribution.NetAmountFor` | internal/venue/v4fill/transfer.go:109-120 | the second helper computes the same absolute net address by address, and for the zero address what was minted against what was burned |
| `Attribution.RoutingDoesNotMatter` | internal/venue/v4fill/transfer.go:53-107 | passing a transfer through a router in two hops leaves the answer unchanged, whatever it is |
| `Attribution.FlowsBalance` | internal/venue/v4fill/transfer.go:68-85 | all net flows together are what was minted minus what was burned |
| `Attribution.TwoHopsAreOne` | internal/venue/v4fill/transfer.go:68-85 | two hops through a router change no address's net, not even the router's |
| `CallTrace.AccumulateNativeNet` | internal/chain/trace.go:61-103 | the recursion with its shared counters computes the specified walk, errors included |
| `CallTrace.PathsAreAll` | internal/chain/trace.go:97-101 | the reference enumerates exactly the frames of the tree |
| `CallTrace.WalkIsReference` | internal/chain/trace.go:61-103 | the walk succeeds exactly on trees well-formed throughout with at most 10000 frames and depth 128, and its net is inflow minus outflow over the CALL, CREATE and CREATE2 frames with no failed frame above them or themselves |
| `CallTrace.TraceNativeAmount` | internal/chain/trace.go:30-59 | the amount is the absolute net, given exactly when the tree is acceptable and the sign fits the side; otherwise the error says which of the two failed |
| `CallTrace.FailedSubtreesDoNotMatter` | internal/chain/trace.go:89-96 | two acceptable trees that differ only inside failed subtrees have the same net |
| `CallTrace.NetsCancel` | internal/chain/trace.go:89-96 | over all addresses of a well-formed tree the nets sum to zero |
| `CallTrace.NetByStructure` | internal/chain/trace.go:88-101 | the reference over paths is the structural one: a failed frame counts nothing, a live one itself and its calls |
| `CallTrace.LoneFrame` | internal/chain/trace.go:88-96 | a successful frame without calls moves its value from sender to target exactly for CALL, CREATE and CREATE2, a missing value being zero |
| `CallTrace.OneMoreCall` | internal/chain/trace.go:97-101 | one more call under a frame adds what its own tree nets, or nothing if the frame failed |
| `CallTrace.LoneFrameAccepted` | internal/chain/trace.go:69-87 | which single frames are acceptable: known kind, given sender, a target unless it is a creation that failed, a value that is not malformed |
| `EventId.KeyOrderIsChainOrder` | internal/domain/event_id.go:7-13 | while the numbers fit, byte order of keys is the order of (block, transaction, log) and keys are unique |
| `EventId.OverWidthShows` | internal/domain/event_id.go:9-11 | the error is exact: a key has 16 characters just when all three numbers fit |
| `EventId.OverWidthCollision` | internal/domain/event_id.go:8-11 | two different events whose block and transaction numbers are both too wide share a key |
| `EventId.OverWidthDisorder` | internal/store/wallet_events.go:88 | beyond the widths the key order that feeds the replay is not chain order: block 100000000 sorts before 99999999 |
| `EventId.UniqueExactly` | internal/domain/event_id.go:7-13 | for any bounds on block, transaction and log: keys are unique on all events within them if and only if no two numbers can outgrow their widths together far enough (four explicit corner conditions) |
| `EventId.OneWideNumberIsHarmless` | internal/domain/event_id.go:7-13 | in particular keys stay unique while at most one of the three numbers may outgrow its width |
| `EventId.TwoWideNumbersCanBeHarmless` | internal/domain/event_id.go:7-13 | and even with two: block 100000000 together with transactions of any size |
| `EventId.OrderedExactly` | internal/store/wallet_events.go:88 | for any bounds: key order, which feeds the replay, is chain order on all events within them if and only if all three bounds fit |
| `EventId.PaddedIsFixed` | internal/domain/event_id.go:8 | a number within the width prints as exactly that many digits |
| `EventId.FixedOrder` | internal/domain/event_id.go:8 | fixed-width numbers compare as texts the way they compare as numbers |
| `Purge.WalletEvents.DeleteBatch` | internal/store/purge.go:34-52 | one batch deletes the oldest expired rows by (time, id), as many as asked for if there are that many, and nothing else; it looks for more only at the run's limit |
| `Purge.WalletEvents.PurgeExpired` | internal/store/purge.go:19-69 | the batch loop is the specified run: parameter check, sizes, the answers of the writer, interruption, and report |
| `Purge.OldestOfIsUnique` | internal/store/purge.go:34 | which rows a batch deletes is determined by the table, the cutoff and the size |
| `Purge.PurgedMeans` | internal/store/purge.go:34 | the specified deletion takes exactly the oldest expired rows, each before every row that stays, by time and then by id |
| `Purge.BatchesCompose` | internal/store/purge.go:24-68 | two batches one after the other are one deletion of the joint size |
| `Purge.QuietRunIsOneDelete` | internal/store/purge.go:24-68 | a run nobody disturbs is one deletion of min(limit, expired) oldest rows, counts them, and is limited iff more had expired than the limit |
| `Purge.EveryRun` | internal/store/purge.go:24-68 | with rows inserted between batches, failures and lost answers: each round finds what the one before left plus the new rows, deletes the oldest rows expired in that table, new ones included, and changes nothing else; all rounds together delete at most the limit, a lost batch counted; the report counts them exactly unless a write failed; a run without an error is limited iff expired rows remain |
| `Purge.FreshRowsSurvive` | internal/store/purge.go:24-68 | over every such run, a row that had not expired, whether there from the start or inserted between batches, is in the final table unchanged |
| `Purge.RetentionMeans` | internal/store/purge.go:19-24 | a run goes ahead exactly with at least one day, a batch of 1 to 5000 and a limit of at least 1; no row up to that many days of 24 hours old goes or changes, and an undisturbed run deletes and counts min(limit, older rows) and says whether more remain |
| `Receipts.DecodeReceipt` | internal/chain/receipts.go:414-457 | a row is accepted iff it names the block, has a status of at most 1, no or the right index and decodable logs, and then carries the transaction's position and its logs in order; the first failing check is the error |
| `Receipts.AlignReceipts` | internal/chain/receipts.go:337-358 | the map-based alignment gives each transaction its decoded row, or the error of the first transaction that has one |
| `Receipts.AssembleBlock` | internal/chain/receipts.go:217-237 | a block of another height is refused before anything is aligned |
| `Receipts.AcceptedRowsArePermutation` | internal/chain/receipts.go:337-358 | an accepted answer uses every row exactly once if and only if the transactions have distinct hashes, and then rows and transactions have the same hashes |
| `Receipts.AcceptedReceiptsFit` | internal/chain/receipts.go:337-358 | receipt i carries the hash of transaction i, the block's hash and index i, and the status and the logs, in order, of one and the same row with that hash |
| `Receipts.AcceptedExactly` | internal/chain/receipts.go:337-457 | an answer is accepted with these receipts if and only if there are as many rows as transactions and the last row of each transaction names the block, has a status of 0 or 1, no or the right index and readable logs, and its receipt carries its hash, status and logs |
| `Receipts.RefusedExactly` | internal/chain/receipts.go:337-457 | otherwise the error is that of the first transaction no receipt can be made for, and says which check its last row fails first |
| `Receipts.RowOrderDoesNotMatter` | internal/chain/receipts.go:341-344 | the same rows in another order give the same receipts |
| `Receipts.RepeatedHashLosesARow` | internal/chain/receipts.go:337-358 | with a repeated transaction hash a row can be lost although the answer is accepted |
| `Receipts.SameHashes` | internal/chain/receipts.go:338-349 | pigeonhole: as many rows as transactions and a row for each of the distinct hashes leave no row over |
| `SkippedHistory.GapsAreJumps` | internal/chain/poller.go:138-151 | no height is left out in silence: over every run, a commit is at the height after the one before it, or skipping is on and a poll between the two, made when exactly the earlier commits were there, saw a head more than the threshold beyond the earlier one and ten above the later one |
| `CommitLaws.LaunchesMean` | internal/store/launch_index.go:31-70 | a list of launches inserts and reports exactly the first launch of each token the directory did not know, in the order of the list and each once, adds no other row, keeps every row that was there, and every token named ends up in the directory |
| `CommitLaws.ReportedTokensDiffer` | internal/store/writer.go:125-166 | no token is reported as inserted twice |
| `CommitLaws.EventsMean` | internal/store/writer.go:175-221 | a list of events stores and reports exactly the first event for each key that was not stored, in the order of the list and each once, skipped launches not counted; active wallets carry the time of their last reported event and no other wallet changes |
| `CommitLaws.ReportedKeysDiffer` | internal/store/writer.go:192-221 | no event key is reported as inserted twice |
| `CommitLaws.CommitMeans` | internal/store/writer.go:121-228 | for a committed block: the launches it reports are the first of their tokens in block order, their directory and detail rows are there and then take the last graduation of the token, rows of other tokens stay or graduate likewise; which events and wallet times it leaves and reports |
| `CommitAnswers.StoredKeys` | internal/store/writer.go:175-220 | the rows a committed block reports and stores are its events unchanged but for the id: the one an event came with, else the key of its block, transaction and log number; each is the first under an id that was not taken; every event not skipped finds its id stored, and no other row is new |
| `CommitAnswers.IdsFollowTheChain` | internal/store/writer.go:186-187 | ids of two rows whose events came without one and whose numbers fit have 16 characters and compare byte by byte exactly as (block, transaction, log) do |
| `CommitAnswers.CommitKeepsKeys` | internal/store/writer.go:186-206 | a committed block whose events come without ids, as all of them do, keeps every stored row under the key of its place on the chain |
| `CommitAnswers.EveryWriterRunKeepsKeys` | internal/store/writer.go:98-220 | so does every run of the writer |
| `CommitAnswers.ReadingByIdFollowsTheChain` | internal/store/wallet_events.go:88 | then reading rows by id, which feeds the replay, is reading them along the chain, as far as their numbers fit |
| `CommitAnswers.LaunchesEnterExactly` | internal/store/writer.go:125-166 | the launches of a block go in if and only if none that gets a directory row meets a detail row of its category with the same token or the same transaction and log number, stored before or inserted earlier in the block |
| `CommitAnswers.CommitsExactly` | internal/store/writer.go:121-222 | a block commits if and only if no launch clashes so and every event has well-formed addresses, of a passed-over launch event only the token; otherwise the error says which of the two failed, launches first; launch events are passed over exactly when a launch of the block has their token and category and the token goes to another category |
| `CommitAnswers.ReportsMean` | internal/store/writer.go:125-191 | a committed block reports, in its order, a conflict for each launch whose token the directory ends up holding under another category, existing and incoming category in their places, and one warning for each event given a key it does not fit in |

## Left out

- RebuildLaws.BlockKeepsRebuilds: is one-way on purpose, a condition that is easy to read off the logs; `RebuildLaws.BlockRebuildsExactly` has the exact one.
- RebuildLaws.BlockRebuildsExactly: says nothing of a block that fails and whose restore fails too; then the catalog keeps what decoding registered, and only `RegistrationLaws.BlockKeepsCovers` holds.
- WeightedRoundRobin.EveryWindowIsExact: is about a fixed list of ready members. When the ready set changes from turn to turn there is no fixed cycle; `PoolFairness.EveryRunIsFair` bounds how far a member drifts from its share.
- RegistrationLaws.AcceptedNeverConflicts: assumes that nobody else writes the directory between the check and the commit; with another writer a conflict is possible, and the restore that follows is part of `ProcessBlock`.
- CallTrace.AccumulateNativeNet: says nothing about the counters after an error, which no caller looks at.
- Goroutines: the writer's queue, the prefetch workers and the flusher's interleaving with marks are step systems on values, one step per locked region, channel operation or transaction. The Go memory model and the identity of the channels and list nodes behind them are not captured.
- Floating point: tokens and waits are whole nano-tokens and nanoseconds, prices and quantities are reals; rounding, NaN and infinities are not modelled.
- Integer widths: block heights are unbounded, so wrap-around of `uint64` near its maximum is not modelled.
- Text: addresses and hashes are taken as already normalised, numbers as already parsed; malformed fields are flags or options, and the check that a trace's side is `buy` or `sell` is a type.
- The sleeping loop around `Attempt` and around `Poll`, with its backoff and cancellation, is modelled only as a sequence of attempts and of polls.
- What a caller of the writer is told: one whose context ends after its transaction began gets that error while the write may still commit; the queue model has the answer put into the request, the poller model has the write as one that failed for its caller but was applied.
- SQL: tables are maps from their primary keys and a transaction is all or nothing; column checks, foreign keys and price columns of the directory are not in `Tables`. A storage error strikes between items or at the end, not inside the statements of one item.
- Token decimals in registrations, which are read over RPC; that reading can fail is part of the restore's failure flag.
- Purge: an event id stands for its place in the text order, times are whole seconds, and other writers only insert.
- Fetching receipts one by one, probing for the block method, HTTP, JSON-RPC and batch envelopes.
- Venue decoders, routing, logging, scoring, wallets, the o1 stock and Long tables, HTTP handlers and configuration: they would add only easy members.
