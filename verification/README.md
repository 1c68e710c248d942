# Bookkeeping of the trading competition, modelled and proved

A Dafny 4.11 model of the parts of the repository that keep books: who holds what, what has been delivered, which
blocks belong to which day, what is left of a balance. Each module follows one source file or one part of it. A
class, a method with a loop or a field updated in place stands where the source has one; its contract equates the
new state or the result with a function on values, and the lemmas are about that function. Check everything with
`dafny verify dfyconfig.toml`.

| modules | what they model |
|---|---|
| `LaunchPool`, `LaunchRuns`, `LaunchWindow` | constant-product launch pools with a fee, the demand wave that buys, stops at its ceiling and sells back, agents trading against it, and whole windows of all three |
| `Tail`, `TailDelivery`, `TailLookBack`, `LineStream` | the log tail a client polls by byte offset, where a line may be served, dropped or held, the look-back that dates it, and the line-by-line stream of a whole log |
| `EpochExtent`, `LiveBoundaries` | where an epoch ends, its interval boundaries, the live loop's passes, and the live scorer that reads the boundaries behind a lag |
| `SegmentSlices`, `SegmentRecovery`, `PeriodSegments` | cutting the boundary series into day segments, closing a segment after a crash, and the roller that keeps the index of days through rolls, crashes and restarts |
| `StrandedFlows`, `StrandedLedger`, `RegistryWatcher` | tokens an agent left in registry contracts: the running ledger, the split of what is still there, and the incremental registry list |
| `RosterNets`, `RosterPairs`, `ProRata` | who put a token into a contract and who took it out, and the pro-rata pairing |
| `TroveSizing`, `PriceMath`, `BigIntMath`, `EpisodePlan` | Trove debt and collateral, the Newton square root and encoded prices, truncating division, and the windows of daily episodes |
| `Csv`, `LatestAnswers`, `FlowQueue`, `BundleValidation` | the CSV reader, the latest answer per slot, the order-flow bot's reply queue, and cumulative validation of an action bundle |

Readings shared by all modules: a JavaScript number is an exact `int` or `real`, a BigInt is an `int` with division
truncated toward zero, an address is a string already lower-cased, an iteration over a JavaScript Map is in some
order, and a thrown error is a constructor of a result type.

## What the proofs found

Where a promised property does not hold on every input, there is a lemma with an input and a lemma that says when it
does hold, exactly unless said otherwise.

- The tail of a finished run reaches the last line if and only if every ended line fits, newline included, into one
  request (`FinishedTailReachesEndIffLinesFit`); three bytes asked for two at a time never get anywhere
  (`LongLineStallsTheTail`).
- The look-back that dates a submission without a head finds the newest block named in front of the offset if and only
  if some line of the stretch it searches names that block, or no line in front of the offset names any
  (`LookBackFindsNewestIff`). With the evidence in front of the stretch, whatever its length, a submission that is mined
  holds the tail up request after request where a pass from the top goes on (`FarEvidenceHoldsTheTailUp`).
- Evidence of the head drops in a run whose boundaries are read a block behind. With only the lower evidence in the
  stretch, or with the newest looked up and the lower one read first, an answer passes a submission that a pass from the
  top holds (`LowerEvidenceInStretchPassesEarly`, `LowerEvidenceInAnswerPassesEarly`). An answer is the part of that
  pass at every height if and only if both date each submission without a head by the same block, those behind a
  submission sent later than either date aside (`AnswerIsThatOfThePassIff`); where every submission carries its head
  that always holds (`HeadedAreDatedAlike`).
- The flow bot's replies go to their own requests if and only if, with n lines out, the writes of the first n accepted
  requests all succeeded (`CorrelatedIffFirstWritesSucceeded`): a failed write leaves its resolver queued
  (`OneFailedWriteShiftsTheReplies`).
- The cap in the pro-rata pairing is per pair, so a putter of 10 is charged 20 by two takers of 10
  (`OvertakenPutterIsChargedTwice`). A putter is not overcharged when the takes of others, each counted up to all that
  was put, make no more than that (`PutterIsAttributedAtMostWhatItPut`); for a single putter, one that takes too
  included, that is exact (`OnlyPutterIsOverchargedIffOvertaken`), and for several it is up to one unit per taker
  (`PutterIsChargedItsShare`).
- The guard of the daily plan admits day lengths above three hours, but a slice under four gets no episode
  (`ShortSegmentsGetNoEpisodes`), and a day gets one if and only if its slice begins in the period and has room
  (`PlanHasEveryRoomyDay`).
- The segments' P adds up to the whole's if and only if what the carried value changes by over the segments that open
  on a gap is nothing (`SegmentsTelescopeIff`); a gain of 50 across a gap is lost (`GapAtSeamLosesTheGain`), and an
  agent that came late has a P in its segments and none over the whole (`LateAgentHasNoWhole`).
- Liquity leaves are checked against the working balance of a bundle and not deducted from it, and lending leaves are
  not even checked. Two that each take all the USDC held are accepted (`TwoOverlookedLeavesTakeTwiceWhatIsHeld`). On
  every prefix an accepted bundle is covered if and only if what its leaves took without deduction is within what the
  working balance has left (`AcceptedBundleIsCoveredIff`).
- A base without an entry in the balance map is checked against WETH and never deducted, and a stable without one is
  checked against USDC and never deducted, so neither runs out within a bundle (`UntrackedSuppliesNeverRunOut`,
  `UntrackedStablesNeverRunOut`); a base with an entry runs out exactly when it should (`TrackedSuppliesRunOut`). A map
  without a WETH entry lets WETH's two copies part, unless the other was zero (`MissingWethEntryPartsTheMirror`).
- Written rows are read back if and only if none of a single empty field goes without an ending, none of those left
  bare has a line feed for one after a row that ends in a carriage return, and the text does not open with the mark of a
  bare field of its own, which is taken for a byte order mark; those rows, or that character, are lost
  (`ParseReturnsWhatWasWritten`).
- A transfer of an agent to itself is fetched twice, and counts twice if the agent is a registry entry
  (`FetchedNets` says by how much).

## Model

| member | source | states |
|---|---|---|
| LaunchPool.PoolBuy | scripts/measureLaunchFrontRun.ts:70-77 | A purchase leaves both reserves positive and never lowers their product; the pool gains exactly the USDC paid and loses exactly the tokens given. |
| LaunchPool.PoolSell | scripts/measureLaunchFrontRun.ts:78-85 | The same for a sale, with the sides exchanged. |
| LaunchPool.TradesPayTheFee | scripts/measureLaunchFrontRun.ts:70-85 | On 997 thousandths of what is put in the product stays the same, either way round. |
| LaunchPool.WaveStepKeeps | scripts/measureLaunchFrontRun.ts:124-146 | Every block of the driver keeps the wave's books: it trails its spending target by dust at most and never passes it, and its sell-back never passes its share and ends within dust of it. |
| LaunchPool.WaveBuysOnlyWhileRunning | scripts/measureLaunchFrontRun.ts:126-134 | The wave buys only at a price at or under its ceiling, and never once the ceiling stopped it or its sell-back began. |
| LaunchPool.WaveStepConserves | scripts/measureLaunchFrontRun.ts:124-146 | A driver block moves tokens and USDC between pool and wave without creating or losing any, and never lowers the product. |
| LaunchPool.CeilingStopsTheWaveIff | scripts/measureLaunchFrontRun.ts:126-132 | A block stops the wave exactly when it is more than dust short of its ramp blocks up to this one and the price is above the ceiling; that is all such a block does. |
| LaunchPool.ShortWaveBuysToItsTarget | scripts/measureLaunchFrontRun.ts:126-131 | Short at a price at or under the ceiling, it buys all it is short of: it has then spent perBlock for each of its blocks up to this one, has what the pool gave, and the tape has exactly that much more at this block. |
| LaunchPool.WaitingWaveDoesNothing | scripts/measureLaunchFrontRun.ts:125-136 | A wave that is not short changes nothing until its hold is over, a dud never. |
| LaunchPool.DecayBlockSellsWhatIsDue | scripts/measureLaunchFrontRun.ts:135-145 | From then on the k-th block sells what is missing from k parts in all of the share of what was held, for what the pool pays; tokens, tape and reserves say so. |
| LaunchPool.SellBackFollowsItsSchedule | scripts/measureLaunchFrontRun.ts:137-143 | After each decay block the wave has sold what is due by it, within dust and never more. |
| LaunchPool.SellBackDueBounds | scripts/measureLaunchFrontRun.ts:135-139 | What is due to be sold back lies between nothing and the share of what was held, and is all of it once every decay block has come. |
| LaunchRuns.MoveKeeps | scripts/measureLaunchFrontRun.ts:116-178 | Any driver block, purchase or sale, by anyone in any pool, keeps the whole world's invariant: tokens and cash conserved, nobody below zero, every product at least the seeded one. |
| LaunchRuns.RunKeeps | scripts/measureLaunchFrontRun.ts:423-431 | So does every sequence of such moves. |
| LaunchRuns.TradersTakeAtMostWhatWavesPay | scripts/measureLaunchFrontRun.ts:160-178 | After any interleaving from fresh pools, no pool holds less USDC than was seeded, and all agents' profits together are at most the waves' net payments. |
| LaunchRuns.NoWaveNoProfit | scripts/measureLaunchFrontRun.ts:124-146 | With only duds in the window, the agents together make no profit. |
| LaunchRuns.PurchaseIsInFull | scripts/measureLaunchFrontRun.ts:160-166 | A purchase spends what was asked, or all the cash there is, and gives what the pool gave for it. |
| LaunchRuns.SaleIsInFull | scripts/measureLaunchFrontRun.ts:167-174 | A sale sells every token of the pool held and gives what the pool paid. |
| LaunchRuns.WaveStaysInBounds | scripts/measureLaunchFrontRun.ts:124-146 | Over any run a wave spends no more than b·L, nor more than its blocks before the ceiling stopped it; it sells no more than its share of what it held at decay, all but dust of it once done, and holds the rest. |
| LaunchRuns.WaveKeepsToItsSchedule | scripts/measureLaunchFrontRun.ts:124-146 | Whatever anyone trades, after n driver blocks a wave has spent n of its ramp blocks, or all it has, within dust, and after its k-th decay block has sold k parts of its share within dust. |
| LaunchRuns.StoppedForGood | scripts/measureLaunchFrontRun.ts:128-132 | A wave its ceiling has stopped never buys again, whatever is traded afterwards. |
| LaunchRuns.PoolTapeAccountsForReserves | scripts/measureLaunchFrontRun.ts:110-118 | A pool's tape, which mixes the wave and the traders, summed over its blocks, is exactly what the pool holds beyond its seed, and that is never negative. |
| LaunchRuns.EachPoolPaysAtMostItsWave | scripts/measureLaunchFrontRun.ts:160-174 | In every pool on its own, for every interleaving and whatever happens in the others, the cash all traders took out of it is what its wave paid in and did not get back, less what it holds beyond its seed: at most that. |
| LaunchWindow.Pool.Buy | scripts/measureLaunchFrontRun.ts:70-77 | The updated reserves and the tokens given are those of a purchase. |
| LaunchWindow.Pool.Sell | scripts/measureLaunchFrontRun.ts:78-85 | The updated reserves and the USDC given are those of a sale. |
| LaunchWindow.Pool.QuoteSell | scripts/measureLaunchFrontRun.ts:86-88 | A quote is what a sale would pay, and this pool is left alone. |
| LaunchWindow.Wave.Step | scripts/measureLaunchFrontRun.ts:124-146 | One block of the driver updates the wave, its pool and the tape together, as the rows on a driver block say. |
| LaunchWindow.Agent.Buy | scripts/measureLaunchFrontRun.ts:160-166 | A purchase spends at most the agent's cash and updates agent, pool and tape together. |
| LaunchWindow.Agent.Sell | scripts/measureLaunchFrontRun.ts:167-174 | A sale sells all of one pool's tokens and updates agent, pool and tape together. |
| LaunchWindow.WindowOver | scripts/measureLaunchFrontRun.ts:175-177 | What an agent's pnl can be once the window is over: at most the waves' net payments, tokens left at the bell being worth nothing. |
| LaunchWindow.WindowEnd | scripts/measureLaunchFrontRun.ts:424 | The window ends 70 blocks after the last of the waves' last blocks: after every one, and exactly after some one. |
| LaunchWindow.TotalBought | scripts/measureLaunchFrontRun.ts:430 | The sum of what the waves bought. |
| LaunchWindow.RunWindow | scripts/measureLaunchFrontRun.ts:423-431 | The final objects are the run of exactly the window's moves from the opening ones: block by block from -1, the orders of an agent that pays the high fee before every wave's driver block, any other agent's after them, and nothing else. So its profit is at most the waves' net payments, no pool falls under its seed, every wave has sold its share back within dust, and the result is what the waves bought. |
| LaunchWindow.PlayBlock | scripts/measureLaunchFrontRun.ts:425-429 | One turn of the loop plays that block's moves on top of those before. |
| LaunchWindow.EveryOrderIsPlayed | scripts/measureLaunchFrontRun.ts:426-428 | Every order of every block is played at its place: with the high fee when each driver is about to run the block, without it when each has just run it. |
| Tail.TailWalk | dashboard/server/runsApi.ts:1283-1351 | One answer of the tail: the served lines' text and the next offset, as decided line by line in file order up to the last newline read, or up to the first held line. |
| Tail.LastNewline | dashboard/server/runsApi.ts:1305-1309 | The last newline among the bytes read, or none. |
| Tail.LinesInConcat | dashboard/server/runsApi.ts:1326-1344 | The lines up to a line start and those after it are together the lines of the whole stretch: nothing is lost or read twice at an offset. |
| Tail.LinesInStable | dashboard/server/runsApi.ts:1303-1305 | Appending to the file changes no line already ended. |
| TailDelivery.SessionDeliversOnce | dashboard/server/runsApi.ts:1276-1351 | Over any session on a growing file, the lines decided are exactly the non-blank lines between the first offset and the last, in order, each once, none held. |
| TailDelivery.PollServesItsView | dashboard/server/runsApi.ts:1333-1350 | One answer's text is its lines as the request's own view serves them, whatever the view: nothing for a dropped line, the served text and a newline for the others. |
| TailDelivery.SessionServesEveryLine | dashboard/server/runsApi.ts:1276-1351 | While the view stays, what a client has after a session is each non-blank line between its first offset and its last, in file order, as the audience is served it. |
| TailDelivery.AnswersConcatenate | dashboard/server/runsApi.ts:1345-1350 | The answers' texts one after another are the text of the session. |
| TailDelivery.WalkStopsOnlyAtHold | dashboard/server/runsApi.ts:1334-1344 | An answer that ends before the last newline it read ends in front of a line that the redaction holds, given what it has seen up to there. |
| TailDelivery.HeldIffNotMined | dashboard/server/runsApi.ts:564-583 | Only a submission is held: below its head and two, below the newest block named and three where it carries none, always while the height is unknown and never once the run is finished. |
| TailDelivery.HeldLineIsPassedOnceMined | dashboard/server/runsApi.ts:1326-1344 | A request that starts at a submission passes it if and only if the chain is known by then to be two blocks past the one it was sent at: its head, or the one after the block looked up. |
| TailDelivery.FinishedPollMoves | dashboard/server/runsApi.ts:1303-1309 | Once the run is finished an answer goes to the last newline it read, and moves on exactly when there is one. |
| TailDelivery.FinishedTailReachesEndIffLinesFit | dashboard/server/runsApi.ts:1266-1309 | Polling a finished run from 0 reaches the last newline if and only if every ended line with its newline fits the limit; otherwise no number of requests does. |
| TailDelivery.LongLineStallsTheTail | dashboard/server/runsApi.ts:1305-1309 | An ended line of two bytes asked for two bytes at a time keeps the client at offset 0 for good. |
| TailDelivery.AlwaysAlikeIff | dashboard/server/runsApi.ts:564-593 | A walk begun anywhere, with anything looked up, decides as a pass that has read everything before, at every height both get that far at, if and only if they date each submission without a head by the same block, those behind a submission sent later than either date aside. |
| TailDelivery.AnswerIsThatOfThePassIff | dashboard/server/runsApi.ts:1321-1344 | So an answer is what the pass from the top, having read the file up to its offset, decides from there, at every height, if and only if that holds of its lines. |
| TailDelivery.PassGoesOn | dashboard/server/runsApi.ts:1326-1344 | The pass from the top, once it gets to an offset, goes on as a walk from there that has seen the newest block named in front of it. |
| TailDelivery.HeadedAreDatedAlike | dashboard/server/runsApi.ts:569-579 | Where every submission carries the head it was sent at, an answer depends on nothing looked up or seen. |
| TailLookBack.LookBackFindsNewestIff | dashboard/server/runsApi.ts:1045-1072 | Searching a stretch of the file in front of the offset, begun inside a line or not, gives the newest block named in front of it if and only if some line of the stretch names that block, or no line in front of the offset names any. |
| TailLookBack.AnswerWithLookBackIsThatOfThePass | dashboard/server/runsApi.ts:1321-1324 | Then an answer whose lines, up to the first submission without a head, name no block or one up to that, is the corresponding part of one pass from the top, at every height. |
| TailLookBack.FarEvidenceHoldsTheTailUp | dashboard/server/runsApi.ts:1053-1060 | For every length of the stretch, a line that names a block and others that name none to fill the stretch: an answer stays at a submission whose block is mined, however many bytes it reads, and the pass from the top goes past it. |
| TailLookBack.LowerEvidenceInStretchPassesEarly | dashboard/server/runsApi.ts:1053-1065 | For every length of the stretch that holds a line naming a lower block and not the one naming the newest: the look-back answers the lower, and an answer passes a submission at heights at which the pass from the top holds it. |
| TailLookBack.LowerEvidenceInAnswerPassesEarly | dashboard/server/runsApi.ts:573-576 | With the newest block looked up, an answer that reads a line naming a lower one first passes a submission at heights at which the pass from the top holds it. |
| LineStream.SplitConcat | dashboard/server/runsApi.ts:1151-1153 | Splitting more text continues from the unended line of the text before it. |
| LineStream.KeptConcat | dashboard/server/runsApi.ts:1155-1160 | Redacting lines in two batches, carrying what was seen, keeps the text of redacting them in one. |
| LineStream.KeptReadsBack | dashboard/server/runsApi.ts:1155-1161 | Split at its newlines, the text kept is the lines the redaction kept, each ended. |
| LineStream.AnswerReadsBack | dashboard/server/runsApi.ts:1345-1350 | So is an answer of the tail: the client gets each served line for itself. |
| LineStream.LineTransform.Transform | dashboard/server/runsApi.ts:1150-1161 | After any chunk, everything fed has been emitted but the line not yet ended. |
| LineStream.LineTransform.Flush | dashboard/server/runsApi.ts:1162-1168 | The end of the file emits the unended last line too. |
| LineStream.StreamFile | dashboard/server/runsApi.ts:1142-1170 | However a file is cut into chunks, the emitted text is that of splitting the whole file once and redacting its lines in order. |
| EpochExtent.GridIsExact | core/src/epochExtent.ts:92-108 | The boundaries begin at the first block and end at the last, and every gap is the interval but a last one no longer than it. |
| EpochExtent.GridSizeExact | core/src/epochExtent.ts:92-108 | Their number is exact: the last boundary is the end and the one before it is not. |
| EpochExtent.GridRises | core/src/epochExtent.ts:92-108 | The boundaries are strictly increasing. |
| EpochExtent.NextIsNextGridPoint | core/src/epochExtent.ts:76-84 | Stepping from a boundary gives the next one, and nothing after the last. |
| EpochExtent.IntervalBoundaryBlocks | core/src/epochExtent.ts:92-108 | The loop builds that grid, or nothing when the interval is no whole block or the window has none. |
| EpochExtent.IntervalCount | core/src/epochExtent.ts:111-119 | The least number of intervals that cover a run, whole number of blocks or not; none when the series is off or the run has no length. |
| EpochExtent.PassesPartition | core/src/realtime/coordinator.ts:4785-4822 | For any notifications the passes cover the blocks they process once and in order, and only the last pass can be final, exactly when the loop has finished. |
| EpochExtent.FinishedLoopCoversTheBudget | core/src/epochExtent.ts:30-36 | A loop started in front of a run's first block, once finished, has processed that block and one more for each whole block of the budget, each once and in order. |
| EpochExtent.BudgetSetsTheEnd | core/src/epochExtent.ts:30-36 | A run has an end exactly when its budget is a positive number: its whole blocks past the first. |
| EpochExtent.LoopReachesTheFurthestHead | core/src/realtime/coordinator.ts:4785-4822 | Over any notifications the loop gets to the furthest block it was told of or the end, and is finished exactly when it was told of the end or past it. |
| LiveBoundaries.ClosedRunReadsTheGrid | core/src/realtime/liveScoring.ts:237-313 | Whatever blocks the scorer was told of, behind whatever lag, once it is closed at a block none of them is past, the boundaries it attempted are the whole grid from the run's first block to its end: the budget's end, or where the run was cut. |
| LiveBoundaries.LaggingReadsTheSame | core/src/realtime/liveScoring.ts:250-299 | Before that, what has been attempted depends on the furthest block alone. |
| LiveBoundaries.OnBlocksReads | core/src/realtime/liveScoring.ts:237-299 | At every moment the boundaries attempted are the first ones of the grid, in order, none past the furthest block less the lag, whether or not the end is known. |
| LiveBoundaries.LiveScorer.OnBlock | core/src/realtime/liveScoring.ts:254-273 | The loop attempts exactly the boundaries due through the block less the lag; none when the series is off. |
| LiveBoundaries.LiveScorer.Close | core/src/realtime/liveScoring.ts:307-313 | The end becomes known, or is brought forward, and all due through it is attempted without the lag. |
| SegmentSlices.SliceIntervalSeries | core/src/segments.ts:425-451 | The loop returns the segment's boundaries, with the one before it when it does not open on one, and the values at them. |
| SegmentSlices.SliceIsRange | core/src/segments.ts:430-441 | For rising boundaries a segment is one contiguous stretch of the run's. |
| SegmentSlices.IntervalIsWhereItEnds | core/src/segments.ts:418-424 | An interval belongs to a segment exactly when it ends inside it. |
| SegmentSlices.SegmentsTileTheIntervals | core/src/segments.ts:425-451 | For any increasing cuts, an interval is in some segment if and only if it ends after the first cut and by the last, and never in two. |
| SegmentSlices.SeamSharesOneBoundary | core/src/segments.ts:436-441 | A segment opens on the very boundary the one before closes on, whether or not the cut lands on one. |
| SegmentSlices.EpochPnlFromSeries | core/src/scoring/epochPnl.ts:23-48 | P is the last reported value less the first, with where it was read; none without a first value or a later one. |
| SegmentSlices.PnlIsFromFirstToLastReported | core/src/scoring/epochPnl.ts:26-47 | There is a P exactly when the first boundary and a later one report the agent; it names those values, where the last one stands, and whether it was carried. |
| SegmentSlices.SegmentsTelescope | core/src/segments.ts:425-451 | An agent's P per segment sums to its P over the whole stretch, for any cuts, when it was valued where each segment opens. |
| SegmentSlices.SegmentsTelescopeIff | core/src/scoring/epochPnl.ts:27-47 | For any cuts, the segments' P sums to the whole's exactly when what the carried value changes by over the segments that open on a gap comes to nothing; for an agent without a value where the whole opens, exactly when the changes over the others do. |
| SegmentSlices.SegmentsAddUp | core/src/scoring/epochPnl.ts:23-48 | The segments' P sums to the changes of the carried value over the segments that open on a reported value. |
| SegmentSlices.GapAtSeamLosesTheGain | core/src/scoring/epochPnl.ts:27-38 | Values 100, none, 150 cut in the middle: the segments have no P, the whole has 50. |
| SegmentSlices.LateAgentHasNoWhole | core/src/scoring/epochPnl.ts:27-30 | Values none, 100, 150 cut in the middle: the second segment has 50, the whole has no P. |
| SegmentRecovery.WholeIsAStretchOfTheRun | core/src/segmentRecovery.ts:58-82 | The previous summary and the lines after it make up one stretch of the run's series, gaps filled in where an agent was not yet known. |
| SegmentRecovery.SameCut | core/src/segmentRecovery.ts:83-85 | The stretch opens and closes the segment where the whole run would. |
| SegmentRecovery.RecoveryIsTheRoll | core/src/segmentRecovery.ts:52-117 | A segment closed after a crash ends on the last line's block, or where it began without any, and has the boundaries, every named agent's values and everybody's P that the roll would have written from the whole run at that block. |
| PeriodSegments.NextDayBoundaryIsNext | sdk/src/periodClock.ts:67-75 | The next boundary is the least point of the day grid strictly after now. |
| PeriodSegments.RollKeeps | core/src/segments.ts:341-358 | A roll keeps the index well formed and rewrites no entry but the one it closes; the next roll is on the grid and not due at the moment of this one. |
| PeriodSegments.FirstBlockStartsThePeriod | core/src/segments.ts:317-335 | The first block starts segment, period and day there: a roll is due from one day on and not before, and later first blocks change nothing. |
| PeriodSegments.RollOpensTheNextDay | core/src/segments.ts:341-358 | A roll closes the day's entry at its block and opens the next there, under the day it happened on; the period stays, and the next roll is due at the first whole number of days from its start that is later. |
| PeriodSegments.FinishClosesTheDay | core/src/segments.ts:361-382 | Finishing closes the last entry and changes nothing else. |
| PeriodSegments.DayHoldsTheMoment | core/src/segments.ts:341-358 | A segment is named after the UTC day its start lies in. |
| PeriodSegments.OneRollPerDay | core/src/segments.ts:331-335 | After a roll the next is due only once a grid day has ended since, however many days were missed before. |
| PeriodSegments.ResumeRestores | core/src/segments.ts:199-213 | A restart restores the saved state, keeps the closed days, drops later ones and opens the current one again. |
| PeriodSegments.ResumeThenRoll | core/src/segments.ts:196-227 | A roll or a finish after a restart writes the same index as it would have without the crash. |
| PeriodSegments.CrashKeeps | core/src/segments.ts:199-213 | A crash back to any saved checkpoint keeps the period well formed and the earlier checkpoints usable. |
| PeriodSegments.NextKeeps | core/src/segments.ts:182-382 | Every event of a period keeps its invariant. |
| PeriodSegments.EveryPeriodIsWellFormed | core/src/segments.ts:163-416 | After any sequence of first blocks, rolls, finishes, saves and crashes: seeds are consecutive, each directory has one entry, every day but the current is closed where the next begins, and the scheduled roll is on the grid. |
| PeriodSegments.SegmentedRun.constructor | core/src/segments.ts:217-226 | A new run opens its first segment and lists it. |
| PeriodSegments.SegmentedRun.Resumed | core/src/segments.ts:199-226 | A resumed run holds what the checkpoint and the index on disk restore. |
| PeriodSegments.SegmentedRun.FirstBlockSeen | core/src/segments.ts:317-324 | The first block starts segment and period at that block and moment and schedules the roll a day on; later ones change nothing. |
| PeriodSegments.SegmentedRun.RollSegment | core/src/segments.ts:341-358 | The fields and the index after a roll. |
| PeriodSegments.SegmentedRun.FinishRun | core/src/segments.ts:361-363 | The index after the last segment is closed. |
| PeriodSegments.SegmentedRun.CloseIndexEntry | core/src/segments.ts:365-382 | The current segment's entry is written anew, ending at the block. |
| ProRata.SharesNeverExceed | sdk/src/agentMarkets.ts:106 | Whole-unit shares of parts within a whole never exceed the amount split. |
| ProRata.SharesFallShortByLessThanOneEach | sdk/src/agentMarkets.ts:106 | They fall short of it by less than one unit per part when the parts make up the whole. |
| StrandedFlows.ClampToBalances | sdk/src/agentMarkets.ts:58-75 | Each flow is cut to what its contract holds, dropped when that is nothing, and kept when the balance is unknown. |
| StrandedFlows.AllocateToBalances | sdk/src/agentMarkets.ts:86-110 | The two passes give each flow its share of the balance by the total flowed in by all agents. |
| StrandedFlows.NeverMoreThanHeld | sdk/src/agentMarkets.ts:86-110 | Over all agents no more of a token is reported in a contract than it holds; all of it when the balance covers it, and otherwise less than one unit per flow short. |
| StrandedFlows.EachAgentHasItsShare | sdk/src/agentMarkets.ts:86-110 | Each agent is told of its own flows where the contract holds all that was put in, and else of its part of what is held less than one unit per flow short. |
| StrandedFlows.UnknownIsKept | sdk/src/agentMarkets.ts:58-110 | Flows into a contract whose balance is not known are reported as they are, either way. |
| StrandedFlows.PlaceIsContractAndToken | sdk/src/agentMarkets.ts:86-110 | Flows go to one place when they are of one token into one contract. |
| StrandedFlows.OneAgentIsClamped | sdk/src/agentMarkets.ts:58-110 | For one agent with distinct places the split is the single-agent cap. |
| StrandedLedger.Ledger.Apply | sdk/src/agentMarkets.ts:156-181 | The running net grows by the net of the logs applied, for every contract and token. |
| StrandedLedger.Ledger.Outstanding | sdk/src/agentMarkets.ts:185-194 | One flow for every place with a positive net, with that amount, and no other. |
| StrandedLedger.NetOfPermutes | sdk/src/agentMarkets.ts:156-181 | The order of the logs does not matter. |
| StrandedLedger.TransferCounts | sdk/src/agentMarkets.ts:156-181 | A transfer of the agent's into an entry counts up, one from an entry to it down, any other not. |
| StrandedLedger.OtherLogsCountNothing | sdk/src/agentMarkets.ts:165-170 | A log of another shape, or with an argument missing, counts nothing. |
| StrandedLedger.ThereAndBack | sdk/src/agentMarkets.ts:156-181 | What is put in and comes back nets to nothing. |
| StrandedLedger.FetchedNets | sdk/src/agentMarkets.ts:200-224 | Asking by sender and by recipient nets as all the logs do, with transfers to oneself counted once more; those net to nothing unless the agent is itself an entry. |
| RegistryWatcher.PinnedWithoutNewCreators | sdk/src/agentMarkets.ts:492-502 | Unless the new entries bring a new environment creator, only they can be newly pinned. |
| RegistryWatcher.PinnedIffCreatorHasVerifiedToken | sdk/src/agentMarkets.ts:300-307 | An entry is pinned exactly when its creator has a verified ERC-20 entry anywhere in the list. |
| RegistryWatcher.MarketRegistryWatcher.PinFrom | sdk/src/agentMarkets.ts:492-502 | The incremental pins are the sorted indices the whole list defines, also when a pool came before its creator's token. |
| RegistryWatcher.ShownIsNewestFirst | sdk/src/agentMarkets.ts:383-393 | The list is strictly newest first, without duplicates, at most 128 and 32 long, and only of the window or pinned. |
| RegistryWatcher.ShownLeavesOutOnlyOlderListings | sdk/src/agentMarkets.ts:386-393 | No entry of the window is left out, and a pinned one only when 32 newer pinned ones outside the window are shown. |
| RegistryWatcher.LedgerIsTheNetSinceListing | sdk/src/agentMarkets.ts:408-426 | Over any reads from any state on, the empty one included, and failed queries included, the net into a contract is exactly that of the transfers of the blocks from the first not yet fed when a read listed it to the last fed: each block once, the listing read's own included. |
| RegistryWatcher.AnsweredReadReachesItsBlock | sdk/src/agentMarkets.ts:408-426 | A read feeds through its own block exactly when it is answered for blocks not fed yet; otherwise what is fed stays where it was. |
| RegistryWatcher.ReadsReachTheFurthestAnswered | sdk/src/agentMarkets.ts:408-426 | Over any reads the ledger is fed through the furthest block one was answered at, and no further. |
| RegistryWatcher.RangeHasItsBlocks | sdk/src/agentMarkets.ts:200-224 | The transfers asked for are those of every block of the range and of no other. |
| RegistryWatcher.ListedIsAnEntry | sdk/src/agentMarkets.ts:357-382 | A contract is fed when an entry of the list is at its address. |
| RegistryWatcher.UnlistedIsNotFed | sdk/src/agentMarkets.ts:420 | Nothing is fed for a contract before it is listed. |
| RegistryWatcher.MarketRegistryWatcher.ReadBlock | sdk/src/agentMarkets.ts:357-426 | One read: the state stays what the whole list defines, the list shown and its dropped count are exact, and the ledger is fed the blocks not fed yet when the query was answered. |
| RosterNets.ContractNets | core/src/rosterTransfers.ts:258-288 | The maps built log by log hold every agent's net per contract and token and the last block of each, for exactly the pairs some log touched. |
| RosterNets.LogCountsOnce | core/src/rosterTransfers.ts:258-288 | A log counts for one agent in one contract or for nobody: up into a watched contract, down out of one, never between two registered addresses, and only a transfer of something. |
| RosterNets.NetsDoNotDependOnOrder | core/src/rosterTransfers.ts:258-288 | Nets are the same for the logs in any order. |
| RosterNets.Split | core/src/rosterTransfers.ts:291-296 | Agents with a positive net are the putters, with a negative one the takers, each once with its net. |
| RosterNets.SidesAreDisjoint | core/src/rosterTransfers.ts:293-296 | Nobody is on both sides. |
| RosterNets.ContractMovements | core/src/rosterTransfers.ts:254-312 | Per contract and token the movements are the pairs of the sides its nets split into, dated by its last block. |
| RosterNets.TakerIsCharged | core/src/rosterTransfers.ts:289-310 | A taker from a contract is charged at most what it took, and all but less than one unit per putter when no more than the total was put. |
| RosterNets.AttributionDoesNotDependOnOrder | core/src/rosterTransfers.ts:254-312 | The same amounts go between the same agents whatever the order of logs and agents. |
| RosterPairs.ProRataPairs | core/src/rosterTransfers.ts:406-424 | The nested loops return the pairs in order, capped and without empty or own pairs. |
| RosterPairs.TakerIsAttributedWhatItTook | core/src/rosterTransfers.ts:402-424 | A taker's attribution times the total is what the others put times its take, the take counted up to the total, short of it by less than the total per other putter; so at most its take, and more than take less the number of putters when it put nothing and took no more than the total. |
| RosterPairs.PutterIsAttributedAtMostWhatItPut | core/src/rosterTransfers.ts:402-424 | A putter's pairs sum to at most what it put when the takes of others, each counted up to all that was put in, make no more than that; what it took itself counts for nothing. |
| RosterPairs.NobodyIsOverchargedUnlessOvertaken | core/src/rosterTransfers.ts:402-424 | In particular when no more was taken than put. |
| RosterPairs.PutterIsChargedItsShare | core/src/rosterTransfers.ts:414-421 | A putter, one that takes too included, is charged its share of the others' takes so counted, short of it by less than one unit per taker, and so more than it put once they exceed all that was put by that much. |
| RosterPairs.OnlyPutterIsOverchargedIffOvertaken | core/src/rosterTransfers.ts:414-421 | A single putter, one that takes too included, is charged more than it put if and only if the others' takes so counted are more than that. |
| RosterPairs.OvertakenPutterIsChargedTwice | core/src/rosterTransfers.ts:418 | With more taken than put, a putter of 10 is charged 20. |
| BigIntMath.TruncDivBounds | core/src/liquityVictims.ts:96 | Truncating division leaves a remainder smaller than the divisor, and is positive exactly when both sides have one sign and the left is at least the right. |
| PriceMath.Sqrt | deployer/src/util.ts:61-71 | Newton's iteration ends with r² ≤ v < (r+1)²; a negative input is refused. |
| PriceMath.NewtonStaysAbove | deployer/src/util.ts:66-69 | A Newton step never lands below the root. |
| PriceMath.EncodeSqrtRatioX96 | deployer/src/util.ts:74-77 | The encoded price is the floor of the exact root, nothing lost to the inner floor; the error cases are exact. |
| PriceMath.ScaleSquared | deployer/src/util.ts:74-77 | The amounts are scaled by the square of two to the 96th. |
| PriceMath.RootOfQuotientIsEncoding | deployer/src/util.ts:74-77 | The root of a floored quotient is the floor of the root of the quotient. |
| PriceMath.EncodingIsMonotone | deployer/src/util.ts:74-77 | More of token 1 never lowers the price, more of token 0 never raises it. |
| TroveSizing.VictimLandsOnTarget | core/src/liquityVictims.ts:51-62 | The debt, its floored fee and the gas compensation never exceed the target, so the ratio is never below the one asked for, and are within two units of it when the rate is under 100%; the debt is the most the rate leaves room for, and none when the compensation covers the target. |
| TroveSizing.MicroRounds | core/src/liquityVictims.ts:85-88 | A number is taken in the nearest millionths. |
| TroveSizing.RatioIsEighteenPlaces | core/src/liquityVictims.ts:58 | The ratio divided by is the target to eighteen places, rounded at the sixth. |
| TroveSizing.CohortSizedIffOneSign | core/src/liquityVictims.ts:91-98 | A cohort is sized exactly when both sides of the equation have one sign and the left one is at least the right; the remainder is less than the divisor. |
| TroveSizing.NothingToSize | core/src/liquityVictims.ts:84-94 | Without Troves, or with a crash of nothing or all, the answer is null; the division by a ratio that rounds to nothing is the only one that throws. |
| TroveSizing.SizedCohortSolvesTheEquation | core/src/liquityVictims.ts:69-98 | The collateral returned solves the exact equation up to the divisor and one unit for each of the three truncations, scaled by what multiplies it. |
| EpisodePlan.DailyEpisodePlan | core/src/practiceEpisodes.ts:128-150 | The loop plans the slices that begin in the period and leave room, up to the first that does not; the refusals are exact. |
| EpisodePlan.WindowIsTheSliceLessMargins | core/src/practiceEpisodes.ts:136-147 | A day's window is its slice less an hour and a half at either end, to half a millionth of the run; there is room for one from four hours on. |
| EpisodePlan.PlanHasEveryRoomyDay | core/src/practiceEpisodes.ts:136-139 | Stopping there misses nothing: a day begins in the period and has room exactly when it is in the plan. |
| EpisodePlan.ShortSegmentsGetNoEpisodes | core/src/practiceEpisodes.ts:131-139 | Day lengths under four hours leave no slice with room, though those above three are admitted. |
| EpisodePlan.WindowsSurviveAMisplacedStart | core/src/practiceEpisodes.ts:140-147 | With the start off by at most the margin less the rounding, every point of day k's window, as a fraction of the actual run, falls inside day k of the actual grid. |
| EpisodePlan.WindowsAreApart | core/src/practiceEpisodes.ts:140-141 | Days' windows follow one another, disjoint in any period under three million hours. |
| EpisodePlan.ExtensionWindowsAreApart | core/src/practiceEpisodes.ts:187-197 | So do an extension's, disjoint as long as the base is shorter than three million hours. |
| EpisodePlan.ExtensionEpisodePlan | core/src/practiceEpisodes.ts:175-206 | The extension has a window for every slice with room between the saved end and the new one, and for nothing else. |
| EpisodePlan.ExtensionWindowIsTheSliceLessMargins | core/src/practiceEpisodes.ts:181-206 | An extension's part of a day lies between the latest of the day's start, the saved end and now, and the earlier of the day's end and the new one; its window is that less the margins, in blocks of the base. |
| EpisodePlan.ExtensionOpensAfterTheEnd | core/src/practiceEpisodes.ts:181-197 | No window of an extension opens before the saved end block, when the margin outweighs the rounding. |
| EpisodePlan.ProjectionRoundTrip | core/src/practiceEpisodes.ts:181-184 | Projecting a block to a time and back is exact. |
| EpisodePlan.ProjectionIsLinear | core/src/practiceEpisodes.ts:181-184 | The projection goes through the checkpoint, one block for each block time. |
| Csv.ParseCsv | scripts/inferenceKeys.ts:56-89 | The character loop computes the specified reading of a text, and refuses one that ends in quotes. |
| Csv.ScanRows | scripts/inferenceKeys.ts:62-88 | From any point between rows, what is read of printed rows, after the rows already read, is those that are not lost. |
| Csv.UnclosedQuoteIsRefused | scripts/inferenceKeys.ts:83 | A quote that opens a field behind any written rows and is never closed is refused. |
| Csv.TextBehindQuotesIsKept | scripts/inferenceKeys.ts:63-81 | What stands between a closing quote and the end of a field is part of the field. |
| Csv.ParseReturnsWhatWasWritten | scripts/inferenceKeys.ts:56-89 | Rows written by section 2 of RFC 4180, any line ending per row, quotes where needed, byte order mark or not, are read back as they were if and only if none of a single empty field is without an ending or, left bare, ends in LF after a row that ends in CR, and no bare field of theirs opens the text with that mark; otherwise as they were without those rows, or without that mark unless a quote is behind it. |
| LatestAnswers.KeepLatest | scripts/inferenceKeys.ts:350-359 | Each slot answered keeps an answer of its own that none of its others comes after; kept and replaced together are all the answers, and each replaced one names two of its slot, the later of which replaced the other. |
| LatestAnswers.SlotIsUnitAndProvider | scripts/inferenceKeys.ts:355 | Answers compete when they are one unit's for one provider. |
| LatestAnswers.LaterIsByTimeThenRow | scripts/inferenceKeys.ts:351 | Later is by timestamp, none counting as zero, and by row where those agree. |
| LatestAnswers.SortedSorts | scripts/inferenceKeys.ts:351 | The order of the fold is by timestamp and row and has the same answers. |
| FlowQueue.RunKeeps | core/src/flowProcess.ts:69-120 | Over any events, the queue holds exactly the requests from the first position not answered on, and a line only ever settles the request in its position. |
| FlowQueue.LineAnswersTheHead | core/src/flowProcess.ts:70-73 | A line takes the head off the queue and answers it, unless it was settled before, and settles nobody else. |
| FlowQueue.TimeoutSettlesItsOwn | core/src/flowProcess.ts:103-110 | A timeout settles its own request, unless that was settled before, and leaves the queue as it is. |
| FlowQueue.SettledForGood | core/src/flowProcess.ts:95-120 | A settlement stays through any later events. |
| FlowQueue.LiveBotIsAsked | core/src/flowProcess.ts:95-102 | While the bot runs every request is queued, and written unless its write throws. |
| FlowQueue.NothingAcceptedAfterTheEnd | core/src/flowProcess.ts:95 | Once it is dead or closed no request is accepted any more. |
| FlowQueue.OnlyDeathAndClosingEnd | core/src/flowProcess.ts:79-88 | Death and closing are the end, and nothing else is. |
| FlowQueue.CorrelatedIffNoneAcceptedAfterFailedWrite | core/src/flowProcess.ts:70-73 | Every line goes to the request it answers if and only if no request whose reply is out was accepted after one whose write failed. |
| FlowQueue.CorrelatedIffFirstWritesSucceeded | core/src/flowProcess.ts:95-102 | On the events: with n lines out, if and only if the writes of the first n accepted requests all succeeded. |
| FlowQueue.RunKnowsFailures | core/src/flowProcess.ts:97-102 | Over any events, the accepted requests that did not reach the bot are exactly those settled as failed writes. |
| FlowQueue.AnswersAreTheirOwn | core/src/flowProcess.ts:91-120 | Then an answered request has the bot's answer to itself, timeouts and deaths notwithstanding. |
| FlowQueue.OneFailedWriteShiftsTheReplies | core/src/flowProcess.ts:98-102 | One failed write, one good one and a line leave the good request unanswered. |
| FlowQueue.StderrIsTheEndOfTheOutput | core/src/flowProcess.ts:74-77 | Cutting at every chunk keeps the text of cutting once at the end. |
| FlowQueue.FlowProcess.RequestOrders | core/src/flowProcess.ts:91-102 | A request is queued before its write is tried; the new queue is that of the event. |
| FlowQueue.FlowProcess.OnLine | core/src/flowProcess.ts:70-73 | A line shifts the queue and settles the request at its head. |
| FlowQueue.FlowProcess.OnStderr | core/src/flowProcess.ts:74-77 | The text kept is the last 20,000 characters. |
| BundleValidation.MirrorsNeverPart | sdk/src/action.ts:367-412 | From a snapshot whose copies agree, whatever leaves are applied, checked or not, WETH stays equal to its entry, USDC to its, and nothing goes negative. |
| BundleValidation.MissingWethEntryPartsTheMirror | sdk/src/action.ts:377-380 | Without a WETH entry a credit makes one, equal to the other copy only if that was zero. |
| BundleValidation.AcceptanceIsPrefixClosed | sdk/src/action.ts:294-319 | Every prefix of an accepted bundle is accepted. |
| BundleValidation.AcceptedBundleNeverSaturates | sdk/src/action.ts:360-412 | For any token with an entry, the working balance after an accepted bundle is the ledger of what was deducted and credited, in full: no subtraction was cut off at zero. |
| BundleValidation.AcceptedBundleIsCoveredIff | sdk/src/action.ts:278-311 | On every prefix, what the last leaf takes of a token, deducted or not, is within what was held and credited less all that was taken before, if and only if what the leaves took so far without deduction is within what the working balance has left. |
| BundleValidation.AcceptedBundleIsCovered | sdk/src/action.ts:278-281 | So an accepted bundle spends no more of a token than it started with and was credited, on every prefix in which nothing took it without deduction. |
| BundleValidation.TwoOverlookedLeavesTakeTwiceWhatIsHeld | sdk/src/action.ts:504-505 | Two leaves that each swap all the USDC held for eUSD are accepted, leave the working balance as it was, and are short by as much as was held. |
| BundleValidation.NextLeafIsAcceptedIffCovered | sdk/src/action.ts:306-311 | After an accepted bundle, the venue's balance check on the next leaf holds exactly when it is well formed and what it is checked for is on the ledger of what was deducted and credited. |
| BundleValidation.AcceptedIffCovered | sdk/src/action.ts:263-321 | When every token checked for has an entry, a bundle is accepted if and only if every fee fits, each leaf is well formed and passes its venue's other checks, and what it is checked for is on the ledger of what was deducted and credited; what leaves take without deduction is not on that ledger. |
| BundleValidation.RescalingKeepsTheDollars | sdk/src/action.ts:21-26 | Rescaled decimals are worth the same dollars less what does not make up one unit, and exactly the same when decimals are added. |
| BundleValidation.StableSwapCreditsItsWorth | sdk/src/action.ts:452-472 | A stable swap takes its input in full and credits only the other stable, with no more dollars than it took and less than one unit fewer. |
| BundleValidation.SwapPaysAndReceives | sdk/src/action.ts:414-438 | After a swap there is its input less of what it pays with, exactly its estimate more of the other side (nothing where there is no price), and of every other token what there was. |
| BundleValidation.BoughtBaseIsTracked | sdk/src/action.ts:377-380 | A base the map has no entry for gets one with what was bought of it. |
| BundleValidation.StableSwapPaysAndReceives | sdk/src/action.ts:452-474 | After a stable swap there is its input less of one stable and the rescaled input more of the other, whatever stable its adapter names. |
| BundleValidation.DollarsToEighteenDecimals | sdk/src/action.ts:21-26 | Six decimals to eighteen is a million million to one, and back, rounded down. |
| BundleValidation.MintPaysBoth | sdk/src/action.ts:439-445 | Minting liquidity takes both its amounts and nothing else. |
| BundleValidation.OtherLeavesPay | sdk/src/action.ts:477-506 | A deposit or a sale of WETH for the LST takes it; the leaves that take nothing, or nothing that is deducted, change nothing. |
| BundleValidation.AaveLeavesPay | sdk/src/action.ts:485-503 | A supply or a repayment takes its amount; a repayment of "max" of a tracked asset takes all of it and nothing else. |
| BundleValidation.BuyThenSellIsAccepted | sdk/src/action.ts:350-356 | Buying a base and selling what the estimate makes of it is accepted whenever the first leg and the fees are covered, however little of the base is held. |
| BundleValidation.NothingIsRefused | sdk/src/action.ts:306-307 | A leaf of nothing is refused, whatever is held. |
| BundleValidation.TrackedSuppliesRunOut | sdk/src/action.ts:369-376 | The same supply n times is accepted exactly when n of them are held. |
| BundleValidation.UntrackedSuppliesNeverRunOut | sdk/src/action.ts:369-376 | For a base without an entry it is accepted any number of times once WETH covers one. |
| BundleValidation.UntrackedStablesNeverRunOut | sdk/src/action.ts:385-392 | Paid in a stable without an entry, the same buy is accepted any number of times once USDC covers one. |
| BundleValidation.Snapshot.CopyOf | sdk/src/action.ts:282-292 | The working balance is a fresh copy: the caller's amounts, the same entries of each map, a missing map of stables made empty and a missing map of bases left missing. |
| BundleValidation.CopyReadsTheSame | sdk/src/action.ts:282-292 | It holds of every token what the caller's snapshot holds and deducts from the same ones. |
| BundleValidation.Snapshot.MoveStable | sdk/src/action.ts:402-411 | A signed move is a spend or a credit of the named stable, USDC in step. |
| BundleValidation.Snapshot.ApplyLeafSpend | sdk/src/action.ts:360-507 | Each kind of leaf updates the working balance as its moves say, of which the rows above say what they leave of every token. |
| BundleValidation.ValidateLeafItems | sdk/src/action.ts:263-321 | The verdict is valid exactly when the bundle is accepted, with its intents in order and their fees: the bundle's own where it names one, else the leaf's, else the default, none past the maximum; a refusal names the first leaf not acceptable; the caller's snapshot is not changed. |

## Left out

- Deployment, RPC, anvil, file, HTTP and process code, the dashboard and the generated tables: plumbing around what is modelled here.
- Floating point: numbers are exact; the dust thresholds of the wave and the six-place rounding of the episode plan are kept as the source has them.
- The strategies of the launch agents and the drawing of waves: an agent is any function from block to orders, a wave any valid terms.
- `Math.max` over no waves is minus infinity; `WindowEnd` answers -1, the first block, so that the loop is equally empty.
- Parsing a log line and what its redaction prints: a reader is any function from lines to events and texts. The dated rule for environment submissions and its hold are modelled in full.
- The blocks.csv branch of the tail and the unredacted one, and the UTF-8 decoder of the stream: lines are bytes.
- TailLookBack.LookBackFindsNewestIff: the two patterns the source searches a line's text with are any function that, on the lines in front of the offset, agrees with what the line reports, and names that or nothing on the end of the line; the length of the stretch is a parameter, 64KB in the source.
- TailDelivery.SessionServesEveryLine: for requests that share a view; the source's view depends on what is known of the schedule at the request, and `PollServesItsView` is the statement that covers a change of it.
- LiveBoundaries.ClosedRunReadsTheGrid: for whole blocks per interval; what reading a boundary does, and its failure, are left out, since the source counts a failed one as attempted.
- SegmentRecovery.RecoveryIsTheRoll: takes the previous summary to be the run's own slice and the lines its boundaries since; the summary fields that are copied from the input are left out.
- The label of a segment, and directories as text: a directory is the pair of day and segment number its name is made of, compared whole where the source compares by suffix.
- PeriodSegments.RollKeeps: at a block above zero, as the coordinator rolls; block 0 stands for no block yet in the source.
- PeriodSegments.EveryPeriodIsWellFormed: the first entry, listed before the first block is known, carries block 0 until it is closed; that is the code's behaviour and the statement says nothing else of it.
- RegistryWatcher.LedgerIsTheNetSinceListing: for a registry that does not shrink (the reset after a chain revert clears the list but not the ledger), and an agent that is not itself a registry entry. Transfers in blocks fed before a contract is listed are not counted by the source, and `UnlistedIsNotFed` says so.
- Codehashes, oracle owners, allowances, the filter to priced tokens, and the fallback to the last good observation.
- The lending, ETH and ERC-20 routes of the roster report, its grouping, valuation and flags. The lending route nets supplies and borrows apart, so that one agent can be on both sides, and pairs with the same function; the statements about pairs cover agents on both sides, those about nets only the contract route.
- The content of the episodes and the text they are written to.
- EpisodePlan.ExtensionEpisodePlan: keeps the hours of a slice in milliseconds, where the source prints them rounded.
- EpisodePlan.ExtensionOpensAfterTheEnd: for runs whose rounding, half a millionth of the base, is shorter than the margin; six places cannot promise it of longer ones.
- Csv.ParseReturnsWhatWasWritten: where a bare first field opens with the mark and a quote is behind it, it says only that the rows are not read back.
- Column detection, key checks and the nesting of the final answer in the CSV import; the sort of that answer.
- Parsing the bot's reply line; in FlowQueue an event settles a request once and a timer runs only for a request that was written.
- BundleValidation.AcceptedIffCovered: what a venue checks besides balances is any predicate of leaf and working balance; the price estimate of a swap's output is part of the leaf; the LST is in no balance map. Leaves that ride alone (gmx) are not part of a bundle.
- BundleValidation.AcceptedBundleNeverSaturates: for venues that check the stable their adapter names (`VenueAgrees`), as the configured WETH markets do (sdk/src/constants.ts, lines 374 and 382).
- Raw transactions and raw bundles, bundle identifiers, and the raw-transaction branch of validation.
