# The xmatch matching engine, modelled and proved in Dafny

The project models the single-threaded xmatch matching engine - order entry, cancellation, replacement,
fill-or-kill, best bid and offer - over its real data structures, and proves that it behaves as a small
price/time market. `dafny verify dfyconfig.toml` checks the whole project.

The layers, bottom up:

- `TickTable`, `Band`, `PriceLadder`: the piecewise tick schedule, the daily band and the segmented map from
  valid prices to dense level indices. `Bits`, `LevelBitset`: the occupancy bitmap with word-level search.
  `FlatHashMap`: the open-addressing id index. `OrderPool`, `Fifo`: the slot store and the doubly linked queues
  threaded through it.
- `BookModel`, `QueueView`, `OrderBook`, `Canonical`, `NaiveView`: an order book whose redundant fields (links,
  totals, counts, bitmaps, best indices) stand for one queue of slots per price, its three operations, and
  what those do to the market queue the book stands for.
- `Market`: the specification. Per instrument and side there is one sequence of orders, best price first and
  oldest first at each price; matching, fill-or-kill, submission, cancellation and replacement are short
  functions on it. `MatchTheory`, `MarketInvariant`, `MarketRun`, `MarketLaws`, `RunLaws`, `Ledger`, `Arrival`
  prove what this market promises; the theorems hold for every request and every run. `Outcome`, `Answers` and
  `RunAnswers` say what every call answers and does in the terms of the call, of the queues it finds and of the
  configuration, without the market's own functions: who is accepted or refused and why, who trades how much with
  whom, who rests where, and what is cancelled.
- `EngineModel`, `MatchingRun`, `RequestModel`, `Configuration`, `Engine`, `Session`: the engine class, whose
  methods follow the C++ branch by branch, proved to refine the market. `Session.Play` is the summary: a new
  engine, configured and served any list of requests, holds exactly the market's books and has emitted exactly
  the market's events.

32-bit quantities are 32 bits wide in the engine and unbounded in the market. `Level::total_qty` and the
fill-or-kill accumulator wrap, in the model as in the code; theorems that need sums below 2^32 say so. Prices,
band arithmetic and trade ids are unbounded integers, and theorems show that they fit the source's types.
`State.asked` and the ghost fields of `Engine` are bookkeeping of the proof.

## Model

| member | source | states |
|---|---|---|
| `Session.Play` | src/engine.cpp:23-341 | Whole-run refinement: after construction, a valid configuration and any list of submit, cancel and replace calls, all books and the complete event log equal those of the market model. |
| `Engine.Engine.ServeAll` | src/engine.cpp:144-341 | From any valid state, serving any list of requests moves the market exactly as the model's run does and keeps every representation invariant. |
| `Engine.Engine.Submit` | src/engine.cpp:144-227 | One submission refines the market's: same books, events, trade ids and consumed id. Other books keep every field, a refusal keeps all of them, ids are never remapped and no closed record changes. `Answers.SubmitAnswers` and `Answers.AcceptedDoes` say what that is in the order's own terms. |
| `Engine.Engine.Cancel` | src/engine.cpp:229-249 | One cancel refines the market's, keeps the id index and every closed record, and touches only the order's book. |
| `Engine.Engine.Replace` | src/engine.cpp:251-341 | One replace refines the market's, in the code's order of checks, including the same-id case and the increase that skips matching; other books keep every field, and a refusal keeps all. `Answers.ReplaceAnswers` and the lemmas after it say what that is in the request's own terms. |
| `Engine.Engine.Configure` | src/engine.cpp:23-76 | The result is AlreadyConfigured, InvalidArgument or Ok exactly as the list deserves; a refusal changes nothing, and success opens the empty market of the list if every ladder has fewer than 2^32 levels. |
| `Engine.Engine.TopOfBook` | src/engine.cpp:343-351 | Best bid and offer of the market; bid below ask when both sides have orders; equal to a plain maximum, minimum and sum over all records of the pool, the sums modulo 2^32. |
| `Engine.Engine.RunMatching` | src/engine.cpp:93-125 | The nested loop, which terminates, is one market execution: same fills in the same order, same remaining queue, same trade ids, and the aggressor's quantities move by exactly what traded. `Outcome.MatchTook` says which trades those are. |
| `Engine.Engine.CanFullyFill` | src/engine.cpp:127-142 | The read-only walk over cached level totals decides as the level-by-level walk over the market queue does, 32-bit wrap-around included, and terminates; `Outcome.FokPassesIff` says when that is. |
| `Engine.Engine.FillRecords` | src/engine.cpp:109-117 | A trade takes the next trade id, reports the resting order's price and both ids, and moves the quantity from open to filled on both records without overflow. |
| `Engine.Engine.EnterNew` | src/engine.cpp:172-223 | The checks that follow the consumption of an id - quantity, time in force, tick, band - each refuse as the market does, under the conditions of `Answers.SubmitAnswers`. |
| `Engine.Engine.Settle` | src/engine.cpp:211-223 | What matching left of an order rests or is cancelled as `Answers.AcceptedDoes` and `Answers.OnlyDayRests` state, and nothing else changes. |
| `Engine.Engine.MoveOrder` | src/engine.cpp:302-334 | A committed replace that loses priority: successor registered, old order taken off, event, matching only if the price changed, remainder rested. |
| `Engine.Engine.SubstituteOrder` | src/engine.cpp:302-338 | A committed replace that keeps its place leaves the market's queue with the successor at the same position. |
| `Engine.Engine.ReplaceLive` | src/engine.cpp:263-338 | A replace of a live order cancels it, refuses, or commits, under the conditions of `Answers.ReplaceAnswers`. |
| `Engine.Engine.BuildBooks` | src/engine.cpp:34-51 | A list is accepted exactly when it is non-empty, valid and free of duplicates; the index then maps each instrument to its position. |
| `Session.SubmitThenCancel` | src/engine.cpp:144-249 | Undo at the engine: a Day limit that makes no trade, then its cancel, restores all books in every field - levels, totals, bitmaps, best indices - and every record that existed before. |
| `Session.RestAndLeave` | src/order_book.cpp:62-118 | Undo on one book: an append followed by its unlink restores the whole book and every other record. |
| `Canonical.ViewsAreCanonical` | src/order_book.cpp:62-144 | The redundant state is canonical: equal market queues with the open ids at the same slots force equal levels, links, bitmaps, best indices and open records. |
| `NaiveView.TopIsScan` | src/order_book.cpp:47-60 | The reported bid and ask are the maximum and minimum price over all open records, with the sum of open quantities there modulo 2^32. |
| `NaiveView.LevelIsScan` | src/order_book.cpp:80-85 | Every level's cached total and order count equal those of a scan of the whole pool, and its bit is set exactly when it has orders. |
| `NaiveView.BestIsScan` | include/engine/order_book.hpp:48-53 | A side's cached best index is -1 exactly when no record is open there, and otherwise names the best price of any open record. |
| `NaiveView.ZeroMeansNoOrders` | include/xmatch/matching_engine_api.hpp:163-168 | A reported quantity of zero means an empty side exactly unless the total at the best price is a multiple of 2^32. |
| `NaiveView.RestThenLeave` | src/order_book.cpp:62-118 | On values: append then unlink yields the same book view and the same links of every other record. |
| `Witnesses.WrappedTopReportsNothing` | src/order_book.cpp:49-53 | After two submissions of 2^31 lots at one price the report shows that price with quantity 0. |
| `Witnesses.WrappedTotalKillsFillableOrder` | src/engine.cpp:132-138 | After the same two submissions a fill-or-kill order for one lot is killed although 2^32 lots could fill it. |
| `MatchTheory.MatchConsumes` | src/engine.cpp:99-124 | Trades consume a prefix of the priority queue: all orders but possibly the last completely; matching stops only when the aggressor is filled or the next order is not marketable. |
| `MatchTheory.MaximalExecution` | src/engine.cpp:93-125 | The executed quantity is the smaller of the order's quantity and the marketable open quantity. |
| `MatchTheory.NothingMarketableLeft` | src/engine.cpp:99-102 | Afterwards the aggressor is filled or no remaining order is marketable for it. |
| `MatchTheory.Priority` | src/engine.cpp:99-124 | Trades come in queue order at the resting price, never outside the limit, monotonically away from the aggressor, all but the last filling their order. |
| `MatchTheory.FokWalkIs` | src/engine.cpp:132-141 | The feasibility walk says yes exactly when, at some level boundary of the marketable prefix, the running sum modulo 2^32 reaches the needed quantity. |
| `MatchTheory.FokFills` | src/engine.cpp:201-209 | When the walk says yes the order fills completely, even if sums wrapped. |
| `MatchTheory.FokDecision` | src/engine.cpp:127-142 | The decision is the ideal one exactly when liquidity lacks or some boundary's wrapped sum suffices, hence always below 2^32. |
| `MarketLaws.FokAllOrNothing` | src/engine.cpp:201-222 | An accepted fill-or-kill order is either filled with no cancel event or killed with no trade; below 2^32 it is killed exactly when liquidity lacks. |
| `MarketRun.NeverCrossed` | src/engine.cpp:324-331 | After any run the best bid is below the best ask. |
| `MarketRun.SubmitKeeps` | src/engine.cpp:144-227 | A submission keeps queues sorted, ids unique, quantities accounted for, prices valid and books uncrossed. |
| `MarketRun.CancelKeeps` | src/engine.cpp:229-249 | So does a cancel. |
| `MarketRun.ReplaceKeeps` | src/engine.cpp:251-341 | So does a replace. |
| `MarketInvariant.ExecuteKeeps` | src/engine.cpp:93-125 | Matching keeps the book in order, leaves the aggressor's own side alone and leaves nothing that still crosses an unfilled limit. |
| `MarketInvariant.RestKeeps` | src/order_book.cpp:62-92 | Resting an order that does not cross keeps the book in order and uncrossed. |
| `MarketInvariant.SubstituteKeeps` | src/order_book.cpp:120-144 | Substituting an order at its own price keeps the book in order and uncrossed. |
| `MarketLaws.ReplaceIsCancelThenEnter` | src/engine.cpp:321-334 | A replace that loses priority leaves the queues and trades that a cancel followed by entering a Day limit for the open quantity leaves, up to the carried fills. |
| `MarketLaws.ReplaceIsCancelThenSubmit` | src/engine.cpp:302-334 | Under a new id that is literally a cancel request followed by a submission. |
| `MarketLaws.InPlaceMovesNobody` | src/order_book.cpp:120-144 | A replace that keeps its place changes one queue entry, no other order's position, no other book, and makes no trade. |
| `MarketLaws.RefusedChangesNothing` | src/engine.cpp:258-300 | A refused call logs one event and changes no book, trade id or requested total; at most it consumes a submission's id. |
| `MarketLaws.CommitNotRefused` | src/engine.cpp:302-338 | A replace that passed validation is never reported as rejected. |
| `MarketLaws.RestThenCancel` | src/engine.cpp:209-246 | A Day limit that rests without trading, then its cancel, restores every queue and leaves exactly two events. |
| `MarketLaws.OnlyTargetChanges` | src/engine.cpp:78-86 | A request changes no book but the one it names. |
| `Outcome.MarketCrossesAll` | src/engine.cpp:99-102 | Every resting price, whatever it is, is good enough for a market order. |
| `Outcome.MarketTakesAll` | src/engine.cpp:93-125 | A market order executes the smaller of its quantity and all the other side has open; if anything is left of it the other side is empty. |
| `Outcome.MarketFok` | src/engine.cpp:127-142 | Below 2^32 a market fill-or-kill order passes exactly when the other side has enough open. |
| `Outcome.LimitRespected` | src/engine.cpp:88-102 | A limit buy trades at prices at most its limit and, unfilled, leaves only higher ones; a sell the other way round. |
| `Outcome.MatchTook` | src/engine.cpp:99-124 | The executed quantity is the smaller of the order's and what the whole queue offers at prices the order takes; the trades name the front orders in turn, each for all it has open except perhaps the last, with ids, prices and side; the rest of the queue is as it was. |
| `Outcome.FokPassesIff` | src/engine.cpp:132-141 | The feasibility walk says yes exactly when, for some resting price the order takes, all that is offered up to that price, modulo 2^32, reaches the needed quantity. |
| `Outcome.SufficesBelowWrap` | include/xmatch/matching_engine_api.hpp:75 | While less than 2^32 is offered, that is whether enough is offered. |
| `Outcome.InsertJoins` | src/order_book.cpp:62-92 | A resting order stands behind every order priced at least as well and ahead of every other. |
| `Answers.SubmitAnswers` | src/engine.cpp:144-199 | A submission is accepted exactly when the engine is configured, the instrument known, the id unused, the quantity positive, the order not a market Day order, and a limit price on its tick and in the band; each refusal has its exact condition, the first failing check. |
| `Answers.SubmitConsumes` | src/engine.cpp:156-170 | A submission uses its id up exactly when it names a known instrument and an unused id, accepted or not. |
| `Answers.AcceptedDoes` | src/engine.cpp:197-223 | All an accepted submission does: Accepted, its trades, and for a remainder that does not stay one cancellation of exactly that quantity - FokUnfillable, NoLiquidity or IocRemainder; a Day remainder joins its own side at its limit, otherwise that side is as it was. |
| `Answers.OnlyDayRests` | src/engine.cpp:211-223 | An accepted order rests afterwards exactly when it is a Day order with something left. |
| `Answers.CancelAnswers` | src/engine.cpp:229-246 | A cancel is refused as NotConfigured exactly before configuration, as UnknownOrder exactly when the id rests nowhere, and is carried out otherwise. |
| `Answers.CancelDoes` | src/engine.cpp:241-246 | A cancel reports all its order has open as UserRequested, takes exactly that order off its queue, and frees no id. |
| `Answers.ReplaceAnswersUnknown` | src/engine.cpp:251-262 | A replace before configuration, or of an id that rests nowhere, is refused for that reason and changes no book and no used id. |
| `Answers.ReplaceAnswers` | src/engine.cpp:263-300 | Of a resting order: cancelled exactly when the new quantity is at most the filled one, refused for the first failing check - used id, tick, band - and Replaced with the quantity still open exactly when all pass. |
| `Answers.ReplaceDownDoes` | src/engine.cpp:271-279 | Replacing down to the fills logs exactly one cancellation of the open quantity and takes exactly that order off; the new id stays free. |
| `Answers.ReplaceInPlaceDoes` | src/engine.cpp:317-338 | At its own price and with no more open the successor stands exactly where the order stood, with its fills; one event, no trade. |
| `Answers.ReplaceMovesDoes` | src/engine.cpp:317-334 | With another price or more open the order is taken off, Replaced is logged, and the successor trades what is offered up to the new price and joins its side with the rest, with the fills carried over. |
| `Answers.SamePriceTradesNothing` | src/engine.cpp:324-331 | At a resting order's own price the other side offers nothing, so a pure quantity increase makes no trade. |
| `RunAnswers.OpeningServes` | src/engine.cpp:38-66 | After configuration the market knows exactly the configured instruments, each with an empty book whose valid prices are those within its basis points of its reference price. |
| `RunAnswers.RunServes` | src/engine.cpp:78-86 | No request changes which instruments there are, or their bands. |
| `RunAnswers.UsedIds` | src/engine.cpp:156-170 | After any run the used ids are exactly those submitted to a configured instrument, accepted or not, and those the event log introduces. |
| `RunAnswers.SessionAccepts` | src/engine.cpp:144-199 | After any configuration and any requests a submission is accepted exactly when it passes a configured instrument's checks, with the band in basis points, and its id was never used. |
| `RequestModel.NoMatchNeeded` | src/engine.cpp:324-331 | Where the code skips matching - a replace that only raises the quantity - running it would have been a no-op. |
| `RequestModel.OpenIff` | src/engine.cpp:236-240 | An id is live in the engine - indexed, and its record open - exactly when the market has an open order of that id. |
| `RequestModel.InPlaceStep` | src/engine.cpp:302-337 | Registering the successor first, even under the same id, and then splicing it in substitutes the order at its own position and leaves every open record indexed. |
| `RequestModel.LosingStep` | src/engine.cpp:302-322 | Registering the successor before unlinking the old record comes to the same as unlinking first. |
| `RunLaws.TradesBounded` | src/engine.cpp:110-112 | After configuration, any run has trade ids 1, 2, 3, ... without a gap, at most as many trades as requests, and every id accepted or given to a replacement at most once. |
| `RunLaws.StepTells` | include/xmatch/matching_engine_api.hpp:170-176 | A request tells at most one opening event, then its trades in order, then at most one cancellation; only the opening event introduces an id, and only a fresh one. |
| `RunLaws.IdsAcceptedOnce` | src/engine.cpp:156-170 | Over any run no id is introduced twice. |
| `RunLaws.RunAffords` | src/engine.cpp:105-123 | Trades and resting orders together grow by at most one per request. |
| `Ledger.OrdersAreConserved` | src/engine.cpp:109-118 | Conservation over any run: the quantity last asked for equals what the lineage's trade events sum to, plus what was given up, plus what is open; a live order's filled quantity is that sum. |
| `Ledger.ExecuteBalances` | src/engine.cpp:105-118 | Every trade of an execution moves the same quantity on both parties' accounts, and accounts balance against the log throughout. |
| `Arrival.EarlierArrivalGoesFirst` | include/xmatch/matching_engine_api.hpp:236-238 | Time priority over any run: of two resting orders at one price the one ahead owes its place to an earlier acceptance or priority-losing replace event; one that keeps its place inherits. |
| `BookModel.RestKeepsRep` | src/order_book.cpp:62-92 | An append keeps lists acyclic and complete, totals and counts right, bits set exactly on non-empty levels and best indices best. |
| `BookModel.UnlinkKeepsRep` | src/order_book.cpp:94-118 | So does an unlink from anywhere in a queue. |
| `BookModel.SpliceKeepsRep` | src/order_book.cpp:120-144 | So does handing a queue position to another record. |
| `BookModel.FillKeepsRep` | src/engine.cpp:114-118 | So does a fill against a resting order. |
| `BookModel.SideCanonical` | include/engine/order_book.hpp:16-21 | Queues and quantities determine heads, tails, totals, counts, bitmap, best index and every link. |
| `BookModel.BookFrame` | src/order_book.cpp:94-118 | A book whose records did not change still stands, whatever happens elsewhere in the shared pool. |
| `BookModel.BestAfterRemove` | src/order_book.cpp:112-116 | When the best level empties, the nearest occupied index beyond it is the new best. |
| `QueueView.RestOrders` | src/order_book.cpp:72-82 | An append inserts the order behind every order of the same or a better price of the market queue. |
| `QueueView.UnlinkOrders` | src/order_book.cpp:99-107 | An unlink removes exactly that order from the market queue. |
| `QueueView.SpliceOrders` | src/order_book.cpp:127-143 | A splice substitutes exactly one order at its position. |
| `QueueView.FillOrders` | src/engine.cpp:114-118 | A fill changes exactly one order's quantities. |
| `QueueView.LevelHead` | include/engine/order_book.hpp:16-21 | An occupied level heads what follows of the market queue, and its cached total is that price's sum modulo 2^32. |
| `QueueView.NextLevel` | include/engine/order_book.hpp:58-65 | What follows a level in the market queue starts at the next occupied index. |
| `OrderBook.OrderBook.AddResting` | src/order_book.cpp:62-92 | Links, level, bitmap and best index move exactly as the book model's append, and the book stays valid. |
| `OrderBook.OrderBook.RemoveResting` | src/order_book.cpp:94-118 | Exactly the model's unlink, with the best index relocated, and the book stays valid. |
| `OrderBook.OrderBook.ReplaceInPlace` | src/order_book.cpp:120-144 | Exactly the model's splice, and the book stays valid. |
| `OrderBook.OrderBook.TopOfBook` | src/order_book.cpp:47-60 | The report equals the market's top of the queues the book stands for. |
| `OrderBook.OrderBook.Configure` | src/order_book.cpp:13-45 | The ladder holds exactly the valid prices that are within the configured basis points of the reference price, and the book starts empty. |
| `OrderBook.OrderBook.NextIndex` | include/engine/order_book.hpp:62-65 | The nearest occupied index past a level in priority order, -1 when there is none. |
| `Fifo.AppendChain` | src/order_book.cpp:73-80 | Linking behind the tail spells out the queue with the slot appended, forward and backward. |
| `Fifo.UnlinkChain` | src/order_book.cpp:100-107 | Rewiring the neighbours spells out the queue without the slot. |
| `Fifo.SpliceChain` | src/order_book.cpp:131-143 | Giving one record's links to another spells out the queue with the slot substituted. |
| `OrderPool.OrderPool.Allocate` | include/engine/order_pool.hpp:74-82 | A fresh default record at the next index; earlier records stay where they are. |
| `Band.BandFits` | src/order_book.cpp:20-27 | For every configuration that passes validation the band arithmetic fits 64 bits, the half-width is the basis points of the reference price rounded down, both ends are valid prices, lo <= reference <= hi, and the band holds exactly the valid prices of the raw range. |
| `Band.BandWidth` | src/order_book.cpp:20-26 | A valid price p is in the band exactly when (ref - p) * 10000 <= ref * bps and (p - ref) * 10000 <= ref * bps. |
| `Band.BandLevels` | src/order_book.cpp:20-27 | The levels of a configured book are exactly the valid prices within that distance. |
| `Band.ValidConfigMeans` | src/engine.cpp:40-45 | A configuration is accepted exactly when its reference price is on its tick and at most 922337203685477 and the band is at most 10000 basis points. |
| `Band.WideBandOverflowsLadder` | src/price_ladder.cpp:28-30 | A valid configuration whose band has 2^32 or more valid prices. |
| `TickTable.DeployedScheduleIsSound` | include/engine/tick_table.hpp:34-39 | The deployed schedule is ascending, open-ended, and aligned on both sides of every edge. |
| `TickTable.TicksAsDocumented` | include/engine/tick_table.hpp:19-22 | At every price the schedule's tick is the documented one - 100, 200 from 200000, 500 from 500000, 1000 from 1000000 - and a price is valid exactly when it is a positive multiple of it. |
| `TickTable.SpotChecks` | src/tick_table.cpp:42-59 | The compile-time spot checks of tick sizes, alignment and rounding hold. |
| `TickTable.CeilIsLeast` | include/engine/tick_table.hpp:62-67 | Rounding up gives the least valid price at or above any price, also when it lands on an edge. |
| `TickTable.CeilIsLeastIff` | src/tick_table.cpp:25-40 | For any schedule that passes the compile-time checks, rounding up is right for every price exactly when each bracket's end is a multiple of its own tick, or one above a positive multiple. |
| `TickTable.AssertedEdgesDoNotSuffice` | src/tick_table.cpp:28-40 | A schedule that passes the checks and rounds 210 up past the valid price 250 to the invalid 300. |
| `TickTable.FloorIsGreatest` | include/engine/tick_table.hpp:70-75 | Rounding down gives the greatest valid price at or below, 0 when there is none, for any schedule that passes the checks. |
| `TickTable.NextPrice` | src/price_ladder.cpp:19-32 | From a valid price the next valid one is one tick up, across edges too. |
| `PriceLadder.PriceLadder.Build` | src/price_ladder.cpp:10-38 | Terminates with at most one segment per bracket; the ladder is the list of valid prices of the band, and it round-trips exactly when that list is shorter than 2^32. |
| `PriceLadder.PriceLadder.PriceToIndex` | src/price_ladder.cpp:40-50 | -1 exactly for prices that are not levels, otherwise the index of the level. |
| `PriceLadder.PriceLadder.IndexToPrice` | src/price_ladder.cpp:52-59 | The price of the level, 0 past the last one. |
| `PriceLadder.RoundTripsIffFewLevels` | src/price_ladder.cpp:40-59 | Every price of the band maps to an index that maps back exactly when there are fewer than 2^32 levels. |
| `LevelBitset.LevelBitset.FindHighestLe` | include/engine/level_bitset.hpp:34-46 | The greatest member at or below start, -1 exactly when there is none. |
| `LevelBitset.LevelBitset.FindLowestGe` | include/engine/level_bitset.hpp:49-63 | The least member at or above start, -1 exactly when there is none, also for a start past the last word. |
| `LevelBitset.LevelBitset.Set` | include/engine/level_bitset.hpp:29 | The word update adds exactly that member. |
| `LevelBitset.LevelBitset.Clear` | include/engine/level_bitset.hpp:30 | The word update removes exactly that member. |
| `LevelBitset.LevelBitset.Test` | include/engine/level_bitset.hpp:31 | Reads membership. |
| `FlatHashMap.FlatHashMap.FindSlot` | include/engine/flat_hash_map.hpp:39-47 | For any mixing function the probe loop terminates; it finds the key's slot if the key is stored and nothing if it is not. |
| `FlatHashMap.FlatHashMap.Find` | include/engine/flat_hash_map.hpp:39-51 | The value last stored for the key, or none. |
| `FlatHashMap.FlatHashMap.Insert` | include/engine/flat_hash_map.hpp:66-71 | Adds one entry to the map, growing first if the load would pass 0.7. |
| `FlatHashMap.FlatHashMap.AssignExisting` | include/engine/flat_hash_map.hpp:58-62 | Changes one entry in place without a rehash. |
| `FlatHashMap.FlatHashMap.Rehash` | include/engine/flat_hash_map.hpp:104-124 | Re-places every entry: same contents, new capacity. |
| `FlatHashMap.FlatHashMap.Reserve` | include/engine/flat_hash_map.hpp:33-36 | Grow-only: same contents, room for n entries within the load factor. |
| `FlatHashMap.CapacityForIs` | include/engine/flat_hash_map.hpp:84-92 | The computed capacity holds n entries within the load factor and no smaller power of two does. |
| `Configuration.OpeningStands` | src/engine.cpp:53-66 | The freshly configured state satisfies every invariant and stands for the market with empty books. |

## Findings

What the code and its documentation promise and the code does not always do; each row names the input and the
exact condition.

| promise | input that fails it | exact condition |
|---|---|---|
| A fill-or-kill order that could fill is filled (include/xmatch/matching_engine_api.hpp:75). | `Witnesses.WrappedTotalKillsFillableOrder` | `MatchTheory.FokDecision`: some level boundary's running sum modulo 2^32 suffices, or liquidity lacks; always below 2^32. `Outcome.FokPassesIff` names the boundary by its price. |
| A quantity of zero in the report means no orders (include/xmatch/matching_engine_api.hpp:165-167). | `Witnesses.WrappedTopReportsNothing` | `NaiveView.ZeroMeansNoOrders`: the total at the best price is not a multiple of 2^32. |
| Every price of an accepted band has an index of its own (src/price_ladder.cpp:40-59). | `Band.WideBandOverflowsLadder` | `PriceLadder.RoundTripsIffFewLevels`: fewer than 2^32 levels. |
| The compile-time checks protect a changed tick table (src/tick_table.cpp:3-7). | `TickTable.AssertedEdgesDoNotSuffice` | `TickTable.CeilIsLeastIff`: each bracket's end fits its own tick. The deployed table does. |

Where comments and code differ the model follows the code: an unlinked or spliced-out record keeps its
`open_qty`, unlike the comment at include/engine/order_pool.hpp:23; `replace` checks for an unknown order before
a duplicate new id, unlike the order announced at include/xmatch/matching_engine_api.hpp:78-79; and it accepts the
order's own id as `new_order_id`, unlike include/xmatch/matching_engine_api.hpp:144.

## Left out

- Exceptions, allocation failure and the results kOutOfMemory and kInternalError: allocation succeeds.
- Listeners that throw or call back into the engine: events go to an append-only log.
- The C entry points, symbol visibility and the API version query: no behaviour of the engine.
- Engine.Engine.Configure: promises a valid engine only when every band has fewer than 2^32 valid prices, the exact bound for a ladder that round-trips; a null instrument array is the empty list.
- Engine.Engine.Submit: requires fewer than 2^32 - 1 slots in use, as `Engine.Engine.Replace` does; past that the pool's indices would repeat.
- Session.Play: bounds the run by 2^32 - 1 requests for the same reason.
- RunLaws.TradesBounded: trade ids are unbounded numbers, shown to be at most the number of requests instead of being stored in 64 bits.
- Arrival.EarlierArrivalGoesFirst: a `Replaced` event does not say whether the order kept its place, so which events give a place is read off the requests together with the log.
- FlatHashMap.CapacityForIs: the 0.7 load factor is the integer comparison 10 n <= 7 capacity, not floating point; the mixing function is arbitrary.
- OrderPool.OrderPool.Allocate: chunks, their memory layout and pre-reservation are not modelled; the pool is one growing sequence.
- Engine.Engine.RunMatching: the inner loop over one level is a method of its own, `TradeLevel`; vectors and links are sequences of records updated in place, so references into them are slot indices.
- Sizes, alignment, move guarantees, latency and memory figures, and the benchmark driver.
