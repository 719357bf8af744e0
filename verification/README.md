# A verified model of the matching engine

The matching engine keeps a limit order book for one instrument. It is built from four mutable structures stacked on each
other: price levels (intrusive doubly linked FIFOs with a cached volume and order count), two ladders (dense arrays of
levels with a cached best price), a slab allocator whose free list overlays the memory of dead orders, and the book itself
(an id map, the two ladders and the allocator) with its matching loops, cancellation, modification, session end and the
replay operations. Beside it stands a replay path that reads Nasdaq TotalView-ITCH 5.0 messages from a stream and rebuilds
the visible book of one symbol.

This project models both in Dafny and proves what the engine is for.

**The book.** Every public operation of the class `OrderBook` is proved to do exactly what a function on an abstract
book does. The abstract book (`BookSpec.Book`) is, per side, one sequence of resting orders in price-time order. The
class keeps the fields of the original, and `Valid` is its representation invariant: the id map is a bijection with the
live blocks, every live block is linked into exactly one level of the ladder of its side, the links and the back-pointer
`level` agree, cached counts and volumes are those of the linked orders, the free list threads exactly the other blocks,
and the cached best price is the best non-empty level. About the abstract functions the project then proves what the
engine promises: price-time priority, execution by execution and also over whole runs, all-or-nothing FOK, an uncrossed
book, conservation of shares, session reports, a pool no larger than the orders demand, atomic modify and replace, and
how the kinds of orders relate to each other.

**The replay.** The parser's loop over a stream with its end-of-file flags is proved to dispatch what `ParseStream` says,
for any bytes at all. `ParseStream` is proved inverse to the wire form of a list of frames, and any input is shown to be, in
one way only, a list of frames and a broken tail. The engine is proved to apply exactly the followed symbol's order
messages, to count each once, and to leave a book that is a plain map from order ids to visible orders.

Modules, bottom up:

- `Types`, `PriceTime`, `QueueLemmas`, `Places`: machine widths, requests and results; queues in price-time order and the sweep through them.
- `MemoryPool`, `PoolRuns`, `Chains`, `Retirement`, `Pruning`, `PriceLevel`: the allocator and the intrusive lists that share its memory.
- `LadderView`, `LadderScans`, `TopLevels`, `LiquidityScan`, `Registry`, `SessionPruning`, `PriceLadder`: a dense ladder read as one queue.
- `BookSpec`, `BookLemmas`, `Matching`, `OrderBook`, `Census`: the abstract book and the class that refines it.
- `SweepTheorems`, `BookInvariants`, `Requests`, `RunSizes`, `Runs`, `PoolDemand`, `TimePriority`, `FillOrKill`, `OrderKinds`, `SessionTheorems`, `Executions`, `Ledger`: what holds of the book and of runs of requests.
- `ReplayTheorems`, `ReplayRuns`: replayed changes as updates of a map.
- `ItchWire`, `ItchRoundTrip`, `ItchLayout`, `ItchStream`, `ItchDecoders`, `ItchFraming`, `ItchAnyInput`, `ItchReplayEngine`, `ItchParser`, `ReplayReport`, `EngineSteps`, `ShareCounts`: the replay path.

Machine integers are written out, and the class is modelled for every signed 32-bit quantity, negative ones included. A
level's volume, the total of the liquidity scan and the session's share total are unsigned 64-bit numbers that wrap, a
level's pruned total is a signed 32-bit one, order counts and the session's count of emptied levels are unsigned 32-bit
ones, and replayed shares are converted from 32 unsigned to 32 signed bits. Where a wrap cannot happen, that is proved;
where it can, the exact condition is: `SharesBound`, `ScanEnoughExactlyWhen` and `LiquidIsMarketable` for volumes and the
scan, `MatchFitsExactlyWhen` for what remains while matching, `SessionReportIsExactWhenLevelsFit` for the session report,
and for the conversion of shares `TakesSharesExactlyWhenSigned` and `RestsSoundlyExactlyWhenSigned`.

Two promises of the engine are false of some quantities that it accepts. A fill-or-kill order is asserted to leave nothing
remaining once the liquidity scan has passed; over a negative maker it may leave shares (`NegativeMakerFoolsTheScan`), and
`AllOrNothingExactlyWhen` and `AssertionFailsExactlyWhen` say exactly when. The other assertion on a fill-or-kill order,
before the scan, is that its quantity is positive. The class is modelled as it runs with these two compiled out, so its
results do not depend on them. And a request may cross the book: `ApplyCrossesExactlyWhen` says exactly which, for every
kind of request.

Conditions on requests are kept apart. `Requests.Fits` is what the engine itself relies on: no signed overflow while
matching or reducing, and fewer than 2^32 orders at one level. `Sensible`, `Matches` and `Ordinary` are properties of
the request alone. Any request keeps price-time order, unique ids and the price band. Sensible requests, whose
quantities may rest, keep quantities positive besides. Requests that match before they rest, which excludes replayed
adds and replacements and GTC and DAY orders with a negative quantity, never cross the book. Fewer than 2^32 ordinary
requests, which neither rest nor take off a negative quantity, always fit. `RestingKeepsSoundExactlyWhenNonNegative`,
`ReplayAddKeepsSoundExactlyWhenPositive` and `ReplayReplaceKeepsSoundExactlyWhenPositive` show that the sign conditions
are exactly what is needed. Besides, the initial pool has at least one block and the lowest price is not above the
highest.

To check the project, run `dafny verify dfyconfig.toml` with Dafny 4.11.

## Model

| member | source | states |
|---|---|---|
| MemoryPool.MemoryPool.constructor | src/core/MemoryPool.cpp:14-19 | A new pool has one slab of the given size, all of it free and on the free list. |
| MemoryPool.MemoryPool.AllocateSlab | src/core/MemoryPool.hpp:68-80 | Memory grows by a slab whose blocks are linked in address order, the last to null; nothing else changes. |
| MemoryPool.MemoryPool.Grow | src/core/MemoryPool.hpp:51-58 | Growth happens only when every block is live; it doubles the pool by free blocks and keeps all live ones. |
| MemoryPool.MemoryPool.Allocate | src/core/MemoryPool.hpp:50-66 | The order is placed in a block that was not live; every other block keeps its content; the counter goes up by one. |
| MemoryPool.MemoryPool.Deallocate | src/core/MemoryPool.cpp:27-38 | The block becomes the head of the free list, overwritten by the old head; the pool stays valid and its counter goes down by one. |
| MemoryPool.FreeAndLivePartition | src/core/MemoryPool.hpp:45-48 | Free list and live blocks split all blocks of all slabs, and the free list, which has no repetition, is as long as there are free blocks. |
| MemoryPool.CapacityIsPower | src/core/MemoryPool.hpp:57 | After n growths the pool has initial times 2^n blocks. |
| PoolRuns.RunSteps | src/core/MemoryPool.hpp:50-66 | Over any run of allocations and deallocations no held block is handed out again, the held blocks are exactly the live ones, and the pool is the smallest doubling that holds the peak. |
| PriceLevel.PriceLevel.PushBack | src/core/PriceLevel.cpp:14-28 | Appending to the linked list appends to the level's sequence of orders, whatever the order's quantity; the volume stays the sum in unsigned 64 bits and the count the length; only this level's blocks change. |
| PriceLevel.PriceLevel.PopFront | src/core/PriceLevel.cpp:30-53 | Removes and returns the oldest order, unlinked; null exactly when the level is empty. |
| PriceLevel.PriceLevel.RemoveOrder | src/core/PriceLevel.cpp:55-83 | Removes an order from any position through its links, keeps the others in order, and answers whether the level is empty. |
| PriceLevel.PriceLevel.TakeSharesFromFirst | src/core/PriceLevel.cpp:85-88 | Only the quantity of the oldest order changes, by the shares taken; the volume follows, positions stay. |
| PriceLevel.PriceLevel.ReduceOrderQuantity | src/core/PriceLevel.cpp:90-97 | Only the quantity of the given order changes, by the reduction, which may be negative; the volume follows, positions stay. |
| PriceLevel.PriceLevel.PruneDayOrders | src/core/PriceLevel.hpp:48-69 | The walk leaves exactly the GTC orders, in order, and frees exactly the DAY orders' blocks; each block it reads is live although the callback frees behind it; the tally is the DAY orders' count and 32-bit share total. |
| Chains.Appended | src/core/PriceLevel.cpp:14-28 | The pointer writes of an append make a chain of the longer sequence, disturb neither free list nor other levels' blocks, and add exactly the order's shares. |
| Chains.Unlinked | src/core/PriceLevel.cpp:60-80 | The pointer writes of a removal at any position leave a chain of the sequence without that element and take off exactly its shares. |
| QueueLemmas.SharesBound | src/core/PriceLevel.cpp:26-27 | Fewer than 2^32 orders of 32-bit quantities have fewer than 2^63 shares either way, so a level's volume is unwrapped if and only if its shares are not negative. |
| PriceLadder.PriceLadder.constructor | src/core/PriceLadder.cpp:17-28 | One empty level for every price of the band, no best price. |
| PriceLadder.PriceLadder.UpdateBestPriceFromGiven | src/core/PriceLadder.cpp:98-128 | The scan ends at the first non-empty level at or behind its start, or at null when there is none. |
| PriceLadder.PriceLadder.RefreshBestPrice | src/core/PriceLadder.cpp:98-128 | Started where no better level is occupied, the one-directional rescan leaves the cached best price at the best level of the whole ladder. |
| PriceLadder.PriceLadder.HasSufficientMarketableLiquidity | src/core/PriceLadder.cpp:130-181 | True if and only if the wrapping total over the occupied prices of the crossing orders, best first, reaches the requirement read as unsigned; where quantities are positive, if and only if the crossing orders together have the shares. |
| PriceLadder.PriceLadder.ScanBids | src/core/PriceLadder.cpp:150-167 | Walking down from the best bid to the threshold decides whether the wrapping total over the occupied levels of that range reaches the requirement. |
| PriceLadder.PriceLadder.ScanAsks | src/core/PriceLadder.cpp:168-178 | The same for asks, walking up. |
| LadderScans.CrossingBidsFromBest | src/core/PriceLadder.cpp:145-167 | The levels from the cached best bid down to the threshold hold exactly the orders a seller can trade with. |
| LadderScans.CrossingAsksFromBest | src/core/PriceLadder.cpp:145-178 | The levels from the cached best ask up to the threshold hold exactly the orders a buyer can trade with. |
| LiquidityScan.ScanEnoughExactlyWhen | src/core/PriceLadder.cpp:148-178 | Whatever the quantities, the scan over a sorted queue finds enough if and only if the best levels, for some number of them, have a sum that reads as enough in 64 unsigned bits. |
| LiquidityScan.LooksLiquidExactlyWhen | src/core/PriceLadder.cpp:130-181 | The same of the crossing orders of a sorted queue. |
| LiquidityScan.ScanAddsUp | src/core/PriceLadder.cpp:148-178 | Over positive 32-bit quantities the running total never wraps, however many levels there are, because the scan stops once it suffices. |
| LiquidityScan.LiquidIsMarketable | src/core/PriceLadder.cpp:130-181 | The scan says there is enough if and only if the crossing orders, wherever they stand in the queue, have at least the required shares. |
| PriceLadder.PriceLadder.GetNumNonEmptyLevels | src/core/PriceLadder.cpp:40-50 | Counts the occupied levels. |
| PriceLadder.PriceLadder.GetTopLevels | src/core/PriceLadder.cpp:52-90 | The first `depth` occupied levels, best first, with their volumes; starting at the cached best price skips none. |
| TopLevels.SummaryIsOccupied | src/core/PriceLadder.cpp:52-90 | Listing the ladder level by level lists each price of its price-time queue once, with the volume of the orders the queue has there. |
| TopLevels.OccupiedEntries | src/core/PriceLadder.cpp:65-67 | A price with a volume is listed if and only if the queue has orders at it and the volume is the sum of theirs in unsigned 64 bits. |
| TopLevels.OccupiedBestFirst | src/core/PriceLadder.cpp:61-87 | The list is strictly best price first. |
| PriceLadder.PriceLadder.PruneDayOrders | src/core/PriceLadder.hpp:42-67 | Every level keeps exactly its GTC orders, the report adds up the levels' tallies in the widths of its fields, the ids of the pruned orders are forgotten, and the cached best price is right again. |
| Retirement.RetireOrder | src/Orderbook.cpp:221-224 | Forgets exactly the order's id and frees exactly its block. |
| OrderBook.OrderBook.constructor | src/Orderbook.cpp:31-46 | A new book is valid and empty. |
| OrderBook.OrderBook.FrontOfBook | src/Orderbook.cpp:410-417 | The cached best price is the price of the first order of the queue, and the head of its level is that order. |
| OrderBook.OrderBook.TakeFromFront | src/Orderbook.cpp:419-426 | A partial fill changes nothing but the quantity of the first maker in the queue. |
| OrderBook.OrderBook.ClearFront | src/Orderbook.cpp:428-441 | A full fill removes exactly the first maker: id, links, block and, if its level is now empty, the cached best price. |
| OrderBook.OrderBook.RestOrder | src/Orderbook.cpp:452-471 | A resting order enters the queue behind everything at its own or a better price. |
| OrderBook.OrderBook.SubmitLimitOrderResting | src/Orderbook.cpp:400-480 | The loop computes the abstract sweep and rests the remainder, a negative one included; the reported result is the abstract one. |
| OrderBook.OrderBook.SubmitLimitOrderIoc | src/Orderbook.cpp:482-538 | The loop computes the abstract sweep and drops the remainder. |
| OrderBook.OrderBook.SubmitLimitOrderFok | src/Orderbook.cpp:540-599 | Killed with the book unchanged when the scan finds too little; otherwise the loop computes the abstract sweep, and everything is filled, as is asserted behind the loop, if and only if the quantity is not negative and the first crossing makers, however many, have the shares. |
| OrderBook.OrderBook.SubmitLimitOrder | src/Orderbook.cpp:226-259 | Rejects a known id or a price outside the band, and otherwise does what the time in force says. |
| OrderBook.OrderBook.SubmitMarketOrder | src/Orderbook.cpp:261-323 | The loop computes the abstract sweep without a limit. |
| OrderBook.OrderBook.CancelOrder | src/Orderbook.cpp:325-356 | Exactly the order with this id leaves, its open quantity is reported, and the cached best price is kept right. |
| OrderBook.OrderBook.ModifyOrder | src/Orderbook.cpp:358-398 | Does what the abstract cancel-then-resubmit does, results included. |
| OrderBook.OrderBook.OnSessionEnd | src/Orderbook.cpp:601-615 | Both sides keep exactly their GTC orders, in order, and the report is that of the levels of both sides. |
| OrderBook.OrderBook.ReplayAddVisibleOrder | src/Orderbook.cpp:108-134 | Refused for no shares, a known id or a price outside the band; otherwise the order rests without matching, whatever the sign of its quantity. |
| OrderBook.OrderBook.ReplayReduceVisibleOrder | src/Orderbook.cpp:136-165 | Takes shares off an order in place, deletes it when none are left, enlarges it for a negative reduction, and refuses zero, unknown ids and too much. |
| OrderBook.OrderBook.ReplayDeleteVisibleOrder | src/Orderbook.cpp:167-171 | Removes the order and answers whether there was one. |
| OrderBook.OrderBook.ReplayReplaceVisibleOrder | src/Orderbook.cpp:173-195 | Does what the abstract replacement does, answer included. |
| OrderBook.OrderBook.GetTopLevels | src/Orderbook.cpp:92-98 | The first `depth` occupied prices of a side's queue with their volumes. |
| OrderBook.OrderBook.GetNumLevels | src/Orderbook.cpp:52-58 | The number of prices a side's queue has. |
| OrderBook.OrderBook.GetBestPrice | src/Orderbook.cpp:84-90 | The price of the first order of a side's queue, if there is one. |
| OrderBook.OrderBook.LevelAt | src/Orderbook.cpp:68-106 | Order count, share count and existence of a level are those of the side's orders at that price. |
| OrderBook.OrderBook.AbsIsOrdered | src/Orderbook.cpp:31-46 | Every valid book is seen as two queues in price-time order, with unique ids and prices in the band, whatever quantities rest in it. |
| OrderBook.OrderBook.AbsIsBounded | include/lob/Aliases.hpp:7-10 | Every valid book has 32-bit quantities and fewer than 2^32 orders at a price. |
| Census.CountsAgree | src/Orderbook.cpp:50-66 | Allocated blocks, live blocks, the id map, both queues and the levels' cached counts are the same number. |
| Census.PoolCounts | src/core/MemoryPool.hpp:26-30 | The allocation counter is the number of live blocks, and the pool's size is its first size times 2^(slabs - 1). |
| Matching.SweepTradesAllItCan | src/Orderbook.cpp:409-445 | The sweep executes the smaller of what is wanted and what crosses. |
| Matching.SweepFillsExactlyWhen | src/Orderbook.cpp:548-594 | Whatever the quantities, a sweep leaves nothing remaining if and only if what is wanted is not negative and the first crossing makers, for some number of them, have the wanted shares. |
| Matching.EnoughIsFilled | src/Orderbook.cpp:548-594 | When at least the wanted shares cross, the sweep leaves none wanting. |
| Matching.SweepConserves | src/Orderbook.cpp:419-433 | Executed plus remaining is what was wanted, whatever the makers' quantities. |
| Matching.MatchFitsExactlyWhen | src/Orderbook.cpp:433 | What remains never leaves the signed 32-bit range if and only if no sum of first crossing makers, up to those that have the shares, takes it there. |
| Matching.PositiveMatchFits | src/Orderbook.cpp:433 | With positive makers what remains never leaves the signed 32-bit range. |
| SweepTheorems.SweepIsFair | src/Orderbook.cpp:409-445 | The executions are a prefix of the crossing makers in price-time order, all but the last taken whole, the rest of the queue untouched, and as much traded as can be. |
| SweepTheorems.FairFillIsUnique | src/Orderbook.cpp:409-445 | No other list of executions satisfies price-time priority and trades as much as can be. |
| SweepTheorems.MakerPricesNeverImprove | src/Orderbook.cpp:410-429 | Along the list of executions maker prices never get better. |
| SweepTheorems.NobodyIsOvertaken | src/Orderbook.cpp:415-436 | When an order trades, every order that stood in front of it has left the book. |
| BookInvariants.ReplayAddCrossesExactlyWhen | src/Orderbook.cpp:108-134 | A replayed add keeps the book uncrossed if and only if it is refused, the opposite side shows no best price, or the opposite best price does not cross its own. |
| BookInvariants.ReplayReplaceCrossesExactlyWhen | src/Orderbook.cpp:176-203 | A replayed replacement keeps the book uncrossed if and only if it is refused or the best price opposite the original order, if there is one, does not cross the new price. |
| BookInvariants.SubmitLimitCrossesExactlyWhen | src/Orderbook.cpp:226-475 | A limit order crosses an uncrossed book if and only if it is a GTC or DAY order with a negative quantity, is not rejected, and crosses the opposite best price. |
| Requests.ApplyKeeps | src/Orderbook.cpp:108-615 | Every public request, whatever its quantity, keeps price-time order, unique ids and the price band; and positive quantities, when its quantity may rest only if it is not negative. |
| Requests.ApplyCrossesExactlyWhen | src/Orderbook.cpp:108-615 | Over any quantities, a request crosses an uncrossed book if and only if it rests an order without matching it, is not refused, and crosses the opposite best price. |
| Requests.RunCrossesExactlyWhen | src/Orderbook.cpp:108-615 | The book is uncrossed throughout a run if and only if no request of the run is such a request at its time. |
| Requests.RunsStayOrdered | src/Orderbook.cpp:108-615 | Any run of any requests keeps price-time order, unique ids and the price band. |
| Requests.RunsStayWellFormed | src/Orderbook.cpp:108-615 | A run of requests whose quantities may rest keeps positive quantities besides. |
| Requests.RunsStayUncrossed | src/Orderbook.cpp:226-615 | A run of market orders, limit orders that match before they rest, cancellations, modifications, reductions, deletions and session ends never crosses an uncrossed book, whatever quantities it holds. |
| Requests.NeverCrossed | src/Orderbook.cpp:226-615 | In every such run from an empty book the best bid stays below the best ask. |
| RunSizes.OrdinaryRunFits | src/Orderbook.cpp:108-615 | Requests of ordinary quantities always fit the engine while resting orders and requests together number less than 2^32: a condition on the requests alone. |
| Runs.HandleAll | src/Orderbook.cpp:108-615 | Over every run of requests the class does what the abstract book does, response by response, and stays valid. |
| Runs.HandleOrdinary | src/Orderbook.cpp:108-615 | The same for ordinary requests, without any condition on the run; and the book stays sound. |
| Runs.TradeFromEmpty | src/Orderbook.cpp:84-90 | After any run of matching requests from empty, the two reported best prices are those of the queues and do not cross. |
| Runs.TradeOrdinary | src/Orderbook.cpp:84-90 | The same with conditions on the requests alone. |
| PoolDemand.RunFromEmpty | src/core/MemoryPool.hpp:50-66 | Over any run of requests that fits, from an empty book, the pool is the smallest doubling of its first size that holds the peak number of resting orders. |
| Places.SweepKeepsOrder | src/Orderbook.cpp:410-441 | The makers a sweep leaves keep their places relative to each other. |
| TimePriority.ApplyKeepsPlaces | src/Orderbook.cpp:108-615 | A request that amends neither of two orders leaves them, if they were there and still are, in their places relative to each other. |
| TimePriority.RunKeepsPlaces | src/Orderbook.cpp:108-615 | Over any run of any requests, two orders that stay in the book and are never amended keep their places relative to each other. |
| OrderKinds.MarketIsIocAtBandEnd | src/Orderbook.cpp:261-323 | A market order gives the book and result of an IOC at the far end of the price band. |
| Executions.RejectedExactlyWhen | src/Orderbook.cpp:226-233 | A limit order is rejected if and only if some order has its id or its price is outside the band, and then changes and trades nothing. |
| Executions.LimitTakesInOrder | src/Orderbook.cpp:400-599 | Whatever the quantities, an order that is neither rejected nor killed executes against the first orders of the other side, in order, each under its own id, at its own price and within the limit, all but the last whole; it leaves the others untouched, and stops only when nothing is wanted, nobody is left or the next price is beyond the limit. Killed means a failed scan, and no change. |
| Executions.LimitIsFair | src/Orderbook.cpp:400-599 | In a sound book those executions, and the side they leave, are the one fair fill. |
| Executions.RemainderRests | src/Orderbook.cpp:447-475 | What is left of a GTC or DAY order rests on its own side at its price and with its lifetime, behind all orders at its own or a better price and in front of the worse ones; other orders, and filled ones, leave their own side alone. |
| Executions.LifetimeDecidesTheSession | src/Orderbook.cpp:454-455 | What rests of a DAY order is gone after the session end, what rests of a GTC order is still there. |
| Executions.WithoutQuantity | src/Orderbook.cpp:400-599 | An order without a positive quantity executes nothing; its status is filled for zero, and resting, canceled or killed otherwise. |
| Executions.MarketTakesInOrder | src/Orderbook.cpp:261-323 | A market order is rejected if and only if some order has its id; otherwise it executes against the first orders of the other side, in order, until it is filled or nobody is left, and nothing of it rests. |
| Executions.MarketIsFair | src/Orderbook.cpp:261-323 | In a sound book its executions are the one fair fill. |
| Executions.CancelRemovesExactly | src/Orderbook.cpp:325-356 | A cancellation takes exactly the order with this id out of its place and reports its open quantity; an unknown id changes nothing. |
| FillOrKill.AllOrNothingExactlyWhen | src/Orderbook.cpp:540-599 | Over any quantities: the assertion behind the FOK loop holds, and the order is filled completely or killed with the book unchanged, if and only if the scan fails, or the quantity is not negative and the first crossing makers, for some number of them, have the shares. |
| FillOrKill.AssertionFailsExactlyWhen | src/Orderbook.cpp:546-594 | In the quantities alone: for a positive order and fewer than 2^32 orders on a side, the assertion fails if and only if no number of first crossing makers has the shares while some number of best levels has a negative sum. |
| FillOrKill.PassedIsIoc | src/Orderbook.cpp:540-599 | Once the scan passes, FOK changes the book and executes as the IOC does, whatever remains. |
| FillOrKill.PassedScanIsRight | src/Orderbook.cpp:546-594 | Over positive makers the assertion always holds of a positive order. |
| FillOrKill.FillOrKillIsAllOrNothing | src/Orderbook.cpp:540-599 | In a sound book a positive FOK fills completely, and then equals the IOC, if enough shares cross; otherwise it is killed and the whole book is unchanged. |
| FillOrKill.NegativeMakerFoolsTheScan | src/Orderbook.cpp:548-594 | One request leads from the empty book to one with a negative maker in which the scan finds enough, shares remain behind the loop, and the assertion there fails. |
| OrderKinds.RestingIsIocThenRest | src/Orderbook.cpp:400-480 | A GTC or DAY order gives the executions of the IOC and then rests what is left. |
| OrderKinds.InsertIsLastAtItsPrice | src/core/PriceLevel.cpp:14-28 | Resting puts an order behind everything at its own or a better price and in front of everything worse. |
| OrderKinds.SubmissionAccounts | src/Orderbook.cpp:400-599 | Requested is filled plus rested plus discarded; filled is the sum of the executions; none is negative. |
| OrderKinds.MarketAccounts | src/Orderbook.cpp:273-322 | The same for market orders, of which nothing rests. |
| OrderKinds.StatusTellsTheFill | src/Orderbook.cpp:226-599 | Each status of a limit order holds if and only if the order was accepted, may rest and was filled to the extent that status names. |
| OrderKinds.MarketStatusTellsTheFill | src/Orderbook.cpp:314-320 | The same for market orders. |
| OrderKinds.ModifyIsCancelThenSubmit | src/Orderbook.cpp:358-398 | Each of the four answers holds if and only if its condition on price, id and new quantity does. Rejected and unknown requests change nothing; otherwise the old order is gone and its open quantity is reported, and a positive new quantity is submitted with the id, side and lifetime of the old order and never rejected. |
| OrderKinds.ModifyLosesItsPlace | src/Orderbook.cpp:385-393 | What a modified order rests, it rests as a new arrival at its price. |
| OrderKinds.RestingKeepsSoundExactlyWhenNonNegative | src/Orderbook.cpp:409-456 | A GTC or DAY order that passes the checks keeps the book sound if and only if its quantity is not negative; a negative one rests. |
| OrderKinds.ReplayAddKeepsSoundExactlyWhenPositive | src/Orderbook.cpp:111-117 | An accepted replayed add keeps the book sound if and only if its signed quantity is positive. |
| OrderKinds.ReplayReplaceKeepsSoundExactlyWhenPositive | src/Orderbook.cpp:173-195 | So does an accepted replacement. |
| OrderKinds.ReduceShrinksExactlyWhenPositive | src/Orderbook.cpp:136-165 | An accepted reduction leaves its order gone or with fewer shares if and only if it is positive; a negative one is accepted and enlarges the order by that much. |
| SessionTheorems.SessionEndRemovesExactlyDay | src/core/PriceLevel.hpp:54-66 | Whatever the quantities, exactly the DAY orders leave; the others are unchanged and keep their places relative to each other. |
| SessionTheorems.SessionReportIs | src/core/PriceLadder.hpp:44-58 | Whatever rests in the book, the report is the exact number of orders, the number of emptied levels in 32 bits, and the expired shares less what the signed level totals lose, in 64 bits. |
| SessionTheorems.SessionReportIsExactWhenLevelsFit | src/core/PriceLadder.hpp:44-58 | Orders are reported exactly; emptied levels if and only if there are fewer than 2^32; shares if and only if they have 64 bits and no level expires more than a signed 32-bit total holds, or the loss is exactly 2^64, which it is not below 2^63 shares. |
| SessionTheorems.OverfullLevelIsMisreported | src/core/PriceLevel.hpp:57-59 | Two orders of 2^31 - 1 DAY shares at one price are reported as fewer shares than were erased. |
| SessionTheorems.SecondSessionEndIsIdle | src/Orderbook.cpp:601-615 | A second session end changes nothing and reports zeros. |
| Ledger.ApplyBalances | src/Orderbook.cpp:108-615 | In any book and with any quantities each request changes the resting volume by exactly its rested shares less maker fills, cancelled, reduced, replaced and expired shares. |
| Ledger.RunsBalance | src/Orderbook.cpp:108-615 | So does every run, without any condition. |
| ReplayTheorems.SnapshotIsTheOrders | src/Orderbook.cpp:108-203 | The map of visible orders is the orders of both sides, each under its id with its side, price, quantity and lifetime. |
| ReplayTheorems.AddIsMapUpdate | src/Orderbook.cpp:108-134 | An add is accepted exactly for some shares, a new id and a price in the band, and then adds one entry to the map. |
| ReplayTheorems.ReduceIsMapUpdate | src/Orderbook.cpp:136-165 | A reduction takes exactly its quantity off an entry that has it, and removes the entry exactly when nothing is left. |
| ReplayTheorems.DeleteIsMapRemoval | src/Orderbook.cpp:167-171 | A deletion removes the entry and answers whether there was one. |
| ReplayTheorems.ReplaceIsAtomic | src/Orderbook.cpp:173-195 | Refused, the book is unchanged; applied, exactly the original is gone and the new order rests on its side; once the guards pass, the inner add cannot fail. |
| Places.ReduceKeepsPlaces | src/core/PriceLevel.cpp:90-97 | After a reduction every position of the queue still holds the same order at the same price. |
| ReplayRuns.ReplayIsMapRun | src/Orderbook.cpp:108-195 | Over any sequence of replayed changes, of whatever signed quantities, the visible orders and all answers are those of a plain map. |
| ReplayRuns.LeavesExactlyWhen | src/Orderbook.cpp:136-195 | An order disappears if and only if it is fully reduced, deleted or replaced. |
| ReplayRuns.ReplayRunKeepsPlaces | src/Orderbook.cpp:108-195 | Over any sequence of replayed changes, orders that stay keep their places relative to each other. |
| ItchStream.InputStream.Read | replay/utils/BinaryDecodeHelpers.cpp:11-20 | A read fills a zeroed buffer with the bytes there are; running out sets end-of-file and failure, and a stream that is not good stays where it is and fails. |
| ItchStream.Accumulate | replay/utils/BinaryDecodeHelpers.cpp:43-47 | Adding each byte at its shifted place gives the big-endian value. |
| ItchStream.InputStream.ReadU16Be | replay/utils/BinaryDecodeHelpers.cpp:32-37 | Reads two bytes, big-endian. |
| ItchStream.InputStream.ReadU32Be | replay/utils/BinaryDecodeHelpers.cpp:39-50 | Reads four bytes, big-endian, without leaving 32 bits. |
| ItchStream.InputStream.ReadU48Be | replay/utils/BinaryDecodeHelpers.cpp:52-63 | Reads six bytes, big-endian, without leaving 48 bits. |
| ItchStream.InputStream.ReadU64Be | replay/utils/BinaryDecodeHelpers.cpp:65-76 | Reads eight bytes, big-endian, without leaving 64 bits. |
| ItchDecoders.DecodeSTypeMessage | replay/utils/BinaryMessageDecoders.cpp:16-23 | Yields the system event laid out in the next 11 bytes and consumes exactly those. |
| ItchDecoders.DecodeRTypeMessage | replay/utils/BinaryMessageDecoders.cpp:25-61 | Yields the stock directory entry laid out in the next 38 bytes and consumes exactly those. |
| ItchDecoders.DecodeATypeMessage | replay/utils/BinaryMessageDecoders.cpp:63-75 | Yields the add order laid out in the next 35 bytes and consumes exactly those. |
| ItchDecoders.DecodeFTypeMessage | replay/utils/BinaryMessageDecoders.cpp:77-91 | Yields the attributed add order laid out in the next 39 bytes and consumes exactly those. |
| ItchDecoders.DecodeETypeMessage | replay/utils/BinaryMessageDecoders.cpp:93-103 | Yields the execution laid out in the next 30 bytes and consumes exactly those. |
| ItchDecoders.DecodeCTypeMessage | replay/utils/BinaryMessageDecoders.cpp:105-118 | Yields the execution with price laid out in the next 35 bytes and consumes exactly those. |
| ItchDecoders.DecodeXTypeMessage | replay/utils/BinaryMessageDecoders.cpp:120-129 | Yields the cancellation laid out in the next 22 bytes and consumes exactly those. |
| ItchDecoders.DecodeDTypeMessage | replay/utils/BinaryMessageDecoders.cpp:131-138 | Yields the deletion laid out in the next 18 bytes and consumes exactly those. |
| ItchDecoders.DecodeUTypeMessage | replay/utils/BinaryMessageDecoders.cpp:140-156 | Yields the replacement laid out in the next 34 bytes and consumes exactly those. |
| ItchRoundTrip.DecodeInvertsEncoding | replay/utils/BinaryDecodeHelpers.cpp:91-112 | For every message, its wire form has the length its type is checked against, and decoding it gives the message back. |
| ItchLayout.NumbersAreBigEndian | replay/utils/BinaryDecodeHelpers.cpp:30-74 | Numbers of two, four, six and eight bytes are sums of their bytes, the first counting most. |
| ItchLayout.FrameLayout | replay/engine/ItchParser.cpp:21-42 | In front of a message stands its length, the type byte included, in two bytes. |
| ItchLayout.SystemEventLayout | replay/utils/BinaryMessageDecoders.cpp:16-23 | The type byte, length and field offsets of a system event. |
| ItchLayout.StockDirectoryLayout | replay/utils/BinaryMessageDecoders.cpp:25-61 | Those of a stock directory entry. |
| ItchLayout.AddOrderLayout | replay/utils/BinaryMessageDecoders.cpp:63-75 | Those of an add: for one, the shares are the four bytes from 20 on, the price those from 32 on. |
| ItchLayout.AddOrderWithMpidLayout | replay/utils/BinaryMessageDecoders.cpp:77-91 | Those of an attributed add. |
| ItchLayout.OrderExecutedLayout | replay/utils/BinaryMessageDecoders.cpp:93-103 | Those of an execution. |
| ItchLayout.OrderExecutedWithPriceLayout | replay/utils/BinaryMessageDecoders.cpp:105-118 | Those of an execution with price. |
| ItchLayout.OrderCancelLayout | replay/utils/BinaryMessageDecoders.cpp:120-129 | Those of a cancellation. |
| ItchLayout.OrderDeleteLayout | replay/utils/BinaryMessageDecoders.cpp:131-138 | Those of a deletion. |
| ItchLayout.OrderReplaceLayout | replay/utils/BinaryMessageDecoders.cpp:140-156 | Those of a replacement: the original number stands from 11 on, the new one from 19 on. |
| ItchAnyInput.EncodingInvertsDecoding | replay/utils/BinaryMessageDecoders.cpp:16-156 | Any body of the right length is the wire form of the message it decodes to: decoding loses nothing. |
| ItchFraming.ParseInvertsFraming | replay/engine/ItchParser.cpp:21-153 | Over the wire form of any well-formed frames parsing dispatches the known messages in order, up to the first after the stop time, passes over unknown ones whole, and is then exactly behind the last frame. |
| ItchFraming.ParseOfWire | replay/engine/ItchParser.cpp:21-153 | The same for a whole file, which then ends the input. |
| ItchFraming.ZeroLengthEnds | replay/engine/ItchParser.cpp:30-32 | A zero length ends the input, whatever follows it. |
| ItchFraming.DispatchesUpToStop | replay/engine/ItchParser.hpp:30-34 | The frames' messages are dispatched up to the first whose timestamp is after the stop time, and all without a stop time; one at the stop time is dispatched. |
| ItchAnyInput.AnyInputIsFramesAndTail | replay/engine/ItchParser.cpp:23-42 | Any bytes are the wire form of well-formed frames followed by a tail that no frame starts. |
| ItchAnyInput.CutIsUnique | replay/engine/ItchParser.cpp:23-42 | They are so in one way only. |
| ItchAnyInput.ParseAnyInput | replay/engine/ItchParser.cpp:21-153 | Parsing any input dispatches its frames and then what its tail yields: nothing, a length error, or a supported message cut short, which is dispatched filled up with zeros. |
| ItchAnyInput.FileStopsAtFirstLate | replay/engine/ItchParser.hpp:30-34 | For any bytes: the stop time cuts what is dispatched before the first message with a later timestamp, and parsing ends with the stop time if and only if there is one. |
| ItchParser.ItchParser.DecodeBody | replay/engine/ItchParser.cpp:44-143 | The decoder chosen for a type consumes exactly the length its type is checked against. |
| ItchParser.ItchParser.Dispatch | replay/engine/ItchParser.cpp:44-143 | The engine sees the decoded message unless it is after the stop time; the body is consumed either way. |
| ItchParser.ItchParser.Parse | replay/engine/ItchParser.cpp:21-153 | For any input the loop ends as `ParseStream` says and the engine has seen exactly the messages it says. |
| ItchReplayEngine.ItchReplayEngine.constructor | replay/engine/ItchReplayEngine.cpp:16-17 | A new engine follows no stock, has counted nothing and has an empty book. |
| ItchReplayEngine.ItchReplayEngine.MatchesSymbolField | replay/engine/ItchReplayEngine.cpp:193-203 | Whether the field up to its first space is the symbol. |
| ItchReplayEngine.PaddedSymbolMatches | replay/engine/ItchReplayEngine.cpp:193-203 | A field holding a symbol padded with spaces matches that symbol and no other. |
| ItchReplayEngine.ItchReplayEngine.OnStockDirectory | replay/engine/ItchReplayEngine.cpp:21-25 | Retargets the engine exactly when the entry names its symbol, and changes nothing else. |
| ItchReplayEngine.ItchReplayEngine.OnAddOrder | replay/engine/ItchReplayEngine.cpp:27-41 | Applies an add of the followed stock and counts it once; other stocks change nothing. |
| ItchReplayEngine.ItchReplayEngine.OnAddOrderWithMpid | replay/engine/ItchReplayEngine.cpp:43-57 | The same for attributed adds. |
| ItchReplayEngine.ItchReplayEngine.OnOrderExecuted | replay/engine/ItchReplayEngine.cpp:59-72 | The same for executions, as reductions. |
| ItchReplayEngine.ItchReplayEngine.OnOrderExecutedWithPrice | replay/engine/ItchReplayEngine.cpp:74-87 | The same for executions with price, as reductions. |
| ItchReplayEngine.ItchReplayEngine.OnOrderCancel | replay/engine/ItchReplayEngine.cpp:89-102 | The same for cancellations, as reductions. |
| ItchReplayEngine.ItchReplayEngine.OnOrderDelete | replay/engine/ItchReplayEngine.cpp:104-116 | The same for deletions. |
| ItchReplayEngine.ItchReplayEngine.OnOrderReplace | replay/engine/ItchReplayEngine.cpp:118-132 | The same for replacements. |
| ReplayReport.EngineIsRun | replay/engine/ItchReplayEngine.cpp:27-132 | Over any messages the engine's book is that of a run of exactly the followed stock's requests, and the machine integers suffice for the messages if and only if they do for that run. |
| EngineSteps.AfterAdd | replay/engine/ItchReplayEngine.cpp:27-57 | In the message's fields: an add of the followed stock rests a GTC order under its reference number, a bid for the indicator B and an ask otherwise, at its price and with its shares, or counts as failed. |
| EngineSteps.AfterExecution | replay/engine/ItchReplayEngine.cpp:59-87 | An execution takes its executed shares off the order it names, or counts as failed. |
| EngineSteps.AfterCancel | replay/engine/ItchReplayEngine.cpp:89-102 | A cancellation takes its cancelled shares off the order it names, or counts as failed. |
| EngineSteps.AfterDelete | replay/engine/ItchReplayEngine.cpp:104-116 | A deletion removes the order it names, or counts as failed. |
| EngineSteps.AfterReplace | replay/engine/ItchReplayEngine.cpp:118-132 | A replacement removes the original order and rests the new one on its side, or counts as failed. |
| EngineSteps.OtherStocksAreIgnored | replay/engine/ItchReplayEngine.cpp:27-30 | Order messages of other stocks, and system events, change nothing. |
| EngineSteps.FollowedIsCounted | replay/engine/ItchReplayEngine.cpp:27-132 | Every order message of the followed stock moves exactly one counter, by one. |
| EngineSteps.AfterDirectory | replay/engine/ItchReplayEngine.cpp:21-25 | A directory entry is followed from then on if and only if its stock field holds the symbol with nothing, or a space, behind it. |
| EngineSteps.PaddedNames | replay/engine/ItchReplayEngine.cpp:193-203 | A field padded with spaces alone names the symbol if and only if it is the padded symbol. |
| EngineSteps.TextBehindASpaceIsIgnored | replay/engine/ItchReplayEngine.cpp:193-203 | A concrete field that is not the padded symbol and names it all the same. |
| EngineSteps.RelevantExactlyWhen | replay/engine/ItchReplayEngine.cpp:21-132 | The messages that reach the book are, in order, exactly the order messages whose locate code is that of the last entry before them that names the symbol. |
| ReplayReport.EveryRelevantMessageIsCounted | replay/engine/ItchReplayEngine.cpp:27-132 | Applied and failed counters together grow by the number of the followed stock's order messages. |
| ReplayReport.CountersAreTally | replay/engine/ItchReplayEngine.cpp:27-132 | Every counter is the one a plain map of visible orders would give. |
| ReplayReport.TallyCountsByType | replay/engine/ItchReplayEngine.cpp:27-132 | Each applied counter counts the accepted messages of its types, and the rest count as failed. |
| ReplayReport.ShownAfterMessages | replay/engine/ItchReplayEngine.cpp:27-132 | The visible book after any messages is the map after the followed stock's changes. |
| ReplayReport.ReplayFile | replay/ReplayMain.cpp:83-88 | Replaying a file of any bytes, broken and cut short ones included, from an empty book ends as its frames and tail say, shows what the map shows, and counts what the map accepts and refuses. |
| ShareCounts.TakesSharesExactlyWhenSigned | replay/engine/ItchReplayEngine.cpp:59-102 | An execution or cancellation that is applied leaves its order gone or with fewer shares if and only if its share count is below 2^31. |
| ShareCounts.RestsSoundlyExactlyWhenSigned | replay/engine/ItchReplayEngine.cpp:27-132 | An add or replacement that is applied keeps the book sound if and only if its share count is below 2^31. |
| ShareCounts.HugeExecutionEnlarges | replay/engine/ItchReplayEngine.cpp:59-72 | An execution of 2^32 - 1 shares of an order of 5 is counted as applied, and the order has 6. |
| ShareCounts.SignedSharesFit | replay/engine/ItchReplayEngine.cpp:27-132 | Share counts below 2^31, and fewer than 2^32 orders and messages, are enough for the machine integers of a whole replay. |
| ShareCounts.SignedFileFits | replay/ReplayMain.cpp:83-88 | Share counts below 2^31 and fewer than 2^32 - 1 frames are enough for the machine integers of the replay of any bytes. |
| ShareCounts.ReplaySignedFile | replay/ReplayMain.cpp:83-88 | The statement about replaying any bytes, with conditions on the share counts and the number of frames in them alone. |

## Left out

- OrderBook.OrderBook.SubmitLimitOrder: asks that what remains while matching stays in 32 signed bits, and that a remainder finds fewer than 2^32 - 1 orders at its level; beyond that the code has undefined behaviour, or an order count that wraps to an empty level. The two assertions on FOK orders are modelled as compiled out.
- OrderBook.OrderBook.SubmitLimitOrderResting: asks for the part of these conditions that concerns GTC and DAY orders.
- OrderBook.OrderBook.SubmitLimitOrderIoc: asks that what remains while matching stays in 32 signed bits.
- OrderBook.OrderBook.SubmitLimitOrderFok: asks that what remains while matching stays in 32 signed bits; where an assertion fails, what is modelled is the code without assertions.
- OrderBook.OrderBook.ModifyOrder: asks the same of the order it submits again.
- OrderBook.OrderBook.SubmitMarketOrder: asks that what remains while matching stays in 32 signed bits, which only a negative maker could prevent.
- OrderBook.OrderBook.ReplayAddVisibleOrder: asks for fewer than 2^32 - 1 orders at its level, because the order count would wrap and the level read as empty.
- OrderBook.OrderBook.ReplayReduceVisibleOrder: asks that a negative reduction does not overflow the order's quantity, which is undefined in the code.
- OrderBook.OrderBook.ReplayReplaceVisibleOrder: asks for fewer than 2^32 - 1 orders at the new level, for the same reason.
- Runs.HandleAll: asks every request of the run to meet these conditions; `HandleOrdinary` asks only for the requests' own quantities and number.
- ItchParser.ItchParser.Parse: asks the order messages it dispatches to meet these conditions.
- ReplayReport.ReplayFile: asks the same; `ReplaySignedFile` asks only for the share counts and the number of frames in the bytes.
- SessionTheorems.SessionReportIs: the number of pruned orders is unbounded; it is at most the size of the pool, whose own 64-bit counters are unbounded too.
- ItchReplayEngine.ItchReplayEngine.OnAddOrder: counters are unbounded; the 64-bit wrap of a counter is not modelled.
- OrderBook.OrderBook.LevelAt: the level getters ask for a price in the band, as the code asserts, and are read in one call.
- Signed overflow of a level's pruned total is undefined in C++; it is modelled as two's-complement wrap-around, and the exact condition under which it does not occur is proved.
- The four matching loops share helpers for one step (peek at the front maker, take a part of it, clear it) and for resting an order; the steps are those of the source, in its order, except that the id of a cleared maker is forgotten after it is unlinked rather than before.
- The two template instances for buy and sell are one method with a side.
- Memory is one sequence of blocks over all slabs, a pointer is an index into it, and a null pointer is `None`; alignment, placement new, destruction of slabs and the pimpl are not modelled.
- The hash map from ids to orders is a Dafny map; hashing and rehashing are not modelled.
- `check_available_liquidity` (src/Orderbook.cpp:205-219) has no caller and is not modelled.
- File opening is not modelled; a stream is its bytes with a position and two flags. The error for an unexpected length is an outcome instead of an exception.
- `print_summary`, argument and time parsing, floating-point display, benchmarks and scripts are not modelled.
- The size of the price band is not limited by memory.
