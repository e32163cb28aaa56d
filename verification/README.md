# Verified model of the matching engine

A Dafny model of an electronic exchange's matching engine and of four smaller components beside it, with
proofs that hold for every input, every run and every interleaving.

## The order book

`OrderBook` keeps its resting orders in four hand-made structures that must agree: a sliding window of
1024 price slots with a cached best slot, a doubly linked queue per price inside a vector with an embedded
free list, an id-indexed store of orders, and an id-indexed table of (side, price, slot) handles.

* `Types`, `Order`, `OrderArena`, `PriceLevel`, `PriceWindow`, `PriceRingBuffer` and `OrderBook` model these
  structures as classes updated in place. Each class has a `model` value, and each method is proved to
  change that value exactly as a specification function says.
* `BookSpec` and `BookOps` are that specification: the book as a value, with a side as a plain
  price-to-queue map. `BookInvariant` is what every reachable book satisfies.
* `FlatBook` is a second, naive book: one list of orders, oldest first, searched from end to end.
  `Simulation` and `Runs` prove that the book refines it, operation by operation and over whole runs;
  `Listing` gives such a list for every book that satisfies the invariant.
* `Conservation`, `BookTotals`, `Outcomes`, `TimePriority`, `Clips`, `Depth`, `DepthRuns`, `FillOrKill`, `Retention`,
  `Forgetting` and `OrderHistory` prove what the two books promise: exact traded amounts, what becomes of the order an
  operation is about, every reported trade, time priority over whole runs, depths, all-or-nothing orders, which
  orders are forgotten, and the account and the terms of a single order over a run.
  `Examples` has families of short runs from the empty book that show where the book falls short.

Three laws one might expect of the book do not hold. For each there are runs on which it fails, and the exact
condition, which can be read off the book before the operation:

* A level's depth can be less than what its orders show. From a reachable book with exact depths an operation makes
  it so exactly when it is not `DepthRuns.Careful` (`DepthRuns.ReachableDepth`), for one of four causes:
  what comes to rest brings its level to 2^32 or more (run: `Examples.OverflowLosesDepth`); a match uses up the first
  clip of an iceberg and the next clip, put back by the match, brings the level to 2^32 or more (run:
  `Examples.RefillLosesDepth`); a queued iceberg that is modified in place comes to show more (run:
  `Examples.ShrunkIcebergLosesDepth`); or an order the window has dropped is cut down in place at a price that shows
  something (run: `Examples.ForgottenOrderLosesDepth`).
* An order can be stored and indexed without being queued. An operation that is not about an order and does not fill
  it makes it so exactly when another order comes to rest on its side at a price that, by the distances of
  `PriceWindows.CoversAfter`, moves the window off its own
  (`Forgetting.StaysLive`; for all orders at once `Retention.ApplyLive`; run: `Examples.DistantBidForgets`).
* A fill-or-kill order can be rejected although enough is shown: exactly when the depths in reach, summed modulo
  2^32, do not cover it (`FillOrKill.AcceptedExactlyWhen`); either the sum wraps around (run:
  `Examples.OverflowRejects`) or a depth is too small (run: `Examples.ShrunkIcebergRejects`).

New orders are taken as the order builder makes them: a side of BUY or SELL, nothing filled, and an id that
is neither in use nor the largest 64-bit number.

## The other components

* `HeapMatcher`, `Agreement`, `TradeCounts` and `MatchCounts`: the two-heap matcher of the research script, and its
  agreement with the order book on limit orders. On runs that drop no level, traded quantity and quantity left agree.
  The numbers of trades of one match agree exactly when, at the last price reached, as many orders by age as by size
  cover what is still wanted; so they agree over runs in which no queue has a smaller order behind a larger one, and
  there are runs on which they differ (`Examples.TradeCountsDiffer`).
* `SpscQueue`: the single-producer single-consumer ring as a protocol in which every load, store and buffer
  access is its own step and loads of the other thread's index may be stale, and as a class.
* `WireOrder`: the text codec of orders.
* `RBShape`, `RBBalance`, `RBErase`, `RBEraseBalance`, `RBRepair` and `RBTree`: the red-black tree with parent links,
  in place. Insertion keeps search order, links and balance; insertion and erasure keep search order, links and
  contents. Erasure does not keep the balance: `fixDelete` does nothing when the child that moved up is missing or
  red, and from a balanced tree it always is. So a balanced tree stays balanced exactly if the node that goes is red or
  the last one (`RBTrees.RBTree.Erase`; a tree that loses its balance: `RBEraseBalance.BlackLeafUnbalances`). Where one
  subtree is one black node short, `fixDelete` mends the tree, but for the colour of one red node at most.

## Model

| member | source | states |
|---|---|---|
| Orders.RefreshExposes | include/core/Order.h:118-130 | refreshing exposes one clip of what remains, or all of it for an order without display quantity; it shows nothing only when nothing is left, and a second refresh changes nothing |
| Orders.ShrinkInPlace | include/core/Order.h:91-99 | cutting a live non-iceberg takes exactly the difference off what it shows; an iceberg may come to show more, exactly when its refilled clip exceeds what it showed |
| Orders.ModifiedIs | include/core/Order.h:91-99 | for every quantity: refused below what is filled, otherwise the total is the new quantity, what remains is that less what is filled, and nothing but what is worked changes with it |
| Orders.PreparedIs | src/core/OrderBook.cpp:330-335 | a given display quantity stays, a missing one becomes exactly what remains, then one clip is worked |
| Orders.RestedIs | src/core/OrderBook.cpp:220-222 | what comes to rest after trading t is the order that came with t more filled, its display quantity given or all it came with, showing one clip of what is left |
| Orders.Order.constructor | include/core/Order.h:33-45 | a built order has everything working and nothing filled |
| Orders.Order.RefreshWorkingQuantity | include/core/Order.h:118-130 | only what the order works changes: to what is filled plus one clip of the rest, or to the total without a display quantity |
| Orders.Order.ModifyQty | include/core/Order.h:91-99 | refused, with no change, exactly below the filled quantity; otherwise the new quantity is the total, the rest of it remains, one clip of that or all of it is worked, and price, display and everything else are as before |
| Orders.Order.AddFill | include/core/Order.h:101-105 | the filled quantity grows modulo 2^32 and nothing else changes |
| OrderArenas.OrderArena.EnsureCapacity | src/core/OrderArena.cpp:55-62 | growing in chunks keeps every stored order where it was |
| OrderArenas.OrderArena.Store | src/core/OrderArena.cpp:9-17 | storing an order puts it under its id, replacing what was there |
| OrderArenas.OrderArena.Find | src/core/OrderArena.cpp:19-24 | found exactly when stored, and then the stored order itself |
| OrderArenas.OrderArena.Erase | src/core/OrderArena.cpp:49-53 | the id is gone, every other order stays |
| PriceLevels.AppendKeepsChains | src/core/PriceLevel.cpp:8-26 | hanging a node on the tail keeps one doubly linked live chain, now one longer, and leaves the free chain alone |
| PriceLevels.UnlinkKeepsChains | src/core/PriceLevel.cpp:28-65 | taking any node out keeps the live chain of the others in order and correctly linked both ways |
| PriceLevels.ReleaseKeepsChains | src/core/PriceLevel.cpp:137-145 | a released node joins the front of the acyclic free chain; live and free nodes together remain all nodes |
| PriceLevels.AllocateKeepsChains | src/core/PriceLevel.cpp:123-131 | the reused node is the most recently freed one and leaves the free chain intact |
| PriceLevels.GrowKeepsChains | src/core/PriceLevel.cpp:132-134 | a new node at the end of the vector disturbs neither chain |
| PriceLevels.AddKeepsWellFormed | src/core/PriceLevel.cpp:8-26 | slot handles stay distinct and account for every slot ever used |
| PriceLevels.RemoveKeepsWellFormed | src/core/PriceLevel.cpp:28-65 | removal by handle deletes exactly that entry, keeps the order of the others, and leaves their handles valid |
| PriceLevels.PriceLevel.AddOrder | src/core/PriceLevel.cpp:8-26 | the queue is extended at its end by the id under a free handle, the depth grows by what the order shows (32-bit) |
| PriceLevels.PriceLevel.RemoveOrderAt | src/core/PriceLevel.cpp:28-65 | succeeds exactly when the handle holds that id, then only that entry is gone and the depth saturates downwards; otherwise nothing changes |
| PriceLevels.PriceLevel.AllocateSlot | src/core/PriceLevel.cpp:123-135 | hands out a slot outside the live chain and keeps both chains |
| PriceLevels.PriceLevel.HeadOrderId | src/core/PriceLevel.cpp:67-72 | the id at the front of the queue, or the no-order mark for an empty queue |
| PriceLevels.PriceLevel.DecOpenQty | src/core/PriceLevel.cpp:74-80 | the depth goes down and stops at zero; the queue is untouched |
| PriceLevels.PriceLevel.Clear | src/core/PriceLevel.cpp:82-91 | the level is empty, all its nodes are free in ascending order |
| PriceWindows.RebalanceTakesInFocus | src/core/PriceRingBuffer.cpp:175-215 | for every 64-bit best price and focus the new window lies inside the 64-bit range and contains the focus |
| PriceWindows.WindowByDistance | src/core/PriceRingBuffer.cpp:135-216 | which prices a rebalanced window covers, told by distances alone: the window centred on the best price if the focus is in it; a focus above, however far, becomes the upper edge; a focus below becomes the lower edge, or the upper edge when a whole window or more below; clamped at 0 and at the top of the range |
| PriceWindows.BestSurvives | src/core/PriceRingBuffer.cpp:181-216 | the previous best stays inside the new window exactly when it is less than one capacity from the focus |
| PriceWindows.BestDropped | src/core/PriceRingBuffer.cpp:175-258 | the previous best level is dropped by a new price exactly when it is a whole window or more away |
| PriceWindows.CloseLevelsSurvive | src/core/PriceRingBuffer.cpp:175-258 | no level is dropped when levels and new price lie within half a window of each other |
| PriceWindows.EnsureLevelKeeps | src/core/PriceRingBuffer.cpp:43-72 | taking in a price keeps exactly the levels inside the new window, with queues and handles unchanged, and always provides the level asked for |
| PriceWindows.NewWindow | src/core/PriceRingBuffer.cpp:43-72 | after taking in a price the window covers exactly the prices told by the distances between its start, the best price and the new price, and exactly the levels there are kept |
| PriceWindows.RebalancedWindow | src/core/PriceRingBuffer.cpp:175-258 | a rebalance keeps exactly the levels at the prices told by distances from the best price |
| PriceWindows.AscendingIsSorted | include/datastructures/PriceRingBuffer.h:74-83 | the visited prices are exactly the non-empty ones, strictly increasing |
| PriceRingBuffers.PriceRingBuffer.FindLevel | src/core/PriceRingBuffer.cpp:19-29 | the level of a price exactly when the map has one, and then with the map's queue and depth |
| PriceRingBuffers.PriceRingBuffer.EnsureLevel | src/core/PriceRingBuffer.cpp:43-72 | the map after taking in the price: of the old levels exactly those that the distances from start, best price and new price keep; the returned level is that of the price and is never missing |
| PriceRingBuffers.PriceRingBuffer.EraseLevel | src/core/PriceRingBuffer.cpp:74-90 | the price is gone from the map and the cached best is right again |
| PriceRingBuffers.PriceRingBuffer.MarkLevelNonEmpty | src/core/PriceRingBuffer.cpp:92-98 | after a level has become non-empty the cached best is right |
| PriceRingBuffers.PriceRingBuffer.BestLevel | src/core/PriceRingBuffer.cpp:105-124 | the best non-empty level and its price (highest bid, lowest ask), none exactly when all are empty |
| PriceRingBuffers.PriceRingBuffer.UpdateBestCandidate | src/core/PriceRingBuffer.cpp:260-289 | a best slot that was right but for one price is right after comparing that price |
| PriceRingBuffers.PriceRingBuffer.RecomputeBestInternal | src/core/PriceRingBuffer.cpp:295-322 | a full scan finds the best non-empty price or that there is none |
| PriceRingBuffers.PriceRingBuffer.EnsureBestSlot | src/core/PriceRingBuffer.cpp:324-339 | a stale or missing cached best is replaced by the right one |
| PriceRingBuffers.PriceRingBuffer.InitializeBase | src/core/PriceRingBuffer.cpp:135-147 | the first window is centred on its first price, clamped, with every slot standing for its own price |
| PriceRingBuffers.PriceRingBuffer.RebalanceWindow | src/core/PriceRingBuffer.cpp:175-258 | the slot array after rebuilding stands for exactly the levels that the distances from the best price and the focus keep |
| PriceRingBuffers.PriceRingBuffer.ForEachAscending | include/datastructures/PriceRingBuffer.h:74-83 | visits the non-empty levels once each in ascending order of price |
| BookInvariant.QueuedIsLive | src/core/OrderBook.cpp:246-262 | every queued node has a stored order with the same side and price and an index entry naming exactly its slot |
| BookInvariant.LivePlace | src/core/OrderBook.cpp:98-134 | an indexed live order is in exactly one queue, at one place |
| BookInvariant.UnqueueKeeps | src/core/OrderBook.cpp:116-131 | taking a live order off the book keeps all agreements |
| BookInvariant.RestKeeps | src/core/OrderBook.cpp:220-244 | putting an order that does not cross on the book keeps all agreements, also when levels are dropped |
| BookInvariant.FillKeeps | src/core/OrderBook.cpp:367-387 | a trade keeps all agreements except that the resting order may show nothing |
| BookInvariant.RemoveRestingKeeps | src/core/OrderBook.cpp:246-262 | a used-up resting order gives way and the agreements hold again |
| BookInvariant.FilledOrder | include/core/Order.h:101-105 | a fill within what an order shows neither wraps nor exceeds, and moves exactly that amount |
| BookOps.MatchStepKeeps | src/core/OrderBook.cpp:349-392 | each round keeps the invariant and lowers (incoming pending, number of stored orders) lexicographically |
| BookOps.MatchLoopKeeps | src/core/OrderBook.cpp:349-392 | the loop terminates, keeps the invariant and stops only when the order is filled or nothing is in reach |
| BookOps.MatchLoopOwnSide | src/core/OrderBook.cpp:349-392 | matching never touches the incoming order's own side |
| BookOps.IcebergKeeps | src/core/OrderBook.cpp:330-335 | preparing an iceberg keeps the invariant; a given display quantity stays, a missing one is exactly what remains, and one clip of that is shown |
| BookOps.ProcessedIs | src/core/OrderBook.cpp:59-92 | an order still stored after it was processed is the one that came, less what it traded, with its display quantity given or all it came with |
| BookOps.AddOrderKeeps | src/core/OrderBook.cpp:49-92 | adding an order of any type keeps the invariant, no-crossing included |
| BookOps.CancelOrderKeeps | src/core/OrderBook.cpp:98-134 | cancelling keeps the invariant, for live, stale and unknown ids |
| BookOps.ModifyOrderKeeps | src/core/OrderBook.cpp:136-191 | modifying keeps the invariant on every branch |
| BookOps.ModifiedOrder | src/core/OrderBook.cpp:136-191 | a live order modified to a quantity not below what is filled, and still stored then, has that total and the new price, in place or entered anew; it works one clip of what is left by its own display, or all of it; the rest is as it was |
| BookOps.ReachableStep | src/core/OrderBook.cpp:49-191 | a book used only through its operations stays reachable from the empty book |
| BookOps.ReachableIsOk | src/core/OrderBook.cpp:49-191 | every reachable book satisfies the invariant |
| OrderBooks.OrderBook.constructor | src/core/OrderBook.cpp:19-39 | a new book object is the empty book |
| OrderBooks.OrderBook.AddOrder | src/core/OrderBook.cpp:49-57 | the object's state becomes exactly the specified one, invariant kept |
| OrderBooks.OrderBook.ProcessOrder | src/core/OrderBook.cpp:59-92 | dispatch by order type, to exactly the specified state |
| OrderBooks.OrderBook.CancelOrder | src/core/OrderBook.cpp:98-134 | exactly the specified state; true exactly for live orders |
| OrderBooks.OrderBook.ModifyOrder | src/core/OrderBook.cpp:136-191 | exactly the specified state on every branch, invariant kept; a live order that stays after a quantity not below what is filled has that quantity and the new price |
| OrderBooks.OrderBook.RestOrderInternal | src/core/OrderBook.cpp:220-244 | exactly the specified resting: refreshed order, extended queue, index entry |
| OrderBooks.OrderBook.RemoveRestingOrderInternal | src/core/OrderBook.cpp:246-262 | exactly the specified removal or return with a new clip; the early return is never taken |
| OrderBooks.OrderBook.ReleaseOrderInternal | src/core/OrderBook.cpp:264-267 | index entry and stored order are gone, all else as it was |
| OrderBooks.OrderBook.AvailableLiquidityAgainst | src/core/OrderBook.cpp:269-297 | the 32-bit sum of the depths of the opposite levels within the limit |
| OrderBooks.OrderBook.EnsureOrderIndexCapacity | src/core/OrderBook.cpp:299-306 | growing the index changes no entry |
| OrderBooks.OrderBook.FindOrderRef | src/core/OrderBook.cpp:308-322 | the index entry of an id, none for an empty one or beyond the end |
| OrderBooks.OrderBook.ClearOrderRef | src/core/OrderBook.cpp:324-328 | only that entry is emptied |
| OrderBooks.OrderBook.HandleIceberg | src/core/OrderBook.cpp:330-335 | a given display quantity stays, a missing one is set to exactly what remains, and one clip of the rest is worked |
| OrderBooks.OrderBook.EnsureFokLiquidity | src/core/OrderBook.cpp:337-342 | true exactly when the found liquidity covers the order |
| OrderBooks.OrderBook.MatchAll | src/core/OrderBook.cpp:349-392 | the while loop of the match computes exactly the specified loop and terminates |
| OrderBooks.OrderBook.ExecuteMatch | src/core/OrderBook.cpp:344-399 | match, then rest or release, to exactly the specified state |
| OrderBooks.OrderBook.TotalOpenQtyAt | src/core/OrderBook.cpp:434-438 | the depth of a level, zero if there is none |
| OrderBooks.OrderBook.BestOrder | src/core/OrderBook.cpp:416-432 | the oldest order at the best price of a side |
| OrderBooks.OrderBook.SnapshotSide | src/core/OrderBook.cpp:577-587 | prices with their depths in strictly ascending order |
| FlatBooks.FrontIsBest | src/core/OrderBook.cpp:349-368 | the order the naive matcher takes is best-priced and, at that price, oldest, over the whole list |
| FlatBooks.NaiveStepKeeps | src/core/OrderBook.cpp:367-391 | a naive step fills both by the smaller pending, and shortens the list if it fills nothing |
| FlatBooks.NaiveLoopKeeps | src/core/OrderBook.cpp:349-392 | the naive loop ends with the order filled or nothing in reach |
| Simulation.FrontIsHead | src/core/OrderBook.cpp:350-368 | the head of the best level is the naive matcher's choice |
| Simulation.SimLoop | src/core/OrderBook.cpp:344-399 | the match loop leaves the same queues, fills as much and reports the same trade log as the naive matcher |
| Simulation.SimRest | src/core/OrderBook.cpp:220-244 | resting is appending to the flat list after forgetting what the window leaves outside |
| Simulation.SimAdd | src/core/OrderBook.cpp:49-92 | adding an order refines the naive book |
| Simulation.SimCancel | src/core/OrderBook.cpp:98-134 | cancelling refines the naive book, with the same result |
| Simulation.SimModify | src/core/OrderBook.cpp:136-191 | modifying refines the naive book, on every branch |
| RunProperties.BookRefinesFlat | src/core/OrderBook.cpp:49-191 | over any run the book holds, queue by queue, what the flat list holds, and has reported the same trades |
| RunProperties.NeverCrossed | src/core/OrderBook.cpp:344-399 | in every reachable state, also after dropped levels, every resting bid is strictly below every resting ask |
| RunProperties.QueuedOrders | include/core/Order.h:78-130 | for every queued order filled <= working <= total, an iceberg exposes at most its display quantity, and shows nothing only if nothing is left |
| TimePriority.NobodyOvertakes | src/core/OrderBook.cpp:98-262 | over any run in which an order does not come to rest anew (by being added, by re-entering after a price change or quantity increase, or by using up an iceberg clip), it stays in its queue and nobody gets in front of it, whatever happens to the other orders |
| TimePriority.StaysInFront | src/core/OrderBook.cpp:98-262 | of two orders of a queue, the one in front stays in front at every later point where both are in one queue, as long as it does not come to rest anew |
| TimePriority.RestRank | src/core/OrderBook.cpp:220-244 | an order coming to rest is the last of its queue and passes nobody |
| TimePriority.RemoveRestingRank | src/core/OrderBook.cpp:246-262 | a used-up resting order passes nobody when it leaves, and with a new clip is the last of its queue |
| TimePriority.AddedIsLast | src/core/OrderBook.cpp:49-92 | an added order that stays on the book is the last of its queue |
| TimePriority.ReenteredIsLast | src/core/OrderBook.cpp:169-191 | so is an order after a change of price or an increase of quantity |
| TimePriority.SortedByEntry | src/core/OrderBook.cpp:220-262 | after any run from the empty book, each queue is sorted by the entry times that the naive book stamps on its orders during the same run |
| TimePriority.ShrinkKeepsQueues | src/core/OrderBook.cpp:156-167 | a same-price modification to no more quantity leaves every queue as it was |
| TimePriority.CancelKeepsOrder | src/core/OrderBook.cpp:98-134 | cancelling takes exactly that order out of its queue, if it is in one, and leaves all others in order |
| Listing.HasFlat | src/core/OrderBook.cpp:344-399 | every book that satisfies the invariant, reachable or not, has a naive flat list behind it |
| Conservation.StepTotal | src/core/OrderBook.cpp:370-391 | a round takes its traded quantity off what is left of the resting order and nothing else |
| Conservation.LoopConserves | src/core/OrderBook.cpp:349-392 | one match fills the incoming order, drains the reachable orders and logs trades by the same amount: min(pending, what remains in reach, hidden quantity included) |
| Conservation.LoopPerOrder | src/core/OrderBook.cpp:349-392 | order by order, what a resting order loses is what the trades against it report |
| Conservation.LoopWorsens | src/core/OrderBook.cpp:349-392 | trade prices within a match never get better again |
| BookTotals.ReachIsTotal | src/core/OrderBook.cpp:269-287 | counting by level and counting by order give the same amount in reach |
| BookTotals.LoopTrades | src/core/OrderBook.cpp:349-392 | one match fills the incoming order by exactly min(pending, remaining quantity in reach), logs that much, and takes it off what is in reach |
| BookTotals.AddTrades | src/core/OrderBook.cpp:49-92 | an added order of any type trades exactly min(what it works, remaining quantity in reach), that much leaves the orders in its reach, and it stays exactly when it may rest and was not filled: then its record is the one that came, less what it traded, with a display quantity given or all it came with |
| BookTotals.ModifyTrades | src/core/OrderBook.cpp:136-191 | the same for a modified order that is matched again, with the new price and quantity and all else as it was: what it works is told from quantity, filled and display; any other modification trades nothing |
| BookTotals.AddWorsens | src/core/OrderBook.cpp:344-399 | the trade log is only extended, by prices that get worse from one to the next |
| BookTotals.ModifyWorsens | src/core/OrderBook.cpp:136-191 | the same for a modification |
| BookTotals.RejectedLeavesNoTrace | src/core/OrderBook.cpp:75-82 | a rejected fill-or-kill order leaves the book identical |
| Outcomes.CancelOutcome | src/core/OrderBook.cpp:98-134 | yes exactly for a live order, which is gone from store and index; a dropped order loses its index entry but stays stored; no other order, entry or trade changes |
| Outcomes.ModifyOutcome | src/core/OrderBook.cpp:136-191 | every branch: nothing for unknown orders, gone levels and refused quantities; resized in place with all queues equal; lost when a re-entering order is refused; otherwise traded and rested exactly as the resized order |
| Outcomes.IcebergDisplay | src/core/OrderBook.cpp:330-335 | an added iceberg that rests has the display quantity it was given, or its whole quantity, and shows one clip; after any later quantity it still has that display and shows one clip of the new rest |
| Outcomes.AddReports | src/core/OrderBook.cpp:344-392 | every trade an added order reports is its own, with an order that was live before, at that order's price, within the limit of the new one, positive, and for no more than that order has left or than one clip |
| Outcomes.ModifyReports | src/core/OrderBook.cpp:136-191 | the same for a modification, with the new price as the limit; only an order that enters anew reports any trade |
| Clips.ReachableIsUsed | src/core/OrderBook.cpp:156-167 | in every reachable book only the first order of a queue can have a partly used clip |
| Depths.FillDepth | src/core/PriceLevel.cpp:74-80 | a fill keeps every depth equal to what its orders show |
| Depths.UnqueueDepth | src/core/PriceLevel.cpp:37-42 | a leaving order takes exactly what it shows off the depth |
| Depths.RestDepth | src/core/PriceLevel.cpp:24 | a resting order keeps depths exact if and only if the level's sum stays below 2^32 |
| Depths.InPlaceDepth | src/core/OrderBook.cpp:156-167 | modifying in place keeps depths exact if and only if a queued order does not come to show more (for a dropped order: there is nothing to take off) |
| Depths.RemoveRestingDepth | src/core/OrderBook.cpp:246-262 | a resting order that gives way keeps depths exact if and only if it has nothing hidden or its next clip does not bring the level to 2^32 |
| Depths.MatchStepDepth | src/core/OrderBook.cpp:370-391 | a round of a match keeps depths exact if and only if the next clip of its resting order, if the round puts one back, fits the level |
| Depths.EndsTooSmall | src/core/OrderBook.cpp:349-392 | a depth that an overflow has made too small stays too small until the end of the match |
| DepthRuns.MatchLoopDepth | src/core/OrderBook.cpp:349-392 | where only heads of queues have partly used clips, a match keeps depths exact if and only if there is no level within the limit whose first clip it uses up and whose next clip overflows it: told from the quantity ahead of the level, the clip and the level's sum beforehand |
| DepthRuns.ExecuteDepth | src/core/OrderBook.cpp:344-399 | matching and resting keep depths exact if and only if neither a clip put back nor what comes to rest overflows its level |
| DepthRuns.AddDepth | src/core/OrderBook.cpp:49-92 | the same condition, if and only if, for adding an order of any type |
| DepthRuns.ReenterDepth | src/core/OrderBook.cpp:169-191 | and for an order that is processed anew after a modification |
| DepthRuns.ReachableDepth | src/core/OrderBook.cpp:49-191 | in every reachable book with exact depths, every operation keeps them exact if and only if it is careful: a guard read off the book before the call |
| DepthRuns.ExactThroughout | src/core/OrderBook.cpp:49-191 | a run keeps every depth exact throughout if and only if each of its operations is careful when it comes |
| DepthRuns.ExactOverRuns | src/core/OrderBook.cpp:49-191 | after a run of careful operations every depth is exactly what its orders show |
| FillOrKill.LiquidityWraps | src/core/OrderBook.cpp:269-297 | the found liquidity is the sum of the depths in reach modulo 2^32 |
| FillOrKill.DepthIsShown | src/core/OrderBook.cpp:269-297 | the depths in reach never sum to more than what is shown there, and to as much if and only if each is exact |
| FillOrKill.AllOrNothing | src/core/OrderBook.cpp:75-82 | in every book that satisfies the invariant a fill-or-kill order trades its whole quantity or leaves the book identical |
| FillOrKill.AcceptedExactlyWhen | src/core/OrderBook.cpp:337-342 | it is accepted if and only if the depths in reach, modulo 2^32, cover it, and only if enough is shown; it is rejected although enough is shown only if that sum overflows or some depth in reach is too small |
| Retention.RetainsExactlyWhen | src/core/PriceRingBuffer.cpp:135-258 | taking in a price drops no level if and only if the distances between window start, best price and new price leave all resting prices covered |
| Retention.CloseRetains | src/core/PriceRingBuffer.cpp:175-258 | levels and price within half a window of each other: nothing is dropped |
| Retention.RestLive | src/core/OrderBook.cpp:220-244 | resting leaves no index entry stale if and only if it drops no level |
| Retention.AddLive | src/core/OrderBook.cpp:49-92 | adding an order forgets no other one if and only if it does not come to rest (it trades all it works, or may not rest) or the window, by the distances, still covers all resting prices |
| Retention.ReenterLive | src/core/OrderBook.cpp:169-191 | the same for an order that is processed anew after a modification, looking at the prices of the other orders of its side |
| Retention.ApplyLive | src/core/OrderBook.cpp:49-191 | from a state without stale orders, an operation leaves none if and only if that guard holds before it |
| Forgetting.StaysLive | src/core/OrderBook.cpp:49-191 | in any book that satisfies the invariant, an operation on other orders leaves a live order live if and only if it does not fill it away and, should an order come to rest on its side, its price is still covered by the distances |
| Retention.NothingStaleOverRuns | src/core/OrderBook.cpp:49-191 | runs that drop no level never have a stale order |
| Retention.SameOrdersEverywhere | src/core/OrderBook.cpp:246-267 | then store, index and queues hold exactly the same ids |
| OrderHistory.ClipsAddUp | src/core/OrderBook.cpp:246-262 | over every run, also one that drops levels, an order nobody adds, modifies or cancels loses exactly what the trades against it report: when it is gone, an iceberg's clips have summed to what it had left |
| OrderHistory.TermsOverRuns | src/core/OrderBook.cpp:49-191 | over every run that is not about an order it keeps side, price, total, display quantity and kind for as long as it is stored, and what is filled of it only grows |
| Examples.DistantBidForgets | src/core/PriceRingBuffer.cpp:239-243 | any two bids a whole window or more apart: the first one stays stored and indexed but is on no queue |
| Examples.OverflowLosesDepth | src/core/PriceLevel.cpp:24 | any two limit orders at one price that together show 2^32 or more: the depth of their level wraps around |
| Examples.RefillLosesDepth | src/core/OrderBook.cpp:255-259 | a partly taken iceberg, an ask behind it, a bid for the rest of the clip: depths are exact until the last bid, nothing comes to rest with it, and the clip put back makes the depth wrap around |
| Examples.ShrunkIcebergLosesDepth | src/core/OrderBook.cpp:162-165 | a partly taken iceberg cut down at its price shows a refilled clip while its level keeps the smaller depth |
| Examples.ForgottenOrderLosesDepth | src/core/OrderBook.cpp:156-167 | a bid, a distant bid, a bid back at the first price: cutting down the forgotten first one lowers the depth of the third |
| Examples.OverflowRejects | src/core/OrderBook.cpp:269-297 | two asks at different prices that show 2^32 or more, all depths exact: a fill-or-kill bid for no more than that is rejected |
| Examples.ShrunkIcebergRejects | src/core/OrderBook.cpp:337-342 | after the iceberg was cut down, a fill-or-kill bid between the depth and what is shown is rejected |
| HeapMatcher.HitTakes | research/generate_trade_matching.py:28-37 | one row trades the smaller of its quantity and what is offered within its price |
| HeapMatcher.HitSweeps | research/generate_trade_matching.py:28-37 | at every price, what is offered up to there goes down by the traded quantity, or to nothing |
| HeapMatcher.RowTrades | research/generate_trade_matching.py:19-49 | one row trades min(its quantity, what the other side offers within its price), takes it from the front there and leaves its rest at its own price; a quantity that is not positive or another side changes nothing |
| HeapMatcher.MatchGroup | research/generate_trade_matching.py:13-49 | the nested loops compute exactly the row-by-row fold, and terminate |
| Agreement.LoopSweeps | src/core/OrderBook.cpp:349-392 | the book's match also takes from the front: the same law at every price |
| Agreement.MatchersAgree | research/generate_trade_matching.py:19-49 | after any run of limit orders that drops no level, book and research matcher have traded the same total and hold the same quantity at every price on both sides |
| Agreement.DepthsAgree | research/generate_trade_matching.py:19-49 | if what comes to rest overflows no level either, every level's running depth is the research matcher's quantity there |
| TradeCounts.LoopCounts | research/generate_trade_matching.py:25-33 | while no smaller order stands behind a larger one at its price, a match makes as many trades in the book as on the heap and leaves the same quotes |
| TradeCounts.CountsAgree | research/generate_trade_matching.py:19-49 | after any run of limit orders that drops no level and in which that always holds, both have made the same number of trades |
| MatchCounts.CountsAgreeExactlyWhen | research/generate_trade_matching.py:25-33 | from equal quotes, one match makes as many trades in the book as on the heap if and only if, at the last price it reaches, as many orders taken by age as taken by size cover what is still wanted there |
| Examples.TradeCountsDiffer | research/generate_trade_matching.py:28-37 | a larger ask, a smaller one behind it, a bid for the larger: over this run the book makes one trade and the research matcher two |
| SpscQueues.NextKeeps | include/boost/lockfree/spsc_queue.hpp:29-67 | every single step of either thread, with stale loads of the other's index, keeps the invariant |
| SpscQueues.RunsServe | include/boost/lockfree/spsc_queue.hpp:29-67 | a run pushes the values its push calls were given and pops as often as its pop calls went through |
| SpscQueues.EveryInterleaving | include/boost/lockfree/spsc_queue.hpp:29-67 | in every interleaving what has been pushed are exactly the values of the push calls that went through, in order, told from the steps; what was popped is a prefix of them, one by each pop that went through; at most the capacity is queued, and the slot written is never the slot read |
| SpscQueues.SeenBeforeAccess | include/boost/lockfree/spsc_queue.hpp:29-67 | each buffer access is preceded by a load that has seen the store handing that slot over |
| SpscQueues.RefusedExactlyWhen | include/boost/lockfree/spsc_queue.hpp:29-62 | a push is refused exactly when by its own view the queue is full, a pop exactly when it is empty |
| SpscQueues.ConsumerCounts | include/boost/lockfree/spsc_queue.hpp:39-46 | asked by the consumer, the answer is the number queued by what it has seen |
| SpscQueues.ProducerCounts | include/boost/lockfree/spsc_queue.hpp:39-46 | asked by the producer, the answer is the number queued by what it has seen |
| SpscQueues.SpscQueue.Push | include/boost/lockfree/spsc_queue.hpp:56-67 | a bounded queue: appended exactly when not full |
| SpscQueues.SpscQueue.Pop | include/boost/lockfree/spsc_queue.hpp:29-37 | the front value, exactly when there is one; otherwise nothing changes |
| SpscQueues.SpscQueue.ReadAvailableNow | include/boost/lockfree/spsc_queue.hpp:39-46 | the number of queued values |
| WireOrders.ValueOfDecimal | include/ingress/WireOrder.h:60-69 | a printed number reads back as itself |
| WireOrders.ReadPrinted | include/ingress/WireOrder.h:82-95 | the number reader returns every printed 64-bit number |
| WireOrders.ReadsNumeral | include/ingress/WireOrder.h:82-95 | a text of white space, perhaps a sign, digits and then no digit is read as what the digits say, negated modulo 2^64 after a minus sign, and not at all beyond 64 bits |
| WireOrders.ReadsOnlyNumerals | include/ingress/WireOrder.h:82-95 | nothing else is read as a number |
| WireOrders.NamesReadExactly | include/ingress/WireOrder.h:26-58 | a text is read as a side or a type if and only if it is what that side, BUY or SELL, or that type is printed as |
| WireOrders.SplitJoined | include/ingress/WireOrder.h:71-80 | fields without commas survive joining and splitting |
| WireOrders.SplitExactlyWhen | include/ingress/WireOrder.h:71-80 | a line has n fields if and only if it has at least n - 1 commas; joined they are the line, and only the last may hold commas |
| WireOrders.ParseWireOrder | include/ingress/WireOrder.h:71-100 | succeeds if and only if there are six commas or more, the third and sixth field are a printed BUY or SELL side and a printed type, and the other five start with a number; each part of the order is what its field says up to the first bad field, and as before from there on |
| WireOrders.RoundTrip | include/ingress/WireOrder.h:26-100 | a serialized order is parsed back to itself if and only if its side is BUY or SELL |
| WireOrders.PrintedApart | include/ingress/WireOrder.h:60-69 | serialization is injective |
| RBShapes.TurnedLeftKeeps | include/datastructures/RBTree.h:186-200 | a left rotation keeps search order and links in both directions |
| RBShapes.TurnedRightKeeps | include/datastructures/RBTree.h:202-215 | a right rotation keeps search order and links in both directions |
| RBShapes.LeafLeftKeeps | include/datastructures/RBTree.h:68-74 | a new leaf on an empty left side keeps search order and links |
| RBShapes.LeafRightKeeps | include/datastructures/RBTree.h:68-74 | a new leaf on an empty right side keeps search order and links |
| RBBalance.RecolorLeft | include/datastructures/RBTree.h:225-229 | with a red uncle, recolouring moves the only red-red edge up two levels and keeps all black counts |
| RBBalance.RecolorRight | include/datastructures/RBTree.h:242-246 | the same on the other side |
| RBBalance.InnerTurnLeft | include/datastructures/RBTree.h:231-235 | turning an inner red child outwards keeps black counts and the single red-red edge |
| RBBalance.InnerTurnRight | include/datastructures/RBTree.h:248-252 | the same on the other side |
| RBBalance.OuterTurnRight | include/datastructures/RBTree.h:236-238 | the last rotation leaves no red-red edge and equal black counts |
| RBBalance.OuterTurnLeft | include/datastructures/RBTree.h:253-255 | the same on the other side |
| RBBalance.BlackRoot | include/datastructures/RBTree.h:259 | blackening the root ends the repair in a balanced tree |
| RBBalance.SameBlacksDown | include/datastructures/RBTree.h:186-260 | in a balanced tree every way down from a node passes the same number of black nodes |
| RBBalance.WayIsShort | include/datastructures/RBTree.h:186-260 | so no way down is longer than twice that number, plus one below a red node |
| RBErase.ErasedNoLeftKeeps | include/datastructures/RBTree.h:278-280 | splicing out a node without left child keeps search order and links |
| RBErase.ErasedNoRightKeeps | include/datastructures/RBTree.h:281-283 | splicing out a node without right child keeps search order and links |
| RBErase.ErasedBothKeeps | include/datastructures/RBTree.h:284-299 | replacing a node by its successor keeps search order and links |
| RBEraseBalance.NoLeftBlack | include/datastructures/RBTree.h:278-280 | when a black node without left child goes from a balanced tree, what moves up is missing or red, and no counts balance what is left, unless nothing is |
| RBEraseBalance.BothBlack | include/datastructures/RBTree.h:284-299 | the same when the black successor of a node with two children takes its place |
| RBEraseBalance.BothRed | include/datastructures/RBTree.h:284-299 | when the successor is red, what is left is balanced |
| RBEraseBalance.BlackLeafUnbalances | include/datastructures/RBTree.h:306-310 | a balanced tree of three black nodes, and what is left without one of its leaves: not balanced |
| RBEraseBalance.LeafLeavesLone | include/datastructures/RBTree.h:278-280 | an erased black leaf leaves a tree that is balanced but at its parent, which has lost a child |
| RBEraseBalance.NoLeftShort | include/datastructures/RBTree.h:278-303 | when that parent is erased next, its other child moves up one black node short: the case the repair is made for |
| RBRepairs.ShortageUp | include/datastructures/RBTree.h:330-337 | a black sibling without red child turns red, and the missing black node is then missing at the parent |
| RBRepairs.RedSiblingLeft | include/datastructures/RBTree.h:319-328 | a red sibling is turned up, and the short node gets a black one |
| RBRepairs.RedSiblingRight | include/datastructures/RBTree.h:319-328 | the same on the other side |
| RBRepairs.NearChildLeft | include/datastructures/RBTree.h:339-346 | with a red near and a black far child the sibling is turned, and the short node gets a black sibling with a red far child |
| RBRepairs.NearChildRight | include/datastructures/RBTree.h:347-355 | the same on the other side |
| RBRepairs.LastTurnLeft | include/datastructures/RBTree.h:357-368 | with a red far child, recolouring and turning the parent leave a balanced tree |
| RBRepairs.LastTurnRight | include/datastructures/RBTree.h:357-368 | the same on the other side |
| RBRepairs.ShortEnds | include/datastructures/RBTree.h:306-308 | at the root nothing is missing any more, and at a red node blackening it would mend the tree |
| RBTrees.RBTree.RotateLeft | include/datastructures/RBTree.h:186-200 | in place, the turned tree with all other nodes untouched |
| RBTrees.RBTree.RotateRight | include/datastructures/RBTree.h:202-215 | in place, the turned tree with all other nodes untouched |
| RBTrees.RBTree.FixInsert | include/datastructures/RBTree.h:217-260 | from any tree it ends, keeping order, links and entries; from a tree with one red-red edge it ends balanced |
| RBTrees.RBTree.Insert | include/datastructures/RBTree.h:52-79 | the finite map with the key set; true exactly for a new key; a balanced tree stays balanced |
| RBTrees.RBTree.Find | include/datastructures/RBTree.h:81-92 | the value of the key in the finite map, if any |
| RBTrees.RBTree.FindMin | include/datastructures/RBTree.h:102-105 | the value of the smallest key |
| RBTrees.RBTree.FindMax | include/datastructures/RBTree.h:107-110 | the value of the largest key |
| RBTrees.RBTree.InOrder | include/datastructures/RBTree.h:28-34 | exactly the entries of the finite map, in strictly ascending order of keys |
| RBTrees.RBTree.Unlink | include/datastructures/RBTree.h:273-300 | the node is gone, order, links and all other entries kept; handed back are the child that moves up and whether the removed colour was black, of the node itself or of its successor; a balanced tree is balanced again if red went, and otherwise what moved up is missing or red and no counts balance what is left |
| RBTrees.RBTree.FixDelete | include/datastructures/RBTree.h:306-370 | it ends and keeps order, links and entries, whatever the colours; started at a red node or at none it changes nothing; where only one subtree is one black node short it ends balanced, or with one red node that would have to be black |
| RBTrees.RBTree.Erase | include/datastructures/RBTree.h:94-100 | the finite map without the key; true exactly if it was there; a balanced tree can still be balanced if and only if the node that goes (the one with the key, or its successor when that has two children) is red or the last one; a tree out of balance only because the node that goes had lost a child comes out balanced, but for the colour of one red node at most |

## Left out

- The trade dispatch ring, its worker thread, listeners and observers (src/core/OrderBook.cpp:401-414, 529-560): a dispatched trade is an append to the trade log of the model.
- Sockets, epoll, multicast, the dispatcher loop, shared-memory snapshots and the terminal viewer: plumbing without effect on matching.
- Timestamps, logging, core affinity, `printBook`, `user_id_` and the last-trade accessors: no effect on matching state.
- `OrderBookManager`, `MemPool`, `LatencyStats`, configuration and command-line parsing: they would add only easy members.
- `StdMapSide` and the choice of side container: the model has the ring; the plain price-to-queue map that `StdMapSide` is appears as `PriceWindows.SideState`.
- The slot number `kInvalidSlot` is `None` in the model, so a vector of 2^64 - 1 nodes is not modelled; nor is running out of memory for the id-indexed vectors.
- Branches proved unreachable and therefore absent: the null returns of `ensureLevel` and `addOrder` (src/core/OrderBook.cpp:224-228 and 231-235), an empty best level (line 354), the exception of `OrderArena::require`, the default order type (src/core/OrderBook.cpp:87-89), and the second null sibling in `fixDelete` (include/datastructures/RBTree.h:345, 353).
- Order ids that are reused while stored, and the INVALID side, are outside what the book promises and are excluded for new orders.
- The key type of the red-black tree is a 64-bit price compared with less-than, and its values are numbers: the tree never looks into a value. A descending tree is the same tree over reversed keys.
- TradeCounts.CountsAgree: one direction, for whole runs; for one match `MatchCounts.CountsAgreeExactlyWhen` gives the exact condition.
- HeapMatcher.MatchGroup: a heap is its pairs in ascending order, because the heap operations are library code; reading and grouping the CSV file is left out.
- SpscQueues.EveryInterleaving: one producer and one consumer, with loads of the other index that may be stale but never go back; other weak-memory effects on the buffer are covered by the ordering proved in `SpscQueues.SeenBeforeAccess`.
- WireOrders.ParseWireOrder: `unsigned long` is taken to be 64 bits wide.
- Operations on prices in the naive book keep the price window of each side, since it decides which orders are forgotten; whether a fill-or-kill order is let through is decided by the book's depths and handed to the naive book.
