# A verified model of the lob matching engine

`lob` is a single-symbol limit order book: a price-time matcher over two flat arrays of price levels, with
occupancy bitmaps, cached best levels, intrusive FIFO lists, a slab of orders and an id index, plus a lock-free
inbound ring and a NASDAQ TotalView-ITCH 5.0 replay. This project models those parts in Dafny, in the form the
C++ gives them (classes over arrays, loops that update in place), and proves them against plain specifications.

`dafny verify dfyconfig.toml` checks everything.

## How it is organised

| file | what it holds |
|---|---|
| LobTypes.dfy | prices, quantities, requests and results, with their integer widths |
| NaiveBook.dfy | the specification: a book is two sequences of resting orders, best price first, oldest first |
| NaiveLaws.dfy | what the specification guarantees of one call: greedy matching, FOK, reports |
| NaiveRuns.dfy | what it guarantees over runs: never crossed, shares conserved, laws between operations |
| NaiveReports.dfy | what each call does and reports, field by field: trades, statuses, what rests and where |
| NaivePriority.dfy | time priority over runs: within a price, orders stand in the order of their arrival |
| NaiveQueries.dfy | what `top_n` shows of a sorted queue |
| Bitmap.dfy | 64-bit words as numbers with the C++ mask expressions, and the two-sided bitmap search |
| OrderStore.dfy | the slab's free list and the doubly linked level lists |
| OrderIdMap.dfy | the open-addressing id index, its coded erase, and the erase its comments describe |
| SplitMix.dfy | the source's own hash, and ids on which it collides |
| BookEdits.dfy | what each operation inserts into and erases from the id index, and when the coded erase loses nothing |
| BookRep.dfy, BookChanges.dfy, BookQueries.dfy, BookMatching.dfy | the engine's representation invariant, what each elementary change of it does to the book it stands for, what a walk over levels reads off it, and the matching loops step by step |
| OrderBook.dfy | the engine: every operation and query proved equal to the specification |
| EngineRuns.dfy | sessions of the engine from construction on, and those that go wrong as coded |
| SpscRing.dfy | the ring as a transition system of its two threads, and as a class |
| Itch.dfy | big-endian fields, messages, framing, and the parse loop |
| ItchWire.dfy | the bytes on the wire, codes and offsets written out: what the parser makes of any frame, where the encoding puts what |
| Replay.dfy | the tape handler, the tape as a plain fold, and bytes to book |
| ReplayLaws.dfy | the symbol followed, the counters, prices in ticks, and the tape as a map from references to orders |
| Histogram.dfy | the latency histogram and its percentile scan |

The centre is a simulation. `OrderBook.Abs()` reads the abstract book off the arrays; each method's `ensures` equates the new
abstract book, the result and the trades with the specification function applied to the old one. `Kept()` states how slab,
lists, totals, bitmaps and best levels agree, `Sane()` adds that the id index stores the resting orders, and `Valid()` that
its searches find them. What a method answers needs `Valid()` before the call and nothing of the erases it makes; the ghost
parameters `more` and `safe` say which erases leave the engine valid for the calls to come. What the engine is for is then proved of the specification.

The specification is itself held to account: NaiveReports, ItchWire and ReplayLaws say what it means in terms of arguments,
fields and bytes, without the helper functions it is built from, so that a slip in one of those cannot pass unnoticed on
both sides of the simulation.

`Order*` is the index of a slab slot and `nullptr` is `NULL`, since every `Order*` comes from the slab. The trade sink is
the returned sequence of trades. The hash function is an arbitrary parameter, so the theorems hold for every hash; the source's
own (`SplitMix`) is used only to show that its ids collide.

## What the engine expects of its callers

* `base_price >= 0` (`-1` is the market marker of `can_fully_fill`, include/lob/order_book.hpp:272), fewer than 2^32 orders, and an
  index space below the last `size_t` value: `Config.Valid`.
* A real id (not 0) for `cancel`, `reduce`, `modify` and `find`: the id index tests `s.id == id` before testing for an empty
  slot (include/lob/order_id_map.hpp:53).
* A free slab slot when an order rests (include/lob/order_book.hpp:371-372): the book after the call has at most `max_orders` orders.
* A sink that does not call back into the book.
* ITCH frames no shorter than the fields read for their type: `Itch.Readable`.

## Where the code and its documentation differ

* `OrderIdMap::erase` stops at the first entry that sits in its home slot. That is right exactly when nobody behind it in the
  cluster probes through the hole (`Erase`, `EraseSafe`); clusters ordered by home slot suffice (`RobinHoodIsSafe`), but
  `insert` does not keep that order. Under any hash, three ids of which the first and the third share a home slot and the
  second lives next door lead to an erase that loses a key (`CodedEraseLosesAKey`, `EraseLosesAKey`); under the source's own
  hash ids 1, 17 and 11 are such ids (`SourceHashCollides`, `SourceTableLosesAKey`). The backshift its comment describes is
  `EraseRepaired`; where the coded erase is safe it leaves the same table. An index, and so an engine, is built with one of the
  two (`AsCoded`, `AsIntended`), and every theorem about the engine is about both. One operation on a valid engine is right
  with either erase (`Perform`), and with the intended one the engine is valid afterwards; with the coded one it is if the
  erases of the operation are safe. So runs are simulated with the intended erase always, with the coded one if all
  their erases are safe (`SafeEdits`). That condition is exact: the coded index keeps every resting order in sight throughout
  a run if and only if it holds (`CodedRunExactly`); it holds of every run in which no two resting ids share a home slot
  (`SpreadRunIsHarmless`). An engine that has lost sight of an entry answers wrongly for some resting order (`SaneNotValid`);
  `CodedEngineLosesAnOrder` is a session of three submits and two cancels in which it does, and `SourceEngineLosesAnOrder`
  is that session with the source's hash.
* The comment on growth (include/lob/order_id_map.hpp:17-19) describes a reallocation the code does not have; the book makes the
  table at least twice `max_orders` long instead.
* `Rejected` is documented as "before any side-effects" (include/lob/types.hpp:64). That holds of `submit`
  (`RejectedUnchanged`). A `modify` is rejected exactly when the id is unknown, the new quantity is zero or the new price is off
  the ladder, and in the last two cases it has cancelled the order by then (`RejectedModify`, `RejectedModifyCancels`).
* FOK is all or nothing always (`FokAllOrNothing`), but its pre-check adds level totals modulo 2^32, so it can be killed in front
  of enough liquidity (`FokKilledByOverflow`, on a book that `FokOverflowIsReached` submits); `CanFillExactly` gives the verdict on every queue.
* `percentile` is not monotone in the rank: the octave that straddles the end of the linear range reports 65536
  (`RanksInOrder` gives the exact condition, `ReportDrops` two samples).

## Model

| member | source | states |
|---|---|---|
| NaiveLaws.MatchShape | include/lob/order_book.hpp:303-368 | Matching consumes whole orders from the front, at most one more in part, emits for each the trade with its resting id, the aggressor's id, the resting price, time and side, in that order, leaves the exact suffix, and stops only when the quantity is used up or the next order is out of reach |
| NaiveLaws.MatchIsGreedy | include/lob/order_book.hpp:300-368 | On a sorted queue a match trades the smaller of the quantity and everything the limit reaches |
| NaiveLaws.MatchConserves | include/lob/order_book.hpp:325-342 | What the trades report left both the opposite queue and the aggressor |
| NaiveLaws.OutOfReach | include/lob/order_book.hpp:315-321 | On a sorted queue, an order out of reach at the front means every order is out of reach, so breaking off the walk misses nothing |
| NaiveLaws.CanFillIsSound | include/lob/order_book.hpp:271-298 | The FOK pre-check never says yes without enough reachable liquidity, whatever its 32-bit sums do |
| NaiveLaws.CanFillIsComplete | include/lob/order_book.hpp:271-298 | With reachable liquidity below 2^32 the pre-check says yes exactly when there is enough |
| NaiveLaws.CanFillExactly | include/lob/order_book.hpp:277-283 | On any queue: yes exactly when at the end of some reachable level the running total modulo 2^32 is at least the quantity |
| NaiveLaws.FokKilledByOverflow | include/lob/order_book.hpp:278-280 | A concrete book with 2^32 shares in reach whose wrapped level total gets an FOK for one share killed |
| NaiveRuns.FokOverflowIsReached | include/lob/order_book.hpp:136-143 | Three submits from the empty book end in the FOK order killed in front of 2^32 shares |
| NaiveLaws.FokAllOrNothing | include/lob/order_book.hpp:136-143 | An FOK order either trades every share at once or changes nothing and never rests; without overflow it is killed exactly when liquidity is short |
| NaiveLaws.SubmitReports | include/lob/types.hpp:55-77 | A submit that is not rejected has filled + remaining = quantity and filled equal to the sum of its trades; full, partial, accepted and cancelled are told apart by quantities, type, time in force, the FOK pre-check and the front of the other side, all written out |
| NaiveLaws.RejectedUnchanged | include/lob/order_book.hpp:120-134 | Rejected exactly for quantity 0, id 0, an id that rests, or a limit order off the ladder, market orders having no price; then no trade and an unchanged book |
| NaiveRuns.InsertPriority | include/lob/order_book.hpp:370-403 | A resting order stands behind exactly the orders at its price or better |
| NaiveRuns.InsertKeeps | include/lob/order_book.hpp:370-403 | Resting an order that reaches nobody keeps both queues sorted, ids unique and the book uncrossed |
| NaiveRuns.MatchKeeps | include/lob/order_book.hpp:303-368 | Matching keeps the book well formed, brings in no id at all, and a limit order with a remainder reaches nobody any more |
| NaiveRuns.SubmitKeeps | include/lob/order_book.hpp:117-186 | Every submit of every type and time in force keeps the book well formed and uncrossed |
| NaiveRuns.CancelKeeps | include/lob/order_book.hpp:189-196 | Cancel keeps the book well formed and the id is gone from both sides |
| NaiveRuns.ReduceKeeps | include/lob/order_book.hpp:203-215 | Reduce keeps the book well formed |
| NaiveRuns.ModifyKeeps | include/lob/order_book.hpp:221-243 | Modify keeps the book well formed and uncrossed |
| NaiveRuns.ReachableIsWellFormed | include/lob/order_book.hpp:109-243 | Over every run from the empty book both sides are sorted by price, ids are unique, sizes positive, and every bid is strictly below every ask |
| NaivePriority.ReachableIsInTimeOrder | include/lob/order_book.hpp:109-243 | Over every run from the empty book, on both sides, orders at one price stand in the order in which they last joined the back of a queue |
| NaivePriority.PriceTimePriority | include/lob/order_book.hpp:21 | Of two orders on one side of any reachable book the one in front has the better price, or the same price and the earlier arrival |
| NaivePriority.SubmitInTime | include/lob/order_book.hpp:117-186 | A submit keeps both sides in time order, its own remainder last at its price |
| NaivePriority.ModifyInTime | include/lob/order_book.hpp:217-243 | A modify keeps both sides in time order; in place it keeps the order's arrival, otherwise the order arrives anew |
| NaiveRuns.StepConserves | include/lob/order_book.hpp:117-243 | One operation: resting afterwards + 2 x traded + withdrawn = resting before + brought in |
| NaiveRuns.RunConserves | include/lob/order_book.hpp:109-243 | Over every run: submitted = 2 x traded + cancelled, reduced or dropped + still resting |
| NaiveRuns.AcceptedRests | include/lob/order_book.hpp:171-185 | Of an accepted order what is not filled rests on its side, under its id, at its price, if it is a limit order that is not IOC; otherwise nothing rests under the id and its side is unchanged |
| NaiveRuns.ModifyDownIsReduce | include/lob/order_book.hpp:229-236 | Lowering the quantity at the same price is a reduce by the difference, trades nothing and keeps every order's place |
| NaiveRuns.ModifyLosesPriority | include/lob/order_book.hpp:238-242 | Any other modify that meets nobody puts the order behind everyone at its price, same id and side |
| NaiveRuns.CancelUndoesSubmit | include/lob/order_book.hpp:181-196 | Cancelling a fresh order that met nobody gives back the same book |
| NaiveRuns.RejectedModify | include/lob/order_book.hpp:224-242 | A modify is rejected exactly when the id is unknown, the new quantity is zero or the price is off the ladder; it has then cancelled the order, so it changes the book exactly when it named a resting one |
| NaiveRuns.RejectedModifyCancels | include/lob/order_book.hpp:238-242 | One resting order modified to quantity zero: rejected, and gone |
| NaiveReports.TradeFields | include/lob/order_book.hpp:325-333 | The j-th trade of a match is with the j-th order of the queue: its id as resting id, the aggressor's id, time and side, the resting price, and its size or what is still wanted |
| NaiveReports.SubmitTrades | include/lob/order_book.hpp:154-165 | The same of every trade of a submit, in terms of the request, and never beyond its limit |
| NaiveReports.SubmitConsumes | include/lob/order_book.hpp:303-368 | What a submit leaves of the other side: its queue without what the trades say; with a remainder, nobody it could trade with, and nobody at all for a market order |
| NaiveReports.SubmitStatus | include/lob/order_book.hpp:117-186 | On a well-formed book the status of every submit that is not rejected, from quantities, type, time in force and whether anyone is within the price |
| NaiveReports.SubmitRestsOrNot | include/lob/order_book.hpp:171-185 | Exactly when a remainder rests: then a lookup finds id, side, price and the reported remainder, behind exactly the orders at its price or better; else no lookup finds the id and its side is unchanged |
| NaiveReports.ModifyInPlace | include/lob/order_book.hpp:229-236 | At the same price and no larger quantity a modify sets that order's size in its place, answers Accepted, and changes nothing else |
| NaiveReports.ModifyTrades | include/lob/order_book.hpp:238-242 | Every trade of a modify carries the order's own id and side, the time of the call, the resting order's id and price, and is within the new price |
| NaiveReports.ModifyRests | include/lob/order_book.hpp:238-242 | A modify not done in place trades all it can up to the new price, reports it, and rests the remainder under its id, side and new price behind exactly the orders at that price or better |
| NaiveReports.LookupFinds | include/lob/order_book.hpp:76-78 | A lookup finds an order on a side exactly when it rests there under that id |
| NaiveReports.CancelExactly | include/lob/order_book.hpp:189-196 | Cancel takes out the order with the id, wherever it stands, and nothing else; false and no change if there is none |
| NaiveReports.ReduceExactly | include/lob/order_book.hpp:203-215 | Reduce lowers that order's size in its place, or takes it out when nothing would be left, and nothing else |
| NaiveReports.LookupAfterCancel | include/lob/order_book.hpp:189-196 | Afterwards the id finds nothing and every other id what it found |
| NaiveReports.LookupAfterReduce | include/lob/order_book.hpp:203-215 | Afterwards the id finds its order with what is left, and every other id what it found |
| NaiveReports.LookupAfterInsert | include/lob/order_book.hpp:370-403 | Afterwards the new id finds its order, and every other id what it found |
| NaiveReports.StepReplies | include/lob/order_book.hpp:117-243 | Cancel and reduce answer whether the id rested, submit and modify with their result, and only the latter two trade |
| NaiveReports.BestQuotes | include/lob/order_book.hpp:59-64 | The best bid is the highest bid price, the best ask the lowest ask price, and -1 stands for an empty side |
| OrderBooks.OrderBook.constructor | include/lob/order_book.hpp:48-55 | A new engine is valid, stands for the empty book and starts with an all-empty id index |
| OrderBooks.OrderBook.Submit | include/lob/order_book.hpp:117-186 | On a valid engine the specification's book, result and trades in the same order, for every type and time in force, whatever its erases do to the id index; right again if only the id index is not valid any more and the id can get in, as inside modify; keeps slab, lists, totals, bitmaps and best levels; valid afterwards if its erases are safe, as they are with the intended erase |
| OrderBooks.OrderBook.Screen | include/lob/order_book.hpp:120-150 | The checks before anything is touched end the call with the specification's result and an unchanged book, or leave a good request that is not killed and whose id the index can take |
| OrderBooks.OrderBook.Execute | include/lob/order_book.hpp:152-185 | What submit does after its checks: match, then report, drop or rest, whatever the erases do to the id index |
| OrderBooks.OrderBook.Aggress | include/lob/order_book.hpp:154-165 | The aggressive phase equals the recursive match of the specification, whatever the erases do to the id index, and erases exactly the ids it consumes; an order that crosses nothing leaves the id index alone |
| OrderBooks.OrderBook.MatchBuy | include/lob/order_book.hpp:303-368 | The ask walk leaves the specification's suffix, remainder and trades, limit or market, whatever the erases do to the id index, and leaves room in it for the aggressor |
| OrderBooks.OrderBook.MatchSell | include/lob/order_book.hpp:303-368 | The bid walk, with its special case at level 0, does the same |
| OrderBooks.OrderBook.FillBestAsk | include/lob/order_book.hpp:312-364 | One round of the outer loop on the asks: its trades followed by matching what it left is the whole match, and the best ask is right again |
| OrderBooks.OrderBook.FillBestBid | include/lob/order_book.hpp:312-364 | One round of the outer loop on the bids does the same |
| OrderBooks.OrderBook.FillLevel | include/lob/order_book.hpp:323-342 | The inner loop: what it traded followed by matching what it left is the whole match, and it leaves the level empty unless the aggressor is done, whatever the erases do to the id index |
| OrderBooks.OrderBook.FillOne | include/lob/order_book.hpp:326-341 | One fill: the front order of the opposite side shrinks or goes, everything else stays, whatever its erase does to the id index |
| OrderBooks.OrderBook.AfterAsks | include/lob/order_book.hpp:344-364 | An emptied ask level hands over to the next best level found in the bitmap |
| OrderBooks.OrderBook.AfterBids | include/lob/order_book.hpp:344-364 | An emptied bid level hands over to the next best level, or to none from level 0 |
| OrderBooks.OrderBook.Cancel | include/lob/order_book.hpp:189-196 | On a valid engine the specification's book and answer, with either id erase; valid afterwards exactly when a coded erase was safe; on an engine that lost sight of the id, false and no change |
| OrderBooks.OrderBook.Reduce | include/lob/order_book.hpp:203-215 | On a valid engine the specification's book and answer, with either id erase, removing the order when the reduction empties it; a reduction in place leaves the id index alone, a removal leaves it as cancel does; on an engine that lost sight of the id, false and no change |
| OrderBooks.OrderBook.Modify | include/lob/order_book.hpp:221-243 | On a valid engine the specification's book, result and trades, in place or as cancel and resubmit, whatever its erases do to the id index; valid afterwards if they are safe |
| OrderBooks.OrderBook.InsertResting | include/lob/order_book.hpp:370-403 | Slab, list, total, count, bitmap, best level and id index together insert the order at the back of its price |
| OrderBooks.OrderBook.RemoveBid | include/lob/order_book.hpp:405-430 | Unlinks from any position and keeps bitmap and best bid describing the bid queues |
| OrderBooks.OrderBook.RemoveAsk | include/lob/order_book.hpp:405-430 | Unlinks from any position and keeps bitmap and best ask describing the ask queues |
| OrderBooks.OrderBook.CanFullyFill | include/lob/order_book.hpp:271-298 | The walk over levels and 32-bit level totals gives the specification's per-order verdict |
| OrderBooks.OrderBook.CrossIs | include/lob/order_book.hpp:262-269 | For prices in range the test on cached best levels is the test on the best opposite order |
| OrderBooks.OrderBook.BestBid | include/lob/order_book.hpp:59-61 | The best bid price of the abstract book, or the invalid price |
| OrderBooks.OrderBook.BestAsk | include/lob/order_book.hpp:62-64 | The best ask price of the abstract book, or the invalid price |
| OrderBooks.OrderBook.TotalAt | include/lob/order_book.hpp:65-70 | The 32-bit sum of the sizes resting at a price, 0 outside the range |
| OrderBooks.OrderBook.OpenOrders | include/lob/order_book.hpp:71 | The number of resting orders |
| OrderBooks.OrderBook.Find | include/lob/order_book.hpp:76-78 | The resting order with an id, with its side, or none; on an engine that lost sight of the id, none |
| OrderBooks.OrderBook.TopN | include/lob/order_book.hpp:87-107 | The first n price levels, best first, with 32-bit totals and counts |
| NaiveQueries.TopNIsBestLevels | include/lob/order_book.hpp:86-107 | On a sorted side: the smaller of n and the number of distinct prices entries, each the 32-bit total and count at its price, prices strictly worsening, no better price skipped |
| OrderBooks.OrderBook.Perform | include/lob/order_book.hpp:109-243 | Any one operation on a valid engine gives the specification's reply, trades and book with either id erase, and a valid engine if its erases are safe |
| OrderBooks.OrderBook.PerformAll | include/lob/order_book.hpp:109-243 | Over every run within capacity the engine gives the specification's replies and trades and ends at its book: every such run with the intended id erase, those whose erases are all safe with the coded one |
| BookEdits.CodedRunExactly | include/lob/order_id_map.hpp:61-93 | The coded id index keeps every resting order in sight at every moment of a run if and only if every erase of the run is safe |
| BookEdits.SpreadRunIsHarmless | include/lob/order_id_map.hpp:80-89 | A run within capacity in which no two resting ids ever share a home slot loses no order, with either erase |
| BookEdits.RunLegal | include/lob/order_book.hpp:109-243 | Within capacity a run only inserts absent ids, with room for them, and only erases present ones |
| OrderBooks.NextPow2 | include/lob/order_book.hpp:432-436 | The least power of two that is at least n |
| OrderBooks.MakeIndex | include/lob/order_book.hpp:51 | The id index has as capacity the least power of two of at least 2 and twice max_orders, and starts empty |
| BookQueries.BestFacts | include/lob/order_book.hpp:445-446 | The cached best level is where the front order rests; there is none exactly when the side is empty |
| BookRep.Located | include/lob/order_book.hpp:76-78 | The id index answers every lookup in the abstract book: found orders with their side and content, and nothing else |
| BookChanges.ShrinkKeeps | include/lob/order_book.hpp:212-213 | Lowering one order's size and its level's total changes that order of the book and nothing else |
| BookChanges.DropKeeps | include/lob/order_book.hpp:405-430 | Taking the k-th order off a level, its id out of the index and its slot back keeps the invariant and removes exactly that order |
| BookChanges.AddKeeps | include/lob/order_book.hpp:370-403 | Appending an order to its level keeps the invariant and inserts it behind its price |
| EngineRuns.Session | include/lob/order_book.hpp:48-243 | A session from construction on simulates the specification, keeps price-time priority, ends uncrossed and conserves shares, with either id erase as for PerformAll |
| EngineRuns.SlotsSplit | include/lob/slab_allocator.hpp:57-71 | Every slot is on the free list, or live on the list its side and level name, which exists, and on no other; no list visits a slot twice |
| EngineRuns.InUseIsCounts | include/lob/slab_allocator.hpp:74 | in_use is the sum of all level counts |
| EngineRuns.BestLevelsApart | include/lob/order_book.hpp:152-185 | On a well-formed book the best bid index is strictly below the best ask index |
| EngineRuns.SaneNotValid | include/lob/order_id_map.hpp:49-57 | An engine whose index has lost sight of an entry has a resting order that find, and so cancel, does not find |
| EngineRuns.CodedEngineLosesAnOrder | include/lob/order_book.hpp:189-196 | As coded, for any configuration with room for three orders, any hash, any price in range and any three colliding ids: three submits, a cancel that succeeds, and a cancel of an order still resting that is refused |
| EngineRuns.SourceEngineLosesAnOrder | include/lob/order_id_map.hpp:108-113 | The same with the source's hash, room for four orders and ids 1, 17 and 11 |
| OrderIdMaps.OrderIdMap.Find | include/lob/order_id_map.hpp:49-57 | Returns the value stored for an id, or null; on a valid table it finds every stored id |
| OrderIdMaps.OrderIdMap.Insert | include/lob/order_id_map.hpp:33-47 | Puts a fresh id into the slot where its search stops and nowhere else, refuses a duplicate, and keeps every probe path occupied |
| OrderIdMaps.OrderIdMap.Erase | include/lob/order_id_map.hpp:61-93 | The coded erase removes the entry if its search finds it, leaves exactly the shifted table, and keeps a valid table valid if and only if no entry behind the final hole probes through it |
| OrderIdMaps.OrderIdMap.EraseRepaired | include/lob/order_id_map.hpp:59-71 | The erase the comments describe removes exactly that id and keeps every other one findable, for every hash; where the coded erase is safe it leaves the same table |
| OrderIdMaps.OrderIdMap.Remove | include/lob/order_id_map.hpp:61-93 | The erase of an index built as coded or as intended, with the condition under which the edits still to come stay safe |
| OrderIdMaps.OrderIdMap.PerformAll | tests/test_order_id_map.cpp:31-59 | A run of insert, find and erase answers as a finite map does: every run with the intended erase, every run whose erases are all safe with the coded one |
| OrderIdMaps.SafeExactly | include/lob/order_id_map.hpp:61-93 | Along any insertions of absent and erasures of present ids, the coded erase keeps every entry findable at every moment if and only if each erase is safe |
| OrderIdMaps.OrderIdMap.constructor | include/lob/order_id_map.hpp:27-31 | A new table is valid, empty and has the rounded-up power-of-two capacity |
| OrderIdMaps.StopDecides | include/lob/order_id_map.hpp:49-57 | Where the probe loop stops decides whether the id is findable |
| OrderIdMaps.ShiftReachable | include/lob/order_id_map.hpp:72-92 | After the coded shift every entry is reachable exactly when nobody in the rest of the cluster needs the hole |
| OrderIdMaps.ShiftEndUnique | include/lob/order_id_map.hpp:72-92 | The slot where the coded shift stops is determined by the table |
| OrderIdMaps.ErasedOnce | include/lob/order_id_map.hpp:72-92 | The table a coded erase leaves is determined by the table it met |
| OrderIdMaps.RobinHoodIsSafe | include/lob/order_id_map.hpp:80-89 | In clusters ordered by home slot the coded erase is always right |
| OrderIdMaps.SpreadIsSafe | include/lob/order_id_map.hpp:80-89 | Insertions of absent and erasures of present ids under which no two ids present ever share a home slot are safe for the coded erase |
| OrderIdMaps.InsertThenErase | include/lob/order_id_map.hpp:33-93 | Erasing a key right after inserting it restores the id column and all live entries |
| OrderIdMaps.InsertThenEraseIt | include/lob/order_id_map.hpp:33-93 | The two calls in a row, with the coded erase: the id column and all live entries are as they were |
| OrderIdMaps.CodedEraseLosesAKey | include/lob/order_id_map.hpp:84-89 | In an empty table of any size from four, under any hash, three ids of which the first and third share a home slot and the second lives next door, whatever the values: after the coded erase of the first the third is not found |
| OrderIdMaps.EraseLosesAKey | include/lob/order_id_map.hpp:84-89 | The same as calls, for any such hash, capacity and ids: three inserts, an erase, and a find that returns null for a stored key |
| SplitMix.SourceHashCollides | include/lob/order_id_map.hpp:108-113 | Under the source's 64-bit hash, in a table of eight, ids 1 and 11 have home slot 5 and id 17 has home slot 6 |
| SplitMix.SourceTableLosesAKey | include/lob/order_id_map.hpp:61-113 | A table of eight with the source's hash: insert 1, 17 and 11, erase 1, and find returns null for 11, which is stored |
| Words.RoundUpIsLeast | include/lob/order_id_map.hpp:115-118 | round_up_pow2 is the least power of two that is at least n and at least 2 |
| Words.MaskIsMasked | include/lob/order_id_map.hpp:35 | For a power-of-two capacity, x & (capacity - 1) is x modulo the capacity |
| Bitmaps.Bitmap.constructor | include/lob/bitmap.hpp:22-26 | A new bitmap has no member and room for every index |
| Bitmaps.Bitmap.Set | include/lob/bitmap.hpp:28-30 | Adds one index and no other |
| Bitmaps.Bitmap.Clear | include/lob/bitmap.hpp:32-34 | Removes one index and no other |
| Bitmaps.Bitmap.Test | include/lob/bitmap.hpp:36-38 | Whether an index is a member |
| Bitmaps.Bitmap.FindNextSet | include/lob/bitmap.hpp:41-50 | The least member at or above the argument, or none exactly when there is none |
| Bitmaps.Bitmap.FindPrevSet | include/lob/bitmap.hpp:53-75 | The greatest member at or below the argument, which may lie past the last word, or none exactly when there is none |
| Words.HighBits | include/lob/bitmap.hpp:44 | The mask expression keeps exactly the bits from a position up |
| Words.LowBits | include/lob/bitmap.hpp:66-69 | The mask expression keeps exactly the bits up to a position |
| OrderStore.SlabAllocator.constructor | include/lob/slab_allocator.hpp:29-43 | Every slot is free and will be handed out in ascending order |
| OrderStore.SlabAllocator.Allocate | include/lob/slab_allocator.hpp:57-63 | Hands out the first slot of the free list, or null and no change when it is empty |
| OrderStore.SlabAllocator.Deallocate | include/lob/slab_allocator.hpp:65-71 | The slot becomes the first of the free list; no other slot changes |
| OrderStore.PushBack | include/lob/intrusive_list.hpp:24-33 | The list becomes the old sequence followed by the node; only links of its nodes change |
| OrderStore.Unlink | include/lob/intrusive_list.hpp:37-45 | From any position exactly that node leaves and the order of the rest stays |
| SpscRings.AlwaysInv | include/lob/spsc_ring.hpp:40-63 | In every interleaving, with loads as stale as they may be, seen tail <= tail <= seen head <= head <= seen tail + capacity and the slots hold what is published and not consumed |
| SpscRings.Fifo | include/lob/spsc_ring.hpp:40-63 | At every point of every interleaving consumed followed by the occupied slots is what was published |
| SpscRings.NextKeeps | include/lob/spsc_ring.hpp:40-63 | Each step of either thread keeps the invariant |
| SpscRings.WriteIsApart | include/lob/spsc_ring.hpp:48 | Between its test and its publication a push writes a slot outside [tail, head), so never the one being read |
| SpscRings.RoomTest | include/lob/spsc_ring.hpp:44-46 | The full test on wrapped cursors compares true distances |
| SpscRings.DataTest | include/lob/spsc_ring.hpp:56-58 | The empty test on wrapped cursors compares true positions |
| SpscRings.PushFailsOnlyWhenFull | include/lob/spsc_ring.hpp:44-47 | After a refresh a push fails exactly when the loaded tail leaves no room; with a current load, exactly when the ring is full |
| SpscRings.PopFailsOnlyWhenEmpty | include/lob/spsc_ring.hpp:56-59 | After a refresh a pop fails exactly when the loaded head shows nothing new; with a current load, exactly when the ring is empty |
| SpscRings.SlotOfWrapped | include/lob/spsc_ring.hpp:48 | A cursor wrapped modulo 2^64 selects the slot of its unbounded position |
| SpscRings.SpscRing.TryPush | include/lob/spsc_ring.hpp:40-51 | Alone, appends unless the ring is full, and says which |
| SpscRings.SpscRing.TryPop | include/lob/spsc_ring.hpp:54-63 | Alone, takes the oldest element unless the ring is empty, and says which |
| SpscRings.PushSteps | include/lob/spsc_ring.hpp:40-51 | A push that sees room is its four steps in a row, keeps the invariant, and there was room |
| SpscRings.PushLooksAgain | include/lob/spsc_ring.hpp:44-47 | A push that sees no room, with a current load, sees none again exactly when the ring is full, and then its steps change nothing but what it has seen |
| SpscRings.PopSteps | include/lob/spsc_ring.hpp:54-63 | A pop that sees something is its four steps in a row, keeps the invariant, and reads the oldest element |
| SpscRings.PopLooksAgain | include/lob/spsc_ring.hpp:56-59 | A pop that sees nothing, with a current load, sees nothing again exactly when the ring is empty, and then its steps change nothing but what it has seen |
| Itch.Be16Value | src/itch_parser.cpp:11-13 | The shift-and-or expression is the base-256 value of two bytes |
| Itch.Be32Value | src/itch_parser.cpp:15-18 | The same of four bytes |
| Itch.Be48Value | src/itch_parser.cpp:21-25 | The same of six bytes |
| Itch.Be64Value | src/itch_parser.cpp:27-31 | Two 32-bit halves combine to the 64-bit value |
| Itch.Field64 | src/itch_parser.cpp:27-31 | A big-endian field decodes to what was encoded, wherever it stands |
| Itch.DecodeBody | src/itch_parser.cpp:55-140 | Decoding the wire form of any well-formed message gives its event, ignored fields and trailing bytes notwithstanding |
| Itch.Parse | src/itch_parser.cpp:41-147 | The loop dispatches exactly the events of the stream's complete frames, in order, and returns their number |
| Itch.ParseStream | src/itch_parser.cpp:41-147 | Parsing the framed encoding of any well-formed messages yields exactly those messages |
| Itch.ParseConcat | src/itch_parser.cpp:45-144 | Parsing a whole-frame stream followed by another is one parse after the other |
| Itch.ParseTruncated | src/itch_parser.cpp:48 | A stream cut anywhere yields a prefix of its events |
| ItchWire.FieldsRead | src/itch_parser.cpp:11-31 | Every field the parser reads is the big-endian value of its bytes, by the plain base-256 recursion |
| ItchWire.BytesRead | src/itch_parser.cpp:53-139 | How many bytes are read of a body starting with each of the nine handled characters |
| ItchWire.DecodesOpening | src/itch_parser.cpp:56-86 | Any body starting with 'S', 'R', 'A' or 'F' becomes the event with the values of its bytes at the offsets written out; only 'B' is a buy |
| ItchWire.DecodesExecution | src/itch_parser.cpp:87-108 | The same of 'E' and 'C'; only 'Y' is printable |
| ItchWire.DecodesChange | src/itch_parser.cpp:109-136 | The same of 'X', 'D' and 'U' |
| ItchWire.DecodesOther | src/itch_parser.cpp:137-139 | Any other first byte becomes an unhandled event with that byte and the body's length |
| ItchWire.FrontFrame | src/itch_parser.cpp:45-50 | The front frame is the two-byte length, high byte first, and that many bytes |
| ItchWire.FrameLayout | include/lob/itch.hpp:18-21 | An encoded frame is the body's length, high byte first, and the body |
| ItchWire.SystemEventLayout | src/itch_parser.cpp:56-62 | Where each byte of an encoded system event stands |
| ItchWire.StockDirectoryLayout | src/itch_parser.cpp:63-71 | Where each byte of an encoded directory message stands |
| ItchWire.AddOrderLayout | src/itch_parser.cpp:72-86 | Where each byte of an encoded add stands; byte 19 is 0x42 exactly for a buy |
| ItchWire.OrderExecutedLayout | src/itch_parser.cpp:87-96 | Where each byte of an encoded execution stands |
| ItchWire.OrderExecutedWithPriceLayout | src/itch_parser.cpp:97-108 | Where each byte of an encoded execution with price stands; byte 31 is 0x59 exactly when printable |
| ItchWire.OrderCancelLayout | src/itch_parser.cpp:109-117 | Where each byte of an encoded cancel stands |
| ItchWire.OrderDeleteLayout | src/itch_parser.cpp:118-125 | Where each byte of an encoded delete stands |
| ItchWire.OrderReplaceLayout | src/itch_parser.cpp:126-136 | Where each byte of an encoded replacement stands |
| Replay.SymbolMatches | src/replay.cpp:88-95 | Whether eight bytes are the symbol padded with spaces |
| Replay.ReplayHandler.OnStockDirectory | src/replay.cpp:110-116 | The first matching directory message fixes the locate code |
| Replay.ReplayHandler.OnAddOrder | src/replay.cpp:118-128 | A GTC limit submit at the tick-divided price |
| Replay.ReplayHandler.OnOrderExecuted | src/replay.cpp:130-134 | A reduce by the executed shares |
| Replay.ReplayHandler.OnOrderExecutedWithPrice | src/replay.cpp:136-140 | A reduce by the executed shares |
| Replay.ReplayHandler.OnOrderCancel | src/replay.cpp:142-146 | A reduce by the cancelled shares |
| Replay.ReplayHandler.OnOrderDelete | src/replay.cpp:148-152 | A cancel |
| Replay.ReplayHandler.OnOrderReplace | src/replay.cpp:154-172 | A cancel and a GTC submit on the original's side, or a skip when the original is gone |
| Replay.ReplayHandler.ReplayTape | src/replay.cpp:240 | Parsing a file into the handler leaves the fold of its events |
| Replay.HandleIsPlain | src/replay.cpp:118-172 | On a message that finds nothing to cross the handler trades nothing and does the plain thing |
| Replay.TapeIsPlain | src/replay.cpp:110-172 | A tape that introduces each of the target symbol's references once and never crosses yields no trade and exactly the plain fold, arrival order included |
| Replay.TapeIsAffordable | src/replay.cpp:110-172 | Such a tape within the slab's size never leaves the engine's preconditions |
| Replay.BytesToBook | src/replay.cpp:225-240 | The framed encoding of such a tape, parsed and handled, gives the plain book of its messages |
| Replay.Reconstruct | src/replay.cpp:225-240 | The whole program from file bytes to the end-of-day book: new engine, new handler, parse; with the coded id erase, on tapes whose erases are all safe |
| ReplayLaws.EnginePriceIs | src/replay.cpp:120-121 | The engine price is the whole number of ticks in the feed price, the tick read as unsigned, wrapped to a signed 32-bit number only from 2^31 on |
| ReplayLaws.PriceInTicks | src/replay.cpp:120-121 | With a positive tick and a quotient below 2^31: price x tick is at most the feed price, and one tick more is above it |
| ReplayLaws.SymbolIsPadded | src/replay.cpp:88-95 | The wire symbol is the wanted one followed by spaces, cut to eight characters |
| ReplayLaws.FollowsFirst | src/replay.cpp:110-116 | Throughout any tape the locate followed is that of the first directory message with the symbol and a non-zero locate, and 0 before |
| ReplayLaws.CountersAreMessages | src/replay.cpp:118-172 | After any tape each counter is the number of the followed symbol's messages of its kind, a replacement counting as skipped exactly when its original does not rest |
| ReplayLaws.AddSubmits | src/replay.cpp:118-128 | On any book an add is the submit of a GTC limit order with its reference, side, shares, time and price in ticks, and trades as that does |
| ReplayLaws.ReplaceSubmits | src/replay.cpp:154-172 | On any book a replacement is a cancel and the submit of such an order on the original's side, or nothing |
| ReplayLaws.ShrinkingMessage | src/replay.cpp:130-152 | On any well-formed book an execution or cancel takes its shares off the order named, a delete takes the order out, every other reference finds what it found, and nothing trades |
| ReplayLaws.OtherMessage | src/replay.cpp:118-172 | Messages of other symbols leave the book alone |
| ReplayLaws.TapeIsOrders | src/replay.cpp:110-172 | After a tape that introduces each reference once and never crosses, the book holds exactly the orders of a finite map kept by reference alone: side, price in ticks, shares left |
| ReplayLaws.BytesToOrders | src/replay.cpp:225-240 | The same from the bytes of the framed encoding |
| Histogram.LatencyHistogram.constructor | include/lob/histogram.hpp:22-25 | Empty buckets and totals |
| Histogram.LatencyHistogram.Record | include/lob/histogram.hpp:27-42 | Every bucket, total, maximum and 64-bit sum describe the samples recorded so far, the new one included |
| Histogram.LatencyHistogram.Percentile | include/lob/histogram.hpp:51-69 | For rank k: the k-th smallest sample itself when below 100000, else the lower edge of its octave; 0 with no samples, the maximum past the last rank |
| Histogram.LatencyHistogram.BucketsSumToTotal | include/lob/histogram.hpp:27-42 | The bucket counts add up to total |
| Histogram.OctaveEdges | include/lob/histogram.hpp:31-36 | The shifting loop's bucket b holds 2^b up to 2^(b+1), the last one everything above |
| Histogram.KthBelow | include/lob/histogram.hpp:56-60 | A running count reaches rank k below y exactly when the k-th smallest sample is below y |
| Histogram.ReportsInOrder | include/lob/histogram.hpp:61-66 | Reports keep the samples' order except exactly where the octave at 65536 meets the linear range |
| Histogram.RanksInOrder | include/lob/histogram.hpp:51-69 | A higher rank never gets a lower report, except exactly when the lower rank's sample is a linear one above 65536 and the higher one's lies in the octave from there |
| Histogram.ReportDrops | include/lob/histogram.hpp:51-69 | Samples 70000 and 110000: rank 1 reports 70000, rank 2 reports 65536 |
| Histogram.ReportIs | include/lob/histogram.hpp:51-69 | What stands for a sample: itself below 100000, the power of two at or just below it up to 2^29, and 2^29 from there on |
| Histogram.LargestIs | include/lob/histogram.hpp:40 | The maximum is the greatest sample, 0 without any |

## Left out

- PerformAll: the operation that makes an unsafe coded erase is still right (`Perform`), and after it cancel, reduce and find answer by what the index finds and the queries that do not use the index stay right; whole runs are not followed past it.
- OnAddOrder, and every other handler of the replay: asks that the erases be safe, since the messages that follow need a valid engine.
- Erase: the coded erase is the source's; `EraseRepaired` is not in the source but in its comment, and an index built `AsIntended` is a repaired engine, not the coded one.
- Insert: a full table, on which the probe loops would not end, is excluded; the book's table is never more than half full.
- Submit: slab exhaustion (an assertion in the source) is excluded by a precondition on the book after the call; the sink is the returned sequence, so sinks that call back into the book are not modelled.
- Cancel: id 0, which the id index would answer with a stale empty slot, is excluded as it is for reduce, modify and find.
- Aggress: the post-only test of a market order reads an arbitrary price; both outcomes report the same, so only the result is modelled, and the signed 32-bit subtraction before the cast is taken as exact.
- PushBack: the list header lives in its price level's cell, as it does in the source, so the two list methods work on a level array rather than on a list object; `clear` is unused by the engine.
- AlwaysInv: the C++ memory model beyond monotone stale acquire loads, and the cache-line layout, are not modelled; neither is `size_approx`.
- Parse: frames shorter than the fields read for their type, on which the source would read past the frame, are excluded; the system-event and unhandled callbacks do nothing in the replay.
- ReplayHandler: latency histograms and clocks around each call, messages to stderr, and the CSV and snapshot files are not modelled; its counters are unbounded.
- Percentile: the rank is a parameter, since the source computes it as a floating-point product; `mean_ns` and the CSV output are omitted.
- Record: counters are unbounded rather than 64 bits wide.
- `MappedFile`, argument parsing, `clock.hpp`, benchmarks and scripts: input, output and timing with nothing to prove.
