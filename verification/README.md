# Verification of the Nanomatch order book, logger ring and ITCH replay

A model of the matching engine and its surroundings, with machine-checked proofs. `dafny verify dfyconfig.toml`
checks all of it.

## What is modelled

**The limit order book.** Class `OrderBooks.OrderBook` works the way `src/core/OrderBook.cpp` does: a slot pool with
an intrusive free list, per-price doubly linked lists threaded through the same slots, an open-addressed id table,
one bitmap per side, and a cached top of book, all updated in place. Its ghost function `View()` says what a client
can see: per side one queue of (id, quantity) per level, the cached best prices and quantities, the number of free
slots, the live-order counter, and the trades reported. Every public method is proved to turn `View()` into what a
function of module `BookSpec` says (`Insert`, `Market`, `Cancel`, `Execute`, `Reduce`, `Rebase`) and to keep the joint
invariant: free and queued slots partition the pool, every list is well formed, the id table maps exactly the resting
ids to their slots, a bitmap bit is set exactly when its level is occupied, and counts, volumes (modulo 2^32) and
prices of the levels are right. The promises of the book are then proved about those functions, for single
operations and for whole runs: exact quotes, an uncrossed book, price-time priority, conservation, composition of
partial fills, and refinement of the textbook `StlOrderBook`.

**The id table.** `ProbeTable` and `Backshift` state linear probing and backward-shift deletion on values; class
`IdTable.IdMap` runs the loops with masks and wrap-around. The deletion of the source is modelled as written, and
next to it the deletion that goes on past entries that may not move.

**The ring, the logger.** `Ring` is the two-thread protocol as a state machine: every load or store of an index, every
slot write and slot read is one step, and the steps interleave in any way. `Loggers` puts the enqueuing thread, the
worker and the starting and stopping thread on top of it. `SpscQueues.SPSCQueue` and `AsyncLoggers.AsyncLogger` are the
classes as one thread runs them.

**The ITCH replay.** `Itch` cuts a file into length-prefixed records and routes decoded messages (Add Order and
Modify Order messages of NASDAQ TotalView-ITCH 5.0, sections 1.3 and 1.4) through the owner map to one book per stock
locate. `ItchReplays.Parser` does so on `OrderBook` objects that share nothing, reached through a map of references, and
is proved to do to them what `Itch.Handle` says.

| files | content |
|---|---|
| Types, Bits, RoundUp, Bitmap | fixed-width values, bit operations, the smearing power of two, the level bitmap |
| ProbeTable, Backshift, TableRuns, IdMap | the id table |
| OrderPool, BookStore, StoreSteps, StoreView, StoreSlide, OrderBook | the pool, the joint invariant, each elementary change of the store, the class |
| BookSpec, BookIds, BookWf | what the operations do to the visible book, and what every book satisfies |
| Quotes, Priority, Forecast, StaleQuotes, QuoteQuantities, Totals, Ledger, BookRuns, ResetRuns, PartialFills, Windows, Uniques, Effects, Outcomes | the promises of the book |
| StlBook, Refinement, Engine | the textbook book, the refinement, the fold over records |
| Ring, SpscQueue, Logger, AsyncLogger | the ring and the logger |
| Itch, ItchReplay | framing and routing, the replay over book objects |

## What the proofs found

- The deletion of the id table stops at the first entry that may not move, which is right only for clusters in home
  order; insertion is plain linear probing and does not keep that order, although the header calls the table Robin
  Hood (`src/core/OrderBook.hpp:89`). `Backshift.EarlyStopExactIff` gives the exact condition,
  `Backshift.EarlyStopLosesKey` an input that fails: ids 7, 6 and 15 in a book for four orders. The book is therefore
  verified with `EraseCompacting`; wherever the early stop is safe the two leave the same table
  (`Backshift.SafeIffSameTable`), and a removal with the loop as written leaves the book's structures in agreement
  exactly then (`OrderBooks.OrderBook.RemoveSlotAsWritten`). Over a run of the table, every id stays findable if and
  only if every deletion stops safely (`TableRuns.RunFindableIff`).
- Re-basing rescans the top of book from indices that belong to the old window. `Quotes.RebaseSharpIff` gives the exact
  condition under which the result is still right. An insertion has exact quotes afterwards if and only if its re-base
  meets the condition (`StaleQuotes.InsertSharpIff`), and all states of a run do if and only if every re-base of the
  run does (`BookRuns.RunSharpIff`), which holds in particular when prices stay in the window. An unsafe re-base
  crosses the book exactly when the order it was made for rests opposite to the side left behind, which can be told
  before the call (`StaleQuotes.InsertCrossesIff`, `Forecasts.InsertRestsIff`); `BookRuns.UnsafeRunCrosses` is such a run of two orders. Forgetting both bests
  before the rescan would make every run exact: `ResetRuns.ResetNeverCrosses`.
- Price-time priority depends on the same quotes: matching against a side honours it, for all takers, if and only if
  the cached best of that side is exact (`Priority.PriorityIff`).
- Joining the current best level does not refresh its cached quantity: `QuoteQuantities.RestStaleIff`. What always holds
  is that the cached quantity is at most the level's volume.
- Cancelling does not count the order off: `BookRuns.CounterIsOrdersPlusCancels`; after more than 64 cancellations
  re-basing is over for good: `BookRuns.CancelsEndBootstrap`.
- An ITCH body is bounds-checked against the end of the file, not of its record. `Itch.OwnRecordIff` says exactly when
  the message read is still the record's own, `Itch.BodyFromNextRecord` gives records for which it is not, and on files
  of complete records it always is (`Itch.MessagesOfEncoded`).

## Model

| member | source | states |
|---|---|---|
| OrderBooks.OrderBook.constructor | src/core/OrderBook.cpp:17-33 | A new book is empty and unanchored, every slot is free, all five structures agree, and the id table has the least power of two of entries from twice the slots on |
| OrderBooks.OrderBook.InsertLimitOrder | src/core/OrderBook.cpp:250-348 | For an id that is not resting, the pool, lists, bitmaps, id table and top of book end up showing exactly the book `Insert` gives, the flag is its flag, and the joint invariant holds again |
| OrderBooks.OrderBook.MatchAndRest | src/core/OrderBook.cpp:288-347 | Matching up to the order's own level and resting the remainder, on the concrete structures, is `InsertAt` |
| OrderBooks.OrderBook.MatchAgainstAsks | src/core/OrderBook.cpp:165-204 | The nested loop that frees slots while walking the list is the fill-by-fill `Sweep` of the ask side; it ends on (resting orders, remaining quantity) |
| OrderBooks.OrderBook.MatchAgainstBids | src/core/OrderBook.cpp:206-246 | The same for the bid side |
| OrderBooks.OrderBook.DrainLevel | src/core/OrderBook.cpp:172-194 | The inner loop over one level stays on the course of the sweep although the best is refreshed only after it |
| OrderBooks.OrderBook.ProcessMarketOrder | src/core/OrderBook.cpp:480-488 | A market order is a sweep of the whole opposite side |
| OrderBooks.OrderBook.CancelOrder | src/core/OrderBook.cpp:454-478 | Cancelling takes exactly that order out, whatever its place in the list, and changes nothing for an unknown id |
| OrderBooks.OrderBook.ExecuteOrder | src/core/OrderBook.cpp:492-533 | An external execution lowers or removes exactly that order, reports it at its absolute price and counts it off only when it leaves |
| OrderBooks.OrderBook.ReduceOrderQty | src/core/OrderBook.cpp:535-558 | A reduction lowers the order in place, or cancels it when nothing would be left |
| OrderBooks.OrderBook.RebaseBase | src/core/OrderBook.cpp:350-452 | The verbatim re-basing loops, moving or dropping list by list, compute `Rebase`, stale rescan included, and restore the joint invariant |
| OrderBooks.OrderBook.MoveLevel | src/core/OrderBook.cpp:377-399 | Re-linking a level node by node rebuilds the very same level record, with every order re-priced |
| OrderBooks.OrderBook.DropLevel | src/core/OrderBook.cpp:366-375 | Dropping a level frees and unmaps each of its orders once, and nothing else |
| OrderBooks.OrderBook.MoveSide | src/core/OrderBook.cpp:360-403 | One side's loop keeps the levels of the new window, drops the others, and counts what it dropped |
| OrderBooks.OrderBook.LevelAppend | src/core/OrderBook.cpp:37-61 | The slot in hand joins its level's queue in last place, and free list, linked lists, bitmap, counts and volumes agree with the queues again |
| StoreSteps.AppendedOk | src/core/OrderBook.cpp:37-61 | The writes of level_append turn a store with one slot in hand into one where every slot is free or queued once and every list, bitmap bit, count and volume matches its queue |
| StoreSteps.AppendedBitmap | src/core/OrderBook.cpp:46-53 | After level_append a bitmap bit is set exactly when its level's queue is not empty |
| OrderBooks.OrderBook.LevelRemove | src/core/OrderBook.cpp:63-91 | Unlinking the slot at any position leaves the queue without that position, the slot in hand, and all structures in agreement with the queues |
| StoreSteps.UnlinkedOk | src/core/OrderBook.cpp:63-91 | The writes of level_remove, at the head, the tail or in between, leave every list, bitmap bit, count and volume matching its queue and only the unlinked slot neither free nor queued |
| StoreSteps.UnlinkedBitmap | src/core/OrderBook.cpp:81-87 | After level_remove a bitmap bit is set exactly when its level's queue is not empty |
| OrderBooks.OrderBook.UpdateBestBid | src/core/OrderBook.cpp:133-144 | The bitmap scan yields the first occupied level at or below the cached best, with its volume |
| OrderBooks.OrderBook.UpdateBestAsk | src/core/OrderBook.cpp:146-157 | The bitmap scan yields the first occupied level at or above the cached best, with its volume |
| OrderBooks.OrderBook.RemoveSlot | src/core/OrderBook.cpp:188-190 | level_remove, erase and deallocate together keep free list and queues a partition of the pool and the id table exact |
| OrderBooks.OrderBook.RemoveSlotAsWritten | src/core/OrderBook.cpp:188-190 | With the deletion loop of the source itself, the three steps leave all structures in agreement if and only if that loop stopped safely |
| OrderBooks.OrderBook.DropNodeAsWritten | src/core/OrderBook.cpp:366-374 | Dropping an order in a re-base with the deletion loop of the source itself keeps the account of slots, and leaves the id table exact if and only if that loop stopped safely |
| StoreView.RemovedOk | src/core/OrderBook.cpp:63-91 | The joint invariant survives the removal of any queued order |
| StoreView.RestedBook | src/core/OrderBook.cpp:295-311 | Taking a free slot, filling it in, pricing its level, queueing it and entering its id keeps the joint invariant and shows as one more order, last in its level |
| StoreSteps.ShrunkOk | src/core/OrderBook.cpp:184-185 | Lowering an order and its level's volume together keeps the joint invariant |
| StoreView.LocateStored | src/core/OrderBook.cpp:454-461 | The id table finds exactly the resting ids, each in the slot queued at the place where the book shows it |
| StoreView.BitmapScanIs | src/core/OrderBook.cpp:93-124 | What the word-wise bitmap scan reports is what walking the levels one by one reports |
| StoreView.SoundIsUnique | src/core/OrderBook.hpp:102-118 | Under the joint invariant no id rests twice |
| StoreView.IdRoom | src/core/OrderBook.cpp:19-20 | While a slot is free the id table holds fewer ids than the pool has slots, so probing always meets an EMPTY slot |
| StoreSlide.SlidSound | src/core/OrderBook.cpp:350-446 | After all levels have been moved or dropped the store satisfies the joint invariant at the new base and shows the old levels shifted |
| StoreSlide.RelinkStep | src/core/OrderBook.cpp:386-397 | Re-linking a list in its own order only restores the link that the turn before cut |
| StoreSlide.DropStep | src/core/OrderBook.cpp:366-374 | Dropping one order keeps the account of which slots are free, moved or waiting, and which ids are mapped |
| Pool.OrderPool.Allocate | src/core/OrderBook.hpp:51-58 | Allocation pops the free list, or reports exhaustion exactly when it is empty |
| Pool.OrderPool.Deallocate | src/core/OrderBook.hpp:60-63 | Deallocation pushes the slot; the free list stays acyclic |
| Pool.FullChain | src/core/OrderBook.hpp:39-43 | The constructor's links form one chain through all slots |
| Bitmap.FindPrevSetBit | src/core/OrderBook.cpp:93-107 | Exactly the greatest set bit at or below the start, or UINT32_MAX when there is none |
| Bitmap.FindNextSetBit | src/core/OrderBook.cpp:109-124 | Exactly the least set bit at or above the start, or UINT32_MAX when there is none |
| Bitmap.SetBit | src/core/OrderBook.cpp:46-53 | Setting a level's bit in the word vector changes that bit only |
| Bitmap.ClearBit | src/core/OrderBook.cpp:81-87 | Clearing a level's bit in the word vector changes that bit only |
| RoundUp.RoundUpPow2 | src/core/OrderBook.cpp:6-15 | Bit smearing yields the least power of two at or above v for v up to 2^31, and wraps to 0 beyond |
| RoundUp.SmearDoubles | src/core/OrderBook.cpp:9-13 | Each smearing step doubles the run of ones under the top bit |
| IdTable.IdMap.Insert | src/core/OrderBook.hpp:102-109 | Probing ends and the table stores the finite map with the key added |
| IdTable.IdMap.Find | src/core/OrderBook.hpp:111-118 | Probing ends and returns the mapped slot, or EMPTY exactly for keys that are not in the map |
| IdTable.IdMap.Erase | src/core/OrderBook.hpp:120-142 | The verbatim deletion: the table it leaves is exact if and only if the shift stopped safely |
| IdTable.IdMap.EraseCompacting | src/core/OrderBook.hpp:120-142 | Deletion that shifts on past entries it may not move: always removes exactly the key, also across the end of the table |
| ProbeTable.LookupIsMap | src/core/OrderBook.hpp:111-118 | With unbroken probe paths and distinct keys, lookup is the finite map |
| ProbeTable.InsertKeeps | src/core/OrderBook.hpp:102-109 | Insertion keeps every probe path unbroken and leaves an EMPTY slot |
| Backshift.CompactingDeleteExact | src/core/OrderBook.hpp:128-141 | Back-shifting to the end of the cluster leaves every other key findable, including clusters that wrap around |
| Backshift.EarlyStopExactIff | src/core/OrderBook.hpp:128-141 | Stopping at the first immovable entry is exact if and only if no entry beyond the final hole was displaced past it; otherwise some other key changes its lookup |
| Backshift.SafeIffSameTable | src/core/OrderBook.hpp:128-141 | The two deletions leave the same table exactly when the early stop is safe |
| TableRuns.RunFindableIff | src/core/OrderBook.hpp:102-142 | Through a whole run of insertions and deletions as written, looking up every id gives what the finite map says at each point if and only if every deletion of the run stops safely |
| Backshift.SortedStopsSafely | src/core/OrderBook.hpp:89-90 | In clusters sorted by home slot, the Robin Hood order the header names, the early stop is always safe |
| Backshift.SortedPreserved | src/core/OrderBook.hpp:120-142 | The verbatim deletion keeps clusters sorted by home slot |
| Backshift.EarlyStopLosesKey | src/core/OrderBook.hpp:120-166 | Ids 7, 6, 15 in the eight slots of a book for four orders: under the hash of the source their homes are 0, 1, 0, and erasing id 7 makes id 15 unfindable |
| BookWf.ScanFindsFirst | src/core/OrderBook.cpp:126-157 | The outward scan finds the first occupied level from its start, and none when there is none |
| BookWf.SweepWf | src/core/OrderBook.cpp:165-246 | Matching keeps the book well-formed and leaves the taker's own side, its best and its quantity alone |
| Quotes.UpdateBestExactIff | src/core/OrderBook.cpp:133-157 | Scanning from the cached best is exact if and only if nothing rests on its inward side |
| Quotes.SweepSharp | src/core/OrderBook.cpp:165-246 | Matching keeps both bests exact and the book uncrossed |
| Quotes.SweepExhausts | src/core/OrderBook.cpp:165-246 | On a side whose best is exact, an unfilled remainder means that no level within the limit holds an order any more |
| StaleQuotes.InsertSharpIff | src/core/OrderBook.cpp:250-348 | An insertion keeps both bests exact and the book uncrossed if and only if the re-base it triggers, if any, is safe |
| StaleQuotes.InsertCrossesIff | src/core/OrderBook.cpp:261-283 | An insertion crosses the book exactly when its re-base is unsafe, the order is a sell below the old window or a buy above it, it wants more than the quotes show within its limit, and the pool is not full or it trades at once |
| Forecasts.InsertRestsIff | src/core/OrderBook.cpp:261-347 | Whether an insertion rests can be told before the call, in every well-formed book: the price will be in band, the quantity exceeds what is quoted within the limit, and the pool is not full or the order trades at once |
| Forecasts.SweepLeaves | src/core/OrderBook.cpp:165-246 | A match leaves exactly the quantity that exceeds what rests within the limit from the cached best outward, exact or not |
| Forecasts.RoomIff | src/core/OrderBook.cpp:295-298 | What is left after a match finds a slot if and only if the pool was not full before it, or nothing was asked, or the order trades at once |
| StaleQuotes.InsertAtKeepsHidden | src/core/OrderBook.cpp:288-347 | A level hidden from the quotes in front of an order's own level stays hidden whether the order trades, rests or is dropped |
| Quotes.RestSharp | src/core/OrderBook.cpp:313-316 | Resting an order that nothing opposite can trade with keeps both bests exact and the book uncrossed |
| Quotes.CancelSharp | src/core/OrderBook.cpp:454-478 | Cancelling keeps both bests exact |
| Quotes.ExecuteSharp | src/core/OrderBook.cpp:492-533 | Executing keeps both bests exact |
| Quotes.ReduceSharp | src/core/OrderBook.cpp:535-558 | Reducing keeps both bests exact |
| Quotes.RebaseSharpIff | src/core/OrderBook.cpp:446-451 | Re-basing leaves both bests exact if and only if no kept level slid inward past its side's old best index |
| Quotes.SlideOutwardInSight | src/core/OrderBook.cpp:446-451 | That holds for bids whenever the base rises and for asks whenever it falls |
| Quotes.BestKeptInSightIff | src/core/OrderBook.cpp:446-451 | While the best price stays in the window, it holds only then |
| Quotes.RebaseIsResetIff | src/core/OrderBook.cpp:446-451 | The source's re-base equals the one that forgets both bests first exactly under that condition |
| Quotes.RebaseResetSharp | src/core/OrderBook.cpp:446-451 | Forgetting both bests before the rescan makes re-basing exact without condition |
| QuoteQuantities.RestStaleIff | src/core/OrderBook.cpp:313-316 | Resting leaves the cached quantity out of date exactly when the order joins the current best level |
| QuoteQuantities.SweepQuantity | src/core/OrderBook.cpp:196-200 | Cached quantities never exceed the level, and a match that trades leaves the matched side's quantity current |
| QuoteQuantities.CancelQuantity | src/core/OrderBook.cpp:467-477 | A cancellation at the best level leaves its quantity current |
| QuoteQuantities.ExecuteQuantity | src/core/OrderBook.cpp:509-531 | An execution at the best level leaves its quantity current |
| QuoteQuantities.OrderQuotes | src/core/OrderBook.cpp:467-477 | Cancelling, executing or reducing an order off its side's best level, or of an unknown id, changes no quote, and the other side's quote never changes |
| QuoteQuantities.RebaseQuantity | src/core/OrderBook.cpp:446-451 | A re-base leaves both quoted quantities equal to the volume of the quoted levels |
| QuoteQuantities.ReduceQuantity | src/core/OrderBook.cpp:542-556 | A reduction at the best level leaves its quantity current |
| Priority.PriorityIff | src/core/OrderBook.cpp:159-246 | Every match against a side trades down the priority list, by its trades, its remainder and what it leaves, if and only if the cached best of that side is exact, whatever the other side is like |
| Priority.SweepIsPriority | src/core/OrderBook.cpp:165-246 | Against a side whose best is exact, matching trades exactly a prefix of the list of resting orders, best price first and oldest first, and leaves exactly the rest of that list and everything beyond the limit |
| Priority.MatchingIsFair | src/core/OrderBook.cpp:159-246 | Against a side whose best is exact, trades follow price-time priority, none is worse than the limit, only the last maker keeps something, quantity is conserved, and a remainder means nothing within the limit is left |
| Priority.OffersSorted | src/core/OrderBook.cpp:159-164 | Along the priority list prices only get worse |
| Priority.OffersFifo | src/core/OrderBook.cpp:159-164 | Each level's queue appears in the priority list as one block, in arrival order |
| Priority.RestJoinsLine | src/core/OrderBook.cpp:306-316 | A resting order joins the priority list behind every order at its price or a better one and before every worse one, and no other order changes place |
| Priority.FillsInOrder | src/core/OrderBook.cpp:181-196 | The k-th trade meets the k-th order of the list at its own price, and all but the last use their order up |
| Priority.FillsConserve | src/core/OrderBook.cpp:181-203 | Taker quantity is traded quantity plus remainder; the list falls by the traded quantity |
| Ledgers.StepConserves | src/core/OrderBook.cpp:250-558 | Every operation conserves quantity and slots, and the live counter's lead grows by one per successful cancellation |
| BookRuns.QuantityIsConserved | src/core/OrderBook.cpp:181-203 | Over any run from an empty book accepted quantity is resting, traded as maker or taker, cancelled, dropped for want of a slot or dropped by a re-base; free slots and resting orders make up the pool |
| Ledgers.ExhaustedMeansFull | src/core/OrderBook.cpp:295-300 | Quantity is written off for want of a slot only by an insertion that leaves the pool full, and it is then what matching left over |
| BookRuns.CounterIsOrdersPlusCancels | src/core/OrderBook.cpp:454-465 | Over any run the live-order counter is the number of resting orders plus the number of successful cancellations |
| BookRuns.CancelsEndBootstrap | src/core/OrderBook.cpp:268-283 | After more than 64 cancellations an anchored book refuses every out-of-band price, even when it is empty |
| BookRuns.RunSane | src/core/OrderBook.cpp:250-558 | Every reachable book is well-formed, and its quoted quantities never exceed what rests at the quoted level |
| BookRuns.RunSharpIff | src/core/OrderBook.cpp:250-558 | All states of a run have exact bests and are not crossed if and only if every re-base of the run is safe |
| BookRuns.QuotesHold | src/core/OrderBook.cpp:250-558 | From an empty book on, quoted quantities never exceed the quoted level; all states have exact, uncrossed quotes exactly when every re-base is safe, and then the quoted bid is below the quoted ask |
| BookRuns.UnsafeRunCrosses | src/core/OrderBook.cpp:350-452 | Window of ten: sell at 108, then buy at 113 re-bases, misses the ask, does not trade and leaves the book crossed |
| ResetRuns.ResetNeverCrosses | src/core/OrderBook.cpp:350-452 | With both bests forgotten before the rescan of a re-base, every run from an empty book has exact quotes and is never crossed |
| ResetRuns.ResetAgrees | src/core/OrderBook.cpp:261-283 | That change makes no difference to an insertion whose re-base is safe |
| Uniques.RunKeepsUnique | src/core/OrderBook.cpp:305-307 | In every run with fresh ids no id ever rests twice |
| Windows.RebaseKeeps | src/core/OrderBook.cpp:350-452 | Re-basing keeps at every absolute price of the new window the same orders in the same order, and nothing outside |
| Windows.RebaseFrees | src/core/OrderBook.cpp:366-374 | It gives back one slot and counts off one order for each order that falls out |
| Windows.RebaseForgetsIff | src/core/OrderBook.cpp:366-374 | An id is lost if and only if its price lies outside the new window |
| Windows.InsertBase | src/core/OrderBook.cpp:250-283 | Where the window stands after an insertion: the first order, or one out of band while the counter is at most 64, puts its own price half a band above the bottom, or the bottom at zero; in band nothing moves; any other out-of-band order is refused and changes nothing |
| Windows.WindowedInBand | src/core/OrderBook.cpp:261-283 | Anchoring or re-basing on a price puts it in band; a price is refused exactly when the book is anchored elsewhere and past its bootstrap |
| Outcomes.InsertRests | src/core/OrderBook.cpp:295-316 | An order that rests is found on its own side, at its own absolute price, last in line there, with exactly the quantity it did not trade |
| Outcomes.InsertKeeps | src/core/OrderBook.cpp:250-348 | At every price of the window an insertion leaves on its own side what stood there, with the new order behind it if it rests, and on the other side, where it may not trade, what stood there |
| Outcomes.InsertTrades | src/core/OrderBook.cpp:165-246 | Every trade of an insertion names its id as taker, and none is at a price worse than its limit |
| Outcomes.InsertIsFair | src/core/OrderBook.cpp:288-293 | In band and against an exact side, an insertion trades in price-time priority exactly the smaller of its quantity and what is offered within its price |
| Outcomes.InsertQuotes | src/core/OrderBook.cpp:313-347 | In band, an insertion that trades nothing leaves the other side's quote alone, and its own side's quote changes only when it rests at a better price, which is then the quote with its level's volume |
| Outcomes.MarketIsFair | src/core/OrderBook.cpp:480-488 | A market order names taker 0, touches only the other side, and against an exact side trades in price-time priority exactly the smaller of its quantity and all that rests there |
| Effects.CancelEffect | src/core/OrderBook.cpp:454-478 | Cancelling leaves nothing of the order, reports nothing, leaves every other order its side, price and quantity, and does nothing for an unknown id |
| Effects.ExecuteEffect | src/core/OrderBook.cpp:492-533 | Executing takes the fill off the order, or all that is left, reports exactly that quantity at the order's absolute price, says so exactly when the order left, and spares every other order |
| Effects.ReduceEffect | src/core/OrderBook.cpp:535-558 | Reducing takes the amount off the order, or the whole order, reports nothing, and spares every other order |
| PartialFills.ExecuteComposes | src/core/OrderBook.cpp:492-533 | Executing a and then c leaves the book, the counter and the traded quantity that executing a + c leaves |
| PartialFills.ReduceComposes | src/core/OrderBook.cpp:535-558 | Reducing by a and then by c is reducing by a + c |
| PartialFills.ReduceKeepsLine | src/core/OrderBook.cpp:523-531 | A partial change leaves every order its level and its position there |
| StlBooks.StlOrderBook.InsertLimitOrder | benchmarks/Stlbaselinebook.hpp:26-67 | The textbook loops over the ends of the ordered maps compute `InsertOrder`, and with a fresh id the index goes on naming exactly the queued ids where they are |
| StlBooks.StlOrderBook.ProcessMarketOrder | benchmarks/Stlbaselinebook.hpp:81-109 | The unlimited loops compute `MarketOrder` and keep the index naming exactly the queued ids |
| StlBooks.StlOrderBook.Cancel | benchmarks/Stlbaselinebook.hpp:69-79 | Cancelling says whether the id was queued anywhere, leaves every list as it was without that id, none empty, and the index naming exactly the queued ids |
| StlBooks.Top | benchmarks/Stlbaselinebook.hpp:28-29 | `begin()` and `rbegin()` of an ordered map: its least and greatest key |
| Refinement.SweepRefines | src/core/OrderBook.cpp:165-246 | One fill of the fast book is one turn of the textbook loop; the two matches end together with the same remainder |
| Refinement.InsertRefines | src/core/OrderBook.cpp:250-348 | An in-band insertion with a fresh id, and a free slot unless it trades at once: same book, same flag |
| Refinement.InsertAnswersIff | src/core/OrderBook.cpp:288-347 | The two books answer an in-band insertion alike exactly when the pool is not full, or nothing is asked, or the order trades at once |
| Refinement.RefinesTidy | benchmarks/Stlbaselinebook.hpp:111-118 | What the fast book stands for always meets the invariant of the textbook class |
| Refinement.CancelRefines | src/core/OrderBook.cpp:454-478 | The two books know the same ids and cancel the same order |
| Refinement.MarketRefines | src/core/OrderBook.cpp:480-488 | A market order leaves the same book in both |
| Refinement.RunRefines | benchmarks/Stlbaselinebook.hpp:16-117 | For every run of insertions, cancellations and market orders with fresh ids, in-band prices and a free slot for every order that does not trade at once, the fast book is the textbook book after every step and gives the same answers |
| Refinement.FreshRefines | benchmarks/Stlbaselinebook.hpp:111-118 | Both books start empty and in step |
| Engines.Engine.RunRecords | src/core/Engine.hpp:14-45 | Running the engine over a file of records leaves the book that folding the known records over it gives, and counts them |
| Engines.Engine.Dispatch | src/core/Engine.hpp:25-40 | An L record inserts a limit order with its id, price and quantity, a buy exactly if its side byte is 0; an M record is a market order on that side; a C record cancels its id |
| Engines.RecordMeans | src/core/Engine.hpp:21-41 | In a run, a record in front of others first does that, or nothing if its type is unknown, and counts exactly if it is known |
| Ring.FirstInFirstOut | src/logging/SPSCQueue.hpp:22-53 | In every interleaving the popped items are a prefix of the accepted ones, the rest waits in its slots, and headSeen <= head <= tailSeen <= tail <= headSeen + Capacity |
| Ring.WriteIsSafe | src/logging/SPSCQueue.hpp:32-34 | No slot is written while it holds an item still to be read |
| Ring.NoSharedSlot | src/logging/SPSCQueue.hpp:32-49 | The two threads never touch one slot at the same time |
| Ring.RefusedWhenFull | src/logging/SPSCQueue.hpp:25-30 | An item is refused exactly when the loaded index shows a full ring |
| Ring.EmptyWhenDrained | src/logging/SPSCQueue.hpp:42-47 | A pop comes back empty exactly when everything accepted has been popped |
| Ring.StepInv | src/logging/SPSCQueue.hpp:22-53 | Every atomic step of either thread keeps the ring invariant |
| Ring.WrappingIsInvisible | src/logging/SPSCQueue.hpp:22-53 | On wrapping 64-bit counters the ring takes the same decisions and touches the same slots as on unbounded ones, in every interleaving |
| SpscQueues.SPSCQueue.Emplace | src/logging/SPSCQueue.hpp:22-36 | On wrapping counters with cached indices, emplace appends the item, or refuses it exactly when Capacity items are queued |
| SpscQueues.SPSCQueue.Pop | src/logging/SPSCQueue.hpp:39-53 | pop takes the oldest item, or reports an empty queue exactly when it is |
| SpscQueues.WholeEmplaceQueues | src/logging/SPSCQueue.hpp:22-36 | A run of the producer's steps without interference is a queue append or a refusal |
| Loggers.TradesAreConserved | src/logging/AsyncLogger.hpp:24-72 | In every interleaving each enqueue is a written row, or queued, or in hand, or dropped, or still being placed; rows follow the order of acceptance |
| Loggers.OneConsumer | src/logging/AsyncLogger.hpp:31-34 | The worker and the stopping thread never pop at the same time |
| Loggers.StopDrainsAll | src/logging/AsyncLogger.hpp:31-36 | By whichever move stop returns, the rows written are then exactly the trades accepted until then, in order |
| Loggers.StopJoins | src/logging/AsyncLogger.hpp:31-33 | A stop of a running logger clears the flag and waits for the worker to see it; a stop of a stopped one does nothing |
| Loggers.FreshInv | src/logging/AsyncLogger.hpp:17-17 | A new logger satisfies the invariant |
| Loggers.StartsAnew | src/logging/AsyncLogger.hpp:24-29 | A start empties the file and sets the worker going, keeping what was written before apart; while running it does nothing |
| Loggers.NextInv | src/logging/AsyncLogger.hpp:24-72 | Every move of every thread keeps the logger's invariant |
| AsyncLoggers.AsyncLogger.Drain | src/logging/AsyncLogger.hpp:63-72 | Draining appends everything queued to the file in order and empties the queue |
| AsyncLoggers.AsyncLogger.EnqueueTrade | src/logging/AsyncLogger.hpp:44-48 | A trade is queued, or counted as dropped exactly when the ring is full |
| AsyncLoggers.AsyncLogger.Stop | src/logging/AsyncLogger.hpp:31-36 | A first stop empties the queue into the file; a second one does nothing |
| Itch.HandleKeepsRouting | src/ingestion/ItchParser.cpp:100-228 | After every message every resting order of every book is owned by its own book |
| Itch.ReplayKeepsRouting | src/ingestion/ItchParser.cpp:69-234 | So it is after every sequence of messages that brings only fresh references |
| Itch.LiveOrdersAreReached | src/ingestion/ItchParser.cpp:141-202 | An execute, cancel or delete message about a resting order reaches the book that holds it |
| Itch.OwnerFollowsTheBook | src/ingestion/ItchParser.cpp:141-202 | After a message about a resting order the owner map holds its reference exactly if the order still rests |
| Itch.StaleEntriesAreHarmless | src/ingestion/ItchParser.cpp:146-222 | A message about an order that rests nowhere changes no book, stale owner entry or not, and at most a deletion drops that entry |
| Itch.AddInserts | src/ingestion/ItchParser.cpp:101-139 | An Add Order message for a followed locate below 8192 inserts its reference, side, price and shares into the book there or a new empty one, and is owned exactly if it rests, on that side at that price; for any other locate nothing happens |
| Itch.ReplaceInserts | src/ingestion/ItchParser.cpp:203-225 | A replacement of a live order cancels it and inserts the new reference, price and shares on the old side of the same book; the new reference is owned exactly if it rests |
| Itch.OtherBooksUntouched | src/ingestion/ItchParser.cpp:100-228 | No message touches a book other than its target |
| Itch.ReplaceIsDeleteThenAdd | src/ingestion/ItchParser.cpp:203-225 | Replacing a live order is deleting it and adding the new one to the same book on the same side |
| Itch.PacketsOfEncoded | src/ingestion/ItchParser.cpp:83-98 | Cutting a file into length-prefixed records gives back the records it was written from, then whatever the rest of the file holds |
| Itch.MessagesOfEncoded | src/ingestion/ItchParser.cpp:69-234 | Replaying a file of records long enough for their types yields exactly the messages those records hold, then those of the rest of the file |
| Itch.OneRecord | src/ingestion/ItchParser.cpp:100-225 | For types A, F, E, C, X, D and U, with body lengths 35, 39, 30, 35, 22, 18 and 34, a record with a body of exactly that length is decoded from it |
| Itch.OneByteShort | src/ingestion/ItchParser.cpp:100-206 | With one byte less at the end of the file, such a record holds no message |
| Itch.OtherKind | src/ingestion/ItchParser.cpp:227-229 | A record of any other type holds no message, whatever its length |
| Itch.CutRecord | src/ingestion/ItchParser.cpp:83-94 | A record cut short by the end of the file, or of length zero, ends the replay |
| Itch.OwnRecordIff | src/ingestion/ItchParser.cpp:96-102 | For each decoder that makes a message of every full body, the message read at a record is the one the record holds if and only if the record is long enough for its type or the file ends before the body would; the if half for every decoder |
| Itch.BodyFromNextRecord | src/ingestion/ItchParser.cpp:96-193 | A one-byte Order Delete record is given the 18 bytes after it as its body, though the record by itself holds no message |
| ItchReplays.Parser.Parse | src/ingestion/ItchParser.cpp:69-234 | The cursor loop ends, reads nothing outside the file, and replays exactly the file's messages, one per framed record, on book objects that share nothing and all stay valid |
| ItchReplays.Parser.Dispatch | src/ingestion/ItchParser.cpp:100-228 | On book objects reached through the reference map, the switch changes what one book shows as `Handle` says, leaves every other object alone, and keeps every resting order referenced by its own book |
| ItchReplays.Parser.AddOrder | src/ingestion/ItchParser.cpp:101-118 | The first order of a locate makes a new book sharing nothing with the others; the insertion and the reference act on that book only |
| ItchReplays.Parser.ReplaceOrder | src/ingestion/ItchParser.cpp:203-225 | Find the old order's side in its book, cancel, insert under the new reference, move the reference |

## Left out

- Trade time stamps: arbitrary readings of a cycle counter; a trade here has maker, taker, price and quantity.
- The hash function of the id table: an arbitrary function from ids to 32-bit values, because no result depends on how it spreads; the failing input of `Backshift.EarlyStopLosesKey` is for the hash of the source, `Backshift.Murmur`.
- OrderBooks.OrderBook.RemoveSlot: and with it every operation of the book erases ids by `EraseCompacting`, not by the early-stopping loop of the source, because the latter loses ids; the verbatim loop is `IdTable.IdMap.Erase`, and `OrderBooks.OrderBook.RemoveSlotAsWritten` says when it would have done.
- OrderBooks.OrderBook.DropLevel: erases ids by `EraseCompacting` too; with the loop of the source, `OrderBooks.OrderBook.DropNodeAsWritten` says when the id table stays exact.
- OrderBooks.OrderBook.constructor: asks for 1 to 2^30 slots and a band of at least 1 that fits 32 bits; beyond 2^30 slots the table size of the source wraps to nothing, and with no level or no slot its indices underflow.
- OrderBooks.OrderBook.InsertLimitOrder: asks that the id is not resting, because a second insertion of the same id overwrites the table entry and orphans the first order.
- OrderBooks.OrderBook.FillHead: a fill is reported to the log after its queue changes, not before; both happen within one call and no one looks in between.
- BookRuns.CounterIsOrdersPlusCancels: asks for fewer than 2^32 operations, beyond which the 32-bit counter may wrap.
- Refinement.RunRefines: asks for in-band prices and a free slot for every order that does not trade at once, because the textbook book has neither a window nor a pool; otherwise the answers differ (`Refinement.InsertAnswersIff`).
- StlBooks.StlOrderBook.Cancel: a stored list iterator is modelled as the element of the list that carries the id, which is the same one while ids are unique.
- Memory order of the ring and the logger: an acquire load and a release store are one atomic step each, and steps are sequentially consistent.
- Ring.FirstInFirstOut: asks for a power-of-two capacity of at least 1; a capacity of 0 passes the source's own check and refuses everything.
- The drop counter of the logger: unbounded here, 64 bits in the source.
- ItchReplays.Parser.Parse: asks that new order references are not resting in any book, as insertion into a book does, and that the sizes given suit the constructor of the book.
- StlBooks.StlOrderBook.InsertLimitOrder: promises the class invariant afterwards for ids that are not indexed; a second insertion of an indexed id overwrites its index entry.
- Byte order and field offsets inside ITCH messages: decoding is an arbitrary function of the type byte and the bytes of the body; only the length prefix, the type byte and the body sizes are modelled.
- Diagnostic counters and sample lists of the ITCH parser, the engine's warning, and file, mapping and CSV handling.
- Prefetching, alignment, latency samples, thread yields and sleeps.
