# Order book engine: verified model

A Dafny model of a single-instrument limit order book and of the pipeline around it: the matching core, the data
structures it is built on, the lock-free queue that feeds it, the risk gate in front of it and the journal that
recovers it. Everything is proved for all inputs, all runs and all interleavings; `dafny verify dfyconfig.toml` checks
the whole project.

## How it is layered

Every concrete structure refines a simple mathematical one, and the theorems at the top use all of them.

| file | what it holds |
|---|---|
| `Types.dfy` | fixed-width integers, sides, orders, trades, commands |
| `BookSpec.dfy` | the book as two flat lists in price-time order; matching as one recursive greedy fold |
| `MatchLaws.dfy` | laws of one matching pass: shape, priority, exact fill amount, self-trade rules, conservation |
| `BookLaws.dfy`, `Ledger.dfy` | laws of whole runs: the invariant, never crossed, conservation in total and order by order |
| `BookTerms.dfy` | what each operation of the book does, in plain terms: fields and comparisons written out |
| `Snapshots.dfy` | what a snapshot determines of a book, and what it does not |
| `Bits.dfy` | masks and the bit-smearing power-of-two rounding |
| `FlatHashMap.dfy` | open addressing, backward-shift deletion and rehashing, refining a finite map for any hash function |
| `Levels.dfy` | orders as intrusive list nodes, price levels refining sequences, the free-list pool |
| `BookSide.dfy`, `OrderBook.dfy` | one side of the book; the book class, refining `BookSpec` |
| `Twins.dfy` | representation independence: two books with one abstract state behave alike |
| `RiskControls.dfy`, `EventLog.dfy` | the risk gate; the byte journal |
| `Engine.dfy` | the semantics of commands and of whole sessions, and their accounting |
| `EngineTerms.dfy` | what each raw command does, in plain terms: bytes written out |
| `UniqueIds.dfy` | which ids a session can accept twice, and that no order rests twice |
| `Replay.dfy` | what a journal holds, what replaying it reproduces, recovery from a cut file |
| `MatchingEngine.dfy` | the engine class, refining all of these |
| `RingBuffer.dfy`, `Pipeline.dfy` | the SPSC queue and the threaded, journalling pipeline as transition systems |

The classes `FlatHashMap`, `Order`, `PriceLevel`, `MemoryPool`, `BookSide`, `OrderBook`, `RiskManager`,
`EventLogWriter` and `MatchingEngine` update their fields in place as the C++ does, and each public operation states its
whole new state through an abstraction function. `OrderBook.Submit` and `OrderBook.Cancel` compute exactly
`BookSpec.Submit` and `BookSpec.Cancel` on the abstract book, which carries each order's trader and the next sequence
number. The contracts mention neither pool capacity, nor slot reuse, nor the hash function, nor the rehash history: that
is representation independence. `RunBoth` spells it out for any two books with the same abstract state, whatever brought
them there, and `Replicate` for two engines. The refinement and the laws of the fold meet in `Valid()`, which contains
the invariant `WellFormed` of the fold.

The functions that specify the operations are themselves pinned by laws in plain terms, which do not name them: prices
compared with `<=` and `>=`, records by the number that stands at each offset, reject categories by the checks that fail,
sides by the byte of the command (`BookTerms`, `EngineTerms`, and the lemmas ending in `Terms` and `Bytes`).

The ring buffer is a two-thread transition system in which every load, slot access and store is one step. Every word
stored to an index is recorded, and an acquire load returns any recorded store of the other thread's index from the last
one observed onwards (coherence, section 4.7.1 of ISO/IEC 14882:2017). Published indices are 64-bit words that wrap,
beside unbounded counters.

## Where the code and its documentation differ

The model follows the code.

- `include/obe/OrderBook.hpp:74-76` takes equal snapshots for equal books. A snapshot omits the traders and the next
  sequence number, and the books then behave differently (`SnapshotIsNotState`, two books one submit from empty). The
  exact condition for two books with the same snapshot and policy to be indistinguishable for ever is that both of these
  agree as well (`SnapshotPlusTradersIsState`).
- `EVENT_SOURCING.md:76-84` makes equal configuration the exact condition for replay to reproduce a session. Neither a
  change of the kill switch nor the installation of a gate is journalled, and both `enable_risk` and `enable_logging` may
  be called, again, at any time. What a replay reproduces depends on what is compared.
  - The whole state, the counters of the gate and the ids it has seen included, agrees (but for the switch itself)
    exactly when the replaying engine has the same self-trade policy and the gate in force at the end, no gate was put in
    after a submit, no submit arrived while the switch was engaged, and the journal was not started after a submit or a
    cancel (`ReplayExact`).
  - What an engine shows agrees at every point since the journal was started, for any gate of the replaying engine,
    exactly when the journal was not started after a submit or a cancel and every submit is accepted by both gates or by
    neither (`ReplayShows`). The counts decide; the book then agrees too, and with it the snapshot by which the document
    measures a replay.
  - `KillSwitchBreaksReplay`, `LateGateBreaksReplay` and `LateLogBreaksReplay` are short sessions in which the replayed
    book itself differs.
- `include/obe/RiskControls.hpp:99-100` never re-admits an id accepted in the session. A gate put in anew has forgotten the
  ids of the one before: it admits an accepted id again exactly when the order does not fail one of its limits
  (`ReinstallAdmits`, with a session in `ReinstallForgets`). A schedule of commands and operator events lets some id be
  accepted twice, for some choice of the commands, exactly when two commands that do not find the switch engaged have a
  gate put in between them, or the later one meets no gate that enforces unique ids (`IdsReusable`). With an enforcing gate
  in place before the first submit, then, no id is accepted twice (`AcceptedIdsDistinct`) and no order rests twice
  (`RestsOnce`). The counters of the gate likewise account for the session exactly when no gate was put in after a submit
  (`SessionAccounting`).
- The notional cap and the price collar compare products modulo 2^64. An order over the cap can pass (`NotionalWraps`),
  and so can one outside the collar (`CollarWraps`); the comparison is right exactly when the two sides lie in the same
  2^64-range or their remainders happen to be ordered as the ranges are (`NotionalExact`, `CollarExact`), in particular
  whenever both fit in 64 bits.
- The repository's `README.md:99` places the risk gate before the journal; `src/MatchingEngine.cpp:8-10` journals
  first. Rejected submits are therefore in the journal and are rejected again by a replay.
- `include/obe/FlatHashMap.hpp:71` is commented "load factor > 7/8"; the code rebuilds when the next entry would reach
  7/8, so the load stays strictly below it. That strictness is part of the invariant.
- `reserve(n)` promises room for `n` entries. Its 64-bit product wraps: the promise holds exactly when n < 2^61 or the
  table was already large enough (`Reserve`).
- `round_up_pow2(v)` gives the least power of two at or above max(v, 2) for v up to 2^63, and 0 beyond (`RoundUpPow2`).
- A capacity above 2^63 for the hash table rounds to 0 and leaves a table without a slot (the contract of its
  constructor). The load test agrees with the exact one, whatever the table holds, exactly up to 2^61 slots
  (`LoadTestExact`).
- `include/obe/Order.hpp:38` calls the quantity of an order its original size. At rest it is the remainder the order came
  to rest with, since only the remainder is ever materialised (`src/OrderBook.cpp:105`); it is the submitted size exactly
  when the order met nothing it could trade with (`SizeAtRest`, with a partly filled taker in `SizeAtRestIsNotOriginal`).

## Model

| member | source | states |
|---|---|---|
| `OrderBooks.OrderBook.Submit` | src/OrderBook.cpp:72-125 | The pointer structures compute exactly the pure submit: result, trades and resting state equal one greedy fold over the far side and a stable insertion of the remainder, for all three self-trade policies; the invariant is kept |
| `OrderBooks.OrderBook.Cancel` | src/OrderBook.cpp:130-155 | Removes exactly the order with that id, returns true exactly when one rests under it, changes nothing else; the invariant is kept |
| `OrderBooks.OrderBook.Take` | src/OrderBook.cpp:83-124 | An admitted taker: matching and then resting, dropping or nothing, exactly as the pure submit settles it |
| `OrderBooks.OrderBook.Match` | src/OrderBook.cpp:8-67 | The nested level and queue loops, with erasure of emptied levels, produce the fold's trades, removals, leftover, stop flag and remaining book, and leave no empty level |
| `OrderBooks.OrderBook.MatchLevel` | src/OrderBook.cpp:23-60 | The loop over one level ends because the taker is exhausted, is stopped by an own order, or has emptied the level; what is done plus what is to come is still the whole pass |
| `OrderBooks.OrderBook.FillFront` | src/OrderBook.cpp:43-59 | One execution: trade at the maker's price, both remainders reduced, a filled maker taken off all four views; what is done plus what is to come is still the whole pass |
| `OrderBooks.OrderBook.RemoveOwn` | src/OrderBook.cpp:28-36 | The self-trade removal: the front maker leaves all four views without a trade, and the pass goes on |
| `OrderBooks.OrderBook.Retire` | src/OrderBook.cpp:32-34 | Unlinking, removing from the index and releasing together keep price maps, queues, index and pool in agreement |
| `OrderBooks.OrderBook.RestRemainder` | src/OrderBook.cpp:103-115 | Acquire, stamp, queue and index: a stable insertion of the stamped remainder, views in agreement again |
| `OrderBooks.OrderBook.Withdraw` | src/OrderBook.cpp:136-144 | Takes an order out of index, queue and pool in the order cancel does, and says whether its level is now empty |
| `OrderBooks.OrderBook.BestBid` | src/OrderBook.cpp:160-165 | The price of the first bid in priority order, none if there is no bid |
| `OrderBooks.OrderBook.BestAsk` | src/OrderBook.cpp:167-172 | The price of the first ask in priority order, none if there is no ask |
| `OrderBooks.OrderBook.Snapshot` | src/OrderBook.cpp:174-194 | Exactly the resting orders, bids then asks, each in price-time order |
| `OrderBooks.OrderBook.QuantityAt` | src/OrderBook.cpp:196-203 | The total remaining at a price modulo 2^64, hence exact whenever it fits, 0 for an absent level |
| `OrderBooks.OrderBook.constructor` | include/obe/OrderBook.hpp:40-48 | A valid empty book for any pool capacity and hash function |
| `OrderBooks.OrderBook.Observe` | src/OrderBook.cpp:72-194 | Over any run from any valid book, the results, trades and snapshots after each operation, and the final state, are those of the pure book |
| `Twins.RunBoth` | src/OrderBook.cpp:72-194 | Two valid books with the same abstract state and no part in common, whatever their pools, slots and tables went through, give the same results, trades and snapshots for every sequence of operations and stay in the same state |
| `Twins.ObserveBeside` | include/obe/OrderBook.hpp:97-105 | A run of one book leaves every other book valid and as it was |
| `OrderBooks.OrderBook.ViewsAgree` | include/obe/OrderBook.hpp:97-105 | Every index entry leads to the one live order with that id, in the level of its own side and price, with a correct back-pointer; every queued order is indexed; no level is empty; no released slot is reachable |
| `OrderBooks.OrderBook.IndexedIffRests` | src/OrderBook.cpp:78 | The index knows an id exactly when an order with that id rests |
| `OrderBooks.OrderBook.NoLeak` | tests/test_stress.cpp:48 | The pool has exactly as many live slots as the index has entries, in every valid book |
| `MatchLaws.MatchSweeps` | src/OrderBook.cpp:14-66 | A pass consumes exactly a prefix of the far side, partly fills at most the order behind it, which keeps its place, and ends because the taker is exhausted, stopped, or meets nothing that crosses |
| `MatchLaws.PriceTimePriority` | src/OrderBook.cpp:14-66 | The makers of a pass strictly increase in (price, sequence); each prints at its own price inside the limit; all but the last are consumed in full and leave; no order of another trader that precedes a maker is passed over |
| `MatchLaws.FillsExactly` | src/OrderBook.cpp:14-66 | Filled = min(quantity, eligible): all crossing orders, those of other traders, or those ahead of the first own one, by policy |
| `MatchLaws.StopsExactly` | src/OrderBook.cpp:28-41 | The taker is stopped exactly under CancelAggressing, when an own order crosses and the eligible quantity ahead of it does not fill the taker |
| `MatchLaws.RemovedExactlyWhenReached` | src/OrderBook.cpp:28-36 | Under CancelResting an own crossing order is removed exactly when the eligible quantity ahead of it does not already exhaust the taker |
| `MatchLaws.MatchConserves` | src/OrderBook.cpp:43-59 | For every set of ids: what rested plus what the taker gave is what was traded, removed, or still rests |
| `BookLaws.SubmitOutcome` | src/OrderBook.cpp:72-125 | Status, filled and resting amounts of a submit from the book it meets alone, and that the id rests on its side exactly when resting is positive |
| `BookTerms.RejectTerms` | src/OrderBook.cpp:77-81 | A submit is rejected exactly when its quantity is 0 or its id rests, and then nothing happens |
| `BookTerms.FarTerms` | src/OrderBook.cpp:14-66 | A buy takes asks of price <= its limit, a sell bids of price >= its limit: a prefix of the other side goes, the next order may be reduced, the others stay as they were |
| `BookTerms.NearTerms` | src/OrderBook.cpp:103-123 | The own side gains nothing, or one order with the taker's id, trader, side and limit, the remainder as its size and the next sequence number |
| `BookTerms.TradeTerms` | src/OrderBook.cpp:43-50 | Every trade names the taker's id, trader and side and a maker of the other side with its id, trader and price, within the limit, for a positive quantity the maker had; the result counts them and adds them up |
| `BookTerms.CancelTerms` | src/OrderBook.cpp:130-155 | The flag is true exactly when an order with that id was there, and exactly when the book changes; that order goes and every other stays |
| `BookTerms.SidesTerms` | include/obe/OrderBook.hpp:22-28 | After any run bids fall and asks rise in price, earlier orders ahead at one price, ids differ, something remains of every order, and every bid is below every ask |
| `BookTerms.BestTerms` | src/OrderBook.cpp:160-172 | The best bid is the highest bid, the best ask the lowest ask, none exactly on an empty side |
| `BookTerms.SnapshotTerms` | src/OrderBook.cpp:174-194 | The snapshot lists the bids and then the asks, each order with its own side, price, id, remainder and sequence |
| `BookTerms.DepthTerms` | src/OrderBook.cpp:196-203 | The depth at a price is over exactly the orders at that price, each once |
| `BookLaws.SizeAtRest` | src/OrderBook.cpp:103-118 | The order a submit leaves at rest shows the remainder as its size, and that is the submitted quantity exactly when the eligible quantity it met was nothing |
| `BookLaws.SizeAtRestIsNotOriginal` | include/obe/Order.hpp:38 | A buy of 10 that trades 5, from an empty book, rests with size 5, under every policy |
| `BookLaws.SubmitKeeps` | src/OrderBook.cpp:72-125 | Submit keeps the sides sorted, ids unique, every remainder positive, sequence numbers below the next, and the book uncrossed |
| `BookLaws.CancelKeeps` | src/OrderBook.cpp:130-155 | Cancel keeps the same invariant, and the id no longer rests |
| `BookLaws.RunKeeps` | src/OrderBook.cpp:72-155 | Every run of submits and cancels keeps the invariant |
| `BookLaws.NeverCrossed` | src/OrderBook.cpp:72-155 | After any run, under every policy, best bid < best ask whenever both exist |
| `Ledger.RunConserves` | src/OrderBook.cpp:44-155 | For any run and any set of ids: resting before + accepted = resting after + traded + cancelled + removed + dropped |
| `Ledger.WholeRunConservation` | src/OrderBook.cpp:44-155 | Accepted quantity = 2 x traded volume + resting + cancelled on request + taken away by either self-trade rule |
| `Ledger.PerOrderConservation` | src/OrderBook.cpp:44-155 | Id by id: accepted = traded + remaining + cancelled + removed + dropped |
| `Snapshots.SnapshotPlusTradersIsState` | include/obe/OrderBook.hpp:72-76 | Two well-formed books of one policy and equal snapshots are indistinguishable by every future exactly when next sequence and traders agree |
| `Snapshots.SnapshotIsNotState` | include/obe/Order.hpp:75-91 | Equal snapshots and next sequence numbers do not make equal behaviour: two books, each one submit from empty, that differ in the trader |
| `Snapshots.WatchTerms` | src/OrderBook.cpp:72-194 | What is seen of a run, operation by operation: result, trades and book of a submit, flag and book of a cancel |
| `BookSides.BookSide.EnqueueIsInsert` | src/OrderBook.cpp:109-114 | Appending to the level of its price is the stable insertion into the flat price-time list |
| `BookSides.BookSide.TryEmplace` | src/OrderBook.cpp:109-113 | Finds or creates the level of a price in ladder order without changing the flat list |
| `BookSides.BookSide.Enqueue` | src/OrderBook.cpp:110-113 | The order joins the tail of its level; every other level is untouched |
| `BookSides.BookSide.Unlink` | src/OrderBook.cpp:142 | Exactly one order leaves its level, from any position; every other level is untouched |
| `BookSides.BookSide.Fill` | src/OrderBook.cpp:52-53 | One order gives up the traded units and keeps its position; its level's total follows |
| `BookSides.BookSide.Erase` | src/OrderBook.cpp:147-152 | Erasing an empty level leaves the flat list as it was |
| `BookSides.BookSide.QuantityAt` | src/OrderBook.cpp:197-202 | The running total of a level is the sum over the flat list at its price, modulo 2^64 |
| `BookSides.BookSide.Snapshot` | src/OrderBook.cpp:179-192 | The nested walk lists the flat price-time order |
| `FlatHashMaps.FlatHashMap.constructor` | include/obe/FlatHashMap.hpp:38-40 | An empty map whose capacity is the least power of two at or above 8 and the request, up to 2^63; beyond, a table without a slot |
| `FlatHashMaps.FlatHashMap.Find` | include/obe/FlatHashMap.hpp:52-61 | Terminates and returns the value of the key, or none exactly when it is absent, for any hash function |
| `FlatHashMaps.FlatHashMap.Insert` | include/obe/FlatHashMap.hpp:70-86 | Adds or overwrites exactly one key; the table doubles exactly when one more entry than it holds would reach 7/8 |
| `FlatHashMaps.FlatHashMap.Erase` | include/obe/FlatHashMap.hpp:89-99 | Removes exactly the given key and says whether it was there |
| `FlatHashMaps.FlatHashMap.EraseAt` | include/obe/FlatHashMap.hpp:132-155 | Backward-shift deletion terminates, restores the cyclic probe-chain invariant across wrap-around, and leaves every other key with its value |
| `FlatHashMaps.FlatHashMap.Slide` | include/obe/FlatHashMap.hpp:149-153 | Moving the entry at the scan into the hole keeps the map and the loop invariant around the new hole |
| `FlatHashMaps.FlatHashMap.Rehash` | include/obe/FlatHashMap.hpp:157-174 | Contents are preserved, and the insertions it makes never rebuild again |
| `FlatHashMaps.FlatHashMap.Reserve` | include/obe/FlatHashMap.hpp:42-49 | Contents are preserved; the table grows, if at all, to the least power of two the request computes; room for n entries exactly when n < 2^61 or there was room before |
| `FlatHashMaps.LoadTestExact` | include/obe/FlatHashMap.hpp:71 | The 64-bit load test agrees with the exact one for every fill exactly when the table has at most 2^61 slots |
| `FlatHashMaps.FlatHashMap.Next` | include/obe/FlatHashMap.hpp:137 | The masked increment is the cyclic successor |
| `FlatHashMaps.ShiftEnds` | include/obe/FlatHashMap.hpp:138-140 | When the scan meets an empty slot every probe chain is whole again |
| `FlatHashMaps.ShiftSkips` | include/obe/FlatHashMap.hpp:141-148 | An entry whose path avoids the hole may stay |
| `FlatHashMaps.ShiftMoves` | include/obe/FlatHashMap.hpp:149-153 | An entry whose path runs through the hole may move there, which restarts the scan at the slot it left |
| `FlatHashMaps.CannotMoveIsOffPath` | include/obe/FlatHashMap.hpp:142-145 | The cyclic interval test decides exactly whether the hole is off the entry's probe path |
| `FlatHashMaps.ProbeMisses` | include/obe/FlatHashMap.hpp:53-60 | A probe that reaches an empty slot proves the key absent |
| `FlatHashMaps.FillKeepsChains` | include/obe/FlatHashMap.hpp:74-85 | Filling the free end of a key's probe path keeps every chain whole |
| `FlatHashMaps.SomeEmpty` | include/obe/FlatHashMap.hpp:71 | A table below full load has an empty slot, so every probe ends |
| `Bits.RoundUpPow2` | include/obe/RingBuffer.hpp:98-107 | The bit-smearing loop returns the least power of two at or above max(v, 2) for v up to 2^63, and 0 beyond |
| `Bits.MaskIsMod` | include/obe/RingBuffer.hpp:64 | Masking with a power of two less one is the remainder |
| `Levels.PriceLevel.Enqueue` | include/obe/PriceLevel.hpp:49-61 | The list becomes the old sequence with the order appended; links, count and total follow |
| `Levels.PriceLevel.Unlink` | include/obe/PriceLevel.hpp:65-80 | The list becomes the old sequence without that position, wherever it is; the order ends unlinked; links, count and total follow |
| `Levels.PriceLevel.OnFill` | include/obe/PriceLevel.hpp:82-84 | The total is again the sum of what remains, modulo 2^64 |
| `Levels.PriceLevel.ForEach` | include/obe/PriceLevel.hpp:89-93 | The walk along the forward links terminates and visits the sequence oldest first |
| `Levels.Order.Fill` | include/obe/Order.hpp:47-51 | Takes the smaller of the request and what remains |
| `Levels.MemoryPool.constructor` | include/obe/MemoryPool.hpp:39-42 | One block of at least one slot, nothing live |
| `Levels.MemoryPool.Acquire` | include/obe/MemoryPool.hpp:59-67 | Hands out the head of the free list, never a live slot, growing only when the list is empty, with a freshly constructed order in it |
| `Levels.MemoryPool.Release` | include/obe/MemoryPool.hpp:70-79 | The slot becomes the head of the free list and stops being live; null changes nothing |
| `Levels.MemoryPool.Grow` | include/obe/MemoryPool.hpp:96-114 | A new block joins the free list; free list and live set still partition the slots, and live + free = capacity |
| `Levels.PoolGrowsGeometrically` | include/obe/MemoryPool.hpp:96-114 | After k blocks the capacity is c0 * (2^k - 1), where the pool invariant ties the capacity to the block count |
| `RingBuffer.StepKeeps` | include/obe/RingBuffer.hpp:57-80 | Every step of either thread, with every admissible stale load, keeps the slot and index invariant |
| `RingBuffer.SpscSafe` | include/obe/RingBuffer.hpp:57-80 | In every run: popped is a prefix of pushed, occupancy never exceeds capacity, push constructs only into dead slots, pop reads and destroys only live ones, the threads never hold the same slot, each holds its slot only after acquiring the store that handed it over, and the k-th store to an index wrote k modulo 2^64 |
| `RingBuffer.FullIsExact` | include/obe/RingBuffer.hpp:58-63 | The wrapped full test decides the unbounded one |
| `RingBuffer.EmptyIsExact` | include/obe/RingBuffer.hpp:71-74 | The wrapped empty test decides the unbounded one |
| `RingBuffer.MaskedIndex` | include/obe/RingBuffer.hpp:64-75 | The masked wrapped index is the slot of the unbounded counter, through any number of overflows |
| `Pipeline.PipelineEqualsInline` | src/MatchingEngine.cpp:52-87 | For every schedule, once the consumer has exited it has popped and applied exactly the commands ahead of the first sentinel, in order, and the engine equals the sequential fold; these are all of them exactly when the producer pushed no sentinel of its own |
| `Pipeline.SentinelTerms` | src/MatchingEngine.cpp:55-60 | The commands ahead of the first sentinel are the longest prefix without kind 2 |
| `Pipeline.PipelineJournal` | src/MatchingEngine.cpp:5-10 | At every moment of every schedule the journal the consumer writes is readable and replays to the state of the engine; at the exit it holds exactly the commands ahead of the first sentinel |
| `Pipeline.FairExits` | src/MatchingEngine.cpp:52-87 | If every stretch of a given number of steps lets each thread get to its test with a load no older than the stretch, a schedule without the exit is shorter than 7 (n + 1) + 1 stretches and can go on; at the exit the engine is in the inline state |
| `Pipeline.ProgressEnabled` | src/MatchingEngine.cpp:52-87 | Until the exit some step is enabled that lowers a positive measure |
| `Pipeline.OnlyRetriesDelay` | src/MatchingEngine.cpp:54-67 | Every schedule is at most nine steps per command long, sentinel included, plus two for each push that met a full ring or pop that met an empty one |
| `Pipeline.NoTrap` | include/obe/MatchingEngine.hpp:68-78 | Whatever has been scheduled, some continuation reaches the exit and the state of the inline run |
| `EventLogs.Encode` | src/EventLog.cpp:15-26 | The in-place buffer writes make exactly the 40-byte record: kind, order type, side and 0 in bytes 0 to 3, and at offsets 4, 8, 16, 24 and 32 the numbers trader, id, price, quantity and trigger price in the byte order of the host |
| `EventLogs.LayoutTerms` | EVENT_SOURCING.md:44-54 | Every record has the documented layout, byte by byte, on either byte order |
| `EventLogs.DecodedTerms` | src/EventLog.cpp:28-39 | The command read from 40 bytes is the one whose fields stand there |
| `EventLogs.HeaderTerms` | src/EventLog.cpp:50-51 | The header is the letters OBEL and the number 1 in the byte order of the host |
| `EventLogs.ReadTerms` | src/EventLog.cpp:82-103 | The magic is bad exactly without OBEL in a whole header, the version exactly without the number 1 behind it; otherwise there is one command for every 40 bytes that follow, the one whose fields stand there |
| `EventLogs.JournalledTerms` | src/EventLog.cpp:54-65 | What a journal records, command by command: everything but kind 2 |
| `EventLogs.DecodeEncode` | src/EventLog.cpp:15-39 | Every command survives its record, on either byte order |
| `EventLogs.EncodeDecode` | src/EventLog.cpp:15-39 | A record is the encoding of what it decodes to exactly when its padding byte is zero |
| `EventLogs.EventLogWriter.Append` | src/EventLog.cpp:54-65 | Appends the 40-byte record with the command's fields at their offsets and counts it; a command of kind 2 leaves no trace |
| `EventLogs.ReadEventLog` | src/EventLog.cpp:76-104 | Refuses a short or wrong header and a wrong version, otherwise returns the complete records |
| `EventLogs.TornTailRecovery` | src/EventLog.cpp:82-103 | For every command list and every truncation of its file: a cut header is refused, otherwise exactly the first floor((len - 8) / 40) journalled commands are read |
| `EventLogs.ForeignHostRefused` | src/EventLog.cpp:89-91 | A journal of the other byte order is refused for its version |
| `RiskControls.RiskManager.Check` | src/RiskControls.cpp:5-56 | The verdict is that of the first failing check in the gate's order, exactly its counter moves, by one, and the id is remembered exactly when it is accepted and unique ids are enforced |
| `RiskControls.VerdictTerms` | src/RiskControls.cpp:9-52 | Each of the six outcomes is returned exactly when its check, written out, fails and none ahead of it does |
| `RiskControls.AfterTerms` | src/RiskControls.cpp:9-55 | Exactly the counter of the outcome moves, by one |
| `RiskControls.RiskManager.Report` | src/RiskControls.cpp:58-67 | The report gives every counter under its own category |
| `RiskControls.NotionalExact` | src/RiskControls.cpp:20-28 | The word comparison decides the true one exactly when product and cap lie in the same 2^64-range or their remainders are ordered as the ranges are; in particular for every product within 64 bits |
| `RiskControls.NotionalWraps` | src/RiskControls.cpp:22-24 | A notional of 2^64 passes a cap of 1 |
| `RiskControls.CollarExact` | src/RiskControls.cpp:30-44 | The same for the collar: whether the price is more than the allowed basis points from a positive reference |
| `RiskControls.CollarWraps` | src/RiskControls.cpp:34-40 | A price 2^60 ticks from the reference passes a collar of one basis point |
| `EngineTerms.CommandBytes` | src/MatchingEngine.cpp:11-40 | Kind 0 submits, for side 0 a buy and otherwise a sell, if the gate lets it; kind 1 cancels; other kinds do nothing; each with its counts |
| `EngineTerms.ReferenceBytes` | src/MatchingEngine.cpp:17-20 | The gate compares a price, for side 0, with the lowest ask, and otherwise with the highest bid |
| `EngineTerms.SellBytes` | src/MatchingEngine.cpp:25-30 | An accepted submit with side byte 1 adds nothing to the bids, reports its trades as a sell at its price or above, and joins the asks, if at all, under its own id, trader and price |
| `EngineTerms.BuyBytes` | src/MatchingEngine.cpp:25-30 | The mirror statement for side byte 0 |
| `EngineTerms.TradesTerms` | src/MatchingEngine.cpp:25-30 | The trades of a session are those of its commands, in order |
| `Engine.SessionAccounting` | src/MatchingEngine.cpp:12-36 | Over every session commands = submits + cancels + rejections, submits = ids accepted, trades = trades printed; the gate's own counters agree with this exactly when no gate was put in after a submit |
| `UniqueIds.IdsReusable` | src/RiskControls.cpp:46-55 | Over all choices of commands for a schedule, some id can be accepted twice exactly when two commands that do not find the switch engaged have a gate put in between them, or the later one meets no gate that enforces unique ids |
| `UniqueIds.ReinstallAdmits` | include/obe/MatchingEngine.hpp:52 | Behind a gate put in anew, an id the session has accepted is accepted again exactly when the order fails none of size limit, notional limit and collar |
| `UniqueIds.ReinstallForgets` | include/obe/MatchingEngine.hpp:52 | A four-event session that accepts one id twice |
| `UniqueIds.TwiceIsRepeated` | src/RiskControls.cpp:46-55 | Two events have the same id accepted exactly when the list of accepted ids repeats an id |
| `UniqueIds.AcceptedIdsDistinct` | src/RiskControls.cpp:46-55 | With a gate that enforces unique ids in place before the first submit, no id is accepted twice |
| `UniqueIds.RestsOnce` | include/obe/RiskControls.hpp:99-100 | With such a gate, an id that rested at one time of a session and not at a later one never rests again |
| `UniqueIds.EarlyGateSees` | src/RiskControls.cpp:46-55 | With such a gate, every order at rest is known to it |
| `UniqueIds.NoSecondLife` | src/RiskControls.cpp:46-55 | From any state, under one gate that enforces unique ids, an id it has seen and that does not rest never rests again |
| `Replays.ReplayExact` | include/obe/EventLog.hpp:57-65 | Replaying the journal reproduces the whole state of a session, but for the kill switch itself, exactly when policy and final gate are the same, no gate was put in after a submit, no submit met the switch engaged, and the journal was not started after a submit or a cancel |
| `Replays.ReplayShows` | EVENT_SOURCING.md:76-87 | At every point since the journal was started the replay shows the same counts exactly when the journal was not started after a submit or a cancel and every submit is accepted by both gates or by neither; and then the same book |
| `Replays.Lockstep` | src/MatchingEngine.cpp:12-36 | Two engines that show the same show the same after every event exactly when their gates agree on every submit |
| `Replays.KillSwitchBreaksReplay` | include/obe/EventLog.hpp:59-64 | A submit under the switch always changes the counters of the gate; the book that replay reaches differs exactly when the gate would have let the submit through and it is for some quantity |
| `Replays.LateGateBreaksReplay` | include/obe/EventLog.hpp:59-64 | One submit ahead of the gate that would have rejected it leaves an order on the live book that no replay behind that gate has |
| `Replays.LateLogBreaksReplay` | include/obe/MatchingEngine.hpp:57-59 | One submit ahead of the start of the journal leaves an order on the live book that no replay has |
| `Replays.LoggedTerms` | src/MatchingEngine.cpp:6-10 | A journal start empties what the journal holds, a command is added to it, nothing else changes it |
| `Replays.Written` | include/obe/MatchingEngine.hpp:57-59 | Starting a journal starts its file anew: at the end it holds the header and the commands since the last start |
| `Replays.CrashRecovery` | src/EventLog.cpp:93-110 | Any file cut beyond its header replays to the state the live engine had after the prefix whose records are complete |
| `Replays.FullReplay` | src/EventLog.cpp:106-114 | With the whole file, replaying what it holds is applying all the commands |
| `Replays.SessionRecovery` | src/EventLog.cpp:93-110 | A cut journal of a session folds to what the journal held after some prefix of the session; with the whole file, of the session |
| `MatchingEngines.MatchingEngine.constructor` | include/obe/MatchingEngine.hpp:40-43 | A fresh engine is in the start state, with gate and journal off |
| `MatchingEngines.MatchingEngine.EnableLogging` | include/obe/MatchingEngine.hpp:57-59 | The journal is a new file with the header, in the place of the one there was; the rest is as before |
| `MatchingEngines.MatchingEngine.Apply` | src/MatchingEngine.cpp:5-41 | Journals first, then the engine's state becomes that of the pure semantics of the command: book, gate and counters |
| `MatchingEngines.MatchingEngine.EnableRisk` | include/obe/MatchingEngine.hpp:52 | The gate becomes a fresh one of the given configuration, the rest is as before |
| `MatchingEngines.MatchingEngine.EngageKillSwitch` | include/obe/RiskControls.hpp:85-87 | The switch of the gate, if there is one, is set; the rest is as before |
| `MatchingEngines.MatchingEngine.Serve` | src/MatchingEngine.cpp:5-41 | A whole session of commands, kill-switch changes, gate installations and journal starts computes the pure session: state, trades printed and journal |
| `MatchingEngines.MatchingEngine.Replay` | src/EventLog.cpp:106-110 | The loop computes the fold of the pure semantics, and re-journals exactly the stream if a journal is kept |
| `MatchingEngines.Recover` | src/EventLog.cpp:112-114 | Reads a journal and replays it, or refuses it and leaves the engine alone |
| `MatchingEngines.CrashAndRecover` | src/EventLog.cpp:76-114 | End to end on the classes: a session that starts journals at any time, the last file cut anywhere beyond the header, and a second engine of any policy, gate, pool and hash that recovers; it holds the state the first had after a prefix of its events exactly under the condition of `ReplayExact` on that prefix; with the whole file the prefix is the session |
| `MatchingEngines.Replicate` | include/obe/OrderBook.hpp:40-48 | Engines of one policy and gate but different pool capacities and hash functions are in the same state after the same session, and have printed the same trades, shown the same book and left the same journal |

## Left out

- `OrderGenerator`, the benchmark, the build and container files: random flow, timing and plumbing.
- File streams: a journal is a byte sequence; opening, flushing, closing and fsync are not modelled, and exceptions are failure results.
- The red-black tree of `std::map` and the hashing of `std::unordered_set`: a side is an ordered sequence of levels searched linearly, and the seen ids are a set.
- Raw storage, alignment and destructors: pool slots are objects whose fields are overwritten on construction, the pool is instantiated for orders only, and ring slots are live or dead.
- The full C++ memory model: loads are stale but coherent, and happens-before is the latest observed store of the other thread's index. The producer thread and the sentinel pushed after it by `drain_and_join` form one logical producer.
- `empty` and `size_approx` of the ring, concurrent reads of the counters, the level counts, and the starting, yielding and joining of threads.
- The SplitMix64 mixing of ids: the hash is an arbitrary function, which makes the theorems stronger.
- IOC, FOK and stop orders and the statuses that go with them: the engine passes no order type to the book. The type and trigger price are journalled and otherwise unused.
- Overflow of the sequence number, the event counters, the level and pool counts and the pool's block size: these are unbounded.
- A raw side byte above 1 acts as a sell in every branch, as in the source, and the model also prints it as a sell in a trade.
- The kill switch, an atomic flag in the source, changes between commands.
- The step of journalling a command and that of applying it are one step of the pipeline, with the store that ends the pop; the engine class is proved to do both in the order of the source.
- The accessors that hand out the book and the gate for writing (`include/obe/MatchingEngine.hpp:46` and `:53`): a session acts through commands, the kill switch, gate installations and journal starts only.
- A journal restarted on the path of one whose writer still holds unflushed records, and replaying several files of one session one after the other.
- FlatHashMaps.FlatHashMap.Insert: does not model 64-bit wrap-around of the load test and of the doubling; `LoadTestExact` says that the test cannot differ up to 2^61 slots, more than can be allocated.
- RiskControls.CollarExact: does not cover prices whose distance to the reference overflows 64 signed bits, which is undefined in the source; the check itself then takes the exact difference modulo 2^64.
- UniqueIds.NoSecondLife: states the promise for one gate; `RestsOnce` states it for whole sessions, and a gate put in anew starts with no ids.
- Replays.ReplayShows: compares engines of one self-trade policy; engines of different policies may or may not show the same.
- Pipeline.NoTrap: does not claim that the exit is reached under an unfair scheduler that repeats failing attempts for ever; `FairExits` is the claim for fair ones.
