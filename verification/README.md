# A Dafny model of the trading engine's core

The engine quotes on one instrument of one exchange. It keeps the exchange's order book from a depth stream,
reads a FIX feed, passes work between threads, sends and tracks its own orders, and keeps a profit-and-loss ledger.
This project models the parts of that which hold state over time, as imperative classes and atomic-step state
machines, and proves what they keep over every input, every interleaving and every run.

| file | models |
|---|---|
| `Arith.dfy`, `Wrappers.dfy`, `Bits.dfy`, `Bitmap.dfy` | integer facts, an optional value, 64-bit words, bitmaps of words and their searches |
| `BookSpec.dfy` | one side of an order book as a plain map with a cached best index and a quote |
| `BucketBook.dfy`, `MarketBook.dfy` | the three-level bucket book and its market-data entry point, refining the plain map |
| `BucketPeek.dfy`, `BucketPeekQty.dfy` | the three depth queries of the bucket book |
| `FlatBook.dfy` | the flat book's updates and quote |
| `MemoryPool.dfy` | the tagged lock-free free list as atomic steps of any number of threads |
| `SpscRing.dfy` | the single-producer single-consumer ring with stale, wrapping counters |
| `DepthStream.dfy`, `StreamProgress.dfy` | depth-stream synchronisation: buffering, snapshot, replay, gap recovery; what it accepts and when it gives up |
| `FixFraming.dfy`, `FixNoise.dfy` | reassembly of FIX 4.4 messages from arbitrary chunks, with and without noise in front |
| `Ledger.dfy`, `AverageCost.dfy` | position, cost and profit-and-loss fields, and what they mean as average-cost accounting |
| `FixedPoint.dfy`, `DecimalForm.dfy`, `ReciprocalMul.dfy` | decimal text in both directions, and multiplication by a reciprocal |
| `LayerBook.dfy`, `OrderState.dfy`, `Reconcile.dfy`, `Expiry.dfy` | the desk's own orders: layers, execution reports, planning and filters, time to live |
| `ReportOutcomes.dfy`, `PlanOutcomes.dfy`, `VenueBounds.dfy`, `OrderLives.dfy` | what each report, plan, filter and clamp does, and an order's life from end to end |
| `OrderDesk.dfy`, `OrderManager.dfy` | the order manager as a state machine and as the class that refines it |
| `DeskRuns.dfy`, `DeskPairs.dfy`, `DeskLimits.dfy`, `DeskTtl.dfy` | what the desk keeps over whole runs: reservation, two intents on one side book, limits, time to live |
| `DeskExamples.dfy` | concrete runs that leave what those theorems guard |

Where the source and its intent part, the model follows the source and says when the intent holds:

- Clear leaves the bucket book's cached best index as it is, so a later worse Add does not reach the BBO
  (`BookSpec.StaleCacheMissesAdd`, `BookSpec.AddExactIff`, `BookSpec.ClearFreshIff`).
- The reciprocal overshoots and the shift floors: non-negative products come out high by the whole units of
  overshoot, negative ones low by the overshoot rounded up (`ReciprocalMul.ExactIff`,
  `ReciprocalMul.HundredThousandTimesOne`, `ReciprocalMul.MinusOneTimesOne`).
- An over-closing hedge fill drops the leg's cost (`Ledger.LegExactIff`, `Ledger.OverCloseLosesCash`).
- Two active intents on one side book can be planned on one layer and then break the reservation
  (`DeskPairs.ApplyPairIff`, `DeskExamples.TwoBidsOverbook`); the run theorems are stated for at most one.
- Rounding to the quantity increment comes after the maximum, so it can exceed it
  (`VenueBounds.WithinMaximumIff`, `VenueBounds.ExceedsMaximum`).
- The quantity bought for the minimum value is truncated, so the order can be worth less
  (`VenueBounds.ReachesMinimumValueIff`, `VenueBounds.MissesMinimumValue`).
- The risk check looks at quotes only, so a cancel, rejection or expiry can take position and reservation out of
  the limits (`DeskLimits.LimitsIff`, `DeskExamples.CancelLeavesLimits`).
- A rejected replace can revive an order whose expiry entry has been swept
  (`DeskTtl.WatchedRunIff`, `DeskExamples.RejectEscapes`).
- The retry count is reset before the replay, so gaps in the replay never end the consumer
  (`StreamProgress.GivesUpIff`, `StreamProgress.GapsNeverAddUp`).
- The throttle compares position sides, so orders without one escape it (`PlanOutcomes.UnsidedNeverThrottled`).
- A pool without slots breaks the free list, and so does a pop exchange on a head tag 2^32 updates old; a push
  exchange never does (`MemoryPool.EmptyPoolBroken`, `MemoryPool.StepInvIff`, `MemoryPool.WrapLosesSlot`).

The rejection handler is modelled with its layer check first and with a copy of the pending replace taken before
it is reset; in the source the table is indexed before the check and read after the reset.

## Model

| member | source | states |
|---|---|---|
| Bits.FindBit | hft/src/order_book.hpp:76-106 | on a non-zero word the answer is a set bit and every other set bit is worse in the search direction |
| Bits.MakeMask | hft/src/order_book.hpp:80-120 | bit j is set exactly when j is in range and strictly worse than the offset, at both edges of the word |
| Bits.DropFirst | hft/src/order_book.hpp:250-275 | taking the first bit away leaves exactly the other bits |
| BucketPeek.DropIsSmaller | hft/src/order_book.hpp:250-275 | taking the first bit away makes the word smaller, so a word scan ends |
| Bitmap.SetAtHas | hft/src/order_book.hpp:1501-1505 | setting a bit changes membership at that place and nowhere else |
| Bitmap.ClearAtHas | hft/src/order_book.hpp:1501-1508 | clearing a bit changes membership at that place and nowhere else |
| Bitmap.SearchAll | hft/src/order_book.hpp:1222-1240 | the first set bit over all words in the search direction, or -1 exactly when there is none |
| Bitmap.SearchFrom | hft/src/order_book.hpp:355-379 | the first set bit strictly behind a start bit, across word boundaries, or -1 exactly when there is none |
| BookSpec.StepKeepsCache | hft/src/order_book.hpp:1700-1739 | Add, Cancel and Clear with any quantity keep: no active level is better than a non-negative cache, and a cache of -1 means an empty side |
| BookSpec.RunKeepsCache | hft/src/order_book.hpp:1567-1627 | the cache invariant holds after every sequence of operations, for both books |
| BookSpec.ActiveCacheIsBest | hft/src/order_book.hpp:1567-1571 | an active cached index is the best active index, so the shortcut is sound |
| BookSpec.FlatRunExact | hft/src/order_book.hpp:919-974 | after every sequence of operations with any quantities the flat book's BBO is exactly the best active level, or invalid when empty |
| BookSpec.AddExactIff | hft/src/order_book.hpp:1718-1739 | a bucket-book Add keeps an exact BBO if and only if a condition on the cache, the best level and the quantity holds before it |
| BookSpec.CancelExactIff | hft/src/order_book.hpp:1700-1716 | a bucket-book Cancel keeps an exact BBO if and only if it hits the cached index or misses the best level |
| BookSpec.ClearFreshIff | hft/src/order_book.hpp:1036-1055 | after Clear the cache is the best index if and only if it was -1 before, since Clear leaves it alone |
| BookSpec.QuietRunExact | hft/src/order_book.hpp:1700-1739 | after every sequence of positive Adds and Cancels the bucket book's BBO and cache are exact |
| BookSpec.LevelsAreLatest | hft/src/order_book.hpp:1700-1739 | after every run, of either book, a level is there exactly when the latest operation at its index since the last Clear was an Add of a positive quantity, and with that quantity |
| BookSpec.StaleCacheMissesAdd | hft/src/order_book.hpp:1036-1055 | the counterexample: Add, Clear, a worse Add leaves the BBO invalid on a non-empty side |
| BucketBook.ActiveLevel | hft/src/order_book.hpp:1485-1515 | an active level has its summary bit and its bitmap bit set |
| BucketBook.LevelOf | hft/src/order_book.hpp:1485-1515 | a set bitmap bit is an active level, the other direction of the refinement |
| BucketBook.StoreActive | hft/src/order_book.hpp:1496-1505 | storing a positive quantity keeps bitmap, summary and buckets in agreement and changes one entry of the plain map |
| BucketBook.StoreInactive | hft/src/order_book.hpp:1496-1514 | making a level inactive while others in its bucket stay active does the same |
| BucketBook.ReleaseBucket | hft/src/order_book.hpp:1506-1514 | making the last active level inactive releases the bucket, clears its summary bit and removes one entry of the map |
| BucketBook.BucketSide.UpdateLevel | hft/src/order_book.hpp:1485-1547 | the whole representation stays in agreement and the plain map changes at one index only |
| BucketBook.BucketSide.EnsureBucket | hft/src/order_book.hpp:1489-1495 | allocation takes one bucket from the pool only where none was there, and pool and allocated buckets still add up |
| BucketBook.BucketSide.NextActive | hft/src/order_book.hpp:1124-1140 | the next active level strictly behind a start index, or -1 |
| BucketBook.NextActiveIn | hft/src/order_book.hpp:1142-1205 | greatest active index below (bid) or least above (ask) any in-range start, or -1 exactly when none, across words, buckets and summary words |
| BucketBook.BucketSide.BestIdx | hft/src/order_book.hpp:1567-1627 | the best active index of the plain map, or -1 exactly when empty, also when the cache is stale |
| BucketBook.BucketSide.BestPrice | hft/src/order_book.hpp:1629-1637 | the price of the best active level, or the invalid price |
| BucketBook.BucketSide.BestQty | hft/src/order_book.hpp:1639-1657 | the quantity of the best active level, or the invalid quantity |
| BucketBook.BucketSide.AddOrder | hft/src/order_book.hpp:1718-1739 | levels, cache and BBO become those of the specification's Add, and the cache invariant is kept |
| BucketBook.BucketSide.DeleteOrder | hft/src/order_book.hpp:1700-1716 | levels, cache and BBO become those of the specification's Cancel, and the cache invariant is kept |
| BucketBook.BucketSide.ClearAll | hft/src/order_book.hpp:1036-1055 | every bucket returns to the pool and the side becomes the specification's Clear, stale cache included |
| MarketBook.MarketOrderBook.OnMarketData | hft/src/order_book.hpp:1011-1092 | on a book of any size, as long as the pool has a bucket for the level touched: both sides are after each update what the whole sequence of updates makes of an empty book |
| MarketBook.BookShowsLatest | hft/src/order_book.hpp:1011-1092 | after every sequence of updates a side has a level at a price exactly when the latest in-range update there was an Add or Modify with a positive quantity, and with that quantity; Cancel, Clear and other quantities leave none, and the other side is not touched |
| MarketBook.UpdatesAreOps | hft/src/order_book.hpp:1056-1069 | a sequence of updates is, on each side, the run of the Adds, Cancels and Clears it names, so the run theorems hold of it |
| MarketBook.UpdatesKeepCache | hft/src/order_book.hpp:1011-1092 | the cache invariant holds after every sequence of updates |
| MarketBook.QuietUpdatesExact | hft/src/order_book.hpp:1011-1092 | after every sequence of updates without Clear and without empty quantities the quote is the best level of each side |
| MarketBook.SmallBookServes | hft/src/order_book.hpp:158-160 | a book of at most 256 buckets always has one, so every update is served |
| MarketBook.PoolServes | hft/src/order_book.hpp:158-160 | with at least as many pool entries as buckets an allocation never fails |
| MarketBook.PoolRunsDry | hft/src/order_book.hpp:158-160 | with a smaller pool there is a sequence of Adds after which an allocation has nothing to take |
| BucketPeek.TopIsUnique | hft/src/order_book.hpp:1208-1339 | only one list is the first n active indices in strict priority, so the peeks below cannot differ |
| BucketPeek.NthOfTop | hft/src/order_book.hpp:1208-1339 | entry i of such a list is an active level, and the best of those not listed before it |
| BucketPeek.PeekLevels | hft/src/order_book.hpp:1208-1220 | exactly the first min(level, active count) active indices in strict price priority |
| BucketPeek.PeekLevelsWithQty | hft/src/order_book.hpp:1243-1339 | the same list with each level's exact quantity and price |
| BucketPeek.ScanWord | hft/src/order_book.hpp:250-275 | a word scan appends exactly its remaining levels in order and ends at the limit or the end of the word |
| BucketPeek.ScanBuckets | hft/src/order_book.hpp:381-450 | scanning on over words and allocated buckets skips no active level |
| BucketPeekQty.PeekQty | hft/src/order_book.hpp:1341-1450 | the same list again, with quantities and indices written to the output spans and their rest untouched; -1 on an empty side |
| BucketPeekQty.PeeksAgree | hft/src/order_book.hpp:1208-1450 | the three peeks report the same list |
| FlatBook.FlatSide.UpdateLevel | hft/src/order_book.hpp:773-811 | bitmap and summary words agree with the quantities and the plain map changes at one index |
| FlatBook.FlatSide.BestIdx | hft/src/order_book.hpp:813-861 | the best active index of the plain map, or -1 exactly when empty |
| FlatBook.FlatSide.AddOrder | hft/src/order_book.hpp:947-974 | the side becomes the specification's flat Add for any quantity |
| FlatBook.FlatSide.DeleteOrder | hft/src/order_book.hpp:919-937 | the side becomes the specification's flat Cancel |
| FlatBook.FlatSide.ClearAll | hft/src/order_book.hpp:513-528 | the side becomes the specification's Clear |
| MemoryPool.PackRoundTrip | hft/common/memory_pool.hpp:167-177 | unpack undoes pack for every 32-bit index and counter, inside 64 bits |
| MemoryPool.SwingCompares | hft/common/memory_pool.hpp:53-72 | an exchange that goes through on equal packed words has compared both index and tag |
| MemoryPool.InitInv | hft/common/memory_pool.hpp:30-40 | a new pool of at least one slot satisfies the invariant |
| MemoryPool.EmptyPoolBroken | hft/common/memory_pool.hpp:30-40 | a pool of no slots does not: its head names a slot that is not there |
| MemoryPool.TagsDecide | hft/common/memory_pool.hpp:42-72 | within 2^32 head updates equal tags and indices mean an unmoved head |
| MemoryPool.StepInvIff | hft/common/memory_pool.hpp:42-127 | a step of any thread keeps the invariant if and only if it is no pop exchange that installs a successor out of date; the invariant: free list acyclic and duplicate-free, every slot in exactly one place, every live copy consistent |
| MemoryPool.PushInv | hft/common/memory_pool.hpp:107-127 | a push exchange keeps the invariant however old the thread's copy of the head is |
| MemoryPool.WindowPopsCurrent | hft/common/memory_pool.hpp:42-72 | with fewer than 2^32 head updates between load and exchange a pop never installs a successor out of date |
| MemoryPool.RunInvIff | hft/common/memory_pool.hpp:42-127 | for every interleaving of any number of threads, double frees and spurious exchange failures included: the invariant holds at every point so far if and only if every pop exchange so far installed the current successor |
| MemoryPool.StepInv | hft/common/memory_pool.hpp:42-127 | a step keeps the invariant when fewer than 2^32 head updates lie between a popping thread's load and its exchange |
| MemoryPool.RunInv | hft/common/memory_pool.hpp:42-127 | the invariant at every point of every interleaving of any number of threads whose pop exchanges come fewer than 2^32 head updates after their load |
| MemoryPool.OnePlaceEach | hft/common/memory_pool.hpp:42-127 | a slot is on the stack, alive, or with exactly one thread, never two of these |
| MemoryPool.PopInstallsSuccessor | hft/common/memory_pool.hpp:42-72 | a successful pop CAS installs the head's current successor and hands out a slot nobody holds |
| MemoryPool.NullMeansExhausted | hft/common/memory_pool.hpp:45-50 | allocation gives up only when every slot is alive or in a thread's hands |
| MemoryPool.DoubleFreeIsRefused | hft/common/memory_pool.hpp:74-105 | in every interleaving, from a slot's return until it is handed out again every further free of it changes nothing |
| MemoryPool.ReturnedOncePerUse | hft/common/memory_pool.hpp:74-105 | in every interleaving, a slot whose return begins twice was handed out in between |
| MemoryPool.AllocateAlone | hft/common/memory_pool.hpp:42-72 | an allocation that nobody disturbs pops the head slot and makes it alive |
| MemoryPool.ReturnAlone | hft/common/memory_pool.hpp:74-127 | a return that nobody disturbs pushes the slot |
| MemoryPool.WrapLosesSlot | hft/common/memory_pool.hpp:42-72 | the counterexample: from a new pool of two slots, two threads reach a sound state in which a pop exchange goes through on a tag 2^32 updates old and breaks the invariant |
| MemoryPool.FailureMeansMoved | hft/common/memory_pool.hpp:42-127 | an exchange that is not spuriously refused fails only because another one has moved the head since the thread's load |
| MemoryPool.ExchangeAfterFreshLoad | hft/common/memory_pool.hpp:42-127 | in every interleaving a thread loads the head between any two of its exchanges, and the second compares what that load found |
| MemoryPool.FailedPopRetries | hft/common/memory_pool.hpp:42-72 | after a failed pop exchange a thread left alone allocates the first free slot in its next round |
| MemoryPool.FailedPushRetries | hft/common/memory_pool.hpp:107-127 | after a failed push exchange a thread left alone puts its slot first on the stack in its next round |
| SpscRing.FullTest | hft/common/spsc_queue.h:45-63 | on a stale tail copy a failed full test still means there is room |
| SpscRing.EmptyTest | hft/common/spsc_queue.h:74-79 | on a stale head copy a failed empty test still means there is an item |
| SpscRing.FreshTests | hft/common/spsc_queue.h:45-83 | on fresh copies full means full and empty means empty, with counters modulo 2^64 |
| SpscRing.WriteHitsNoUnread | hft/common/spsc_queue.h:45-72 | the slot the producer writes holds no unread item |
| SpscRing.TakeReadsOldest | hft/common/spsc_queue.h:74-83 | what the consumer reads is the oldest unread item, and it was written |
| SpscRing.RunIsFifo | hft/common/spsc_queue.h:45-83 | at every point of every interleaving the dequeued items are a prefix of the enqueued ones and occupancy stays within capacity |
| SpscRing.TakeOutcome | hft/common/spsc_queue.h:74-83 | a dequeue gives up exactly when its head copy equals its tail; otherwise it holds the oldest unread item |
| SpscRing.WriteOutcome | hft/common/spsc_queue.h:45-72 | an enqueue gives up exactly when its tail copy says full, a spinning one then waits with the same item; otherwise the item is in its slot |
| SpscRing.DequeueTakesOldest | hft/common/spsc_queue.h:74-83 | in every interleaving, a dequeue that looks while the ring holds an item takes the oldest one, whatever the producer does in between |
| SpscRing.EnqueueWritesItem | hft/common/spsc_queue.h:45-72 | in every interleaving, an enqueue that looks while the ring has room writes its own item, whatever the consumer does in between |
| SpscRing.DequeueAlone | hft/common/spsc_queue.h:74-83 | left alone on a ring that holds an item, dequeue appends exactly the oldest item to what was handed out and changes nothing else |
| SpscRing.EnqueueAlone | hft/common/spsc_queue.h:45-72 | left alone on a ring with room, enqueue appends exactly its item, spinning or not |
| DepthStream.AcceptedFollows | hft/src/depth_validator.h:32-74 | an accepted event starts no later than the next id and ends past the current one |
| DepthStream.RunSynced | hft/src/market_consumer.hpp:212-267 | at every point of every sequence of logins, events and snapshots, each id after the snapshot's up to the index lies within an event handed on since |
| DepthStream.SubscribeSynced | hft/src/market_data_protocol_policy.h:93-162 | one live event, accepted or not, keeps that coverage |
| DepthStream.SnapshotSynced | hft/src/market_consumer.hpp:173-267 | one snapshot with its erase, replay and retry paths keeps that coverage |
| DepthStream.IndexNeverDecreases | hft/src/market_data_protocol_policy.h:93-162 | until the next applied snapshot the index never goes back |
| DepthStream.SnapshotMovesOn | hft/src/market_consumer.hpp:212-267 | an applied snapshot sets the index to its id and the replay only moves it on |
| DepthStream.BufferKeepsOk | hft/src/market_data_protocol_policy.h:93-121 | buffering keeps the buffer contiguous and the first buffered id equal to its front, through the ten-event eviction |
| DepthStream.ErasedMeetsSnapshot | hft/src/market_consumer_recovery.hpp:54-69 | after the erase the first event left overlaps the snapshot or follows it at once |
| DepthStream.ContiguousBufferNeverGaps | hft/src/market_consumer.hpp:177-267 | a contiguous buffer and a snapshot that is not too old: the replay accepts every event left and the stream runs |
| DepthStream.ResyncSucceeds | hft/src/market_consumer.hpp:177-267 | from login through any contiguous events to such a snapshot the stream always ends running |
| DepthStream.ResyncAfterGap | hft/src/market_data_protocol_policy.h:123-162 | from a live event that opens a gap, through any contiguous events to such a snapshot, the stream runs again |
| StreamProgress.FirstAcceptedIff | hft/src/depth_validator.h:32-54 | the first event after a snapshot is accepted if and only if it reaches past it and starts no later than right after it, on Spot and Futures |
| StreamProgress.NextAcceptedIff | hft/src/depth_validator.h:56-76 | a later event is accepted if and only if it follows at once, by first id on Spot and by its predecessor's last id on Futures |
| StreamProgress.RunningKeepsUp | hft/src/market_data_protocol_policy.h:123-162 | a running stream hands on every event of a gapless sequence, in order, and keeps running |
| StreamProgress.GapStartsBuffering | hft/src/market_data_protocol_policy.h:146-160 | an event that is not accepted is not handed on and the stream buffers afresh |
| StreamProgress.BufferHoldsLatestTen | hft/src/market_data_protocol_policy.h:93-121 | a buffering stream holds exactly the ten latest depth events and hands on none |
| StreamProgress.UselessOutcome | hft/src/market_consumer.hpp:177-205 | a snapshot that is too old or could not be stored is one more failed attempt, nothing is applied, and the third in a row ends the consumer |
| StreamProgress.AppliedOutcome | hft/src/market_consumer.hpp:206-281 | a usable snapshot whose replay completes hands on exactly the events that reach past it, sets the stream running and forgets the failed attempts |
| StreamProgress.ReplayGapOutcome | hft/src/market_consumer.hpp:206-262 | a gap in the replay starts the buffering from nothing and counts as the first failed attempt whatever came before |
| StreamProgress.GivesUpIff | hft/src/market_consumer.hpp:177-262 | in every run the consumer gives up if and only if a useless snapshot comes after two failed attempts |
| StreamProgress.GapsNeverAddUp | hft/src/market_consumer.hpp:206-262 | the counterexample: any number of replay gaps one after the other does not end the consumer |
| DepthStream.MarketConsumer.OnSubscribe | hft/src/market_data_protocol_policy.h:74-162 | the consumer's fields become those of the specification's step for one event |
| DepthStream.MarketConsumer.EraseBufferLowerThan | hft/src/market_consumer_recovery.hpp:54-69 | exactly the events that end at or before the snapshot leave the front of the buffer |
| DepthStream.MarketConsumer.ReplayBuffer | hft/src/market_consumer.hpp:219-264 | the loop stops where the specification's replay stops, with its index |
| DepthStream.MarketConsumer.OnSnapshot | hft/src/market_consumer.hpp:173-267 | the consumer's fields become those of the specification's snapshot step, too-old and retry paths included |
| FixFraming.ExtractWhole | hft/core/fix/fix_app.cpp:283-315 | a whole well-formed message in front of any bytes is extracted, and nothing else |
| FixFraming.ExtractPartial | hft/core/fix/fix_app.cpp:283-315 | an incomplete prefix of a message is left in the buffer unchanged |
| FixFraming.DrainPrefix | hft/core/fix/fix_app.cpp:156-175 | draining any prefix of a stream of messages emits exactly the whole ones and keeps the rest |
| FixFraming.ChunkingIsInvisible | hft/core/fix/fix_app.cpp:156-175 | however the stream is cut into chunks, after each read the emitted messages are those that arrived whole, in order, and the buffer is the undelivered remainder |
| FixFraming.EverythingArrives | hft/core/fix/fix_app.cpp:156-175 | once the whole stream has arrived every message is out and the buffer is empty |
| FixNoise.NoiseIsSkipped | hft/core/fix/fix_app.cpp:249-261 | however noise and the messages behind it are cut into chunks, nothing of the noise is emitted, the messages that arrived whole are, and until the first header is there at most four characters are kept |
| FixNoise.EverythingArrivesAfterNoise | hft/core/fix/fix_app.cpp:156-175 | once noise and messages have all arrived, every message is out and the buffer is empty |
| FixNoise.NotANumberThrows | hft/core/fix/fix_app.cpp:283-298 | a BodyLength field that is no number ends the reader with an exception |
| FixFraming.FixReader.StripToHeader | hft/core/fix/fix_app.cpp:249-261 | the buffer begins at the first header, or is emptied of all before a possible one, as the specification says |
| FixFraming.FixReader.ExtractNext | hft/core/fix/fix_app.cpp:303-315 | one extraction: the message, the remainder, or a wait, as the specification says |
| FixFraming.FixReader.OnRead | hft/core/fix/fix_app.cpp:156-175 | one turn of the read loop emits what the specification's drain emits and keeps its remainder |
| Ledger.PositionInfo.AddReport | hft/src/position_keeper.cpp:79-187 | all fields become those of the ledger's fill, for any price, quantity and position side |
| Ledger.PositionInfo.UpdateQuote | hft/src/position_keeper.cpp:189-232 | all fields become those of the ledger's quote update; an unusable quote changes nothing |
| Ledger.PositionInfo.FillNet | hft/src/position_keeper.cpp:132-151 | the two open-cost entries and the realised delta, crossing and flattening included |
| Ledger.NetConservation | hft/src/position_keeper.cpp:132-151 | a fill moves realised result less open cost by the cash it moves and the residue the truncated average forgets, exactly |
| Ledger.ResidueBound | hft/src/position_keeper.cpp:136-142 | that residue is at most the old position's size less one, and only on closing fills |
| Ledger.NetLedger | hft/src/position_keeper.cpp:79-232 | after every sequence of fills and quotes without position sides the total is cash plus position at the last price plus the forgotten residue, within the sum of (size of the old position - 1) over closing fills |
| Ledger.LegConservation | hft/src/position_keeper.cpp:95-131 | one fill on one leg: books follow cash exactly, up to what an over-closing fill adds |
| Ledger.LegExactIff | hft/src/position_keeper.cpp:100-112 | a fill keeps a leg's books on its cash if and only if it does not over-close, or the cost left equals the excess at the fill price |
| Ledger.OverCloseLosesCash | hft/src/position_keeper.cpp:100-112 | the counterexample: a long leg of one bought at ten, closed by two at ten, moves its cash by twenty and its books by ten |
| Ledger.LegMarked | hft/src/position_keeper.cpp:164-176 | a marked open leg is worth its cash and its quantity at the mark, and exactly the cost's remainder more |
| Ledger.HedgeLedger | hft/src/position_keeper.cpp:79-184 | after every sequence of events without over-closing, long realised less long cost and short realised plus short cost are those legs' cash flows exactly |
| AverageCost.FillRealises | hft/src/position_keeper.cpp:132-151 | a fill realises exactly the quantity it closes times its price against the average, signed; an opening fill nothing |
| AverageCost.ClosingAtAverage | hft/src/position_keeper.cpp:132-151 | closing at the average price realises nothing |
| AverageCost.OpeningFill | hft/src/position_keeper.cpp:134-136 | an opening fill realises nothing, adds its price times its quantity to the open cost, and moves the average toward its price and not past it |
| AverageCost.PartialCloseKeepsAverage | hft/src/position_keeper.cpp:137-144 | a fill that closes a part keeps the average of the rest |
| AverageCost.WholeCloseLeavesNothing | hft/src/position_keeper.cpp:152-155 | a fill that closes all leaves no cost and nothing unrealised |
| AverageCost.CrossingOpensAtPrice | hft/src/position_keeper.cpp:145-149 | a fill that crosses zero opens the other side at its own price |
| AverageCost.FillMarks | hft/src/position_keeper.cpp:152-184 | after a fill the open position is marked at the fill's price, and the total is realised and unrealised together |
| AverageCost.LegCloses | hft/src/position_keeper.cpp:95-131 | a closing fill takes its quantity off the leg, down to nothing, and realises it against the leg's average; the rest keeps that average and the remainder |
| AverageCost.LegOpens | hft/src/position_keeper.cpp:97-99 | a fill that opens on a leg realises nothing and moves the leg's average toward its price and not past it |
| AverageCost.OnlyTheNamedLeg | hft/src/position_keeper.cpp:95-184 | a fill changes the leg it names and no other, an empty leg has nothing unrealised, and in hedge mode the realised result is both legs' together |
| AverageCost.QuoteMarks | hft/src/position_keeper.cpp:189-232 | a usable quote changes only what is unrealised and the total, and leaves a flat position's result; any other quote changes nothing |
| AverageCost.QuoteMarksOpen | hft/src/position_keeper.cpp:198-208 | a usable quote marks the open position at the mid price against its cost |
| AverageCost.PositionAndVolume | hft/src/position_keeper.cpp:79-94 | after every sequence of events the position is bought less sold and the volume is both |
| AverageCost.RealisedIsGains | hft/src/position_keeper.cpp:79-187 | after every sequence of fills and quotes without position sides the realised result is the sum of all closing gains, each against the average at its turn |
| FixedPoint.StringToFixed | hft/common/fixed_point.hpp:33-68 | the value of the scanned sign, integer and fraction, for any text |
| FixedPoint.ParseNumeral | hft/common/fixed_point.hpp:33-68 | every decimal numeral parses to its value at the scale, extra fraction digits truncated |
| FixedPoint.RoundTrip | hft/common/fixed_point.hpp:206-265 | parsing the text of any raw value at any power-of-ten scale gives the value back |
| FixedPoint.ParseFits | hft/common/fixed_point.hpp:33-68 | reading back the text of a 64-bit value at a scale up to 10^8 never leaves 64 bits |
| FixedPoint.ToString | hft/common/fixed_point.hpp:206-265 | the buffer holds as much of the text as fits, a terminator, and is otherwise unchanged; an empty buffer gives 0 |
| FixedPoint.ToString2 | hft/common/fixed_point.hpp:473-546 | the two-digit printer leaves the same characters, terminator and length in the buffer |
| FixedPoint.PrintFits | hft/common/fixed_point.hpp:229-231 | the text of a 64-bit value never exceeds 29 characters, well inside the 64-character scratch buffer |
| DecimalForm.PrintIsCanonical | hft/common/fixed_point.hpp:206-265 | every value is printed signed exactly when negative, without leading zeros, with a point exactly when it has a fraction, and without trailing zeros |
| DecimalForm.OtherCharactersAreSkipped | hft/common/fixed_point.hpp:41-60 | the parser skips every character that is no digit, minus or point, wherever it stands |
| DecimalForm.SignAnywhere | hft/common/fixed_point.hpp:41-50 | a minus anywhere makes the number negative and a point anywhere starts the fraction |
| ReciprocalMul.Constants | hft/common/fixed_point.hpp:29-31 | the reciprocal is 184467440738 and overshoots by 90448384 |
| ReciprocalMul.NoWrap | hft/common/fixed_point.hpp:122-131 | wherever the product with the reciprocal fits 128 bits the 64-bit result is exact too |
| ReciprocalMul.SmallProduct | hft/common/fixed_point.hpp:127-131 | a non-negative product whose overshoot stays below 2^64 is divided exactly |
| ReciprocalMul.NonNegativeProduct | hft/common/fixed_point.hpp:127-131 | wherever it fits, a non-negative product comes out at the quotient and the whole units of overshoot |
| ReciprocalMul.AtMostOneMore | hft/common/fixed_point.hpp:127-131 | up to an excess of one unit that is the quotient, or one more exactly when the overshoot reaches a unit |
| ReciprocalMul.HundredThousandTimesOne | hft/common/fixed_point.hpp:127-131 | the counterexample: 100000.0 times 1.0 comes out 49 units high |
| ReciprocalMul.NegativeProduct | hft/common/fixed_point.hpp:127-131 | wherever it fits, a negative product comes out below its truncated quotient by the overshoot rounded up to whole units |
| ReciprocalMul.ExactIff | hft/common/fixed_point.hpp:122-134 | wherever the product does not overflow, the result equals the truncated quotient if and only if the product is non-negative and its overshoot stays below a unit |
| ReciprocalMul.MinusOneTimesOne | hft/common/fixed_point.hpp:127-131 | the counterexample: -1 times 1 gives -1.00000001 |
| LayerBook.TickOfPrice | hft/src/quote_reconciler.h:297-299 | a price lies at or above its tick's price and below the next tick's |
| LayerBook.FindTickIsFirst | hft/src/layer_book.h:114-120 | the answer is the first layer with the tick, and -1 means there is none |
| LayerBook.FindSlotIsFirst | hft/src/layer_book.h:121-129 | the answer is the first layer with the id, and -1 means there is none |
| LayerBook.FindFreeIsFirst | hft/src/layer_book.h:131-140 | the answer is the first free layer, and -1 means there is none |
| LayerBook.Victim | hft/src/layer_book.h:142-148 | the least recently used layer, the first of them on a tie |
| LayerBook.PlanLayer | hft/src/layer_book.h:179-189 | the planned layer is the only one that may hold the tick, and an eviction hits a live order |
| LayerBook.SideBook.FindLayerByTicks | hft/src/layer_book.h:114-120 | the loop returns the first layer with the tick |
| LayerBook.SideBook.FindLayerById | hft/src/layer_book.h:121-129 | the loop returns the first layer with the id, and -1 for the invalid id |
| LayerBook.SideBook.FindFreeLayer | hft/src/layer_book.h:131-140 | the loop returns the first free layer |
| LayerBook.SideBook.PickVictimLayer | hft/src/layer_book.h:142-148 | the loop returns the least recently used layer |
| LayerBook.SideBook.PlanFor | hft/src/layer_book.h:179-189 | the plan of the specification |
| LayerBook.SideBook.UnmapLayer | hft/src/layer_book.h:155-177 | the layer's tick, ids and pending replace go, everything else stays |
| LayerBook.SlotKeepsOk | hft/src/layer_book.h:52-79 | replacing an occupied slot keeps the book in order and moves the quantity held by the difference |
| LayerBook.DeathKeepsOk | hft/src/layer_book.h:155-177 | a layer that dies takes exactly its quantity with it and leaves no id or pending replace behind |
| OrderState.HandleConserves | hft/src/order_state_manager.cpp:23-57 | every consistent report keeps the book in order and releases exactly what the layers lose |
| OrderState.NewConserves | hft/src/order_state_manager.cpp:74-120 | a new acknowledgement, plain or ending a replace, moves no quantity |
| OrderState.PartialFillConserves | hft/src/order_state_manager.cpp:122-150 | a partial fill releases exactly what the layer loses, a fill to nothing included |
| OrderState.CanceledConserves | hft/src/order_state_manager.cpp:191-222 | a cancel for a replace moves no quantity; a terminal cancel releases the layer's |
| OrderState.RestoredConserves | hft/src/order_state_manager.cpp:235-256 | a rejected replace rolls quantity and reservation back together |
| OrderState.RejectedConserves | hft/src/order_state_manager.cpp:224-289 | a rejection or expiry conserves on both of its paths |
| OrderState.OrderStateManager.LayerOf | hft/src/order_state_manager.cpp:291-299 | by id, else by tick |
| OrderState.OrderStateManager.OnNew | hft/src/order_state_manager.cpp:74-120 | slot, tick, pending replace and ids become those of the specification |
| OrderState.OrderStateManager.OnPartialFill | hft/src/order_state_manager.cpp:122-150 | book and reservation become those of the specification |
| OrderState.OrderStateManager.OnFilled | hft/src/order_state_manager.cpp:152-171 | book and reservation become those of the specification |
| OrderState.OrderStateManager.OnCanceled | hft/src/order_state_manager.cpp:191-222 | book and reservation become those of the specification |
| OrderState.OrderStateManager.OnRejected | hft/src/order_state_manager.cpp:224-289 | book and reservation become those of the specification |
| OrderState.OrderStateManager.HandleReport | hft/src/order_state_manager.cpp:23-57 | the dispatch: book and reservation become those of the specification for every status |
| ReportOutcomes.NamedLayer | hft/src/order_state_manager.cpp:291-299 | a report names the first layer with its id, or the first with its price's tick when no layer has the id |
| ReportOutcomes.NoLayerNoChange | hft/src/order_state_manager.cpp:23-289 | a report that finds no layer changes neither book nor reservation, whatever its status |
| ReportOutcomes.TouchesOneLayer | hft/src/order_state_manager.cpp:23-289 | a report of any status leaves slot, tick and pending replace of every other layer as they were |
| ReportOutcomes.TouchesOneLayersIds | hft/src/order_state_manager.cpp:23-289 | a report takes ids from the layer it acts on and no other, and gives none |
| ReportOutcomes.PendingOutcome | hft/src/order_state_manager.cpp:59-72 | a pending acknowledgement sets the order's state and nothing else in the book |
| ReportOutcomes.NewOutcome | hft/src/order_state_manager.cpp:74-120 | an acknowledged order is live at the report's price, quantity and id with its tick known and no replace in flight |
| ReportOutcomes.PartialFillOutcome | hft/src/order_state_manager.cpp:122-150 | a fill that leaves something leaves the order live with what is left, used now, at its price, tick and id, and releases the difference |
| ReportOutcomes.FillOutcome | hft/src/order_state_manager.cpp:122-171 | a fill that leaves nothing ends the order: dead, with no tick, id or replace left, its quantity released |
| ReportOutcomes.CanceledOutcome | hft/src/order_state_manager.cpp:191-222 | the cancel half of a replace makes the layer wait for the new order; any other cancel ends the order |
| ReportOutcomes.RejectedOutcome | hft/src/order_state_manager.cpp:270-282 | a rejection or expiry ends the order and releases what it held |
| ReportOutcomes.ReplaceRejectedOutcome | hft/src/order_state_manager.cpp:235-256 | a rejected replace brings the order before it back live at its price, quantity, id and tick, with nothing in flight |
| Reconcile.ChooseReady | hft/src/quote_reconciler.h:345-408 | what an active intent asks for carries its price and quantity, on a free layer (new) or a live one with that order's id and quantity (replace), with its tick on no other layer |
| Reconcile.DiffSound | hft/src/quote_reconciler.h:313-428 | with at most one active intent a side book, all actions are on different side books and each is ready to be carried out |
| PlanOutcomes.PlannedLayer | hft/src/layer_book.h:179-189 | the layer that has the tick, else the first free one, else the least recently used one, pushed out exactly when it is live |
| PlanOutcomes.ChosenWhen | hft/src/quote_reconciler.h:345-408 | an intent becomes a new order exactly on an unoccupied layer, a replace exactly when it pushes out a live order or differs from the one on its layer by a replace threshold, and nothing while that order is in flight |
| PlanOutcomes.DiffIsAsked | hft/src/quote_reconciler.h:313-428 | the plan is what the intents ask for, all buys first and then all sells, each in the order of the intents |
| PlanOutcomes.EveryIntentIsPlanned | hft/src/quote_reconciler.h:313-428 | what any intent asks for is in the plan |
| Reconcile.ErasedSub | hft/src/quote_reconciler.h:144-161 | the throttle's swap-with-last erasure adds nothing, and repeats nothing when nothing was repeated |
| Reconcile.ErasedNone | hft/src/quote_reconciler.h:144-161 | no action of the throttled side and position side is left |
| Reconcile.ErasedKeeps | hft/src/quote_reconciler.h:144-161 | every other action is left |
| Reconcile.EraseMatching | hft/src/quote_reconciler.h:150-158 | the loop leaves what the specification leaves, in its order |
| Reconcile.LatestUse | hft/src/layer_book.h:191-212 | the latest use of a live or reserved layer, 0 when there is none |
| PlanOutcomes.LatestIsMaximum | hft/src/layer_book.h:191-212 | the latest use is that of a live or reserved layer, and none is later |
| PlanOutcomes.RecentIff | hft/src/quote_reconciler.h:140-161 | a side book is too recent if and only if a live or reserved layer was used less than the gap ago, or the clock is below the gap |
| PlanOutcomes.ThrottledIff | hft/src/quote_reconciler.h:144-186 | the throttle takes out exactly the actions with a position side on side books that are too recent |
| PlanOutcomes.UnsidedNeverThrottled | hft/src/quote_reconciler.h:144-186 | actions without a position side are never throttled, although they share the long side books |
| Reconcile.RoundsUp | hft/src/quote_reconciler.h:134-137 | the next whole increment and no further |
| Reconcile.ClampAll | hft/src/quote_reconciler.h:210-255 | the loops leave every action clamped and rounded as the specification says, in order |
| VenueBounds.WithinMaximumIff | hft/src/quote_reconciler.h:223-229 | an order stays within the maximum if and only if the clamped quantity is at most the largest whole increment in it, since rounding comes last |
| VenueBounds.ExceedsMaximum | hft/src/quote_reconciler.h:223-229 | the counterexample: with a maximum of 15 and an increment of 10 an order of 12 goes out as 20 |
| VenueBounds.ClampKeeps | hft/src/quote_reconciler.h:210-255 | clamping changes only the two quantities, and an order that keeps all bounds in whole increments goes out as it is |
| VenueBounds.EnoughValue | hft/src/quote_reconciler.h:213-231 | an order of enough value goes out as its own quantity or the minimum, whichever is larger, rounded up |
| VenueBounds.TooLittleValue | hft/src/quote_reconciler.h:216-231 | an order of too little value goes out as the most units the minimum value buys, rounded up, or as the rounded maximum |
| VenueBounds.AboveMaximum | hft/src/quote_reconciler.h:227-231 | an order above the maximum goes out as the rounded maximum |
| VenueBounds.ReachesMinimumQtyIff | hft/src/quote_reconciler.h:213-229 | an order reaches the minimum quantity if and only if the rounded maximum does |
| VenueBounds.ReachesMinimumValueIff | hft/src/quote_reconciler.h:213-229 | an order's value reaches the minimum if and only if: capped, the rounded maximum is worth it; raised for its value, the price divides the scaled minimum or rounding goes up; otherwise always |
| VenueBounds.MissesMinimumValue | hft/src/quote_reconciler.h:213-229 | the counterexample: with a minimum value of 10 an order at price 3 goes out as 3 and is worth 9 |
| Reconcile.ClampReady | hft/src/quote_reconciler.h:232-254 | clamping keeps an action ready: rounding does not change the replaced quantity when slots hold whole increments |
| Reconcile.FilterActions | hft/src/order_manager.hpp:283-311 | the erase loop keeps exactly the actions that pass against the running total, and its total is the reservation plus their sum |
| Reconcile.FilteredInRange | hft/src/risk_manager.cpp:21-68 | after every accepted action position plus running total is within the limits |
| PlanOutcomes.KeptIff | hft/src/risk_manager.cpp:21-68 | an action is kept if and only if order size, both position limits and the loss limit hold at its turn, with what was kept before it reserved |
| PlanOutcomes.VerdictIsFirstBreach | hft/src/risk_manager.cpp:21-68 | the reason given for a refusal is the first bound that is broken: size, maximum, minimum, loss |
| PlanOutcomes.KeptWithinOrderLimit | hft/src/risk_manager.cpp:24-66 | every action kept is within the order limit, and with the loss past its limit nothing is kept |
| Expiry.OrderExpiryManager.SweepExpired | hft/src/order_expiry_manager.h:74-83 | exactly the due entries, with multiplicity, in non-decreasing order of expiry; exactly the others stay |
| OrderManager.OrderManager.OnOrderUpdated | hft/src/order_manager.hpp:79-119 | books, reservation and queue become those of the desk's step for one report |
| OrderManager.OrderManager.SendNew | hft/src/order_manager.hpp:322-366 | one new order: slot, tick, reservation and expiry entry, or nothing when another layer has the tick |
| OrderManager.OrderManager.SendReplace | hft/src/order_manager.hpp:371-461 | one replace: slot, tick, ids, pending replace, reservation and expiry entry, for both kinds of venue |
| OrderManager.OrderManager.ProcessNewOrders | hft/src/order_manager.hpp:320-367 | the loop carries out the new orders in order |
| OrderManager.OrderManager.ProcessReplaceOrders | hft/src/order_manager.hpp:369-462 | the loop carries out the replaces in order |
| OrderManager.OrderManager.SweepExpiredOrders | hft/src/order_manager.hpp:483-515 | exactly the live and reserved orders with a due entry of their own id are marked for cancel, whatever the order of equal expiries |
| OrderManager.OrderManager.PlanAll | hft/src/quote_reconciler.h:313-428 | the two passes over the intents give the specification's plan |
| OrderManager.OrderManager.FilterAll | hft/src/order_manager.hpp:241-245 | plan, throttle, clamp and risk check in this order |
| OrderManager.OrderManager.ApplyQuotes | hft/src/order_manager.hpp:230-257 | the desk becomes that of the specification's apply |
| DeskRuns.ApplyOk | hft/src/order_manager.hpp:230-257 | apply keeps the desk in order and ends with the reservation the risk check computed |
| DeskRuns.UpdateOk | hft/src/order_manager.hpp:79-119 | a consistent report keeps the desk in order |
| DeskRuns.SweepOk | hft/src/order_manager.hpp:483-515 | a sweep moves no quantity |
| DeskRuns.ReservedIsHeld | hft/src/order_manager.hpp:320-515 | at every point of every run of applies, sweeps and consistent reports the reserved position is buys less sells over all occupied layers of the four side books |
| DeskRuns.ReplaceUndone | hft/src/order_state_manager.cpp:235-256 | for both kinds of venue a rejected replace leaves the book as it was before it, but for the layer's last use, and releases exactly what it reserved |
| DeskRuns.ReplaceCompletes | hft/src/order_state_manager.cpp:93-104 | the cancel half and then the new half of a cancel-and-reorder leave the new order live at its tick and nothing in flight |
| OrderLives.NotSentIff | hft/src/order_manager.hpp:322-340 | an action is not sent if and only if another layer comes first with its tick, and then nothing changes |
| OrderLives.OnlySurvivorsAreSent | hft/src/order_manager.hpp:241-257 | whatever an apply sends, new order or replace, was planned, is not throttled, is clamped by the venue's rules, is within the order limit and finds the loss within its limit |
| OrderLives.SentOutcome | hft/src/order_manager.hpp:322-461 | an action sent changes its layer alone, reserves what it adds, and is queued with the time to live of a reserved order |
| OrderLives.ReplaceRemembers | hft/src/order_manager.hpp:371-461 | a replace remembers the order it replaces, and both replies of the venue lead to its layer |
| OrderLives.SweepOutcome | hft/src/order_manager.hpp:483-515 | a sweep cancels exactly the live and reserved orders with a due entry of their own and leaves all else as it was |
| OrderLives.SweepQueue | hft/src/order_expiry_manager.h:74-83 | a sweep takes exactly the due entries out of the queue, with their multiplicity |
| OrderLives.LiveOrderExpires | hft/src/order_manager.hpp:79-119 | an acknowledgement or a partial fill queues its layer once, with the time to live of a live order |
| OrderLives.OthersRegisterNothing | hft/src/order_manager.hpp:79-119 | no report other than an acknowledgement or a partial fill starts a time to live |
| OrderLives.LifeOfAnOrder | hft/src/order_manager.hpp:79-366 | a new order that is acknowledged, filled in part any number of times and ended in any way has released exactly what it reserved, its layer is free, and no other layer has been touched |
| DeskPairs.SameLayer | hft/src/quote_reconciler.h:345-362 | two quotes of one side book at one tick, or at ticks it does not know, are planned on the same layer, both as new orders or both as replaces, evictions included |
| DeskPairs.PairConservesIff | hft/src/order_manager.hpp:320-462 | two ready actions on one side book, new or replace, leave the reservation right if and only if they are on different layers, the first moved nothing, or the second is not carried out; else it is off by exactly what the first reserved |
| DeskPairs.ApplyPairIff | hft/src/order_manager.hpp:230-257 | one apply with two active intents on one side book conserves if and only if the filters leave fewer than two actions, or two under that guard |
| DeskExamples.TwoBidsOverbook | hft/src/order_manager.hpp:230-257 | the counterexample: two bids in one apply of an empty desk leave a reservation that is not what the layers hold |
| DeskLimits.LimitsHold | hft/src/order_manager.hpp:278-318 | in every run without terminal cancels, rejections and expiries, minimum <= position + reserved <= maximum at every point |
| DeskLimits.StepWithinLimits | hft/src/trade_engine.hpp:148-156 | each quote, acknowledgement and fill keeps that, fills moving quantity from reserved to position |
| DeskLimits.ReportWithinIff | hft/src/order_state_manager.cpp:191-289 | from within the limits a report stays within them if and only if there is room: what a cancel, rejection or expiry gives back of a buy is at most the distance to the minimum, of a sell at most the distance to the maximum, a shrinking replace's rejection the other way round |
| DeskLimits.LimitsIff | hft/src/order_manager.hpp:79-119 | in every plausible run with terminal reports of any kind, every point is within the limits if and only if every cancel, rejection and expiry finds that room |
| DeskExamples.CancelLeavesLimits | hft/src/order_state_manager.cpp:191-222 | the counterexample: with a limit of five, a bid of five and an ask of ten pass, and canceling the bid leaves the limits |
| DeskTtl.NoneEscapes | hft/src/order_manager.hpp:79-119 | in every run whose reports resolve by unique ids and revive no order without an entry, every live order has a pending entry with its layer and id, and after apply one that is not yet due |
| DeskTtl.SweepWatched | hft/src/order_manager.hpp:483-515 | after a sweep every order still live has an entry that is not yet due |
| DeskTtl.UpdateWatched | hft/src/order_manager.hpp:79-119 | a report that resolves by id starts the time to live of the layer it makes live |
| DeskTtl.WhoGoesLive | hft/src/order_state_manager.cpp:23-289 | only an acknowledgement, a partial fill or the rejection of a replace makes a layer live, and with which id |
| DeskTtl.WatchedIff | hft/src/order_state_manager.cpp:235-256 | such a report keeps every live order watched if and only if it does not revive an order whose entry has been swept |
| DeskTtl.WatchedRunIff | hft/src/order_manager.hpp:79-119 | in every run whose reports resolve by unique ids, every live order is watched at every point if and only if no rejected replace revives an order whose entry is gone |
| DeskExamples.RejectEscapes | hft/src/order_state_manager.cpp:235-256 | the counterexample: new, acknowledgement, a replace and sweep past the old entry, rejection end with a live order that has no entry |
| DeskTtl.EntriesExpire | hft/src/order_expiry_manager.h:58-72 | no entry is later than the last event and the longer time to live |

## Left out

- Sockets, TLS, the WebSocket and HTTP libraries, JSON and the FIX session and field codecs: foreign or generated code.
- Clocks, configuration and logging: clock readings and configuration values are parameters, and logging is not modelled.
- Integer overflow of 64-bit prices, quantities, products, timestamps and ledger sums: integers are unbounded except where a width is stated (words, packed heads, ring counters, update ids, ticks, `ReciprocalMul`, `FixedPoint.ParseFits`).
- Memory orderings weaker than sequential consistency: the lock-free pool and the ring are interleavings of atomic steps.
- The flat book's next-active search and peeks: one of its shifts is by the full word width, which has no defined result.
- BucketPeekQty.PeekQty: the output spans are sequences, so aliasing between the two spans is not captured.
- Products that overflow 128 bits in `ReciprocalMul`: the source's result is undefined there.
- MarketBook.MarketOrderBook.OnMarketData: an update whose side has no bucket left to take is not modelled, because the source then writes through a null pointer; `MarketBook.PoolRunsDry` shows when that happens. The call into the trade engine after each update and the trade branch of both books are not modelled.
- Futures id coverage in the depth stream: the first-event rule is reused after the replay, so only the Spot coverage is claimed.
- Returning pooled objects in the gap and too-old-snapshot paths of the market consumer: no conservation is claimed there.
- Ledger.HedgeLedger: makes no claim about the total in hedge mode, which adds net unrealised to long and short realised results.
- Ledger.NetLedger: stated for non-negative prices and quantities; `Ledger.PositionInfo.AddReport` covers all integers.
- FixedPoint.ToString: the most negative 64-bit value is excluded, because negating it has no defined result.
- FixedPoint.ToString2: the two-digit table is a rule for its entries rather than the two hundred characters.
- The side books' fixed arrays are sequences that the methods reassign, and the expiry heap is a multiset whose top is a least entry; the heap's internal order is not modelled.
- Reconcile.ClampAll: where the source divides by a price of zero the model gives zero; the results over runs require positive prices.
- `process_cancel_orders`: the planner never produces cancels, so the branch is not reached.
- The futures modify path and the spot cancel-and-reorder path differ by a configuration flag; requests to the exchange themselves are not modelled.
- Strategies, feature engine, inventory model, `to_double` conversions and floating-point tick construction: floating point or easy.
- `hft/common/mpsc_queue_cas.hpp`, `repository/broker.cpp` and the thread and CPU utilities: no caller among the modelled parts, or input and output only.
