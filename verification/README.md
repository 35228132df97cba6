# Verified model of the broker's data-structure and protocol layer

This project models the code on which the trading pipeline stands: the order-index hash table, the
lock-free ring queues, the gateway's byte protocol, the journal, the CAS free lists, and the arena and tier
allocators. Each component is written the way the code works (arrays, cursors, counters and links changed in
place, or one atomic access per step) and is proved to agree with a simple object: a map, a bounded FIFO, a
left-to-right framer, a byte sequence, a partition of blocks.

`dafny verify dfyconfig.toml` checks everything.

## How it is organised

| file | what it holds |
|---|---|
| Bits, Sets, Options, Ring, ByteRing | 64-bit masking and rounding, set sizes, optional values, ring index arithmetic, the sequential ring queue |
| HashTable, HashRefinement, HashMap | the table on values, its meaning as a map, the table in place |
| HashAnswers, HashGrowth, HashRuns | what every put does to every get, when the table doubles, failing runs from init |
| Spsc, Mpsc | the queues as step machines under every interleaving, and what becomes of every call |
| Framing, OrderText, GatewayCore, GatewayOffers, Gateway | wire format, text orders, what complete frames do over whole runs, what the events alone say must be handed over, the connection and context objects |
| Journal, JournalRuns | ring, batch buffer and file, as a machine and in place; where every byte is, read off the run |
| FreeList, SlabCounters, Slab, ListCalls, ObjectPool | the concurrent free list, its counters on top of it, the slab layout and object, the slab's calls as runs of the free list, the object pool |
| Arena, ArenaRuns, MemoryPool | carving, bump allocation and recycling; what the calls return along a run; the arena objects |
| Tier, TierFlow, TierCalls, TierRuns | HOT, WARM and COLD under every interleaving; what becomes of every request; whole calls and the allocator in place; failing runs |

Conventions. Machine integers are naturals with the wrap-around written out where the code can reach it.
Pointers are numbers and 0 is NULL. Memory exhaustion, read, write and send results, clock readings and heap
addresses are parameters. The step machines interleave sequentially consistent steps, which is stronger than
the orders the code asks for (section 7.17.3 of ISO/IEC 9899:2011). Fields called history record what happened
and influence nothing; what a run calls for is read off its actions, so that a call which is forgotten is noticed.

## What the proofs brought out

Where a promise fails, a lemma gives the exact condition under which it holds and another one a run that breaks it.

- The hash table's tombstone counter is never decremented on reuse. `TombstoneAccounting` proves the weaker
  inequality that holds and that it is enough. So count and tombstones together grow by one with every store and
  fall only when the table doubles (`LoadCountsStores`, `NextDoubling`): putting and removing one key makes the
  table grow to every capacity there is (`OneKeyGrowsForEver`). The tombstone marker given as a value breaks the
  accounting (`PutKeepsInvExactly`, `MarkerBreaks`).
- A put of a present key succeeds when a tombstone precedes it (`PutStoresExactly`, `DuplicateShadows`, reached in
  `ShadowingReached`). Get then answers with the copy that the fewest probes reach, and a doubling keeps the lowest
  slot of each key: the two differ exactly for a key stored on both sides of its home slot
  (`FoundIsLowestExactly`). `PutAnswers` says what every put does to every get. A doubling put of any key, stored
  or rejected, can take the answer for another key back to an older value (`PutLeavesOthers`, `RejectedPut`,
  reached in `AnswerGoesBack`). Init loops for ever on requests above 2^63 (`RoundingEnds`).
- An MPSC swap that wins while the index after the tail is the head overfills the ring (`WinKeepsTicketsExactly`,
  `OverfullExactly`). It takes a push
  that stalls while the tail goes once round (`LateSwapLosesItems`), and that is harmless if the ring has been
  drained meanwhile (`LateSwapHarmless`). A pop can read a slot before it is written (`ReadReturns`,
  `EarlyReadDeliversStale`), and a push can report a full ring that is empty (`FullReport`, `FullReportedOnEmpty`).
  All the same every push called is claimed, refused or under way (`CallsAreSettled`).
- A frame length of 65536 passes the gateway's check but never fits the ring, so delivery stops there
  (`StuckHeader`, `LongestLengthStalls`).
- The duplicate filter's comment speaks of false rejects; the code never rejects falsely, it forgets
  (`DropExactly`, `RepeatNeedsCollision`). The rate limit holds for a second in which no window begins, and admits
  twice its number otherwise (`RateLimitHolds`, `DoubleRateReached`).
- A capacity flush that gets too few bytes out is followed by a copy past the buffer (`RoomExactly`,
  `DiskFailureOverruns`).
- The pool's comment allows several allocating threads; two of them can hand out a block that is in use
  (`PopExactly`, `TwoAllocatorsBreakIt`, `HandedOutTwice`). The slab counters then disagree with the list
  (`TwoAllocatorsMiscount`), and two threads that HOT requests send to one slab can get the same block
  (`SharedSlabHandsOutTwice`); one allocating thread at a time in each slab is enough (`ExclusiveHotDisjoint`).
- Rounding a size above 2^64 - 64 gives 0 bytes in slabs, arenas and WARM memory; arena and WARM sums can wrap
  (`AlignedSizeCovers`, `SoundExactly`, `WrappedRequestOverlaps`, `WarmExactly`, `HugeRequestGetsNothing`,
  `WarmWrapOverlaps`). A WARM request that is refused moves the offset all the same, so the pool serves nothing after
  it, however small (`WarmServedExactly`, `RefusalUsesUp`). The HOT round-robin index goes negative after 2^31 requests (`HotIndexExactly`,
  `HotIndexWraps`). An empty WARM request can be classified as COLD (`ClassifyNamesServer`, `EmptyRequestIsCold`).
  A HOT block holds its request only up to 64 bytes (`HotFitsExactly`, `HotRequestsOverlap`).

## Model

| member | source | states |
|---|---|---|
| Bits.MaskIsMod | src/include/bt_hashmap.h:38-40 | `x & (cap - 1)` is `x` modulo the capacity for every power of two |
| HashTable.ProbeIsMod | src/include/bt_hashmap.h:38-40 | the probe index is (key + i) mod capacity for every 64-bit key, also when key + i wraps |
| HashTable.ScansStop | src/include/bt_hashmap.h:100-116 | every probe path meets an empty slot, so neither scan runs off its loop and put's final return is unreachable |
| HashTable.InsertKeepsInv | src/include/bt_hashmap.h:100-115 | a put below the load bound keeps counts, load bound and unbroken probe paths |
| HashRefinement.GetAgrees | src/include/bt_hashmap.h:120-132 | get returns what the map holds, NULL for absent keys |
| HashRefinement.RemoveAgrees | src/include/bt_hashmap.h:135-150 | remove deletes exactly that key and reports whether it was there |
| HashRefinement.PutAgrees | src/include/bt_hashmap.h:90-117 | put of an absent key adds exactly that binding; it fails exactly for NULL or when a doubling is due without memory, and then changes nothing |
| HashRefinement.RehashKeeps | src/include/bt_hashmap.h:80-84 | rehashing keeps the contents, drops tombstones and repeated keys, and no put on the way doubles again |
| HashRefinement.InnerPutDoesNotResize | src/include/bt_hashmap.h:80-98 | while a live entry is left to move, the new table is below its load bound, so the put inside a rehash never doubles |
| HashRefinement.RehashNeedsNoMemory | src/include/bt_hashmap.h:74-84 | a rehash that has its array cannot fail for want of memory |
| HashRefinement.ResizeKeeps | src/include/bt_hashmap.h:69-87 | doubling keeps the invariant and the lowest slot of every key, with its value, and nothing else; a failed allocation leaves the table unchanged |
| HashRefinement.HashTableRefinesMap | src/include/bt_hashmap.h:43-163 | along every run of put, get, remove and clear from init, answers and size are those of a map while puts are given absent keys |
| HashRefinement.TombstoneAccounting | src/include/bt_hashmap.h:95-116 | in every reachable table count is the number of live slots, the two counters cover the used slots and stay within three quarters, and an empty slot is on every path |
| HashRefinement.PutStoresExactly | src/include/bt_hashmap.h:90-117 | for every value put returns 0 exactly when the value is not NULL and, with a doubling due, there is memory and the key is absent, and otherwise the key is absent or a tombstone precedes it |
| HashRefinement.PutKeepsInvExactly | src/include/bt_hashmap.h:90-108 | the accounting breaks exactly when the tombstone marker is given as a value in one of those cases |
| HashRefinement.DuplicateRejected | src/include/bt_hashmap.h:100-115 | without a doubling, put of a present key is rejected and changes nothing exactly when no tombstone precedes the key on its path |
| HashRefinement.DuplicateShadows | src/include/bt_hashmap.h:100-149 | otherwise get returns the new value and one remove brings the old one back |
| HashAnswers.FoundIsNearest | src/include/bt_hashmap.h:120-132 | of several copies of a key, get answers with the one that the fewest probes from the home slot reach |
| HashAnswers.FoundIsLowestExactly | src/include/bt_hashmap.h:69-87 | the copy get answers with is the one a doubling keeps exactly when the key is not stored on both sides of its home slot |
| HashAnswers.DoublingAnswers | src/include/bt_hashmap.h:69-87 | after a doubling get answers with the lowest copy of every key |
| HashAnswers.PutAnswers | src/include/bt_hashmap.h:90-132 | the effect of every put on every get, repeated keys included: a stored key has the new value; every other answer stays when the put does not double and is the lowest copy when it does |
| HashAnswers.PutLeavesOthers | src/include/bt_hashmap.h:90-132 | a put keeps the answer for another key exactly when it does not double or that key's lowest copy holds the answer, which it does unless the key is stored on both sides of its home slot |
| HashAnswers.RejectedPut | src/include/bt_hashmap.h:90-117 | a put that returns -1 leaves the table as it was exactly when it does not double; otherwise the table is doubled, without tombstones and repeated keys |
| HashGrowth.LoadOfPut | src/include/bt_hashmap.h:100-108 | without a doubling, a put that stores adds exactly one to count + tombstones, reused tombstones included |
| HashGrowth.LoadOfDoubling | src/include/bt_hashmap.h:69-87 | after a doubling count + tombstones is the number of different keys |
| HashGrowth.LoadCountsStores | src/include/bt_hashmap.h:90-150 | along every run that does not double, count + tombstones grows by the number of stores, whatever is removed |
| HashGrowth.NextDoubling | src/include/bt_hashmap.h:95-98 | after such a run, a put with memory at hand doubles exactly when those stores have brought the sum to three quarters of the capacity |
| HashGrowth.OneKeyGrowsForEver | src/include/bt_hashmap.h:90-150 | putting and removing one key from a fresh table reaches every capacity an array can have, with no live key left |
| HashRuns.ShadowingReached | src/include/bt_hashmap.h:90-149 | a concrete run after which a put shadows |
| HashRuns.AnswerGoesBack | src/include/bt_hashmap.h:69-132 | a concrete run after which a successful put of one key, and also a rejected put, take get's answer for another key back to an older value |
| HashRuns.MarkerBreaks | src/include/bt_hashmap.h:90-110 | putting the tombstone marker into a fresh table returns 0, breaks the accounting and stores nothing that get finds |
| HashMap.RoundingEnds | src/include/bt_hashmap.h:46-48 | the capacity rounding loop ends exactly for requests up to 2^63 |
| HashMap.RoundUp | src/include/bt_hashmap.h:46-48 | the rounded capacity is a power of two at least the request and less than twice it |
| HashMap.HashMap.Init | src/include/bt_hashmap.h:43-56 | init leaves an empty valid table, or fails for small requests and for want of memory |
| HashMap.HashMap.Grow | src/include/bt_hashmap.h:69-87 | the in-place rehash computes Resize; the put/resize recursion ends |
| HashMap.HashMap.Place | src/include/bt_hashmap.h:100-116 | the in-place probing loop computes Insert |
| HashMap.HashMap.Store | src/include/bt_hashmap.h:90-117 | the in-place put computes Put, and -1 without entries |
| HashMap.HashMap.Lookup | src/include/bt_hashmap.h:120-132 | the in-place get computes Get and changes nothing |
| HashMap.HashMap.Delete | src/include/bt_hashmap.h:135-150 | the in-place remove computes Remove and keeps the invariant |
| HashMap.HashMap.Size | src/include/bt_hashmap.h:153-155 | the count is the number of live slots, and the size of the map when no key is repeated |
| HashMap.HashMap.Reset | src/include/bt_hashmap.h:158-163 | clear leaves an empty table of the same capacity |
| Ring.RingQueue.Push | src/include/bt_lockfree_queue.h:50-61 | a push appends to the contents, or returns 0 exactly when mask items are in |
| Ring.RingQueue.Pop | src/include/bt_lockfree_queue.h:63-73 | a pop removes the first item, or returns 0 exactly when empty |
| Spsc.StepKeeps | src/include/bt_lockfree_queue.h:50-73 | every step of either thread keeps indices, buffer and log in step |
| Spsc.CallsReturn | src/include/bt_lockfree_queue.h:50-73 | in every interleaving the items of the push calls, in order, are those of the pushes that returned and of the one under way; so it is with the number of pops |
| Spsc.Linearizable | src/include/bt_lockfree_queue.h:50-73 | in every interleaving all calls have returned but the ones under way, they form a legal history of a FIFO of capacity - 1, and they returned what that history says |
| Spsc.NoLossNoDuplication | src/include/bt_lockfree_queue.h:50-73 | what pops returned is a prefix of the items of the pushes that returned 1, occupancy stays below capacity, and every push called has returned 1 or 0 or is under way |
| Spsc.NoTornRead | src/include/bt_lockfree_queue.h:56-68 | no slot is about to be written while it is being read, and all accesses are in bounds |
| Mpsc.WinTakesNextTicket | src/include/bt_lockfree_queue.h:104-110 | a timely winning swap takes exactly the next ticket and there is room for it |
| Mpsc.WinKeepsTicketsExactly | src/include/bt_lockfree_queue.h:104-110 | a winning swap, late or not, keeps indices, occupancy and tickets exactly when the index after the tail is not the head at that moment |
| Mpsc.OverfullExactly | src/include/bt_lockfree_queue.h:101-127 | a run with any number of producers overfills the ring at some point exactly when one of its winning swaps happens while the index after the tail is the head; in a timely run none does |
| Mpsc.OccupancyBounded | src/include/bt_lockfree_queue.h:101-127 | runs whose swaps find room hold at most capacity - 1 claims, each holder on the slot of its ticket |
| Mpsc.CallsAreSettled | src/include/bt_lockfree_queue.h:101-127 | in every run, late swaps included, the items of the push calls are those claimed, those refused where the index after the loaded tail is the head, and those under way; each producer's in its own order; every pop returned an item, found head and tail equal or is under way |
| Mpsc.EmptyReport | src/include/bt_lockfree_queue.h:117-121 | a pop reports empty exactly when every claim has been popped |
| Mpsc.FirstInFirstOut | src/include/bt_lockfree_queue.h:101-127 | runs whose swaps find room and whose reads are orderly pop exactly the claimed items in claim order, no claim is lost, and every push called is claimed, refused or under way |
| Mpsc.TimelyFirstInFirstOut | src/include/bt_lockfree_queue.h:101-127 | so do runs in which no swap is a full round late |
| Mpsc.ReadReturns | src/include/bt_lockfree_queue.h:117-127 | what a pop reads: the claimed item once written, before that the item of one round earlier or the initial content |
| Mpsc.FullReport | src/include/bt_lockfree_queue.h:105-109 | a push reports full exactly when the ring is full or the consumer has passed the loaded tail by a whole number of rounds |
| Mpsc.LateSwapLosesItems | src/include/bt_lockfree_queue.h:105-110 | a concrete run in which a late swap overfills the ring and it looks empty |
| Mpsc.LateSwapHarmless | src/include/bt_lockfree_queue.h:105-110 | a concrete run in which the same late swap finds room and harms nothing |
| Mpsc.EarlyReadDeliversStale | src/include/bt_lockfree_queue.h:110-122 | a concrete run in which a pop delivers a value nobody pushed |
| Mpsc.FullReportedOnEmpty | src/include/bt_lockfree_queue.h:105-109 | a concrete run in which a push reports full on an empty ring |
| Framing.FramesAppend | src/net/gateway.c:230-238 | framing a stream is framing its first part and then the remainder with the rest |
| Framing.ChunkingDoesNotMatter | src/net/gateway.c:352-359 | every split of a stream into reads yields the same frames |
| Framing.FramesOfEncoded | src/net/gateway.c:196-238 | the framer undoes the encoder, whatever follows |
| Framing.FramesSound | src/net/gateway.c:230-238 | encoding the frames found and adding the remainder gives the stream back |
| Framing.StuckHeader | src/net/gateway.c:233-235 | at a length outside 5..65535 delivery stops for good, whatever arrives |
| Gateway.LongestLengthStalls | src/net/gateway.c:233-235 | the length 65536 passes the header check, and no frame is delivered after it, whatever follows |
| OrderText.ParseOrderText | src/net/gateway.c:130-153 | the cursor loop computes Parse on every input and ends |
| OrderText.ParsePrinted | src/net/gateway.c:134-151 | parsing printed fields applies them in order |
| OrderText.NumberRoundTrip | src/net/gateway.c:142-147 | every 64-bit decimal number reads back through the value buffer |
| OrderText.OrderRoundTrip | test/test_trading.c:119-131 | every order printed with its fields in any order is parsed back: user, symbol, quantity, side and type |
| OrderText.MissingFields | src/net/gateway.c:132-152 | fields that are not given are 0, BUY and LIMIT; without a symbol the order is rejected |
| OrderText.OddValues | src/net/gateway.c:144-149 | which values mean SELL and LIMIT; other keys change nothing |
| OrderText.NumberSaturates | src/net/gateway.c:144-147 | a number of more than 64 bits reads as 2^64 - 1 |
| OrderText.SignedNumber | src/net/gateway.c:144-147 | blanks are skipped and a minus sign negates modulo 2^64 |
| OrderText.SymbolTruncates | src/net/gateway.c:145 | of a longer symbol the first 15 bytes are kept |
| GatewayCore.OrderReachesQueue | src/net/gateway.c:260-271 | a printed order on an authenticated connection within its rate limit is offered once with the client's user, symbol, price, quantity, side and type, whatever the field order |
| GatewayCore.CancelReachesQueue | src/net/gateway.c:273-289 | a cancel of at least 32 bytes is offered with its order id, user id and symbol bytes |
| GatewayCore.AuthenticationGate | src/net/gateway.c:240-258 | in every run each offered order or cancel is preceded, since that connection's accept, by a validated key on it |
| GatewayOffers.OutputIsDue | src/net/gateway.c:168-293 | in every run the messages offered are exactly those the events call for: per frame of a connection that sent a valid key since its accept, the order read from it unless 10000 were offered in its window or its id is the latest offered of its duplicate slot, and a cancel of at least 32 bytes |
| GatewayOffers.RateLimitHolds | src/net/gateway.c:170-186 | in every run any closed second of frame clocks holds at most 20000 orders offered from a connection since its accept, from at most two rate windows, and at most 10000 when no window begins inside the second |
| GatewayOffers.DoubleRateReached | src/net/gateway.c:170-186 | the bound of 20000 offers in a second is reached by a run from the start: accept, valid key, two bursts |
| GatewayOffers.RepeatedIds | src/net/gateway.c:177-181 | between two offers of one request id an order with another id of the same duplicate slot was offered |
| GatewayCore.DuplicateFilter | src/net/gateway.c:173-181 | in every run a dropped id was recorded before, and between two records of one id a different id of the same slot was recorded |
| GatewayCore.DropExactly | src/net/gateway.c:177-181 | an id within the rate limit is dropped exactly when the latest recorded id of its slot is itself |
| ByteRing.Peek | src/net/gateway.c:101-107 | the one- or two-part copy returns the bytes from the given ring position |
| ByteRing.WriteWrapped | src/net/gateway.c:199-208 | copying with masked indices appends to the unread bytes |
| Gateway.Connection.Accept | src/net/gateway.c:329-331 | a reused slot starts unauthenticated, with empty rings and a new rate window |
| Gateway.Connection.TakeAnswer | src/net/gateway.c:357-361 | all bytes that read returns are taken, up to the number asked for; end of file and errors mark the connection and end the loop |
| Gateway.Connection.ReadSize | src/net/gateway.c:353-357 | the read size fits the free run and is at least 1 while a legal frame is incomplete |
| Gateway.Connection.Fill | src/net/gateway.c:358-359 | a read appends to the unread bytes and overwrites none |
| Gateway.Connection.NextFrame | src/net/gateway.c:230-238 | the header checks report bad, incomplete or ready exactly as the framer does, with the framer's frame |
| Gateway.Connection.SendResponse | src/net/gateway.c:190-209 | a response is queued whole or dropped whole, by free space |
| Gateway.Connection.FlushSend | src/net/gateway.c:212-224 | the flush sends exactly the bytes the answers of send take, up to the end of the buffer each time, and marks the connection exactly when an error ends it |
| Gateway.FlushTakes | src/net/gateway.c:215-223 | the flush sends exactly the bytes of the good answers before the first other one, and ends in an error exactly when that one is an error and the ring is not yet empty |
| Gateway.FlushEmpties | src/net/gateway.c:215-223 | while send takes something the flush goes on: as many good answers as bytes empty the ring |
| Gateway.ResponsesArrive | src/net/gateway.c:190-224 | the peer's framer finds in what was sent a prefix of the accepted responses, all of them when the ring is empty |
| Gateway.Context.PushOne | src/net/gateway.c:168-187 | the in-place window, duplicate ring and counters compute PushOrder |
| Gateway.Context.HandleFrame | src/net/gateway.c:240-292 | the in-place dispatch by message type computes Handle |
| Gateway.Context.ProcessData | src/net/gateway.c:227-294 | the frame loop handles exactly the frames the plain framer finds, in order, all of them unless the heap fails for a payload of more than 256 bytes, and marks bad headers |
| Gateway.Context.ReadLoop | src/net/gateway.c:352-362 | the bytes received are exactly those the reads gave, each up to what was asked for; the loop ends only when answers run out, the socket blocks or hangs up, or the ring is full; the connection is marked exactly by a hangup or by frame processing; the frames handled are a run of the gateway machine that ends in the state of the objects, and when the heap serves the last read, handled frames and unread bytes are what the plain framer finds in all bytes received |
| Gateway.ReadOffersDue | src/net/gateway.c:352-362 | from every reachable state a read loop offers exactly what the frames it handles call for |
| Gateway.ReadKeepsInv | src/net/gateway.c:352-362 | what every run keeps of authentication, rate and duplicate filter holds after a read loop |
| Gateway.HandleAllIsRun | src/net/gateway.c:230-293 | processing a connection's frames is a run of the gateway machine |
| Journal.Writer.DoFlush | src/persistence/journal.c:44-78 | the flush writes a prefix of the buffer and keeps the rest at its front |
| Journal.Writer.TakeEntry | src/persistence/journal.c:108-118 | the entry follows the buffered bytes; it fits exactly when the capacity flush made room |
| Journal.Writer.Drain | src/persistence/journal.c:106-121 | a batch of up to 64 keeps file, buffer and ring together unchanged |
| Journal.RoomExactly | src/persistence/journal.c:52-60 | the copy after a capacity flush stays in the buffer exactly when the answers of write, up to the first bad one, take the bytes in the way |
| Journal.DiskFailureOverruns | src/persistence/journal.c:111-118 | a concrete run with a full buffer in which a failing write makes the next copy overrun it |
| Journal.FileIsPrefix | src/persistence/journal.c:99-208 | in every run whose capacity flushes make room (RoomExactly), the file is a byte prefix of the accepted entries, file, buffer, transit and ring make up all of them, and every append is accepted or counted as dropped |
| Journal.TakenExactly | src/persistence/journal.c:52-60 | an interrupted write changes nothing wherever it comes, an error or an empty write ends the flush, a short write adds its bytes |
| JournalRuns.FlushMoves | src/persistence/journal.c:44-78 | every flush, by timer, for room or at the exit, moves as many bytes from the front of the buffer to the end of the file as the answers of write take |
| JournalRuns.DropsExactly | src/persistence/journal.c:200-208 | an append is dropped and counted exactly when 262143 entries are in the ring |
| JournalRuns.PositionsAreExact | src/persistence/journal.c:99-208 | in every run whose capacity flushes make room, the counts of pops, copies and written bytes read off the run say which entries are accepted and which bytes of them are on file, in the buffer and in the ring |
| JournalRuns.StopLosesOnlyTheRing | src/persistence/journal.c:145-148 | the final flush writes what its answers take; the file lacks only the ring's entries exactly when they take the whole buffer, and is complete exactly when the ring is empty besides, whatever is appended later |
| JournalRuns.TakeIsRun | src/persistence/journal.c:108-118 | what the in-place TakeEntry does is a run of the machine: pop, capacity flush where needed, copy |
| FreeList.StepKeeps | src/utils/slab_allocator.c:38-81 | every step of any number of threads keeps list and places, if a winning allocation's link is current |
| FreeList.PopExactly | src/utils/slab_allocator.c:48-53 | a winning allocation keeps the list intact exactly when the link it read is current |
| FreeList.BlocksArePartitioned | src/utils/slab_allocator.c:38-81 | with one allocating thread, in every interleaving the list is acyclic and every block is free, owned or in flight, and only one of these |
| FreeList.TwoAllocatorsBreakIt | src/include/bt_lockfree_pool.h:52-65 | a concrete run in which two allocating threads make the head name an owned block |
| FreeList.HandedOutTwice | src/include/bt_lockfree_pool.h:52-65 | the next allocation is about to hand that block out again |
| SlabCounters.GuardPasses | src/utils/slab_allocator.c:79-80 | while pops are current, the guard of free never skips its decrement, whatever other threads do |
| SlabCounters.CountersAreExact | src/utils/slab_allocator.c:38-81 | in every interleaving of list and counter steps whose pops are current, free_count is the length of the list and alloc_count the number of blocks with owners whenever no call is under way |
| SlabCounters.OneAllocatorCountsExactly | src/utils/slab_allocator.c:38-81 | with one allocating thread and any number of freeing threads every pop is current, so the counters are exact |
| SlabCounters.TwoAllocatorsMiscount | src/utils/slab_allocator.c:38-58 | a concrete run of two allocating threads after which the list has two blocks and free_count says one |
| Slab.AlignedSizeCovers | src/utils/slab_allocator.c:11-16 | blocks are as large as requested exactly for sizes up to 2^64 - 64, and are then whole cache lines |
| Slab.BlockFits | src/utils/slab_allocator.c:18-29 | every block lies inside the region |
| Slab.BlocksDisjoint | src/utils/slab_allocator.c:28-29 | different blocks do not overlap |
| Slab.Slab.Init | src/utils/slab_allocator.c:5-36 | init succeeds exactly when a block fits, and lists all blocks, highest first |
| Slab.Slab.Alloc | src/utils/slab_allocator.c:38-58 | alloc returns the first free block and keeps list and counters |
| Slab.Slab.Free | src/utils/slab_allocator.c:60-81 | free puts the block in front of the list and ignores foreign pointers |
| ListCalls.AllocTracked | src/utils/slab_allocator.c:38-58 | the object's alloc is a run of the free-list machine that hands out the block at its head, and nothing on an empty list; every valid object is a state in which the machine's invariant holds |
| ListCalls.FreeTracked | src/utils/slab_allocator.c:60-81 | the object's free of a block that is out is a run of the free-list machine |
| Slab.Slab.Reset | src/utils/slab_allocator.c:83-97 | reset lists all blocks again |
| ObjectPool.PushEachLists | src/include/bt_lockfree_pool.h:73-85 | freed objects stand in front of the list in order |
| ObjectPool.Pool.Alloc | src/include/bt_lockfree_pool.h:52-65 | alloc returns the first object of the list, NULL when there is none |
| ObjectPool.Pool.Free | src/include/bt_lockfree_pool.h:73-85 | free links the object in front; NULL is ignored |
| ObjectPool.Pool.BulkFree | src/include/bt_lockfree_pool.h:91-107 | bulk free leaves exactly the memory that single frees in reverse order leave |
| Arena.ArenaSizeIs | src/utils/memory_pool.c:42-48 | arenas are whole pages and together fit in front of the table; with one page more each they would not |
| Arena.ArenasDisjoint | src/utils/memory_pool.c:50-64 | arenas overlap neither each other nor the table |
| Arena.TableInside | src/utils/memory_pool.c:43-50 | the table lies in the slab exactly when the slab holds it |
| Arena.AssignmentsDistinct | src/utils/memory_pool.c:101-106 | any num_arenas assignments in a row are distinct |
| Arena.SoundExactly | src/utils/memory_pool.c:108-123 | a request is served soundly or refused exactly when neither its rounding nor its sum wraps |
| Arena.AllocKeepsExactly | src/utils/memory_pool.c:108-123 | an arena stays intact with a piece that holds the request exactly for those requests |
| Arena.WrappedRequestOverlaps | src/utils/memory_pool.c:108-123 | a concrete run in which a wrapped request makes the next one get the first piece again |
| Arena.OrderIsNew | src/utils/memory_pool.c:125-141 | a node is handed out only when it is not live; a recycled one was freed before |
| Arena.AllocationsDisjoint | src/utils/memory_pool.c:108-160 | in every run of requests that do not wrap, refused ones of any size included, all pieces across all arenas are disjoint, on cache lines, in their own arena and clear of the table |
| Arena.FreeListAccounts | src/utils/memory_pool.c:129-151 | in every run free_count is the list length and the list holds exactly the recycled nodes, each once |
| ArenaRuns.RepliesDisjoint | src/utils/memory_pool.c:108-160 | in every run what a call returned overlaps nothing that a later call on its arena returns, until a reset or the free of that node |
| ArenaRuns.RepliesInside | src/utils/memory_pool.c:108-141 | what a call returns lies on a cache line inside its arena |
| ArenaRuns.ServedExactly | src/utils/memory_pool.c:108-123 | a request that does not wrap is served exactly when its cache lines fit |
| ArenaRuns.OrderServedExactly | src/utils/memory_pool.c:125-151 | a node is refused exactly when none is recycled and none fits; allocating after a free gives that node back and restores the arena |
| ArenaRuns.AllocsCounted | src/utils/memory_pool.c:120-140 | alloc_count is the number of calls served since the last reset, modulo 2^32 |
| MemoryPool.ArenaObject.Allocate | src/utils/memory_pool.c:108-123 | the in-place bump computes Alloc for every request, and keeps the arena valid when it does not wrap |
| MemoryPool.ArenaObject.AllocateOrder | src/utils/memory_pool.c:125-141 | the in-place recycling through node links computes AllocOrder |
| MemoryPool.ArenaObject.ReleaseOrder | src/utils/memory_pool.c:143-151 | the in-place push through node links computes FreeOrder |
| MemoryPool.ArenaObject.Clear | src/utils/memory_pool.c:153-160 | reset forgets all pieces and the list |
| MemoryPool.MemPool.Init | src/utils/memory_pool.c:12-66 | the carving loop sets up arena i at its base with its size; bad arguments change nothing, a failed allocation leaves an empty pool |
| Tier.HotIndexExactly | src/utils/memory_tier.c:28 | the round-robin index is valid exactly while the 32-bit counter has not wrapped, or is a multiple |
| Tier.HotIndexWraps | src/utils/memory_tier.c:28 | after 2^31 requests the counter has wrapped and the index is negative |
| Tier.WarmExactly | src/utils/memory_tier.c:41-49 | a served WARM piece lies in the pool and holds the request exactly when nothing wrapped |
| Tier.WarmDisjoint | src/utils/memory_tier.c:40-50 | in every interleaving, whatever the HOT slabs do, WARM pieces are disjoint, in the pool and large enough, if no served request wrapped |
| Tier.NextKeepsHot | src/utils/memory_tier.c:27-35 | every step of every thread keeps the slab lists intact and each HOT block out at most once, if pops are current and callers free what they hold |
| Tier.HotOutDisjoint | src/utils/memory_tier.c:27-35 | in every interleaving whose pops are current no HOT block is out twice and blocks out at the same time are disjoint |
| Tier.ExclusiveHotDisjoint | src/utils/memory_tier.c:27-35 | pops are current, and so HOT blocks disjoint, while no request enters a slab in which another thread allocates |
| Tier.HotFitsExactly | src/utils/memory_tier.c:27-35 | a HOT grant stays clear of all other blocks and of the end of its slab exactly when at most 64 bytes were asked for |
| Tier.ReleaseReturns | src/utils/memory_tier.c:66-76 | a release of a HOT block starts a free of that block in the one slab that owns its address, whatever state the lists are in |
| Tier.ClassifyNamesServer | src/utils/memory_tier.c:88-106 | in every interleaving classify names the tier that served a pointer, except for an empty WARM grant at the pool's end; for WARM and COLD whatever the HOT slabs do, for HOT while pops are current |
| TierFlow.RequestsAreServed | src/utils/memory_tier.c:22-60 | in every interleaving, for every size, what enters a tier has been served by it, has left HOT at an empty list or WARM for want of room, or is with a thread still there; nothing leaves COLD unserved |
| TierFlow.RoundRobin | src/utils/memory_tier.c:28 | the index counts the HOT requests, so that below 2^31 of them the k-th goes to slab k modulo their number |
| TierFlow.ReleasesFinish | src/utils/memory_tier.c:66-76 | every release that a slab takes has put its block on the list or is under way |
| TierFlow.WarmServedExactly | src/utils/memory_tier.c:41-49 | a WARM request that does not wrap is served exactly when it fits, and moves the offset either way |
| TierFlow.RefusalUsesUp | src/utils/memory_tier.c:41-49 | once a request has been refused, no WARM request is served any more, however small, until a sum wraps |
| TierRuns.HugeRequestGetsNothing | src/utils/memory_tier.c:41-49 | a concrete run in which a WARM request of 2^64 - 1 bytes is served and takes no bytes |
| TierRuns.HotRequestsOverlap | src/utils/memory_tier.c:27-35 | a concrete run in which two HOT requests of 65 bytes get blocks 64 bytes apart |
| TierRuns.WarmWrapOverlaps | src/utils/memory_tier.c:41-49 | a concrete run in which a WARM sum wraps and two pieces are the same bytes |
| TierRuns.EmptyRequestIsCold | src/utils/memory_tier.c:41-105 | a concrete run in which classify takes a WARM pointer for COLD |
| TierRuns.SharedSlabHandsOutTwice | src/utils/memory_tier.c:27-35 | some run of two threads on one slab hands out a block a second time while its owner has it |
| TierCalls.AllocIsRun | src/utils/memory_tier.c:22-60 | an undisturbed alloc of any thread, whatever the others have under way, is a run of the machine that falls through from HOT to WARM to COLD as AllocCall says |
| TierCalls.FreeIsRun | src/utils/memory_tier.c:62-76 | an undisturbed free is a run that puts the block in front of the list of the slab owning it and ignores foreign pointers |
| TierCalls.TierAllocator.LookUp | src/utils/memory_tier.c:88-106 | the scan computes Classify |
| TierCalls.TierAllocator.Alloc | src/utils/memory_tier.c:22-60 | the in-place fall-through computes AllocCall and keeps all lists intact |
| TierCalls.TierAllocator.Free | src/utils/memory_tier.c:62-86 | the scan gives a HOT block back to its owner as FreeCall says and ignores other pointers and tiers |

## Left out

- Order book, matching, risk, sequencer, clearing, recovery and scheduler: their sources are not part of this model.
- Weak memory: steps are sequentially consistent.
- Several consumers on an MPSC queue and several appenders on the journal ring: outside what the queues are made for.
- Several threads allocating from one free list at a time: shown to fail; the partition, counter and HOT theorems are for current pops, which one allocating thread guarantees.
- Journal.Writer.TakeEntry: returns false where the code copies past its buffer, because an array write out of bounds has no value; DiskFailureOverruns reaches that point.
- SlabCounters.CountersAreExact: asks that blocks and freeing threads together stay below 2^32, the range of the counters.
- TierCalls.TierAllocator.Alloc: asks for a round-robin index that names a slab; the code indexes with whatever the wrapped counter gives, and HotIndexExactly says when that is a slab.
- TierCalls.TierAllocator.Free: asks that a pointer inside a HOT slab is the address of a block; the code links any such pointer as it is.
- HashMap.HashMap.Size: for a destroyed table it says only that the stored count is returned.
- Slab.Slab.Free: asks that a pointer inside the slab is a block that is out, as the code relies on it.
- MemoryPool.MemPool.Init: asks that the slab holds the arena table; the code does not check it, and TableInside says what happens otherwise.
- HashMap.HashMap.Init: asks for a capacity of at most 2^63, because above it the code does not return (RoundingEnds).
- Prices in text orders: strtod is a parameter, and the code stores its result without the fixed-point scaling.
- Binary orders and API-key comparison: parameters of the gateway model.
- Result of pushing to the gateway's output queue: the code ignores it, so the model lists what is offered.
- Flush loops answered with EINTR for ever: the answers of write and send are finite sequences.
- Which connections get a response: the code sends each one to every authenticated connection, although its comment speaks of the one that asked; SendResponse and ResponsesArrive say what happens at each of them, and connections share no send buffer.
- Idle timeout and epoll registration: they decide when a connection is read, flushed or closed, and the theorems hold for every such order of events.
- Tier statistics: counters on which no allocation, release or classification depends.
- bt_disruptor.h, the C++ templates, sockets, NUMA, huge pages, shared memory, logger and timers.
