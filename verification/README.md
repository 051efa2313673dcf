# Ferrox, verified

A Dafny model of the single-instrument matching engine Ferrox and of the machinery around it, with
proofs of what the parts promise together. `dafny verify dfyconfig.toml` checks everything.

## The engine

`Arena.dfy`, `OrderBook.dfy` and `MatchingEngine.dfy` are the engine as it is written: a fixed arena
with a free list threaded through `next`, doubly linked price levels of arena slots, two level maps,
cached best prices and an id index, all updated in place. `BookHeap.dfy` gathers that state in one
value (`Heap`), says when it is sound (`Sound`), and says which book it stands for (`Abs`);
`BookInsert.dfy` and `BookRemove.dfy` prove that queueing, unlinking and lowering an order keep it
sound and mean the right thing. Every engine method is proved against `PriceBook.dfy`, a book of
price levels that are sequences of orders.

That book is in turn proved equal, over every run of commands, to the reference of `FlatBook.dfy`: one
flat sequence in arrival order, matched by searching for the best price and the earliest order. The
reference spells out its own comparisons of prices, its own limits and its own fills.
`MatchingEngines.RunEngine` joins the two: the whole response sequence, the listing, the best prices
and the order count of the real engine are those of the flat book, for every capacity and every command
sequence. `Laws.dfy` says what that means for a trader in prices and quantities alone: no fill beyond the
limit or against an own order, best price and then earliest order first, nothing within the limit left
behind a resting remainder, and statuses that say what happened. `Sweep.dfy` gives the fills in closed form, `Conservation.dfy` accounts for every unit of
quantity, and `MatchingEngines.RunRestored` shows that an engine restored from a capture, with its own
arena filled in listing order, cannot be told from the original by any later commands. An order without
quantity cannot be submitted but can be restored; the engine is modelled with such orders, which the
source allows, and engines that never restored one hold none.

Matching runs before the duplicate-id test, so an add can trade and then be refused. `DuplicateExactly`
says which orders meet that fate, from the book before the call, and `DuplicateKeepsFills` what is left;
`RefusedAddUnchanged` says when a refusal changes nothing. The gateway reports the fills of accepted adds
only (`Reports.dfy`): `ReportedExactly` says exactly when fills go unreported, and `UnreportedFill` shows it on a run of
three commands.

## The log, snapshots and recovery

The log file is a byte sequence, `set_len` truncates or extends it with zeros, and both checksums are
arbitrary functions. `WalFormat.dfy` and `WalLog.dfy` state the log invariant (all bytes past the write
position are zero, and a scan finds exactly the records) and what opening, growing, appending,
truncating and tearing do to it; `Wal.dfy` is the code. `CrashMachine.dfy` is the durable system as a
state machine: log then match, snapshot, crash (also with any subset of a record's bytes written, and
at any stage of reopening the file), recover. Its invariant holds on every run, and recovery returns
the replay of every recovered record. Timestamps are not logged, so books are compared without them
(`Timestamps.dfy` shows that no other observation depends on them). `Gateway.dfy` shows that the
matching thread's code makes exactly the steps of that machine, starting from its own recovery, and
`Pipeline.dfy` carries that from the bytes of a client's stream through the ring to the final book.

None of this assumes anything of the log's checksum. If a torn record happens to pass it, the record
holds whatever is left of its payload: some other command, which recovery replays, or nothing that
decodes, on which recovery refuses. The records are those of the submitted commands exactly as long as
every torn append of the run is noticed (`TearExactly`, `RunsAreFaithful`). A checksum that notices them
all exists (`CountingRejectsTorn`), but CRC-32 is not one: `Crc32.dfy` shows that an order id whose bytes
are those of the CRC polynomial can be lost without a trace, and that such a quantity can be lost so that
every later recovery refuses and the gateway serves from an empty book (`Crc32Refuses`). Of the snapshot
checksum one thing is assumed (`CrashMachine.Lists`): a snapshot file that loads and verifies is one that
was saved.

An append that fails is ignored by the gateway. `UnloggedExactly` says which commands do no harm then,
from the book they are matched against; any other one breaks the invariant, and `UnloggedHarms` shows an
order that rests in the book and is in no log.

## The ring

`Ring.dfy` and `RingSafety.dfy` model the single-producer single-consumer ring step by step under
release/acquire memory (the happens-before rules of section 6.9.2.1 of ISO/IEC 14882:2020): a cursor is
its modification order, each message carries the view of the thread that stored it, and a load may
return any message not older than the thread already knows. Cursors are wrapping 64-bit words, the
remote ones cached and stale. Sequentially consistent interleavings are the runs in which every load
returns the newest message, so they are covered. The shutdown flag of the gateway is part of the machine.
A push is refused exactly when the ring is full at the tail it read, a pop finds nothing exactly when the
ring is empty at the head it read, and either completes when it runs alone and can.

## The wire protocol and the benchmark statistics

`Bytes.dfy`, `Protocol.dfy` and `Framing.dfy` model the codec and the framing of the client stream. Besides
the round trips, the format of every message, and of the records of the log, is stated in literal bytes.
`MannWhitney.dfy` proves that the rank-sum form of the U statistic in the benchmark comparison is the
pairwise count, ties included; ranks and U are doubled so that they are integers.

## Model

| member | source | states |
|---|---|---|
| `Arenas.Arena.constructor` | src/arena.rs:110-123 | A new arena chains all its slots into one acyclic free list and holds nothing. |
| `Arenas.Arena.Alloc` | src/arena.rs:133-143 | Refuses exactly when the free list is empty, changing nothing; otherwise takes its first slot, stores the order unlinked there and touches no other slot. |
| `Arenas.Arena.Dealloc` | src/arena.rs:145-150 | Puts the slot back at the front of the free chain; nothing but its `next` changes. |
| `Arenas.Arena.PushBack` | src/arena.rs:160-176 | A well-linked level stays well linked with the slot last; orders do not move and slots outside the level are untouched. |
| `Arenas.Arena.PopFront` | src/arena.rs:178-198 | Returns nothing exactly on an empty level; otherwise unlinks the first slot, leaving the rest of the level well linked with exact head, tail, count and quantity. |
| `Arenas.Arena.Remove` | src/arena.rs:200-219 | Unlinks a slot at any position of a level (first, middle, last, only); the level stays well linked without it. |
| `BookHeap.SlotsPartitioned` | src/arena.rs:110-219 | In a sound book every slot is either free or queued at exactly one level, and the queued slots are exactly the indexed ones. |
| `BookHeap.LevelWellLinked` | src/arena.rs:160-219 | At every level `prev` and `next` undo each other, no slot repeats, head, tail and count are exact, and `qty` is the sum of the members whenever that sum fits in 64 bits. |
| `BookHeap.Disjoint` | src/book.rs:59-138 | A queued slot is live, has the side and price of its level, is not free and is in no other level. |
| `BookInsert.InsertSound` | src/book.rs:59-91 | Queueing an order in the first free slot keeps the slot partition, all levels and the id index sound. |
| `BookInsert.InsertAbs` | src/book.rs:59-91 | The book it stands for is the old one with the order last at its level. |
| `BookRemove.RemoveSound` | src/book.rs:93-138 | Unlinking any order, freeing its slot and dropping its index entry (and its level when that is left empty) keeps the book sound. |
| `BookRemove.RemoveAbs` | src/book.rs:93-138 | The book it stands for is the old one without that order. |
| `BookRemove.UpdateSound` | src/book.rs:152-218 | Lowering the front order and the level quantity together keeps the book sound. |
| `BookRemove.UpdateAbs` | src/book.rs:152-218 | It changes nothing but the front quantity of that level. |
| `OrderBooks.OrderBook.constructor` | src/book.rs:36-45 | A new book is valid and stands for the empty book. |
| `OrderBooks.OrderBook.InsertOrder` | src/book.rs:59-91 | On any valid book: duplicate id before full arena, each leaving the book as it was; otherwise the order is queued last and everything stays valid, cached best prices included. |
| `OrderBooks.OrderBook.CancelOrder` | src/book.rs:93-138 | An unknown id is refused; otherwise exactly that order is taken out and returned, and the missing-level error never occurs. |
| `OrderBooks.OrderBook.PeekFront` | src/book.rs:140-150 | The earliest order of the level, or nothing when there is no such level. |
| `OrderBooks.OrderBook.ReduceFrontQuantity` | src/book.rs:152-218 | Missing level and excessive quantity are refused unchanged; a partial fill lowers the front order in place, a full one removes it and, if need be, its level, and recomputes the best price. |
| `OrderBooks.OrderBook.UpdateBestAfterInsert` | src/book.rs:245-254 | Only the best price of the order's side may move, and only to a better price. |
| `OrderBooks.OrderBook.ListSide` | src/book.rs:221-243 | Walking the lists gives one side in price-time order. |
| `OrderBooks.OrderBook.AllRestingOrders` | src/book.rs:221-243 | The listing is the resting orders in the canonical order of the book it stands for. |
| `OrderBooks.OrderBook.OrderCount` | src/book.rs:55-57 | The count is the number of indexed orders and the number of occupied arena slots. |
| `OrderBooks.InsertGood` | src/book.rs:245-254 | The best prices updated on insertion are the extreme level keys of the new book. |
| `OrderBooks.RemoveBests` | src/book.rs:112-138 | The best prices recomputed only when a level disappears are still the extreme level keys. |
| `MatchingEngines.MatchingEngine.NextMaker` | src/matching.rs:78-87 | The cached best price and the front order give the crossing maker of the whole book, or there is none. |
| `MatchingEngines.MatchingEngine.Trade` | src/matching.rs:94-110 | One fill at the maker's price for the smaller quantity, taken from the front of the book and from the taker; neither book error can occur here. |
| `MatchingEngines.MatchingEngine.MatchLoop` | src/matching.rs:76-147 | The loop terminates, on the taker's quantity and then on the number of orders, and leaves book, remainder, fills and self-trade flag as the level book matches them. |
| `MatchingEngines.MatchingEngine.AddOrder` | src/matching.rs:66-169 | Result, fills and new book of an add on any valid engine, refusals after fills included; a zero-quantity order leaves even the old fills in place. |
| `MatchingEngines.MatchingEngine.CancelOrder` | src/matching.rs:171-173 | Cancel returns the resting order or the not-found error and keeps the engine valid. |
| `MatchingEngines.MatchingEngine.Execute` | src/recovery.rs:101-110 | Any command takes the engine from one book to the next with the response of the level book. |
| `MatchingEngines.RestoreFromOrders` | src/matching.rs:176-185 | Inserting any orders one by one gives the engine of their in-order insertion, or the first refusal. |
| `MatchingEngines.RunCommands` | src/matching.rs:66-173 | Commands run one after the other on any valid engine are the replay of the level book, response by response. |
| `MatchingEngines.RunEngine` | src/matching.rs:66-173 | For every capacity and command sequence, all responses, the listing, both best prices and the count of the engine equal those of the flat reference book; every response is truthful, resting quantities are positive and best bid is below best ask. |
| `MatchingEngines.RunRestored` | src/snapshot.rs:57-70 | Restoring a capture of any engine into the same capacity is never refused, and original and restored engine give the same responses, listing, best prices and count for every later command sequence. |
| `PriceBook.MatchKeeps` | src/matching.rs:76-147 | Matching adds no level, changes only the taker's quantity, leaves no crossing maker behind a remainder unless it met an own order, and frees a slot whenever it fills and leaves a remainder. |
| `PriceBook.ApplyWF` | src/matching.rs:66-173 | Every command keeps ids unique and indexed, levels non-empty and keyed, the capacity respected and, from an uncrossed book, best bid below best ask. |
| `PriceBook.CancelWF` | src/book.rs:93-138 | Cancelling keeps the same invariants. |
| `PriceBook.BestPriceIsBest` | src/book.rs:123-134 | The best bid is the highest bid price and the best ask the lowest ask price; none means the side is empty. |
| `Sweep.MatchIsSweep` | src/matching.rs:76-147 | The level-by-level match is one sweep over the opposite side laid out in price-time order. |
| `Sweep.SweepClosedForm` | src/matching.rs:76-147 | The sweep consumes a front run of the queue, all orders fully but perhaps the last, for the smaller of the taker and the eligible depth, leaves exactly the rest of the queue, and stops for an own order exactly when the taker outlasts that depth. |
| `Sweep.FillsAreGreedy` | src/matching.rs:76-147 | The fills of an add are exactly the greedy run of crossing makers in price-time order before the first own-trader maker; the opposite queue keeps exactly what they leave and the taker's own side is untouched. |
| `Sweep.MatchIndex` | src/book.rs:192-197 | When the taker outlasts its makers, the ids left in the book are all but those of the makers it met. |
| `Laws.QueueBestFirst` | src/book.rs:221-243 | The queue of a side holds its orders, bids from the highest price down and asks from the lowest up. |
| `Laws.FillsAreFair` | src/matching.rs:76-147 | Every fill of an add is with the next order in price-time priority, another trader's, at that order's price and not beyond the limit; a remainder left to rest leaves no opposite price within the limit. |
| `Laws.AnswersAreTrue` | src/matching.rs:149-168 | The result of an add, each status and each error, from its quantity, the depth and prices it finds, the ids and the free slots. |
| `Laws.CancelsAreTrue` | src/book.rs:93-138 | A cancel answers with the resting order of that id, unchanged and gone from the book, or that there is none, and then changes nothing. |
| `Laws.RunsAreTruthful` | src/matching.rs:66-173 | On every run each response fits its command: fills positive, within the limit and no more than was asked, the status that of the quantities, a cancel naming its order or its id. |
| `Refinement.MatchAgrees` | tests/book_model.rs:71-128 | Level book and flat book match any taker to the same fills, remainder and flag and stay related. |
| `Refinement.ApplyAgrees` | tests/book_model.rs:71-133 | One command gives related books and equal responses, with zero quantity, duplicate id and full arena included. |
| `Refinement.Observations` | tests/book_model.rs:135-171 | Related books have the same canonical listing, best prices and count. |
| `Refinement.RunAgrees` | tests/book_model.rs:36-171 | The same for every run from the empty book. |
| `Conservation.MatchConserves` | src/matching.rs:94-110 | What a match fills leaves both the book and the taker. |
| `Conservation.ApplyConserves` | src/matching.rs:66-173 | One command balances submitted against resting, cancelled, discarded and twice the filled quantity. |
| `Conservation.RunConserves` | src/matching.rs:66-173 | Over whole runs submitted = resting + cancelled + discarded + 2 × filled, counting fills made before a refusal. |
| `Conservation.ArenaFullExactly` | src/book.rs:60-76 | `ArenaFull` is returned exactly for a non-crossing new id on an arena that was full on entry, with no fill and the book unchanged. |
| `Conservation.DuplicateExactly` | src/matching.rs:151-162 | An add is refused as a duplicate if and only if it outlasts every maker it may trade with, stops at a price that does not cross, and its id rests on an order that is none of those makers. |
| `Conservation.DuplicateKeepsFills` | src/matching.rs:151-162 | Such an add keeps the fills it made and never inserts its remainder; the earlier order with that id stays. |
| `Conservation.RefusedExactly` | src/matching.rs:66-169 | An add is refused if and only if its quantity is zero, it collides with a resting id in that way, or it crosses nothing and the arena is full. |
| `Conservation.RefusedAddUnchanged` | src/matching.rs:66-169 | An add that must be refused leaves the book unchanged, and makes no fill, if and only if its quantity is zero or no maker crosses it. |
| `Conservation.DuplicateAfterFills` | src/matching.rs:151-162 | A family of three-command runs from the empty book in which an add fills and is then refused as a duplicate. |
| `Restore.RestoreListing` | src/matching.rs:176-185 | Re-inserting the listing of any consistent book into the same capacity succeeds and gives that book back. |
| `Timestamps.SameApply` | src/protocol.rs:146-146 | Commands equal but for timestamps keep books equal but for timestamps and give the same responses. |
| `Timestamps.SameReplay` | src/protocol.rs:157-162 | The same for whole runs. |
| `Timestamps.HarmlessExactly` | src/matching.rs:66-173 | A command leaves the book as it is if and only if it cancels an unknown id, adds nothing, meets its own order first, or meets no maker and is refused for its id or for want of a slot. |
| `Bytes.LERoundTrip` | src/protocol.rs:86-108 | Little-endian writing and reading are inverse at any width. |
| `Bytes.FromLERoundTrip` | src/protocol.rs:54-79 | Reading then writing gives the bytes back. |
| `Bytes.FourBytes` | src/protocol.rs:54-61 | The value of four little-endian bytes. |
| `Bytes.EightBytes` | src/protocol.rs:63-79 | The value of eight, low half first. |
| `Bytes.I64RoundTrip` | src/protocol.rs:102-108 | Two's-complement prices survive the wire over the whole signed range. |
| `Protocol.EncodeNewOrder` | src/protocol.rs:150-165 | A short buffer is refused untouched; otherwise exactly the first 40 bytes are replaced: type 1, side 0 or 1, six zeros, id, trader, two's-complement price and quantity, little-endian. |
| `Protocol.EncodeCancelOrder` | src/protocol.rs:175-186 | The same for the 16 bytes of a cancel: type 2, seven zeros and the id. |
| `Protocol.EncodeExecutionReport` | src/protocol.rs:207-228 | The same for the 48 bytes of a report: type 3, three zeros, sequence number, taker id, maker id, price, quantity and timestamp. |
| `Protocol.NewOrderRoundTrip` | src/protocol.rs:125-165 | An encoded order decodes to itself without its timestamp, and is refused exactly when its quantity is zero. |
| `Protocol.CommandRoundTrip` | src/protocol.rs:188-197 | Decoding inverts encoding exactly for commands that are not zero-quantity orders, whatever bytes follow. |
| `Protocol.DecodeEncode` | src/protocol.rs:125-197 | Re-encoding any decoded buffer gives its canonical form: reserved bytes zeroed, excess dropped. |
| `Protocol.ReportRoundTrip` | src/protocol.rs:207-243 | Execution reports survive encoding and decoding in every field. |
| `Protocol.DecodeFormat` | src/protocol.rs:125-197 | What any bytes decode to, in literal bytes: the order, the cancel, or which error, tested in the order of the source. |
| `Protocol.DecodeReportFormat` | src/protocol.rs:230-243 | Where a subscriber finds each field of a report. |
| `Framing.FrameCut` | src/gateway.rs:91-118 | A stream of encoded commands cut at any byte frames to exactly its complete messages, then ends. |
| `Framing.FrameRoundTrip` | src/gateway.rs:91-118 | A whole stream frames to the same commands, timestamps aside. |
| `Framing.FrameReads` | src/gateway.rs:91-118 | A first byte 1 takes 40 bytes, 2 takes 16, any other ends the stream with an error; a short message ends it quietly and one that does not decode with its error. |
| `Framing.HandleClient` | src/gateway.rs:84-133 | The client loop pushes exactly the framed commands in order, each order changed in nothing but its timestamp, which is the time of its arrival, all with positive quantity, and ends with end-of-stream or the first protocol error. |
| `Bits.AlignUpIs` | src/wal.rs:16-18 | Masking with the complement of 7 rounds up to the next multiple of 8 wherever the sum stays in a word. |
| `Bits.AndMask` | src/ring.rs:176-184 | Masking with 2^k - 1 is reducing modulo 2^k. |
| `WalFormat.ScanAgrees` | src/wal.rs:227-264 | A file that repeats the valid log of another scans the same records and then goes on from its end. |
| `WalFormat.RecordValid` | src/wal.rs:131-162 | An appended record scans as exactly its payload and its size. |
| `WalFormat.RecordFormat` | src/wal.rs:142-157 | A record is the length, the checksum, the payload and zeros up to the next multiple of 8. |
| `WalFormat.ValidFormat` | src/wal.rs:232-257 | A record is accepted if and only if it is whole, not empty and its checksum is that of its payload. |
| `WalFormat.ZerosStop` | src/wal.rs:236-245 | A scan stops at once in a zeroed tail. |
| `WalLog.OpenInv` | src/wal.rs:91-127 | For any initial bytes, opening establishes the log invariant with exactly the valid prefix of the zero-extended file. |
| `WalLog.GrownInv` | src/wal.rs:201-215 | Growing keeps the invariant and the records. |
| `WalLog.AppendInv` | src/wal.rs:131-162 | Appending keeps the invariant and adds exactly one record. |
| `WalLog.WroteInv` | src/wal.rs:131-162 | So does writing the record into a file of any length that has room. |
| `WalLog.TruncateInv` | src/wal.rs:186-195 | Truncating at a record boundary keeps the invariant and exactly the records before it. |
| `WalLog.TruncateExactly` | src/wal.rs:186-195 | Truncating at any offset with any count keeps the invariant if and only if the offset is the boundary after that many records. |
| `WalLog.TornReopen` | src/wal.rs:131-162 | If any subset of a record's bytes reached the file, however long it was made, reopening keeps all earlier records and finds none or one more, whatever the checksum function is. |
| `WalLog.CountingRejectsTorn` | src/wal.rs:247-254 | There is a checksum that accepts a torn record only with its payload whole. |
| `Wals.ScanRecords` | src/wal.rs:227-264 | The loop returns the end and the count of the valid records. |
| `Wals.Wal.Open` | src/wal.rs:80-128 | Opening any file gives a valid log of its valid prefix, mapped to the larger of the file and the initial size. |
| `Wals.Wal.EnsureCapacity` | src/wal.rs:201-215 | Growth doubles as needed and keeps the log valid and its records unchanged; it fails exactly when room is needed and the file cannot be extended or mapped again, and says what length the file has then. |
| `Wals.Wal.Append` | src/wal.rs:131-163 | Appends exactly the encoded command as one record and returns its number, from any valid log; fails exactly when it must grow and cannot, leaving all records as they were and at most a longer file. |
| `Wals.Wal.TruncateTo` | src/wal.rs:186-195 | For any offset and count: what is zeroed and where writing goes on; the log stays valid exactly at the matching record boundary, with exactly the records before it. |
| `Wals.WalIterator.Next` | src/wal.rs:277-321 | One call of the iterator: skipping, end of log, truncation, corruption and undecodable payloads. |
| `Wals.IterLog` | src/wal.rs:277-321 | On a valid log the iterator yields every record after the start once, in order, and never corruption or truncation. |
| `Wals.OpenAppendReopen` | src/wal.rs:80-163 | No resurrection: open any file, append commands, reopen; the records are the valid prefix followed by exactly the new ones, and reading on decodes to those commands with timestamp 0. |
| `Wals.ReadFrom` | src/wal.rs:176-183 | Reading a valid log from a record on returns exactly the commands logged after it. |
| `Snapshots.Capture` | src/snapshot.rs:57-70 | A capture holds the listing and the log position of the engine, the highest bid and the lowest ask of the listed orders, and the checksum of these. |
| `Snapshots.Latest` | src/snapshot.rs:89-123 | None exactly when no file loads and verifies; otherwise a file that does, with none after it. |
| `Snapshots.LoadLatest` | src/snapshot.rs:89-123 | The loop returns the last file that loads and whose checksum is that of its contents, every file after it being damaged; none exactly when all are. |
| `Recovery.ReplayLog` | src/recovery.rs:74-96 | Replay applies every record after the start, stops with an error at the first undecodable one, and never takes the truncation branch. |
| `Recovery.Recover` | src/recovery.rs:50-99 | Recovery from any files and any log bytes, with its refusals; on success engine and log are new, valid and the recovered book and records. |
| `CrashMachine.ProcessKeeps` | src/gateway.rs:144-164 | Logging then matching a command keeps the invariant of the durable system. |
| `CrashMachine.SnapshotKeeps` | src/gateway.rs:194-202 | A snapshot taken between commands holds the book after exactly the records it counts. |
| `CrashMachine.TornKeeps` | src/wal.rs:131-162 | A crash with any subset of a record's bytes written keeps the invariant, whatever the checksum function is. |
| `CrashMachine.TornDecodes` | src/protocol.rs:125-197 | What a tear leaves of an encoded command is, if it decodes at all, exactly the encoding of what it decodes to. |
| `CrashMachine.TearExactly` | src/wal.rs:131-162 | A torn append leaves the records those of the submitted commands if and only if the checksum notices any loss in the payload. |
| `CrashMachine.OpeningKeeps` | src/wal.rs:91-117 | A crash at any stage of reopening the log keeps the invariant. |
| `CrashMachine.RecoveryCorrect` | src/recovery.rs:50-99 | Recovery returns the replay of all recovered records modulo timestamps, whichever of the stored snapshots it starts from, and refuses exactly when the last record does not decode. |
| `CrashMachine.RecoverKeeps` | src/recovery.rs:50-99 | A recovery leaves the system running in a good state, or down and unchanged in its records. |
| `CrashMachine.UnloggedExactly` | src/gateway.rs:144-146 | Matching a command whose append failed keeps the invariant if and only if the book it meets gives it nothing to change, in one of those ways. |
| `CrashMachine.UnloggedHarms` | src/gateway.rs:144-146 | For every order and capacity, a run from the empty directory and one failed append after which the order rests in the book and in no log. |
| `CrashMachine.RunsAreSafe` | src/gateway.rs:166-222 | On every run, for every checksum function, each stored snapshot has a position within the log and holds the book after its first records, and the live engine is the replay of the log modulo timestamps. |
| `CrashMachine.RunRecovers` | src/recovery.rs:50-99 | After any run that ends down, recovery succeeds with that replay or refuses an undecodable last record, and no snapshot is ahead of the log. |
| `CrashMachine.RunsAreFaithful` | src/gateway.rs:144-164 | On a run whose torn appends are all noticed, the log is the submitted commands throughout, modulo timestamps. |
| `CrashMachine.RunRecoversSubmitted` | src/recovery.rs:50-99 | After such a run recovery succeeds and returns the replay of the submitted commands. |
| `CrashMachine.RejectingNotices` | src/wal.rs:247-254 | With a checksum that rejects every torn record, every run is such a run. |
| `Crc32.Crc32Collides` | src/wal.rs:247-254 | Under CRC-32, losing the five bytes of the polynomial anywhere in a message leaves its checksum as it was. |
| `Crc32.Crc32AcceptsTorn` | src/wal.rs:131-162 | The record of an order with that id, its id bytes lost, is accepted and reads back as the same order with id 0. |
| `Crc32.Crc32NotRejecting` | src/wal.rs:247-254 | CRC-32 does not reject every torn record. |
| `Crc32.Crc32Unfaithful` | src/wal.rs:131-162 | From any running state one crash in the middle of an append can so log a command nobody submitted. |
| `Crc32.Crc32Refuses` | src/recovery.rs:86-93 | From any good running state one crash in the middle of an append can leave a log that every later recovery refuses, whatever snapshots it finds. |
| `Gateway.Worker.ProcessCommand` | src/gateway.rs:135-164 | The code makes one log-then-match step of the durable system, or one step without the log when the log must grow and cannot, and hands the socket one report per fill of an accepted add. |
| `Reports.Reporter.Report` | src/gateway.rs:150-158 | One datagram per fill, with consecutive wrapping sequence numbers, and nothing else is sent. |
| `Gateway.Worker.HandlePopped` | src/gateway.rs:180-202 | A popped command is processed once, followed by a snapshot exactly when the interval is reached and saving works; the interval starts anew either way. |
| `Gateway.Worker.MatchingLoop` | src/gateway.rs:166-222 | Whatever appends and saves fail, the engine ends as the replay of all commands in order, exactly their reports are sent, the log holds exactly the commands whose append succeeded, and snapshots are saved at exactly the log positions the interval makes due, none in the drain; if all appends succeeded, the state stays good and the engine is the replay of the log. |
| `Gateway.Serve` | src/gateway.rs:224-288 | From any good state of the files, recovery, the loop and the drain with the same guarantees for the whole; when the files do not open or the last record does not decode, the engine starts empty, without a log, and all reports are sent all the same. |
| `Reports.ReportedExactly` | src/gateway.rs:148-159 | An add reports exactly its fills if and only if it does not both trade and collide with a resting id. |
| `Reports.UnreportedFill` | src/gateway.rs:148-159 | A family of three-command runs from the empty book in which a fill happens and is not reported. |
| `Reports.RunUnlogged` | src/gateway.rs:135-164 | Serving without a log: the engine is the replay of all commands, and exactly the reports of their accepted adds are sent, in order and numbered without a gap. |
| `Reports.DatagramsDecode` | src/protocol.rs:207-243 | Every datagram decodes to the taker, maker, price and quantity of its fill, the given time and its sequence number. |
| `Reports.BroadcastAdds` | src/gateway.rs:148-159 | A command adds to what is sent exactly the reports of the fills of an accepted add, with the timestamp of its order. |
| `Pipeline.ServeClient` | src/gateway.rs:84-288 | For every run of the ring in which the client's commands are pushed and the loop exits: the engine ends as the replay of exactly the complete messages of the client's stream, in order, from the book it started with, and exactly their reports are sent; if appends succeed, that is the replay of the recovered log followed by them. |
| `Ring.FullTest` | src/ring.rs:267-275 | The wrapping full test agrees with unbounded cursors. |
| `Ring.EmptyTest` | src/ring.rs:308-316 | The wrapping empty test agrees with unbounded cursors. |
| `Ring.SlotTest` | src/ring.rs:176-184 | The masked slot of a wrapped cursor is its unbounded index modulo the capacity. |
| `RingSafety.NextKeeps` | src/ring.rs:264-327 | Every step of either thread, with any allowed stale load, keeps the invariant. |
| `RingSafety.RunsAreSafe` | src/ring.rs:264-327 | The invariant holds throughout every run of any power-of-two capacity and any number of wraps. |
| `RingSafety.RunsAreFifo` | src/ring.rs:264-327 | Popped is a prefix of pushed, the rest lies in order in the slots between the cursors, occupancy never exceeds capacity, and no unwritten slot is read. |
| `RingSafety.PushAnswers` | src/ring.rs:264-275 | On every run a push reloads the tail exactly when the ring is full as far as it knew, and refuses exactly when it is full at the tail it then reads. |
| `RingSafety.PopAnswers` | src/ring.rs:305-316 | On every run a pop reloads the head exactly when the ring is empty as far as it knew, finds nothing exactly when it is empty at the head it then reads, and starts draining exactly when it reads the flag set. |
| `RingSafety.PushCompletes` | src/ring.rs:264-287 | From any good state with room, a push that runs alone ends with its value pushed. |
| `RingSafety.PopCompletes` | src/ring.rs:305-327 | From any good state with an item, a pop that runs alone ends with the oldest item popped. |
| `RingSafety.RunsAreRaceFree` | src/ring.rs:46-62 | Conflicting slot accesses are ordered by happens-before and the threads are never inside one slot together. |
| `RingSafety.AccessesOrdered` | src/ring.rs:264-327 | The write of index h happens after the read of h - capacity, and the read of t after the write of t. |
| `RingSafety.ShutdownDrains` | src/gateway.rs:180-221 | When the matching loop exits, everything pushed before the shutdown store was popped exactly once and in push order. |
| `RingSafety.DropRing` | src/ring.rs:200-215 | The drop loop drops exactly the items pushed and not popped, in order. |
| `MannWhitney.SortedPositionsSort` | scripts/bench_compare.py:66-66 | The sorted positions are a permutation in ascending order of value. |
| `MannWhitney.RankData` | scripts/bench_compare.py:64-77 | For any sorting permutation, the doubled average rank of a value is one more than its points (two per smaller, one per equal value) against the whole sample. |
| `MannWhitney.RankFormIsPairwise` | scripts/bench_compare.py:80-86 | The rank-sum form of U is the pairwise count of wins plus half the ties, doubled. |
| `MannWhitney.PairwiseShared` | scripts/bench_compare.py:86-87 | The two directions of U share out all n1·n2 pairs. |
| `MannWhitney.MannWhitneyU` | scripts/bench_compare.py:80-88 | U1 and U2 are the two pairwise counts, and U is the smaller of them, at most half of all pairs. |
| `MannWhitney.DeltaFromU` | scripts/bench_compare.py:104-113 | Pairs above minus pairs below are all pairs minus doubled U1. |
| `MannWhitney.CliffsDelta` | scripts/bench_compare.py:104-113 | Cliff's delta is 1 - 2·U1/(n1·n2), between -1 and 1, and undefined exactly on an empty sample. |

## Left out

- Gateway.Worker.ProcessCommand: what the network does with a datagram is not modelled; `sent` is what was handed to the socket.
- Gateway.Worker.MatchingLoop: the commands it pops are parameters; `Pipeline.ServeClient` ties them to a run of the ring.
- Gateway.Serve: every start uses the same arena capacity.
- Pipeline.ServeClient: the run of the ring stands beside the loop, whose pops are not themselves steps of it; the two are not one program.
- CrashMachine.Lists: a snapshot that loads and verifies but was never saved is excluded.
- Level quantity: modelled with the wrap-around of a release build (the sum modulo 2^64); a debug build would stop on overflow instead.
- Log sizes, record counts and snapshot positions are unbounded integers; a file of 2^64 bytes is out of scope.
- The two mirrored match loops of `add_order` are one loop with the side as a parameter; the fields of an arena node that repeat an order are grouped into that order.
- The ordered maps are finite maps; their iteration is taking the best key again and again.
- The order in which snapshot names sort: any order of the directory is allowed, since recovery is correct from every stored snapshot.
- Snapshot files: serialization and the write-then-rename are one atomic step; a file either loads or does not.
- CRC-32 is an arbitrary function everywhere but in `Crc32.dfy`; the snapshot checksum is an arbitrary function.
- Power loss: the code orders no syncs; only process crashes are modelled.
- Sockets, threads, the accept loop and the clock; arrival times are a parameter of `Framing.HandleClient`. Connection errors other than end of stream are not modelled.
- The retry when the ring is full: a refused push is a step that returns to idle, from which the same value may be pushed again. The second, redundant store of the shutdown flag.
- The experiment switches, cache padding and reference counting of the ring, including the relaxed-ordering build; the slots' uninitialised memory is an option type. The C++ port is the same algorithm.
- Progress of the ring and the loop under contention and scheduling: completion is stated for a thread that runs alone.
- Metrics, allocation tracking, benchmarks, examples and infrastructure.
- Bootstrap intervals, the normal approximation and its tie correction, and floating-point rounding in the benchmark comparison; samples are real numbers.
