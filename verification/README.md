# gomatch in Dafny

A model of gomatch, a single-instrument limit order book that runs as a
replicated service, with proofs about it. It covers the matching engine, its
snapshots, the wire codec, the session service around the engine and the
client's egress adapter, in the Go form, and the Java engine, its snapshots and
its ingress beside them.

Layers, each proved against the one before:

- `Events`, `Book` – commands, events and the reference book: each side is one
  sequence of orders, and a command is a pure step on it.
- `Matching`, `Invariant`, `Lifecycle`, `DepthFeed`, `Tape`, `Answers`, `Bounds` –
  what holds of the reference book after every step and over every run, and what
  it answers to each command in plain comparisons.
- `Levels`, `LevelSlice`, `OrderBook` – the engine's own structure: price levels
  in binary-searched slices, a doubly linked FIFO per level, a cached total per
  level and a map from id to order. Every operation is proved to produce exactly
  the events and the state of the reference book.
- `Bytes`, `Marshalling`, `Snapshot`, `Persistence`, `Recovery` – integers as
  bytes, the snapshot format, the stream-and-pointer writer and reader, the
  chunking, and runs interrupted by a restore.
- `Codec`, `Wire`, `Sessions`, `Replies`, `ClientView`, `Service` – the five messages, the
  mapping from events to frames to callbacks and from frames to commands, the
  service as a state machine with what each session receives and each client
  rebuilds, and the service object refining it.
- `JavaEngine` – the Java engine against the Go engine. The Java book is the same
  class over the signed level search; its snapshot writer works on a reused buffer
  and its restore reads sides as an enumeration. The Java ingress guards are in
  `Wire`.
- `Restart` – the service stopped after a snapshot and started from it.

Integers are unbounded in the model; `Bounds.RunFits` shows when none of them
leaves the 64-bit range. Timestamps, session ids and frames are parameters. An
offer to a session always succeeds. A panic is an outcome of the model (`alive`
turns false), not a precondition.

## Side codes

A side is an 8-bit code in the Go program. Decoding admits the null code, and
any code at all from a message that claims a newer schema version
(`go/protocol/codecs/Side.go:34-45`), while the engine only ever compares with
buy and sell. An order with another code is tested against no limit price,
trades against the asks and rests among them. Three properties promised for the
engine are then false, and each is proved with the exact condition under which
it holds and an example outside it:

- the book is uncrossed (`Invariant.RunUncrossed`, `Invariant.CrossedExample`),
- the depth feed equals the book (`DepthFeed.FeedEqualsDepth`, `DepthFeed.FeedExample`),
- bought equals sold equals traded (`Tape.BoughtEqualsSoldEqualsTraded`, `Tape.AstrayExample`).

All three hold of every run whose orders are buys and sells. The lifecycle,
conservation, price-time priority, refinement, snapshot and egress results hold
for every code. Two more promises carry an exact condition: a snapshot restores
its book exactly when the order count fits the 32-bit header field
(`Snapshot.RoundTrip`), and a session receives each broadcast once exactly when
none is sent while it is registered twice (`Sessions.EgressIsProjection`).

An order with an unknown code is also accepted with events that cannot be
encoded, which stops the service: `Sessions.AliveIffKnown` has the exact
condition and `Sessions.StopsAtUnknownSide` an input. The comments of the Java
service call its guards parity with Go; `Wire.IngressesAgree` states exactly where
the two part, and `JavaEngine.SameBookIffProper` does so for their restores.

## Model

| member | source | states |
|---|---|---|
| `Book.RestPosition` | go/engine/order_book.go:171-193 | an order rests behind every order that is at least as good and before the first strictly worse one |
| `Matching.MatchIsPriceTimePriority` | go/engine/order_book.go:102-141 | a match result takes the orders of the side in turn, each priced at most a buy's and at least a sell's limit, leaves an untouched suffix with at most the last maker reduced, and stops only when done or nothing is within the limit, if and only if it is the engine's result |
| `Matching.MaximalFill` | go/engine/order_book.go:103-139 | the filled quantity is the minimum of the order's and all crossing liquidity, with at most one trade per crossing order |
| `Matching.Reached` | go/engine/order_book.go:103-139 | a resting order trades exactly when its price is within the limit and less than the taker's quantity stands before it |
| `Matching.MatchConserves` | go/engine/order_book.go:118-125 | any selection of resting orders loses exactly what was traded against it |
| `Invariant.MatchLeavesTail` | go/engine/order_book.go:118-138 | matching drops a prefix of the side and changes nothing behind it but quantities |
| `Invariant.StepKeepsWellFormed` | go/engine/order_book.go:28-33 | every command keeps both sides sorted by price then id, with positive quantities, distinct ids below the next one and each order on its own side |
| `Invariant.RunKeepsWellFormed` | go/engine/order_book.go:58-217 | that invariant holds after every command sequence |
| `Invariant.Leftover` | go/engine/order_book.go:91-95 | what remains of the opposite side does not cross a remainder; an order of neither side leaves one exactly when it exceeds all asks, which are then gone |
| `Invariant.StepUncrossed` | go/engine/order_book.go:108-117 | from an uncrossed book a command leaves the book uncrossed, if and only if it is not an order of neither side whose remainder reaches the best bid |
| `Invariant.RunUncrossed` | go/engine/order_book.go:91-117 | the book is uncrossed after every command of a run, if and only if no command does that |
| `Invariant.ProperRunUncrossed` | go/engine/order_book.go:108-117 | with buys and sells only, best bid stays strictly below best ask over every run |
| `Invariant.CrossedExample` | go/engine/order_book.go:112-117 | a two-command run with the null side leaves the book crossed |
| `Lifecycle.StepAgrees` | go/engine/order_book.go:73-75 | one command advances every order's event automaton to a state that agrees with the book it leaves |
| `Lifecycle.RunLifecycle` | go/engine/order_book.go:73-138 | over every run each id sees one acceptance, then fills whose remaining quantity drops by exactly the fill at a price never worse than its limit, then at most one terminal event and nothing after, every report repeating owner, client id and side; the automaton's state is what the book holds |
| `Lifecycle.ClosedForGood` | go/engine/order_book.go:136-138 | once an order is terminal, a run that obeys the protocol has no further event for it |
| `Lifecycle.CancelDecidedByHistory` | go/engine/order_book.go:201-217 | a cancel succeeds exactly when the id is alive by its events and the requester owns it; both rejections are characterised the same way |
| `Lifecycle.OrderConservation` | go/engine/order_book.go:118-138 | over every run, accepted quantity equals the sum of fills plus canceled plus resting, for every id |
| `Answers.TradesInTurn` | go/engine/order_book.go:103-138 | for every resting order of the met side: it trades exactly when within the limit and in reach, and then the three events in its place carry its own id, client id, owner, side and price, the fill and what both are left with, field by field |
| `Answers.EveryTradeHasItsMaker` | go/engine/order_book.go:103-138 | there is no other trade |
| `Answers.TradesAtMakerPrice` | go/engine/order_book.go:111-135 | every trade prints at the price of a resting order of the opposite side, never above a buy's nor below a sell's limit |
| `Answers.TradePriceIsAccepted` | go/engine/order_book.go:127-135 | over every run each trade is at the price, and for the owner, its maker was accepted with earlier |
| `Answers.TradesAllItCan` | go/engine/order_book.go:103-139 | the traded quantity of an order's answer is the smaller of its quantity and everything resting within its limit |
| `Answers.OrderAnswered` | go/engine/order_book.go:58-75 | over every run a new order is accepted with its own client id, owner, side, price and quantity under one plus the earlier acceptances, if and only if quantity and price are positive; a lone rejection for quantity or for price otherwise, and no other answer |
| `Answers.CancelAnswered` | go/engine/order_book.go:201-217 | over every run a cancel is answered from the order's history, with its terms and remaining quantity, or by a lone rejection for an unknown or another's order |
| `Answers.IdsCountAcceptances` | go/engine/order_book.go:73 | the next id is one plus the acceptances so far |
| `Tape.BoughtEqualsSoldEqualsTraded` | go/engine/order_book.go:127-135 | every trade is reported twice; bought, sold and traded quantity are equal over a run, if and only if no order of neither side meets an ask and no buy reaches an ask of neither side, told from the book before each command |
| `Tape.AstrayFromBook` | go/engine/order_book.go:104-126 | that condition on the book is exactly that some party of a trade has neither side |
| `Tape.ReachedAsk` | go/engine/order_book.go:112-114 | an ask trades with a buy exactly when its price is at most the limit and less than the buy's quantity stands before it |
| `Tape.ReachedBid` | go/engine/order_book.go:115-117 | a bid trades with a sell exactly when its price is at least the limit and less than the sell's quantity stands before it |
| `Tape.ProperTape` | go/engine/order_book.go:127-135 | with buys and sells only the three are equal over every run |
| `Tape.EveryTradeReported` | go/engine/order_book.go:127-135 | over every run each trade is followed by one report to its maker and one to its taker, with its ids, owners, price and quantity, and no fill report stands alone; which price that is, `Answers.TradesInTurn` states |
| `Tape.AstrayExample` | go/engine/order_book.go:104-117 | a two-command run with the null side that trades five, reports five sold and nothing bought |
| `DepthFeed.TouchedIffChanged` | go/engine/order_book.go:79-89 | matching touches a price exactly when the aggregate at that price changes |
| `DepthFeed.StepFeed` | go/engine/order_book.go:91-98 | an exact depth feed stays exact through a command, if and only if the command does not rest an order of neither side |
| `DepthFeed.FeedEqualsDepth` | go/engine/order_book.go:77-98 | folding all level updates of a run gives the book's depth after every command, if and only if no command does that |
| `DepthFeed.FeedExample` | go/engine/order_book.go:171-175 | a run with the null side whose folded feed is not the depth |
| `DepthFeed.TouchedInOrder` | go/engine/order_book.go:77-89 | touched levels come strictly in price priority, ending at the last maker's |
| `DepthFeed.BatchShape` | go/engine/order_book.go:91-98 | no level comes twice; opposite updates come in strict price priority, all zero but possibly the last, all zero if the order rests, then the order's own level with a positive aggregate |
| `DepthFeed.BatchAnnouncesChanges` | go/engine/order_book.go:96-98 | updates are sent for exactly the levels whose aggregate changed, with the final aggregate, if and only if the order does not rest with neither side |
| `Bounds.StepFits` | go/engine/order_book.go:123-125 | a command within budget, whatever its side, keeps every number of its events and of the book in range |
| `Bounds.RunFits` | go/engine/order_book.go:73-194 | from any well-formed book, if accepted quantities and acceptances stay within the largest 64-bit value, no id, aggregate or number of any event leaves the range, whatever the sides |
| `Bounds.StepEncodable` | go/protocol/codecs/Side.go:34-45 | the events of a command within budget pass the wire range check, if and only if it is not an accepted order with an unknown side |
| `Bounds.RunEncodable` | go/service/service.go:161-166 | all events of a run within budget pass the range check, if and only if every accepted order has a known side |
| `Levels.RestOldLevel` | go/engine/order_book.go:176-193 | appending to the level of an order's price is insertion by price and time |
| `Levels.RestNewLevel` | go/engine/order_book.go:180-185 | opening a level at the insertion index is insertion by price and time |
| `Levels.FlatWithout` | go/engine/order_book.go:146-169 | taking an order out of its level, and an emptied level out of the slice, is removing it from the flat side |
| `Levels.LevelDepth` | go/engine/order_book.go:96-98 | the total of a level is the flat side's quantity at its price |
| `Levels.ZeroIffNoLevel` | go/engine/order_book.go:160-168 | the aggregate at a price is zero exactly when the book has no level of that price |
| `LevelSlices.LevelIndex` | go/engine/order_book.go:41-56 | binary search finds the level, or the only index that keeps the slice sorted |
| `LevelSlices.SignedLevelIndex` | java/src/main/java/javamatch/engine/OrderBook.java:46-62 | a non-negative result is the level, a negative one encodes the only sorted insertion index |
| `LevelSlices.LevelSlice.Lookup` | java/src/main/java/javamatch/engine/OrderBook.java:219-226 | whichever engine searches, the level or the only sorted insertion index |
| `LevelSlices.PriceLevel.Append` | go/engine/order_book.go:186-193 | linking at the tail appends to the FIFO and keeps the chain proper |
| `LevelSlices.PriceLevel.Detach` | go/engine/order_book.go:148-158 | unlinking removes exactly that order from the FIFO and keeps the chain proper |
| `LevelSlices.LevelSlice.Remove` | go/engine/order_book.go:146-169 | removal detaches the order and splices an emptied level out; the search for that level always succeeds |
| `LevelSlices.LevelSlice.Rest` | go/engine/order_book.go:171-197 | the slice afterwards stands for the side with the order inserted, structure and totals intact |
| `LevelSlices.LevelSlice.Reduce` | go/engine/order_book.go:123-125 | a fill reduces the maker and its level's total together |
| `OrderBooks.Touch` | go/engine/order_book.go:79-89 | a level is recorded once, in order of first change |
| `OrderBooks.Announce` | go/engine/order_book.go:96-98 | one update per recorded level, with its side, price and current total |
| `OrderBooks.OrderBook.constructor` | go/engine/order_book.go:35-37 | a new book of either engine is valid and empty, with next id 1 |
| `OrderBooks.OrderBook.RestOrder` | go/engine/order_book.go:171-197 | the book afterwards is the reference book with the order at rest, indexed by its id |
| `OrderBooks.OrderBook.Unlink` | go/engine/order_book.go:146-169 | list, slice and map lose exactly that order |
| `OrderBooks.OrderBook.FillBest` | go/engine/order_book.go:118-138 | one turn of the loop is one step of reference matching on the best maker |
| `OrderBooks.OrderBook.MatchTaker` | go/engine/order_book.go:102-141 | the loop terminates with the fills, events, touched levels and book of reference matching |
| `OrderBooks.OrderBook.NewLimitOrder` | go/engine/order_book.go:58-100 | every new order, rejected or accepted, gives the reference events and state and keeps the invariant; the reference events are written out in `Answers.OrderAnswered` and `Answers.TradesInTurn` |
| `OrderBooks.OrderBook.Cancel` | go/engine/order_book.go:201-217 | every cancel gives the reference events and state and keeps the invariant |
| `OrderBooks.OrderBook.ApplyAll` | go/engine/order_book.go:58-217 | for every command sequence the pointer book, over either search, emits the reference events and reaches the reference state |
| `Bytes.SignedPut` | go/protocol/codecs/SbeMarshalling.go:144-155 | reading back a written value in range gives the value, for every width |
| `Bytes.PutSigned` | go/protocol/codecs/SbeMarshalling.go:247-256 | writing back a read value gives the same bytes, for every byte string |
| `Bytes.UnsignedPut` | go/protocol/codecs/SbeMarshalling.go:93-98 | unsigned values in range read back |
| `Marshalling.PutIsShifts` | go/protocol/codecs/SbeMarshalling.go:144-155 | the k-th byte is the value shifted right by 8k and truncated |
| `Marshalling.Marshaller.WriteInt64` | go/protocol/codecs/SbeMarshalling.go:144-155 | appends the eight-byte encoding, whatever the scratch buffer held |
| `Marshalling.Marshaller.WriteUint16` | go/protocol/codecs/SbeMarshalling.go:93-98 | appends the two-byte encoding |
| `Marshalling.Marshaller.WriteInt8` | go/protocol/codecs/SbeMarshalling.go:122-126 | appends the one-byte encoding |
| `Marshalling.Marshaller.ReadInt64` | go/protocol/codecs/SbeMarshalling.go:247-256 | succeeds exactly on eight bytes or more and gives their two's-complement value |
| `Marshalling.Marshaller.ReadInt8` | go/protocol/codecs/SbeMarshalling.go:222-228 | succeeds exactly on a byte or more and gives its signed value |
| `Marshalling.Marshaller.ReadUint16` | go/protocol/codecs/SbeMarshalling.go:194-200 | succeeds exactly on two bytes or more and gives their value |
| `Snapshot.RoundTrip` | go/engine/snapshot.go:14-70 | restoring the snapshot of a well-formed book gives that book, if and only if its order count fits 32 bits |
| `Snapshot.SnapshotLength` | go/engine/snapshot.go:15-30 | a snapshot of n orders has 28 + 41n bytes |
| `Snapshot.HeaderLayout` | go/engine/snapshot.go:9-15 | bytes 0 to 4 are 31 53 4D 47, then version 1, instrument 1, the next id and the order count at their offsets |
| `Snapshot.RecordLayout` | go/engine/snapshot.go:20-35 | the k-th order, bids before asks, has its id, client id, owner, side, price and quantity at 0, 8, 16, 24, 25 and 33 from 28 + 41k |
| `Snapshot.RestoreOutcome` | go/engine/snapshot.go:45-55 | on any bytes, told from them, which are refused as truncated, for the magic or for the version, and the next id of the rest |
| `Snapshot.RestoreSucceeds` | go/engine/snapshot.go:40-64 | on any bytes, restoring succeeds exactly when the header is sound and the body as long as the header says |
| `Snapshot.TruncationDetected` | go/engine/snapshot.go:45-64 | every strict prefix of a snapshot is refused as truncated |
| `Snapshot.RestoredBehavesAlike` | go/engine/snapshot.go:38-70 | every later run gives the same events from the restored book and the same next snapshot |
| `Snapshot.LastRecordWins` | go/engine/snapshot.go:57-67 | the id map of a rebuilt book holds a record's id with that record if it is the last one of the id |
| `Snapshot.UnreadId` | go/engine/snapshot.go:57-67 | the map is unchanged at an id that no record has |
| `Persistence.WriteLevel` | go/engine/snapshot.go:20-32 | walking a FIFO writes its orders in time order |
| `Persistence.WriteSide` | go/engine/snapshot.go:20-32 | walking the levels writes the side in book order |
| `Persistence.MapSize` | go/engine/snapshot.go:15 | the id map has as many entries as the book has orders |
| `Persistence.SnapshotOf` | go/engine/snapshot.go:14-36 | the pointer book writes exactly the snapshot bytes of its abstract state, whose layout `Snapshot.HeaderLayout` and `Snapshot.RecordLayout` state |
| `Persistence.RestoreOrderBook` | go/engine/snapshot.go:40-70 | on any bytes the rebuilt book, or the error, is that of the byte-level restore, and its map holds the last record of each id; a well-formed result satisfies the full invariant |
| `Persistence.Chunks` | go/service/service.go:204-214 | chunks are non-empty, at most 1024 bytes, all of 1024 but the last, and concatenate to the data |
| `Persistence.FewestChunks` | go/service/service.go:204-214 | no other cutting into chunks of that size uses fewer |
| `Persistence.SaveAndRestore` | go/service/service.go:199-216 | snapshot, chunk, concatenate, restore is the identity on the abstract state, with a valid copy |
| `Recovery.ReachableFits` | go/engine/snapshot.go:14-36 | every reachable book within budget fits the snapshot format, with at most one record per acceptance |
| `Recovery.RunAcrossRestore` | go/engine/snapshot.go:38-70 | for every reachable book, a run that continues from its restored snapshot is the uninterrupted run, in events and state |
| `Recovery.UncrossedAcrossRestore` | go/engine/snapshot.go:38-70 | if the order count fits the header, the book stays uncrossed across a restore and every later run of buys and sells |
| `Codec.DecodeEncoded` | go/protocol/codecs/ExecutionReport.go:24-127 | decoding an encoded message gives it back, for all five messages, whatever bytes follow |
| `Codec.EncodeDecoded` | go/protocol/codecs/ExecutionReport.go:24-127 | encoding a message decoded at the schema's version gives back its bytes |
| `Codec.BlockOfRead` | go/protocol/codecs/ExecutionReport.go:60-127 | any block of bytes is the encoding of the message read from it |
| `Codec.FrameReads` | go/service/encoding.go:20-36 | a frame is 8 bytes of header and exactly the declared block, and header and message read back |
| `Codec.ReportLayout` | go/protocol/codecs/ExecutionReport.go:24-58 | a report's frame has 59 bytes, header 51, 10, 901, 1, and each field at its offset |
| `Codec.TradeLayout` | go/protocol/codecs/TradeEvent.go:20-42 | a trade's frame has 48 bytes, header 40, 11, 901, 1, and each field at its offset |
| `Codec.DepthLayout` | go/protocol/codecs/BookUpdate.go:19-38 | a level update's frame has 33 bytes, header 25, 12, 901, 1, and each field at its offset |
| `Codec.NewOrderLayout` | go/protocol/codecs/NewOrder.go:19-38 | a new order's frame has 33 bytes, header 25, 1, 901, 1, and each field at its offset |
| `Codec.CancelLayout` | go/protocol/codecs/CancelOrder.go:16-26 | a cancel's frame has 16 bytes, header 8, 2, 901, 1, and the order id at 8 |
| `Codec.EncodeExecutionReport` | go/protocol/codecs/ExecutionReport.go:24-58 | the field-by-field writer produces the layout, or fails exactly when the range check fails |
| `Codec.EncodeBookUpdate` | go/protocol/codecs/BookUpdate.go:19-38 | the same for level updates |
| `Codec.EncodeTradeEvent` | go/protocol/codecs/TradeEvent.go:20-42 | the same for trades |
| `Codec.EncodeNewOrder` | go/protocol/codecs/NewOrder.go:19-38 | the same for new orders |
| `Codec.EncodeCancelOrder` | go/protocol/codecs/CancelOrder.go:16-26 | the same for cancels |
| `Codec.EncodeFrame` | go/service/encoding.go:20-36 | header and block in one frame, none when the range check fails |
| `Codec.DecodeExecutionReport` | go/protocol/codecs/ExecutionReport.go:60-127 | the field-by-field reader gives the message at the layout's offsets, and fails exactly on a short block or a range failure |
| `Codec.DecodeBookUpdate` | go/protocol/codecs/BookUpdate.go:40-76 | the same for level updates |
| `Codec.DecodeTradeEvent` | go/protocol/codecs/TradeEvent.go:44-89 | the same for trades |
| `Codec.DecodeNewOrder` | go/protocol/codecs/NewOrder.go:40-76 | the same for new orders |
| `Codec.DecodeCancelOrder` | go/protocol/codecs/CancelOrder.go:28-45 | the same for cancels |
| `Wire.EventEncodes` | go/service/encoding.go:38-85 | an event can be encoded exactly when its fields and the timestamp are in range |
| `Wire.EventArrives` | go/service/encoding.go:38-85 | every encodable event reaches the client's listener as a callback of its kind whose named fields are the event's own, zero where it has none, with status 0 to 4 told from kind and remaining quantity and the literal reason code, in a frame of the declared length |
| `Wire.ReportTaken` | go/client/egress.go:57-74 | which report frames the client takes, told from their bytes |
| `Wire.TradeTaken` | go/client/egress.go:75-82 | which trade frames the client takes, told from their bytes |
| `Wire.UpdateTaken` | go/client/egress.go:83-90 | which level update frames the client takes, told from their bytes |
| `Wire.OthersIgnored` | go/client/egress.go:57-93 | every other frame is ignored |
| `Wire.FrameDeterminesEvent` | go/service/encoding.go:38-85 | equal frames come from equal timestamps and events equal up to session ids |
| `Wire.EgressAdapter.OnMessage` | go/client/egress.go:49-94 | on any bytes the adapter makes exactly the callback the frame stands for, or none |
| `Wire.RequestArrives` | go/service/service.go:101-133 | a client's request is encodable exactly when in range and arrives as that command, owned by the sending session |
| `Wire.IngressExactly` | go/service/service.go:101-133 | which frames bring a command and which command, told from their bytes at literal offsets |
| `Wire.NewerRequestArrives` | go/protocol/codecs/Side.go:34-37 | a new order from a newer version arrives with any 8-bit side code |
| `Wire.IngressFits` | go/protocol/codecs/NewOrder.go:78-98 | what the decoder lets in has its numbers in range and an 8-bit side, and a known side unless a new order claims a newer version |
| `Wire.IngressesAgree` | java/src/main/java/javamatch/service/MatchingService.java:99-148 | on every frame the Go and Java services do the same, counting a read past the frame as a difference, if and only if its bytes meet a stated condition |
| `Wire.IngressesPart` | java/src/main/java/javamatch/service/MatchingService.java:116-120 | a new order that declares one byte too many is taken by the Go service and dropped by the Java one |
| `Sessions.StateFromInputs` | go/service/service.go:78-142 | from any starting state, the engine's state depends on the commands alone, and the session tables on the opens and closes alone |
| `Sessions.SessionReceives` | go/service/service.go:144-180 | over any interleaving a session receives, while open, its own reports once and every public event once per registration, in engine order and nothing else |
| `Sessions.EgressIsProjection` | go/service/service.go:144-180 | its egress is the projection of the engine's output, if and only if no accepted order and no cancel by the owner of a resting order comes while it is registered twice |
| `Sessions.PublicsFromBook` | go/engine/order_book.go:58-217 | a command has public events exactly when it is an acceptable order or a cancel by the owner of a resting order |
| `Sessions.ClientSees` | go/service/service.go:78-91 | with fresh session ids each client's listener is told, field by field, exactly its own reports and all trades and level updates emitted while it is open |
| `Sessions.BroadcastAt` | go/service/service.go:174-180 | a broadcast makes one offer per open entry of the broadcast order, each in its place |
| `Sessions.BroadcastInOpenOrder` | go/service/service.go:78-91 | with fresh session ids the broadcast order is the order in which the sessions were opened |
| `Replies.OrderReply` | go/service/service.go:93-156 | the first frame a sender gets after its new order is accepted, status 0, with the order's own fields and the next id, or alone rejected, status 1, with reason 1 for quantity or 2 for price |
| `Replies.CancelReply` | go/service/service.go:93-156 | the first frame a sender gets after its cancel is canceled, status 4, with what was left, or alone rejected, status 1, with reason 3 for an unknown or 4 for another's order |
| `Sessions.DoubledExample` | go/service/service.go:78-81 | a session opened twice receives its report once and the same level update twice, so its egress is not what is due |
| `Sessions.AliveIffEncodable` | go/service/service.go:161-166 | the service survives a run exactly when every batch of events can be encoded |
| `Sessions.AliveIffKnown` | go/service/service.go:159-166 | within budget and from any well-formed state, the service survives a run, if and only if every order it accepts has a known side and every command comes with a timestamp in range |
| `Sessions.AliveFromStart` | go/service/service.go:159-166 | from the start the budget is only the accepted quantities and count, since every number the decoder lets in is in range |
| `Sessions.StopsAtUnknownSide` | go/service/service.go:161-166 | a version-2 frame with side code 5 stops the service |
| `Restart.ServeConcat` | go/service/service.go:78-142 | serving a log is serving its first part and then the rest from the state reached |
| `Restart.RestartedService` | go/service/service.go:47-76 | a service started from its snapshot has the engine of the uninterrupted run, and with the same sessions makes its offers, if and only if the order count fits the header |
| `ClientView.ClientKnowsDepth` | go/client/egress.go:49-94 | a client that listens from the first message rebuilds from its frames the fold of all level updates, and exactly the depth of the service's book if no order of neither side rests |
| `Service.MatchingService.constructor` | go/service/service.go:39-45 | the service starts valid, empty and with no session |
| `Service.MatchingService.OnSessionOpen` | go/service/service.go:78-81 | the open step of the state machine |
| `Service.MatchingService.OnSessionClose` | go/service/service.go:83-91 | the close step: the first registration in broadcast order goes |
| `Service.MatchingService.SendTo` | go/service/service.go:168-172 | one offer if the session is open, else none |
| `Service.MatchingService.Broadcast` | go/service/service.go:174-180 | one offer per open entry of the broadcast order, in that order |
| `Service.MatchingService.RouteAll` | go/service/service.go:144-166 | reports go to their owner and public events to all, in order, up to the first that cannot be encoded |
| `Service.MatchingService.Ingest` | go/service/service.go:101-137 | on any bytes the command in the frame, or none for everything malformed or unknown |
| `Service.MatchingService.OnSessionMessage` | go/service/service.go:93-142 | the message step: book, offers and survival are those of the state machine, on the pointer book |
| `Service.MatchingService.Replay` | go/service/service.go:78-142 | from any valid state, over any log of inputs, the service object makes exactly the offers of the state machine |
| `Service.MatchingService.WriteSnapshot` | go/service/service.go:199-216 | the emitted chunks concatenate to the snapshot of the engine's state |
| `Service.MatchingService.OnStart` | go/service/service.go:47-67 | with an image, the engine is the one its concatenated fragments restore to, or the start fails; without one, nothing changes |
| `Service.MatchingService.RestoreSnapshot` | go/service/service.go:69-76 | the engine is replaced by the restored book exactly when the bytes restore, soundly linked with the last record of each id in its map, and fully valid when the orders are well formed |
| `JavaEngine.ConventionsAgree` | java/src/main/java/javamatch/engine/OrderBook.java:46-62 | answers right in the two conventions are the same answer |
| `JavaEngine.SearchBoth` | java/src/main/java/javamatch/engine/OrderBook.java:46-62 | on every sorted slice the two searches return the same answer, each in its convention |
| `JavaEngine.Agree` | java/src/main/java/javamatch/engine/OrderBook.java:64-239 | from equal states, for every sequence of cancels, buys and sells, the Go and the Java book give equal events and end in equal states, those of the reference book |
| `JavaEngine.RunBoth` | java/src/main/java/javamatch/engine/OrderBook.java:64-239 | over every such run from the start the engines give equal events and byte-identical snapshots |
| `JavaEngine.WriteOrder` | java/src/main/java/javamatch/engine/Snapshots.java:46-57 | six puts at the running offset append the record and keep what came before |
| `JavaEngine.WriteSideAt` | java/src/main/java/javamatch/engine/Snapshots.java:43-61 | the nested loops append the side's records in book order |
| `JavaEngine.Write` | java/src/main/java/javamatch/engine/Snapshots.java:26-41 | over whatever the reused buffer held, the bytes up to the returned length are the snapshot of the book's state |
| `JavaEngine.RestoresAgree` | java/src/main/java/javamatch/engine/Snapshots.java:67-109 | on every input the Java restore fails alike and otherwise gives the Go book with sides read as an enumeration |
| `JavaEngine.SameBookIffProper` | java/src/main/java/javamatch/engine/Snapshots.java:99 | both engines restore the same from the same bytes, if and only if the bytes do not restore or the side byte of every record is buy's or sell's |
| `JavaEngine.RestoresPart` | java/src/main/java/javamatch/engine/Snapshots.java:99 | the snapshot of a book with a null-side order, which Go restores as it was and Java with a sell |
| `JavaEngine.RestoreJavaBook` | java/src/main/java/javamatch/engine/Snapshots.java:67-109 | on any bytes the rebuilt Java book, or the error, is that of the byte-level Java restore |
| `JavaEngine.JavaRoundTrip` | java/src/main/java/javamatch/engine/Snapshots.java:67-109 | the Java restore of any proper book's snapshot is that book, and every strict prefix is refused |
| `JavaEngine.JavaReadsGo` | java/src/main/java/javamatch/engine/Snapshots.java:67-109 | a Java book restored from the Go engine's snapshot is valid and in the same state |
| `JavaEngine.GoReadsJava` | java/src/main/java/javamatch/engine/Snapshots.java:26-61 | a Go book restored from the Java engine's snapshot is valid and in the same state |

## Left out

- Aeron itself: consensus, images, publications and the retry loops around offers; an offer is a success.
- Client connection, offer deadlines, load generators, launchers, system-test harnesses and benchmarks.
- Wrap-around of 64-bit arithmetic outside the budget of `Bounds.RunFits`.
- Float and other unused marshalling, codec metadata, logging.
- A Java class of its own: the Java book differs from the Go book in its level search, its collection types and its side enumeration only, and is modelled as the same class over the Java search, on commands with the two sides.
- The Java service's session table, routing and chunk loop, which mirror the Go service; its ingress and the engine, snapshots and restore behind it are modelled.
- What the Java service reads past a frame that is too short for its template: the outcome is a value of its own and not described further.
- Persistence.RestoreOrderBook: when record ids repeat, the map leads to the last record of an id while the list holds all of them, so the book is soundly linked but not `Valid`; no snapshot of a reachable book is of that kind.
- Service.MatchingService.RestoreSnapshot: the same holds for the service started from such bytes.
- ClientView.ClientKnowsDepth: stated for a service at its start; a client of a restarted service needs the depth at the restart from elsewhere.
- OrderBooks.OrderBook.MatchTaker: records a touched level just before the fill rather than just after it; the record holds the level object, whose total is read only once matching has ended.
