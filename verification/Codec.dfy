/**
The wire messages: five fixed layouts behind an eight-byte header, each field a
little-endian two's-complement integer. Encoding range-checks a message first;
decoding range-checks what it read.
*/
module Codec {
  import opened Bytes
  import opened Bounds
  import opened Marshalling

  const SCHEMA := 901
  const VERSION := 1
  const FRAME_HEADER := 8

  const NEW_ORDER := 1
  const CANCEL_ORDER := 2
  const EXECUTION_REPORT := 10
  const TRADE := 11
  const BOOK_UPDATE := 12

  datatype Option<T> = None | Some(value: T)

  datatype Message =
    | NewOrderMessage(clientOrderId: int, side: int, price: int, qty: int)
    | CancelMessage(orderId: int)
    | ExecutionReport(orderId: int, clientOrderId: int, status: int, reason: int, side: int,
                      price: int, qty: int, remainingQty: int, timestamp: int)
    | TradeReport(price: int, qty: int, makerOrderId: int, takerOrderId: int, timestamp: int)
    | DepthReport(side: int, price: int, aggregateQty: int, timestamp: int)

  function TemplateOf(m: Message): int {
    match m
    case NewOrderMessage(_, _, _, _) => NEW_ORDER
    case CancelMessage(_) => CANCEL_ORDER
    case ExecutionReport(_, _, _, _, _, _, _, _, _) => EXECUTION_REPORT
    case TradeReport(_, _, _, _, _) => TRADE
    case DepthReport(_, _, _, _) => BOOK_UPDATE
  }

  predicate KnownTemplate(t: int) {
    t == NEW_ORDER || t == CANCEL_ORDER || t == EXECUTION_REPORT || t == TRADE || t == BOOK_UPDATE
  }

  // The block length a message declares in its header.
  function BlockLength(t: int): nat {
    if t == NEW_ORDER then 25
    else if t == CANCEL_ORDER then 8
    else if t == EXECUTION_REPORT then 51
    else if t == TRADE then 40
    else 25
  }

  // --- Range checks ----------------------------------------------------------

  // Order statuses and reject reasons both have codes 0 to 4 and a null.
  predicate KnownCode(v: int) {
    0 <= v <= 4 || v == NULL_CODE
  }

  // Enumerations are only checked for messages no newer than the schema.
  predicate InRange(m: Message, acting: int) {
    match m
    case NewOrderMessage(client, side, price, qty) =>
      Field64(client) && (acting > VERSION || KnownSide(side)) && Field64(price) && Field64(qty)
    case CancelMessage(id) => Field64(id)
    case ExecutionReport(id, client, status, reason, side, price, qty, left, ts) =>
      && Field64(id) && Field64(client)
      && (acting > VERSION || (KnownCode(status) && KnownCode(reason) && KnownSide(side)))
      && Field64(price) && Field64(qty) && Field64(left) && Field64(ts)
    case TradeReport(price, qty, maker, taker, ts) =>
      Field64(price) && Field64(qty) && Field64(maker) && Field64(taker) && Field64(ts)
    case DepthReport(side, price, qty, ts) =>
      (acting > VERSION || KnownSide(side)) && Field64(price) && Field64(qty) && Field64(ts)
  }

  // --- Layouts ---------------------------------------------------------------

  function Block(m: Message): (bs: seq<byte>)
    ensures |bs| == BlockLength(TemplateOf(m))
  {
    match m
    case NewOrderMessage(client, side, price, qty) => Put(client, 8) + Put(side, 1) + Put(price, 8) + Put(qty, 8)
    case CancelMessage(id) => Put(id, 8)
    case ExecutionReport(id, client, status, reason, side, price, qty, left, ts) =>
      Put(id, 8) + Put(client, 8) + Put(status, 1) + Put(reason, 1) + Put(side, 1)
      + Put(price, 8) + Put(qty, 8) + Put(left, 8) + Put(ts, 8)
    case TradeReport(price, qty, maker, taker, ts) =>
      Put(price, 8) + Put(qty, 8) + Put(maker, 8) + Put(taker, 8) + Put(ts, 8)
    case DepthReport(side, price, qty, ts) => Put(side, 1) + Put(price, 8) + Put(qty, 8) + Put(ts, 8)
  }

  function MessageAt(t: int, bs: seq<byte>): Message
    requires KnownTemplate(t) && |bs| >= BlockLength(t)
  {
    if t == NEW_ORDER then
      NewOrderMessage(Signed(bs[..8]), Signed(bs[8..9]), Signed(bs[9..17]), Signed(bs[17..25]))
    else if t == CANCEL_ORDER then
      CancelMessage(Signed(bs[..8]))
    else if t == EXECUTION_REPORT then
      ExecutionReport(Signed(bs[..8]), Signed(bs[8..16]), Signed(bs[16..17]), Signed(bs[17..18]), Signed(bs[18..19]),
                      Signed(bs[19..27]), Signed(bs[27..35]), Signed(bs[35..43]), Signed(bs[43..51]))
    else if t == TRADE then
      TradeReport(Signed(bs[..8]), Signed(bs[8..16]), Signed(bs[16..24]), Signed(bs[24..32]), Signed(bs[32..40]))
    else
      DepthReport(Signed(bs[..1]), Signed(bs[1..9]), Signed(bs[9..17]), Signed(bs[17..25]))
  }

  function Encode(m: Message): Option<seq<byte>> {
    if InRange(m, VERSION) then Some(Block(m)) else None
  }

  // Bytes beyond the block are left unread.
  function Decode(t: int, bs: seq<byte>, acting: int): Option<Message>
    requires KnownTemplate(t)
  {
    if |bs| < BlockLength(t) then None
    else
      var m := MessageAt(t, bs);
      if InRange(m, acting) then Some(m) else None
  }

  // --- Reading what was written ----------------------------------------------


  lemma {:induction false} FieldsFit()
    ensures forall v :: Field64(v) ==> FitsSigned(v, 8)
    ensures forall v :: KnownCode(v) || KnownSide(v) ==> FitsSigned(v, 1)
  {
    Spans();
  }

  lemma {:induction false} NewOrderReads(m: Message, rest: seq<byte>)
    requires m.NewOrderMessage? && Field64(m.clientOrderId) && FitsSigned(m.side, 1) && Field64(m.price) && Field64(m.qty)
    ensures MessageAt(NEW_ORDER, Block(m) + rest) == m
  {
    FieldsFit();
    hide Put, Signed, FitsSigned;
    var bs := Block(m) + rest;
    assert bs[..8] == Put(m.clientOrderId, 8) && bs[8..9] == Put(m.side, 1);
    assert bs[9..17] == Put(m.price, 8) && bs[17..25] == Put(m.qty, 8);
    SignedPut(m.clientOrderId, 8);
    SignedPut(m.side, 1);
    SignedPut(m.price, 8);
    SignedPut(m.qty, 8);
  }

  lemma {:induction false} CancelReads(m: Message, rest: seq<byte>)
    requires m.CancelMessage? && InRange(m, VERSION)
    ensures MessageAt(CANCEL_ORDER, Block(m) + rest) == m
  {
    FieldsFit();
    hide Put, Signed, FitsSigned;
    assert (Block(m) + rest)[..8] == Put(m.orderId, 8);
    SignedPut(m.orderId, 8);
  }

  lemma {:induction false} ReportReads(m: Message, rest: seq<byte>)
    requires m.ExecutionReport? && InRange(m, VERSION)
    ensures MessageAt(EXECUTION_REPORT, Block(m) + rest) == m
  {
    FieldsFit();
    hide Put, Signed, FitsSigned;
    var bs := Block(m) + rest;
    assert bs[..8] == Put(m.orderId, 8) && bs[8..16] == Put(m.clientOrderId, 8);
    assert bs[16..17] == Put(m.status, 1) && bs[17..18] == Put(m.reason, 1) && bs[18..19] == Put(m.side, 1);
    assert bs[19..27] == Put(m.price, 8) && bs[27..35] == Put(m.qty, 8);
    assert bs[35..43] == Put(m.remainingQty, 8) && bs[43..51] == Put(m.timestamp, 8);
    SignedPut(m.orderId, 8);
    SignedPut(m.clientOrderId, 8);
    SignedPut(m.status, 1);
    SignedPut(m.reason, 1);
    SignedPut(m.side, 1);
    SignedPut(m.price, 8);
    SignedPut(m.qty, 8);
    SignedPut(m.remainingQty, 8);
    SignedPut(m.timestamp, 8);
  }

  lemma {:induction false} TradeReads(m: Message, rest: seq<byte>)
    requires m.TradeReport? && InRange(m, VERSION)
    ensures MessageAt(TRADE, Block(m) + rest) == m
  {
    FieldsFit();
    hide Put, Signed, FitsSigned;
    var bs := Block(m) + rest;
    assert bs[..8] == Put(m.price, 8) && bs[8..16] == Put(m.qty, 8) && bs[16..24] == Put(m.makerOrderId, 8);
    assert bs[24..32] == Put(m.takerOrderId, 8) && bs[32..40] == Put(m.timestamp, 8);
    SignedPut(m.price, 8);
    SignedPut(m.qty, 8);
    SignedPut(m.makerOrderId, 8);
    SignedPut(m.takerOrderId, 8);
    SignedPut(m.timestamp, 8);
  }

  lemma {:induction false} DepthReads(m: Message, rest: seq<byte>)
    requires m.DepthReport? && InRange(m, VERSION)
    ensures MessageAt(BOOK_UPDATE, Block(m) + rest) == m
  {
    FieldsFit();
    hide Put, Signed, FitsSigned;
    var bs := Block(m) + rest;
    assert bs[..1] == Put(m.side, 1) && bs[1..9] == Put(m.price, 8);
    assert bs[9..17] == Put(m.aggregateQty, 8) && bs[17..25] == Put(m.timestamp, 8);
    SignedPut(m.side, 1);
    SignedPut(m.price, 8);
    SignedPut(m.aggregateQty, 8);
    SignedPut(m.timestamp, 8);
  }

  // Decoding an encoded message gives it back, whatever follows it.
  lemma {:induction false} DecodeEncoded(m: Message, rest: seq<byte>)
    requires Encode(m).Some?
    ensures Decode(TemplateOf(m), Encode(m).value + rest, VERSION) == Some(m)
  {
    FieldsFit();
    hide MessageAt, Block, FitsSigned;
    match m
    case NewOrderMessage(_, _, _, _) => NewOrderReads(m, rest);
    case CancelMessage(_) => CancelReads(m, rest);
    case ExecutionReport(_, _, _, _, _, _, _, _, _) => ReportReads(m, rest);
    case TradeReport(_, _, _, _, _) => TradeReads(m, rest);
    case DepthReport(_, _, _, _) => DepthReads(m, rest);
  }

  // --- Writing what was read -------------------------------------------------

  lemma {:induction false} Rewritten(bs: seq<byte>, from: nat, n: nat)
    requires from + n <= |bs| && n > 0
    ensures Put(Signed(bs[from..from + n]), n) == bs[from..from + n]
    ensures from == 0 ==> bs[from..from + n] == bs[..n]
  {
    PutSigned(bs[from..from + n]);
  }

  lemma {:induction false} Longer(bs: seq<byte>, i: nat, j: nat)
    requires i <= j <= |bs|
    ensures bs[..i] + bs[i..j] == bs[..j]
  {
  }

  // Any block of bytes is the encoding of the message read from it.
  lemma {:induction false} BlockOfRead(t: int, bs: seq<byte>)
    requires KnownTemplate(t) && |bs| >= BlockLength(t)
    ensures TemplateOf(MessageAt(t, bs)) == t && Block(MessageAt(t, bs)) == bs[..BlockLength(t)]
  {
    hide Put, Signed;
    if t == NEW_ORDER {
      Longer(bs, 8, 9);
      Longer(bs, 9, 17);
      Longer(bs, 17, 25);
      Rewritten(bs, 0, 8);
      Rewritten(bs, 8, 1);
      Rewritten(bs, 9, 8);
      Rewritten(bs, 17, 8);
    } else if t == CANCEL_ORDER {
      Rewritten(bs, 0, 8);
    } else if t == EXECUTION_REPORT {
      Longer(bs, 8, 16);
      Longer(bs, 16, 17);
      Longer(bs, 17, 18);
      Longer(bs, 18, 19);
      Longer(bs, 19, 27);
      Longer(bs, 27, 35);
      Longer(bs, 35, 43);
      Longer(bs, 43, 51);
      Rewritten(bs, 0, 8);
      Rewritten(bs, 8, 8);
      Rewritten(bs, 16, 1);
      Rewritten(bs, 17, 1);
      Rewritten(bs, 18, 1);
      Rewritten(bs, 19, 8);
      Rewritten(bs, 27, 8);
      Rewritten(bs, 35, 8);
      Rewritten(bs, 43, 8);
    } else if t == TRADE {
      Longer(bs, 8, 16);
      Longer(bs, 16, 24);
      Longer(bs, 24, 32);
      Longer(bs, 32, 40);
      Rewritten(bs, 0, 8);
      Rewritten(bs, 8, 8);
      Rewritten(bs, 16, 8);
      Rewritten(bs, 24, 8);
      Rewritten(bs, 32, 8);
    } else {
      Longer(bs, 1, 9);
      Longer(bs, 9, 17);
      Longer(bs, 17, 25);
      Rewritten(bs, 0, 1);
      Rewritten(bs, 1, 8);
      Rewritten(bs, 9, 8);
      Rewritten(bs, 17, 8);
    }
  }

  // Encoding a message decoded at the schema's version gives back its bytes, so
  // distinct blocks never decode to one message.
  lemma {:induction false} EncodeDecoded(t: int, bs: seq<byte>)
    requires KnownTemplate(t) && Decode(t, bs, VERSION).Some?
    ensures Encode(Decode(t, bs, VERSION).value) == Some(bs[..BlockLength(t)])
  {
    BlockOfRead(t, bs);
  }

  // --- Frames ----------------------------------------------------------------

  function HeaderOf(block: int, t: int, version: int): (bs: seq<byte>)
    ensures |bs| == FRAME_HEADER
  {
    Put(block, 2) + Put(t, 2) + Put(SCHEMA, 2) + Put(version, 2)
  }

  function FrameHeader(t: int): (bs: seq<byte>)
    ensures |bs| == FRAME_HEADER
  {
    HeaderOf(BlockLength(t), t, VERSION)
  }

  function Frame(m: Message): Option<seq<byte>> {
    if Encode(m).Some? then Some(FrameHeader(TemplateOf(m)) + Encode(m).value) else None
  }

  datatype Header = Header(blockLength: int, templateId: int, schemaId: int, version: int)

  function HeaderAt(bs: seq<byte>): Header
    requires |bs| >= FRAME_HEADER
  {
    Header(Unsigned(bs[..2]), Unsigned(bs[2..4]), Unsigned(bs[4..6]), Unsigned(bs[6..8]))
  }

  lemma {:induction false} HeaderReads(block: int, t: int, version: int, rest: seq<byte>)
    requires 0 <= block < 0x1_0000 && 0 <= t < 0x1_0000 && 0 <= version < 0x1_0000
    ensures var bs := HeaderOf(block, t, version) + rest;
            HeaderAt(bs) == Header(block, t, SCHEMA, version) && bs[FRAME_HEADER..] == rest
  {
    Spans();
    hide Put, Unsigned, Span;
    var bs := HeaderOf(block, t, version) + rest;
    assert bs[..2] == Put(block, 2) && bs[2..4] == Put(t, 2);
    assert bs[4..6] == Put(SCHEMA, 2) && bs[6..8] == Put(version, 2);
    UnsignedPut(block, 2);
    UnsignedPut(t, 2);
    UnsignedPut(SCHEMA, 2);
    UnsignedPut(version, 2);
  }

  // A frame is its header and exactly the declared block, and reads back.
  lemma {:induction false} FrameReads(m: Message)
    requires Frame(m).Some?
    ensures var bs := Frame(m).value;
            && |bs| == FRAME_HEADER + HeaderAt(bs).blockLength
            && HeaderAt(bs) == Header(BlockLength(TemplateOf(m)), TemplateOf(m), SCHEMA, VERSION)
            && Decode(TemplateOf(m), bs[FRAME_HEADER..], VERSION) == Some(m)
  {
    hide InRange, Block, MessageAt, HeaderOf, HeaderAt, Decode;
    HeaderReads(BlockLength(TemplateOf(m)), TemplateOf(m), VERSION, Encode(m).value);
    DecodeEncoded(m, []);
    assert Encode(m).value + [] == Encode(m).value;
  }

  // --- The frames, byte by byte ----------------------------------------------

  // Block length, template, schema 901 and version 1.
  predicate HasHeader(bs: seq<byte>, block: int, template: int)
    requires |bs| >= 8
  {
    && Unsigned(bs[0..2]) == block && Unsigned(bs[2..4]) == template
    && Unsigned(bs[4..6]) == 901 && Unsigned(bs[6..8]) == 1
  }

  lemma {:induction false} FrameHolds(m: Message)
    requires Frame(m).Some?
    ensures var bs, t := Frame(m).value, TemplateOf(m);
            |bs| == 8 + BlockLength(t) && HasHeader(bs, BlockLength(t), t) && MessageAt(t, bs[8..]) == m
  {
    FrameReads(m);
    assert Frame(m).value[0..2] == Frame(m).value[..2];
    hide Frame, Signed, Unsigned, InRange, Block;
  }

  lemma {:induction false} Behind(bs: seq<byte>, i: nat, j: nat)
    requires i <= j && 8 + j <= |bs|
    ensures bs[8..][i..j] == bs[8 + i..8 + j]
    ensures i == 0 ==> bs[8..][..j] == bs[8..8 + j]
  {
  }

  lemma {:induction false} NewOrderLayout(m: Message)
    requires m.NewOrderMessage? && Frame(m).Some?
    ensures var bs := Frame(m).value;
            && |bs| == 33 && HasHeader(bs, 25, 1)
            && Signed(bs[8..16]) == m.clientOrderId && Signed(bs[16..17]) == m.side
            && Signed(bs[17..25]) == m.price && Signed(bs[25..33]) == m.qty
  {
    var bs := Frame(m).value;
    FrameHolds(m);
    hide Frame, Signed, Unsigned, HasHeader;
    Behind(bs, 0, 8);
    Behind(bs, 8, 9);
    Behind(bs, 9, 17);
    Behind(bs, 17, 25);
  }

  lemma {:induction false} CancelLayout(m: Message)
    requires m.CancelMessage? && Frame(m).Some?
    ensures var bs := Frame(m).value;
            && |bs| == 16 && HasHeader(bs, 8, 2)
            && Signed(bs[8..16]) == m.orderId
  {
    var bs := Frame(m).value;
    FrameHolds(m);
    hide Frame, Signed, Unsigned, HasHeader;
    Behind(bs, 0, 8);
  }

  lemma {:induction false} ReportLayout(m: Message)
    requires m.ExecutionReport? && Frame(m).Some?
    ensures var bs := Frame(m).value;
            && |bs| == 59 && HasHeader(bs, 51, 10)
            && Signed(bs[8..16]) == m.orderId && Signed(bs[16..24]) == m.clientOrderId
            && Signed(bs[24..25]) == m.status && Signed(bs[25..26]) == m.reason && Signed(bs[26..27]) == m.side
            && Signed(bs[27..35]) == m.price && Signed(bs[35..43]) == m.qty
            && Signed(bs[43..51]) == m.remainingQty && Signed(bs[51..59]) == m.timestamp
  {
    var bs := Frame(m).value;
    FrameHolds(m);
    hide Frame, Signed, Unsigned, HasHeader;
    Behind(bs, 0, 8);
    Behind(bs, 8, 16);
    Behind(bs, 16, 17);
    Behind(bs, 17, 18);
    Behind(bs, 18, 19);
    Behind(bs, 19, 27);
    Behind(bs, 27, 35);
    Behind(bs, 35, 43);
    Behind(bs, 43, 51);
  }

  lemma {:induction false} TradeLayout(m: Message)
    requires m.TradeReport? && Frame(m).Some?
    ensures var bs := Frame(m).value;
            && |bs| == 48 && HasHeader(bs, 40, 11)
            && Signed(bs[8..16]) == m.price && Signed(bs[16..24]) == m.qty && Signed(bs[24..32]) == m.makerOrderId
            && Signed(bs[32..40]) == m.takerOrderId && Signed(bs[40..48]) == m.timestamp
  {
    var bs := Frame(m).value;
    FrameHolds(m);
    hide Frame, Signed, Unsigned, HasHeader;
    Behind(bs, 0, 8);
    Behind(bs, 8, 16);
    Behind(bs, 16, 24);
    Behind(bs, 24, 32);
    Behind(bs, 32, 40);
  }

  lemma {:induction false} DepthBehind(bs: seq<byte>)
    requires |bs| >= 33
    ensures MessageAt(BOOK_UPDATE, bs[8..])
         == DepthReport(Signed(bs[8..9]), Signed(bs[9..17]), Signed(bs[17..25]), Signed(bs[25..33]))
  {
    hide Signed;
    Behind(bs, 0, 1);
    Behind(bs, 1, 9);
    Behind(bs, 9, 17);
    Behind(bs, 17, 25);
  }

  lemma {:induction false} DepthLayout(m: Message)
    requires m.DepthReport? && Frame(m).Some?
    ensures var bs := Frame(m).value;
            && |bs| == 33 && HasHeader(bs, 25, 12)
            && Signed(bs[8..9]) == m.side && Signed(bs[9..17]) == m.price && Signed(bs[17..25]) == m.aggregateQty
            && Signed(bs[25..33]) == m.timestamp
  {
    FrameHolds(m);
    DepthBehind(Frame(m).value);
    hide Frame, Signed, Unsigned, HasHeader, MessageAt;
  }

  // --- The stream form -------------------------------------------------------

  // Each method works field by field on the shared scratch buffer; an encoder
  // returns the bytes it appends to the stream.

  method EncodeExecutionReport(m: Marshaller, e: Message) returns (r: Option<seq<byte>>)
    requires m.b8.Length == 8 && e.ExecutionReport?
    modifies m.b8
    ensures r == Encode(e)
  {
    if !InRange(e, VERSION) {
      return None;
    }
    hide Put, InRange;
    var s := m.WriteInt64([], e.orderId);
    assert s == Put(e.orderId, 8);
    s := m.WriteInt64(s, e.clientOrderId);
    s := m.WriteInt8(s, e.status);
    s := m.WriteInt8(s, e.reason);
    s := m.WriteInt8(s, e.side);
    s := m.WriteInt64(s, e.price);
    s := m.WriteInt64(s, e.qty);
    s := m.WriteInt64(s, e.remainingQty);
    s := m.WriteInt64(s, e.timestamp);
    return Some(s);
  }

  method EncodeTradeEvent(m: Marshaller, e: Message) returns (r: Option<seq<byte>>)
    requires m.b8.Length == 8 && e.TradeReport?
    modifies m.b8
    ensures r == Encode(e)
  {
    if !InRange(e, VERSION) {
      return None;
    }
    hide Put, InRange;
    var s := m.WriteInt64([], e.price);
    assert s == Put(e.price, 8);
    s := m.WriteInt64(s, e.qty);
    s := m.WriteInt64(s, e.makerOrderId);
    s := m.WriteInt64(s, e.takerOrderId);
    s := m.WriteInt64(s, e.timestamp);
    return Some(s);
  }

  method EncodeBookUpdate(m: Marshaller, e: Message) returns (r: Option<seq<byte>>)
    requires m.b8.Length == 8 && e.DepthReport?
    modifies m.b8
    ensures r == Encode(e)
  {
    if !InRange(e, VERSION) {
      return None;
    }
    hide Put, InRange;
    var s := m.WriteInt8([], e.side);
    assert s == Put(e.side, 1);
    s := m.WriteInt64(s, e.price);
    s := m.WriteInt64(s, e.aggregateQty);
    s := m.WriteInt64(s, e.timestamp);
    return Some(s);
  }

  method EncodeNewOrder(m: Marshaller, e: Message) returns (r: Option<seq<byte>>)
    requires m.b8.Length == 8 && e.NewOrderMessage?
    modifies m.b8
    ensures r == Encode(e)
  {
    if !InRange(e, VERSION) {
      return None;
    }
    hide Put, InRange;
    var s := m.WriteInt64([], e.clientOrderId);
    assert s == Put(e.clientOrderId, 8);
    s := m.WriteInt8(s, e.side);
    s := m.WriteInt64(s, e.price);
    s := m.WriteInt64(s, e.qty);
    return Some(s);
  }

  method EncodeCancelOrder(m: Marshaller, e: Message) returns (r: Option<seq<byte>>)
    requires m.b8.Length == 8 && e.CancelMessage?
    modifies m.b8
    ensures r == Encode(e)
  {
    if !InRange(e, VERSION) {
      return None;
    }
    var s := m.WriteInt64([], e.orderId);
    assert s == Put(e.orderId, 8);
    return Some(s);
  }

  // Header first, then the message; a range failure gives no frame.
  method EncodeFrame(m: Marshaller, e: Message) returns (r: Option<seq<byte>>)
    requires m.b8.Length == 8
    modifies m.b8
    ensures r == Frame(e)
  {
    hide Put, InRange, Block;
    var t := TemplateOf(e);
    var w := m.WriteUint16([], BlockLength(t));
    w := m.WriteUint16(w, t);
    w := m.WriteUint16(w, SCHEMA);
    w := m.WriteUint16(w, VERSION);
    assert w == FrameHeader(t);
    match e {
      case NewOrderMessage(_, _, _, _) => r := EncodeNewOrder(m, e);
      case CancelMessage(_) => r := EncodeCancelOrder(m, e);
      case ExecutionReport(_, _, _, _, _, _, _, _, _) => r := EncodeExecutionReport(m, e);
      case TradeReport(_, _, _, _, _) => r := EncodeTradeEvent(m, e);
      case DepthReport(_, _, _, _) => r := EncodeBookUpdate(m, e);
    }
    if r.Some? {
      r := Some(w + r.value);
    }
  }

  method DecodeNewOrder(m: Marshaller, bs: seq<byte>, acting: int) returns (r: Option<Message>)
    requires m.b8.Length == 8
    modifies m.b8
    ensures r == Decode(NEW_ORDER, bs, acting)
  {
    hide Signed, InRange;
    var ok, client, side, price, qty, s;
    ok, client, s := m.ReadInt64(bs);
    if !ok { return None; }
    ok, side, s := m.ReadInt8(s);
    if !ok { return None; }
    ok, price, s := m.ReadInt64(s);
    if !ok { return None; }
    ok, qty, s := m.ReadInt64(s);
    if !ok { return None; }
    var e := NewOrderMessage(client, side, price, qty);
    assert e == MessageAt(NEW_ORDER, bs) by {
      assert bs[8..][..1] == bs[8..9] && bs[9..][..8] == bs[9..17] && bs[17..][..8] == bs[17..25];
    }
    return if InRange(e, acting) then Some(e) else None;
  }

  method DecodeCancelOrder(m: Marshaller, bs: seq<byte>, acting: int) returns (r: Option<Message>)
    requires m.b8.Length == 8
    modifies m.b8
    ensures r == Decode(CANCEL_ORDER, bs, acting)
  {
    hide Signed;
    var ok, id, s := m.ReadInt64(bs);
    if !ok { return None; }
    var e := CancelMessage(id);
    return if InRange(e, acting) then Some(e) else None;
  }

  method DecodeExecutionReport(m: Marshaller, bs: seq<byte>, acting: int) returns (r: Option<Message>)
    requires m.b8.Length == 8
    modifies m.b8
    ensures r == Decode(EXECUTION_REPORT, bs, acting)
  {
    hide Signed, InRange;
    var ok, id, client, status, reason, side, price, qty, left, ts, s;
    ok, id, s := m.ReadInt64(bs);
    if !ok { return None; }
    ok, client, s := m.ReadInt64(s);
    if !ok { return None; }
    ok, status, s := m.ReadInt8(s);
    if !ok { return None; }
    ok, reason, s := m.ReadInt8(s);
    if !ok { return None; }
    ok, side, s := m.ReadInt8(s);
    if !ok { return None; }
    ok, price, s := m.ReadInt64(s);
    if !ok { return None; }
    ok, qty, s := m.ReadInt64(s);
    if !ok { return None; }
    ok, left, s := m.ReadInt64(s);
    if !ok { return None; }
    ok, ts, s := m.ReadInt64(s);
    if !ok { return None; }
    var e := ExecutionReport(id, client, status, reason, side, price, qty, left, ts);
    assert e == MessageAt(EXECUTION_REPORT, bs) by {
      assert bs[8..][..8] == bs[8..16] && bs[16..][..1] == bs[16..17] && bs[17..][..1] == bs[17..18];
      assert bs[18..][..1] == bs[18..19] && bs[19..][..8] == bs[19..27] && bs[27..][..8] == bs[27..35];
      assert bs[35..][..8] == bs[35..43] && bs[43..][..8] == bs[43..51];
    }
    return if InRange(e, acting) then Some(e) else None;
  }

  method DecodeTradeEvent(m: Marshaller, bs: seq<byte>, acting: int) returns (r: Option<Message>)
    requires m.b8.Length == 8
    modifies m.b8
    ensures r == Decode(TRADE, bs, acting)
  {
    hide Signed, InRange;
    var ok, price, qty, maker, taker, ts, s;
    ok, price, s := m.ReadInt64(bs);
    if !ok { return None; }
    ok, qty, s := m.ReadInt64(s);
    if !ok { return None; }
    ok, maker, s := m.ReadInt64(s);
    if !ok { return None; }
    ok, taker, s := m.ReadInt64(s);
    if !ok { return None; }
    ok, ts, s := m.ReadInt64(s);
    if !ok { return None; }
    var e := TradeReport(price, qty, maker, taker, ts);
    assert e == MessageAt(TRADE, bs) by {
      assert bs[8..][..8] == bs[8..16] && bs[16..][..8] == bs[16..24];
      assert bs[24..][..8] == bs[24..32] && bs[32..][..8] == bs[32..40];
    }
    return if InRange(e, acting) then Some(e) else None;
  }

  method DecodeBookUpdate(m: Marshaller, bs: seq<byte>, acting: int) returns (r: Option<Message>)
    requires m.b8.Length == 8
    modifies m.b8
    ensures r == Decode(BOOK_UPDATE, bs, acting)
  {
    hide Signed, InRange;
    var ok, side, price, qty, ts, s;
    ok, side, s := m.ReadInt8(bs);
    if !ok { return None; }
    ok, price, s := m.ReadInt64(s);
    if !ok { return None; }
    ok, qty, s := m.ReadInt64(s);
    if !ok { return None; }
    ok, ts, s := m.ReadInt64(s);
    if !ok { return None; }
    var e := DepthReport(side, price, qty, ts);
    assert e == MessageAt(BOOK_UPDATE, bs) by {
      assert bs[1..][..8] == bs[1..9] && bs[9..][..8] == bs[9..17] && bs[17..][..8] == bs[17..25];
    }
    return if InRange(e, acting) then Some(e) else None;
  }
}
