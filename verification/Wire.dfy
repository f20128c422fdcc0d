/**
What crosses the wire: how the service turns engine events into frames, how the
client turns frames back into callbacks, and how ingress frames become commands.
*/
module Wire {
  import opened Events
  import opened Bytes
  import opened Bounds
  import opened Marshalling
  import opened Codec

  // --- Egress ----------------------------------------------------------------

  const ACCEPTED := 0
  const REJECTED := 1
  const PARTIALLY_FILLED := 2
  const FILLED := 3
  const CANCELED := 4

  function ReasonCode(r: RejectReason): int {
    match r
    case NoReason => 0
    case BadQty => 1
    case BadPrice => 2
    case UnknownOrder => 3
    case NotOwner => 4
  }

  function StatusOf(ev: Event): int {
    match ev
    case Accepted(_, _, _, _, _, _) => ACCEPTED
    case Rejected(_, _, _, _) => REJECTED
    case Canceled(_, _, _, _, _, _) => CANCELED
    case Filled(_, _, _, _, _, _, left) => if left == 0 then FILLED else PARTIALLY_FILLED
    case _ => REJECTED
  }

  // Fields an event does not carry go out as zero.
  function MessageOf(ev: Event, ts: int): Message {
    match ev
    case Accepted(id, client, _, side, price, qty) =>
      ExecutionReport(id, client, StatusOf(ev), 0, side, price, qty, 0, ts)
    case Rejected(id, client, _, reason) =>
      ExecutionReport(id, client, StatusOf(ev), ReasonCode(reason), 0, 0, 0, 0, ts)
    case Filled(id, client, _, side, price, qty, left) =>
      ExecutionReport(id, client, StatusOf(ev), 0, side, price, qty, left, ts)
    case Canceled(id, client, _, side, price, left) =>
      ExecutionReport(id, client, StatusOf(ev), 0, side, price, 0, left, ts)
    case Trade(price, qty, maker, taker, _, _) => TradeReport(price, qty, maker, taker, ts)
    case BookUpdate(side, price, qty) => DepthReport(side, price, qty, ts)
  }

  // None stands for the panic on an event that cannot be encoded.
  function EventFrame(ev: Event, ts: int): Option<seq<byte>> {
    Frame(MessageOf(ev, ts))
  }

  // What the client hands to its listener, if anything.
  function Callback(frame: seq<byte>): Option<Message> {
    if |frame| < FRAME_HEADER then None
    else
      var h := HeaderAt(frame);
      if h.templateId == EXECUTION_REPORT || h.templateId == TRADE || h.templateId == BOOK_UPDATE then
        Decode(h.templateId, frame[FRAME_HEADER..], h.version)
      else None
  }

  lemma {:induction false} Zeros()
    ensures Field64(0) && KnownSide(0)
  {
  }

  // An event can be sent exactly when its fields and the timestamp are in range.
  lemma {:induction false} EventEncodes(ev: Event, ts: int)
    ensures EventFrame(ev, ts).Some? <==> EventFits(ev) && Field64(ts)
  {
    hide Block, FrameHeader, Field64, KnownSide;
    assert Field64(0) && KnownSide(0) by {
      Zeros();
    }
  }

  // The codes of the schema, written out.
  predicate HasReason(code: int, reason: RejectReason) {
    match reason
    case NoReason => code == 0
    case BadQty => code == 1
    case BadPrice => code == 2
    case UnknownOrder => code == 3
    case NotOwner => code == 4
  }

  // A callback that tells the listener this event, field by field: its own fields
  // under their own names, zero where the event has none, and a status that says
  // accepted 0, rejected 1, partially filled 2, filled 3 or canceled 4.
  predicate Tells(m: Message, ev: Event, ts: int) {
    match ev
    case Accepted(_, _, _, _, _, _) =>
      && m.ExecutionReport? && m.status == 0 && m.reason == 0 && m.timestamp == ts
      && m.orderId == ev.orderId && m.clientOrderId == ev.clientOrderId
      && m.side == ev.side && m.price == ev.price && m.qty == ev.qty && m.remainingQty == 0
    case Rejected(_, _, _, _) =>
      && m.ExecutionReport? && m.status == 1 && HasReason(m.reason, ev.reason) && m.timestamp == ts
      && m.orderId == ev.orderId && m.clientOrderId == ev.clientOrderId
      && m.side == 0 && m.price == 0 && m.qty == 0 && m.remainingQty == 0
    case Filled(_, _, _, _, _, _, _) =>
      && m.ExecutionReport? && m.status == (if ev.remainingQty == 0 then 3 else 2) && m.reason == 0 && m.timestamp == ts
      && m.orderId == ev.orderId && m.clientOrderId == ev.clientOrderId
      && m.side == ev.side && m.price == ev.price && m.qty == ev.qty && m.remainingQty == ev.remainingQty
    case Canceled(_, _, _, _, _, _) =>
      && m.ExecutionReport? && m.status == 4 && m.reason == 0 && m.timestamp == ts
      && m.orderId == ev.orderId && m.clientOrderId == ev.clientOrderId
      && m.side == ev.side && m.price == ev.price && m.qty == 0 && m.remainingQty == ev.remainingQty
    case Trade(_, _, _, _, _, _) =>
      && m.TradeReport? && m.timestamp == ts && m.price == ev.price && m.qty == ev.qty
      && m.makerOrderId == ev.makerOrderId && m.takerOrderId == ev.takerOrderId
    case BookUpdate(_, _, _) =>
      && m.DepthReport? && m.timestamp == ts
      && m.side == ev.side && m.price == ev.price && m.aggregateQty == ev.aggregateQty
  }

  lemma {:induction false} MessageTells(ev: Event, ts: int)
    ensures Tells(MessageOf(ev, ts), ev, ts)
  {
  }

  // Every event that can be sent arrives: the frame has the declared length and
  // the client's listener is called with the event's own fields and status.
  lemma {:induction false} EventArrives(ev: Event, ts: int)
    requires EventFits(ev) && Field64(ts)
    ensures var frame := EventFrame(ev, ts);
            && frame.Some?
            && |frame.value| == FRAME_HEADER + BlockLength(TemplateOf(MessageOf(ev, ts)))
            && Callback(frame.value) == Some(MessageOf(ev, ts))
            && Tells(Callback(frame.value).value, ev, ts)
  {
    EventEncodes(ev, ts);
    MessageTells(ev, ts);
    FrameReads(MessageOf(ev, ts));
    hide Tells;
  }

  // The eight bytes at `from` are not the null of their field.
  predicate NonNull(frame: seq<byte>, from: nat)
    requires from + 8 <= |frame|
  {
    Signed(frame[from..from + 8]) > -0x8000_0000_0000_0000
  }

  // A code of an enumeration at `from`: known up to `top`, or null.
  predicate CodeAt(frame: seq<byte>, from: nat, top: int)
    requires from < |frame|
  {
    0 <= Signed(frame[from..from + 1]) <= top || Signed(frame[from..from + 1]) == -128
  }

  lemma {:induction false} WordBehind(frame: seq<byte>, i: nat)
    requires 16 + i <= |frame|
    ensures frame[8..][i..i + 8] == frame[8 + i..16 + i]
    ensures Field64(Signed(frame[8 + i..16 + i])) <==> NonNull(frame, 8 + i)
  {
    Behind(frame, i, i + 8);
    WordsFit(frame, 8 + i);
  }

  lemma {:induction false} CodeBehind(frame: seq<byte>, i: nat)
    requires 9 + i <= |frame|
    ensures frame[8..][i..i + 1] == frame[8 + i..9 + i]
  {
    Behind(frame, i, i + 1);
  }

  // Which reports, trades and level updates the client takes, told from the bytes;
  // the schema is not consulted.
  lemma {:induction false} ReportTaken(frame: seq<byte>)
    requires |frame| >= 8 && Unsigned(frame[2..4]) == 10
    ensures Callback(frame).Some? <==>
              && |frame| >= 59
              && NonNull(frame, 8) && NonNull(frame, 16) && NonNull(frame, 27) && NonNull(frame, 35)
              && NonNull(frame, 43) && NonNull(frame, 51)
              && (Unsigned(frame[6..8]) > 1 || (CodeAt(frame, 24, 4) && CodeAt(frame, 25, 4) && CodeAt(frame, 26, 1)))
  {
    if |frame| >= 59 {
      assert frame[8..][..8] == frame[8..][0..8];
      WordBehind(frame, 0);
      WordBehind(frame, 8);
      CodeBehind(frame, 16);
      CodeBehind(frame, 17);
      CodeBehind(frame, 18);
      WordBehind(frame, 19);
      WordBehind(frame, 27);
      WordBehind(frame, 35);
      WordBehind(frame, 43);
      hide Signed, Unsigned, Field64, NonNull;
    }
  }

  lemma {:induction false} TradeTaken(frame: seq<byte>)
    requires |frame| >= 8 && Unsigned(frame[2..4]) == 11
    ensures Callback(frame).Some? <==>
              && |frame| >= 48
              && NonNull(frame, 8) && NonNull(frame, 16) && NonNull(frame, 24) && NonNull(frame, 32) && NonNull(frame, 40)
  {
    if |frame| >= 48 {
      assert frame[8..][..8] == frame[8..][0..8];
      WordBehind(frame, 0);
      WordBehind(frame, 8);
      WordBehind(frame, 16);
      WordBehind(frame, 24);
      WordBehind(frame, 32);
      hide Signed, Unsigned, Field64, NonNull;
    }
  }

  lemma {:induction false} UpdateTaken(frame: seq<byte>)
    requires |frame| >= 8 && Unsigned(frame[2..4]) == 12
    ensures Callback(frame).Some? <==>
              && |frame| >= 33 && (Unsigned(frame[6..8]) > 1 || CodeAt(frame, 8, 1))
              && NonNull(frame, 9) && NonNull(frame, 17) && NonNull(frame, 25)
  {
    if |frame| >= 33 {
      assert frame[8..][..1] == frame[8..][0..1];
      CodeBehind(frame, 0);
      WordBehind(frame, 1);
      WordBehind(frame, 9);
      WordBehind(frame, 17);
      hide Signed, Unsigned, Field64, NonNull;
    }
  }

  lemma {:induction false} OthersIgnored(frame: seq<byte>)
    requires |frame| < 8 || Unsigned(frame[2..4]) !in {10, 11, 12}
    ensures Callback(frame) == None
  {
  }

  // An event without the session ids, which are not sent.
  function Anonymous(ev: Event): Event {
    match ev
    case Accepted(id, client, _, side, price, qty) => Accepted(id, client, 0, side, price, qty)
    case Rejected(id, client, _, reason) => Rejected(id, client, 0, reason)
    case Filled(id, client, _, side, price, qty, left) => Filled(id, client, 0, side, price, qty, left)
    case Canceled(id, client, _, side, price, left) => Canceled(id, client, 0, side, price, left)
    case Trade(price, qty, maker, taker, _, _) => Trade(price, qty, maker, taker, 0, 0)
    case BookUpdate(_, _, _) => ev
  }

  lemma {:induction false} MessageDeterminesEvent(ev: Event, ts: int, ev': Event, ts': int)
    requires MessageOf(ev, ts) == MessageOf(ev', ts')
    ensures ts == ts' && Anonymous(ev) == Anonymous(ev')
  {
    if ev.Rejected? && ev'.Rejected? {
      assert ev.reason == ev'.reason;
    }
  }

  // Nothing else is lost: equal frames come from the same event and timestamp.
  lemma {:induction false} FrameDeterminesEvent(ev: Event, ts: int, ev': Event, ts': int)
    requires EventFrame(ev, ts).Some? && EventFrame(ev, ts) == EventFrame(ev', ts')
    ensures ts == ts' && Anonymous(ev) == Anonymous(ev')
  {
    EventEncodes(ev, ts);
    EventEncodes(ev', ts');
    hide MessageOf, EventFrame, Callback, EventFits, BlockLength, TemplateOf;
    EventArrives(ev, ts);
    EventArrives(ev', ts');
    MessageDeterminesEvent(ev, ts, ev', ts');
  }

  // The client's egress adapter, with the callbacks it has made.
  class EgressAdapter {
    const marshaller: Marshaller
    var made: seq<Message>

    constructor ()
      ensures marshaller.b8.Length == 8 && made == []
    {
      marshaller := new Marshaller();
      made := [];
    }

    method OnMessage(frame: seq<byte>)
      requires marshaller.b8.Length == 8
      modifies this, marshaller.b8
      ensures made == old(made) + match Callback(frame) case Some(m) => [m] case None => []
    {
      if |frame| < FRAME_HEADER {
        return;
      }
      hide Decode, Unsigned;
      var templateId, version := Unsigned(frame[2..4]), Unsigned(frame[6..8]);
      var body := frame[FRAME_HEADER..];
      var m;
      if templateId == EXECUTION_REPORT {
        m := DecodeExecutionReport(marshaller, body, version);
      } else if templateId == TRADE {
        m := DecodeTradeEvent(marshaller, body, version);
      } else if templateId == BOOK_UPDATE {
        m := DecodeBookUpdate(marshaller, body, version);
      } else {
        return;
      }
      if m.Some? {
        made := made + [m.value];
      }
    }
  }

  // --- Ingress ---------------------------------------------------------------

  // The command in a frame from a session; anything malformed is dropped. The
  // declared block length is not consulted.
  function Ingress(frame: seq<byte>, session: int): Option<Command> {
    if |frame| < FRAME_HEADER then None
    else
      var h := HeaderAt(frame);
      if h.schemaId != SCHEMA then None
      else if h.templateId == NEW_ORDER then
        match Decode(NEW_ORDER, frame[FRAME_HEADER..], h.version)
        case Some(m) => Some(NewOrder(m.clientOrderId, session, m.side, m.price, m.qty))
        case None => None
      else if h.templateId == CANCEL_ORDER then
        match Decode(CANCEL_ORDER, frame[FRAME_HEADER..], h.version)
        case Some(m) => Some(Cancel(m.orderId, session))
        case None => None
      else None
  }

  // The frame a client sends for a command.
  function Request(cmd: Command): Option<seq<byte>> {
    match cmd
    case NewOrder(client, _, side, price, qty) => Frame(NewOrderMessage(client, side, price, qty))
    case Cancel(id, _) => Frame(CancelMessage(id))
  }

  // A request is sent exactly when it is in range, and arrives as the command it
  // was, owned by the sending session.
  lemma {:induction false} RequestArrives(cmd: Command)
    ensures Request(cmd).Some? <==> CommandFits(cmd)
    ensures Request(cmd).Some? ==> Ingress(Request(cmd).value, cmd.owner) == Some(cmd)
  {
    if Request(cmd).Some? {
      match cmd
      case NewOrder(client, _, side, price, qty) => FrameReads(NewOrderMessage(client, side, price, qty));
      case Cancel(id, _) => FrameReads(CancelMessage(id));
    }
  }

  // A new order as a client of another schema version sends it.
  function VersionedRequest(cmd: Command, version: int): seq<byte>
    requires cmd.NewOrder?
  {
    HeaderOf(BlockLength(NEW_ORDER), NEW_ORDER, version) + Block(NewOrderMessage(cmd.clientOrderId, cmd.side, cmd.price, cmd.qty))
  }

  // The fields a frame's bytes stand for, at their offsets.
  predicate HoldsOrder(frame: seq<byte>, cmd: Command)
    requires |frame| >= 33
  {
    && cmd.NewOrder? && cmd.clientOrderId == Signed(frame[8..16]) && cmd.side == Signed(frame[16..17])
    && cmd.price == Signed(frame[17..25]) && cmd.qty == Signed(frame[25..33])
  }

  // What gets in, told from the bytes of the frame: schema 901 at 4..6, and either
  // template 1 with 33 bytes, no null and a side that is 0, 1 or null unless the
  // version at 6..8 is newer than 1, or template 2 with 16 bytes and no null.
  lemma {:induction false} IngressExactly(frame: seq<byte>, session: int)
    ensures Ingress(frame, session).Some? <==>
              && |frame| >= 8 && Unsigned(frame[4..6]) == 901
              && if Unsigned(frame[2..4]) == 1 then
                   && |frame| >= 33
                   && Signed(frame[8..16]) > -0x8000_0000_0000_0000
                   && Signed(frame[17..25]) > -0x8000_0000_0000_0000
                   && Signed(frame[25..33]) > -0x8000_0000_0000_0000
                   && (Unsigned(frame[6..8]) > 1 || Signed(frame[16..17]) in {0, 1, -128})
                 else
                   Unsigned(frame[2..4]) == 2 && |frame| >= 16 && Signed(frame[8..16]) > -0x8000_0000_0000_0000
    ensures Ingress(frame, session).Some? ==>
              var cmd := Ingress(frame, session).value;
              && cmd.owner == session
              && if Unsigned(frame[2..4]) == 1 then |frame| >= 33 && HoldsOrder(frame, cmd)
                 else |frame| >= 16 && cmd.Cancel? && cmd.orderId == Signed(frame[8..16])
  {
    if |frame| >= 8 {
      var t, body := Unsigned(frame[2..4]), frame[8..];
      if (t == 1 && |body| >= 25) || (t == 2 && |body| >= 8) {
        OnlyNullsOutOfRange(t, body, Unsigned(frame[6..8]));
        assert body[..8] == frame[8..16];
      }
      if t == 1 && |body| >= 25 {
        assert body[8..9] == frame[16..17] && body[9..17] == frame[17..25] && body[17..25] == frame[25..33];
      }
      hide Signed, Unsigned, InRange;
    }
  }

  // From a newer version any 8-bit side code gets in.
  lemma {:induction false} NewerRequestArrives(cmd: Command, version: int)
    requires cmd.NewOrder? && NumbersFit(cmd) && FitsSigned(cmd.side, 1) && VERSION < version < 0x1_0000
    ensures Ingress(VersionedRequest(cmd, version), cmd.owner) == Some(cmd)
  {
    var m := NewOrderMessage(cmd.clientOrderId, cmd.side, cmd.price, cmd.qty);
    HeaderReads(BlockLength(NEW_ORDER), NEW_ORDER, version, Block(m));
    NewOrderReads(m, []);
    assert Block(m) + [] == Block(m);
    hide Block, MessageAt, HeaderAt, HeaderOf, FitsSigned;
  }

  // What gets in has its numbers in range and an 8-bit side, and a known side
  // unless the frame claims a newer version.
  lemma {:induction false} IngressFits(frame: seq<byte>, session: int)
    requires Ingress(frame, session).Some?
    ensures var cmd := Ingress(frame, session).value;
            && cmd.owner == session && NumbersFit(cmd)
            && (cmd.NewOrder? ==> -128 <= cmd.side < 128)
            && (CommandFits(cmd) <==> HeaderAt(frame).version <= VERSION || cmd.Cancel? || KnownSide(cmd.side))
  {
    hide HeaderAt;
  }

  // --- The Java guards -------------------------------------------------------

  datatype Ingested = Dropped | Taken(cmd: Command) | Overrun // reading past the frame

  // The Java service drops a frame shorter than it declares and any side code
  // but buy and sell; it does not range-check.
  function JavaIngress(frame: seq<byte>, session: int): Ingested {
    if |frame| < FRAME_HEADER then Dropped
    else
      var h, body := HeaderAt(frame), frame[FRAME_HEADER..];
      if h.schemaId != SCHEMA || |body| < h.blockLength then Dropped
      else if h.templateId == NEW_ORDER then
        if |body| < 9 then Overrun
        else
          var side := Signed(body[8..9]);
          if side != BUY && side != SELL then Dropped
          else if |body| < BlockLength(NEW_ORDER) then Overrun
          else Taken(NewOrder(Signed(body[..8]), session, side, Signed(body[9..17]), Signed(body[17..25])))
      else if h.templateId == CANCEL_ORDER then
        if |body| < BlockLength(CANCEL_ORDER) then Overrun else Taken(Cancel(Signed(body[..8]), session))
      else Dropped
  }

  // A field holding the null of its encoding.
  predicate HasNull(m: Message) {
    match m
    case NewOrderMessage(client, _, price, qty) => client < -MAX64 || price < -MAX64 || qty < -MAX64
    case CancelMessage(id) => id < -MAX64
    case _ => false
  }

  lemma {:induction false} WordsFit(bs: seq<byte>, from: nat)
    requires from + 8 <= |bs|
    ensures Field64(Signed(bs[from..from + 8])) <==> Signed(bs[from..from + 8]) >= -MAX64
  {
    PutSigned(bs[from..from + 8]);
    Spans();
  }

  lemma {:induction false} OnlyNullsOutOfRange(t: int, bs: seq<byte>, acting: int)
    requires (t == NEW_ORDER || t == CANCEL_ORDER) && |bs| >= BlockLength(t)
    ensures var m := MessageAt(t, bs);
            InRange(m, acting) <==> !HasNull(m) && (m.NewOrderMessage? ==> acting > VERSION || KnownSide(m.side))
  {
    hide Signed;
    assert bs[0..8] == bs[..8];
    WordsFit(bs, 0);
    if t == NEW_ORDER {
      WordsFit(bs, 9);
      WordsFit(bs, 17);
    }
  }

  // An order the Go range check refuses for its side.
  predicate RefusedSide(m: Message, acting: int) {
    m.NewOrderMessage? && acting <= VERSION && !KnownSide(m.side)
  }

  // When both services do the same with a frame, told from its bytes: on a frame
  // too short for its template, Java must drop it too, for its declared length or
  // its side; on one shorter than declared, which Java drops, Go must refuse a
  // null or a side; on a whole one, a buy, a sell or a cancel carries no null and
  // an order with any other side is one that Go refuses.
  predicate Alike(frame: seq<byte>) {
    |frame| < FRAME_HEADER
    || var h, body := HeaderAt(frame), frame[FRAME_HEADER..];
       h.schemaId != SCHEMA || (h.templateId != NEW_ORDER && h.templateId != CANCEL_ORDER)
       || if |body| < BlockLength(h.templateId) then
            |body| < h.blockLength || (h.templateId == NEW_ORDER && |body| >= 9 && !ProperSide(Signed(body[8..9])))
          else
            var m := MessageAt(h.templateId, body);
            if |body| < h.blockLength || (m.NewOrderMessage? && !ProperSide(m.side)) then
              HasNull(m) || RefusedSide(m, h.version)
            else !HasNull(m)
  }

  // The two services agree on a frame, counting a read past it as a difference,
  // if and only if it is alike to both.
  lemma {:induction false} IngressesAgree(frame: seq<byte>, session: int)
    ensures var go := match Ingress(frame, session) case Some(cmd) => Taken(cmd) case None => Dropped;
            go == JavaIngress(frame, session) <==> Alike(frame)
  {
    if |frame| >= FRAME_HEADER {
      var h, body := HeaderAt(frame), frame[FRAME_HEADER..];
      if (h.templateId == NEW_ORDER || h.templateId == CANCEL_ORDER) && |body| >= BlockLength(h.templateId) {
        OnlyNullsOutOfRange(h.templateId, body, h.version);
      }
      hide Signed, HeaderAt, InRange;
    }
  }

  // A new order that declares too long a block: Go takes it, Java drops it.
  lemma {:induction false} IngressesPart(session: int)
    ensures var cmd := NewOrder(1, session, BUY, 100, 5);
            var frame := HeaderOf(26, NEW_ORDER, VERSION) + Block(NewOrderMessage(1, BUY, 100, 5));
            Ingress(frame, session) == Some(cmd) && JavaIngress(frame, session) == Dropped
  {
    var m := NewOrderMessage(1, BUY, 100, 5);
    FieldsFit();
    NewOrderReads(m, []);
    assert Block(m) + [] == Block(m);
    HeaderReads(26, NEW_ORDER, VERSION, Block(m));
    hide Block, MessageAt, HeaderAt, HeaderOf, Signed;
  }
}
