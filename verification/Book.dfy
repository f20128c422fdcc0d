/**
The reference book: each side is one sequence of orders, best price first and
oldest first within a price. A command is a pure step on it. The pointer-based
book of `OrderBook.dfy` is proved to compute exactly these steps.
*/
module Book {
  import opened Events

  datatype Book = Book(bids: seq<Order>, asks: seq<Order>, nextId: int)

  const EMPTY := Book([], [], 1)

  // Strictly better price; `desc` is true for bids.
  predicate Ahead(desc: bool, p: int, q: int) {
    if desc then p > q else p < q
  }

  // The side an order rests on, and the side it trades against. Each tests for
  // one code only, so an improper side trades against asks and rests in asks.
  function Own(b: Book, side: int): seq<Order> {
    if side == BUY then b.bids else b.asks
  }

  function Opposite(b: Book, side: int): seq<Order> {
    if side == SELL then b.bids else b.asks
  }

  function OppositeCode(side: int): int {
    if side == SELL then BUY else SELL
  }

  // --- Quantity of the orders selected by a key ------------------------------

  datatype Key = ById(id: int) | AtPrice(price: int) | Crossing(side: int, limit: int) | All

  predicate Hits(k: Key, o: Order) {
    match k
    case ById(id) => o.id == id
    case AtPrice(price) => o.price == price
    case Crossing(side, limit) => Crosses(side, limit, o.price)
    case All => true
  }

  function Qty(s: seq<Order>, k: Key): int {
    if s == [] then 0 else (if Hits(k, s[0]) then s[0].qty else 0) + Qty(s[1..], k)
  }

  // --- Resting ---------------------------------------------------------------

  // The first position whose price is strictly worse than `price`.
  function RestPosition(s: seq<Order>, price: int, desc: bool): (k: nat)
    ensures k <= |s|
    ensures forall i :: 0 <= i < k ==> !Ahead(desc, price, s[i].price)
    ensures k < |s| ==> Ahead(desc, price, s[k].price)
  {
    if s == [] || Ahead(desc, price, s[0].price) then 0 else 1 + RestPosition(s[1..], price, desc)
  }

  function Insert(s: seq<Order>, o: Order): seq<Order> {
    var k := RestPosition(s, o.price, o.side == BUY);
    s[..k] + [o] + s[k..]
  }

  function Rest(b: Book, o: Order): Book {
    if o.side == BUY then b.(bids := Insert(b.bids, o)) else b.(asks := Insert(b.asks, o))
  }

  // --- Matching --------------------------------------------------------------

  predicate Crosses(side: int, limit: int, price: int) {
    !(side == BUY && price > limit) && !(side == SELL && price < limit)
  }

  // One fill: the maker as it stood before, the traded quantity and what the
  // taker still wants afterwards.
  datatype Fill = Fill(maker: Order, qty: int, takerLeft: int)

  datatype Matched = Matched(fills: seq<Fill>, opposite: seq<Order>, left: int)

  function Match(s: seq<Order>, side: int, limit: int, qty: int): Matched {
    if qty <= 0 || s == [] || !Crosses(side, limit, s[0].price) then
      Matched([], s, qty)
    else
      var maker := s[0];
      if qty < maker.qty then
        Matched([Fill(maker, qty, 0)], [maker.(qty := maker.qty - qty)] + s[1..], 0)
      else
        var rest := Match(s[1..], side, limit, qty - maker.qty);
        Matched([Fill(maker, maker.qty, qty - maker.qty)] + rest.fills, rest.opposite, rest.left)
  }

  function FillEvents(taker: Order, f: Fill): seq<Event> {
    [ Trade(f.maker.price, f.qty, f.maker.id, taker.id, f.maker.owner, taker.owner),
      Filled(f.maker.id, f.maker.clientOrderId, f.maker.owner, f.maker.side, f.maker.price, f.qty, f.maker.qty - f.qty),
      Filled(taker.id, taker.clientOrderId, taker.owner, taker.side, f.maker.price, f.qty, f.takerLeft) ]
  }

  function AllFillEvents(taker: Order, fills: seq<Fill>): seq<Event> {
    if fills == [] then [] else FillEvents(taker, fills[0]) + AllFillEvents(taker, fills[1..])
  }

  // The distinct maker prices in order of first touch.
  function Touched(fills: seq<Fill>): seq<int> {
    if fills == [] then []
    else
      var before := Touched(fills[..|fills| - 1]);
      var price := fills[|fills| - 1].maker.price;
      if price in before then before else before + [price]
  }

  function Updates(side: int, prices: seq<int>, s: seq<Order>): seq<Event> {
    seq(|prices|, i requires 0 <= i < |prices| => BookUpdate(side, prices[i], Qty(s, AtPrice(prices[i]))))
  }

  // --- Commands --------------------------------------------------------------

  datatype Outcome = Outcome(book: Book, events: seq<Event>)

  predicate Acceptable(cmd: Command) {
    cmd.NewOrder? && cmd.qty > 0 && cmd.price > 0
  }

  function Taker(b: Book, cmd: Command): Order
    requires cmd.NewOrder?
  {
    Order(b.nextId, cmd.clientOrderId, cmd.owner, cmd.side, cmd.price, cmd.qty)
  }

  function MatchOf(b: Book, cmd: Command): Matched
    requires cmd.NewOrder?
  {
    Match(Opposite(b, cmd.side), cmd.side, cmd.price, cmd.qty)
  }

  // The book after matching and before the remainder rests.
  function AfterMatch(b: Book, side: int, opposite: seq<Order>): Book {
    if side == SELL then b.(bids := opposite, nextId := b.nextId + 1) else b.(asks := opposite, nextId := b.nextId + 1)
  }

  // The book once an acceptable order has matched and its remainder, if any, rests.
  function Placed(b: Book, cmd: Command): Book
    requires cmd.NewOrder?
  {
    var m := MatchOf(b, cmd);
    var matched := AfterMatch(b, cmd.side, m.opposite);
    if m.left > 0 then Rest(matched, Taker(b, cmd).(qty := m.left)) else matched
  }

  function AcceptedEvent(o: Order): Event {
    Accepted(o.id, o.clientOrderId, o.owner, o.side, o.price, o.qty)
  }

  // The level updates of one order: touched opposite levels first, then its own.
  function UpdateEvents(b: Book, cmd: Command): seq<Event>
    requires cmd.NewOrder?
  {
    var m := MatchOf(b, cmd);
    var opposite := Updates(OppositeCode(cmd.side), Touched(m.fills), m.opposite);
    if m.left > 0 then
      opposite + [BookUpdate(cmd.side, cmd.price, Qty(Own(Placed(b, cmd), cmd.side), AtPrice(cmd.price)))]
    else opposite
  }

  function PlaceOrder(b: Book, cmd: Command): Outcome
    requires cmd.NewOrder?
  {
    if cmd.qty <= 0 then
      Outcome(b, [Rejected(0, cmd.clientOrderId, cmd.owner, BadQty)])
    else if cmd.price <= 0 then
      Outcome(b, [Rejected(0, cmd.clientOrderId, cmd.owner, BadPrice)])
    else
      var taker := Taker(b, cmd);
      Outcome(Placed(b, cmd),
              [AcceptedEvent(taker)] + AllFillEvents(taker, MatchOf(b, cmd).fills) + UpdateEvents(b, cmd))
  }

  // The position of the order with the given id, or the length when there is none.
  function Find(s: seq<Order>, id: int): (k: nat)
    ensures k <= |s|
    ensures k < |s| ==> s[k].id == id
    ensures forall i :: 0 <= i < k ==> s[i].id != id
  {
    if s == [] || s[0].id == id then 0 else 1 + Find(s[1..], id)
  }

  function Without(s: seq<Order>, k: nat): seq<Order>
    requires k < |s|
  {
    s[..k] + s[k + 1..]
  }

  function CancelEvents(o: Order, left: seq<Order>): seq<Event> {
    [ Canceled(o.id, o.clientOrderId, o.owner, o.side, o.price, o.qty),
      BookUpdate(o.side, o.price, Qty(left, AtPrice(o.price))) ]
  }

  function CancelOrder(b: Book, id: int, owner: int): Outcome {
    var i, j := Find(b.bids, id), Find(b.asks, id);
    if i == |b.bids| && j == |b.asks| then
      Outcome(b, [Rejected(id, 0, owner, UnknownOrder)])
    else
      var o := if i < |b.bids| then b.bids[i] else b.asks[j];
      if o.owner != owner then
        Outcome(b, [Rejected(id, 0, owner, NotOwner)])
      else if i < |b.bids| then
        Outcome(b.(bids := Without(b.bids, i)), CancelEvents(o, Without(b.bids, i)))
      else
        Outcome(b.(asks := Without(b.asks, j)), CancelEvents(o, Without(b.asks, j)))
  }

  function Step(b: Book, cmd: Command): Outcome {
    match cmd
    case NewOrder(_, _, _, _, _) => PlaceOrder(b, cmd)
    case Cancel(id, owner) => CancelOrder(b, id, owner)
  }

  function Run(b: Book, cmds: seq<Command>): Outcome {
    if cmds == [] then Outcome(b, [])
    else
      var before := Run(b, cmds[..|cmds| - 1]);
      var last := Step(before.book, cmds[|cmds| - 1]);
      Outcome(last.book, before.events + last.events)
  }
}
