/**
When the unbounded integers of the model fit the 64-bit fields of the program:
if the accepted quantities of a run add up to at most the largest 64-bit value,
and so does the number of accepted orders, then no id, quantity, total or event
field ever leaves the range, and the events pass the wire range check exactly
when every accepted order has a side the schema knows.
*/
module Bounds {
  import opened Events
  import opened Book
  import opened Matching
  import opened Invariant

  const MAX64 := 0x7FFF_FFFF_FFFF_FFFF

  // A non-null 64-bit field: the smallest value is the null of the encoding.
  predicate Field64(v: int) {
    -MAX64 <= v <= MAX64
  }

  // The side codes the schema knows: buy, sell and null.
  const NULL_CODE := -128

  predicate KnownSide(side: int) {
    side == BUY || side == SELL || side == NULL_CODE
  }

  // The numbers of a command, an event and an order, without their sides.
  predicate NumbersFit(cmd: Command) {
    match cmd
    case NewOrder(client, _, _, price, qty) => Field64(client) && Field64(price) && Field64(qty)
    case Cancel(id, _) => Field64(id)
  }

  predicate EventNumbersFit(ev: Event) {
    match ev
    case Accepted(id, client, _, _, price, qty) => Field64(id) && Field64(client) && Field64(price) && Field64(qty)
    case Rejected(id, client, _, _) => Field64(id) && Field64(client)
    case Trade(price, qty, maker, taker, _, _) => Field64(price) && Field64(qty) && Field64(maker) && Field64(taker)
    case Filled(id, client, _, _, price, qty, left) =>
      Field64(id) && Field64(client) && Field64(price) && Field64(qty) && Field64(left)
    case Canceled(id, client, _, _, price, left) => Field64(id) && Field64(client) && Field64(price) && Field64(left)
    case BookUpdate(_, price, qty) => Field64(price) && Field64(qty)
  }

  predicate OrderFits(o: Order) {
    Field64(o.clientOrderId) && Field64(o.price)
  }

  predicate CommandFits(cmd: Command) {
    NumbersFit(cmd) && (cmd.NewOrder? ==> KnownSide(cmd.side))
  }

  // The side an event shows, if any, is known.
  predicate ShowsKnownSide(ev: Event) {
    ev.Accepted? || ev.Filled? || ev.Canceled? || ev.BookUpdate? ==> KnownSide(ev.side)
  }

  // What the range check of the wire asks.
  predicate EventFits(ev: Event) {
    EventNumbersFit(ev) && ShowsKnownSide(ev)
  }

  ghost predicate AllNumbersFit(events: seq<Event>) {
    forall i :: 0 <= i < |events| ==> EventNumbersFit(events[i])
  }

  ghost predicate AllShowKnownSides(events: seq<Event>) {
    forall i :: 0 <= i < |events| ==> ShowsKnownSide(events[i])
  }

  ghost predicate EventsFit(events: seq<Event>) {
    forall i :: 0 <= i < |events| ==> EventFits(events[i])
  }

  ghost predicate OrdersFit(s: seq<Order>) {
    forall i :: 0 <= i < |s| ==> OrderFits(s[i])
  }

  ghost predicate KnownOrders(s: seq<Order>) {
    forall i :: 0 <= i < |s| ==> KnownSide(s[i].side)
  }

  ghost predicate KnownBook(b: Book) {
    KnownOrders(b.bids) && KnownOrders(b.asks)
  }

  function Resting(b: Book): int {
    Qty(b.bids, All) + Qty(b.asks, All)
  }

  function Wanted(cmd: Command): int {
    if Acceptable(cmd) then cmd.qty else 0
  }

  function WantedAll(cmds: seq<Command>): int {
    if cmds == [] then 0 else WantedAll(cmds[..|cmds| - 1]) + Wanted(cmds[|cmds| - 1])
  }

  function AcceptedCount(cmds: seq<Command>): nat {
    if cmds == [] then 0 else AcceptedCount(cmds[..|cmds| - 1]) + (if Acceptable(cmds[|cmds| - 1]) then 1 else 0)
  }

  // --- One order -------------------------------------------------------------

  lemma {:induction false} SingleBound(s: seq<Order>, i: nat)
    requires AllPositive(s) && i < |s|
    ensures 0 < s[i].qty <= Qty(s, All)
  {
    QtyWithout(s, i, All);
    var t := Without(s, i);
    assert forall j :: 0 <= j < |t| ==> t[j] == if j < i then s[j] else s[j + 1];
    QtyNonNegative(t, All);
  }

  ghost predicate FillFits(f: Fill, limit: int) {
    OrderFits(f.maker) && 0 < f.qty <= f.maker.qty <= limit && 0 <= f.takerLeft <= limit && 1 <= f.maker.id <= MAX64
  }

  lemma {:induction false} FillAllNumbersFit(taker: Order, fills: seq<Fill>)
    requires OrderFits(taker) && Field64(taker.id)
    requires forall i :: 0 <= i < |fills| ==> FillFits(fills[i], MAX64)
    ensures AllNumbersFit(AllFillEvents(taker, fills))
  {
    if fills != [] {
      FillAllNumbersFit(taker, fills[1..]);
      assert FillFits(fills[0], MAX64);
    }
  }

  lemma {:induction false} MatchFits(b: Book, cmd: Command)
    requires WellFormed(b) && Acceptable(cmd) && OrdersFit(b.bids) && OrdersFit(b.asks)
    requires Resting(b) + cmd.qty <= MAX64 && b.nextId <= MAX64
    ensures forall i :: 0 <= i < |MatchOf(b, cmd).fills| ==> FillFits(MatchOf(b, cmd).fills[i], MAX64)
    ensures OrdersFit(MatchOf(b, cmd).opposite)
  {
    var s, m := Opposite(b, cmd.side), MatchOf(b, cmd);
    MatchHasPriority(s, cmd.side, cmd.price, cmd.qty);
    var dropped := MatchLeavesTail(s, cmd.side, cmd.price, cmd.qty);
    QtyNonNegative(b.bids, All);
    QtyNonNegative(b.asks, All);
    forall i | 0 <= i < |m.fills|
      ensures FillFits(m.fills[i], MAX64)
    {
      SingleBound(s, i);
      QtyNonNegative(s[..i], All);
    }
  }

  lemma {:induction false} PlacedTotal(b: Book, cmd: Command)
    requires WellFormed(b) && Acceptable(cmd)
    ensures Resting(Placed(b, cmd)) == Resting(b) + cmd.qty - 2 * FillQty(MatchOf(b, cmd).fills)
    ensures 0 <= FillQty(MatchOf(b, cmd).fills) <= cmd.qty
  {
    var s, m := Opposite(b, cmd.side), MatchOf(b, cmd);
    MaximalFill(s, cmd.side, cmd.price, cmd.qty);
    QtyNonNegative(s, Crossing(cmd.side, cmd.price));
    MatchConserves(s, cmd.side, cmd.price, cmd.qty, All);
    MakerFillsAll(m.fills);
    var matched := AfterMatch(b, cmd.side, m.opposite);
    if m.left > 0 {
      QtyInsert(Own(matched, cmd.side), Taker(b, cmd).(qty := m.left), All);
    }
  }

  lemma {:induction false} MakerFillsAll(fills: seq<Fill>)
    ensures MakerFills(fills, All) == FillQty(fills)
  {
    if fills != [] {
      MakerFillsAll(fills[1..]);
    }
  }

  // Every aggregate of a well-formed book is within its total.
  lemma {:induction false} DepthBound(b: Book, k: Key)
    requires WellFormed(b)
    ensures 0 <= Qty(b.bids, k) <= Resting(b) && 0 <= Qty(b.asks, k) <= Resting(b)
  {
    QtyNonNegative(b.bids, k);
    QtyNonNegative(b.asks, k);
    QtyNonNegative(b.bids, All);
    QtyNonNegative(b.asks, All);
  }

  lemma {:induction false} UpdatesFit(b: Book, cmd: Command)
    requires WellFormed(b) && Acceptable(cmd) && NumbersFit(cmd) && OrdersFit(b.bids) && OrdersFit(b.asks)
    requires Resting(b) + cmd.qty <= MAX64 && b.nextId <= MAX64
    ensures AllNumbersFit(UpdateEvents(b, cmd))
  {
    hide Match, Qty, Touched, WellFormed, Insert, FillQty, MakerFills;
    var m := MatchOf(b, cmd);
    var matched := AfterMatch(b, cmd.side, m.opposite);
    var t := Touched(m.fills);
    MatchFits(b, cmd);
    MatchKeepsWellFormed(b, cmd);
    PlaceKeepsWellFormed(b, cmd);
    PlacedTotal(b, cmd);
    MatchConserves(Opposite(b, cmd.side), cmd.side, cmd.price, cmd.qty, All);
    MakerFillsAll(m.fills);
    DepthBound(Placed(b, cmd), AtPrice(cmd.price));
    forall i | 0 <= i < |t|
      ensures Field64(t[i]) && Field64(Qty(m.opposite, AtPrice(t[i])))
    {
      TouchedOrigin(m.fills, i);
      DepthBound(matched, AtPrice(t[i]));
    }
  }

  lemma {:induction false} TouchedOrigin(fills: seq<Fill>, i: nat)
    requires i < |Touched(fills)|
    ensures exists j :: 0 <= j < |fills| && fills[j].maker.price == Touched(fills)[i]
  {
    var n := |fills| - 1;
    if i < |Touched(fills[..n])| {
      TouchedOrigin(fills[..n], i);
      var j :| 0 <= j < n && fills[..n][j].maker.price == Touched(fills[..n])[i];
      assert fills[j].maker.price == Touched(fills)[i];
    }
  }

  lemma {:induction false} InsertFits(s: seq<Order>, o: Order)
    requires OrdersFit(s) && OrderFits(o)
    ensures OrdersFit(Insert(s, o))
  {
  }

  // One command within budget: its events fit, and the book stays within budget.
  lemma {:induction false} StepFits(b: Book, cmd: Command)
    requires WellFormed(b) && NumbersFit(cmd) && OrdersFit(b.bids) && OrdersFit(b.asks)
    requires Resting(b) + Wanted(cmd) <= MAX64 && b.nextId <= MAX64
    ensures var out := Step(b, cmd);
            && AllNumbersFit(out.events) && OrdersFit(out.book.bids) && OrdersFit(out.book.asks)
            && Resting(out.book) <= Resting(b) + Wanted(cmd)
  {
    if Acceptable(cmd) {
      PlaceFits(b, cmd);
    } else if cmd.Cancel? {
      CancelFits(b, cmd.orderId, cmd.owner);
    }
  }

  lemma {:induction false} PlaceFits(b: Book, cmd: Command)
    requires WellFormed(b) && Acceptable(cmd) && NumbersFit(cmd) && OrdersFit(b.bids) && OrdersFit(b.asks)
    requires Resting(b) + cmd.qty <= MAX64 && b.nextId <= MAX64
    ensures AllNumbersFit(PlaceOrder(b, cmd).events)
    ensures OrdersFit(Placed(b, cmd).bids) && OrdersFit(Placed(b, cmd).asks)
    ensures Resting(Placed(b, cmd)) <= Resting(b) + cmd.qty
  {
    var m, taker := MatchOf(b, cmd), Taker(b, cmd);
    MatchFits(b, cmd);
    UpdatesFit(b, cmd);
    PlacedTotal(b, cmd);
    FillAllNumbersFit(taker, m.fills);
    if m.left > 0 {
      InsertFits(Own(AfterMatch(b, cmd.side, m.opposite), cmd.side), taker.(qty := m.left));
    }
  }

  lemma {:induction false} CancelFits(b: Book, id: int, owner: int)
    requires WellFormed(b) && Field64(id) && OrdersFit(b.bids) && OrdersFit(b.asks)
    requires Resting(b) <= MAX64 && b.nextId <= MAX64
    ensures var out := CancelOrder(b, id, owner);
            && AllNumbersFit(out.events) && OrdersFit(out.book.bids) && OrdersFit(out.book.asks)
            && Resting(out.book) <= Resting(b)
  {
    var i, j := Find(b.bids, id), Find(b.asks, id);
    QtyNonNegative(b.bids, All);
    QtyNonNegative(b.asks, All);
    if i < |b.bids| {
      RemovalFits(b.bids, i);
    } else if j < |b.asks| {
      RemovalFits(b.asks, j);
    }
  }

  lemma {:induction false} RemovalFits(s: seq<Order>, k: nat)
    requires AllPositive(s) && OrdersFit(s) && k < |s| && Field64(s[k].id) && Qty(s, All) <= MAX64
    ensures AllNumbersFit(CancelEvents(s[k], Without(s, k))) && OrdersFit(Without(s, k))
    ensures Qty(Without(s, k), All) <= Qty(s, All)
  {
    var t := Without(s, k);
    SingleBound(s, k);
    QtyWithout(s, k, All);
    assert forall j :: 0 <= j < |t| ==> t[j] == if j < k then s[j] else s[j + 1];
    QtyNonNegative(t, AtPrice(s[k].price));
  }

  // --- Sides -----------------------------------------------------------------

  lemma {:induction false} FillsShowKnownSides(taker: Order, fills: seq<Fill>)
    requires KnownSide(taker.side) && forall i :: 0 <= i < |fills| ==> KnownSide(fills[i].maker.side)
    ensures AllShowKnownSides(AllFillEvents(taker, fills))
  {
    if fills != [] {
      FillsShowKnownSides(taker, fills[1..]);
    }
  }

  lemma {:induction false} InsertKnown(s: seq<Order>, o: Order)
    requires KnownOrders(s) && KnownSide(o.side)
    ensures KnownOrders(Insert(s, o))
  {
  }

  lemma {:induction false} MakersKnown(b: Book, cmd: Command)
    requires WellFormed(b) && KnownBook(b) && Acceptable(cmd)
    ensures var m := MatchOf(b, cmd);
            KnownOrders(m.opposite) && forall i :: 0 <= i < |m.fills| ==> KnownSide(m.fills[i].maker.side)
  {
    var s := Opposite(b, cmd.side);
    MatchHasPriority(s, cmd.side, cmd.price, cmd.qty);
    var dropped := MatchLeavesTail(s, cmd.side, cmd.price, cmd.qty);
    hide Match;
  }

  lemma {:induction false} PlaceSides(b: Book, cmd: Command)
    requires WellFormed(b) && KnownBook(b) && Acceptable(cmd) && KnownSide(cmd.side)
    ensures AllShowKnownSides(PlaceOrder(b, cmd).events) && KnownBook(Placed(b, cmd))
  {
    MakersKnown(b, cmd);
    hide WellFormed, MatchOf, Insert, AllFillEvents, Touched, Qty;
    var m, taker := MatchOf(b, cmd), Taker(b, cmd);
    FillsShowKnownSides(taker, m.fills);
    assert AllShowKnownSides([AcceptedEvent(taker)]) && AllShowKnownSides(UpdateEvents(b, cmd));
    if m.left > 0 {
      InsertKnown(Own(AfterMatch(b, cmd.side, m.opposite), cmd.side), taker.(qty := m.left));
    }
  }

  // The events of a command show known sides only, if and only if the command is
  // not an accepted order with an unknown one.
  lemma {:induction false} StepSides(b: Book, cmd: Command)
    requires WellFormed(b) && KnownBook(b)
    ensures AllShowKnownSides(Step(b, cmd).events) <==> (Acceptable(cmd) ==> KnownSide(cmd.side))
    ensures (Acceptable(cmd) ==> KnownSide(cmd.side)) ==> KnownBook(Step(b, cmd).book)
  {
    if Acceptable(cmd) {
      if KnownSide(cmd.side) {
        PlaceSides(b, cmd);
      } else {
        assert Step(b, cmd).events[0] == AcceptedEvent(Taker(b, cmd));
      }
    }
  }

  // Which commands within budget have events that pass the range check.
  lemma {:induction false} StepEncodable(b: Book, cmd: Command)
    requires WellFormed(b) && NumbersFit(cmd) && OrdersFit(b.bids) && OrdersFit(b.asks) && KnownBook(b)
    requires Resting(b) + Wanted(cmd) <= MAX64 && b.nextId <= MAX64
    ensures EventsFit(Step(b, cmd).events) <==> (Acceptable(cmd) ==> KnownSide(cmd.side))
  {
    StepFits(b, cmd);
    StepSides(b, cmd);
    Both(Step(b, cmd).events);
  }

  lemma {:induction false} Both(events: seq<Event>)
    ensures EventsFit(events) <==> AllNumbersFit(events) && AllShowKnownSides(events)
  {
    hide EventNumbersFit, ShowsKnownSide;
    if EventsFit(events) {
      assert forall i :: 0 <= i < |events| ==> EventFits(events[i]) && EventNumbersFit(events[i]) && ShowsKnownSide(events[i]);
    }
  }

  // --- Whole runs ------------------------------------------------------------

  lemma {:induction false} CountsGrow(cmds: seq<Command>, k: nat)
    requires k <= |cmds|
    ensures 0 <= WantedAll(cmds[..k]) <= WantedAll(cmds) && AcceptedCount(cmds[..k]) <= AcceptedCount(cmds)
    decreases |cmds|
  {
    if k < |cmds| {
      CountsGrow(cmds[..|cmds| - 1], k);
      assert cmds[..|cmds| - 1][..k] == cmds[..k];
    } else if cmds != [] {
      CountsGrow(cmds[..|cmds| - 1], |cmds| - 1);
      assert cmds[..k] == cmds && cmds[..|cmds| - 1][..|cmds| - 1] == cmds[..|cmds| - 1];
    }
  }

  // Every order the run accepts has a known side.
  ghost predicate AcceptsKnown(cmds: seq<Command>) {
    forall k :: 0 <= k < |cmds| && Acceptable(cmds[k]) ==> KnownSide(cmds[k].side)
  }

  lemma {:induction false} AcceptsKnownSnoc(cmds: seq<Command>)
    requires cmds != []
    ensures var n := |cmds| - 1;
            AcceptsKnown(cmds) <==> AcceptsKnown(cmds[..n]) && (Acceptable(cmds[n]) ==> KnownSide(cmds[n].side))
  {
    hide Acceptable, KnownSide;
    var n := |cmds| - 1;
    assert forall k :: 0 <= k < n ==> cmds[..n][k] == cmds[k];
  }

  lemma {:induction false} SidesConcat(a: seq<Event>, b: seq<Event>)
    ensures AllShowKnownSides(a + b) <==> AllShowKnownSides(a) && AllShowKnownSides(b)
  {
    hide ShowsKnownSide;
    assert forall i :: 0 <= i < |b| ==> (a + b)[|a| + i] == b[i];
    assert forall i :: 0 <= i < |a| ==> (a + b)[i] == a[i];
  }

  lemma {:induction false} RunSides(b: Book, cmds: seq<Command>)
    requires WellFormed(b) && KnownBook(b)
    ensures AllShowKnownSides(Run(b, cmds).events) <==> AcceptsKnown(cmds)
    ensures AcceptsKnown(cmds) ==> KnownBook(Run(b, cmds).book)
  {
    if cmds != [] {
      hide Step, KnownBook, AcceptsKnown, AllShowKnownSides, Acceptable, WellFormed;
      var n := |cmds| - 1;
      var before := Run(b, cmds[..n]);
      RunSides(b, cmds[..n]);
      RunKeepsWellFormed(b, cmds[..n]);
      AcceptsKnownSnoc(cmds);
      SidesConcat(before.events, Step(before.book, cmds[n]).events);
      if AcceptsKnown(cmds[..n]) {
        StepSides(before.book, cmds[n]);
      }
    }
  }

  // What a book leaves of the 64-bit range for the commands of a run.
  ghost predicate WithinBudget(b: Book, cmds: seq<Command>) {
    && OrdersFit(b.bids) && OrdersFit(b.asks) && (forall k :: 0 <= k < |cmds| ==> NumbersFit(cmds[k]))
    && Resting(b) + WantedAll(cmds) <= MAX64 && b.nextId + AcceptedCount(cmds) <= MAX64
  }

  // Over any run whose accepted quantities and acceptances stay within the largest
  // 64-bit value: ids count acceptances, no aggregate of any selection and no
  // number of any event leaves the range.
  lemma {:induction false} RunFits(b: Book, cmds: seq<Command>)
    requires WellFormed(b) && WithinBudget(b, cmds)
    ensures var out := Run(b, cmds);
            && out.book.nextId == b.nextId + AcceptedCount(cmds) <= MAX64
            && OrdersFit(out.book.bids) && OrdersFit(out.book.asks)
            && 0 <= Resting(out.book) <= Resting(b) + WantedAll(cmds)
            && (forall k :: 0 <= Qty(out.book.bids, k) <= MAX64 && 0 <= Qty(out.book.asks, k) <= MAX64)
            && AllNumbersFit(out.events)
    decreases |cmds|, 1
  {
    var out := Run(b, cmds);
    RunKeepsWellFormed(b, cmds);
    if cmds != [] {
      RunFitsLast(b, cmds);
    }
    DepthBound(out.book, All);
    forall k
      ensures 0 <= Qty(out.book.bids, k) <= MAX64 && 0 <= Qty(out.book.asks, k) <= MAX64
    {
      DepthBound(out.book, k);
    }
  }

  lemma {:induction false} RunFitsLast(b: Book, cmds: seq<Command>)
    requires WellFormed(b) && WithinBudget(b, cmds) && cmds != []
    ensures var out := Run(b, cmds);
            && out.book.nextId == b.nextId + AcceptedCount(cmds)
            && OrdersFit(out.book.bids) && OrdersFit(out.book.asks)
            && Resting(out.book) <= Resting(b) + WantedAll(cmds) && AllNumbersFit(out.events)
    decreases |cmds|, 0
  {
    var n := |cmds| - 1;
    CountsGrow(cmds, n);
    RunFits(b, cmds[..n]);
    RunKeepsWellFormed(b, cmds[..n]);
    StepFits(Run(b, cmds[..n]).book, cmds[n]);
  }

  // Every event of such a run passes the wire range check, if and only if every
  // accepted order has a known side.
  lemma {:induction false} RunEncodable(b: Book, cmds: seq<Command>)
    requires WellFormed(b) && KnownBook(b) && WithinBudget(b, cmds)
    ensures EventsFit(Run(b, cmds).events) <==> AcceptsKnown(cmds)
  {
    RunFits(b, cmds);
    RunSides(b, cmds);
    Both(Run(b, cmds).events);
  }
}
