/**
The order book as the engine keeps it: two slices of levels, an id-to-order map
and an id sequence, changed in place. Every command is proved to emit exactly
the events, and reach exactly the state, of the reference book in `Book.dfy`.
*/
module OrderBooks {
  import opened Events
  import opened Book
  import opened Matching
  import opened Invariant
  import opened Levels
  import opened LevelSlices

  // --- The ids on a side -----------------------------------------------------

  function Ids(s: seq<Order>): set<int> {
    set i | 0 <= i < |s| :: s[i].id
  }

  lemma {:induction false} IdsWithout(s: seq<Order>, k: nat)
    requires k < |s| && forall i, j :: 0 <= i < j < |s| ==> s[i].id != s[j].id
    ensures Ids(Without(s, k)) == Ids(s) - {s[k].id}
  {
    var t := Without(s, k);
    assert forall i :: 0 <= i < |t| ==> t[i] == if i < k then s[i] else s[i + 1];
    forall i | 0 <= i < |s| && i != k
      ensures s[i].id in Ids(t)
    {
      assert s[i] == t[if i < k then i else i - 1];
    }
  }

  lemma {:induction false} IdsOfPair(s: seq<Order>, t: seq<Order>, k: nat)
    requires k < |s| && forall i, j :: 0 <= i < j < |s| ==> s[i].id != s[j].id
    requires forall i, j :: 0 <= i < |s| && 0 <= j < |t| ==> s[i].id != t[j].id
    ensures Ids(Without(s, k)) + Ids(t) == Ids(s) + Ids(t) - {s[k].id}
  {
    IdsWithout(s, k);
    assert s[k].id !in Ids(t);
  }

  lemma {:induction false} IdsInsert(s: seq<Order>, o: Order)
    ensures Ids(Insert(s, o)) == Ids(s) + {o.id}
  {
    var k := RestPosition(s, o.price, o.side == BUY);
    var t := Insert(s, o);
    assert t[k] == o;
    forall i | 0 <= i < |s|
      ensures s[i].id in Ids(t)
    {
      assert s[i] == t[if i < k then i else i + 1];
    }
    assert forall i :: 0 <= i < |t| ==> t[i] == if i < k then s[i] else if i == k then o else s[i - 1];
  }

  lemma {:induction false} IdsRequantified(s: seq<Order>, o: Order)
    requires s != [] && o.id == s[0].id
    ensures Ids([o] + s[1..]) == Ids(s)
  {
    var t := [o] + s[1..];
    assert forall i :: 0 <= i < |s| ==> t[i].id == s[i].id;
  }

  lemma {:induction false} FindAt(s: seq<Order>, k: nat)
    requires k < |s| && forall i, j :: 0 <= i < j < |s| ==> s[i].id != s[j].id
    ensures Find(s, s[k].id) == k
  {
  }

  lemma {:induction false} FindNone(s: seq<Order>, id: int)
    ensures Find(s, id) == |s| <==> id !in Ids(s)
  {
    if Find(s, id) < |s| {
      assert s[Find(s, id)].id in Ids(s);
    }
  }

  lemma {:induction false} CancelWellFormed(b: Book, id: int, owner: int)
    requires WellFormed(b)
    ensures WellFormed(CancelOrder(b, id, owner).book)
  {
    StepKeepsWellFormed(b, Cancel(id, owner));
  }

  lemma {:induction false} CancelNone(b: Book, id: int, owner: int)
    requires id !in Ids(b.bids) + Ids(b.asks)
    ensures CancelOrder(b, id, owner) == Outcome(b, [Rejected(id, 0, owner, UnknownOrder)])
  {
    FindNone(b.bids, id);
    FindNone(b.asks, id);
  }

  // What a cancel of the order at position k of a side comes to.
  lemma {:induction false} CancelAt(b: Book, buy: bool, k: nat, owner: int)
    requires WellFormed(b) && k < |if buy then b.bids else b.asks|
    ensures var s := if buy then b.bids else b.asks;
            CancelOrder(b, s[k].id, owner)
            == if s[k].owner != owner then Outcome(b, [Rejected(s[k].id, 0, owner, NotOwner)])
               else Outcome(if buy then b.(bids := Without(s, k)) else b.(asks := Without(s, k)), CancelEvents(s[k], Without(s, k)))
  {
    var s := if buy then b.bids else b.asks;
    FindAt(s, k);
  }

  // The cancel of the k-th order of level i, in terms of the levels of its side.
  lemma {:induction false} CancelInLevels(b: Book, ls: seq<Level>, buy: bool, i: nat, k: nat, owner: int)
    requires WellFormed(b) && Ladder(ls, buy) && Flat(ls) == (if buy then b.bids else b.asks)
    requires i < |ls| && k < |ls[i].orders|
    ensures var o := ls[i].orders[k];
            var left := Flat(ViewWithout(ls, i, k));
            var out := CancelOrder(b, o.id, owner);
            && (o.owner != owner ==> out == Outcome(b, [Rejected(o.id, 0, owner, NotOwner)]))
            && (o.owner == owner ==> out.book == if buy then b.(bids := left) else b.(asks := left))
            && (o.owner == owner ==>
                  out.events == [ Canceled(o.id, o.clientOrderId, o.owner, o.side, o.price, o.qty),
                                  BookUpdate(o.side, o.price, Qty(ls[i].orders, All) - o.qty) ])
  {
    assert ls[i].orders[k].price == ls[i].price by {
      assert LevelOk(ls[i], buy);
    }
    hide Ladder, Flat, ViewWithout, Without, CancelOrder, WellFormed;
    var s, p := Flat(ls), Position(ls, i, k);
    FlatWithout(ls, buy, i, k);
    CancelAt(b, buy, p, owner);
    LevelDepth(ls, buy, i);
    QtyWithout(s, p, AtPrice(s[p].price));
  }

  // The ids left once that order is gone.
  lemma {:induction false} IdsInLevels(b: Book, ls: seq<Level>, buy: bool, i: nat, k: nat)
    requires WellFormed(b) && Ladder(ls, buy) && Flat(ls) == (if buy then b.bids else b.asks)
    requires i < |ls| && k < |ls[i].orders|
    ensures ls[i].orders[k].price == ls[i].price
    ensures Ids(b.bids) + Ids(b.asks) - {ls[i].orders[k].id}
         == Ids(Flat(ViewWithout(ls, i, k))) + Ids(if buy then b.asks else b.bids)
  {
    assert LevelOk(ls[i], buy);
    hide Ladder, Flat, ViewWithout, Without, Ids;
    FlatWithout(ls, buy, i, k);
    IdsOfPair(Flat(ls), if buy then b.asks else b.bids, Position(ls, i, k));
  }

  // Taking a fill off the best order of a side, or taking it away, keeps the
  // book well formed.
  function WithSide(b: Book, buy: bool, s: seq<Order>): Book {
    if buy then b.(bids := s) else b.(asks := s)
  }

  function SideOf(b: Book, buy: bool): seq<Order> {
    if buy then b.bids else b.asks
  }

  lemma {:induction false} HeadSideOk(s: seq<Order>, buy: bool, nextId: int, o: Order)
    requires SideOk(s, buy, nextId) && s != [] && o.qty > 0 && o == s[0].(qty := o.qty)
    ensures SideOk(s[1..], buy, nextId) && SideOk([o] + s[1..], buy, nextId)
  {
    var t := [o] + s[1..];
    assert forall i :: 0 <= i < |t| ==> t[i] == s[i].(qty := t[i].qty) && t[i].qty > 0;
  }

  lemma {:induction false} HeadStepWellFormed(b: Book, buy: bool, o: Order)
    requires WellFormed(b) && SideOf(b, buy) != [] && o.qty > 0 && o == SideOf(b, buy)[0].(qty := o.qty)
    ensures WellFormed(WithSide(b, buy, SideOf(b, buy)[1..])) && WellFormed(WithSide(b, buy, [o] + SideOf(b, buy)[1..]))
  {
    HeadSideOk(SideOf(b, buy), buy, b.nextId, o);
  }

  lemma {:induction false} HeadStepIds(b: Book, buy: bool, o: Order)
    requires WellFormed(b) && SideOf(b, buy) != [] && o.id == SideOf(b, buy)[0].id
    ensures SideOf(b, buy)[0].qty > 0
    ensures Ids(b.bids) + Ids(b.asks) - {o.id} == Ids(SideOf(b, buy)[1..]) + Ids(SideOf(b, !buy))
    ensures Ids([o] + SideOf(b, buy)[1..]) == Ids(SideOf(b, buy))
  {
    var s := SideOf(b, buy);
    IdsOfPair(s, SideOf(b, !buy), 0);
    assert Without(s, 0) == s[1..];
    IdsRequantified(s, o);
  }

  // --- The index -------------------------------------------------------------

  // The map leads from the id of every given order to that order.
  ghost predicate Indexes(orders: map<int, OrderNode>, nodes: set<OrderNode>) {
    forall n :: n in nodes ==> n.id in orders && orders[n.id] == n
  }

  ghost function Values(orders: map<int, OrderNode>): map<int, Order>
    reads orders.Values`qty
  {
    map id | id in orders :: orders[id].Value()
  }

  lemma {:induction false} ValuesWith(orders: map<int, OrderNode>, o: OrderNode)
    ensures Values(orders[o.id := o]) == Values(orders)[o.id := o.Value()]
  {
  }

  lemma {:induction false} IndexWith(orders: map<int, OrderNode>, nodes: set<OrderNode>, o: OrderNode, more: set<OrderNode>)
    requires Indexes(orders, nodes) && o.id !in orders && more <= nodes + {o}
    ensures Indexes(orders[o.id := o], more)
  {
  }

  lemma {:induction false} IndexWithout(orders: map<int, OrderNode>, nodes: set<OrderNode>, o: OrderNode, fewer: set<OrderNode>)
    requires Indexes(orders, nodes) && o in nodes && fewer <= nodes - {o}
    ensures Indexes(orders - {o.id}, fewer)
  {
  }

  // --- Touched levels --------------------------------------------------------

  function Prices(levels: seq<PriceLevel>): seq<int> {
    seq(|levels|, i requires 0 <= i < |levels| => levels[i].price)
  }

  ghost predicate BestFirstLevels(levels: seq<PriceLevel>, desc: bool) {
    forall i, j :: 0 <= i < j < |levels| ==> Ahead(desc, levels[i].price, levels[j].price)
  }

  // A touched level is still the best one, or it is better than all that remain.
  ghost predicate PassedBy(changed: seq<PriceLevel>, levels: seq<PriceLevel>, desc: bool) {
    forall c :: c in changed ==>
      (levels != [] && c == levels[0]) || forall j :: 0 <= j < |levels| ==> Ahead(desc, c.price, levels[j].price)
  }

  // A touched level that is gone is used up.
  ghost predicate Spent(changed: seq<PriceLevel>, levels: seq<PriceLevel>)
    reads changed`totalQty
  {
    forall c :: c in changed && c !in levels ==> c.totalQty == 0
  }

  ghost predicate Passed(changed: seq<PriceLevel>, levels: seq<PriceLevel>, desc: bool)
    reads changed`totalQty
  {
    PassedBy(changed, levels, desc) && Spent(changed, levels)
  }

  lemma {:induction false} PassedStep(changed: seq<PriceLevel>, levels: seq<PriceLevel>, desc: bool, after: seq<PriceLevel>)
    requires Passed(changed, levels, desc) && BestFirstLevels(levels, desc) && levels != []
    requires after == levels || (after == levels[1..] && levels[0].totalQty == 0)
    ensures Passed(if levels[0] in changed then changed else changed + [levels[0]], after, desc)
  {
    forall c | c in changed && c != levels[0]
      ensures c.totalQty == 0 && forall j :: 0 <= j < |after| ==> Ahead(desc, c.price, after[j].price)
    {
      assert c !in levels;
      assert forall j :: 0 <= j < |after| ==> after[j] in levels;
    }
  }

  // Touching a level by identity is touching its price.
  lemma {:induction false} TouchByPrice(changed: seq<PriceLevel>, levels: seq<PriceLevel>, desc: bool)
    requires Passed(changed, levels, desc) && levels != []
    ensures levels[0] in changed <==> levels[0].price in Prices(changed)
  {
    if levels[0].price in Prices(changed) {
      var i :| 0 <= i < |changed| && Prices(changed)[i] == levels[0].price;
      assert changed[i] in changed;
    }
    if levels[0] in changed {
      var i :| 0 <= i < |changed| && changed[i] == levels[0];
      assert Prices(changed)[i] == levels[0].price;
    }
  }

  // Remembers a level on its first change, with the side it belongs to.
  method Touch(changed: seq<PriceLevel>, sides: seq<int>, side: int, lvl: PriceLevel)
    returns (changed': seq<PriceLevel>, sides': seq<int>)
    requires |changed| == |sides|
    ensures lvl in changed ==> changed' == changed && sides' == sides
    ensures lvl !in changed ==> changed' == changed + [lvl] && sides' == sides + [side]
  {
    for i := 0 to |changed|
      invariant lvl !in changed[..i]
    {
      if changed[i] == lvl {
        return changed, sides;
      }
    }
    return changed + [lvl], sides + [side];
  }

  // The update events for touched levels, with the totals they have now.
  ghost function Announced(changed: seq<PriceLevel>, sides: seq<int>): seq<Event>
    requires |changed| == |sides|
    reads changed`totalQty
  {
    if changed == [] then []
    else
      var n := |changed| - 1;
      Announced(changed[..n], sides[..n]) + [BookUpdate(sides[n], changed[n].price, changed[n].totalQty)]
  }

  lemma {:induction false} AnnouncedNext(changed: seq<PriceLevel>, sides: seq<int>, i: nat)
    requires i < |changed| == |sides|
    ensures Announced(changed[..i + 1], sides[..i + 1])
         == Announced(changed[..i], sides[..i]) + [BookUpdate(sides[i], changed[i].price, changed[i].totalQty)]
  {
    assert changed[..i + 1][..i] == changed[..i] && sides[..i + 1][..i] == sides[..i];
  }

  method Announce(events: seq<Event>, changed: seq<PriceLevel>, sides: seq<int>) returns (events': seq<Event>)
    requires |changed| == |sides|
    ensures events' == events + Announced(changed, sides)
  {
    events' := events;
    for i := 0 to |changed|
      invariant events' == events + Announced(changed[..i], sides[..i])
    {
      AnnouncedNext(changed, sides, i);
      events' := events' + [BookUpdate(sides[i], changed[i].price, changed[i].totalQty)];
    }
    assert changed[..|changed|] == changed && sides[..|sides|] == sides;
  }

  lemma {:induction false} AnnouncedUpdates(changed: seq<PriceLevel>, code: int, s: seq<Order>)
    requires forall c :: c in changed ==> c.totalQty == Qty(s, AtPrice(c.price))
    ensures Announced(changed, seq(|changed|, _ => code)) == Updates(code, Prices(changed), s)
  {
    if changed != [] {
      var n := |changed| - 1;
      AnnouncedUpdates(changed[..n], code, s);
      var sides := seq(|changed|, _ => code);
      assert sides[..n] == seq(n, _ => code);
      assert Prices(changed)[..n] == Prices(changed[..n]);
      assert Updates(code, Prices(changed), s)[..n] == Updates(code, Prices(changed[..n]), s);
    }
  }

  lemma {:induction false} AnnouncedSnoc(changed: seq<PriceLevel>, sides: seq<int>, lvl: PriceLevel, side: int)
    requires |changed| == |sides|
    ensures Announced(changed + [lvl], sides + [side]) == Announced(changed, sides) + [BookUpdate(side, lvl.price, lvl.totalQty)]
  {
    assert (changed + [lvl])[..|changed|] == changed && (sides + [side])[..|sides|] == sides;
  }

  // --- Fills -----------------------------------------------------------------

  function Joined(fills: seq<Fill>, m: Matched): Matched {
    m.(fills := fills + m.fills)
  }

  lemma {:induction false} AllFillEventsSnoc(taker: Order, fills: seq<Fill>, f: Fill)
    ensures AllFillEvents(taker, fills + [f]) == AllFillEvents(taker, fills) + FillEvents(taker, f)
  {
    if fills == [] {
      assert fills + [f] == [f] && [f][1..] == [];
    } else {
      AllFillEventsSnoc(taker, fills[1..], f);
      assert (fills + [f])[1..] == fills[1..] + [f];
    }
  }

  lemma {:induction false} TouchedSnoc(fills: seq<Fill>, f: Fill)
    ensures Touched(fills + [f]) == if f.maker.price in Touched(fills) then Touched(fills) else Touched(fills) + [f.maker.price]
  {
    assert (fills + [f])[..|fills|] == fills;
  }

  // One fill and then the rest is the whole match.
  lemma {:induction false} MatchStep(fills: seq<Fill>, s: seq<Order>, side: int, limit: int, qty: int, fill: int, t: seq<Order>)
    requires qty > 0 && s != [] && s[0].qty > 0 && Crosses(side, limit, s[0].price)
    requires fill == Min(qty, s[0].qty)
    requires t == (if s[0].qty > fill then [s[0].(qty := s[0].qty - fill)] else []) + s[1..]
    ensures Joined(fills, Match(s, side, limit, qty))
         == Joined(fills + [Fill(s[0], fill, qty - fill)], Match(t, side, limit, qty - fill))
  {
    var f := Fill(s[0], fill, qty - fill);
    if qty < s[0].qty {
      assert Match(t, side, limit, 0) == Matched([], t, 0);
      assert fills + [f] == fills + [f] + [];
    } else {
      assert t == s[1..];
      var rest := Match(s[1..], side, limit, qty - s[0].qty);
      assert fills + ([f] + rest.fills) == fills + [f] + rest.fills;
    }
  }

  // The books kept by the matching loop: `fills` done, `rest` still to come.
  ghost predicate Tally(whole: Matched, fills: seq<Fill>, rest: Matched, taker: Order, accepted: seq<Event>,
                        events: seq<Event>, changed: seq<PriceLevel>, sides: seq<int>) {
    && whole == Joined(fills, rest)
    && events == accepted + AllFillEvents(taker, fills)
    && Prices(changed) == Touched(fills)
    && sides == seq(|changed|, _ => OppositeCode(taker.side))
  }

  lemma {:induction false} TallyStart(m: Matched, taker: Order, accepted: seq<Event>)
    ensures Tally(m, [], m, taker, accepted, accepted, [], [])
  {
    assert [] + m.fills == m.fills;
    assert accepted + [] == accepted;
  }

  lemma {:induction false} TallySizes(m: Matched, fills: seq<Fill>, rest: Matched, taker: Order, accepted: seq<Event>,
                                      events: seq<Event>, changed: seq<PriceLevel>, sides: seq<int>)
    requires Tally(m, fills, rest, taker, accepted, events, changed, sides)
    ensures |sides| == |changed|
  {
  }

  lemma {:induction false} TallyEnd(m: Matched, fills: seq<Fill>, rest: Matched, taker: Order, accepted: seq<Event>,
                                    events: seq<Event>, changed: seq<PriceLevel>, sides: seq<int>)
    requires Tally(m, fills, rest, taker, accepted, events, changed, sides) && rest.fills == []
    ensures rest.opposite == m.opposite && rest.left == m.left
    ensures events == accepted + AllFillEvents(taker, m.fills) && Prices(changed) == Touched(m.fills)
    ensures sides == seq(|changed|, _ => OppositeCode(taker.side))
  {
    assert fills + [] == fills;
  }

  lemma {:induction false} TallyStep(whole: Matched, fills: seq<Fill>, s: seq<Order>, qty: int, fill: int, t: seq<Order>,
                                     taker: Order, accepted: seq<Event>, events: seq<Event>,
                                     changed: seq<PriceLevel>, sides: seq<int>, best: PriceLevel)
    requires Tally(whole, fills, Match(s, taker.side, taker.price, qty), taker, accepted, events, changed, sides)
    requires qty > 0 && s != [] && s[0].qty > 0 && Crosses(taker.side, taker.price, s[0].price)
    requires fill == Min(qty, s[0].qty)
    requires t == (if s[0].qty > fill then [s[0].(qty := s[0].qty - fill)] else []) + s[1..]
    requires best.price == s[0].price && (best in changed <==> best.price in Prices(changed))
    ensures var f := Fill(s[0], fill, qty - fill);
            var fresh' := best !in changed;
            Tally(whole, fills + [f], Match(t, taker.side, taker.price, qty - fill), taker, accepted,
                  events + FillEvents(taker, f),
                  if fresh' then changed + [best] else changed,
                  if fresh' then sides + [OppositeCode(taker.side)] else sides)
  {
    hide Match;
    var f := Fill(s[0], fill, qty - fill);
    AllFillEventsSnoc(taker, fills, f);
    TouchedSnoc(fills, f);
    MatchStep(fills, s, taker.side, taker.price, qty, fill, t);
    hide AllFillEvents, Touched;
    assert events + FillEvents(taker, f) == accepted + (AllFillEvents(taker, fills) + FillEvents(taker, f));
    if best !in changed {
      assert Prices(changed + [best]) == Prices(changed) + [best.price];
    }
  }

  // --- The book --------------------------------------------------------------

  class OrderBook {
    const bids: LevelSlice
    const asks: LevelSlice
    var orders: map<int, OrderNode>
    var nextOrderId: int

    constructor (engine: Engine)
      ensures Valid() && View() == EMPTY && Listed() == map[]
      ensures fresh(Objects()) && bids.engine == asks.engine == engine
    {
      bids := new LevelSlice(engine, true);
      asks := new LevelSlice(engine, false);
      orders, nextOrderId := map[], 1;
    }

    // Everything the book is made of.
    ghost function Objects(): set<object>
      reads this, bids, asks
    {
      {this, bids, asks} + bids.Repr + asks.Repr
    }

    // The reference book this one stands for.
    ghost function View(): Book
      reads this, bids, asks
    {
      Book(Flat(bids.view), Flat(asks.view), nextOrderId)
    }

    // What the map leads to, by value.
    ghost function Listed(): map<int, Order>
      reads this`orders, orders.Values`qty
    {
      Values(orders)
    }

    ghost predicate Apart()
      reads this, bids, asks
    {
      && bids != asks && bids.buy && !asks.buy
      && bids.Repr !! asks.Repr
      && this !in bids.Repr + asks.Repr && bids !in asks.Repr && asks !in bids.Repr
    }

    // The pointer structure is sound: chained levels, sorted slices, cached
    // totals, and a map with exactly the ids in the book.
    ghost predicate Linked()
      reads Objects()
    {
      && Apart()
      && bids.Linked() && bids.Totals()
      && asks.Linked() && asks.Totals()
      && orders.Keys == Ids(Flat(bids.view)) + Ids(Flat(asks.view))
    }

    // The map leads from every linked order's id to that order.
    ghost predicate Indexed()
      reads Objects()
      requires Linked()
    {
      Indexes(orders, bids.Nodes() + asks.Nodes())
    }

    ghost predicate Valid()
      reads Objects()
    {
      Linked() && Indexed() && WellFormed(View())
    }

    function Slice(side: int): LevelSlice {
      if side == BUY then bids else asks
    }

    // Rests `o` without matching and indexes it by id.
    method RestOrder(o: OrderNode) returns (lvl: PriceLevel)
      requires Linked() && o !in Objects() && o.prev == null && o.next == null
      modifies this`orders, Slice(o.side)`levels, Slice(o.side)`view, Slice(o.side)`Repr
      modifies Slice(o.side).levels`head, Slice(o.side).levels`tail, Slice(o.side).levels`fifo, Slice(o.side).levels`totalQty
      modifies Slice(o.side).Nodes()`next, o`level, o`prev
      ensures Linked()
      ensures View() == Rest(old(View()), o.Value())
      ensures orders == old(orders)[o.id := o] && Listed() == old(Listed())[o.id := o.Value()]
      ensures bids.Nodes() <= old(bids.Nodes()) + {o} && asks.Nodes() <= old(asks.Nodes()) + {o}
      ensures fresh(Objects() - old(Objects()) - {o})
      ensures lvl in Slice(o.side).levels && lvl.price == o.price && (lvl in old(Slice(o.side).levels) || fresh(lvl))
    {
      hide HeldBut, Summed, NodesOf, Ladder, Flat, Insert, Ids, Chain, Carries, Inside, Qty, ViewWithout, Indexes, Values, LevelSlice.Totals, LevelSlice.Linked;
      IdsInsert(Flat(Slice(o.side).view), o.Value());
      lvl := RestInSlice(o);
      ListOrder(o);
    }

    // The map half of resting.
    method ListOrder(o: OrderNode)
      requires Apart() && bids.Linked() && bids.Totals() && asks.Linked() && asks.Totals()
      modifies this`orders
      ensures Apart() && bids.Linked() && bids.Totals() && asks.Linked() && asks.Totals()
      ensures bids.Nodes() == old(bids.Nodes()) && asks.Nodes() == old(asks.Nodes())
      ensures orders == old(orders)[o.id := o] && Listed() == old(Listed())[o.id := o.Value()]
    {
      hide HeldBut, Summed, NodesOf, Ladder, Values;
      ValuesWith(orders, o);
      orders := orders[o.id := o];
      bids.Undisturbed();
      asks.Undisturbed();
    }

    // The slice half of resting, with the other side undisturbed.
    method RestInSlice(o: OrderNode) returns (lvl: PriceLevel)
      requires Linked() && o !in Objects() && o.prev == null && o.next == null
      modifies Slice(o.side)`levels, Slice(o.side)`view, Slice(o.side)`Repr
      modifies Slice(o.side).levels`head, Slice(o.side).levels`tail, Slice(o.side).levels`fifo, Slice(o.side).levels`totalQty
      modifies Slice(o.side).Nodes()`next, o`level, o`prev
      ensures Apart() && bids.Linked() && bids.Totals() && asks.Linked() && asks.Totals()
      ensures Flat(Slice(o.side).view) == Insert(old(Flat(Slice(o.side).view)), o.Value())
      ensures bids.Nodes() <= old(bids.Nodes()) + {o} && asks.Nodes() <= old(asks.Nodes()) + {o}
      ensures fresh(Objects() - old(Objects()) - {o})
      ensures lvl in Slice(o.side).levels && lvl.price == o.price && (lvl in old(Slice(o.side).levels) || fresh(lvl))
    {
      hide HeldBut, Summed, NodesOf, Ladder, Flat, Insert, Ids, Chain, Carries, Inside, Qty;
      var levels := Slice(o.side);
      ghost var other := if o.side == BUY then asks else bids;
      bids.Footprint();
      asks.Footprint();
      lvl := levels.Rest(o);
      other.Undisturbed();
    }

    // Takes `o` out of its level and the map. Its quantity must already be off
    // the level's total.
    method Unlink(o: OrderNode, ghost i: nat, ghost k: nat)
      requires Apart() && bids.Linked() && asks.Linked() && Slice(o.side).At(o, i, k)
      requires Summed(Slice(o.side).levels, Slice(o.side).view, i)
      requires Slice(o.side).levels[i].totalQty == Qty(Slice(o.side).view[i].orders, All) - o.qty
      modifies this`orders, Slice(o.side)`levels, Slice(o.side)`view, Slice(o.side)`Repr
      modifies Slice(o.side).LevelAt(i)`head, Slice(o.side).LevelAt(i)`tail, Slice(o.side).LevelAt(i)`fifo
      modifies Slice(o.side).LevelAt(i).fifo`prev, Slice(o.side).LevelAt(i).fifo`next, Slice(o.side).LevelAt(i).fifo`level
      ensures Slice(o.side).Linked() && Slice(o.side).Totals() && Slice(o.side).Repr == old(Slice(o.side).Repr)
      ensures Slice(o.side).Nodes() <= old(Slice(o.side).Nodes()) - {o}
      ensures Slice(o.side).view == old(ViewWithout(Slice(o.side).view, i, k))
      ensures Slice(o.side).levels == if old(|Slice(o.side).view[i].orders|) == 1
                                      then old(Slice(o.side).levels[..i] + Slice(o.side).levels[i + 1..])
                                      else old(Slice(o.side).levels)
      ensures orders == old(orders) - {o.id}
    {
      hide HeldBut, Summed, NodesOf, Ladder, Flat, Insert, Ids, Chain, Carries, Inside, Qty, ViewWithout, Indexes;
      var levels := Slice(o.side);
      levels.Remove(o, i, k);
      orders := orders - {o.id};
    }

    // Unlinks `o`, with the other side undisturbed and the index in step.
    method TakeOut(o: OrderNode, ghost i: nat, ghost k: nat, ghost other: LevelSlice)
      requires Apart() && bids.Linked() && asks.Linked() && Slice(o.side).At(o, i, k)
      requires other.Totals() && other == if o.side == BUY then asks else bids
      requires Summed(Slice(o.side).levels, Slice(o.side).view, i) && |Slice(o.side).view| == |Slice(o.side).levels|
      requires Slice(o.side).levels[i].totalQty == Qty(Slice(o.side).view[i].orders, All) - o.qty
      requires k < |Slice(o.side).view[i].orders|
      requires Indexes(orders, bids.Nodes() + asks.Nodes())
      requires orders.Keys - {o.id} == Ids(Flat(ViewWithout(Slice(o.side).view, i, k))) + Ids(Flat(other.view))
      modifies this`orders, Slice(o.side)`levels, Slice(o.side)`view, Slice(o.side)`Repr
      modifies Slice(o.side).LevelAt(i)`head, Slice(o.side).LevelAt(i)`tail, Slice(o.side).LevelAt(i)`fifo
      modifies Slice(o.side).LevelAt(i).fifo`prev, Slice(o.side).LevelAt(i).fifo`next, Slice(o.side).LevelAt(i).fifo`level
      ensures Linked() && Indexed() && Slice(o.side).Repr == old(Slice(o.side).Repr)
      ensures Slice(o.side).view == old(ViewWithout(Slice(o.side).view, i, k))
      ensures Slice(o.side).levels == if old(|Slice(o.side).view[i].orders|) == 1
                                      then old(Slice(o.side).levels[..i] + Slice(o.side).levels[i + 1..])
                                      else old(Slice(o.side).levels)
    {
      hide HeldBut, Summed, NodesOf, Ladder, Flat, Insert, Ids, Chain, Carries, Inside, Qty, ViewWithout, Indexes;
      ghost var nodes, was := bids.Nodes() + asks.Nodes(), orders;
      Slice(o.side).NodeFacts(i);
      bids.Footprint();
      asks.Footprint();
      Unlink(o, i, k);
      other.Undisturbed();
      IndexWithout(was, nodes, o, bids.Nodes() + asks.Nodes());
    }

    // Where an indexed order sits: the k-th of level i on the side of its code.
    lemma {:induction false} Locate(id: int) returns (i: nat, k: nat)
      requires Valid() && id in orders
      ensures var o := orders[id];
              && o.id == id && Slice(o.side).At(o, i, k)
              && |Slice(o.side).view| == |Slice(o.side).levels| && k < |Slice(o.side).view[i].orders|
              && Slice(o.side).view[i].orders[k] == o.Value()
    {
      var slice := if id in Ids(Flat(bids.view)) then bids else asks;
      var p :| 0 <= p < |Flat(slice.view)| && Flat(slice.view)[p].id == id;
      i, k := FlatOrigin(slice.view, p);
      slice.Facts(i);
      slice.NodeFacts(i);
      assert slice.levels[i].fifo[k].Value() == slice.view[i].orders[k];
      assert slice.levels[i].fifo[k] in bids.Nodes() + asks.Nodes();
    }

    // Takes the quantity of `o` off its level ahead of the unlinking.
    method TakeQty(o: OrderNode, ghost i: nat, ghost k: nat) returns (lvl: PriceLevel)
      requires Linked() && Indexed() && Slice(o.side).At(o, i, k)
      modifies Slice(o.side).LevelAt(i)`totalQty
      ensures Apart() && bids.Linked() && asks.Linked() && Slice(o.side).At(o, i, k)
      ensures bids.Nodes() == old(bids.Nodes()) && asks.Nodes() == old(asks.Nodes())
      ensures if o.side == BUY then asks.Totals() else bids.Totals()
      ensures Indexes(orders, bids.Nodes() + asks.Nodes())
      ensures Summed(Slice(o.side).levels, Slice(o.side).view, i)
      ensures lvl == Slice(o.side).levels[i] && lvl.price == o.price
      ensures |Slice(o.side).view| == |Slice(o.side).levels|
      ensures lvl.totalQty == Qty(Slice(o.side).view[i].orders, All) - o.qty
    {
      hide HeldBut, Summed, NodesOf, Ladder, Flat, Ids, Chain, Carries, Inside, Qty, Indexes;
      ghost var slice := Slice(o.side);
      ghost var other := if o.side == BUY then asks else bids;
      slice.Facts(i);
      slice.NodeFacts(i);
      bids.Footprint();
      asks.Footprint();
      lvl := o.level;
      Slice(o.side).Debit(lvl, o.qty, i);
      other.Undisturbed();
    }

    // Removes `o` and its quantity; what a successful cancel does to the book.
    method Withdraw(o: OrderNode, ghost i: nat, ghost k: nat) returns (lvl: PriceLevel)
      requires Valid() && o.id in orders && orders[o.id] == o && Slice(o.side).At(o, i, k)
      requires |Slice(o.side).view| == |Slice(o.side).levels| && k < |Slice(o.side).view[i].orders|
      requires Slice(o.side).view[i].orders[k] == o.Value()
      modifies Objects()
      ensures Linked() && Indexed() && Objects() == old(Objects())
      ensures o.qty == old(o.qty) && lvl.price == o.price
      ensures lvl.totalQty == old(Qty(Slice(o.side).view[i].orders, All)) - o.qty
      ensures o.side == BUY ==> View() == old(View()).(bids := Flat(old(ViewWithout(bids.view, i, k))))
      ensures o.side != BUY ==> View() == old(View()).(asks := Flat(old(ViewWithout(asks.view, i, k))))
    {
      hide HeldBut, Summed, NodesOf, Ladder, Flat, Ids, Chain, Carries, Inside, Qty, ViewWithout, Indexes;
      ghost var slice := Slice(o.side);
      ghost var other := if o.side == BUY then asks else bids;
      slice.Facts(i);
      slice.NodeFacts(i);
      IdsInLevels(View(), slice.view, slice.buy, i, k);
      bids.Footprint();
      asks.Footprint();
      lvl := TakeQty(o, i, k);
      TakeOut(o, i, k, other);
    }

    method Cancel(orderId: int, requestingOwner: int) returns (events: seq<Event>)
      requires Valid()
      modifies Objects()
      ensures Valid() && Objects() == old(Objects())
      ensures View() == CancelOrder(old(View()), orderId, requestingOwner).book
      ensures events == CancelOrder(old(View()), orderId, requestingOwner).events
    {
      hide HeldBut, Summed, NodesOf, Ladder, Flat, Ids, Chain, Carries, Inside, Qty, ViewWithout, Indexes, CancelOrder, WellFormed;
      ghost var b := View();
      CancelWellFormed(b, orderId, requestingOwner);
      if orderId !in orders {
        CancelNone(b, orderId, requestingOwner);
        return [Rejected(orderId, 0, requestingOwner, UnknownOrder)];
      }
      var o := orders[orderId];
      ghost var i, k := Locate(orderId);
      ghost var slice := Slice(o.side);
      slice.Facts(i);
      CancelInLevels(b, slice.view, slice.buy, i, k, requestingOwner);
      if o.owner != requestingOwner {
        return [Rejected(orderId, 0, requestingOwner, NotOwner)];
      }
      var lvl := Withdraw(o, i, k);
      events := [
        Canceled(o.id, o.clientOrderId, o.owner, o.side, o.price, o.qty),
        BookUpdate(o.side, lvl.price, lvl.totalQty)
      ];
    }

    // Unlinks the best order once it is filled.
    method DropFilled(maker: OrderNode, opp: LevelSlice, ghost other: LevelSlice)
      requires Linked() && Indexed() && ((opp == bids && other == asks) || (opp == asks && other == bids))
      requires opp.levels != [] && opp.levels[0].head == maker && Flat(opp.view) != []
      requires maker.qty == 0 && Slice(maker.side) == opp
      requires orders.Keys - {maker.id} == Ids(Flat(opp.view)[1..]) + Ids(Flat(other.view))
      modifies this`orders, opp`levels, opp`view, opp`Repr, opp.levels`head, opp.levels`tail, opp.levels`fifo
      modifies opp.Nodes()`prev, opp.Nodes()`next, opp.Nodes()`level
      ensures Linked() && Indexed() && opp.Repr == old(opp.Repr)
      ensures Flat(opp.view) == old(Flat(opp.view)[1..])
      ensures opp.levels == old(opp.levels) || (opp.levels == old(opp.levels)[1..] && old(opp.levels[0]).totalQty == 0)
    {
      hide HeldBut, Summed, NodesOf, Ladder, Flat, Ids, Chain, Carries, Inside, ViewWithout, Indexes;
      opp.Facts(0);
      opp.NodeFacts(0);
      bids.Footprint();
      asks.Footprint();
      SummedBut(opp.levels, opp.view, 0);
      FlatHead(opp.view, opp.buy, maker.Value());
      assert opp.levels[..0] + opp.levels[1..] == opp.levels[1..];
      assert |opp.view[0].orders| == 1 ==> opp.view[0].orders == [maker.Value()];
      TakeOut(maker, 0, 0, other);
    }

    // The quantity half of a fill.
    method ReduceBest(maker: OrderNode, best: PriceLevel, fill: int, opp: LevelSlice, ghost other: LevelSlice)
      requires Valid() && ((opp == bids && other == asks) || (opp == asks && other == bids))
      requires opp.levels != [] && best == opp.levels[0] && maker == best.head && maker in opp.Nodes()
      modifies opp`levels, opp`view, opp`Repr, maker`qty, best`totalQty
      ensures Linked() && Indexed() && opp.Repr == old(opp.Repr) && opp.levels == old(opp.levels)
      ensures maker.qty == old(maker.qty) - fill
      ensures old(Flat(opp.view)) != [] && old(maker.Value() == Flat(opp.view)[0])
      ensures Flat(opp.view) == [maker.Value()] + old(Flat(opp.view)[1..])
    {
      hide HeldBut, Summed, NodesOf, Ladder, Flat, Ids, Chain, Carries, Inside, ViewWithout, Indexes, WellFormed, Qty;
      ghost var b, v := View(), opp.view;
      opp.Facts(0);
      opp.NodeFacts(0);
      bids.Footprint();
      asks.Footprint();
      FlatHead(v, opp.buy, maker.Value().(qty := maker.qty - fill));
      HeadStepIds(b, opp.buy, maker.Value().(qty := maker.qty - fill));
      opp.Reduce(maker, best, fill);
      other.Undisturbed();
    }

    lemma {:induction false} HeadFacts(slice: LevelSlice)
      requires slice.Linked() && slice.levels != []
      ensures var head := slice.levels[0].head;
              && head != null && head in slice.Nodes() && (head.side == BUY) == slice.buy
              && Flat(slice.view) != [] && head.Value() == Flat(slice.view)[0] && slice.levels[0].price == head.price
    {
      slice.Facts(0);
      slice.NodeFacts(0);
      FlatHead(slice.view, slice.buy, slice.view[0].orders[0]);
    }

    // One turn of the matching loop: the best order of the opposite side trades
    // with the taker, and leaves the book if that fills it.
    method FillBest(taker: OrderNode, opp: LevelSlice, ghost other: LevelSlice) returns (best: PriceLevel, maker: OrderNode, fill: int)
      requires Valid() && ((opp == bids && other == asks) || (opp == asks && other == bids))
      requires opp.levels != [] && taker.qty > 0 && taker !in Objects()
      modifies this`orders, opp`levels, opp`view, opp`Repr, taker`qty
      modifies opp.levels`head, opp.levels`tail, opp.levels`fifo, opp.levels`totalQty
      modifies opp.Nodes()`qty, opp.Nodes()`prev, opp.Nodes()`next, opp.Nodes()`level
      ensures Linked() && Indexed() && opp.Repr == old(opp.Repr)
      ensures old(Flat(opp.view)) != [] && best == old(opp.levels[0]) && best.price == old(Flat(opp.view)[0].price)
      ensures old(Flat(opp.view)[0].qty) > 0
      ensures fill == Min(old(taker.qty), old(Flat(opp.view)[0].qty)) && taker.qty == old(taker.qty) - fill
      ensures maker.Value() == old(Flat(opp.view)[0]).(qty := maker.qty) && maker.qty == old(Flat(opp.view)[0].qty) - fill
      ensures Flat(opp.view) == (if maker.qty > 0 then [maker.Value()] else []) + old(Flat(opp.view)[1..])
      ensures opp.levels == old(opp.levels) || (opp.levels == old(opp.levels)[1..] && best.totalQty == 0)
    {
      hide HeldBut, Summed, NodesOf, Ladder, Flat, Ids, Chain, Carries, Inside, ViewWithout, Indexes, WellFormed, Qty, Distinct, LevelSlice.Totals;
      ghost var b, s := View(), Flat(opp.view);
      HeadFacts(opp);
      bids.Footprint();
      asks.Footprint();
      best := opp.levels[0];
      maker := best.head;
      HeadStepIds(b, opp.buy, maker.Value());
      fill := taker.qty;
      if maker.qty < fill {
        fill := maker.qty;
      }
      ReduceBest(maker, best, fill, opp, other);
      taker.qty := taker.qty - fill;
      if maker.qty == 0 {
        assert Flat(opp.view)[1..] == s[1..];
        DropFilled(maker, opp, other);
      }
    }

    function OppositeSlice(side: int): LevelSlice {
      if side == SELL then bids else asks
    }

    lemma {:induction false} SliceFacts(slice: LevelSlice)
      requires slice.Linked()
      ensures BestFirstLevels(slice.levels, slice.buy)
      ensures slice.levels == [] <==> Flat(slice.view) == []
    {
      forall i | 0 <= i < |slice.levels|
        ensures slice.levels[i].price == slice.view[i].price
      {
        slice.Facts(i);
      }
      if slice.levels != [] {
        HeadFacts(slice);
      }
    }

    // What the touched levels of a slice hold in the end.
    lemma {:induction false} PassedTotals(changed: seq<PriceLevel>, slice: LevelSlice)
      requires slice.Linked() && slice.Totals() && Passed(changed, slice.levels, slice.buy)
      ensures forall c :: c in changed ==> c.totalQty == Qty(Flat(slice.view), AtPrice(c.price))
    {
      forall c | c in changed
        ensures c.totalQty == Qty(Flat(slice.view), AtPrice(c.price))
      {
        if slice.levels != [] && c == slice.levels[0] {
          slice.Facts(0);
          LevelDepth(slice.view, slice.buy, 0);
        } else {
          forall i | 0 <= i < |slice.levels|
            ensures slice.levels[i].price == slice.view[i].price && LevelOk(slice.view[i], slice.buy)
          {
            slice.Facts(i);
          }
          assert |slice.levels| == |slice.view|;
          AbsentLevel(slice.view, slice.buy, c.price);
        }
      }
    }

    // One turn of the loop with its record keeping.
    method Turn(taker: OrderNode, opp: LevelSlice, ghost other: LevelSlice, events: seq<Event>, changed: seq<PriceLevel>,
                sides: seq<int>, ghost whole: Matched, ghost fills: seq<Fill>, ghost t0: Order, ghost accepted: seq<Event>)
      returns (events': seq<Event>, changed': seq<PriceLevel>, sides': seq<int>, ghost fills': seq<Fill>)
      requires Valid() && ((opp == bids && other == asks) || (opp == asks && other == bids))
      requires opp.levels != [] && taker.qty > 0 && taker !in Objects()
      requires Crosses(taker.side, taker.price, opp.levels[0].price)
      requires t0 == taker.Value().(qty := t0.qty)
      requires Tally(whole, fills, Match(Flat(opp.view), t0.side, t0.price, taker.qty), t0, accepted, events, changed, sides)
      requires Passed(changed, opp.levels, opp.buy) && forall c :: c in changed ==> c in opp.Repr
      modifies this`orders, opp, opp.Repr, taker`qty
      ensures Valid() && opp.Repr == old(opp.Repr) && 0 <= taker.qty < old(taker.qty)
      ensures Tally(whole, fills', Match(Flat(opp.view), t0.side, t0.price, taker.qty), t0, accepted, events', changed', sides')
      ensures Passed(changed', opp.levels, opp.buy) && forall c :: c in changed' ==> c in opp.Repr
    {
      hide HeldBut, Summed, NodesOf, Ladder, Flat, Ids, Indexes, WellFormed, Match, Tally, Passed, Prices, Min, OrderBook.Indexed;
      ghost var s, q := Flat(opp.view), taker.qty;
      TallySizes(whole, fills, Match(s, t0.side, t0.price, q), t0, accepted, events, changed, sides);
      TouchByPrice(changed, opp.levels, opp.buy);
      changed', sides' := Touch(changed, sides, OppositeCode(taker.side), opp.levels[0]);
      var best, maker, fill := FillAndPass(taker, opp, other, changed);
      events' := events + [
        Trade(best.price, fill, maker.id, taker.id, maker.owner, taker.owner),
        Filled(maker.id, maker.clientOrderId, maker.owner, maker.side, best.price, fill, maker.qty),
        Filled(taker.id, taker.clientOrderId, taker.owner, taker.side, best.price, fill, taker.qty)
      ];
      ghost var f := Fill(s[0], fill, taker.qty);
      assert events' == events + FillEvents(t0, f);
      TallyStep(whole, fills, s, q, fill, Flat(opp.view), t0, accepted, events, changed, sides, best);
      fills' := fills + [f];
    }

    // One fill, and what it means for the levels touched so far.
    method FillAndPass(taker: OrderNode, opp: LevelSlice, ghost other: LevelSlice, ghost changed: seq<PriceLevel>)
      returns (best: PriceLevel, maker: OrderNode, fill: int)
      requires Valid() && ((opp == bids && other == asks) || (opp == asks && other == bids))
      requires opp.levels != [] && taker.qty > 0 && taker !in Objects()
      requires Passed(changed, opp.levels, opp.buy) && forall c :: c in changed ==> c in opp.Repr
      modifies this`orders, opp, opp.Repr, taker`qty
      ensures Valid() && opp.Repr == old(opp.Repr) && 0 <= taker.qty < old(taker.qty)
      ensures old(Flat(opp.view)) != [] && old(Flat(opp.view)[0].qty) > 0
      ensures best == old(opp.levels[0]) && best in opp.Repr && best.price == old(Flat(opp.view)[0].price)
      ensures fill == Min(old(taker.qty), old(Flat(opp.view)[0].qty)) && taker.qty == old(taker.qty) - fill
      ensures maker.Value() == old(Flat(opp.view)[0]).(qty := maker.qty) && maker.qty == old(Flat(opp.view)[0].qty) - fill
      ensures Flat(opp.view) == (if maker.qty > 0 then [maker.Value()] else []) + old(Flat(opp.view)[1..])
      ensures Passed(if best in changed then changed else changed + [best], opp.levels, opp.buy)
    {
      hide HeldBut, Summed, NodesOf, Ladder, Flat, Ids, Chain, Carries, Inside, Indexes, WellFormed, PassedBy, BestFirstLevels, LevelSlice.Totals;
      ghost var b, s, levels := View(), Flat(opp.view), opp.levels;
      SliceFacts(opp);
      opp.Footprint();
      best, maker, fill := FillBest(taker, opp, other);
      HeadStepWellFormed(b, opp.buy, if maker.qty > 0 then maker.Value() else s[0]);
      assert View() == WithSide(b, opp.buy, if maker.qty > 0 then [maker.Value()] + s[1..] else s[1..]);
      assert Spent(changed, levels);
      PassedStep(changed, levels, opp.buy, opp.levels);
    }

    // Trades the taker against the opposite side from the top.
    method MatchTaker(taker: OrderNode, accepted: seq<Event>)
      returns (events: seq<Event>, changed: seq<PriceLevel>, sides: seq<int>)
      requires Valid() && taker !in Objects() && taker.qty > 0
      modifies this`orders, OppositeSlice(taker.side), OppositeSlice(taker.side).Repr, taker`qty
      ensures Valid() && OppositeSlice(taker.side).Repr == old(OppositeSlice(taker.side).Repr)
      ensures var m := Match(old(Flat(OppositeSlice(taker.side).view)), taker.side, taker.price, old(taker.qty));
              && Flat(OppositeSlice(taker.side).view) == m.opposite && taker.qty == m.left
              && events == accepted + AllFillEvents(old(taker.Value()), m.fills)
              && Prices(changed) == Touched(m.fills)
      ensures sides == seq(|changed|, _ => OppositeCode(taker.side))
      ensures forall c :: c in changed ==>
                c in OppositeSlice(taker.side).Repr && c.totalQty == Qty(Flat(OppositeSlice(taker.side).view), AtPrice(c.price))
    {
      hide HeldBut, Summed, NodesOf, Ladder, Flat, Ids, Chain, Carries, Inside, Indexes, WellFormed, Match, Tally, Passed, OrderBook.Indexed;
      var opp := OppositeSlice(taker.side);
      ghost var other := if taker.side == SELL then asks else bids;
      ghost var whole, t0 := Match(Flat(opp.view), taker.side, taker.price, taker.qty), taker.Value();
      ghost var fills: seq<Fill> := [];
      events, changed, sides := accepted, [], [];
      TallyStart(whole, t0, accepted);
      assert Passed(changed, opp.levels, opp.buy) by {
        NothingPassed(opp.levels, opp.buy);
      }
      while taker.qty > 0
        invariant Valid() && opp.Repr == old(opp.Repr) && taker !in Objects() && taker.qty >= 0
        invariant Tally(whole, fills, Match(Flat(opp.view), t0.side, t0.price, taker.qty), t0, accepted, events, changed, sides)
        invariant Passed(changed, opp.levels, opp.buy) && forall c :: c in changed ==> c in opp.Repr
        decreases taker.qty
      {
        if |opp.levels| == 0 {
          break;
        }
        var best := opp.levels[0];
        if taker.side == BUY && best.price > taker.price {
          break;
        }
        if taker.side == SELL && best.price < taker.price {
          break;
        }
        events, changed, sides, fills := Turn(taker, opp, other, events, changed, sides, whole, fills, t0, accepted);
      }
      Stopped(opp, taker.side, taker.price, taker.qty);
      TallyEnd(whole, fills, Match(Flat(opp.view), t0.side, t0.price, taker.qty), t0, accepted, events, changed, sides);
      PassedTotals(changed, opp);
    }

    lemma {:induction false} NothingPassed(levels: seq<PriceLevel>, desc: bool)
      ensures Passed([], levels, desc)
    {
    }

    // The loop's exit conditions are those of the reference matching.
    lemma {:induction false} Stopped(opp: LevelSlice, side: int, limit: int, qty: int)
      requires opp.Linked()
      requires qty <= 0 || opp.levels == [] || !Crosses(side, limit, opp.levels[0].price)
      ensures Match(Flat(opp.view), side, limit, qty) == Matched([], Flat(opp.view), qty)
    {
      SliceFacts(opp);
      if opp.levels != [] {
        HeadFacts(opp);
      }
    }

    // Rests what matching left of the taker and remembers its level.
    method RestRemainder(taker: OrderNode, changed: seq<PriceLevel>, sides: seq<int>)
      returns (changed': seq<PriceLevel>, sides': seq<int>)
      requires Linked() && Indexed() && taker !in Objects() && taker.prev == null && taker.next == null
      requires taker.id !in orders && |changed| == |sides|
      requires forall c :: c in changed ==> c in OppositeSlice(taker.side).Repr
      requires !ProperSide(taker.side) ==> Flat(asks.view) == []
      modifies Objects(), taker
      ensures Linked() && Indexed() && fresh(Objects() - old(Objects()) - {taker})
      ensures View() == Rest(old(View()), old(taker.Value()))
      ensures |changed'| == |sides'| && Announced(changed', sides')
           == old(Announced(changed, sides)) + [BookUpdate(taker.side, taker.price, Qty(Own(View(), taker.side), AtPrice(taker.price)))]
    {
      hide HeldBut, Summed, NodesOf, Ladder, Flat, Ids, Chain, Carries, Inside, Indexes, Qty, Insert, Announced, Rest, OrderBook.Linked, OrderBook.Indexed;
      var lvl := RestTaker(taker, changed);
      AnnouncedSnoc(changed, sides, lvl, taker.side);
      changed', sides' := Touch(changed, sides, taker.side, lvl);
    }

    method RestTaker(taker: OrderNode, ghost changed: seq<PriceLevel>) returns (lvl: PriceLevel)
      requires Linked() && Indexed() && taker !in Objects() && taker.prev == null && taker.next == null
      requires taker.id !in orders && forall c :: c in changed ==> c in OppositeSlice(taker.side).Repr
      requires !ProperSide(taker.side) ==> Flat(asks.view) == []
      modifies Objects(), taker
      ensures Linked() && Indexed() && fresh(Objects() - old(Objects()) - {taker})
      ensures View() == Rest(old(View()), old(taker.Value()))
      ensures lvl !in changed && forall c :: c in changed ==> c.totalQty == old(c.totalQty)
      ensures lvl.price == taker.price && lvl.totalQty == Qty(Own(View(), taker.side), AtPrice(taker.price))
    {
      hide HeldBut, Summed, NodesOf, Ladder, Flat, Ids, Chain, Carries, Inside, Indexes, Qty, Insert, Rest;
      var slice := Slice(taker.side);
      slice.Footprint();
      SliceFacts(slice);
      ghost var nodes, was := bids.Nodes() + asks.Nodes(), orders;
      lvl := RestOrder(taker);
      IndexWith(was, nodes, taker, bids.Nodes() + asks.Nodes());
      LevelTotal(slice, lvl);
    }

    lemma {:induction false} LevelTotal(slice: LevelSlice, lvl: PriceLevel)
      requires slice.Linked() && slice.Totals() && lvl in slice.levels
      ensures lvl.totalQty == Qty(Flat(slice.view), AtPrice(lvl.price))
    {
      var i :| 0 <= i < |slice.levels| && slice.levels[i] == lvl;
      slice.Facts(i);
      LevelDepth(slice.view, slice.buy, i);
    }

    // Applies a new limit order: it matches from the top of the opposite side
    // and any remainder rests.
    method NewLimitOrder(cmd: Command) returns (events: seq<Event>)
      requires Valid() && cmd.NewOrder?
      modifies Objects()
      ensures Valid() && fresh(Objects() - old(Objects()))
      ensures View() == PlaceOrder(old(View()), cmd).book
      ensures events == PlaceOrder(old(View()), cmd).events
    {
      hide HeldBut, Summed, NodesOf, Ladder, Flat, Ids, Indexes, WellFormed, Placed, UpdateEvents, AllFillEvents, MatchOf, Announced, OrderBook.Linked, OrderBook.Indexed;
      if cmd.qty <= 0 {
        return [Rejected(0, cmd.clientOrderId, cmd.owner, BadQty)];
      }
      if cmd.price <= 0 {
        return [Rejected(0, cmd.clientOrderId, cmd.owner, BadPrice)];
      }
      var changed, sides;
      events, changed, sides := Accept(cmd);
      events := Announce(events, changed, sides);
    }

    method Apply(cmd: Command) returns (events: seq<Event>)
      requires Valid()
      modifies Objects()
      ensures Valid() && fresh(Objects() - old(Objects()))
      ensures View() == Step(old(View()), cmd).book && events == Step(old(View()), cmd).events
    {
      hide HeldBut, Summed, NodesOf, Ladder, Flat, Ids, Indexes, WellFormed, PlaceOrder, CancelOrder, OrderBook.Linked, OrderBook.Indexed;
      match cmd
      case NewOrder(_, _, _, _, _) =>
        events := NewLimitOrder(cmd);
      case Cancel(id, owner) =>
        events := Cancel(id, owner);
    }

    // Any command sequence: the same events and the same state as the reference.
    method ApplyAll(cmds: seq<Command>) returns (events: seq<Event>)
      requires Valid()
      modifies Objects()
      ensures Valid() && fresh(Objects() - old(Objects()))
      ensures View() == Run(old(View()), cmds).book && events == Run(old(View()), cmds).events
    {
      hide HeldBut, Summed, NodesOf, Ladder, Flat, Ids, Indexes, WellFormed, Step, OrderBook.Linked, OrderBook.Indexed;
      events := [];
      for i := 0 to |cmds|
        invariant Valid() && fresh(Objects() - old(Objects()))
        invariant View() == Run(old(View()), cmds[..i]).book && events == Run(old(View()), cmds[..i]).events
      {
        RunSnoc(old(View()), cmds, i);
        var more := Apply(cmds[i]);
        events := events + more;
      }
      assert cmds[..|cmds|] == cmds;
    }

    // Creates the taker with the next id.
    method Issue(cmd: Command) returns (taker: OrderNode)
      requires Valid() && Acceptable(cmd)
      modifies this`nextOrderId
      ensures Valid() && Objects() == old(Objects()) && fresh(taker)
      ensures View() == old(View()).(nextId := old(View()).nextId + 1)
      ensures taker.Value() == Taker(old(View()), cmd) && taker.prev == null && taker.next == null
    {
      hide HeldBut, Summed, NodesOf, Ladder, Flat, Ids, Indexes, WellFormed;
      PlaceFacts(View(), cmd);
      taker := new OrderNode(nextOrderId, cmd.clientOrderId, cmd.owner, cmd.side, cmd.price, cmd.qty);
      nextOrderId := nextOrderId + 1;
      bids.Undisturbed();
      asks.Undisturbed();
    }

    // Acceptance and matching; what is left of the taker is not resting yet.
    method AcceptAndMatch(cmd: Command)
      returns (taker: OrderNode, events: seq<Event>, changed: seq<PriceLevel>, sides: seq<int>)
      requires Valid() && Acceptable(cmd)
      modifies Objects()
      ensures Valid() && Objects() == old(Objects()) && fresh(taker) && taker.prev == null && taker.next == null
      ensures View() == AfterMatch(old(View()), cmd.side, MatchOf(old(View()), cmd).opposite)
      ensures taker.Value() == Taker(old(View()), cmd).(qty := MatchOf(old(View()), cmd).left)
      ensures events == [AcceptedEvent(Taker(old(View()), cmd))] + AllFillEvents(Taker(old(View()), cmd), MatchOf(old(View()), cmd).fills)
      ensures |changed| == |sides| && forall c :: c in changed ==> c in OppositeSlice(cmd.side).Repr
      ensures Announced(changed, sides)
           == Updates(OppositeCode(cmd.side), Touched(MatchOf(old(View()), cmd).fills), MatchOf(old(View()), cmd).opposite)
    {
      hide HeldBut, Summed, NodesOf, Ladder, Flat, Ids, Chain, Carries, Inside, Indexes, Qty, Insert, Announced, WellFormed, Match, Touched, AllFillEvents, Updates, Prices, OrderBook.Indexed;
      taker := Issue(cmd);
      events := [Accepted(taker.id, taker.clientOrderId, taker.owner, taker.side, taker.price, taker.qty)];
      events, changed, sides := MatchTaker(taker, events);
      AnnouncedUpdates(changed, OppositeCode(taker.side), Flat(OppositeSlice(taker.side).view));
    }

    // Everything but the level updates, which are the totals now cached.
    method Accept(cmd: Command) returns (events: seq<Event>, changed: seq<PriceLevel>, sides: seq<int>)
      requires Valid() && Acceptable(cmd)
      modifies Objects()
      ensures Valid() && fresh(Objects() - old(Objects()))
      ensures View() == PlaceOrder(old(View()), cmd).book
      ensures |changed| == |sides| && events + Announced(changed, sides) == PlaceOrder(old(View()), cmd).events
    {
      hide HeldBut, Summed, NodesOf, Ladder, Flat, Ids, Indexes, Qty, Insert, Announced, WellFormed, MatchOf, Touched, AllFillEvents, Updates, OrderBook.Indexed;
      ghost var b := View();
      PlaceFacts(b, cmd);
      var taker;
      taker, events, changed, sides := AcceptAndMatch(cmd);
      ghost var objects := Objects();
      if taker.qty > 0 {
        changed, sides := RestRemainder(taker, changed, sides);
        assert fresh(Objects() - objects);
      }
      assert View() == Placed(b, cmd);
    }
  }

  // What the reference book promises about an acceptable order.
  lemma {:induction false} PlaceFacts(b: Book, cmd: Command)
    requires WellFormed(b) && Acceptable(cmd)
    ensures WellFormed(b.(nextId := b.nextId + 1)) && WellFormed(Placed(b, cmd))
    ensures var m := MatchOf(b, cmd);
            var matched := AfterMatch(b, cmd.side, m.opposite);
            && b.nextId !in Ids(matched.bids) + Ids(matched.asks)
            && (!ProperSide(cmd.side) && m.left > 0 ==> m.opposite == [])
  {
    SideOkGrows(b.bids, true, b.nextId);
    SideOkGrows(b.asks, false, b.nextId);
    PlaceKeepsWellFormed(b, cmd);
    MatchKeepsWellFormed(b, cmd);
    Leftover(b, cmd);
  }
}
