/**
The depth feed: what a subscriber rebuilds by folding BookUpdate events into a
map, deleting a level on zero. It equals the aggregate depth of the book after
every command exactly as long as no command strays.
*/
module DepthFeed {
  import opened Events
  import opened Book
  import opened Matching
  import opened Invariant

  type Feed = map<(int, int), int>

  function Apply(feed: Feed, ev: Event): Feed {
    if !ev.BookUpdate? then feed
    else if ev.aggregateQty == 0 then feed - {(ev.side, ev.price)}
    else feed[(ev.side, ev.price) := ev.aggregateQty]
  }

  function Fold(feed: Feed, events: seq<Event>): Feed
    decreases |events|
  {
    if events == [] then feed else Fold(Apply(feed, events[0]), events[1..])
  }

  function Shown(feed: Feed, side: int, price: int): int {
    if (side, price) in feed then feed[(side, price)] else 0
  }

  function Depth(b: Book, side: int, price: int): int {
    if side == BUY then Qty(b.bids, AtPrice(price))
    else if side == SELL then Qty(b.asks, AtPrice(price))
    else 0
  }

  // The feed shows every level of the book with its aggregate, and nothing else.
  ghost predicate Exact(feed: Feed, b: Book) {
    && (forall key :: key in feed ==> feed[key] != 0)
    && (forall side, price :: Shown(feed, side, price) == Depth(b, side, price))
  }

  // --- Folding ---------------------------------------------------------------

  lemma {:induction false} FoldConcat(feed: Feed, a: seq<Event>, b: seq<Event>)
    ensures Fold(feed, a + b) == Fold(Fold(feed, a), b)
    decreases |a|
  {
    if a == [] {
      assert a + b == b;
    } else {
      FoldConcat(Apply(feed, a[0]), a[1..], b);
      assert (a + b)[1..] == a[1..] + b;
    }
  }

  lemma {:induction false} FoldKeepsNonZero(feed: Feed, events: seq<Event>)
    requires forall key :: key in feed ==> feed[key] != 0
    ensures forall key :: key in Fold(feed, events) ==> Fold(feed, events)[key] != 0
    decreases |events|
  {
    if events != [] {
      FoldKeepsNonZero(Apply(feed, events[0]), events[1..]);
    }
  }

  lemma {:induction false} FoldIgnoresReports(feed: Feed, events: seq<Event>)
    requires forall i :: 0 <= i < |events| ==> !events[i].BookUpdate?
    ensures Fold(feed, events) == feed
  {
    if events != [] {
      FoldIgnoresReports(feed, events[1..]);
    }
  }

  lemma {:induction false} FillEventsAreReports(taker: Order, fills: seq<Fill>)
    ensures forall i :: 0 <= i < |AllFillEvents(taker, fills)| ==> !AllFillEvents(taker, fills)[i].BookUpdate?
  {
    if fills != [] {
      FillEventsAreReports(taker, fills[1..]);
    }
  }

  lemma {:induction false} FoldUpdates(feed: Feed, code: int, prices: seq<int>, s: seq<Order>, side: int, price: int)
    ensures Shown(Fold(feed, Updates(code, prices, s)), side, price)
         == if side == code && price in prices then Qty(s, AtPrice(price)) else Shown(feed, side, price)
    decreases |prices|
  {
    if prices != [] {
      var ups := Updates(code, prices, s);
      assert ups[1..] == Updates(code, prices[1..], s);
      FoldUpdates(Apply(feed, ups[0]), code, prices[1..], s, side, price);
    }
  }

  // --- Touched levels --------------------------------------------------------

  lemma {:induction false} TouchedPrices(fills: seq<Fill>, price: int)
    ensures price in Touched(fills) <==> exists i :: 0 <= i < |fills| && fills[i].maker.price == price
  {
    if fills != [] {
      var n := |fills| - 1;
      TouchedPrices(fills[..n], price);
      assert forall i :: 0 <= i < n ==> fills[..n][i] == fills[i];
    }
  }

  lemma {:induction false} MakerFillsAt(fills: seq<Fill>, price: int)
    requires forall i :: 0 <= i < |fills| ==> fills[i].qty > 0
    ensures MakerFills(fills, AtPrice(price)) >= 0
    ensures MakerFills(fills, AtPrice(price)) > 0 <==> exists i :: 0 <= i < |fills| && fills[i].maker.price == price
  {
    if fills != [] {
      MakerFillsAt(fills[1..], price);
      assert forall i :: 1 <= i < |fills| ==> fills[i] == fills[1..][i - 1];
    }
  }

  // Matching changes the aggregate at a price exactly when it touches it.
  lemma {:induction false} TouchedIffChanged(s: seq<Order>, side: int, limit: int, qty: int, price: int)
    requires AllPositive(s)
    ensures var m := Match(s, side, limit, qty);
            price in Touched(m.fills) <==> Qty(m.opposite, AtPrice(price)) != Qty(s, AtPrice(price))
  {
    var m := Match(s, side, limit, qty);
    MatchHasPriority(s, side, limit, qty);
    MatchConserves(s, side, limit, qty, AtPrice(price));
    MakerFillsAt(m.fills, price);
    TouchedPrices(m.fills, price);
  }

  // --- One command -----------------------------------------------------------

  ghost predicate ProperOrders(s: seq<Order>) {
    forall i :: 0 <= i < |s| ==> ProperSide(s[i].side)
  }

  ghost predicate ProperBook(b: Book) {
    ProperOrders(b.bids) && ProperOrders(b.asks)
  }

  lemma {:induction false} PlaceFeed(b: Book, cmd: Command, feed: Feed, side: int, price: int)
    requires Acceptable(cmd)
    ensures var m := MatchOf(b, cmd);
            Shown(Fold(feed, PlaceOrder(b, cmd).events), side, price)
            == if m.left > 0 && side == cmd.side && price == cmd.price then Qty(Own(Placed(b, cmd), cmd.side), AtPrice(price))
               else if side == OppositeCode(cmd.side) && price in Touched(m.fills) then Qty(m.opposite, AtPrice(price))
               else Shown(feed, side, price)
  {
    var m := MatchOf(b, cmd);
    var taker := Taker(b, cmd);
    var reports := [AcceptedEvent(taker)] + AllFillEvents(taker, m.fills);
    FillEventsAreReports(taker, m.fills);
    FoldConcat(feed, reports, UpdateEvents(b, cmd));
    FoldIgnoresReports(feed, reports);
    var ups := Updates(OppositeCode(cmd.side), Touched(m.fills), m.opposite);
    FoldUpdates(feed, OppositeCode(cmd.side), Touched(m.fills), m.opposite, side, price);
    if m.left > 0 {
      var own := BookUpdate(cmd.side, cmd.price, Qty(Own(Placed(b, cmd), cmd.side), AtPrice(cmd.price)));
      FoldConcat(feed, ups, [own]);
      assert Fold(Fold(feed, ups), [own]) == Apply(Fold(feed, ups), own);
    }
  }

  lemma {:induction false} PlaceDepth(b: Book, cmd: Command, price: int)
    requires WellFormed(b) && Acceptable(cmd)
    ensures var m := MatchOf(b, cmd);
            var rests := if m.left > 0 && price == cmd.price then m.left else 0;
            var oppositeQty := Qty(m.opposite, AtPrice(price));
            && Depth(Placed(b, cmd), BUY, price)
               == (if cmd.side == SELL then oppositeQty else Depth(b, BUY, price)) + (if cmd.side == BUY then rests else 0)
            && Depth(Placed(b, cmd), SELL, price)
               == (if cmd.side != SELL then oppositeQty else Depth(b, SELL, price)) + (if cmd.side != BUY then rests else 0)
  {
    var m := MatchOf(b, cmd);
    if m.left > 0 {
      QtyInsert(Own(AfterMatch(b, cmd.side, m.opposite), cmd.side), Taker(b, cmd).(qty := m.left), AtPrice(price));
    }
  }

  // A proper order, or one the asks absorb, keeps the feed exact at every level.
  lemma {:induction false} PlaceShowsDepth(b: Book, cmd: Command, feed: Feed, side: int, price: int)
    requires WellFormed(b) && Acceptable(cmd) && Exact(feed, b)
    requires !Strays(b, cmd)
    ensures Shown(Fold(feed, PlaceOrder(b, cmd).events), side, price) == Depth(Placed(b, cmd), side, price)
  {
    var m := MatchOf(b, cmd);
    Leftover(b, cmd);
    PlaceFeed(b, cmd, feed, side, price);
    PlaceDepth(b, cmd, price);
    TouchedIffChanged(Opposite(b, cmd.side), cmd.side, cmd.price, cmd.qty, price);
    assert Shown(feed, side, price) == Depth(b, side, price);
  }

  // A straying order rests among the asks but is announced under its own code.
  lemma {:induction false} StrayHidden(b: Book, cmd: Command, feed: Feed)
    requires WellFormed(b) && Exact(feed, b)
    requires Strays(b, cmd)
    ensures Shown(Fold(feed, PlaceOrder(b, cmd).events), SELL, cmd.price) == 0 < Depth(Placed(b, cmd), SELL, cmd.price)
  {
    Leftover(b, cmd);
    PlaceFeed(b, cmd, feed, SELL, cmd.price);
    PlaceDepth(b, cmd, cmd.price);
    TouchedIffChanged(b.asks, cmd.side, cmd.price, cmd.qty, cmd.price);
    assert Shown(feed, SELL, cmd.price) == Depth(b, SELL, cmd.price);
  }

  lemma {:induction false} CancelShowsDepth(b: Book, id: int, owner: int, feed: Feed, side: int, price: int)
    requires WellFormed(b) && ProperBook(b) && Exact(feed, b)
    ensures var out := CancelOrder(b, id, owner);
            Shown(Fold(feed, out.events), side, price) == Depth(out.book, side, price)
  {
    var out := CancelOrder(b, id, owner);
    assert Shown(feed, side, price) == Depth(b, side, price);
    if |out.events| == 1 {
      assert Fold(feed, out.events) == feed;
    } else {
      assert out.events[1..] == [out.events[1]];
      assert Fold(feed, out.events) == Fold(Apply(feed, out.events[0]), out.events[1..]) == Apply(feed, out.events[1]);
      var i, j := Find(b.bids, id), Find(b.asks, id);
      if i < |b.bids| {
        QtyWithout(b.bids, i, AtPrice(price));
      } else {
        QtyWithout(b.asks, j, AtPrice(price));
      }
    }
  }

  // From a proper book with an exact feed, a command keeps the feed exact if
  // and only if it does not stray.
  lemma {:induction false} StepFeed(b: Book, cmd: Command, feed: Feed)
    requires WellFormed(b) && ProperBook(b) && Exact(feed, b)
    ensures Exact(Fold(feed, Step(b, cmd).events), Step(b, cmd).book) <==> !Strays(b, cmd)
  {
    var out := Step(b, cmd);
    var after := Fold(feed, out.events);
    FoldKeepsNonZero(feed, out.events);
    if Strays(b, cmd) {
      StrayHidden(b, cmd, feed);
      assert Shown(after, SELL, cmd.price) != Depth(out.book, SELL, cmd.price);
    } else {
      forall side, price
        ensures Shown(after, side, price) == Depth(out.book, side, price)
      {
        if Acceptable(cmd) {
          PlaceShowsDepth(b, cmd, feed, side, price);
        } else if cmd.Cancel? {
          CancelShowsDepth(b, cmd.orderId, cmd.owner, feed, side, price);
        } else {
          FoldIgnoresReports(feed, out.events);
          assert Shown(feed, side, price) == Depth(b, side, price);
        }
      }
    }
  }

  lemma {:induction false} StepKeepsProper(b: Book, cmd: Command)
    requires WellFormed(b) && ProperBook(b) && !Strays(b, cmd)
    ensures ProperBook(Step(b, cmd).book)
  {
    if Acceptable(cmd) {
      var m := MatchOf(b, cmd);
      Leftover(b, cmd);
      var dropped := MatchLeavesTail(Opposite(b, cmd.side), cmd.side, cmd.price, cmd.qty);
      assert ProperOrders(m.opposite);
      if m.left > 0 {
        InsertProper(Own(AfterMatch(b, cmd.side, m.opposite), cmd.side), Taker(b, cmd).(qty := m.left));
      }
    }
  }

  lemma {:induction false} InsertProper(s: seq<Order>, o: Order)
    requires ProperOrders(s) && ProperSide(o.side)
    ensures ProperOrders(Insert(s, o))
  {
  }

  // --- Whole runs ------------------------------------------------------------

  ghost predicate ExactAfter(cmds: seq<Command>, k: nat)
    requires k <= |cmds|
  {
    var out := Run(EMPTY, cmds[..k]);
    Exact(Fold(map[], out.events), out.book)
  }

  predicate StraysAt(cmds: seq<Command>, k: nat)
    requires k < |cmds|
  {
    Strays(Run(EMPTY, cmds[..k]).book, cmds[k])
  }

  lemma {:induction false} ProperUntil(cmds: seq<Command>, k: nat)
    requires k <= |cmds|
    requires forall i :: 0 <= i < k ==> !StraysAt(cmds, i)
    ensures ProperBook(Run(EMPTY, cmds[..k]).book)
  {
    if k > 0 {
      ProperUntil(cmds, k - 1);
      RunKeepsWellFormed(EMPTY, cmds[..k - 1]);
      RunSnoc(EMPTY, cmds, k - 1);
      assert !StraysAt(cmds, k - 1);
      StepKeepsProper(Run(EMPTY, cmds[..k - 1]).book, cmds[k - 1]);
    }
  }

  lemma {:induction false} FeedStep(cmds: seq<Command>, k: nat)
    requires k < |cmds| && ExactAfter(cmds, k)
    requires forall i :: 0 <= i < k ==> !StraysAt(cmds, i)
    ensures ExactAfter(cmds, k + 1) <==> !StraysAt(cmds, k)
  {
    var before := Run(EMPTY, cmds[..k]);
    ProperUntil(cmds, k);
    RunKeepsWellFormed(EMPTY, cmds[..k]);
    RunSnoc(EMPTY, cmds, k);
    StepFeed(before.book, cmds[k], Fold(map[], before.events));
    FoldConcat(map[], before.events, Step(before.book, cmds[k]).events);
  }

  // Over any run from the empty book: the feed equals the book's depth after
  // every command if and only if no command strays.
  lemma {:induction false} FeedEqualsDepth(cmds: seq<Command>)
    ensures (forall k :: 0 <= k <= |cmds| ==> ExactAfter(cmds, k))
       <==> (forall k :: 0 <= k < |cmds| ==> !StraysAt(cmds, k))
  {
    if forall k :: 0 <= k <= |cmds| ==> ExactAfter(cmds, k) {
      for k := 0 to |cmds|
        invariant forall i :: 0 <= i < k ==> !StraysAt(cmds, i)
      {
        assert ExactAfter(cmds, k) && ExactAfter(cmds, k + 1);
        FeedStep(cmds, k);
      }
    }
    if forall k :: 0 <= k < |cmds| ==> !StraysAt(cmds, k) {
      assert ExactAfter(cmds, 0);
      for k := 0 to |cmds|
        invariant forall i :: 0 <= i <= k ==> ExactAfter(cmds, i)
      {
        FeedStep(cmds, k);
      }
    }
  }

  // The concrete failure: a lone order with the null side code rests at 10 and
  // no subscriber ever sees it among the asks.
  lemma {:induction false} FeedExample()
    ensures var cmds := [NewOrder(1, 1, -128, 10, 5)]; !ExactAfter(cmds, 1)
  {
    var cmds := [NewOrder(1, 1, -128, 10, 5)];
    assert ExactAfter(cmds, 0);
    FeedStep(cmds, 0);
  }

  // --- The shape of one batch ------------------------------------------------

  // Touched levels come strictly in price priority, ending at the last maker's.
  lemma {:induction false} TouchedInOrder(s: seq<Order>, fills: seq<Fill>, desc: bool)
    requires BestFirst(s, desc) && |fills| <= |s|
    requires forall i :: 0 <= i < |fills| ==> fills[i].maker == s[i]
    ensures forall i, j :: 0 <= i < j < |Touched(fills)| ==> Ahead(desc, Touched(fills)[i], Touched(fills)[j])
    ensures |Touched(fills)| == 0 <==> fills == []
    ensures fills != [] ==> Touched(fills)[|Touched(fills)| - 1] == s[|fills| - 1].price
  {
    if fills != [] {
      var n := |fills| - 1;
      TouchedInOrder(s, fills[..n], desc);
      TouchedPrices(fills[..n], s[n].price);
      var t := Touched(fills[..n]);
      if n > 0 {
        assert !Ahead(desc, s[n].price, s[n - 1].price);
        if s[n].price != s[n - 1].price {
          forall i | 0 <= i < |t|
            ensures t[i] != s[n].price
          {
            assert i < |t| - 1 ==> Ahead(desc, t[i], t[|t| - 1]);
          }
        } else {
          assert t[|t| - 1] in t;
        }
      }
    }
  }

  // With a remainder, nothing that is left crosses.
  lemma {:induction false} RemainderSeesNoCross(s: seq<Order>, side: int, limit: int, qty: int, j: nat)
    requires AllPositive(s) && BestFirst(s, side == SELL)
    requires Match(s, side, limit, qty).left > 0 && j < |Match(s, side, limit, qty).opposite|
    ensures !Crosses(side, limit, Match(s, side, limit, qty).opposite[j].price)
  {
    if Crosses(side, limit, s[0].price) && qty > 0 {
      RemainderSeesNoCross(s[1..], side, limit, qty - s[0].qty, j);
    } else if j > 0 {
      assert !Ahead(side == SELL, s[j].price, s[0].price);
    }
  }

  // Nothing that is left is better than the last maker.
  lemma {:induction false} NothingBetterLeft(s: seq<Order>, side: int, limit: int, qty: int, j: nat)
    requires AllPositive(s) && BestFirst(s, side == SELL)
    requires var m := Match(s, side, limit, qty); m.fills != [] && j < |m.opposite|
    ensures var m := Match(s, side, limit, qty);
            !Ahead(side == SELL, m.opposite[j].price, m.fills[|m.fills| - 1].maker.price)
  {
    var m := Match(s, side, limit, qty);
    MatchHasPriority(s, side, limit, qty);
    var dropped := MatchLeavesTail(s, side, limit, qty);
    var n := |m.fills|;
    assert m.opposite[j].price == s[j + dropped].price && dropped >= n - 1;
    assert j + dropped > n - 1 ==> !Ahead(side == SELL, s[j + dropped].price, s[n - 1].price);
  }

  // A level that matching moved past is empty; with a remainder, so is the last.
  lemma {:induction false} PassedLevelsAreEmpty(s: seq<Order>, side: int, limit: int, qty: int, k: nat)
    requires AllPositive(s) && BestFirst(s, side == SELL)
    requires var m := Match(s, side, limit, qty); k < |Touched(m.fills)| && (m.left > 0 || k < |Touched(m.fills)| - 1)
    ensures var m := Match(s, side, limit, qty); Qty(m.opposite, AtPrice(Touched(m.fills)[k])) == 0
  {
    var m := Match(s, side, limit, qty);
    var t := Touched(m.fills);
    MatchHasPriority(s, side, limit, qty);
    TouchedPrices(m.fills, t[k]);
    TouchedInOrder(s, m.fills, side == SELL);
    var dropped := MatchLeavesTail(s, side, limit, qty);
    QtyNonNegative(m.opposite, AtPrice(t[k]));
    forall j | 0 <= j < |m.opposite|
      ensures !Hits(AtPrice(t[k]), m.opposite[j])
    {
      if m.left > 0 {
        RemainderSeesNoCross(s, side, limit, qty, j);
      } else {
        NothingBetterLeft(s, side, limit, qty, j);
        assert Ahead(side == SELL, t[k], t[|t| - 1]);
      }
    }
  }

  // The update batch of one accepted order: no level twice, opposite levels in
  // price priority with all but possibly the last emptied (all emptied if the
  // order rests), then the order's own level.
  lemma {:induction false} BatchShape(b: Book, cmd: Command)
    requires WellFormed(b) && Acceptable(cmd)
    ensures var ups := UpdateEvents(b, cmd);
            var n := |Touched(MatchOf(b, cmd).fills)|;
            var rests := MatchOf(b, cmd).left > 0;
            && |ups| == n + (if rests then 1 else 0)
            && (forall i :: 0 <= i < |ups| ==> ups[i].BookUpdate?)
            && (forall i :: 0 <= i < n ==> ups[i].side == OppositeCode(cmd.side))
            && (forall i, j :: 0 <= i < j < n ==> Ahead(cmd.side == SELL, ups[i].price, ups[j].price))
            && (forall i :: 0 <= i < n && (rests || i < n - 1) ==> ups[i].aggregateQty == 0)
            && (rests ==> ups[n].side == cmd.side && ups[n].price == cmd.price && ups[n].aggregateQty > 0)
            && (forall i, j :: 0 <= i < j < |ups| ==> ups[i].side != ups[j].side || ups[i].price != ups[j].price)
  {
    var s := Opposite(b, cmd.side);
    var m := MatchOf(b, cmd);
    var t := Touched(m.fills);
    SideOkGrows(s, cmd.side == SELL, b.nextId);
    assert forall i, j :: 0 <= i < j < |t| ==> Ahead(cmd.side == SELL, t[i], t[j]) by {
      MatchHasPriority(s, cmd.side, cmd.price, cmd.qty);
      TouchedInOrder(s, m.fills, cmd.side == SELL);
    }
    forall i | 0 <= i < |t| && (m.left > 0 || i < |t| - 1)
      ensures Qty(m.opposite, AtPrice(t[i])) == 0
    {
      PassedLevelsAreEmpty(s, cmd.side, cmd.price, cmd.qty, i);
    }
    if m.left > 0 {
      RestedLevelPositive(b, cmd);
    }
  }

  lemma {:induction false} RestedLevelPositive(b: Book, cmd: Command)
    requires WellFormed(b) && Acceptable(cmd) && MatchOf(b, cmd).left > 0
    ensures Qty(Own(Placed(b, cmd), cmd.side), AtPrice(cmd.price)) > 0
  {
    var matched := AfterMatch(b, cmd.side, MatchOf(b, cmd).opposite);
    MatchKeepsWellFormed(b, cmd);
    QtyInsert(Own(matched, cmd.side), Taker(b, cmd).(qty := MatchOf(b, cmd).left), AtPrice(cmd.price));
    QtyNonNegative(Own(matched, cmd.side), AtPrice(cmd.price));
  }

  predicate Announces(ups: seq<Event>, side: int, price: int, qty: int) {
    exists i :: 0 <= i < |ups| && ups[i] == BookUpdate(side, price, qty)
  }

  // A level is announced with its final aggregate exactly when that aggregate
  // changed.
  ghost predicate AnnouncesChanges(b: Book, cmd: Command)
    requires cmd.NewOrder?
  {
    forall side, price, qty ::
      Announces(UpdateEvents(b, cmd), side, price, qty)
      <==> qty == Depth(Placed(b, cmd), side, price) && qty != Depth(b, side, price)
  }

  lemma {:induction false} WhatIsAnnounced(b: Book, cmd: Command, side: int, price: int, qty: int)
    requires cmd.NewOrder?
    ensures var m := MatchOf(b, cmd);
            Announces(UpdateEvents(b, cmd), side, price, qty)
            <==> (side == OppositeCode(cmd.side) && price in Touched(m.fills) && qty == Qty(m.opposite, AtPrice(price)))
                 || (m.left > 0 && side == cmd.side && price == cmd.price && qty == Qty(Own(Placed(b, cmd), side), AtPrice(price)))
  {
    hide MatchOf, Touched, Qty, Placed;
    var m, ups := MatchOf(b, cmd), UpdateEvents(b, cmd);
    var t := Touched(m.fills);
    if side == OppositeCode(cmd.side) && price in t {
      var i :| 0 <= i < |t| && t[i] == price;
      assert ups[i] == BookUpdate(side, price, Qty(m.opposite, AtPrice(price)));
    }
    if m.left > 0 {
      assert ups[|t|] == BookUpdate(cmd.side, cmd.price, Qty(Own(Placed(b, cmd), cmd.side), AtPrice(cmd.price)));
    }
  }

  lemma {:induction false} ChangeAnnounced(b: Book, cmd: Command, side: int, price: int, qty: int)
    requires WellFormed(b) && Acceptable(cmd) && !Strays(b, cmd)
    ensures Announces(UpdateEvents(b, cmd), side, price, qty)
       <==> qty == Depth(Placed(b, cmd), side, price) && qty != Depth(b, side, price)
  {
    assert AllPositive(Opposite(b, cmd.side));
    hide Match, Touched, Qty, WellFormed, UpdateEvents, Announces, Insert;
    Leftover(b, cmd);
    WhatIsAnnounced(b, cmd, side, price, qty);
    TouchedIffChanged(Opposite(b, cmd.side), cmd.side, cmd.price, cmd.qty, price);
    PlaceDepth(b, cmd, price);
    MatchLeftBound(b, cmd);
  }

  // The batch of an accepted order announces the changes of the book and nothing
  // else, if and only if the order does not stray.
  lemma {:induction false} BatchAnnouncesChanges(b: Book, cmd: Command)
    requires WellFormed(b) && Acceptable(cmd)
    ensures AnnouncesChanges(b, cmd) <==> !Strays(b, cmd)
  {
    if Strays(b, cmd) {
      Leftover(b, cmd);
      BatchShape(b, cmd);
      var ups := UpdateEvents(b, cmd);
      var n := |ups| - 1;
      assert ups[n] == BookUpdate(cmd.side, cmd.price, ups[n].aggregateQty);
      assert Announces(ups, cmd.side, cmd.price, ups[n].aggregateQty) && Depth(Placed(b, cmd), cmd.side, cmd.price) == 0;
    } else {
      forall side, price, qty
        ensures Announces(UpdateEvents(b, cmd), side, price, qty)
           <==> qty == Depth(Placed(b, cmd), side, price) && qty != Depth(b, side, price)
      {
        ChangeAnnounced(b, cmd, side, price, qty);
      }
    }
  }
}
