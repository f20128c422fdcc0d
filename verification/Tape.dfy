/**
The trade tape against the fill reports. Every trade is reported to both
parties; bought, sold and traded quantity agree over a run exactly when no order
with a side code other than buy and sell takes part in a trade.
*/
module Tape {
  import opened Events
  import opened Book
  import opened Matching
  import opened Invariant
  import opened DepthFeed

  function Traded(events: seq<Event>): int {
    if events == [] then 0 else (if events[0].Trade? then events[0].qty else 0) + Traded(events[1..])
  }

  // Quantity of the fill reports that carry the given side code.
  function FilledOn(events: seq<Event>, side: int): int {
    if events == [] then 0
    else (if events[0].Filled? && events[0].side == side then events[0].qty else 0) + FilledOn(events[1..], side)
  }

  // Quantity of the fill reports under any other code.
  function FilledAstray(events: seq<Event>): int {
    if events == [] then 0
    else (if events[0].Filled? && !ProperSide(events[0].side) then events[0].qty else 0) + FilledAstray(events[1..])
  }

  // Two reports per trade, at most one of them a buy and at most one a sell.
  predicate Balanced(events: seq<Event>) {
    && FilledOn(events, BUY) + FilledOn(events, SELL) + FilledAstray(events) == 2 * Traded(events)
    && FilledOn(events, BUY) <= Traded(events) && FilledOn(events, SELL) <= Traded(events)
  }

  lemma {:induction false} SumsConcat(a: seq<Event>, b: seq<Event>)
    ensures Traded(a + b) == Traded(a) + Traded(b)
    ensures forall side :: FilledOn(a + b, side) == FilledOn(a, side) + FilledOn(b, side)
    ensures FilledAstray(a + b) == FilledAstray(a) + FilledAstray(b)
  {
    if a == [] {
      assert a + b == b;
    } else {
      SumsConcat(a[1..], b);
      assert (a + b)[1..] == a[1..] + b;
    }
  }

  lemma {:induction false} BalancedConcat(a: seq<Event>, b: seq<Event>)
    requires Balanced(a) && Balanced(b)
    ensures Balanced(a + b) && FilledAstray(a + b) == FilledAstray(a) + FilledAstray(b)
  {
    SumsConcat(a, b);
  }

  lemma {:induction false} NoFills(events: seq<Event>)
    requires forall i :: 0 <= i < |events| ==> !events[i].Trade? && !events[i].Filled?
    ensures Traded(events) == 0 && FilledAstray(events) == 0 && forall side :: FilledOn(events, side) == 0
  {
    if events != [] {
      NoFills(events[1..]);
    }
  }

  lemma {:induction false} OneEvent(ev: Event)
    ensures Traded([ev]) == if ev.Trade? then ev.qty else 0
    ensures forall side :: FilledOn([ev], side) == if ev.Filled? && ev.side == side then ev.qty else 0
    ensures FilledAstray([ev]) == if ev.Filled? && !ProperSide(ev.side) then ev.qty else 0
  {
    assert [ev][1..] == [];
  }

  lemma {:induction false} OneFill(taker: Order, f: Fill)
    ensures var e := FillEvents(taker, f);
            && Traded(e) == f.qty
            && (forall side :: FilledOn(e, side) == (if f.maker.side == side then f.qty else 0) + (if taker.side == side then f.qty else 0))
            && FilledAstray(e) == (if ProperSide(f.maker.side) then 0 else f.qty) + (if ProperSide(taker.side) then 0 else f.qty)
  {
    var e := FillEvents(taker, f);
    hide Traded, FilledOn, FilledAstray;
    OneEvent(e[0]);
    OneEvent(e[1]);
    OneEvent(e[2]);
    SumsConcat([e[0]], [e[1]]);
    SumsConcat([e[0]] + [e[1]], [e[2]]);
    assert e == [e[0]] + [e[1]] + [e[2]];
  }

  lemma {:induction false} FillsBalance(taker: Order, fills: seq<Fill>)
    requires forall i :: 0 <= i < |fills| ==> fills[i].qty > 0 && (fills[i].maker.side == BUY <==> taker.side == SELL)
    ensures Balanced(AllFillEvents(taker, fills))
    ensures FilledAstray(AllFillEvents(taker, fills)) >= 0
    ensures FilledAstray(AllFillEvents(taker, fills)) == 0
       <==> (forall i :: 0 <= i < |fills| ==> ProperSide(taker.side) && ProperSide(fills[i].maker.side))
  {
    if fills != [] {
      hide FillEvents;
      FillsBalance(taker, fills[1..]);
      assert forall i :: 0 < i < |fills| ==> fills[i] == fills[1..][i - 1];
      OneFill(taker, fills[0]);
      SumsConcat(FillEvents(taker, fills[0]), AllFillEvents(taker, fills[1..]));
    }
  }

  lemma {:induction false} FillSides(b: Book, cmd: Command)
    requires WellFormed(b) && Acceptable(cmd)
    ensures forall i :: 0 <= i < |MatchOf(b, cmd).fills| ==>
              var f := MatchOf(b, cmd).fills[i];
              f.qty > 0 && (f.maker.side == BUY <==> cmd.side == SELL)
  {
    MatchHasPriority(Opposite(b, cmd.side), cmd.side, cmd.price, cmd.qty);
  }

  // The command makes a trade in which one of the parties has neither side.
  ghost predicate FillsAstray(b: Book, cmd: Command) {
    Acceptable(cmd)
    && var fills := MatchOf(b, cmd).fills;
       exists i :: 0 <= i < |fills| && !(ProperSide(cmd.side) && ProperSide(fills[i].maker.side))
  }

  // The same told from the book before the command: an order of neither side
  // finds any ask, or a buy reaches an ask of neither side. A sell never does.
  ghost predicate TradesAstray(b: Book, cmd: Command) {
    Acceptable(cmd)
    && if cmd.side == SELL then false
       else if cmd.side == BUY then exists j :: 0 <= j < |b.asks| && StrayAskInReach(b, cmd.price, cmd.qty, j)
       else b.asks != []
  }

  predicate StrayAskInReach(b: Book, limit: int, qty: int, j: nat)
    requires j < |b.asks|
  {
    !ProperSide(b.asks[j].side) && b.asks[j].price <= limit && Qty(b.asks[..j], All) < qty
  }

  lemma {:induction false} FillsMakers(b: Book, cmd: Command)
    requires WellFormed(b) && Acceptable(cmd)
    ensures var s, fills := Opposite(b, cmd.side), MatchOf(b, cmd).fills;
            && |fills| <= |s| && (forall i :: 0 <= i < |fills| ==> fills[i].maker == s[i])
            && AllPositive(s) && BestFirst(s, cmd.side == SELL)
  {
    var s := Opposite(b, cmd.side);
    SideOkGrows(s, cmd.side == SELL, b.nextId);
    MatchHasPriority(s, cmd.side, cmd.price, cmd.qty);
  }

  lemma {:induction false} AstrayFromBook(b: Book, cmd: Command)
    requires WellFormed(b)
    ensures FillsAstray(b, cmd) <==> TradesAstray(b, cmd)
  {
    if Acceptable(cmd) {
      FillsMakers(b, cmd);
      var s, fills := Opposite(b, cmd.side), MatchOf(b, cmd).fills;
      forall j | 0 <= j < |s|
        ensures j < |fills| <==> WithinLimit(cmd.side, cmd.price, s[j].price) && Qty(s[..j], All) < cmd.qty
      {
        Reached(s, cmd.side, cmd.price, cmd.qty, j);
      }
      assert s != [] ==> Qty(s[..0], All) == 0;
      if cmd.side == BUY {
        AstrayBuy(b, cmd);
      }
    }
  }

  lemma {:induction false} AstrayBuy(b: Book, cmd: Command)
    requires WellFormed(b) && Acceptable(cmd) && cmd.side == BUY
    ensures FillsAstray(b, cmd) <==> TradesAstray(b, cmd)
  {
    FillsMakers(b, cmd);
    var s, fills := b.asks, MatchOf(b, cmd).fills;
    hide MatchOf, Qty;
    if i :| 0 <= i < |fills| && !ProperSide(fills[i].maker.side) {
      ReachedAsk(b, cmd, i);
      assert StrayAskInReach(b, cmd.price, cmd.qty, i);
    }
    if j :| 0 <= j < |s| && StrayAskInReach(b, cmd.price, cmd.qty, j) {
      ReachedAsk(b, cmd, j);
      assert !ProperSide(fills[j].maker.side);
    }
  }

  lemma {:induction false} ReachedAsk(b: Book, cmd: Command, j: nat)
    requires WellFormed(b) && Acceptable(cmd) && cmd.side == BUY && j < |b.asks|
    ensures j < |MatchOf(b, cmd).fills| <==> b.asks[j].price <= cmd.price && Qty(b.asks[..j], All) < cmd.qty
  {
    FillsMakers(b, cmd);
    Reached(b.asks, BUY, cmd.price, cmd.qty, j);
  }

  lemma {:induction false} ReachedBid(b: Book, cmd: Command, j: nat)
    requires WellFormed(b) && Acceptable(cmd) && cmd.side == SELL && j < |b.bids|
    ensures j < |MatchOf(b, cmd).fills| <==> b.bids[j].price >= cmd.price && Qty(b.bids[..j], All) < cmd.qty
  {
    FillsMakers(b, cmd);
    Reached(b.bids, SELL, cmd.price, cmd.qty, j);
  }

  lemma {:induction false} StepBalance(b: Book, cmd: Command)
    requires WellFormed(b)
    ensures Balanced(Step(b, cmd).events) && FilledAstray(Step(b, cmd).events) >= 0
    ensures FilledAstray(Step(b, cmd).events) == 0 <==> !TradesAstray(b, cmd)
  {
    if Acceptable(cmd) {
      var taker, fills := Taker(b, cmd), MatchOf(b, cmd).fills;
      var accepted, filled, updates := [AcceptedEvent(taker)], AllFillEvents(taker, fills), UpdateEvents(b, cmd);
      FillSides(b, cmd);
      NoFills(accepted);
      NoFills(updates);
      assert Step(b, cmd).events == accepted + filled + updates;
      hide MatchOf, AllFillEvents, UpdateEvents, Traded, FilledOn, FilledAstray;
      FillsBalance(taker, fills);
      SumsConcat(accepted, filled);
      SumsConcat(accepted + filled, updates);
      AstrayFromBook(b, cmd);
    } else {
      NoFills(Step(b, cmd).events);
    }
  }

  ghost predicate TradesAstrayAt(cmds: seq<Command>, k: nat)
    requires k < |cmds|
  {
    TradesAstray(Run(EMPTY, cmds[..k]).book, cmds[k])
  }

  // No command of the run trades astray.
  ghost predicate Straight(cmds: seq<Command>) {
    forall k :: 0 <= k < |cmds| ==> !TradesAstrayAt(cmds, k)
  }

  lemma {:induction false} StraightSnoc(cmds: seq<Command>)
    requires cmds != []
    ensures var n := |cmds| - 1;
            Straight(cmds) <==> Straight(cmds[..n]) && !TradesAstray(Run(EMPTY, cmds[..n]).book, cmds[n])
  {
    var n := |cmds| - 1;
    assert TradesAstrayAt(cmds, n) == TradesAstray(Run(EMPTY, cmds[..n]).book, cmds[n]);
    hide TradesAstrayAt;
    forall k | 0 <= k < n
      ensures TradesAstrayAt(cmds[..n], k) == TradesAstrayAt(cmds, k)
    {
      AstrayBefore(cmds, k);
    }
  }

  lemma {:induction false} RunBalance(cmds: seq<Command>)
    ensures var evs := Run(EMPTY, cmds).events;
            Balanced(evs) && FilledAstray(evs) >= 0 && (FilledAstray(evs) == 0 <==> Straight(cmds))
  {
    if cmds != [] {
      hide Step, TradesAstray, Straight, Balanced, FilledAstray;
      var n := |cmds| - 1;
      var before := Run(EMPTY, cmds[..n]);
      RunBalance(cmds[..n]);
      RunKeepsWellFormed(EMPTY, cmds[..n]);
      StepBalance(before.book, cmds[n]);
      BalancedConcat(before.events, Step(before.book, cmds[n]).events);
      StraightSnoc(cmds);
    }
  }

  lemma {:induction false} AstrayBefore(cmds: seq<Command>, k: nat)
    requires k < |cmds| - 1
    ensures TradesAstrayAt(cmds[..|cmds| - 1], k) == TradesAstrayAt(cmds, k)
  {
    hide TradesAstray, Run;
    assert cmds[..|cmds| - 1][..k] == cmds[..k];
  }

  // Over every run, each trade is reported to both parties, and what buyers were
  // told they bought, what sellers were told they sold and what the tape shows as
  // traded are equal, if and only if no trade went astray.
  lemma {:induction false} BoughtEqualsSoldEqualsTraded(cmds: seq<Command>)
    ensures var evs := Run(EMPTY, cmds).events;
            && Balanced(evs)
            && (FilledOn(evs, BUY) == FilledOn(evs, SELL) == Traded(evs) <==> Straight(cmds))
  {
    RunBalance(cmds);
  }

  // With proper sides no trade goes astray.
  lemma {:induction false} ProperTape(cmds: seq<Command>)
    requires forall k :: 0 <= k < |cmds| && Acceptable(cmds[k]) ==> ProperSide(cmds[k].side)
    ensures var evs := Run(EMPTY, cmds).events;
            FilledOn(evs, BUY) == FilledOn(evs, SELL) == Traded(evs)
  {
    forall k | 0 <= k < |cmds|
      ensures !TradesAstrayAt(cmds, k)
    {
      ProperUntil(cmds, k);
      RunKeepsWellFormed(EMPTY, cmds[..k]);
    }
    BoughtEqualsSoldEqualsTraded(cmds);
  }

  // An order with the null side buys five from the asks, and no buy is reported.
  lemma {:induction false} AstrayExample()
    ensures var cmds := [NewOrder(1, 1, SELL, 100, 5), NewOrder(2, 2, -128, 90, 5)];
            var evs := Run(EMPTY, cmds).events;
            TradesAstrayAt(cmds, 1) && FilledOn(evs, BUY) == 0 && FilledOn(evs, SELL) == 5 && Traded(evs) == 5
  {
    var sell, stray := NewOrder(1, 1, SELL, 100, 5), NewOrder(2, 2, -128, 90, 5);
    var o := Order(1, 1, 1, SELL, 100, 5);
    var cmds := [sell, stray];
    assert cmds[..1] == [sell];
    FirstSell(sell, o);
    var b, first := Run(EMPTY, [sell]).book, Run(EMPTY, [sell]).events;
    assert [o][0] == o && [o][1..] == [] && MatchOf(b, stray).fills == [Fill(o, 5, 0)];
    hide Step, MatchOf;
    OneFillStep(b, stray, Fill(o, 5, 0));
    assert Run(EMPTY, cmds).events == first + Step(b, stray).events;
    SumsConcat(first, Step(b, stray).events);
  }

  // The first sell of a run rests and fills nothing.
  lemma {:induction false} FirstSell(cmd: Command, o: Order)
    requires Acceptable(cmd) && cmd.side == SELL && o == Taker(EMPTY, cmd)
    ensures var out := Run(EMPTY, [cmd]);
            out.book == Book([], [o], 2) && Traded(out.events) == 0 && forall side :: FilledOn(out.events, side) == 0
  {
    assert [cmd][..0] == [] && Run(EMPTY, []) == Outcome(EMPTY, []);
    assert MatchOf(EMPTY, cmd) == Matched([], [], cmd.qty) && Insert([], o) == [o];
    var out := Step(EMPTY, cmd);
    assert Run(EMPTY, [cmd]).events == [] + out.events == out.events;
    NoFills(out.events);
  }

  lemma {:induction false} OneFillStep(b: Book, cmd: Command, f: Fill)
    requires Acceptable(cmd) && MatchOf(b, cmd).fills == [f]
    ensures Traded(Step(b, cmd).events) == f.qty
    ensures forall side :: FilledOn(Step(b, cmd).events, side)
                           == (if f.maker.side == side then f.qty else 0) + (if cmd.side == side then f.qty else 0)
  {
    var taker := Taker(b, cmd);
    var accepted, filled, updates := [AcceptedEvent(taker)], FillEvents(taker, f), UpdateEvents(b, cmd);
    NoFills(accepted);
    NoFills(updates);
    OneFill(taker, f);
    assert AllFillEvents(taker, [f]) == filled by {
      assert [f][0] == f && [f][1..] == [] && AllFillEvents(taker, []) == [];
    }
    assert Step(b, cmd).events == accepted + filled + updates;
    hide Traded, FilledOn, FilledAstray, Step, UpdateEvents, FillEvents;
    SumsConcat(accepted, filled);
    SumsConcat(accepted + filled, updates);
  }

  // --- The reports of one trade ----------------------------------------------

  // A trade is followed at once by the report to its maker and the report to its
  // taker, with the same price and quantity.
  predicate ReportedAt(events: seq<Event>, i: nat)
    requires i < |events| && events[i].Trade?
  {
    && i + 2 < |events| && events[i + 1].Filled? && events[i + 2].Filled?
    && var t, maker, taker := events[i], events[i + 1], events[i + 2];
       && maker.orderId == t.makerOrderId && maker.owner == t.makerOwner
       && taker.orderId == t.takerOrderId && taker.owner == t.takerOwner
       && maker.price == taker.price == t.price && maker.qty == taker.qty == t.qty > 0
  }

  predicate ReportsTrade(events: seq<Event>, i: nat)
    requires i < |events| && events[i].Filled?
  {
    (i >= 1 && events[i - 1].Trade?) || (i >= 2 && events[i - 2].Trade?)
  }

  ghost predicate Paired(events: seq<Event>) {
    && (forall i :: 0 <= i < |events| && events[i].Trade? ==> ReportedAt(events, i))
    && (forall i :: 0 <= i < |events| && events[i].Filled? ==> ReportsTrade(events, i))
  }

  lemma {:induction false} PairedConcat(a: seq<Event>, b: seq<Event>)
    requires Paired(a) && Paired(b)
    ensures Paired(a + b)
  {
    var c := a + b;
    forall i | 0 <= i < |c| && c[i].Trade?
      ensures ReportedAt(c, i)
    {
      assert if i < |a| then ReportedAt(a, i) else ReportedAt(b, i - |a|);
    }
    forall i | 0 <= i < |c| && c[i].Filled?
      ensures ReportsTrade(c, i)
    {
      assert if i < |a| then ReportsTrade(a, i) else ReportsTrade(b, i - |a|);
    }
  }

  lemma {:induction false} FillsPaired(taker: Order, fills: seq<Fill>)
    requires forall i :: 0 <= i < |fills| ==> fills[i].qty > 0
    ensures Paired(AllFillEvents(taker, fills))
  {
    if fills != [] {
      FillsPaired(taker, fills[1..]);
      PairedConcat(FillEvents(taker, fills[0]), AllFillEvents(taker, fills[1..]));
    }
  }

  lemma {:induction false} StepPaired(b: Book, cmd: Command)
    requires WellFormed(b)
    ensures Paired(Step(b, cmd).events)
  {
    if Acceptable(cmd) {
      var taker, fills := Taker(b, cmd), MatchOf(b, cmd).fills;
      var accepted, filled, updates := [AcceptedEvent(taker)], AllFillEvents(taker, fills), UpdateEvents(b, cmd);
      FillSides(b, cmd);
      assert Paired(accepted) && Paired(updates) && Step(b, cmd).events == accepted + filled + updates;
      hide MatchOf, AllFillEvents, UpdateEvents, Paired;
      FillsPaired(taker, fills);
      PairedConcat(accepted, filled);
      PairedConcat(accepted + filled, updates);
    }
  }

  // Over every run, every trade is reported to exactly the two orders it names,
  // at its price and quantity, and there is no fill report without a trade.
  lemma {:induction false} EveryTradeReported(cmds: seq<Command>)
    ensures Paired(Run(EMPTY, cmds).events)
  {
    if cmds != [] {
      hide Step, Paired;
      var n := |cmds| - 1;
      var before := Run(EMPTY, cmds[..n]);
      EveryTradeReported(cmds[..n]);
      RunKeepsWellFormed(EMPTY, cmds[..n]);
      StepPaired(before.book, cmds[n]);
      PairedConcat(before.events, Step(before.book, cmds[n]).events);
    }
  }
}
