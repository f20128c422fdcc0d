/**
What the engine answers, command by command, told from the commands and the book
before them in plain comparisons: the outcome of a new order, which resting
orders it trades with, at what price and for how much, and the outcome of a
cancel.
*/
module Answers {
  import opened Events
  import opened Book
  import opened Matching
  import opened Invariant
  import opened Lifecycle
  import opened Tape

  // --- Trades ----------------------------------------------------------------

  lemma {:induction false} FillEventAt(taker: Order, fills: seq<Fill>, j: nat, r: nat)
    requires j < |fills| && r < 3
    ensures |AllFillEvents(taker, fills)| == 3 * |fills|
    ensures AllFillEvents(taker, fills)[3 * j + r] == FillEvents(taker, fills[j])[r]
  {
    FillEventCount(taker, fills);
    hide FillEvents;
    if j > 0 {
      FillEventAt(taker, fills[1..], j - 1, r);
      var first, rest := FillEvents(taker, fills[0]), AllFillEvents(taker, fills[1..]);
      assert AllFillEvents(taker, fills) == first + rest && |first| == 3 by {
        ThreeEvents(taker, fills[0]);
      }
      assert (first + rest)[3 * j + r] == rest[3 * (j - 1) + r];
    } else {
      ThreeEvents(taker, fills[0]);
    }
  }

  lemma {:induction false} ThreeEvents(taker: Order, f: Fill)
    ensures |FillEvents(taker, f)| == 3
  {
  }

  lemma {:induction false} FillEventCount(taker: Order, fills: seq<Fill>)
    ensures |AllFillEvents(taker, fills)| == 3 * |fills|
  {
    if fills != [] {
      FillEventCount(taker, fills[1..]);
    }
  }

  // The side a new order meets: code 1 sells, every other code meets the asks.
  function Met(b: Book, cmd: Command): seq<Order>
    requires cmd.NewOrder?
  {
    if cmd.side == 1 then b.bids else b.asks
  }

  // The three events of one trade of the new order `id` with the resting `maker`,
  // field by field: at the maker's price, for `fill`, leaving `left` to the taker.
  predicate Traded3(evs: seq<Event>, i: nat, maker: Order, cmd: Command, id: int, fill: int, left: int)
    requires cmd.NewOrder?
  {
    && i + 2 < |evs| && evs[i].Trade? && evs[i + 1].Filled? && evs[i + 2].Filled?
    && evs[i].price == maker.price && evs[i].qty == fill
    && evs[i].makerOrderId == maker.id && evs[i].makerOwner == maker.owner
    && evs[i].takerOrderId == id && evs[i].takerOwner == cmd.owner
    && evs[i + 1].orderId == maker.id && evs[i + 1].clientOrderId == maker.clientOrderId
    && evs[i + 1].owner == maker.owner && evs[i + 1].side == maker.side
    && evs[i + 1].price == maker.price && evs[i + 1].qty == fill && evs[i + 1].remainingQty == maker.qty - fill
    && evs[i + 2].orderId == id && evs[i + 2].clientOrderId == cmd.clientOrderId
    && evs[i + 2].owner == cmd.owner && evs[i + 2].side == cmd.side
    && evs[i + 2].price == maker.price && evs[i + 2].qty == fill && evs[i + 2].remainingQty == left
  }

  // An accepted order's answer: its acceptance, three events per fill, updates.
  lemma {:induction false} AnswerAt(b: Book, cmd: Command, i: nat)
    requires Acceptable(cmd) && i < |Step(b, cmd).events|
    ensures var evs, fills := Step(b, cmd).events, MatchOf(b, cmd).fills;
            && |evs| >= 3 * |fills| + 1
            && (i == 0 ==> evs[i] == AcceptedEvent(Taker(b, cmd)))
            && (0 < i <= 3 * |fills| ==> evs[i] == FillEvents(Taker(b, cmd), fills[(i - 1) / 3])[(i - 1) % 3])
            && (i > 3 * |fills| ==> evs[i].BookUpdate?)
  {
    var taker, fills := Taker(b, cmd), MatchOf(b, cmd).fills;
    var filled, updates := AllFillEvents(taker, fills), UpdateEvents(b, cmd);
    var evs := Step(b, cmd).events;
    assert evs == [AcceptedEvent(taker)] + filled + updates;
    assert forall k :: 0 <= k < |updates| ==> updates[k].BookUpdate?;
    FillEventCount(taker, fills);
    hide Step, MatchOf, AllFillEvents, UpdateEvents, FillEvents;
    if 0 < i <= 3 * |fills| {
      FillEventAt(taker, fills, (i - 1) / 3, (i - 1) % 3);
      assert evs[i] == filled[i - 1];
    } else if i > 3 * |fills| {
      assert evs[i] == updates[i - 1 - |filled|];
    }
  }

  lemma {:induction false} FillTold(b: Book, cmd: Command, j: nat, r: nat)
    requires Acceptable(cmd) && j < |MatchOf(b, cmd).fills| && r < 3
    ensures 3 * j + 1 + r < |Step(b, cmd).events|
    ensures Step(b, cmd).events[3 * j + 1 + r] == FillEvents(Taker(b, cmd), MatchOf(b, cmd).fills[j])[r]
  {
    StepSize(b, cmd);
    hide Step, MatchOf, FillEvents;
    var i := 3 * j + 1 + r;
    assert (i - 1) / 3 == j && (i - 1) % 3 == r;
    AnswerAt(b, cmd, i);
  }

  lemma {:induction false} FillsTold(b: Book, cmd: Command, j: nat)
    requires WellFormed(b) && Acceptable(cmd) && j < |MatchOf(b, cmd).fills|
    ensures 3 * j + 3 < |Step(b, cmd).events|
    ensures var e, evs := FillEvents(Taker(b, cmd), MatchOf(b, cmd).fills[j]), Step(b, cmd).events;
            evs[3 * j + 1] == e[0] && evs[3 * j + 2] == e[1] && evs[3 * j + 3] == e[2]
  {
    hide Step, MatchOf, FillEvents;
    FillTold(b, cmd, j, 0);
    FillTold(b, cmd, j, 1);
    FillTold(b, cmd, j, 2);
  }

  lemma {:induction false} StepSize(b: Book, cmd: Command)
    requires Acceptable(cmd)
    ensures |Step(b, cmd).events| >= 3 * |MatchOf(b, cmd).fills| + 1
  {
    FillEventCount(Taker(b, cmd), MatchOf(b, cmd).fills);
  }

  // Which orders of the side are filled, and with what.
  lemma {:induction false} FillsFromBook(b: Book, cmd: Command, j: nat)
    requires WellFormed(b) && Acceptable(cmd) && j < |Met(b, cmd)|
    ensures var s, fills := Met(b, cmd), MatchOf(b, cmd).fills;
            var wanted := cmd.qty - Qty(s[..j], All);
            var fill := if s[j].qty < wanted then s[j].qty else wanted;
            && (j < |fills| <==> WithinLimit(cmd.side, cmd.price, s[j].price) && wanted > 0)
            && (j < |fills| ==> fills[j] == Fill(s[j], fill, wanted - fill))
  {
    var s := Met(b, cmd);
    FillsMakers(b, cmd);
    MatchHasPriority(s, cmd.side, cmd.price, cmd.qty);
    Reached(s, cmd.side, cmd.price, cmd.qty, j);
    hide Match, Qty, WellFormed;
  }

  // The j-th order of the side trades, if and only if its price is within the
  // limit and less than the new order's quantity stands before it; then its three
  // events are the j-th of the answer.
  lemma {:induction false} TradesInTurn(b: Book, cmd: Command, j: nat)
    requires WellFormed(b) && Acceptable(cmd) && j < |Met(b, cmd)|
    ensures var maker, evs := Met(b, cmd)[j], Step(b, cmd).events;
            var wanted := cmd.qty - Qty(Met(b, cmd)[..j], All);
            var fill := if maker.qty < wanted then maker.qty else wanted;
            if WithinLimit(cmd.side, cmd.price, maker.price) && wanted > 0 then
              Traded3(evs, 3 * j + 1, maker, cmd, b.nextId, fill, wanted - fill)
            else
              forall i :: 3 * j + 1 <= i < |evs| ==> evs[i].BookUpdate?
  {
    hide Step, Match, Qty, WellFormed, WithinLimit;
    FillsFromBook(b, cmd, j);
    if j < |MatchOf(b, cmd).fills| {
      FillsTold(b, cmd, j);
    } else {
      forall i | 3 * j + 1 <= i < |Step(b, cmd).events|
        ensures Step(b, cmd).events[i].BookUpdate?
      {
        AnswerAt(b, cmd, i);
      }
    }
  }

  // There are no other trades.
  lemma {:induction false} EveryTradeHasItsMaker(b: Book, cmd: Command, i: nat) returns (j: nat)
    requires WellFormed(b) && Acceptable(cmd) && i < |Step(b, cmd).events| && Step(b, cmd).events[i].Trade?
    ensures j < |Met(b, cmd)| && i == 3 * j + 1
    ensures WithinLimit(cmd.side, cmd.price, Met(b, cmd)[j].price) && Qty(Met(b, cmd)[..j], All) < cmd.qty
  {
    hide Step, Match, Qty, WellFormed, WithinLimit;
    AnswerAt(b, cmd, i);
    FillsMakers(b, cmd);
    j := (i - 1) / 3;
    FillsFromBook(b, cmd, j);
  }

  // No trade is worse than the order's limit, and every trade is with a resting
  // order of the opposite side, at its price and under its id and owner.
  lemma {:induction false} TradesAtMakerPrice(b: Book, cmd: Command, i: nat)
    requires WellFormed(b) && Acceptable(cmd) && i < |Step(b, cmd).events| && Step(b, cmd).events[i].Trade?
    ensures var ev := Step(b, cmd).events[i];
            && (cmd.side == 0 ==> ev.price <= cmd.price) && (cmd.side == 1 ==> ev.price >= cmd.price)
            && exists o :: o in Met(b, cmd) && o.id == ev.makerOrderId && o.owner == ev.makerOwner && o.price == ev.price
  {
    hide Step, Qty, WellFormed;
    var j := EveryTradeHasItsMaker(b, cmd, i);
    TradesInTurn(b, cmd, j);
    assert Met(b, cmd)[j] in Met(b, cmd);
  }

  // The quantity resting within the limit, wherever on the side.
  function Liquidity(s: seq<Order>, cmd: Command): int
    requires cmd.NewOrder?
  {
    if s == [] then 0 else (if WithinLimit(cmd.side, cmd.price, s[0].price) then s[0].qty else 0) + Liquidity(s[1..], cmd)
  }

  lemma {:induction false} LiquidityCrosses(s: seq<Order>, cmd: Command)
    requires cmd.NewOrder?
    ensures Liquidity(s, cmd) == Qty(s, Crossing(cmd.side, cmd.price))
  {
    if s != [] {
      LiquidityCrosses(s[1..], cmd);
    }
  }

  // A new order trades the smaller of its quantity and everything within its limit.
  lemma {:induction false} TradesAllItCan(b: Book, cmd: Command)
    requires WellFormed(b) && Acceptable(cmd)
    ensures var all := Liquidity(Met(b, cmd), cmd);
            Traded(Step(b, cmd).events) == if all < cmd.qty then all else cmd.qty
  {
    var taker, m := Taker(b, cmd), MatchOf(b, cmd);
    var accepted, filled, updates := [AcceptedEvent(taker)], AllFillEvents(taker, m.fills), UpdateEvents(b, cmd);
    FillsMakers(b, cmd);
    LiquidityCrosses(Met(b, cmd), cmd);
    MaximalFill(Met(b, cmd), cmd.side, cmd.price, cmd.qty);
    NoFills(accepted);
    NoFills(updates);
    assert Step(b, cmd).events == accepted + filled + updates;
    hide Match, AllFillEvents, UpdateEvents, Traded, FilledOn, FilledAstray, Step;
    TradedIsFilled(taker, m.fills);
    SumsConcat(accepted, filled);
    SumsConcat(accepted + filled, updates);
  }

  lemma {:induction false} TradedIsFilled(taker: Order, fills: seq<Fill>)
    ensures Traded(AllFillEvents(taker, fills)) == FillQty(fills)
  {
    if fills != [] {
      hide FillEvents, Traded, FilledOn, FilledAstray;
      TradedIsFilled(taker, fills[1..]);
      Tape.OneFill(taker, fills[0]);
      SumsConcat(FillEvents(taker, fills[0]), AllFillEvents(taker, fills[1..]));
    } else {
      assert Traded([]) == 0;
    }
  }

  // Over runs: the price of a trade is the price its maker was accepted with.
  ghost predicate Introduced(events: seq<Event>, id: int, owner: int, price: int) {
    exists j :: 0 <= j < |events| && events[j].Accepted?
      && events[j].orderId == id && events[j].owner == owner && events[j].price == price
  }

  ghost predicate AllIntroduced(events: seq<Event>, s: seq<Order>) {
    forall i :: 0 <= i < |s| ==> Introduced(events, s[i].id, s[i].owner, s[i].price)
  }

  lemma {:induction false} StaysIntroduced(a: seq<Event>, b: seq<Event>, id: int, owner: int, price: int)
    requires Introduced(a, id, owner, price)
    ensures Introduced(a + b, id, owner, price)
  {
    var j :| 0 <= j < |a| && a[j].Accepted? && a[j].orderId == id && a[j].owner == owner && a[j].price == price;
    assert (a + b)[j] == a[j];
  }

  // An order of the side is this one, up to quantity.
  ghost predicate Rested(s: seq<Order>, o: Order) {
    exists i :: 0 <= i < |s| && s[i].id == o.id && s[i].owner == o.owner && s[i].price == o.price
  }

  lemma {:induction false} InsertMember(s: seq<Order>, x: Order, o: Order)
    requires o in Insert(s, x)
    ensures o in s || o == x
  {
  }

  lemma {:induction false} MatchMember(b: Book, cmd: Command, o: Order)
    requires WellFormed(b) && Acceptable(cmd) && o in MatchOf(b, cmd).opposite
    ensures Rested(Opposite(b, cmd.side), o)
  {
    var s, t := Opposite(b, cmd.side), MatchOf(b, cmd).opposite;
    var dropped := MatchLeavesTail(s, cmd.side, cmd.price, cmd.qty);
    hide Match, WellFormed;
    var i :| 0 <= i < |t| && t[i] == o;
    assert s[i + dropped].id == o.id;
  }

  lemma {:induction false} Member(s: seq<Order>, o: Order)
    requires o in s
    ensures Rested(s, o)
  {
  }

  lemma {:induction false} PlacedFrom(b: Book, cmd: Command, o: Order)
    requires WellFormed(b) && Acceptable(cmd) && (o in Placed(b, cmd).bids || o in Placed(b, cmd).asks)
    ensures Rested(b.bids, o) || Rested(b.asks, o) || (o.id == b.nextId && o.owner == cmd.owner && o.price == cmd.price)
  {
    hide Match, WellFormed, Insert, Rested;
    var m := MatchOf(b, cmd);
    var matched, rest := AfterMatch(b, cmd.side, m.opposite), Taker(b, cmd).(qty := m.left);
    if m.left > 0 && o in Insert(Own(matched, cmd.side), rest) {
      InsertMember(Own(matched, cmd.side), rest, o);
    }
    if o in m.opposite {
      MatchMember(b, cmd, o);
    } else if o in b.bids {
      Member(b.bids, o);
    } else if o in b.asks {
      Member(b.asks, o);
    }
  }

  // What rests after a command rested before it, or is the new order itself.
  lemma {:induction false} WhereFrom(b: Book, cmd: Command, o: Order)
    requires WellFormed(b) && (o in Step(b, cmd).book.bids || o in Step(b, cmd).book.asks)
    ensures Rested(b.bids, o) || Rested(b.asks, o)
         || (Acceptable(cmd) && o.id == b.nextId && o.owner == cmd.owner && o.price == cmd.price)
  {
    if Acceptable(cmd) {
      PlacedFrom(b, cmd, o);
    } else {
      assert o in b.bids || o in b.asks;
      hide Rested;
      if o in b.bids {
        Member(b.bids, o);
      } else {
        Member(b.asks, o);
      }
    }
  }

  lemma {:induction false} RunIntroduces(cmds: seq<Command>)
    ensures var out := Run(EMPTY, cmds);
            AllIntroduced(out.events, out.book.bids) && AllIntroduced(out.events, out.book.asks)
  {
    if cmds != [] {
      var n := |cmds| - 1;
      var before := Run(EMPTY, cmds[..n]);
      var last := Step(before.book, cmds[n]);
      RunIntroduces(cmds[..n]);
      RunKeepsWellFormed(EMPTY, cmds[..n]);
      assert Run(EMPTY, cmds) == Outcome(last.book, before.events + last.events);
      hide Run, Step, WellFormed;
      forall o: Order | o in last.book.bids || o in last.book.asks
        ensures Introduced(before.events + last.events, o.id, o.owner, o.price)
      {
        StepIntroduces(before, cmds[n], o);
      }
    }
  }

  lemma {:induction false} StepIntroduces(before: Outcome, cmd: Command, o: Order)
    requires WellFormed(before.book) && AllIntroduced(before.events, before.book.bids) && AllIntroduced(before.events, before.book.asks)
    requires o in Step(before.book, cmd).book.bids || o in Step(before.book, cmd).book.asks
    ensures Introduced(before.events + Step(before.book, cmd).events, o.id, o.owner, o.price)
  {
    var evs := Step(before.book, cmd).events;
    WhereFrom(before.book, cmd, o);
    if Rested(before.book.bids, o) || Rested(before.book.asks, o) {
      StaysIntroduced(before.events, evs, o.id, o.owner, o.price);
    } else {
      StepSize(before.book, cmd);
      AnswerAt(before.book, cmd, 0);
      assert (before.events + evs)[|before.events|] == evs[0];
    }
  }

  // The events of the k-th command of a run.
  function EventsOf(cmds: seq<Command>, k: nat): seq<Event>
    requires k < |cmds|
  {
    Step(Run(EMPTY, cmds[..k]).book, cmds[k]).events
  }

  // A run's events are those of its commands in turn.
  lemma {:induction false} EventsInTurn(cmds: seq<Command>, k: nat)
    requires k < |cmds|
    ensures Run(EMPTY, cmds[..k + 1]).events == Run(EMPTY, cmds[..k]).events + EventsOf(cmds, k)
  {
    RunSnoc(EMPTY, cmds, k);
  }

  lemma {:induction false} OnlyOrdersTrade(b: Book, cmd: Command, i: nat)
    requires i < |Step(b, cmd).events| && Step(b, cmd).events[i].Trade?
    ensures Acceptable(cmd)
  {
  }

  // Every trade of a run is at the price its maker was accepted with earlier, to
  // the owner it was accepted for, and within the limit of the order that trades.
  lemma {:induction false} TradePriceIsAccepted(cmds: seq<Command>, k: nat, i: nat)
    requires k < |cmds| && i < |EventsOf(cmds, k)| && EventsOf(cmds, k)[i].Trade?
    ensures var ev, cmd := EventsOf(cmds, k)[i], cmds[k];
            && Introduced(Run(EMPTY, cmds[..k]).events, ev.makerOrderId, ev.makerOwner, ev.price)
            && cmd.NewOrder? && ev.takerOwner == cmd.owner
            && (cmd.side == 0 ==> ev.price <= cmd.price) && (cmd.side == 1 ==> ev.price >= cmd.price)
  {
    hide Run, Step, WellFormed, Qty, Introduced;
    var b := Run(EMPTY, cmds[..k]).book;
    RunKeepsWellFormed(EMPTY, cmds[..k]);
    RunIntroduces(cmds[..k]);
    OnlyOrdersTrade(b, cmds[k], i);
    var j := EveryTradeHasItsMaker(b, cmds[k], i);
    TradesInTurn(b, cmds[k], j);
  }

  // --- The answer to a new order ---------------------------------------------

  function Acceptances(events: seq<Event>): nat {
    if events == [] then 0 else Acceptances(events[..|events| - 1]) + if events[|events| - 1].Accepted? then 1 else 0
  }

  lemma {:induction false} AcceptancesConcat(a: seq<Event>, b: seq<Event>)
    ensures Acceptances(a + b) == Acceptances(a) + Acceptances(b)
  {
    if b == [] {
      assert a + b == a;
    } else {
      var n := |b| - 1;
      AcceptancesConcat(a, b[..n]);
      assert (a + b)[..|a| + n] == a + b[..n];
    }
  }

  lemma {:induction false} FirstOnly(events: seq<Event>)
    requires events != [] && forall i :: 0 < i < |events| ==> !events[i].Accepted?
    ensures Acceptances(events) == if events[0].Accepted? then 1 else 0
  {
    if |events| > 1 {
      FirstOnly(events[..|events| - 1]);
    } else {
      assert events[..0] == [];
    }
  }

  // A command is answered once: no acceptance or rejection but the first event.
  lemma {:induction false} AnsweredOnce(b: Book, cmd: Command)
    ensures var evs := Step(b, cmd).events;
            && evs != [] && (forall i :: 0 < i < |evs| ==> !evs[i].Accepted? && !evs[i].Rejected?)
            && (evs[0].Accepted? <==> Acceptable(cmd))
            && Step(b, cmd).book.nextId == b.nextId + if Acceptable(cmd) then 1 else 0
  {
    var evs := Step(b, cmd).events;
    if Acceptable(cmd) {
      StepSize(b, cmd);
      AnswerAt(b, cmd, 0);
      forall i | 0 < i < |evs|
        ensures !evs[i].Accepted? && !evs[i].Rejected?
      {
        AnswerAt(b, cmd, i);
      }
    }
  }

  lemma {:induction false} IdsCountAcceptances(cmds: seq<Command>)
    ensures Run(EMPTY, cmds).book.nextId == 1 + Acceptances(Run(EMPTY, cmds).events)
  {
    if cmds != [] {
      hide Step;
      var n := |cmds| - 1;
      var before := Run(EMPTY, cmds[..n]);
      IdsCountAcceptances(cmds[..n]);
      AnsweredOnce(before.book, cmds[n]);
      FirstOnly(Step(before.book, cmds[n]).events);
      AcceptancesConcat(before.events, Step(before.book, cmds[n]).events);
    }
  }

  // An acceptance that carries the command's own fields.
  predicate Accepts(ev: Event, cmd: Command, id: int)
    requires cmd.NewOrder?
  {
    && ev.Accepted? && ev.orderId == id && ev.clientOrderId == cmd.clientOrderId && ev.owner == cmd.owner
    && ev.side == cmd.side && ev.price == cmd.price && ev.qty == cmd.qty
  }

  // A rejection of a new order: no order id, the command's client id and owner.
  predicate Refuses(ev: Event, cmd: Command, reason: RejectReason)
    requires cmd.NewOrder?
  {
    ev.Rejected? && ev.orderId == 0 && ev.clientOrderId == cmd.clientOrderId && ev.owner == cmd.owner && ev.reason == reason
  }

  // The k-th command of a run, if a new order: with a positive quantity and price
  // it is accepted as it was sent, under the next id; a quantity that is not
  // positive is refused for that alone, and otherwise a price that is not positive.
  lemma {:induction false} OrderAnswered(cmds: seq<Command>, k: nat)
    requires k < |cmds| && cmds[k].NewOrder?
    ensures var evs, cmd := EventsOf(cmds, k), cmds[k];
            && evs != []
            && (Accepts(evs[0], cmd, 1 + Acceptances(Run(EMPTY, cmds[..k]).events)) <==> cmd.qty > 0 && cmd.price > 0)
            && (|evs| == 1 && Refuses(evs[0], cmd, BadQty) <==> cmd.qty <= 0)
            && (|evs| == 1 && Refuses(evs[0], cmd, BadPrice) <==> cmd.qty > 0 && cmd.price <= 0)
            && (forall i :: 0 < i < |evs| ==> !evs[i].Accepted? && !evs[i].Rejected?)
  {
    var b := Run(EMPTY, cmds[..k]).book;
    IdsCountAcceptances(cmds[..k]);
    hide Run;
    AnsweredOnce(b, cmds[k]);
    if Acceptable(cmds[k]) {
      AnswerAt(b, cmds[k], 0);
    }
  }

  // --- The answer to a cancel ------------------------------------------------

  // The k-th command of a run, if a cancel: decided by the history of the order's
  // events, and answered with the terms the order was accepted with.
  lemma {:induction false} CancelAnswered(cmds: seq<Command>, k: nat)
    requires k < |cmds| && cmds[k].Cancel?
    ensures var evs, id, owner := EventsOf(cmds, k), cmds[k].orderId, cmds[k].owner;
            var life := LifeOf(cmds[..k], id);
            if life.Live? && life.terms.owner == owner then
              && |evs| == 2 && evs[0].Canceled? && evs[1].BookUpdate?
              && evs[0].orderId == id && evs[0].clientOrderId == life.terms.clientOrderId && evs[0].owner == owner
              && evs[0].side == life.terms.side && evs[0].price == life.terms.limit
              && evs[0].remainingQty == life.accepted - life.filled
              && evs[1].side == life.terms.side && evs[1].price == life.terms.limit
            else
              && |evs| == 1 && evs[0].Rejected?
              && evs[0].orderId == id && evs[0].clientOrderId == 0 && evs[0].owner == owner
              && evs[0].reason == if life.Live? then NotOwner else UnknownOrder
  {
    var id, owner := cmds[k].orderId, cmds[k].owner;
    var b := Run(EMPTY, cmds[..k]).book;
    CancelDecidedByHistory(cmds[..k], id, owner);
    RunLifecycle(cmds[..k], id);
    RunKeepsWellFormed(EMPTY, cmds[..k]);
    hide Run, LifeOf, Tracks, Qty;
    if 1 <= id < b.nextId {
      assert TermsAgree(LifeOf(cmds[..k], id), b.bids, id) && TermsAgree(LifeOf(cmds[..k], id), b.asks, id);
    }
  }
}
