/**
The life of every order over every run, told by its events alone: accepted
once, then filled step by step, then closed at most once, with nothing after.
Conservation of quantity and the exact outcome of a cancel follow.
*/
module Lifecycle {
  import opened Events
  import opened Book
  import opened Matching
  import opened Invariant

  // What an order is accepted with; every later report repeats it.
  datatype Terms = Terms(clientOrderId: int, owner: int, side: int, limit: int)

  function TermsOf(o: Order): Terms {
    Terms(o.clientOrderId, o.owner, o.side, o.price)
  }

  datatype Life =
    | Unborn
    | Live(terms: Terms, accepted: int, filled: int)
    | Done(accepted: int, filled: int, canceled: int)
    | Broken // an event that the protocol forbids was seen

  // The automaton an order's own events must follow.
  function Advance(st: Life, ev: Event, id: int): Life {
    match ev
    case Accepted(orderId, client, owner, side, price, qty) =>
      if orderId != id then st
      else if st.Unborn? && qty > 0 then Live(Terms(client, owner, side, price), qty, 0)
      else Broken
    case Filled(orderId, client, owner, side, price, qty, remaining) =>
      if orderId != id then st
      else if !st.Live? || st.terms != Terms(client, owner, side, st.terms.limit) then Broken
      else if (side == 0 && price > st.terms.limit) || (side == 1 && price < st.terms.limit) then Broken
      else if qty <= 0 || remaining < 0 then Broken
      else if remaining != st.accepted - st.filled - qty then Broken
      else if remaining == 0 then Done(st.accepted, st.filled + qty, 0)
      else Live(st.terms, st.accepted, st.filled + qty)
    case Canceled(orderId, client, owner, side, price, remaining) =>
      if orderId != id then st
      else if st.Live? && st.terms == Terms(client, owner, side, price) && remaining == st.accepted - st.filled then
        Done(st.accepted, st.filled, remaining)
      else Broken
    case _ => st
  }

  function LifeFrom(st: Life, events: seq<Event>, id: int): Life
    decreases |events|
  {
    if events == [] then st else LifeFrom(Advance(st, events[0], id), events[1..], id)
  }

  lemma {:induction false} LifeConcat(st: Life, a: seq<Event>, b: seq<Event>, id: int)
    ensures LifeFrom(st, a + b, id) == LifeFrom(LifeFrom(st, a, id), b, id)
    decreases |a|
  {
    if a == [] {
      assert a + b == b;
    } else {
      LifeConcat(Advance(st, a[0], id), a[1..], b, id);
      assert (a + b)[1..] == a[1..] + b;
    }
  }

  // --- What a book says about an order ---------------------------------------

  // An order with `qty` left is alive with that remainder; one with nothing
  // left is closed and its quantity fully accounted for.
  predicate Tracks(st: Life, qty: int) {
    if qty > 0 then st.Live? && st.accepted - st.filled == qty
    else qty == 0 && st.Done? && st.accepted == st.filled + st.canceled
  }

  function Resting(b: Book, id: int): int {
    Qty(b.bids, ById(id)) + Qty(b.asks, ById(id))
  }

  ghost predicate TermsAgree(st: Life, s: seq<Order>, id: int) {
    forall i :: 0 <= i < |s| && s[i].id == id ==> st.Live? && st.terms == TermsOf(s[i])
  }

  ghost predicate Agrees(st: Life, b: Book, id: int) {
    if 1 <= id < b.nextId then
      Tracks(st, Resting(b, id)) && TermsAgree(st, b.bids, id) && TermsAgree(st, b.asks, id)
    else st == Unborn
  }

  // --- Fills -----------------------------------------------------------------

  ghost predicate DistinctIds(s: seq<Order>) {
    forall i, j :: 0 <= i < j < |s| ==> s[i].id != s[j].id
  }

  lemma {:induction false} AbsentFromTail(s: seq<Order>, side: int, limit: int, qty: int, id: int)
    requires AllPositive(s) && Qty(s, ById(id)) == 0
    ensures Qty(Match(s, side, limit, qty).opposite, ById(id)) == 0
  {
    QtyNonNegative(s, ById(id));
    var dropped := MatchLeavesTail(s, side, limit, qty);
    var t := Match(s, side, limit, qty).opposite;
    QtyNonNegative(t, ById(id));
    assert forall i :: 0 <= i < |t| ==> t[i].id == s[i + dropped].id && !Hits(ById(id), s[i + dropped]);
  }

  lemma {:induction false} HeadId(s: seq<Order>)
    requires s != [] && AllPositive(s) && DistinctIds(s)
    ensures Qty(s[1..], ById(s[0].id)) == 0
  {
    QtyNonNegative(s[1..], ById(s[0].id));
    assert forall i :: 0 <= i < |s[1..]| ==> s[1..][i] == s[i + 1];
  }

  // Unfolds the three events of one fill.
  lemma {:induction false} OneFill(st: Life, taker: Order, f: Fill, id: int) returns (after: Life)
    ensures after == LifeFrom(st, FillEvents(taker, f), id)
    ensures after == Advance(Advance(st, FillEvents(taker, f)[1], id), FillEvents(taker, f)[2], id)
  {
    var e := FillEvents(taker, f);
    assert e[1..] == [e[1], e[2]] && e[1..][1..] == [e[2]];
    assert LifeFrom(Advance(Advance(st, e[1], id), e[2], id), [e[2]][1..], id) == Advance(Advance(st, e[1], id), e[2], id);
    assert LifeFrom(st, e, id) == LifeFrom(st, e[1..], id);
    assert LifeFrom(st, e[1..], id) == LifeFrom(Advance(st, e[1], id), e[1..][1..], id);
    after := Advance(Advance(st, e[1], id), e[2], id);
  }

  lemma {:induction false} MakerFill(st: Life, taker: Order, f: Fill, id: int) returns (mid: Life)
    requires id != taker.id
    requires f.maker.id == id ==> st.Live? && Tracks(st, f.maker.qty) && st.terms == TermsOf(f.maker) && 0 < f.qty <= f.maker.qty
    ensures mid == LifeFrom(st, FillEvents(taker, f), id)
    ensures if f.maker.id == id then Tracks(mid, f.maker.qty - f.qty) else mid == st
  {
    mid := OneFill(st, taker, f, id);
  }

  // A maker's remaining quantity in the book is what its fills report.
  lemma {:induction false} FillsTrackMaker(s: seq<Order>, taker: Order, qty: int, st: Life, id: int)
    requires AllPositive(s) && DistinctIds(s)
    requires id != taker.id
    requires Qty(s, ById(id)) > 0 ==> Tracks(st, Qty(s, ById(id)))
    requires TermsAgree(st, s, id)
    ensures var m := Match(s, taker.side, taker.price, qty);
            var after := LifeFrom(st, AllFillEvents(taker, m.fills), id);
            if Qty(s, ById(id)) > 0 then Tracks(after, Qty(m.opposite, ById(id))) else after == st
  {
    if qty <= 0 || s == [] || !Crosses(taker.side, taker.price, s[0].price) {
    } else {
      hide Advance, FillEvents, TermsOf, Crosses, Tracks;
      QtyNonNegative(s[1..], ById(id));
      HeadId(s);
      var m := Match(s, taker.side, taker.price, qty);
      LifeConcat(st, FillEvents(taker, m.fills[0]), AllFillEvents(taker, m.fills[1..]), id);
      var mid := MakerFill(st, taker, m.fills[0], id);
      if qty < s[0].qty {
        assert m.fills[1..] == [] && m.opposite[1..] == s[1..];
      } else {
        assert m.fills[1..] == Match(s[1..], taker.side, taker.price, qty - s[0].qty).fills;
        if s[0].id == id {
          AbsentFromTail(s[1..], taker.side, taker.price, qty - s[0].qty, id);
        }
        assert TermsAgree(mid, s[1..], id) by {
          assert forall i :: 0 <= i < |s[1..]| ==> s[1..][i] == s[i + 1];
        }
        FillsTrackMaker(s[1..], taker, qty - s[0].qty, mid, id);
      }
    }
  }

  // The taker's own fills count its quantity down to what is left of it.
  lemma {:induction false} FillsTrackTaker(s: seq<Order>, taker: Order, qty: int, st: Life)
    requires AllPositive(s)
    requires forall i :: 0 <= i < |s| ==> s[i].id != taker.id
    requires qty > 0 && Tracks(st, qty) && st.terms == TermsOf(taker)
    ensures var m := Match(s, taker.side, taker.price, qty);
            Tracks(LifeFrom(st, AllFillEvents(taker, m.fills), taker.id), m.left)
  {
    if s == [] || !Crosses(taker.side, taker.price, s[0].price) {
    } else {
      var m := Match(s, taker.side, taker.price, qty);
      LifeConcat(st, FillEvents(taker, m.fills[0]), AllFillEvents(taker, m.fills[1..]), taker.id);
      var mid := OneFill(st, taker, m.fills[0], taker.id);
      if qty < s[0].qty {
        assert m.fills[1..] == [];
      } else {
        assert m.fills[1..] == Match(s[1..], taker.side, taker.price, qty - s[0].qty).fills;
        if qty > s[0].qty {
          FillsTrackTaker(s[1..], taker, qty - s[0].qty, mid);
        }
      }
    }
  }

  lemma {:induction false} UpdatesAreSilent(st: Life, events: seq<Event>, id: int)
    requires forall i :: 0 <= i < |events| ==> events[i].BookUpdate?
    ensures LifeFrom(st, events, id) == st
  {
    if events != [] {
      UpdatesAreSilent(st, events[1..], id);
    }
  }

  // Owner, client id, side and limit are fixed at acceptance.
  lemma {:induction false} TermsAreFixed(st: Life, events: seq<Event>, id: int)
    requires st.Live? && LifeFrom(st, events, id).Live?
    ensures LifeFrom(st, events, id).terms == st.terms
    decreases |events|
  {
    if events != [] {
      ClosedForGood(Advance(st, events[0], id), events[1..], id);
      TermsAreFixed(Advance(st, events[0], id), events[1..], id);
    }
  }

  // Nothing follows the end of an order.
  lemma {:induction false} ClosedForGood(st: Life, events: seq<Event>, id: int)
    ensures st.Done? || st.Broken? ==> var after := LifeFrom(st, events, id); after == st || after.Broken?
    decreases |events|
  {
    if events != [] {
      ClosedForGood(Advance(st, events[0], id), events[1..], id);
    }
  }

  // --- One command -----------------------------------------------------------

  lemma {:induction false} PlaceResting(b: Book, cmd: Command, id: int)
    requires WellFormed(b) && Acceptable(cmd)
    ensures var m := MatchOf(b, cmd);
            && Resting(Placed(b, cmd), id)
               == Qty(m.opposite, ById(id)) + (if cmd.side == SELL then Qty(b.asks, ById(id)) else Qty(b.bids, ById(id)))
                  + (if id == b.nextId then m.left else 0)
  {
    var m := MatchOf(b, cmd);
    MatchLeftBound(b, cmd);
    var matched := AfterMatch(b, cmd.side, m.opposite);
    if m.left > 0 {
      QtyInsert(Own(matched, cmd.side), Taker(b, cmd).(qty := m.left), ById(id));
    }
  }

  lemma {:induction false} Newcomer(b: Book, id: int)
    requires WellFormed(b) && !(1 <= id < b.nextId)
    ensures Qty(b.bids, ById(id)) == 0 && Qty(b.asks, ById(id)) == 0
  {
    QtyNonNegative(b.bids, ById(id));
    QtyNonNegative(b.asks, ById(id));
  }

  lemma {:induction false} OneSideOnly(b: Book, id: int)
    requires WellFormed(b)
    ensures Qty(b.bids, ById(id)) >= 0 && Qty(b.asks, ById(id)) >= 0
    ensures Qty(b.bids, ById(id)) == 0 || Qty(b.asks, ById(id)) == 0
  {
    QtyNonNegative(b.bids, ById(id));
    QtyNonNegative(b.asks, ById(id));
  }

  // The state an order reaches through the events of a placed order.
  function AfterPlace(b: Book, cmd: Command, st: Life, id: int): Life
    requires cmd.NewOrder?
  {
    LifeFrom(Advance(st, AcceptedEvent(Taker(b, cmd)), id), AllFillEvents(Taker(b, cmd), MatchOf(b, cmd).fills), id)
  }

  lemma {:induction false} PlaceLife(b: Book, cmd: Command, st: Life, id: int)
    requires Acceptable(cmd)
    ensures LifeFrom(st, PlaceOrder(b, cmd).events, id) == AfterPlace(b, cmd, st, id)
  {
    var taker := Taker(b, cmd);
    var fills := AllFillEvents(taker, MatchOf(b, cmd).fills);
    var ups := UpdateEvents(b, cmd);
    var accepted := AcceptedEvent(taker);
    assert [accepted] + fills + ups == [accepted] + (fills + ups);
    assert ([accepted] + (fills + ups))[1..] == fills + ups;
    LifeConcat(Advance(st, accepted, id), fills, ups, id);
    UpdatesAreSilent(AfterPlace(b, cmd, st, id), ups, id);
  }

  // Tracking of a present order through a placed order, seen from the side it is on.
  lemma {:induction false} PlaceTracksOld(b: Book, cmd: Command, st: Life, id: int)
    requires WellFormed(b) && Acceptable(cmd) && 1 <= id < b.nextId
    requires Agrees(st, b, id)
    ensures Tracks(AfterPlace(b, cmd, st, id), Resting(Placed(b, cmd), id))
  {
    var s := Opposite(b, cmd.side);
    OneSideOnly(b, id);
    FillsTrackMaker(s, Taker(b, cmd), cmd.qty, st, id);
    PlaceResting(b, cmd, id);
    if Qty(s, ById(id)) == 0 {
      AbsentFromTail(s, cmd.side, cmd.price, cmd.qty, id);
    }
  }

  lemma {:induction false} PlaceTracksNew(b: Book, cmd: Command)
    requires WellFormed(b) && Acceptable(cmd)
    ensures Tracks(AfterPlace(b, cmd, Unborn, b.nextId), Resting(Placed(b, cmd), b.nextId))
    ensures var st := AfterPlace(b, cmd, Unborn, b.nextId); st.Live? ==> st.terms == TermsOf(Taker(b, cmd))
  {
    var s := Opposite(b, cmd.side);
    var born := Advance(Unborn, AcceptedEvent(Taker(b, cmd)), b.nextId);
    FillsTrackTaker(s, Taker(b, cmd), cmd.qty, born);
    PlaceResting(b, cmd, b.nextId);
    Newcomer(b, b.nextId);
    AbsentFromTail(s, cmd.side, cmd.price, cmd.qty, b.nextId);
    if AfterPlace(b, cmd, Unborn, b.nextId).Live? {
      TermsAreFixed(born, AllFillEvents(Taker(b, cmd), MatchOf(b, cmd).fills), b.nextId);
    }
  }

  ghost predicate AcceptedAs(s: seq<Order>, id: int, terms: Terms) {
    forall i :: 0 <= i < |s| && s[i].id == id ==> TermsOf(s[i]) == terms
  }

  lemma {:induction false} InsertTerms(s: seq<Order>, o: Order, id: int, terms: Terms)
    requires AcceptedAs(s, id, terms) && (o.id == id ==> TermsOf(o) == terms)
    ensures AcceptedAs(Insert(s, o), id, terms)
  {
    var k := RestPosition(s, o.price, o.side == BUY);
    var t := Insert(s, o);
    assert forall i :: 0 <= i < |t| ==> t[i] == if i < k then s[i] else if i == k then o else s[i - 1];
  }

  lemma {:induction false} PlaceTerms(b: Book, cmd: Command, id: int, terms: Terms)
    requires WellFormed(b) && Acceptable(cmd)
    requires AcceptedAs(b.bids, id, terms) && AcceptedAs(b.asks, id, terms)
    requires id == b.nextId ==> TermsOf(Taker(b, cmd)) == terms
    ensures AcceptedAs(Placed(b, cmd).bids, id, terms) && AcceptedAs(Placed(b, cmd).asks, id, terms)
  {
    var m := MatchOf(b, cmd);
    var dropped := MatchLeavesTail(Opposite(b, cmd.side), cmd.side, cmd.price, cmd.qty);
    assert AcceptedAs(m.opposite, id, terms);
    if m.left > 0 {
      InsertTerms(Own(AfterMatch(b, cmd.side, m.opposite), cmd.side), Taker(b, cmd).(qty := m.left), id, terms);
    }
  }

  lemma {:induction false} PlaceTermsAgree(b: Book, cmd: Command, st: Life, id: int)
    requires WellFormed(b) && Acceptable(cmd) && 1 <= id <= b.nextId
    requires Agrees(st, b, id)
    requires Tracks(AfterPlace(b, cmd, st, id), Resting(Placed(b, cmd), id))
    requires id == b.nextId ==> var after := AfterPlace(b, cmd, st, id); after.Live? ==> after.terms == TermsOf(Taker(b, cmd))
    ensures TermsAgree(AfterPlace(b, cmd, st, id), Placed(b, cmd).bids, id)
    ensures TermsAgree(AfterPlace(b, cmd, st, id), Placed(b, cmd).asks, id)
  {
    var after := AfterPlace(b, cmd, st, id);
    var terms := if id == b.nextId then TermsOf(Taker(b, cmd)) else if st.Live? then st.terms else Terms(0, 0, 0, 0);
    PlaceTerms(b, cmd, id, terms);
    PlaceKeepsWellFormed(b, cmd);
    QtyNonNegative(Placed(b, cmd).bids, ById(id));
    QtyNonNegative(Placed(b, cmd).asks, ById(id));
    if after.Live? && id < b.nextId {
      ClosedForGood(st, AllFillEvents(Taker(b, cmd), MatchOf(b, cmd).fills), id);
      TermsAreFixed(st, AllFillEvents(Taker(b, cmd), MatchOf(b, cmd).fills), id);
    }
    if !after.Live? {
      assert Qty(Placed(b, cmd).bids, ById(id)) == 0 && Qty(Placed(b, cmd).asks, ById(id)) == 0;
    }
    forall s: seq<Order>, i | (s == Placed(b, cmd).bids || s == Placed(b, cmd).asks) && 0 <= i < |s| && s[i].id == id
      ensures after.Live? && after.terms == TermsOf(s[i])
    {
      assert Hits(ById(id), s[i]);
    }
  }

  lemma {:induction false} PlaceAgrees(b: Book, cmd: Command, st: Life, id: int)
    requires WellFormed(b) && Acceptable(cmd) && Agrees(st, b, id)
    ensures Agrees(LifeFrom(st, PlaceOrder(b, cmd).events, id), Placed(b, cmd), id)
  {
    PlaceLife(b, cmd, st, id);
    if 1 <= id < b.nextId {
      PlaceTracksOld(b, cmd, st, id);
      PlaceTermsAgree(b, cmd, st, id);
    } else if id == b.nextId {
      PlaceTracksNew(b, cmd);
      PlaceTermsAgree(b, cmd, st, id);
    } else {
      Newcomer(b, id);
      QtyNonNegative(Opposite(b, cmd.side), ById(id));
      FillsTrackMaker(Opposite(b, cmd.side), Taker(b, cmd), cmd.qty, st, id);
    }
  }

  lemma {:induction false} QtyOfId(s: seq<Order>, k: nat)
    requires AllPositive(s) && DistinctIds(s) && k < |s|
    ensures Qty(s, ById(s[k].id)) == s[k].qty && Qty(Without(s, k), ById(s[k].id)) == 0
  {
    var t := Without(s, k);
    QtyWithout(s, k, ById(s[k].id));
    assert forall i :: 0 <= i < |t| ==> t[i] == if i < k then s[i] else s[i + 1];
    QtyNonNegative(t, ById(s[k].id));
  }

  lemma {:induction false} NotFound(s: seq<Order>, id: int)
    requires AllPositive(s)
    ensures Find(s, id) == |s| <==> Qty(s, ById(id)) == 0
  {
    QtyNonNegative(s, ById(id));
    if Find(s, id) < |s| {
      assert Hits(ById(id), s[Find(s, id)]);
    }
  }

  // Removing order k of a side leaves every other order tracked, and closes k.
  lemma {:induction false} CancelSide(s: seq<Order>, k: nat, st: Life, id: int)
    requires AllPositive(s) && DistinctIds(s) && k < |s|
    requires TermsAgree(st, s, id)
    ensures id != s[k].id ==> Qty(Without(s, k), ById(id)) == Qty(s, ById(id)) && TermsAgree(st, Without(s, k), id)
    ensures id == s[k].id ==> Qty(Without(s, k), ById(id)) == 0 && Qty(s, ById(id)) == s[k].qty
    ensures id == s[k].id ==> forall i :: 0 <= i < |Without(s, k)| ==> Without(s, k)[i].id != id
  {
    QtyWithout(s, k, ById(id));
    QtyOfId(s, k);
    var t := Without(s, k);
    assert forall i :: 0 <= i < |t| ==> t[i] == if i < k then s[i] else s[i + 1];
  }

  lemma {:induction false} CancelLife(o: Order, left: seq<Order>, st: Life, id: int)
    ensures LifeFrom(st, CancelEvents(o, left), id) == Advance(st, CancelEvents(o, left)[0], id)
  {
    var e := CancelEvents(o, left);
    assert e[1..] == [e[1]];
    UpdatesAreSilent(Advance(st, e[0], id), e[1..], id);
  }

  // One removal, with `other` the side it does not touch.
  lemma {:induction false} CancelTracks(s: seq<Order>, k: nat, other: seq<Order>, st: Life, id: int)
    requires AllPositive(s) && DistinctIds(s) && k < |s|
    requires AllPositive(other) && forall i :: 0 <= i < |other| ==> other[i].id != s[k].id
    requires Tracks(st, Qty(s, ById(id)) + Qty(other, ById(id)))
    requires TermsAgree(st, s, id) && TermsAgree(st, other, id)
    ensures var after := LifeFrom(st, CancelEvents(s[k], Without(s, k)), id);
            && Tracks(after, Qty(Without(s, k), ById(id)) + Qty(other, ById(id)))
            && TermsAgree(after, Without(s, k), id) && TermsAgree(after, other, id)
  {
    CancelSide(s, k, st, id);
    CancelLife(s[k], Without(s, k), st, id);
    QtyNonNegative(other, ById(id));
  }

  lemma {:induction false} CancelAgrees(b: Book, target: int, owner: int, st: Life, id: int)
    requires WellFormed(b) && Agrees(st, b, id)
    ensures var out := CancelOrder(b, target, owner); Agrees(LifeFrom(st, out.events, id), out.book, id)
  {
    var i, j := Find(b.bids, target), Find(b.asks, target);
    var out := CancelOrder(b, target, owner);
    if out.events[0].Rejected? {
      assert LifeFrom(st, out.events, id) == st;
    } else if 1 <= id < b.nextId {
      if i < |b.bids| {
        CancelTracks(b.bids, i, b.asks, st, id);
      } else {
        CancelTracks(b.asks, j, b.bids, st, id);
      }
    } else if i < |b.bids| {
      CancelLife(b.bids[i], out.book.bids, st, id);
    } else {
      CancelLife(b.asks[j], out.book.asks, st, id);
    }
  }

  lemma {:induction false} StepAgrees(b: Book, cmd: Command, st: Life, id: int)
    requires WellFormed(b) && Agrees(st, b, id)
    ensures Agrees(LifeFrom(st, Step(b, cmd).events, id), Step(b, cmd).book, id)
  {
    if Acceptable(cmd) {
      PlaceAgrees(b, cmd, st, id);
    } else if cmd.Cancel? {
      CancelAgrees(b, cmd.orderId, cmd.owner, st, id);
    } else {
      assert LifeFrom(st, Step(b, cmd).events, id) == st;
    }
  }

  // --- Whole runs ------------------------------------------------------------

  function LifeOf(cmds: seq<Command>, id: int): Life {
    LifeFrom(Unborn, Run(EMPTY, cmds).events, id)
  }

  // Over every run and for every id, the events obey the protocol (never
  // `Broken`) and tell exactly what the book holds: alive with the resting
  // quantity, closed and fully accounted for, or not yet issued.
  lemma {:induction false} RunLifecycle(cmds: seq<Command>, id: int)
    ensures Agrees(LifeOf(cmds, id), Run(EMPTY, cmds).book, id)
    ensures !LifeOf(cmds, id).Broken?
  {
    if cmds != [] {
      var n := |cmds| - 1;
      RunLifecycle(cmds[..n], id);
      RunKeepsWellFormed(EMPTY, cmds[..n]);
      var before := Run(EMPTY, cmds[..n]);
      StepAgrees(before.book, cmds[n], LifeOf(cmds[..n], id), id);
      LifeConcat(Unborn, before.events, Step(before.book, cmds[n]).events, id);
    }
  }

  // A cancel is decided by the order's history alone: it succeeds exactly when
  // the order is alive and the requester is the owner it was accepted for.
  lemma {:induction false} CancelDecidedByHistory(cmds: seq<Command>, id: int, owner: int)
    ensures var ev := CancelOrder(Run(EMPTY, cmds).book, id, owner).events[0];
            var life := LifeOf(cmds, id);
            && (ev.Canceled? <==> life.Live? && life.terms.owner == owner)
            && (ev == Rejected(id, 0, owner, UnknownOrder) <==> !life.Live?)
            && (ev == Rejected(id, 0, owner, NotOwner) <==> life.Live? && life.terms.owner != owner)
            && (ev.Canceled? ==> ev.orderId == id && ev.remainingQty == life.accepted - life.filled)
  {
    var b := Run(EMPTY, cmds).book;
    RunKeepsWellFormed(EMPTY, cmds);
    RunLifecycle(cmds, id);
    NotFound(b.bids, id);
    NotFound(b.asks, id);
    OneSideOnly(b, id);
    Newcomer'(b, id);
    if Find(b.bids, id) < |b.bids| {
      QtyOfId(b.bids, Find(b.bids, id));
    } else if Find(b.asks, id) < |b.asks| {
      QtyOfId(b.asks, Find(b.asks, id));
    }
  }

  lemma {:induction false} Newcomer'(b: Book, id: int)
    requires WellFormed(b)
    ensures !(1 <= id < b.nextId) ==> Resting(b, id) == 0
  {
    if !(1 <= id < b.nextId) {
      Newcomer(b, id);
    }
  }

  // --- Conservation ----------------------------------------------------------

  datatype Ledger = Ledger(accepted: int, filled: int, canceled: int)

  // Plain sums over the event stream, with no protocol behind them.
  function LedgerOf(events: seq<Event>, id: int): Ledger {
    if events == [] then Ledger(0, 0, 0)
    else
      var rest := LedgerOf(events[1..], id);
      match events[0]
      case Accepted(orderId, _, _, _, _, qty) => if orderId == id then rest.(accepted := rest.accepted + qty) else rest
      case Filled(orderId, _, _, _, _, qty, _) => if orderId == id then rest.(filled := rest.filled + qty) else rest
      case Canceled(orderId, _, _, _, _, qty) => if orderId == id then rest.(canceled := rest.canceled + qty) else rest
      case _ => rest
  }

  function Books(st: Life): Ledger {
    match st
    case Live(_, accepted, filled) => Ledger(accepted, filled, 0)
    case Done(accepted, filled, canceled) => Ledger(accepted, filled, canceled)
    case _ => Ledger(0, 0, 0)
  }

  lemma {:induction false} LifeKeepsLedger(st: Life, events: seq<Event>, id: int)
    requires !LifeFrom(st, events, id).Broken?
    ensures var l := LedgerOf(events, id);
            var before, after := Books(st), Books(LifeFrom(st, events, id));
            after == Ledger(before.accepted + l.accepted, before.filled + l.filled, before.canceled + l.canceled)
    decreases |events|
  {
    if events != [] {
      ClosedForGood(Advance(st, events[0], id), events[1..], id);
      LifeKeepsLedger(Advance(st, events[0], id), events[1..], id);
    }
  }

  // Over every run, each order's accepted quantity is the sum of its fills, its
  // canceled quantity and what still rests.
  lemma {:induction false} OrderConservation(cmds: seq<Command>, id: int)
    ensures var out := Run(EMPTY, cmds);
            var l := LedgerOf(out.events, id);
            l.accepted == l.filled + l.canceled + Resting(out.book, id)
  {
    RunLifecycle(cmds, id);
    RunKeepsWellFormed(EMPTY, cmds);
    LifeKeepsLedger(Unborn, Run(EMPTY, cmds).events, id);
    OneSideOnly(Run(EMPTY, cmds).book, id);
    Newcomer'(Run(EMPTY, cmds).book, id);
  }
}
