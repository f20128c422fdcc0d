/**
The representation invariant of the reference book, kept by every command and
hence true after every run, and the exact condition under which the book stays
uncrossed.
*/
module Invariant {
  import opened Events
  import opened Book
  import opened Matching

  // --- The invariant ---------------------------------------------------------

  predicate Prior(desc: bool, a: Order, b: Order) {
    Ahead(desc, a.price, b.price) || (a.price == b.price && a.id < b.id)
  }

  predicate OrderOk(o: Order, buy: bool, nextId: int) {
    o.qty > 0 && o.price > 0 && 1 <= o.id < nextId && (o.side == BUY) == buy
  }

  ghost predicate SideOk(s: seq<Order>, buy: bool, nextId: int) {
    && (forall i :: 0 <= i < |s| ==> OrderOk(s[i], buy, nextId))
    && (forall i, j :: 0 <= i < j < |s| ==> Prior(buy, s[i], s[j]) && s[i].id != s[j].id)
  }

  ghost predicate WellFormed(b: Book) {
    && b.nextId >= 1
    && SideOk(b.bids, true, b.nextId)
    && SideOk(b.asks, false, b.nextId)
    && (forall i, j :: 0 <= i < |b.bids| && 0 <= j < |b.asks| ==> b.bids[i].id != b.asks[j].id)
  }

  // --- Preservation ----------------------------------------------------------

  // After matching, position i holds what position i + dropped held, possibly
  // with a smaller quantity.
  lemma {:induction false} MatchLeavesTail(s: seq<Order>, side: int, limit: int, qty: int) returns (dropped: nat)
    requires AllPositive(s)
    ensures var t := Match(s, side, limit, qty).opposite;
            && |t| + dropped == |s|
            && AllPositive(t)
            && forall i :: 0 <= i < |t| ==> t[i] == s[i + dropped].(qty := t[i].qty)
  {
    hide Match, TakesInTurn, Exhausts;
    var m := Match(s, side, limit, qty);
    MatchHasPriority(s, side, limit, qty);
    dropped := |s| - |m.opposite|;
  }

  lemma {:induction false} MatchKeepsSide(s: seq<Order>, side: int, limit: int, qty: int, buy: bool, nextId: int)
    requires SideOk(s, buy, nextId)
    ensures SideOk(Match(s, side, limit, qty).opposite, buy, nextId)
  {
    var dropped := MatchLeavesTail(s, side, limit, qty);
  }

  lemma {:induction false} InsertKeepsSide(s: seq<Order>, o: Order, nextId: int)
    requires SideOk(s, o.side == BUY, nextId)
    requires OrderOk(o, o.side == BUY, nextId + 1) && o.id == nextId
    ensures SideOk(Insert(s, o), o.side == BUY, nextId + 1)
  {
    var buy := o.side == BUY;
    var k := RestPosition(s, o.price, buy);
    var t := Insert(s, o);
    forall i | 0 <= i < |s|
      ensures i < k ==> Prior(buy, s[i], o)
      ensures i >= k ==> Prior(buy, o, s[i])
    {
      if i > k {
        assert Prior(buy, s[k], s[i]);
      }
    }
    assert forall i :: 0 <= i < |t| ==> t[i] == if i < k then s[i] else if i == k then o else s[i - 1];
  }

  lemma {:induction false} SideOkGrows(s: seq<Order>, buy: bool, nextId: int)
    requires SideOk(s, buy, nextId)
    ensures SideOk(s, buy, nextId + 1) && AllPositive(s) && BestFirst(s, buy)
  {
  }

  lemma {:induction false} MatchKeepsWellFormed(b: Book, cmd: Command)
    requires WellFormed(b) && Acceptable(cmd)
    ensures var matched := AfterMatch(b, cmd.side, MatchOf(b, cmd).opposite);
            WellFormed(matched) && WellFormed(matched.(nextId := b.nextId))
  {
    var s := Opposite(b, cmd.side);
    SideOkGrows(b.bids, true, b.nextId);
    SideOkGrows(b.asks, false, b.nextId);
    MatchKeepsSide(s, cmd.side, cmd.price, cmd.qty, cmd.side == SELL, b.nextId);
    SideOkGrows(MatchOf(b, cmd).opposite, cmd.side == SELL, b.nextId);
    var dropped := MatchLeavesTail(s, cmd.side, cmd.price, cmd.qty);
  }

  lemma {:induction false} RestKeepsWellFormed(b: Book, o: Order)
    requires WellFormed(b)
    requires OrderOk(o, o.side == BUY, b.nextId + 1) && o.id == b.nextId
    ensures WellFormed(Rest(b.(nextId := b.nextId + 1), o))
  {
    var own := Own(b, o.side);
    SideOkGrows(b.bids, true, b.nextId);
    SideOkGrows(b.asks, false, b.nextId);
    InsertKeepsSide(own, o, b.nextId);
    var k := RestPosition(own, o.price, o.side == BUY);
    var t := Insert(own, o);
    assert forall i :: 0 <= i < |t| ==> t[i] == if i < k then own[i] else if i == k then o else own[i - 1];
  }

  lemma {:induction false} PlaceKeepsWellFormed(b: Book, cmd: Command)
    requires WellFormed(b) && Acceptable(cmd)
    ensures WellFormed(Placed(b, cmd))
  {
    var m := MatchOf(b, cmd);
    var matched := AfterMatch(b, cmd.side, m.opposite);
    MatchKeepsWellFormed(b, cmd);
    if m.left > 0 {
      RestKeepsWellFormed(matched.(nextId := b.nextId), Taker(b, cmd).(qty := m.left));
    }
  }

  lemma {:induction false} MatchLeftBound(b: Book, cmd: Command)
    requires WellFormed(b) && Acceptable(cmd)
    ensures 0 <= MatchOf(b, cmd).left <= cmd.qty
  {
    var s := Opposite(b, cmd.side);
    MaximalFill(s, cmd.side, cmd.price, cmd.qty);
    QtyNonNegative(s, Crossing(cmd.side, cmd.price));
  }

  lemma {:induction false} WithoutKeepsSide(s: seq<Order>, k: nat, buy: bool, nextId: int)
    requires SideOk(s, buy, nextId) && k < |s|
    ensures SideOk(Without(s, k), buy, nextId)
  {
    var t := Without(s, k);
    assert forall i :: 0 <= i < |t| ==> t[i] == if i < k then s[i] else s[i + 1];
  }

  lemma {:induction false} StepKeepsWellFormed(b: Book, cmd: Command)
    requires WellFormed(b)
    ensures WellFormed(Step(b, cmd).book)
  {
    match cmd
    case NewOrder(_, _, _, _, _) =>
      if Acceptable(cmd) {
        PlaceKeepsWellFormed(b, cmd);
      }
    case Cancel(id, owner) =>
      var i, j := Find(b.bids, id), Find(b.asks, id);
      if i < |b.bids| {
        WithoutKeepsSide(b.bids, i, true, b.nextId);
      } else if j < |b.asks| {
        WithoutKeepsSide(b.asks, j, false, b.nextId);
      }
  }

  lemma {:induction false} RunKeepsWellFormed(b: Book, cmds: seq<Command>)
    requires WellFormed(b)
    ensures WellFormed(Run(b, cmds).book)
  {
    if cmds != [] {
      var before := cmds[..|cmds| - 1];
      RunKeepsWellFormed(b, before);
      StepKeepsWellFormed(Run(b, before).book, cmds[|cmds| - 1]);
    }
  }

  // --- Runs step by step -----------------------------------------------------

  lemma {:induction false} RunSnoc(b: Book, cmds: seq<Command>, k: nat)
    requires k < |cmds|
    ensures Run(b, cmds[..k + 1]).book == Step(Run(b, cmds[..k]).book, cmds[k]).book
    ensures Run(b, cmds[..k + 1]).events == Run(b, cmds[..k]).events + Step(Run(b, cmds[..k]).book, cmds[k]).events
  {
    assert cmds[..k + 1][..k] == cmds[..k];
  }

  // --- The uncrossed book ----------------------------------------------------

  predicate Uncrossed(b: Book) {
    b.bids == [] || b.asks == [] || b.bids[0].price < b.asks[0].price
  }

  // A command strays when its side is neither code and the asks cannot absorb
  // it: the remainder then rests among the asks without any price test.
  predicate Strays(b: Book, cmd: Command) {
    Acceptable(cmd) && !ProperSide(cmd.side) && cmd.qty > Qty(b.asks, All)
  }

  predicate StraysAcross(b: Book, cmd: Command) {
    Strays(b, cmd) && b.bids != [] && cmd.price <= b.bids[0].price
  }

  lemma {:induction false} EverythingCrosses(s: seq<Order>, side: int, limit: int)
    requires !ProperSide(side)
    ensures Qty(s, Crossing(side, limit)) == Qty(s, All)
  {
    if s != [] {
      EverythingCrosses(s[1..], side, limit);
    }
  }

  // What can be left over: nothing behind it crosses, and an improper side
  // leaves a remainder exactly when it exceeds all asks, which are then gone.
  lemma {:induction false} Leftover(b: Book, cmd: Command)
    requires WellFormed(b) && Acceptable(cmd)
    ensures var m := MatchOf(b, cmd);
            && (m.left > 0 && m.opposite != [] ==> !Crosses(cmd.side, cmd.price, m.opposite[0].price))
            && (!ProperSide(cmd.side) ==> (m.left > 0 <==> Strays(b, cmd)))
            && (!ProperSide(cmd.side) && m.left > 0 ==> m.opposite == [])
  {
    var s := Opposite(b, cmd.side);
    var m := MatchOf(b, cmd);
    MatchHasPriority(s, cmd.side, cmd.price, cmd.qty);
    FillsFillPrefix(s, cmd.side, cmd.price, cmd.qty, m.fills);
    MaximalFill(s, cmd.side, cmd.price, cmd.qty);
    if !ProperSide(cmd.side) {
      EverythingCrosses(s, cmd.side, cmd.price);
    }
    if m.left > 0 && |m.fills| > 0 {
      var n := |m.fills|;
      assert s[..n] == s[..n - 1] + [s[n - 1]];
      QtyConcat(s[..n - 1], [s[n - 1]], All);
      assert m.fills[n - 1].qty == s[n - 1].qty;
    }
  }

  // From an uncrossed book, a command leaves the book crossed exactly when it
  // strays at or below the best bid.
  lemma {:induction false} StepUncrossed(b: Book, cmd: Command)
    requires WellFormed(b) && Uncrossed(b)
    ensures Uncrossed(Step(b, cmd).book) <==> !StraysAcross(b, cmd)
  {
    if Acceptable(cmd) {
      PlaceUncrossed(b, cmd);
    } else if cmd.Cancel? {
      CancelUncrossed(b, cmd.orderId, cmd.owner);
    }
  }

  lemma {:induction false} PlaceUncrossed(b: Book, cmd: Command)
    requires WellFormed(b) && Uncrossed(b) && Acceptable(cmd)
    ensures Uncrossed(Placed(b, cmd)) <==> !StraysAcross(b, cmd)
  {
    var m := MatchOf(b, cmd);
    Leftover(b, cmd);
    var dropped := MatchLeavesTail(Opposite(b, cmd.side), cmd.side, cmd.price, cmd.qty);
    var matched := AfterMatch(b, cmd.side, m.opposite);
    assert Uncrossed(matched) by {
      BestIsFirst(Opposite(b, cmd.side), cmd.side == SELL, b.nextId, dropped);
    }
    if m.left > 0 {
      InsertFront(Own(matched, cmd.side), Taker(b, cmd).(qty := m.left));
    }
  }

  lemma {:induction false} BestIsFirst(s: seq<Order>, buy: bool, nextId: int, i: nat)
    requires SideOk(s, buy, nextId)
    ensures i < |s| ==> !Ahead(buy, s[i].price, s[0].price)
  {
    if 0 < i < |s| {
      assert Prior(buy, s[0], s[i]);
    }
  }

  lemma {:induction false} InsertFront(s: seq<Order>, o: Order)
    ensures Insert(s, o) != []
    ensures Insert(s, o)[0] == if s == [] || Ahead(o.side == BUY, o.price, s[0].price) then o else s[0]
  {
  }

  lemma {:induction false} CancelUncrossed(b: Book, id: int, owner: int)
    requires WellFormed(b) && Uncrossed(b)
    ensures Uncrossed(CancelOrder(b, id, owner).book)
  {
    BestIsFirst(b.bids, true, b.nextId, 1);
    BestIsFirst(b.asks, false, b.nextId, 1);
  }

  // A concrete run the engine leaves crossed; `RunUncrossed` has the exact condition.
  lemma {:induction false} CrossedExample()
    ensures var cmds := [NewOrder(1, 1, BUY, 100, 5), NewOrder(2, 2, -128, 90, 5)];
            !Uncrossed(Run(EMPTY, cmds).book)
  {
    var buy, stray := NewOrder(1, 1, BUY, 100, 5), NewOrder(2, 2, -128, 90, 5);
    var cmds := [buy, stray];
    var b0 := Run(EMPTY, cmds[..0]).book;
    var b1 := Run(EMPTY, cmds[..1]).book;
    RunSnoc(EMPTY, cmds, 0);
    RunSnoc(EMPTY, cmds, 1);
    assert b0 == EMPTY && cmds[..2] == cmds;
    StepKeepsWellFormed(b0, buy);
    StepUncrossed(b0, buy);
    assert b1.bids == [Order(1, 1, 1, BUY, 100, 5)] && b1.asks == [];
    StepUncrossed(b1, stray);
  }

  predicate UncrossedAfter(cmds: seq<Command>, k: nat)
    requires k <= |cmds|
  {
    Uncrossed(Run(EMPTY, cmds[..k]).book)
  }

  predicate StraysAcrossAt(cmds: seq<Command>, k: nat)
    requires k < |cmds|
  {
    StraysAcross(Run(EMPTY, cmds[..k]).book, cmds[k])
  }

  // Over any run: the book is uncrossed after every command if and only if no
  // command strayed at or below the best bid it met.
  lemma {:induction false} RunUncrossed(cmds: seq<Command>)
    ensures (forall k :: 0 <= k <= |cmds| ==> UncrossedAfter(cmds, k))
       <==> (forall k :: 0 <= k < |cmds| ==> !StraysAcrossAt(cmds, k))
  {
    forall k | 0 <= k < |cmds|
      ensures UncrossedAfter(cmds, k) ==> (UncrossedAfter(cmds, k + 1) <==> !StraysAcrossAt(cmds, k))
    {
      RunKeepsWellFormed(EMPTY, cmds[..k]);
      RunSnoc(EMPTY, cmds, k);
      if UncrossedAfter(cmds, k) {
        StepUncrossed(Run(EMPTY, cmds[..k]).book, cmds[k]);
      }
    }
    if forall k :: 0 <= k <= |cmds| ==> UncrossedAfter(cmds, k) {
      forall k | 0 <= k < |cmds|
        ensures !StraysAcrossAt(cmds, k)
      {
        assert UncrossedAfter(cmds, k) && UncrossedAfter(cmds, k + 1);
      }
    }
    if forall k :: 0 <= k < |cmds| ==> !StraysAcrossAt(cmds, k) {
      for k := 0 to |cmds|
        invariant forall i :: 0 <= i <= k ==> UncrossedAfter(cmds, i)
      {
        assert !StraysAcrossAt(cmds, k);
      }
    }
  }

  // In particular no run of proper commands ever crosses the book.
  lemma {:induction false} ProperRunUncrossed(cmds: seq<Command>)
    requires forall k :: 0 <= k < |cmds| && cmds[k].NewOrder? ==> ProperSide(cmds[k].side)
    ensures Uncrossed(Run(EMPTY, cmds).book)
  {
    forall k | 0 <= k < |cmds|
      ensures !StraysAcrossAt(cmds, k)
    {
      assert Acceptable(cmds[k]) ==> ProperSide(cmds[k].side);
    }
    RunUncrossed(cmds);
    assert UncrossedAfter(cmds, |cmds|);
    assert cmds[..|cmds|] == cmds;
  }
}
