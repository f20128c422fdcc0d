/**
A side grouped into price levels, and how grouping commutes with resting an
order, removing one and reading a level's aggregate. This is the bridge from
the level-and-FIFO book to the flat reference book.
*/
module Levels {
  import opened Events
  import opened Book
  import opened Matching

  datatype Level = Level(price: int, orders: seq<Order>)

  function Flat(ls: seq<Level>): seq<Order> {
    if ls == [] then [] else ls[0].orders + Flat(ls[1..])
  }

  predicate LevelOk(l: Level, buy: bool) {
    && l.orders != []
    && forall k :: 0 <= k < |l.orders| ==> l.orders[k].price == l.price && (l.orders[k].side == BUY) == buy
  }

  ghost predicate Ladder(ls: seq<Level>, buy: bool) {
    && (forall i :: 0 <= i < |ls| ==> LevelOk(ls[i], buy))
    && (forall i, j :: 0 <= i < j < |ls| ==> Ahead(buy, ls[i].price, ls[j].price))
  }

  function Removed(l: Level, k: nat): Level
    requires k < |l.orders|
  {
    l.(orders := Without(l.orders, k))
  }

  // The levels without order k of level i; a level that empties disappears.
  function ViewWithout(ls: seq<Level>, i: nat, k: nat): seq<Level>
    requires i < |ls| && k < |ls[i].orders|
  {
    if |ls[i].orders| == 1 then ls[..i] + ls[i + 1..] else ls[i := Removed(ls[i], k)]
  }

  // The flat position of order k of level i.
  function Position(ls: seq<Level>, i: nat, k: nat): nat
    requires i < |ls|
  {
    |Flat(ls[..i])| + k
  }

  // --- Flattening ------------------------------------------------------------

  lemma {:induction false} FlatConcat(a: seq<Level>, b: seq<Level>)
    ensures Flat(a + b) == Flat(a) + Flat(b)
  {
    if a == [] {
      assert a + b == b;
    } else {
      assert (a + b)[0] == a[0] && (a + b)[1..] == a[1..] + b;
      assert Flat(a + b) == a[0].orders + Flat(a[1..] + b) && Flat(a) == a[0].orders + Flat(a[1..]);
      FlatConcat(a[1..], b);
      hide Flat;
      assert a[0].orders + (Flat(a[1..]) + Flat(b)) == (a[0].orders + Flat(a[1..])) + Flat(b);
    }
  }

  lemma {:induction false} FlatOne(l: Level)
    ensures Flat([l]) == l.orders
  {
    assert [l][1..] == [];
  }

  lemma {:induction false} FlatThree(a: seq<Level>, l: Level, b: seq<Level>)
    ensures Flat(a + [l] + b) == Flat(a) + l.orders + Flat(b)
  {
    FlatConcat(a + [l], b);
    FlatConcat(a, [l]);
    FlatOne(l);
  }

  lemma {:induction false} FlatSplit(ls: seq<Level>, i: nat)
    requires i < |ls|
    ensures Flat(ls) == Flat(ls[..i]) + ls[i].orders + Flat(ls[i + 1..])
  {
    FlatThree(ls[..i], ls[i], ls[i + 1..]);
    assert ls == ls[..i] + [ls[i]] + ls[i + 1..];
  }

  lemma {:induction false} FlatOrigin(ls: seq<Level>, n: nat) returns (i: nat, k: nat)
    requires n < |Flat(ls)|
    ensures i < |ls| && k < |ls[i].orders| && Flat(ls)[n] == ls[i].orders[k]
    ensures n == Position(ls, i, k)
  {
    if n < |ls[0].orders| {
      i, k := 0, n;
      assert ls[..0] == [];
    } else {
      i, k := FlatOrigin(ls[1..], n - |ls[0].orders|);
      i := i + 1;
      assert ls[..i][1..] == ls[1..][..i - 1];
    }
  }

  lemma {:induction false} FlatAt(ls: seq<Level>, i: nat, k: nat)
    requires i < |ls| && k < |ls[i].orders|
    ensures Position(ls, i, k) < |Flat(ls)| && Flat(ls)[Position(ls, i, k)] == ls[i].orders[k]
  {
    FlatSplit(ls, i);
  }

  // --- Resting ---------------------------------------------------------------

  lemma {:induction false} RestPositionIs(s: seq<Order>, price: int, desc: bool, k: nat)
    requires k <= |s|
    requires forall i :: 0 <= i < k ==> !Ahead(desc, price, s[i].price)
    requires k < |s| ==> Ahead(desc, price, s[k].price)
    ensures RestPosition(s, price, desc) == k
  {
  }

  lemma {:induction false} FlatAllBetter(ls: seq<Level>, buy: bool, price: int)
    requires forall i :: 0 <= i < |ls| ==> LevelOk(ls[i], buy) && !Ahead(buy, price, ls[i].price)
    ensures forall n :: 0 <= n < |Flat(ls)| ==> !Ahead(buy, price, Flat(ls)[n].price)
  {
    forall n | 0 <= n < |Flat(ls)|
      ensures !Ahead(buy, price, Flat(ls)[n].price)
    {
      var i, k := FlatOrigin(ls, n);
    }
  }

  lemma {:induction false} FlatAllWorse(ls: seq<Level>, buy: bool, price: int)
    requires forall i :: 0 <= i < |ls| ==> LevelOk(ls[i], buy) && Ahead(buy, price, ls[i].price)
    ensures forall n :: 0 <= n < |Flat(ls)| ==> Ahead(buy, price, Flat(ls)[n].price)
  {
    forall n | 0 <= n < |Flat(ls)|
      ensures Ahead(buy, price, Flat(ls)[n].price)
    {
      var i, k := FlatOrigin(ls, n);
    }
  }

  // The flat insertion point splits the levels at the first worse one.
  lemma {:induction false} InsertAtSplit(ls: seq<Level>, i: nat, o: Order)
    requires Ladder(ls, o.side == BUY) && i <= |ls|
    requires forall j :: 0 <= j < i ==> !Ahead(o.side == BUY, o.price, ls[j].price)
    requires forall j :: i <= j < |ls| ==> Ahead(o.side == BUY, o.price, ls[j].price)
    ensures Insert(Flat(ls), o) == Flat(ls[..i]) + [o] + Flat(ls[i..])
  {
    var buy := o.side == BUY;
    var s, a, b := Flat(ls), Flat(ls[..i]), Flat(ls[i..]);
    FlatConcat(ls[..i], ls[i..]);
    assert ls == ls[..i] + ls[i..];
    FlatAllBetter(ls[..i], buy, o.price);
    FlatAllWorse(ls[i..], buy, o.price);
    assert forall n :: 0 <= n < |a| ==> s[n] == a[n];
    assert |a| < |s| ==> s[|a|] == b[0];
    RestPositionIs(s, o.price, buy, |a|);
    assert s[..|a|] == a && s[|a|..] == b;
  }

  lemma {:induction false} LadderInsert(ls: seq<Level>, i: nat, l: Level, buy: bool)
    requires Ladder(ls, buy) && i <= |ls| && LevelOk(l, buy)
    requires forall j :: 0 <= j < i ==> Ahead(buy, ls[j].price, l.price)
    requires forall j :: i <= j < |ls| ==> Ahead(buy, l.price, ls[j].price)
    ensures Ladder(ls[..i] + [l] + ls[i..], buy)
  {
    var t := ls[..i] + [l] + ls[i..];
    assert forall j :: 0 <= j < |t| ==> t[j] == if j < i then ls[j] else if j == i then l else ls[j - 1];
  }

  lemma {:induction false} LadderUpdate(ls: seq<Level>, i: nat, l: Level, buy: bool)
    requires Ladder(ls, buy) && i < |ls| && LevelOk(l, buy) && l.price == ls[i].price
    ensures Ladder(ls[i := l], buy)
  {
  }

  lemma {:induction false} LadderDrop(ls: seq<Level>, i: nat, buy: bool)
    requires Ladder(ls, buy) && i < |ls|
    ensures Ladder(ls[..i] + ls[i + 1..], buy)
  {
    var t := ls[..i] + ls[i + 1..];
    assert forall j :: 0 <= j < |t| ==> t[j] == if j < i then ls[j] else ls[j + 1];
  }

  lemma {:induction false} RestNewLevel(ls: seq<Level>, i: nat, o: Order)
    requires Ladder(ls, o.side == BUY) && i <= |ls|
    requires forall j :: 0 <= j < i ==> Ahead(o.side == BUY, ls[j].price, o.price)
    requires forall j :: i <= j < |ls| ==> Ahead(o.side == BUY, o.price, ls[j].price)
    ensures var t := ls[..i] + [Level(o.price, [o])] + ls[i..];
            Flat(t) == Insert(Flat(ls), o) && Ladder(t, o.side == BUY)
  {
    LadderInsert(ls, i, Level(o.price, [o]), o.side == BUY);
    InsertAtSplit(ls, i, o);
    FlatThree(ls[..i], Level(o.price, [o]), ls[i..]);
  }

  lemma {:induction false} RestOldLevel(ls: seq<Level>, i: nat, o: Order)
    requires Ladder(ls, o.side == BUY) && i < |ls| && ls[i].price == o.price
    ensures var t := ls[i := Level(o.price, ls[i].orders + [o])];
            Flat(t) == Insert(Flat(ls), o) && Ladder(t, o.side == BUY)
  {
    var l := Level(o.price, ls[i].orders + [o]);
    var t := ls[i := l];
    AppendOk(ls[i], o, o.side == BUY);
    LadderUpdate(ls, i, l, o.side == BUY);
    InsertAtSplit(ls, i + 1, o);
    hide Flat, Insert, Ladder;
    FlatSplit(t, i);
    assert t[..i] == ls[..i] && t[i + 1..] == ls[i + 1..];
    FlatConcat(ls[..i], [ls[i]]);
    FlatOne(ls[i]);
    assert ls[..i + 1] == ls[..i] + [ls[i]];
    assert Flat(ls[..i]) + (ls[i].orders + [o]) + Flat(ls[i + 1..]) == (Flat(ls[..i]) + ls[i].orders) + [o] + Flat(ls[i + 1..]);
  }

  // --- Removing --------------------------------------------------------------

  lemma {:induction false} AppendOk(l: Level, o: Order, buy: bool)
    requires LevelOk(l, buy) && o.price == l.price && (o.side == BUY) == buy
    ensures LevelOk(l.(orders := l.orders + [o]), buy)
  {
  }

  lemma {:induction false} RemovedOk(l: Level, k: nat, buy: bool)
    requires LevelOk(l, buy) && k < |l.orders| && |l.orders| > 1
    ensures LevelOk(Removed(l, k), buy)
  {
    var left := Without(l.orders, k);
    assert forall j :: 0 <= j < |left| ==> left[j] == if j < k then l.orders[j] else l.orders[j + 1];
  }

  lemma {:induction false} RemoveFromLevel(ls: seq<Level>, buy: bool, i: nat, k: nat)
    requires Ladder(ls, buy) && i < |ls| && k < |ls[i].orders| && |ls[i].orders| > 1
    ensures Position(ls, i, k) < |Flat(ls)|
    ensures var t := ls[i := Removed(ls[i], k)];
            Flat(t) == Without(Flat(ls), Position(ls, i, k)) && Ladder(t, buy)
  {
    var t := ls[i := Removed(ls[i], k)];
    RemovedOk(ls[i], k, buy);
    LadderUpdate(ls, i, Removed(ls[i], k), buy);
    hide Flat, Ladder, LevelOk;
    FlatSplit(ls, i);
    FlatSplit(t, i);
    assert t[..i] == ls[..i] && t[i + 1..] == ls[i + 1..];
    WithoutMiddle(Flat(ls[..i]), ls[i].orders, Flat(ls[i + 1..]), k);
  }

  lemma {:induction false} RemoveLevel(ls: seq<Level>, buy: bool, i: nat)
    requires Ladder(ls, buy) && i < |ls| && |ls[i].orders| == 1
    ensures Position(ls, i, 0) < |Flat(ls)|
    ensures var t := ls[..i] + ls[i + 1..];
            Flat(t) == Without(Flat(ls), Position(ls, i, 0)) && Ladder(t, buy)
  {
    LadderDrop(ls, i, buy);
    assert Without(ls[i].orders, 0) == [];
    hide Flat, Ladder;
    FlatSplit(ls, i);
    FlatConcat(ls[..i], ls[i + 1..]);
    WithoutMiddle(Flat(ls[..i]), ls[i].orders, Flat(ls[i + 1..]), 0);
  }

  lemma {:induction false} FlatWithout(ls: seq<Level>, buy: bool, i: nat, k: nat)
    requires Ladder(ls, buy) && i < |ls| && k < |ls[i].orders|
    ensures Position(ls, i, k) < |Flat(ls)| && Flat(ls)[Position(ls, i, k)] == ls[i].orders[k]
    ensures Flat(ViewWithout(ls, i, k)) == Without(Flat(ls), Position(ls, i, k))
  {
    FlatAt(ls, i, k);
    if |ls[i].orders| == 1 {
      RemoveLevel(ls, buy, i);
    } else {
      RemoveFromLevel(ls, buy, i, k);
    }
  }

  lemma {:induction false} WithoutMiddle(a: seq<Order>, m: seq<Order>, b: seq<Order>, k: nat)
    requires k < |m|
    ensures Without(a + m + b, |a| + k) == a + Without(m, k) + b
  {
    var s := a + m + b;
    assert s[..|a| + k] == a + m[..k];
    assert s[|a| + k + 1..] == m[k + 1..] + b;
  }

  lemma {:induction false} FlatReplaceHead(ls: seq<Level>, buy: bool, o: Order)
    requires Ladder(ls, buy) && ls != []
    ensures Flat(ls) != [] && Flat(ls)[0] == ls[0].orders[0]
    ensures Flat(ls[0 := Level(ls[0].price, [o] + ls[0].orders[1..])]) == [o] + Flat(ls)[1..]
  {
    var t := ls[0 := Level(ls[0].price, [o] + ls[0].orders[1..])];
    assert LevelOk(ls[0], buy);
    assert t[1..] == ls[1..];
    assert Flat(ls) == ls[0].orders + Flat(ls[1..]) && Flat(t) == ([o] + ls[0].orders[1..]) + Flat(ls[1..]);
  }

  // The best order of the side is the first of the first level.
  lemma {:induction false} FlatHead(ls: seq<Level>, buy: bool, o: Order)
    requires Ladder(ls, buy) && ls != []
    ensures Flat(ls) != [] && Flat(ls)[0] == ls[0].orders[0]
    ensures Flat(ViewWithout(ls, 0, 0)) == Flat(ls)[1..]
    ensures Flat(ls[0 := Level(ls[0].price, [o] + ls[0].orders[1..])]) == [o] + Flat(ls)[1..]
  {
    FlatReplaceHead(ls, buy, o);
    assert LevelOk(ls[0], buy);
    assert Position(ls, 0, 0) == 0 by {
      assert ls[..0] == [];
    }
    hide Flat, Ladder, LevelOk, ViewWithout;
    FlatWithout(ls, buy, 0, 0);
    assert Without(Flat(ls), 0) == Flat(ls)[1..];
  }

  // --- Aggregates ------------------------------------------------------------

  lemma {:induction false} NoneAtPrice(s: seq<Order>, price: int)
    requires forall n :: 0 <= n < |s| ==> s[n].price != price
    ensures Qty(s, AtPrice(price)) == 0
  {
    if s != [] {
      NoneAtPrice(s[1..], price);
    }
  }

  lemma {:induction false} AllAtPrice(s: seq<Order>, price: int)
    requires forall n :: 0 <= n < |s| ==> s[n].price == price
    ensures Qty(s, AtPrice(price)) == Qty(s, All)
  {
    if s != [] {
      AllAtPrice(s[1..], price);
    }
  }

  lemma {:induction false} AbsentLevel(ls: seq<Level>, buy: bool, price: int)
    requires forall i :: 0 <= i < |ls| ==> LevelOk(ls[i], buy) && ls[i].price != price
    ensures Qty(Flat(ls), AtPrice(price)) == 0
  {
    forall n | 0 <= n < |Flat(ls)|
      ensures Flat(ls)[n].price != price
    {
      var i, k := FlatOrigin(ls, n);
    }
    NoneAtPrice(Flat(ls), price);
  }

  // A level's own sum is the depth of the flat side at its price.
  lemma {:induction false} LevelDepth(ls: seq<Level>, buy: bool, i: nat)
    requires Ladder(ls, buy) && i < |ls|
    ensures Qty(Flat(ls), AtPrice(ls[i].price)) == Qty(ls[i].orders, All)
  {
    var p := ls[i].price;
    FlatSplit(ls, i);
    QtyConcat(Flat(ls[..i]) + ls[i].orders, Flat(ls[i + 1..]), AtPrice(p));
    QtyConcat(Flat(ls[..i]), ls[i].orders, AtPrice(p));
    AllAtPrice(ls[i].orders, p);
    AbsentLevel(ls[..i], buy, p);
    AbsentLevel(ls[i + 1..], buy, p);
  }

  // A zero aggregate is announced for exactly the prices that have no level.
  lemma {:induction false} ZeroIffNoLevel(ls: seq<Level>, buy: bool, price: int)
    requires Ladder(ls, buy) && AllPositive(Flat(ls))
    ensures Qty(Flat(ls), AtPrice(price)) == 0 <==> forall i :: 0 <= i < |ls| ==> ls[i].price != price
  {
    if i :| 0 <= i < |ls| && ls[i].price == price {
      LevelDepth(ls, buy, i);
      var orders := ls[i].orders;
      forall k | 0 <= k < |orders|
        ensures orders[k].qty > 0
      {
        FlatAt(ls, i, k);
      }
      hide Flat, Ladder;
      QtyNonNegative(orders[1..], All);
    } else {
      AbsentLevel(ls, buy, price);
    }
  }
}
