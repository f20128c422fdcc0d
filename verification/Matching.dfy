/**
What the matching loop does to the opposite side, stated without its recursion:
price-time priority (as an exact characterisation), maximal fill, and what is
left at every price and for every order.
*/
module Matching {
  import opened Events
  import opened Book

  function Min(a: int, b: int): int {
    if a < b then a else b
  }

  ghost predicate AllPositive(s: seq<Order>) {
    forall i :: 0 <= i < |s| ==> s[i].qty > 0
  }

  // Best price first (prices may repeat).
  ghost predicate BestFirst(s: seq<Order>, desc: bool) {
    forall i, j :: 0 <= i < j < |s| ==> !Ahead(desc, s[j].price, s[i].price)
  }

  function FillQty(fills: seq<Fill>): int {
    if fills == [] then 0 else fills[0].qty + FillQty(fills[1..])
  }

  // --- Sums over concatenations ----------------------------------------------

  lemma {:induction false} QtyConcat(a: seq<Order>, b: seq<Order>, k: Key)
    ensures Qty(a + b, k) == Qty(a, k) + Qty(b, k)
  {
    if a == [] {
      assert a + b == b;
    } else {
      QtyConcat(a[1..], b, k);
      assert (a + b)[1..] == a[1..] + b;
    }
  }

  lemma {:induction false} QtyNonNegative(s: seq<Order>, k: Key)
    requires AllPositive(s)
    ensures 0 <= Qty(s, k) <= Qty(s, All)
    ensures Qty(s, k) == 0 <==> forall i :: 0 <= i < |s| ==> !Hits(k, s[i])
  {
    if s != [] {
      QtyNonNegative(s[1..], k);
      assert forall i :: 1 <= i < |s| ==> s[i] == s[1..][i - 1];
      assert forall i :: 0 <= i < |s| - 1 ==> s[1..][i] == s[i + 1];
    }
  }

  lemma {:induction false} QtyInsert(s: seq<Order>, o: Order, k: Key)
    ensures Qty(Insert(s, o), k) == Qty(s, k) + (if Hits(k, o) then o.qty else 0)
  {
    var p := RestPosition(s, o.price, o.side == BUY);
    QtyConcat(s[..p] + [o], s[p..], k);
    QtyConcat(s[..p], [o], k);
    QtyConcat(s[..p], s[p..], k);
    assert s == s[..p] + s[p..];
  }

  lemma {:induction false} QtyWithout(s: seq<Order>, i: nat, k: Key)
    requires i < |s|
    ensures Qty(Without(s, i), k) == Qty(s, k) - (if Hits(k, s[i]) then s[i].qty else 0)
  {
    QtyConcat(s[..i], s[i + 1..], k);
    QtyConcat(s[..i] + [s[i]], s[i + 1..], k);
    QtyConcat(s[..i], [s[i]], k);
    assert s == s[..i] + [s[i]] + s[i + 1..];
  }

  // --- Price-time priority ---------------------------------------------------

  // A resting price within the limit of a buy (code 0) or a sell (code 1); an
  // order of neither side has no limit.
  predicate WithinLimit(side: int, limit: int, price: int) {
    (side == 0 ==> price <= limit) && (side == 1 ==> price >= limit)
  }

  // The i-th fill takes the i-th order of the side, at most what is left after
  // all earlier orders were consumed whole.
  ghost predicate TakesInTurn(s: seq<Order>, side: int, limit: int, qty: int, fills: seq<Fill>) {
    && |fills| <= |s|
    && forall i :: 0 <= i < |fills| ==>
         && fills[i].maker == s[i]
         && WithinLimit(side, limit, s[i].price)
         && fills[i].qty == Min(s[i].qty, qty - Qty(s[..i], All))
         && fills[i].qty > 0
         && fills[i].takerLeft == qty - Qty(s[..i], All) - fills[i].qty
  }

  // The side afterwards: a fully consumed prefix is gone, at most the last
  // maker is reduced, and everything behind it is untouched.
  ghost predicate LeavesSuffix(s: seq<Order>, m: Matched) {
    var n := |m.fills|;
    && n <= |s|
    && (if n > 0 && m.fills[n - 1].qty < s[n - 1].qty
        then m.opposite == [s[n - 1].(qty := s[n - 1].qty - m.fills[n - 1].qty)] + s[n..]
        else m.opposite == s[n..])
  }

  // Matching stops only when the taker is done or nothing crossing is left.
  ghost predicate Exhausts(s: seq<Order>, side: int, limit: int, qty: int, m: Matched) {
    && |m.fills| <= |s|
    && m.left == qty - FillQty(m.fills)
    && (m.left <= 0 || |m.fills| == |s| || !WithinLimit(side, limit, s[|m.fills|].price))
  }

  ghost predicate PriceTimePriority(s: seq<Order>, side: int, limit: int, qty: int, m: Matched) {
    TakesInTurn(s, side, limit, qty, m.fills) && LeavesSuffix(s, m) && Exhausts(s, side, limit, qty, m)
  }

  lemma {:induction false} PrefixShift(s: seq<Order>, i: nat)
    requires 0 < i <= |s|
    ensures Qty(s[..i], All) == s[0].qty + Qty(s[1..][..i - 1], All)
  {
    assert s[..i][1..] == s[1..][..i - 1];
  }

  // Price-time priority is exactly what matching computes: a result has these
  // three properties if and only if it is the one the engine produces.
  lemma {:induction false} MatchIsPriceTimePriority(s: seq<Order>, side: int, limit: int, qty: int, m: Matched)
    requires AllPositive(s)
    ensures PriceTimePriority(s, side, limit, qty, m) <==> m == Match(s, side, limit, qty)
  {
    MatchHasPriority(s, side, limit, qty);
    if PriceTimePriority(s, side, limit, qty, m) {
      PriorityIsUnique(s, side, limit, qty, m, Match(s, side, limit, qty));
    }
  }

  lemma {:induction false} MatchHasPriority(s: seq<Order>, side: int, limit: int, qty: int)
    requires AllPositive(s)
    ensures PriceTimePriority(s, side, limit, qty, Match(s, side, limit, qty))
  {
    assert s[..0] == [];
    if qty <= 0 || s == [] || !Crosses(side, limit, s[0].price) {
    } else if qty < s[0].qty {
      assert Match(s, side, limit, qty).fills == [Fill(s[0], qty, 0)];
    } else {
      var rest := Match(s[1..], side, limit, qty - s[0].qty);
      MatchHasPriority(s[1..], side, limit, qty - s[0].qty);
      PriorityCons(s, side, limit, qty, rest);
    }
  }

  // Consuming the first order whole and continuing behind it keeps the priority.
  lemma {:induction false} PriorityCons(s: seq<Order>, side: int, limit: int, qty: int, rest: Matched)
    requires s != [] && 0 < s[0].qty <= qty && Crosses(side, limit, s[0].price)
    requires PriceTimePriority(s[1..], side, limit, qty - s[0].qty, rest)
    ensures PriceTimePriority(s, side, limit, qty,
                              Matched([Fill(s[0], s[0].qty, qty - s[0].qty)] + rest.fills, rest.opposite, rest.left))
  {
    var fills := [Fill(s[0], s[0].qty, qty - s[0].qty)] + rest.fills;
    assert s[..0] == [];
    forall i | 0 < i < |fills|
      ensures fills[i] == rest.fills[i - 1] && s[i] == s[1..][i - 1]
      ensures Qty(s[..i], All) == s[0].qty + Qty(s[1..][..i - 1], All)
    {
      PrefixShift(s, i);
    }
    assert fills[1..] == rest.fills;
    assert s[1..][|rest.fills|..] == s[|fills|..];
  }

  lemma {:induction false} FillsFillPrefix(s: seq<Order>, side: int, limit: int, qty: int, fills: seq<Fill>)
    requires AllPositive(s)
    requires TakesInTurn(s, side, limit, qty, fills)
    ensures forall i :: 0 <= i < |fills| - 1 ==> fills[i].qty == s[i].qty
    ensures FillQty(fills) == if fills == [] then 0 else Min(Qty(s[..|fills|], All), qty)
  {
    if fills != [] {
      var n := |fills| - 1;
      FillsFillPrefix(s, side, limit, qty, fills[..n]);
      FillQtySnoc(fills[..n], fills[n]);
      assert fills == fills[..n] + [fills[n]];
      assert s[..n + 1] == s[..n] + [s[n]];
      QtyConcat(s[..n], [s[n]], All);
      if n > 0 {
        assert fills[n - 1] == fills[..n][n - 1];
        assert s[..n] == s[..n - 1] + [s[n - 1]];
        QtyConcat(s[..n - 1], [s[n - 1]], All);
      }
    }
  }

  lemma {:induction false} FillQtySnoc(fills: seq<Fill>, f: Fill)
    ensures FillQty(fills + [f]) == FillQty(fills) + f.qty
  {
    if fills != [] {
      FillQtySnoc(fills[1..], f);
      assert (fills + [f])[1..] == fills[1..] + [f];
    }
  }

  // No result with fewer fills can have the three properties, so two of them agree.
  lemma {:induction false} PriorityIsUnique(s: seq<Order>, side: int, limit: int, qty: int, m: Matched, m': Matched)
    requires AllPositive(s)
    requires PriceTimePriority(s, side, limit, qty, m) && PriceTimePriority(s, side, limit, qty, m')
    ensures m == m'
  {
    FillsFillPrefix(s, side, limit, qty, m.fills);
    FillsFillPrefix(s, side, limit, qty, m'.fills);
    if |m.fills| < |m'.fills| {
      NoEarlyStop(s, side, limit, qty, m, m');
    } else if |m'.fills| < |m.fills| {
      NoEarlyStop(s, side, limit, qty, m', m);
    }
    assert m.fills == m'.fills;
  }

  lemma {:induction false} NoEarlyStop(s: seq<Order>, side: int, limit: int, qty: int, m: Matched, m': Matched)
    requires AllPositive(s)
    requires PriceTimePriority(s, side, limit, qty, m) && PriceTimePriority(s, side, limit, qty, m')
    ensures |m.fills| >= |m'.fills|
  {
    var n := |m.fills|;
    if n < |m'.fills| {
      FillsFillPrefix(s, side, limit, qty, m.fills);
      assert m'.fills[n].maker == s[n] && Crosses(side, limit, s[n].price);
      assert qty - Qty(s[..n], All) > 0;
      assert false;
    }
  }

  // --- Maximal fill ----------------------------------------------------------

  function CrossingCount(s: seq<Order>, side: int, limit: int): nat {
    if s == [] then 0 else (if WithinLimit(side, limit, s[0].price) then 1 else 0) + CrossingCount(s[1..], side, limit)
  }

  // The taker gets as much as the whole crossing liquidity allows, wherever in
  // the side it sits, and never trades more often than there are crossing orders.
  lemma {:induction false} MaximalFill(s: seq<Order>, side: int, limit: int, qty: int)
    requires AllPositive(s) && BestFirst(s, side == SELL)
    requires qty >= 0
    ensures var m := Match(s, side, limit, qty);
            && FillQty(m.fills) == Min(qty, Qty(s, Crossing(side, limit)))
            && m.left == qty - FillQty(m.fills)
            && |m.fills| <= CrossingCount(s, side, limit)
  {
    QtyNonNegative(s, Crossing(side, limit));
    if qty == 0 || s == [] {
    } else if !Crosses(side, limit, s[0].price) {
      assert forall i :: 0 <= i < |s| ==> !Crosses(side, limit, s[i].price);
    } else {
      QtyNonNegative(s[1..], Crossing(side, limit));
      if qty >= s[0].qty {
        MaximalFill(s[1..], side, limit, qty - s[0].qty);
        var rest := Match(s[1..], side, limit, qty - s[0].qty);
        assert Match(s, side, limit, qty).fills[1..] == rest.fills;
      }
    }
  }

  lemma {:induction false} PrefixGrows(s: seq<Order>, i: nat, j: nat)
    requires AllPositive(s) && i <= j <= |s|
    ensures Qty(s[..i], All) <= Qty(s[..j], All)
  {
    assert s[..j] == s[..i] + s[i..j];
    QtyConcat(s[..i], s[i..j], All);
    QtyNonNegative(s[i..j], All);
  }

  // Which resting orders trade can be told from the side beforehand: those that
  // are within the limit and have less than the taker's quantity before them.
  lemma {:induction false} Reached(s: seq<Order>, side: int, limit: int, qty: int, j: nat)
    requires AllPositive(s) && BestFirst(s, side == SELL) && j < |s| && qty >= 0
    ensures j < |Match(s, side, limit, qty).fills| <==> WithinLimit(side, limit, s[j].price) && Qty(s[..j], All) < qty
  {
    var m := Match(s, side, limit, qty);
    MatchHasPriority(s, side, limit, qty);
    hide Match;
    var n := |m.fills|;
    FillsFillPrefix(s, side, limit, qty, m.fills);
    QtyNonNegative(s[..n], All);
    if j >= n {
      PrefixGrows(s, n, j);
      assert j == n || !Ahead(side == SELL, s[j].price, s[n].price);
    }
  }

  // --- What is left ----------------------------------------------------------

  function MakerFills(fills: seq<Fill>, k: Key): int {
    if fills == [] then 0 else (if Hits(k, fills[0].maker) then fills[0].qty else 0) + MakerFills(fills[1..], k)
  }

  // Every selection of orders loses exactly what was traded against it.
  lemma {:induction false} MatchConserves(s: seq<Order>, side: int, limit: int, qty: int, k: Key)
    ensures var m := Match(s, side, limit, qty);
            Qty(m.opposite, k) + MakerFills(m.fills, k) == Qty(s, k)
  {
    if qty <= 0 || s == [] || !Crosses(side, limit, s[0].price) {
    } else if qty < s[0].qty {
      assert Match(s, side, limit, qty).opposite[1..] == s[1..];
    } else {
      var rest := Match(s[1..], side, limit, qty - s[0].qty);
      MatchConserves(s[1..], side, limit, qty - s[0].qty, k);
      assert Match(s, side, limit, qty).fills[1..] == rest.fills;
    }
  }
}
