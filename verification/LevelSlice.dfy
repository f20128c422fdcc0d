/**
The linked half of the engine: orders chained into a FIFO per price level, and
levels kept in a slice sorted best first. Every operation is proved against the
grouped view of `Levels.dfy`.
*/
module LevelSlices {
  import opened Events
  import opened Book
  import opened Matching
  import opened Levels

  // An order object, linked into the FIFO of its level.
  class OrderNode {
    const id: int
    const clientOrderId: int
    const owner: int
    const side: int
    const price: int
    var qty: int // remaining quantity
    var level: PriceLevel?
    var prev: OrderNode?
    var next: OrderNode?

    constructor (id: int, clientOrderId: int, owner: int, side: int, price: int, qty: int)
      ensures Value() == Order(id, clientOrderId, owner, side, price, qty)
      ensures level == null && prev == null && next == null
    {
      this.id, this.clientOrderId, this.owner := id, clientOrderId, owner;
      this.side, this.price, this.qty := side, price, qty;
      level, prev, next := null, null, null;
    }

    ghost function Value(): Order
      reads this`qty
    {
      Order(id, clientOrderId, owner, side, price, qty)
    }
  }

  ghost predicate Distinct(s: seq<OrderNode>) {
    forall k, m :: 0 <= k < m < |s| ==> s[k] != s[m]
  }

  lemma {:induction false} DistinctWithout(s: seq<OrderNode>, k: nat)
    requires Distinct(s) && k < |s|
    ensures Distinct(s[..k] + s[k + 1..]) && s[k] !in s[..k] + s[k + 1..]
  {
    var t := s[..k] + s[k + 1..];
    assert forall m :: 0 <= m < |t| ==> t[m] == if m < k then s[m] else s[m + 1];
  }

  // The prev and next pointers spell out `s`, with nothing beyond its ends.
  ghost predicate Chain(s: seq<OrderNode>)
    reads s`prev, s`next
  {
    && Distinct(s)
    && (s != [] ==> s[0].prev == null && s[|s| - 1].next == null)
    && (forall k {:trigger s[k].prev} :: 0 < k < |s| ==> s[k].prev == s[k - 1])
    && (forall k {:trigger s[k].next} :: 0 <= k < |s| - 1 ==> s[k].next == s[k + 1])
  }

  lemma {:induction false} Neighbours(s: seq<OrderNode>, k: nat)
    requires Chain(s) && k < |s|
    ensures s[k].prev == (if k == 0 then null else s[k - 1])
    ensures s[k].next == (if k == |s| - 1 then null else s[k + 1])
    ensures Distinct(s)
  {
  }

  ghost predicate Carries(s: seq<OrderNode>, level: PriceLevel, orders: seq<Order>)
    reads s`level, s`qty
  {
    && |s| == |orders|
    && (forall k :: 0 <= k < |s| ==> s[k].level == level && s[k].Value() == orders[k])
  }

  // The ends of a sequence that lost its k-th element.
  lemma {:induction false} EndsWithout(s: seq<OrderNode>, k: nat)
    requires k < |s| && Distinct(s)
    ensures var t := s[..k] + s[k + 1..];
            && |t| == |s| - 1
            && (t != [] ==> t[0] == (if k == 0 then s[1] else s[0]))
            && (t != [] ==> t[|t| - 1] == (if k == |s| - 1 then s[k - 1] else s[|s| - 1]))
    ensures forall m :: 0 <= m < |s| && m != k ==> s[m] != s[k]
    ensures k > 0 ==> forall m :: 0 <= m < |s| && m != k - 1 ==> s[m] != s[k - 1]
    ensures k < |s| - 1 ==> forall m :: 0 <= m < |s| && m != k + 1 ==> s[m] != s[k + 1]
  {
  }

  class PriceLevel {
    const price: int
    var totalQty: int
    var head: OrderNode?
    var tail: OrderNode?
    ghost var fifo: seq<OrderNode>

    constructor (price: int)
      ensures this.price == price && totalQty == 0 && head == null && tail == null && fifo == []
    {
      this.price, totalQty, head, tail, fifo := price, 0, null, null, [];
    }

    // The level's FIFO, head to tail, holds exactly the orders of `l`.
    ghost predicate Chained(l: Level)
      reads this`head, this`tail, this`fifo, fifo
    {
      && price == l.price
      && head == (if fifo == [] then null else fifo[0])
      && tail == (if fifo == [] then null else fifo[|fifo| - 1])
      && Chain(fifo)
      && Carries(fifo, this, l.orders)
    }

    twostate lemma {:induction false} StaysChained(new l: Level)
      requires old(Chained(l)) && unchanged(this)
      requires forall k :: 0 <= k < |fifo| ==> unchanged(fifo[k])
      ensures Chained(l)
    {
    }

    // A smaller quantity at the head leaves the chain as it is.
    twostate lemma {:induction false} HeadReduced(new l: Level)
      requires old(Chained(l)) && head != null && unchanged(this`head, this`tail, this`fifo)
      requires unchanged(fifo`prev, fifo`next, fifo`level)
      requires forall k :: 1 <= k < |fifo| ==> fifo[k].qty == old(fifo[k].qty)
      ensures l.orders != [] && Chained(l.(orders := [head.Value()] + l.orders[1..]))
    {
    }

    // Links `o` behind the current tail.
    method Append(o: OrderNode, ghost l: Level)
      requires Chained(l) && o !in fifo && o.prev == null && o.next == null
      modifies this`head, this`tail, this`fifo, fifo`next, o`level, o`prev
      ensures fifo == old(fifo) + [o]
      ensures Chained(l.(orders := l.orders + [o.Value()]))
    {
      ghost var was := fifo;
      assert was != [] ==> was[|was| - 1] == tail;
      o.level := this;
      if tail == null {
        head, tail := o, o;
      } else {
        o.prev := tail;
        tail.next := o;
        tail := o;
      }
      fifo := fifo + [o];
      assert forall k :: 0 <= k < |was| ==> fifo[k] == was[k];
    }

    // Bypassing the k-th order leaves a proper chain of the others.
    twostate lemma {:induction false} ChainWithout(k: nat)
      requires k < |old(fifo)| && old(Chain(fifo))
      requires forall m {:trigger old(fifo)[m].prev} :: 0 <= m < |old(fifo)| && m != k && m != k + 1 ==> old(fifo)[m].prev == old(fifo[m].prev)
      requires forall m {:trigger old(fifo)[m].next} :: 0 <= m < |old(fifo)| && m != k && m != k - 1 ==> old(fifo)[m].next == old(fifo[m].next)
      requires k < |old(fifo)| - 1 ==> old(fifo)[k + 1].prev == old(fifo[k].prev)
      requires k > 0 ==> old(fifo)[k - 1].next == old(fifo[k].next)
      ensures Chain(old(fifo[..k] + fifo[k + 1..]))
    {
      var s := old(fifo);
      var t := s[..k] + s[k + 1..];
      DistinctWithout(s, k);
      assert forall m :: 0 <= m < |t| ==> t[m] == if m < k then s[m] else s[m + 1];
      forall m | 0 < m < |t|
        ensures t[m].prev == t[m - 1]
      {
        assert m > k ==> s[m + 1].prev == old(s[m + 1].prev);
        assert m < k ==> s[m].prev == old(s[m].prev);
      }
      forall m | 0 <= m < |t| - 1
        ensures t[m].next == t[m + 1]
      {
        assert m >= k ==> s[m + 1].next == old(s[m + 1].next);
        assert m < k - 1 ==> s[m].next == old(s[m].next);
      }
    }

    twostate lemma {:induction false} CarriesWithout(k: nat, new orders: seq<Order>)
      requires k < |old(fifo)| && old(Carries(fifo, this, orders))
      requires forall m :: 0 <= m < |old(fifo)| && m != k ==>
                 old(fifo)[m].level == old(fifo[m].level) && old(fifo)[m].qty == old(fifo[m].qty)
      ensures Carries(old(fifo[..k] + fifo[k + 1..]), this, Without(orders, k))
    {
      var s := old(fifo);
      var t, left := s[..k] + s[k + 1..], Without(orders, k);
      forall m | 0 <= m < |t|
        ensures t[m].level == this && t[m].Value() == left[m]
      {
        var j := if m < k then m else m + 1;
        assert t[m] == s[j] && left[m] == orders[j];
        assert old(s[j].level) == this && old(s[j].Value()) == orders[j];
      }
    }

    // Takes `o`, the k-th in line, out of the chain.
    method Detach(o: OrderNode, ghost l: Level, ghost k: nat)
      requires Chained(l) && k < |fifo| && fifo[k] == o
      modifies this`head, this`tail, this`fifo, fifo`prev, fifo`next, o`level
      ensures fifo == old(fifo[..k] + fifo[k + 1..])
      ensures Chained(Removed(l, k))
      ensures o.prev == null && o.next == null && o.level == null
    {
      hide Chain, Carries;
      ghost var was := fifo;
      Neighbours(was, k);
      EndsWithout(was, k);
      if o.prev != null {
        o.prev.next := o.next;
      } else {
        head := o.next;
      }
      if o.next != null {
        o.next.prev := o.prev;
      } else {
        tail := o.prev;
      }
      o.prev := null;
      o.next := null;
      o.level := null;
      fifo := was[..k] + was[k + 1..];
      ChainWithout(k);
      CarriesWithout(k, l.orders);
    }
  }

  // Binary search over prices sorted best first; `desc` is true for bids. An
  // unsuccessful search gives the place a level with that price belongs.
  method LevelIndex(levels: seq<PriceLevel>, price: int, desc: bool) returns (idx: nat, found: bool)
    requires forall i, j :: 0 <= i < j < |levels| ==> Ahead(desc, levels[i].price, levels[j].price)
    ensures if found then Found(levels, price, idx) else Belongs(levels, price, desc, idx)
  {
    var lo, hi := 0, |levels|;
    while lo < hi
      invariant 0 <= lo <= hi <= |levels|
      invariant forall i :: 0 <= i < lo ==> Ahead(desc, levels[i].price, price)
      invariant forall i :: hi <= i < |levels| ==> Ahead(desc, price, levels[i].price)
    {
      var mid := (lo + hi) / 2;
      var p := levels[mid].price;
      if p == price {
        return mid, true;
      }
      if desc == (p > price) {
        lo := mid + 1;
      } else {
        hi := mid;
      }
    }
    return lo, false;
  }

  // What both searches look for: a level of that price, or the place for one.
  ghost predicate Found(levels: seq<PriceLevel>, price: int, i: int) {
    0 <= i < |levels| && levels[i].price == price
  }

  ghost predicate Belongs(levels: seq<PriceLevel>, price: int, desc: bool, i: int) {
    && 0 <= i <= |levels|
    && (forall j :: 0 <= j < i ==> Ahead(desc, levels[j].price, price))
    && (forall j :: i <= j < |levels| ==> Ahead(desc, price, levels[j].price))
  }

  // The Java search: found levels give their index, missing ones the negated
  // insertion point less one.
  method SignedLevelIndex(levels: seq<PriceLevel>, price: int, desc: bool) returns (r: int)
    requires forall i, j :: 0 <= i < j < |levels| ==> Ahead(desc, levels[i].price, levels[j].price)
    ensures if r >= 0 then Found(levels, price, r) else Belongs(levels, price, desc, -r - 1)
  {
    var lo, hi := 0, |levels|;
    while lo < hi
      invariant 0 <= lo <= hi <= |levels|
      invariant forall i :: 0 <= i < lo ==> Ahead(desc, levels[i].price, price)
      invariant forall i :: hi <= i < |levels| ==> Ahead(desc, price, levels[i].price)
    {
      var mid := (lo + hi) / 2;
      var p := levels[mid].price;
      if p == price {
        return mid;
      }
      if desc == (p > price) {
        lo := mid + 1;
      } else {
        hi := mid;
      }
    }
    return -lo - 1;
  }

  // Within `repr`, level i of `ls` chains the orders of `vs[i]`, for all i but `except`.
  ghost predicate HeldBut(ls: seq<PriceLevel>, vs: seq<Level>, repr: set<object>, except: int)
    reads repr
  {
    && |ls| == |vs|
    && (forall i :: 0 <= i < |ls| && i != except ==> ls[i] in repr)
    && (forall i, k :: 0 <= i < |ls| && i != except && 0 <= k < |ls[i].fifo| ==> ls[i].fifo[k] in repr)
    && (forall i :: 0 <= i < |ls| && i != except ==> Inside(ls[i], repr) && ls[i].Chained(vs[i]))
  }

  // Restates that a level and its orders belong to `repr`.
  ghost predicate Inside(l: PriceLevel, repr: set<object>)
    reads repr
  {
    l in repr && forall k :: 0 <= k < |l.fifo| ==> l.fifo[k] in repr
  }

  ghost predicate Held(ls: seq<PriceLevel>, vs: seq<Level>, repr: set<object>)
    reads repr
  {
    HeldBut(ls, vs, repr, -1)
  }

  // The orders linked into some levels.
  ghost function NodesOf(ls: seq<PriceLevel>): set<OrderNode>
    reads ls`fifo
  {
    set i, k | 0 <= i < |ls| && 0 <= k < |ls[i].fifo| :: ls[i].fifo[k]
  }

  lemma {:induction false} NodesDrop(ls: seq<PriceLevel>, i: nat)
    requires i < |ls|
    ensures NodesOf(ls[..i] + ls[i + 1..]) <= NodesOf(ls)
  {
    var ls' := ls[..i] + ls[i + 1..];
    assert forall j :: 0 <= j < |ls'| ==> ls'[j] == (if j < i then ls[j] else ls[j + 1]);
  }

  lemma {:induction false} NodesInsert(ls: seq<PriceLevel>, i: nat, l: PriceLevel, o: OrderNode)
    requires i <= |ls| && l.fifo == [o]
    ensures NodesOf(ls[..i] + [l] + ls[i..]) <= NodesOf(ls) + {o}
  {
    var ls' := ls[..i] + [l] + ls[i..];
    assert forall j :: 0 <= j < |ls'| ==> ls'[j] == if j < i then ls[j] else if j == i then l else ls[j - 1];
  }

  // The cached aggregate of every level but `except` is the sum over its orders.
  ghost predicate Summed(ls: seq<PriceLevel>, vs: seq<Level>, except: int)
    reads ls`totalQty
  {
    && |ls| == |vs|
    && forall i :: 0 <= i < |ls| && i != except ==> ls[i].totalQty == Qty(vs[i].orders, All)
  }

  lemma {:induction false} SummedUpdate(ls: seq<PriceLevel>, vs: seq<Level>, i: nat, v: Level)
    requires Summed(ls, vs, i) && i < |ls| && ls[i].totalQty == Qty(v.orders, All)
    ensures Summed(ls, vs[i := v], -1)
  {
  }

  lemma {:induction false} SummedBut(ls: seq<PriceLevel>, vs: seq<Level>, i: nat)
    requires Summed(ls, vs, -1) && i < |ls|
    ensures Summed(ls, vs, i) && ls[i].totalQty == Qty(vs[i].orders, All)
  {
  }

  lemma {:induction false} SummedDrop(ls: seq<PriceLevel>, vs: seq<Level>, i: nat)
    requires Summed(ls, vs, i) && i < |ls|
    ensures Summed(ls[..i] + ls[i + 1..], vs[..i] + vs[i + 1..], -1)
  {
    var ls', vs' := ls[..i] + ls[i + 1..], vs[..i] + vs[i + 1..];
    assert forall j :: 0 <= j < |ls'| ==> ls'[j] == (if j < i then ls[j] else ls[j + 1]);
    assert forall j :: 0 <= j < |vs'| ==> vs'[j] == (if j < i then vs[j] else vs[j + 1]);
  }

  lemma {:induction false} SummedInsert(ls: seq<PriceLevel>, vs: seq<Level>, i: nat, l: PriceLevel, v: Level)
    requires Summed(ls, vs, -1) && i <= |ls| && l.totalQty == Qty(v.orders, All)
    ensures Summed(ls[..i] + [l] + ls[i..], vs[..i] + [v] + vs[i..], -1)
  {
    var ls', vs' := ls[..i] + [l] + ls[i..], vs[..i] + [v] + vs[i..];
    assert forall j :: 0 <= j < |ls'| ==> ls'[j] == if j < i then ls[j] else if j == i then l else ls[j - 1];
    assert forall j :: 0 <= j < |vs'| ==> vs'[j] == if j < i then vs[j] else if j == i then v else vs[j - 1];
  }

  lemma {:induction false} HeldDrop(ls: seq<PriceLevel>, vs: seq<Level>, repr: set<object>, i: nat)
    requires i < |ls| && HeldBut(ls, vs, repr, i)
    ensures Held(ls[..i] + ls[i + 1..], vs[..i] + vs[i + 1..], repr)
  {
    var ls', vs' := ls[..i] + ls[i + 1..], vs[..i] + vs[i + 1..];
    assert forall j :: 0 <= j < |ls'| ==> ls'[j] == (if j < i then ls[j] else ls[j + 1]);
    assert forall j :: 0 <= j < |vs'| ==> vs'[j] == (if j < i then vs[j] else vs[j + 1]);
  }

  lemma {:induction false} HeldUpdate(ls: seq<PriceLevel>, vs: seq<Level>, repr: set<object>, i: nat, v: Level)
    requires i < |ls| && HeldBut(ls, vs, repr, i)
    requires Inside(ls[i], repr) && ls[i].Chained(v)
    ensures Held(ls, vs[i := v], repr)
  {
  }

  lemma {:induction false} HeldInsert(ls: seq<PriceLevel>, vs: seq<Level>, repr: set<object>, i: nat, l: PriceLevel, v: Level)
    requires i <= |ls| && Held(ls, vs, repr)
    requires Inside(l, repr) && l.Chained(v)
    ensures Held(ls[..i] + [l] + ls[i..], vs[..i] + [v] + vs[i..], repr)
  {
    var ls', vs' := ls[..i] + [l] + ls[i..], vs[..i] + [v] + vs[i..];
    forall j | 0 <= j < |ls'|
      ensures Inside(ls'[j], repr) && ls'[j].Chained(vs'[j])
    {
      if j < i {
        assert ls'[j] == ls[j] && vs'[j] == vs[j];
      } else if j > i {
        assert ls'[j] == ls[j - 1] && vs'[j] == vs[j - 1];
      }
    }
  }

  lemma {:induction false} HeldGrows(ls: seq<PriceLevel>, vs: seq<Level>, repr: set<object>, more: set<object>, except: int)
    requires HeldBut(ls, vs, repr, except) && repr <= more
    ensures HeldBut(ls, vs, more, except)
  {
    forall i | 0 <= i < |ls| && i != except
      ensures Inside(ls[i], more)
    {
      assert Inside(ls[i], repr);
    }
  }

  // The two engines differ in how they search their levels.
  datatype Engine = Go | Java

  // One side of the book: the slice of levels behind `&b.bids` or `&b.asks`.
  class LevelSlice {
    const engine: Engine
    var levels: seq<PriceLevel>
    const buy: bool
    ghost var view: seq<Level>
    ghost var Repr: set<object> // the levels and orders, without the slice itself

    constructor (engine: Engine, buy: bool)
      ensures this.engine == engine && this.buy == buy
      ensures levels == [] && view == [] && Repr == {} && Linked() && Totals()
    {
      this.engine, this.buy := engine, buy;
      levels, view, Repr := [], [], {};
    }

    // The level search of this engine; the sign of the Java result tells whether
    // the level was found.
    method Lookup(price: int) returns (idx: nat, found: bool)
      requires forall i, j :: 0 <= i < j < |levels| ==> Ahead(buy, levels[i].price, levels[j].price)
      ensures if found then Found(levels, price, idx) else Belongs(levels, price, buy, idx)
    {
      match engine
      case Go =>
        idx, found := LevelIndex(levels, price, buy);
      case Java =>
        var r := SignedLevelIndex(levels, price, buy);
        if r >= 0 {
          idx, found := r, true;
        } else {
          idx, found := -r - 1, false;
        }
    }

    ghost predicate Linked()
      reads this, Repr
    {
      this !in Repr && Ladder(view, buy) && Held(levels, view, Repr)
    }

    ghost predicate Totals()
      reads this, levels`totalQty
    {
      Summed(levels, view, -1)
    }

    ghost function LevelAt(i: nat): PriceLevel
      requires i < |levels|
      reads this
    {
      levels[i]
    }

    // `o` is the k-th order of level i.
    ghost predicate At(o: OrderNode, i: nat, k: nat)
      reads this, Repr
    {
      Linked() && i < |levels| && k < |levels[i].fifo| && levels[i].fifo[k] == o
    }

    // Levels have different prices, and an order knows its level, so two levels
    // share neither a price nor an order.
    lemma {:induction false} LevelsApart(i: nat)
      requires Linked() && i < |levels|
      ensures forall j :: 0 <= j < |levels| && j != i ==> levels[j].price != levels[i].price
      ensures forall j, k :: 0 <= j < |levels| && j != i && 0 <= k < |levels[j].fifo| ==> levels[j].fifo[k] !in levels[i].fifo
      ensures forall j, k :: 0 <= j < |levels| && 0 <= k < |levels[j].fifo| ==> levels[j].fifo[k] in Repr
    {
      forall j | 0 <= j < |levels| && j != i
        ensures levels[j].price != levels[i].price
      {
        assert if j < i then Ahead(buy, view[j].price, view[i].price) else Ahead(buy, view[i].price, view[j].price);
      }
      forall j, k | 0 <= j < |levels| && j != i && 0 <= k < |levels[j].fifo|
        ensures levels[j].fifo[k] !in levels[i].fifo
      {
        assert levels[j].fifo[k].level == levels[j];
      }
    }

    lemma {:induction false} Footprint()
      requires Linked()
      ensures forall n :: n in Nodes() ==> n in Repr
      ensures forall l :: l in levels ==> l in Repr
    {
    }

    // A slice whose own objects did not change stays as it was.
    twostate lemma {:induction false} Undisturbed()
      requires old(Linked()) && unchanged(this) && unchanged(Repr)
      ensures Linked() && Nodes() == old(Nodes()) && (old(Totals()) ==> Totals())
    {
      assert forall l :: l in levels ==> l in Repr by {
        Footprint();
      }
      hide HeldBut, Summed, NodesOf, Ladder;
    }

    // What the slice says about one of its levels, and about the orders in it.
    lemma {:induction false} Facts(i: nat)
      requires Linked() && i < |levels|
      ensures |levels| == |view| && Ladder(view, buy) && LevelOk(view[i], buy)
      ensures Inside(levels[i], Repr) && levels[i] in Repr && levels[i].Chained(view[i]) && levels[i].price == view[i].price
      ensures Totals() ==> levels[i].totalQty == Qty(view[i].orders, All)
    {
      assert levels[i].Chained(view[i]);
    }

    lemma {:induction false} NodeFacts(i: nat)
      requires Linked() && i < |levels|
      ensures |view| == |levels| && |levels[i].fifo| == |view[i].orders|
      ensures Distinct(levels[i].fifo) && levels[i].fifo != [] && levels[i].head == levels[i].fifo[0]
      ensures forall k :: 0 <= k < |levels[i].fifo| ==> levels[i].fifo[k].level == levels[i]
      ensures forall k :: 0 <= k < |levels[i].fifo| ==> levels[i].fifo[k].Value() == view[i].orders[k]
      ensures forall k :: 0 <= k < |levels[i].fifo| ==> levels[i].fifo[k] in Nodes()
    {
      Facts(i);
    }

    ghost function Nodes(): set<OrderNode>
      reads this, levels`fifo
    {
      NodesOf(levels)
    }

    // Work on level i leaves the other levels held and summed as they were.
    twostate lemma {:induction false} OthersStayHeld(i: nat)
      requires unchanged(this) && i < |levels| && old(Held(levels, view, Repr))
      requires forall j :: 0 <= j < |levels| && j != i ==> unchanged(levels[j])
      requires forall j, k :: 0 <= j < |levels| && j != i && 0 <= k < |levels[j].fifo| ==> unchanged(levels[j].fifo[k])
      ensures HeldBut(levels, view, Repr, i)
    {
      forall j | 0 <= j < |levels| && j != i
        ensures levels[j].Chained(view[j])
      {
        levels[j].StaysChained(view[j]);
      }
    }

    twostate lemma {:induction false} OthersStaySummed(i: nat)
      requires unchanged(this) && old(Totals()) && i < |levels|
      requires forall j :: 0 <= j < |levels| && j != i ==> levels[j].totalQty == old(levels[j].totalQty)
      ensures Summed(levels, view, i)
    {
    }

    // Taking out an order, or appending one, changes the linked orders by just that.
    twostate lemma {:induction false} NodesWithout(i: nat, new k: nat)
      requires unchanged(this) && i < |levels| && k < |old(levels[i].fifo)| && old(Distinct(levels[i].fifo))
      requires levels[i].fifo == old(levels[i].fifo[..k] + levels[i].fifo[k + 1..])
      requires forall j :: 0 <= j < |levels| && j != i ==> levels[j].fifo == old(levels[j].fifo)
      requires forall j, m :: 0 <= j < |levels| && j != i && 0 <= m < |levels[j].fifo| ==> levels[j].fifo[m] != old(levels[i].fifo[k])
      ensures Nodes() <= old(Nodes()) - {old(levels[i].fifo[k])}
    {
      forall n | n in Nodes()
        ensures n in old(Nodes()) && n != old(levels[i].fifo[k])
      {
        var j, m :| 0 <= j < |levels| && 0 <= m < |levels[j].fifo| && levels[j].fifo[m] == n;
        if j == i {
          assert n == old(levels[i].fifo)[if m < k then m else m + 1];
        } else {
          assert n == old(levels[j].fifo[m]);
        }
      }
    }

    twostate lemma {:induction false} NodesWith(i: nat, new o: OrderNode)
      requires unchanged(this) && i < |levels| && levels[i].fifo == old(levels[i].fifo) + [o]
      requires forall j :: 0 <= j < |levels| && j != i ==> levels[j].fifo == old(levels[j].fifo)
      ensures Nodes() <= old(Nodes()) + {o}
    {
      forall n | n in Nodes()
        ensures n in old(Nodes()) || n == o
      {
        var j, m :| 0 <= j < |levels| && 0 <= m < |levels[j].fifo| && levels[j].fifo[m] == n;
        assert n == o || n == old(levels[j].fifo[m]);
      }
    }

    // Assigns the slice once the levels are in shape.
    method Install(ls: seq<PriceLevel>, ghost vs: seq<Level>, ghost repr: set<object>)
      requires this !in repr && Ladder(vs, buy) && Held(ls, vs, repr)
      modifies this`levels, this`view, this`Repr
      ensures levels == ls && view == vs && Repr == repr && Linked()
      ensures old(Summed(ls, vs, -1)) ==> Totals()
      ensures Nodes() == old(NodesOf(ls))
    {
      hide HeldBut, Inside, NodesOf, Ladder, Summed;
      levels, view, Repr := ls, vs, repr;
    }

    // The pointer half of unlinking: everything but level i stays as it was.
    method TakeOut(o: OrderNode, ghost i: nat, ghost k: nat)
      requires At(o, i, k)
      modifies LevelAt(i)`head, LevelAt(i)`tail, LevelAt(i)`fifo
      modifies LevelAt(i).fifo`prev, LevelAt(i).fifo`next, LevelAt(i).fifo`level
      ensures HeldBut(levels, view, Repr, i)
      ensures Inside(levels[i], Repr) && levels[i].Chained(Removed(view[i], k))
      ensures Nodes() <= old(Nodes()) - {o}
    {
      hide HeldBut, Summed, Ladder, NodesOf, Carries, Flat;
      LevelsApart(i);
      Facts(i);
      NodeFacts(i);
      o.level.Detach(o, view[i], k);
      OthersStayHeld(i);
      NodesWithout(i, k);
    }

    // Looks up the emptied level i by its price and splices it out.
    method SpliceOut(price: int, ghost i: nat)
      requires i < |levels| == |view| && this !in Repr && Ladder(view, buy)
      requires HeldBut(levels, view, Repr, i) && Summed(levels, view, i) && levels[i].price == view[i].price == price
      modifies this`levels, this`view, this`Repr
      ensures Linked() && Totals() && Repr == old(Repr)
      ensures levels == old(levels[..i] + levels[i + 1..]) && view == old(view[..i] + view[i + 1..])
      ensures Nodes() <= old(Nodes())
    {
      forall j | 0 <= j < |levels|
        ensures levels[j].price == view[j].price
      {
        assert j != i ==> levels[j].Chained(view[j]);
      }
      var idx, found := Lookup(price);
      assert found && idx == i;
      LadderDrop(view, i, buy);
      HeldDrop(levels, view, Repr, i);
      SummedDrop(levels, view, i);
      NodesDrop(levels, i);
      Install(levels[..idx] + levels[idx + 1..], view[..i] + view[i + 1..], Repr);
    }

    // Records the new contents of level i once its chain and total are in shape.
    method Settle(ghost i: nat, ghost v: Level, ghost repr: set<object>)
      requires i < |levels| == |view| && this !in repr && Ladder(view, buy)
      requires LevelOk(v, buy) && v.price == view[i].price
      requires HeldBut(levels, view, repr, i) && Inside(levels[i], repr) && levels[i].Chained(v)
      requires Summed(levels, view, i) && levels[i].totalQty == Qty(v.orders, All)
      modifies this`levels, this`view, this`Repr
      ensures Linked() && Totals() && Repr == repr
      ensures levels == old(levels) && view == old(view[i := v]) && Nodes() == old(Nodes())
    {
      hide HeldBut, Inside, Summed, NodesOf, Ladder;
      LadderUpdate(view, i, v, buy);
      HeldUpdate(levels, view, repr, i, v);
      SummedUpdate(levels, view, i, v);
      Install(levels, view[i := v], repr);
    }

    // Takes a quantity off the total of level i ahead of the order that held it.
    method Debit(lvl: PriceLevel, qty: int, ghost i: nat)
      requires Linked() && Totals() && i < |levels| && levels[i] == lvl
      modifies lvl`totalQty
      ensures Linked() && Summed(levels, view, i) && lvl.totalQty == old(lvl.totalQty) - qty
    {
      hide HeldBut, Summed, Ladder, Carries, Chain;
      LevelsApart(i);
      Facts(i);
      lvl.totalQty := lvl.totalQty - qty;
      OthersStayHeld(i);
      OthersStaySummed(i);
      HeldUpdate(levels, view, Repr, i, view[i]);
      assert view[i := view[i]] == view;
    }

    // Unlinks `o`; an emptied level is looked up by price and spliced out. The
    // caller has already taken the order's quantity off its level's total.
    method Remove(o: OrderNode, ghost i: nat, ghost k: nat)
      requires At(o, i, k)
      requires Summed(levels, view, i) && levels[i].totalQty == Qty(view[i].orders, All) - o.qty
      modifies this`levels, this`view, this`Repr, LevelAt(i)`head, LevelAt(i)`tail, LevelAt(i)`fifo
      modifies LevelAt(i).fifo`prev, LevelAt(i).fifo`next, LevelAt(i).fifo`level
      ensures Linked() && Totals() && Repr == old(Repr)
      ensures Nodes() <= old(Nodes()) - {o}
      ensures levels == if old(|view[i].orders|) == 1 then old(levels[..i] + levels[i + 1..]) else old(levels)
      ensures view == old(ViewWithout(view, i, k))
    {
      hide HeldBut, Summed, NodesOf, Chain, Ladder;
      Facts(i);
      NodeFacts(i);
      var lvl := o.level;
      QtyWithout(view[i].orders, k, All);
      TakeOut(o, i, k);
      if lvl.head == null {
        SpliceOut(lvl.price, i);
      } else {
        RemovedOk(view[i], k, buy);
        Settle(i, Removed(view[i], k), Repr);
      }
    }

    // The pointer half of resting: everything but level i stays as it was.
    method PutIn(o: OrderNode, i: nat)
      requires Linked() && Totals() && i < |levels|
      requires o !in Repr && o.prev == null && o.next == null
      modifies LevelAt(i)`head, LevelAt(i)`tail, LevelAt(i)`fifo, LevelAt(i)`totalQty
      modifies LevelAt(i).fifo`next, o`level, o`prev
      ensures HeldBut(levels, view, Repr + {o}, i)
      ensures Inside(levels[i], Repr + {o}) && levels[i].Chained(view[i].(orders := view[i].orders + [o.Value()]))
      ensures Nodes() <= old(Nodes()) + {o}
      ensures Summed(levels, view, i) && levels[i].totalQty == Qty(view[i].orders + [o.Value()], All)
    {
      hide HeldBut, Summed, Ladder, NodesOf, Chain, Carries, Flat;
      LevelsApart(i);
      Facts(i);
      var lvl := levels[i];
      lvl.Append(o, view[i]);
      lvl.totalQty := lvl.totalQty + o.qty;
      QtyConcat(view[i].orders, [o.Value()], All);
      OthersStayHeld(i);
      OthersStaySummed(i);
      HeldGrows(levels, view, Repr, Repr + {o}, i);
      NodesWith(i, o);
    }

    // Queues `o` at an existing level of its price.
    method RestOld(o: OrderNode, i: nat)
      requires Linked() && Totals() && i < |levels| && levels[i].price == o.price
      requires (o.side == BUY) == buy && o !in Repr && o.prev == null && o.next == null
      modifies this`levels, this`view, this`Repr, LevelAt(i)`head, LevelAt(i)`tail, LevelAt(i)`fifo, LevelAt(i)`totalQty
      modifies LevelAt(i).fifo`next, o`level, o`prev
      ensures Linked() && Totals() && Repr == old(Repr) + {o}
      ensures levels == old(levels) && Nodes() <= old(Nodes()) + {o}
      ensures view == old(view)[i := Level(o.price, old(view[i].orders) + [o.Value()])]
    {
      ghost var v := Level(o.price, view[i].orders + [o.Value()]);
      hide HeldBut, Inside, Summed, NodesOf, Ladder, Chain, Carries, Flat, LevelOk, Qty;
      Facts(i);
      AppendOk(view[i], o.Value(), buy);
      PutIn(o, i);
      Settle(i, v, Repr + {o});
    }

    // Opens a level for the price of `o` and queues it there.
    method RestNew(o: OrderNode, i: nat) returns (lvl: PriceLevel)
      requires Linked() && Totals() && i <= |levels|
      requires forall j :: 0 <= j < i ==> Ahead(buy, levels[j].price, o.price)
      requires forall j :: i <= j < |levels| ==> Ahead(buy, o.price, levels[j].price)
      requires (o.side == BUY) == buy && o !in Repr && o.prev == null && o.next == null
      modifies this`levels, this`view, this`Repr, o`level, o`prev
      ensures Linked() && Totals() && Repr == old(Repr) + {o, lvl} && fresh(lvl) && lvl.price == o.price
      ensures levels == old(levels[..i] + [lvl] + levels[i..]) && Nodes() <= old(Nodes()) + {o}
      ensures view == old(view[..i] + [Level(o.price, [o.Value()])] + view[i..])
    {
      hide HeldBut, Summed, Ladder, NodesOf, Chain, Carries;
      lvl := OpenLevel(o);
      SpliceIn(o, lvl, i);
    }

    // A new level with `o` as its only order.
    method FirstIn(o: OrderNode) returns (lvl: PriceLevel)
      requires o.prev == null && o.next == null
      modifies o`level, o`prev
      ensures fresh(lvl) && lvl.fifo == [o] && lvl.Chained(Level(o.price, [o.Value()])) && lvl.totalQty == o.qty
    {
      lvl := new PriceLevel(o.price);
      assert lvl.Chained(Level(o.price, []));
      hide Chain, Carries;
      lvl.Append(o, Level(o.price, []));
      lvl.totalQty := lvl.totalQty + o.qty;
    }

    method OpenLevel(o: OrderNode) returns (lvl: PriceLevel)
      requires Linked() && Totals() && o !in Repr && o.prev == null && o.next == null
      modifies o`level, o`prev
      ensures fresh(lvl) && lvl.fifo == [o] && lvl.Chained(Level(o.price, [o.Value()]))
      ensures lvl.totalQty == o.qty
      ensures Linked() && Totals()
    {
      hide HeldBut, Summed, Ladder, Inside, Chain, Carries;
      Footprint();
      lvl := FirstIn(o);
      Undisturbed();
    }

    method SpliceIn(o: OrderNode, lvl: PriceLevel, i: nat)
      requires Linked() && Totals() && i <= |levels| && (o.side == BUY) == buy
      requires lvl.fifo == [o] && lvl.Chained(Level(o.price, [o.Value()])) && lvl.totalQty == o.qty
      requires forall j :: 0 <= j < i ==> Ahead(buy, levels[j].price, o.price)
      requires forall j :: i <= j < |levels| ==> Ahead(buy, o.price, levels[j].price)
      modifies this`levels, this`view, this`Repr
      ensures Linked() && Totals() && Repr == old(Repr) + {o, lvl}
      ensures levels == old(levels[..i] + [lvl] + levels[i..]) && Nodes() <= old(Nodes()) + {o}
      ensures view == old(view[..i] + [Level(o.price, [o.Value()])] + view[i..])
    {
      ghost var v, repr := Level(o.price, [o.Value()]), Repr + {o, lvl};
      forall j | 0 <= j < |levels|
        ensures levels[j].price == view[j].price
      {
        assert levels[j].Chained(view[j]);
      }
      LadderInsert(view, i, v, buy);
      HeldGrows(levels, view, Repr, repr, -1);
      HeldInsert(levels, view, repr, i, lvl, v);
      SummedInsert(levels, view, i, lvl, v);
      NodesInsert(levels, i, lvl, o);
      Install(levels[..i] + [lvl] + levels[i..], view[..i] + [v] + view[i..], repr);
    }

    // Rests an order behind all orders of a better or equal price: at its
    // level if there is one, else at a new level where the search ended.
    method Rest(o: OrderNode) returns (lvl: PriceLevel)
      requires Linked() && Totals()
      requires (o.side == BUY) == buy && o !in Repr && o.prev == null && o.next == null
      modifies this`levels, this`view, this`Repr, levels`head, levels`tail, levels`fifo, levels`totalQty
      modifies Nodes()`next, o`level, o`prev
      ensures Linked() && Totals() && Nodes() <= old(Nodes()) + {o}
      ensures old(Repr) + {o} <= Repr && fresh(Repr - old(Repr) - {o})
      ensures Flat(view) == Insert(old(Flat(view)), o.Value())
      ensures lvl in levels && lvl.price == o.price && (lvl in old(levels) || fresh(lvl))
    {
      hide HeldBut, Summed, NodesOf, Ladder, Chain, Carries, Inside, Flat, Insert, LevelOk, Ahead;
      var i, found := Search(o.price);
      if found {
        Facts(i);
        NodeFacts(i);
        RestOldLevel(view, i, o.Value());
        lvl := levels[i];
        RestOld(o, i);
      } else {
        RestNewLevel(view, i, o.Value());
        lvl := RestNew(o, i);
        assert levels[i] == lvl;
      }
    }

    // The level search on this slice, where it also places the price in the view.
    method Search(price: int) returns (i: nat, found: bool)
      requires Linked()
      ensures |levels| == |view| && Ladder(view, buy)
      ensures found ==> i < |levels| && levels[i].price == price
      ensures !found ==> i <= |levels|
      ensures !found ==> forall j :: 0 <= j < i ==> Ahead(buy, levels[j].price, price) && Ahead(buy, view[j].price, price)
      ensures !found ==> forall j :: i <= j < |levels| ==> Ahead(buy, price, levels[j].price) && Ahead(buy, price, view[j].price)
    {
      forall j | 0 <= j < |levels|
        ensures levels[j].price == view[j].price
      {
        assert levels[j].Chained(view[j]);
      }
      i, found := Lookup(price);
    }

    // Takes a fill off the best order and its level's total.
    method Reduce(maker: OrderNode, best: PriceLevel, fill: int)
      requires Linked() && Totals() && levels != [] && best == levels[0] && best.head == maker
      modifies this`levels, this`view, this`Repr, maker`qty, best`totalQty
      ensures Linked() && Totals() && Repr == old(Repr) && levels == old(levels) && Nodes() == old(Nodes())
      ensures maker.qty == old(maker.qty) - fill && best.totalQty == old(best.totalQty) - fill
      ensures old(view[0].orders) != [] && maker.Value() == old(view[0].orders[0].(qty := maker.qty - fill))
      ensures view == old(view)[0 := Level(best.price, [maker.Value()] + old(view[0].orders[1..]))]
    {
      hide HeldBut, Summed, Ladder, NodesOf, Chain, Carries, Flat;
      LevelsApart(0);
      Facts(0);
      NodeFacts(0);
      ghost var orders := view[0].orders;
      assert orders == [maker.Value()] + orders[1..];
      QtyConcat([maker.Value()], orders[1..], All);
      maker.qty := maker.qty - fill;
      best.totalQty := best.totalQty - fill;
      OthersStayHeld(0);
      OthersStaySummed(0);
      best.HeadReduced(view[0]);
      QtyConcat([maker.Value()], orders[1..], All);
      Settle(0, Level(best.price, [maker.Value()] + orders[1..]), Repr);
    }
  }
}
