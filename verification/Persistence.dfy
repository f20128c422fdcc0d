/**
Writing a pointer-based book to a stream and rebuilding one from bytes, proved
against the byte-level functions of `Snapshot.dfy`; and the chunking in which
the service publishes a snapshot.
*/
module Persistence {
  import opened Events
  import opened Book
  import opened Invariant
  import opened Bytes
  import opened Levels
  import opened LevelSlices
  import opened OrderBooks
  import opened Snapshot

  // --- Writing ---------------------------------------------------------------

  lemma {:induction false} SideBytesSnoc(s: seq<Order>, k: nat)
    requires k < |s|
    ensures SideBytes(s[..k + 1]) == SideBytes(s[..k]) + OrderBytes(s[k])
  {
    hide OrderBytes;
    SideBytesConcat(s[..k], [s[k]]);
    assert s[..k + 1] == s[..k] + [s[k]];
    assert [s[k]][1..] == [] && SideBytes([s[k]]) == OrderBytes(s[k]) + [];
  }

  // Walks one level's FIFO from head to tail.
  method WriteLevel(slice: LevelSlice, i: nat) returns (w: seq<byte>)
    requires slice.Linked() && i < |slice.levels| == |slice.view|
    ensures w == SideBytes(slice.view[i].orders)
  {
    hide HeldBut, Ladder, Put, SideBytes;
    slice.Facts(i);
    slice.NodeFacts(i);
    ghost var fifo, orders := slice.levels[i].fifo, slice.view[i].orders;
    var o := slice.levels[i].head;
    ghost var k := 0;
    w := [];
    EmptyBytes(orders);
    while o != null
      invariant 0 <= k <= |fifo| && o == (if k < |fifo| then fifo[k] else null)
      invariant w == SideBytes(orders[..k])
      decreases |fifo| - k
    {
      SideBytesSnoc(orders, k);
      Neighbours(fifo, k);
      assert o.Value() == orders[k];
      w := w + (Put(o.id, 8) + Put(o.clientOrderId, 8) + Put(o.owner, 8) + Put(o.side, 1) + Put(o.price, 8) + Put(o.qty, 8));
      o := o.next;
      k := k + 1;
    }
    assert orders[..|fifo|] == orders;
  }

  lemma {:induction false} EmptyBytes(s: seq<Order>)
    ensures s[..0] == [] && SideBytes(s[..0]) == []
  {
  }

  lemma {:induction false} NoLevels(slice: LevelSlice)
    requires slice.Linked()
    ensures |slice.levels| == |slice.view| && SideBytes(Flat(slice.view[..0])) == []
  {
    assert slice.view[..0] == [];
  }

  method WriteSide(slice: LevelSlice) returns (w: seq<byte>)
    requires slice.Linked()
    ensures w == SideBytes(Flat(slice.view))
  {
    hide HeldBut, Ladder, SideBytes, Flat;
    w := [];
    NoLevels(slice);
    for i := 0 to |slice.levels|
      invariant w == SideBytes(Flat(slice.view[..i]))
    {
      var more := WriteLevel(slice, i);
      FlatConcat(slice.view[..i], [slice.view[i]]);
      FlatOne(slice.view[i]);
      assert slice.view[..i + 1] == slice.view[..i] + [slice.view[i]];
      SideBytesConcat(Flat(slice.view[..i]), slice.view[i].orders);
      w := w + more;
    }
    assert slice.view[..|slice.view|] == slice.view;
  }

  // The map has one entry per resting order.
  lemma {:induction false} IdsSize(s: seq<Order>)
    requires forall i, j :: 0 <= i < j < |s| ==> s[i].id != s[j].id
    ensures |Ids(s)| == |s|
  {
    if s != [] {
      var n := |s| - 1;
      IdsSize(s[..n]);
      assert Ids(s) == Ids(s[..n]) + {s[n].id} by {
        assert forall i :: 0 <= i < n ==> s[..n][i] == s[i];
      }
      assert s[n].id !in Ids(s[..n]);
    }
  }

  lemma {:induction false} MapSize(book: OrderBook)
    requires book.Valid()
    ensures |book.orders| == Count(book.View())
  {
    var b := book.View();
    IdsSize(b.bids);
    IdsSize(b.asks);
    assert Ids(b.bids) !! Ids(b.asks);
    assert |Ids(b.bids) + Ids(b.asks)| == |Ids(b.bids)| + |Ids(b.asks)|;
    assert |book.orders.Keys| == |book.orders|;
  }

  // The complete book state as bytes.
  method SnapshotOf(book: OrderBook) returns (w: seq<byte>)
    requires book.Valid()
    ensures w == SnapshotBytes(book.View())
  {
    hide HeldBut, Summed, NodesOf, Ladder, Flat, Ids, Indexes, WellFormed, Put, SideBytes;
    MapSize(book);
    w := Put(MAGIC, 4) + Put(VERSION, 4) + Put(INSTRUMENT, 8) + Put(book.nextOrderId, 8) + Put(|book.orders|, 4);
    var bids := WriteSide(book.bids);
    var asks := WriteSide(book.asks);
    w := w + bids + asks;
  }

  // --- Reading ---------------------------------------------------------------

  ghost predicate NoRepeats(b: Book) {
    && (forall i, j :: 0 <= i < j < |b.bids| ==> b.bids[i].id != b.bids[j].id)
    && (forall i, j :: 0 <= i < j < |b.asks| ==> b.asks[i].id != b.asks[j].id)
    && (forall i, j :: 0 <= i < |b.bids| && 0 <= j < |b.asks| ==> b.bids[i].id != b.asks[j].id)
  }

  lemma {:induction false} InsertRepeats(s: seq<Order>, o: Order)
    ensures var t := Insert(s, o);
            var k := RestPosition(s, o.price, o.side == BUY);
            |t| == |s| + 1 && t[k] == o && forall i :: 0 <= i < |s| ==> t[if i < k then i else i + 1] == s[i]
  {
  }

  // The order in position i of a side before `o` rested, found again afterwards.
  lemma {:induction false} InsertKeepsAt(s: seq<Order>, o: Order, i: nat) returns (j: nat)
    requires i < |s|
    ensures j < |Insert(s, o)| && Insert(s, o)[j] == s[i] && j != RestPosition(s, o.price, o.side == BUY)
    ensures j == if i < RestPosition(s, o.price, o.side == BUY) then i else i + 1
  {
    InsertRepeats(s, o);
    j := if i < RestPosition(s, o.price, o.side == BUY) then i else i + 1;
  }

  lemma {:induction false} InsertSame(s: seq<Order>, o: Order)
    requires forall i, j :: 0 <= i < j < |Insert(s, o)| ==> Insert(s, o)[i].id != Insert(s, o)[j].id
    ensures forall i, j :: 0 <= i < j < |s| ==> s[i].id != s[j].id
    ensures o.id !in Ids(s)
  {
    InsertRepeats(s, o);
    hide Insert;
    forall i, j | 0 <= i < j < |s|
      ensures s[i].id != s[j].id
    {
      var i' := InsertKeepsAt(s, o, i);
      var j' := InsertKeepsAt(s, o, j);
    }
    forall i | 0 <= i < |s|
      ensures s[i].id != o.id
    {
      var i' := InsertKeepsAt(s, o, i);
    }
  }

  lemma {:induction false} InsertApart(s: seq<Order>, o: Order, other: seq<Order>)
    requires forall i, j :: 0 <= i < |Insert(s, o)| && 0 <= j < |other| ==> Insert(s, o)[i].id != other[j].id
    ensures forall i, j :: 0 <= i < |s| && 0 <= j < |other| ==> s[i].id != other[j].id
    ensures o.id !in Ids(other)
  {
    InsertRepeats(s, o);
    hide Insert;
    forall i, j | 0 <= i < |s| && 0 <= j < |other|
      ensures s[i].id != other[j].id
    {
      var i' := InsertKeepsAt(s, o, i);
    }
  }

  // If a book has no repeated id after an order rested, it had none before, and
  // the order's id was new.
  lemma {:induction false} RestRepeats(b: Book, o: Order)
    requires NoRepeats(Rest(b, o))
    ensures NoRepeats(b) && o.id !in Ids(b.bids) + Ids(b.asks)
  {
    hide Insert, Ids;
    var own, other := Own(b, o.side), if o.side == BUY then b.asks else b.bids;
    InsertSame(own, o);
    InsertApart(own, o, other);
  }

  // Rebuilds a book from any bytes: it fails exactly when the byte-level restore
  // does, and otherwise holds exactly the orders that restore gives. The rebuilt
  // book is fully valid whenever those orders are well formed.
  method RestoreOrderBook(r: seq<byte>) returns (res: Restored<OrderBook>)
    ensures Restore(r).Err? ==> res.Err? && res.error == Restore(r).error
    ensures Restore(r).Ok? ==> res.Ok? && fresh(res.value.Objects()) && res.value.Linked() && res.value.View() == Restore(r).value
    ensures Restore(r).Ok? ==> res.value.Listed() == IndexOrders(r[HEADER..], CountOf(r), map[])
    ensures Restore(r).Ok? && WellFormed(Restore(r).value) ==> res.value.Valid()
  {
    hide HeldBut, Summed, NodesOf, Ladder, Flat, Ids, Indexes, WellFormed, ReadOrders, IndexOrders, Signed, Unsigned, NoRepeats, OrderBook.Linked, OrderBook.Indexed, OrderBook.Listed;
    if |r| < HEADER {
      return Err(Truncated);
    }
    var magic, version := Unsigned(r[..4]), Signed(r[4..8]);
    var nextOrderId, count := Signed(r[16..24]), Signed(r[24..28]);
    if magic != MAGIC {
      return Err(BadMagic);
    }
    if version != VERSION {
      return Err(BadVersion);
    }
    var b := new OrderBook(Go);
    var ok := RestAll(b, r, count);
    if !ok {
      return Err(Truncated);
    }
    SetNextId(b, nextOrderId);
    if WellFormed(b.View()) {
      WellFormedRepeats(b.View());
    }
    return Ok(b);
  }

  method SetNextId(b: OrderBook, nextOrderId: int)
    requires b.Linked()
    modifies b`nextOrderId
    ensures b.Linked() && b.Objects() == old(b.Objects()) && b.View() == old(b.View()).(nextId := nextOrderId)
    ensures b.Listed() == old(b.Listed())
    ensures old(b.Indexed()) ==> b.Indexed()
  {
    hide HeldBut, Summed, NodesOf, Ladder, Flat, Ids, Indexes;
    b.nextOrderId := nextOrderId;
    b.bids.Undisturbed();
    b.asks.Undisturbed();
  }

  lemma {:induction false} WellFormedRepeats(b: Book)
    requires WellFormed(b)
    ensures forall id :: NoRepeats(b.(nextId := id))
  {
  }

  method RestAll(b: OrderBook, r: seq<byte>, count: int) returns (ok: bool)
    requires b.Valid() && b.View() == EMPTY && b.Listed() == map[] && |r| >= HEADER
    modifies b.Objects()
    ensures fresh(b.Objects() - old(b.Objects()))
    ensures var whole := ReadAt(r, HEADER, count, EMPTY);
            && (ok <==> whole.Ok?) && (!ok ==> whole == Err(Truncated))
            && (ok ==> b.Linked() && b.View() == whole.value && (NoRepeats(b.View()) ==> b.Indexed()))
    ensures ok ==> b.Listed() == IndexAt(r, HEADER, count, map[])
  {
    hide HeldBut, Summed, NodesOf, Ladder, Flat, Ids, Indexes, WellFormed, Rest, NoRepeats, ReadOrder, ReadAt, IndexAt, OrderBook.Linked, OrderBook.Indexed, OrderBook.Listed;
    var pos := HEADER;
    var i := 0;
    while i < count
      invariant 0 <= i && (count >= 0 ==> i <= count) && HEADER <= pos <= |r|
      invariant b.Linked() && fresh(b.Objects() - old(b.Objects()))
      invariant NoRepeats(b.View()) ==> b.Indexed()
      invariant ReadAt(r, HEADER, count, EMPTY) == ReadAt(r, pos, count - i, b.View())
      invariant IndexAt(r, HEADER, count, map[]) == IndexAt(r, pos, count - i, b.Listed())
    {
      ReadFrom(r, pos, count - i, b.View());
      IndexFrom(r, pos, count - i, b.Listed());
      if |r| - pos < RECORD {
        return false;
      }
      ReadAndRest(b, r, pos);
      pos := pos + RECORD;
      i := i + 1;
    }
    ReadFrom(r, pos, count - i, b.View());
    IndexFrom(r, pos, count - i, b.Listed());
    return true;
  }

  // Reading from a position of the stream, and one turn of it.
  function ReadAt(r: seq<byte>, pos: nat, count: int, b: Book): Restored<Book>
    requires pos <= |r|
  {
    ReadOrders(r[pos..], count, b)
  }

  lemma {:induction false} ReadFrom(r: seq<byte>, pos: nat, count: int, b: Book)
    requires pos <= |r|
    ensures ReadAt(r, pos, count, b)
         == if count <= 0 then Ok(b)
            else if |r| - pos < RECORD then Err(Truncated)
            else ReadAt(r, pos + RECORD, count - 1, Rest(b, ReadOrder(r[pos..])))
  {
    hide Rest, ReadOrder;
    if |r| - pos >= RECORD {
      assert r[pos..][RECORD..] == r[pos + RECORD..];
    }
  }

  function IndexAt(r: seq<byte>, pos: nat, count: int, m: map<int, Order>): map<int, Order>
    requires pos <= |r|
  {
    IndexOrders(r[pos..], count, m)
  }

  lemma {:induction false} IndexFrom(r: seq<byte>, pos: nat, count: int, m: map<int, Order>)
    requires pos <= |r|
    ensures IndexAt(r, pos, count, m)
         == if count <= 0 || |r| - pos < RECORD then m
            else var o := ReadOrder(r[pos..]); IndexAt(r, pos + RECORD, count - 1, m[o.id := o])
  {
    hide ReadOrder;
    if |r| - pos >= RECORD {
      assert r[pos..][RECORD..] == r[pos + RECORD..];
    }
  }

  // Reads the record at `pos` into a fresh order and rests it.
  method ReadAndRest(b: OrderBook, r: seq<byte>, pos: nat)
    requires b.Linked() && (NoRepeats(b.View()) ==> b.Indexed()) && pos + RECORD <= |r|
    modifies b.Objects()
    ensures b.Linked() && (NoRepeats(b.View()) ==> b.Indexed()) && fresh(b.Objects() - old(b.Objects()))
    ensures b.View() == Rest(old(b.View()), ReadOrder(r[pos..]))
    ensures var o := ReadOrder(r[pos..]); b.Listed() == old(b.Listed())[o.id := o]
  {
    hide HeldBut, Summed, NodesOf, Ladder, Flat, Ids, Indexes, Rest, NoRepeats, Signed, OrderBook.Listed;
    var bs := r[pos..];
    var o := new OrderNode(Signed(bs[..8]), Signed(bs[8..16]), Signed(bs[16..24]), Signed(bs[24..25]), Signed(bs[25..33]), Signed(bs[33..41]));
    RestRead(b, o);
  }

  method RestRead(b: OrderBook, o: OrderNode)
    requires b.Linked() && (NoRepeats(b.View()) ==> b.Indexed()) && o !in b.Objects() && o.prev == null && o.next == null
    modifies b.Objects(), o
    ensures b.Linked() && (NoRepeats(b.View()) ==> b.Indexed()) && fresh(b.Objects() - old(b.Objects()) - {o})
    ensures b.View() == Rest(old(b.View()), old(o.Value())) && b.Listed() == old(b.Listed())[o.id := old(o.Value())]
  {
    hide HeldBut, Summed, NodesOf, Ladder, Flat, Ids, Indexes, Rest, NoRepeats, OrderBook.Listed;
    b.bids.Footprint();
    b.asks.Footprint();
    ghost var nodes, was := b.bids.Nodes() + b.asks.Nodes(), b.orders;
    ghost var before := b.View();
    var lvl := b.RestOrder(o);
    if NoRepeats(b.View()) {
      RestRepeats(before, o.Value());
      IndexWith(was, nodes, o, b.bids.Nodes() + b.asks.Nodes());
    }
  }

  // --- Chunks ----------------------------------------------------------------

  const CHUNK := 1024

  function Join(chunks: seq<seq<byte>>): seq<byte> {
    if chunks == [] then [] else Join(chunks[..|chunks| - 1]) + chunks[|chunks| - 1]
  }

  // Full chunks, then one that may be shorter but is not empty.
  ghost predicate Packed(chunks: seq<seq<byte>>) {
    && (forall i :: 0 <= i < |chunks| ==> 0 < |chunks[i]| <= CHUNK)
    && (forall i :: 0 <= i < |chunks| - 1 ==> |chunks[i]| == CHUNK)
  }

  // The snapshot loop of the service: emits the data piece by piece.
  method Chunks(snapshot: seq<byte>) returns (chunks: seq<seq<byte>>)
    ensures Join(chunks) == snapshot && Packed(chunks)
    ensures forall i :: 0 <= i < |chunks| ==> 0 < |chunks[i]| <= 1024 && (i < |chunks| - 1 ==> |chunks[i]| == 1024)
  {
    chunks := [];
    var data := snapshot;
    while |data| > 0
      invariant Join(chunks) + data == snapshot
      invariant Packed(chunks) && (|data| > 0 ==> forall i :: 0 <= i < |chunks| ==> |chunks[i]| == CHUNK)
      decreases |data|
    {
      var n := CHUNK;
      if |data| < n {
        n := |data|;
      }
      ghost var was := chunks;
      chunks := chunks + [data[..n]];
      assert chunks[..|was|] == was;
      assert Join(was) + data == Join(was) + data[..n] + data[n..];
      data := data[n..];
    }
  }

  lemma {:induction false} JoinSize(chunks: seq<seq<byte>>)
    requires forall i :: 0 <= i < |chunks| ==> |chunks[i]| <= CHUNK
    ensures |Join(chunks)| <= CHUNK * |chunks|
    ensures Packed(chunks) && chunks != [] ==> |Join(chunks)| > CHUNK * (|chunks| - 1)
  {
    if chunks != [] {
      var n := |chunks| - 1;
      JoinSize(chunks[..n]);
      if Packed(chunks) {
        FullSize(chunks[..n]);
      }
    }
  }

  lemma {:induction false} FullSize(chunks: seq<seq<byte>>)
    requires forall i :: 0 <= i < |chunks| ==> |chunks[i]| == CHUNK
    ensures |Join(chunks)| == CHUNK * |chunks|
  {
    if chunks != [] {
      FullSize(chunks[..|chunks| - 1]);
    }
  }

  // No way of cutting the same bytes into chunks of that size uses fewer.
  lemma {:induction false} FewestChunks(chunks: seq<seq<byte>>, others: seq<seq<byte>>)
    requires Packed(chunks) && Join(chunks) == Join(others)
    requires forall i :: 0 <= i < |others| ==> |others[i]| <= 1024
    ensures |chunks| <= |others|
  {
    JoinSize(chunks);
    JoinSize(others);
  }

  // --- The whole journey -----------------------------------------------------

  // Snapshot, chunk, concatenate, restore: the copy is a valid book in exactly
  // the state of the original.
  method SaveAndRestore(book: OrderBook) returns (chunks: seq<seq<byte>>, copy: Restored<OrderBook>)
    requires book.Valid() && BookFits(book.View()) && Count(book.View()) < 0x8000_0000
    ensures Packed(chunks) && Join(chunks) == SnapshotBytes(book.View())
    ensures copy.Ok? && fresh(copy.value.Objects()) && copy.value.Valid() && copy.value.View() == book.View()
  {
    hide HeldBut, Summed, NodesOf, Ladder, Flat, Ids, Indexes, WellFormed, BookFits, Restore, SnapshotBytes, Join, OrderBook.Linked, OrderBook.Indexed;
    RoundTrip(book.View());
    var w := SnapshotOf(book);
    chunks := Chunks(w);
    copy := RestoreOrderBook(Join(chunks));
  }
}
