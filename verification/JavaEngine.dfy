/**
The Java engine beside the Go engine. Its book is the book of `OrderBook.dfy`
over the signed level search; what else differs is here: the snapshot is written
into a reused buffer at a running offset, and a restore tests the body's length
before reading and decodes a side from its byte to an enumeration.
*/
module JavaEngine {
  import opened Events
  import opened Book
  import opened Matching
  import opened Invariant
  import opened DepthFeed
  import opened Bytes
  import opened Levels
  import opened LevelSlices
  import opened OrderBooks
  import opened Snapshot
  import opened Persistence

  // --- The level search ------------------------------------------------------

  // Any two answers that are right in their own convention are the same answer.
  lemma {:induction false} ConventionsAgree(levels: seq<PriceLevel>, price: int, desc: bool, idx: int, found: bool, r: int)
    requires forall i, j :: 0 <= i < j < |levels| ==> Ahead(desc, levels[i].price, levels[j].price)
    requires if found then Found(levels, price, idx) else Belongs(levels, price, desc, idx)
    requires if r >= 0 then Found(levels, price, r) else Belongs(levels, price, desc, -r - 1)
    ensures if found then r == idx else r == -idx - 1
  {
    var k := if r >= 0 then r else -r - 1;
    var atIdx := if idx < |levels| then levels[idx].price else price;
    var atK := if k < |levels| then levels[k].price else price;
  }

  // On every sorted slice the two searches give the same answer, each in its
  // own convention.
  method SearchBoth(levels: seq<PriceLevel>, price: int, desc: bool) returns (idx: nat, found: bool, r: int)
    requires forall i, j :: 0 <= i < j < |levels| ==> Ahead(desc, levels[i].price, levels[j].price)
    ensures if found then Found(levels, price, idx) else Belongs(levels, price, desc, idx)
    ensures r == if found then idx as int else -(idx as int) - 1
  {
    idx, found := LevelIndex(levels, price, desc);
    r := SignedLevelIndex(levels, price, desc);
    ConventionsAgree(levels, price, desc, idx, found, r);
  }

  // --- Commands --------------------------------------------------------------

  predicate OverSearch(b: OrderBook, engine: Engine) {
    b.bids.engine == b.asks.engine == engine
  }

  // From equal states the two engines answer every sequence of commands with
  // equal events and end in equal states, which are those of the reference book.
  method Agree(go: OrderBook, java: OrderBook, cmds: seq<Command>) returns (goEvents: seq<Event>, javaEvents: seq<Event>)
    requires OverSearch(go, Go) && OverSearch(java, Java)
    requires go.Valid() && java.Valid() && go.Objects() !! java.Objects() && go.View() == java.View()
    requires forall k :: 0 <= k < |cmds| && cmds[k].NewOrder? ==> ProperSide(cmds[k].side)
    modifies go.Objects(), java.Objects()
    ensures go.Valid() && java.Valid() && go.Objects() !! java.Objects()
    ensures fresh(go.Objects() - old(go.Objects())) && fresh(java.Objects() - old(java.Objects()))
    ensures goEvents == javaEvents == Run(old(go.View()), cmds).events
    ensures go.View() == java.View() == Run(old(go.View()), cmds).book
  {
    hide Run, OrderBook.Valid, OrderBook.View;
    goEvents := go.ApplyAll(cmds);
    javaEvents := java.ApplyAll(cmds);
  }

  // Both engines run the same commands from the start and take a snapshot: equal
  // events, equal states, byte-identical snapshots.
  method RunBoth(cmds: seq<Command>, out: Buffer)
    returns (goEvents: seq<Event>, javaEvents: seq<Event>, goBytes: seq<byte>, javaLength: nat)
    requires forall k :: 0 <= k < |cmds| && cmds[k].NewOrder? ==> ProperSide(cmds[k].side)
    modifies out
    ensures goEvents == javaEvents == Run(EMPTY, cmds).events
    ensures javaLength <= |out.bytes| && goBytes == out.bytes[..javaLength] == SnapshotBytes(Run(EMPTY, cmds).book)
  {
    hide Run, SnapshotBytes, OrderBook.Valid, OrderBook.View;
    var go := new OrderBook(Go);
    var java := new OrderBook(Java);
    goEvents, javaEvents := Agree(go, java, cmds);
    goBytes := SnapshotOf(go);
    javaLength := Write(java, out);
  }

  // --- Writing ---------------------------------------------------------------

  // A buffer that grows as it is written to and is reused between snapshots.
  class Buffer {
    var bytes: seq<byte>

    constructor ()
      ensures bytes == []
    {
      bytes := [];
    }

    // Stores `bs` at `off` over whatever an earlier use left there.
    method Store(off: nat, bs: seq<byte>)
      requires off <= |bytes|
      modifies this
      ensures off + |bs| <= |bytes| && bytes[..off + |bs|] == old(bytes)[..off] + bs
      ensures |bytes| == old(|bytes|) || |bytes| == off + |bs|
      ensures forall i :: off + |bs| <= i < |bytes| ==> bytes[i] == old(bytes)[i]
    {
      var tail := if off + |bs| < |bytes| then bytes[off + |bs|..] else [];
      bytes := bytes[..off] + bs + tail;
    }

    method PutLong(off: nat, v: int)
      requires off <= |bytes|
      modifies this
      ensures off + 8 <= |bytes| && bytes[..off + 8] == old(bytes)[..off] + Put(v, 8)
    {
      hide Put;
      Store(off, Put(v, 8));
    }

    method PutInt(off: nat, v: int)
      requires off <= |bytes|
      modifies this
      ensures off + 4 <= |bytes| && bytes[..off + 4] == old(bytes)[..off] + Put(v, 4)
    {
      hide Put;
      Store(off, Put(v, 4));
    }

    method PutByte(off: nat, v: int)
      requires off <= |bytes|
      modifies this
      ensures off + 1 <= |bytes| && bytes[..off + 1] == old(bytes)[..off] + Put(v, 1)
    {
      hide Put;
      Store(off, Put(v, 1));
    }
  }

  lemma {:induction false} Regroup(p: seq<byte>, a: seq<byte>, b: seq<byte>)
    ensures p + a + b == p + (a + b)
  {
  }

  // One order at the running offset.
  method WriteOrder(o: OrderNode, out: Buffer, start: nat) returns (off: nat)
    requires start <= |out.bytes|
    modifies out
    ensures off == start + RECORD <= |out.bytes|
    ensures out.bytes[..off] == old(out.bytes)[..start] + OrderBytes(o.Value())
  {
    hide Put;
    ghost var p, a, b := out.bytes[..start], Put(o.id, 8), Put(o.clientOrderId, 8);
    ghost var c, d, e, f := Put(o.owner, 8), Put(o.side, 1), Put(o.price, 8), Put(o.qty, 8);
    off := start;
    out.PutLong(off, o.id);
    off := off + 8;
    out.PutLong(off, o.clientOrderId);
    off := off + 8;
    Regroup(p, a, b);
    out.PutLong(off, o.owner);
    off := off + 8;
    Regroup(p, a + b, c);
    out.PutByte(off, o.side);
    off := off + 1;
    Regroup(p, a + b + c, d);
    out.PutLong(off, o.price);
    off := off + 8;
    Regroup(p, a + b + c + d, e);
    out.PutLong(off, o.qty);
    off := off + 8;
    Regroup(p, a + b + c + d + e, f);
    assert out.bytes[..off] == p + (a + b + c + d + e + f);
    assert a + b + c + d + e + f == OrderBytes(o.Value());
  }

  method WriteLevelAt(slice: LevelSlice, i: nat, out: Buffer, start: nat) returns (off: nat)
    requires slice.Linked() && out !in slice.Repr && i < |slice.levels| == |slice.view| && start <= |out.bytes|
    modifies out
    ensures start <= off <= |out.bytes| && slice.Linked()
    ensures out.bytes[..off] == old(out.bytes)[..start] + SideBytes(slice.view[i].orders)
  {
    hide HeldBut, Ladder, SideBytes, OrderBytes;
    slice.Facts(i);
    slice.NodeFacts(i);
    ghost var fifo, orders, p := slice.levels[i].fifo, slice.view[i].orders, out.bytes[..start];
    var o := slice.levels[i].head;
    ghost var k := 0;
    off := start;
    EmptyBytes(orders);
    while o != null
      invariant 0 <= k <= |fifo| && o == (if k < |fifo| then fifo[k] else null)
      invariant start <= off <= |out.bytes| && out.bytes[..off] == p + SideBytes(orders[..k])
      decreases |fifo| - k
    {
      SideBytesSnoc(orders, k);
      Neighbours(fifo, k);
      assert o.Value() == orders[k];
      Regroup(p, SideBytes(orders[..k]), OrderBytes(orders[k]));
      off := WriteOrder(o, out, off);
      o := o.next;
      k := k + 1;
    }
    assert orders[..|fifo|] == orders;
  }

  method WriteSideAt(slice: LevelSlice, out: Buffer, start: nat) returns (off: nat)
    requires slice.Linked() && out !in slice.Repr && start <= |out.bytes|
    modifies out
    ensures start <= off <= |out.bytes| && slice.Linked()
    ensures out.bytes[..off] == old(out.bytes)[..start] + SideBytes(Flat(slice.view))
  {
    hide HeldBut, Ladder, SideBytes, Flat;
    ghost var p := out.bytes[..start];
    off := start;
    NoLevels(slice);
    for i := 0 to |slice.levels|
      invariant slice.Linked() && start <= off <= |out.bytes| && out.bytes[..off] == p + SideBytes(Flat(slice.view[..i]))
    {
      ghost var orders := slice.view[i].orders;
      off := WriteLevelAt(slice, i, out, off);
      FlatConcat(slice.view[..i], [slice.view[i]]);
      FlatOne(slice.view[i]);
      assert slice.view[..i + 1] == slice.view[..i] + [slice.view[i]];
      SideBytesConcat(Flat(slice.view[..i]), orders);
      Regroup(p, SideBytes(Flat(slice.view[..i])), SideBytes(orders));
    }
    assert slice.view[..|slice.view|] == slice.view;
  }

  method WriteHeader(out: Buffer, nextOrderId: int, count: int) returns (off: nat)
    modifies out
    ensures off == HEADER <= |out.bytes| && out.bytes[..off] == HeaderBytes(nextOrderId, count)
  {
    hide Put;
    off := 0;
    out.PutInt(off, MAGIC);
    off := off + 4;
    out.PutInt(off, VERSION);
    off := off + 4;
    out.PutLong(off, INSTRUMENT);
    off := off + 8;
    out.PutLong(off, nextOrderId);
    off := off + 8;
    out.PutInt(off, count);
    off := off + 4;
  }

  // The whole snapshot at offset 0; the bytes after the returned length are stale.
  method Write(book: OrderBook, out: Buffer) returns (off: nat)
    requires book.Valid() && out !in book.Objects()
    modifies out
    ensures off <= |out.bytes| && out.bytes[..off] == SnapshotBytes(book.View())
    ensures book.Valid() && book.View() == old(book.View())
  {
    hide HeldBut, Summed, NodesOf, Ladder, Flat, Ids, Indexes, WellFormed, HeaderBytes, SideBytes;
    MapSize(book);
    off := WriteHeader(out, book.nextOrderId, |book.orders|);
    off := WriteSideAt(book.bids, out, off);
    off := WriteSideAt(book.asks, out, off);
  }

  // --- Restoring -------------------------------------------------------------

  // The enumeration has two values: every code but buy's reads as sell.
  function SideFromCode(code: int): int {
    if code == BUY then BUY else SELL
  }

  function AsEnum(o: Order): Order {
    o.(side := SideFromCode(o.side))
  }

  function SideAsEnum(s: seq<Order>): seq<Order> {
    seq(|s|, i requires 0 <= i < |s| => AsEnum(s[i]))
  }

  function BookAsEnum(b: Book): Book {
    Book(SideAsEnum(b.bids), SideAsEnum(b.asks), b.nextId)
  }

  function JavaReadOrders(bs: seq<byte>, off: nat, count: nat, b: Book): Book
    requires off + RECORD * count <= |bs|
    decreases count
  {
    if count == 0 then b
    else JavaReadOrders(bs, off + RECORD, count - 1, Rest(b, AsEnum(ReadOrder(bs[off..]))))
  }

  function JavaRestore(bs: seq<byte>): Restored<Book> {
    var header := HeaderError(bs);
    if header.Err? then Err(header.error)
    else if |bs| < HEADER + CountOf(bs) * RECORD then Err(Truncated)
    else
      var count := if CountOf(bs) > 0 then CountOf(bs) else 0;
      Ok(JavaReadOrders(bs, HEADER, count, EMPTY).(nextId := NextIdOf(bs)))
  }

  // --- Agreement -------------------------------------------------------------

  lemma {:induction false} PositionAsEnum(s: seq<Order>, price: int, desc: bool)
    ensures RestPosition(SideAsEnum(s), price, desc) == RestPosition(s, price, desc)
  {
    RestPositionIs(SideAsEnum(s), price, desc, RestPosition(s, price, desc));
  }

  lemma {:induction false} InsertAsEnum(s: seq<Order>, o: Order)
    ensures Insert(SideAsEnum(s), AsEnum(o)) == SideAsEnum(Insert(s, o))
  {
    PositionAsEnum(s, o.price, o.side == BUY);
    var k := RestPosition(s, o.price, o.side == BUY);
    assert SideAsEnum(s)[..k] + [AsEnum(o)] + SideAsEnum(s)[k..] == SideAsEnum(s[..k] + [o] + s[k..]);
  }

  lemma {:induction false} RestAsEnum(b: Book, o: Order)
    ensures Rest(BookAsEnum(b), AsEnum(o)) == BookAsEnum(Rest(b, o))
  {
    InsertAsEnum(b.bids, o);
    InsertAsEnum(b.asks, o);
  }

  lemma {:induction false} ReadAsEnum(bs: seq<byte>, off: nat, count: nat, b: Book)
    requires off + RECORD * count <= |bs|
    ensures ReadOrders(bs[off..], count, b).Ok?
    ensures JavaReadOrders(bs, off, count, BookAsEnum(b)) == BookAsEnum(ReadOrders(bs[off..], count, b).value)
    decreases count
  {
    if count > 0 {
      hide Rest, ReadOrder, BookAsEnum, AsEnum;
      var o := ReadOrder(bs[off..]);
      RestAsEnum(b, o);
      assert bs[off..][RECORD..] == bs[off + RECORD..];
      ReadAsEnum(bs, off + RECORD, count - 1, Rest(b, o));
    }
  }

  // On every input the Java restore is the Go restore with sides read as an
  // enumeration: same failures, same reasons, same orders in the same places.
  lemma {:induction false} RestoresAgree(bs: seq<byte>)
    ensures JavaRestore(bs) == match Restore(bs)
                               case Ok(b) => Ok(BookAsEnum(b))
                               case Err(e) => Err(e)
  {
    if HeaderError(bs).Ok? {
      var c := CountOf(bs);
      ReadCount(bs[HEADER..], c, EMPTY);
      if |bs| >= HEADER + c * RECORD {
        var count := if c > 0 then c else 0;
        ReadAsEnum(bs, HEADER, count, EMPTY);
        assert ReadOrders(bs[HEADER..], count, EMPTY) == ReadOrders(bs[HEADER..], c, EMPTY);
        assert BookAsEnum(EMPTY) == EMPTY;
      }
    }
  }

  lemma {:induction false} EnumFixesProper(b: Book)
    ensures BookAsEnum(b) == b <==> ProperBook(b)
  {
    if BookAsEnum(b) == b {
      forall i | 0 <= i < |b.bids|
        ensures ProperSide(b.bids[i].side)
      {
        assert SideAsEnum(b.bids)[i] == b.bids[i];
      }
      forall i | 0 <= i < |b.asks|
        ensures ProperSide(b.asks[i].side)
      {
        assert SideAsEnum(b.asks)[i] == b.asks[i];
      }
    }
  }

  // The byte of the k-th record that holds its side.
  function SideByte(bs: seq<byte>, k: nat): byte
    requires HEADER + RECORD * (k + 1) <= |bs|
  {
    bs[HEADER + RECORD * k + 24]
  }

  // A whole snapshot all of whose side bytes are buy's or sell's.
  ghost predicate ProperBytes(bs: seq<byte>)
    requires |bs| >= HEADER && |bs| >= HEADER + RECORD * CountOf(bs)
  {
    forall k: nat :: k < CountOf(bs) ==> SideByte(bs, k) == BUY || SideByte(bs, k) == SELL
  }

  lemma {:induction false} InsertKeepsProper(s: seq<Order>, o: Order)
    ensures ProperOrders(Insert(s, o)) <==> ProperOrders(s) && ProperSide(o.side)
  {
    var k, t := RestPosition(s, o.price, o.side == BUY), Insert(s, o);
    assert forall i :: 0 <= i < |t| ==> t[i] == if i < k then s[i] else if i == k then o else s[i - 1];
    hide Insert;
    if ProperOrders(t) {
      assert t[k] == o;
      forall i | 0 <= i < |s|
        ensures ProperSide(s[i].side)
      {
        assert t[if i < k then i else i + 1] == s[i];
      }
    }
  }

  lemma {:induction false} RestProper(b: Book, o: Order)
    ensures ProperBook(Rest(b, o)) <==> ProperBook(b) && ProperSide(o.side)
  {
    hide Insert, ProperOrders;
    InsertKeepsProper(Own(b, o.side), o);
  }

  ghost predicate ProperRecords(bs: seq<byte>, count: nat)
    requires RECORD * count <= |bs|
  {
    forall k: nat :: k < count ==> ProperSide(Record(bs, k).side)
  }

  lemma {:induction false} ProperRecordsNext(bs: seq<byte>, count: nat)
    requires 0 < count && RECORD * count <= |bs|
    ensures ProperRecords(bs, count) <==> ProperSide(ReadOrder(bs).side) && ProperRecords(bs[RECORD..], count - 1)
  {
    assert bs[RECORD * 0..] == bs && Record(bs, 0) == ReadOrder(bs);
    hide Record, ReadOrder;
    forall k: nat | k < count - 1
      ensures Record(bs[RECORD..], k) == Record(bs, k + 1)
    {
      NextRecord(bs, k);
    }
    if ProperSide(ReadOrder(bs).side) && ProperRecords(bs[RECORD..], count - 1) {
      forall k: nat | k < count
        ensures ProperSide(Record(bs, k).side)
      {
        assert k > 0 ==> Record(bs[RECORD..], k - 1) == Record(bs, k);
      }
    }
  }

  lemma {:induction false} ReadProper(bs: seq<byte>, count: nat, b: Book)
    requires RECORD * count <= |bs|
    ensures ReadOrders(bs, count, b).Ok?
    ensures ProperBook(ReadOrders(bs, count, b).value) <==> ProperBook(b) && ProperRecords(bs, count)
    decreases count
  {
    ReadCount(bs, count, b);
    if count > 0 {
      hide Rest, ReadOrder, ProperBook, ProperRecords;
      ReadProper(bs[RECORD..], count - 1, Rest(b, ReadOrder(bs)));
      RestProper(b, ReadOrder(bs));
      ProperRecordsNext(bs, count);
    }
  }

  lemma {:induction false} SideOfByte(bs: seq<byte>, k: nat)
    requires HEADER + RECORD * (k + 1) <= |bs|
    ensures ProperSide(Record(bs[HEADER..], k).side) <==> SideByte(bs, k) == BUY || SideByte(bs, k) == SELL
  {
    var record := bs[HEADER..][RECORD * k..];
    assert record[24..25] == [SideByte(bs, k)];
    assert Record(bs[HEADER..], k).side == Signed([SideByte(bs, k)]);
  }

  // The two engines restore the same book from the same bytes exactly when the
  // bytes do not restore at all or every record's side byte is buy's or sell's.
  lemma {:induction false} SameBookIffProper(bs: seq<byte>)
    ensures JavaRestore(bs) == Restore(bs)
       <==> (HeaderError(bs).Ok? && |bs| >= HEADER + RECORD * CountOf(bs) ==> ProperBytes(bs))
  {
    RestoresAgree(bs);
    RestoreSucceeds(bs);
    hide Signed, Record, ReadOrders, ProperBook;
    if Restore(bs).Ok? {
      EnumFixesProper(Restore(bs).value);
      var count := if CountOf(bs) > 0 then CountOf(bs) else 0;
      ReadProper(bs[HEADER..], count, EMPTY);
      EmptyProper();
      ReadNone(bs[HEADER..], CountOf(bs));
      ProperBytesRecords(bs, count);
      ProperIgnoresNextId(ReadOrders(bs[HEADER..], count, EMPTY).value, NextIdOf(bs));
    }
  }

  lemma {:induction false} EmptyProper()
    ensures ProperBook(EMPTY)
  {
  }

  lemma {:induction false} ProperIgnoresNextId(b: Book, nextId: int)
    ensures ProperBook(b.(nextId := nextId)) == ProperBook(b)
  {
  }

  lemma {:induction false} ReadNone(bs: seq<byte>, count: int)
    ensures ReadOrders(bs, if count > 0 then count else 0, EMPTY) == ReadOrders(bs, count, EMPTY)
  {
  }

  lemma {:induction false} ProperBytesRecords(bs: seq<byte>, count: nat)
    requires |bs| >= HEADER && |bs| >= HEADER + RECORD * CountOf(bs) && count == if CountOf(bs) > 0 then CountOf(bs) else 0
    ensures ProperBytes(bs) <==> ProperRecords(bs[HEADER..], count)
  {
    hide Record, SideByte;
    forall k: nat | k < count
      ensures ProperSide(Record(bs[HEADER..], k).side) <==> SideByte(bs, k) == BUY || SideByte(bs, k) == SELL
    {
      SideOfByte(bs, k);
    }
  }

  // A book that rests an order with the null side: the Go engine restores its
  // snapshot, the Java engine makes a sell of that order.
  lemma {:induction false} RestoresPart()
    ensures var b := Book([], [Order(1, 1, 1, -128, 100, 5)], 2);
            && Restore(SnapshotBytes(b)) == Ok(b)
            && JavaRestore(SnapshotBytes(b)) == Ok(Book([], [Order(1, 1, 1, SELL, 100, 5)], 2))
  {
    var o := Order(1, 1, 1, -128, 100, 5);
    var b := Book([], [o], 2);
    assert b.asks[0] == o && WellFormed(b);
    assert BookFits(b) by {
      Spans();
    }
    RoundTrip(b);
    RestoresAgree(SnapshotBytes(b));
    assert SideAsEnum(b.asks) == [AsEnum(o)] && SideAsEnum([]) == [];
  }

  // Each engine restores the other's snapshot: the Java restore of any proper
  // book's snapshot is that book, and truncation is refused alike.
  lemma {:induction false} JavaRoundTrip(b: Book, k: nat)
    requires WellFormed(b) && BookFits(b) && ProperBook(b) && Count(b) < 0x8000_0000
    requires k < |SnapshotBytes(b)|
    ensures JavaRestore(SnapshotBytes(b)) == Ok(b)
    ensures JavaRestore(SnapshotBytes(b)[..k]) == Err(Truncated)
  {
    RoundTrip(b);
    RestoresAgree(SnapshotBytes(b));
    EnumFixesProper(b);
    TruncationDetected(b, k);
    RestoresAgree(SnapshotBytes(b)[..k]);
  }

  // Rebuilds a pointer-based Java book from any bytes.
  method RestoreJavaBook(bs: seq<byte>) returns (res: Restored<OrderBook>)
    ensures JavaRestore(bs).Err? ==> res.Err? && res.error == JavaRestore(bs).error
    ensures JavaRestore(bs).Ok? ==> res.Ok? && fresh(res.value.Objects()) && res.value.Linked() && OverSearch(res.value, Java)
    ensures JavaRestore(bs).Ok? ==> res.value.View() == JavaRestore(bs).value
    ensures JavaRestore(bs).Ok? && WellFormed(JavaRestore(bs).value) ==> res.value.Valid()
  {
    hide HeldBut, Summed, NodesOf, Ladder, Flat, Ids, Indexes, WellFormed, JavaReadOrders, Signed, Unsigned, NoRepeats, OrderBook.Linked, OrderBook.Indexed, OrderBook.Listed;
    if |bs| < HEADER {
      return Err(Truncated);
    }
    if Unsigned(bs[..4]) != MAGIC {
      return Err(BadMagic);
    }
    if Signed(bs[4..8]) != VERSION {
      return Err(BadVersion);
    }
    var nextOrderId, count := Signed(bs[16..24]), Signed(bs[24..28]);
    if |bs| < HEADER + count * RECORD {
      return Err(Truncated);
    }
    var b := new OrderBook(Java);
    ReadJavaOrders(b, bs, if count > 0 then count else 0);
    SetNextId(b, nextOrderId);
    if WellFormed(b.View()) {
      WellFormedRepeats(b.View());
    }
    return Ok(b);
  }

  // The restore loop with its running offset.
  method ReadJavaOrders(b: OrderBook, bs: seq<byte>, count: nat)
    requires b.Valid() && b.View() == EMPTY && HEADER + RECORD * count <= |bs|
    modifies b.Objects()
    ensures fresh(b.Objects() - old(b.Objects())) && b.Linked() && (NoRepeats(b.View()) ==> b.Indexed())
    ensures b.View() == JavaReadOrders(bs, HEADER, count, EMPTY)
  {
    hide HeldBut, Summed, NodesOf, Ladder, Flat, Ids, Indexes, WellFormed, Rest, NoRepeats, ReadOrder, OrderBook.Linked, OrderBook.Indexed, OrderBook.Listed;
    var off := HEADER;
    for i := 0 to count
      invariant off == HEADER + RECORD * i
      invariant b.Linked() && fresh(b.Objects() - old(b.Objects())) && (NoRepeats(b.View()) ==> b.Indexed())
      invariant JavaReadOrders(bs, HEADER, count, EMPTY) == JavaReadOrders(bs, off, count - i, b.View())
    {
      ReadJavaOrder(b, bs, off);
      off := off + RECORD;
    }
  }

  method ReadJavaOrder(b: OrderBook, bs: seq<byte>, off: nat)
    requires b.Linked() && (NoRepeats(b.View()) ==> b.Indexed()) && off + RECORD <= |bs|
    modifies b.Objects()
    ensures b.Linked() && (NoRepeats(b.View()) ==> b.Indexed()) && fresh(b.Objects() - old(b.Objects()))
    ensures b.View() == Rest(old(b.View()), AsEnum(ReadOrder(bs[off..])))
  {
    hide HeldBut, Summed, NodesOf, Ladder, Flat, Ids, Indexes, Rest, NoRepeats, Signed, OrderBook.Listed;
    var r := bs[off..];
    var o := new OrderNode(Signed(r[..8]), Signed(r[8..16]), Signed(r[16..24]), SideFromCode(Signed(r[24..25])), Signed(r[25..33]), Signed(r[33..41]));
    RestRead(b, o);
  }

  // The Go engine writes and the Java engine restores: a valid book in the same state.
  method JavaReadsGo(book: OrderBook) returns (copy: Restored<OrderBook>)
    requires book.Valid() && BookFits(book.View()) && ProperBook(book.View()) && Count(book.View()) < 0x8000_0000
    ensures copy.Ok? && copy.value.Valid() && copy.value.View() == book.View() && OverSearch(copy.value, Java)
  {
    ghost var b := book.View();
    SnapshotLength(b);
    JavaRoundTrip(b, 0);
    hide WellFormed, BookFits, ProperBook, JavaRestore, SnapshotBytes, OrderBook.View, OrderBook.Linked, OrderBook.Indexed;
    var goBytes := SnapshotOf(book);
    copy := RestoreJavaBook(goBytes);
  }

  // The Java engine writes and the Go engine restores.
  method GoReadsJava(book: OrderBook, out: Buffer) returns (copy: Restored<OrderBook>)
    requires book.Valid() && BookFits(book.View()) && Count(book.View()) < 0x8000_0000 && out !in book.Objects()
    modifies out
    ensures copy.Ok? && copy.value.Valid() && copy.value.View() == old(book.View())
  {
    RoundTrip(book.View());
    hide WellFormed, BookFits, Restore, SnapshotBytes, IndexOrders, OrderBook.View, OrderBook.Linked, OrderBook.Indexed, OrderBook.Listed;
    var length := Write(book, out);
    copy := RestoreOrderBook(out.bytes[..length]);
  }
}
