/**
The snapshot format: a 28-byte header, then 41 bytes per resting order, bids
best first and then asks. Restoring re-rests the orders one by one without
matching. Everything here is a function of bytes and reference books; the
stream-and-pointer versions are in `Persistence.dfy`.
*/
module Snapshot {
  import opened Events
  import opened Book
  import opened Matching
  import opened Invariant
  import opened Bytes

  const MAGIC := 0x474D_5331
  const VERSION := 1
  const INSTRUMENT := 1
  const HEADER := 28
  const RECORD := 41

  datatype Error = Truncated | BadMagic | BadVersion

  datatype Restored<T> = Ok(value: T) | Err(error: Error)

  // --- Writing ---------------------------------------------------------------

  function OrderBytes(o: Order): (bs: seq<byte>)
    ensures |bs| == RECORD
  {
    Put(o.id, 8) + Put(o.clientOrderId, 8) + Put(o.owner, 8) + Put(o.side, 1) + Put(o.price, 8) + Put(o.qty, 8)
  }

  function SideBytes(s: seq<Order>): (bs: seq<byte>)
    ensures |bs| == RECORD * |s|
  {
    if s == [] then [] else OrderBytes(s[0]) + SideBytes(s[1..])
  }

  function HeaderBytes(nextId: int, count: int): (bs: seq<byte>)
    ensures |bs| == HEADER
  {
    Put(MAGIC, 4) + Put(VERSION, 4) + Put(INSTRUMENT, 8) + Put(nextId, 8) + Put(count, 4)
  }

  function Count(b: Book): nat {
    |b.bids| + |b.asks|
  }

  function SnapshotBytes(b: Book): seq<byte> {
    HeaderBytes(b.nextId, Count(b)) + SideBytes(b.bids) + SideBytes(b.asks)
  }

  // --- Reading ---------------------------------------------------------------

  function ReadOrder(bs: seq<byte>): Order
    requires |bs| >= RECORD
  {
    Order(Signed(bs[..8]), Signed(bs[8..16]), Signed(bs[16..24]), Signed(bs[24..25]), Signed(bs[25..33]), Signed(bs[33..41]))
  }

  // Reads `count` records and rests them in turn.
  function ReadOrders(bs: seq<byte>, count: int, b: Book): Restored<Book>
    decreases count
  {
    if count <= 0 then Ok(b)
    else if |bs| < RECORD then Err(Truncated)
    else ReadOrders(bs[RECORD..], count - 1, Rest(b, ReadOrder(bs)))
  }

  // What the id map of a rebuilt book holds: a later record replaces an earlier
  // one of the same id.
  function IndexOrders(bs: seq<byte>, count: int, m: map<int, Order>): map<int, Order>
    decreases count
  {
    if count <= 0 || |bs| < RECORD then m
    else
      var o := ReadOrder(bs);
      IndexOrders(bs[RECORD..], count - 1, m[o.id := o])
  }

  // The k-th record of the body.
  function Record(bs: seq<byte>, k: nat): Order
    requires RECORD * (k + 1) <= |bs|
  {
    ReadOrder(bs[RECORD * k..])
  }

  function NextIdOf(bs: seq<byte>): int
    requires |bs| >= HEADER
  {
    Signed(bs[16..24])
  }

  function CountOf(bs: seq<byte>): int
    requires |bs| >= HEADER
  {
    Signed(bs[24..28])
  }

  function HeaderError(bs: seq<byte>): (r: Restored<()>) {
    if |bs| < HEADER then Err(Truncated)
    else if Unsigned(bs[..4]) != MAGIC then Err(BadMagic)
    else if Signed(bs[4..8]) != VERSION then Err(BadVersion)
    else Ok(())
  }

  function Restore(bs: seq<byte>): Restored<Book> {
    var header := HeaderError(bs);
    if header.Err? then Err(header.error)
    else
      var body := ReadOrders(bs[HEADER..], CountOf(bs), EMPTY);
      if body.Err? then body else Ok(body.value.(nextId := NextIdOf(bs)))
  }

  // --- One record ------------------------------------------------------------

  predicate OrderFits(o: Order) {
    && FitsSigned(o.id, 8) && FitsSigned(o.clientOrderId, 8) && FitsSigned(o.owner, 8)
    && FitsSigned(o.side, 1) && FitsSigned(o.price, 8) && FitsSigned(o.qty, 8)
  }

  lemma {:induction false} ReadWritten(o: Order, rest: seq<byte>)
    requires OrderFits(o)
    ensures ReadOrder(OrderBytes(o) + rest) == o
  {
    hide Put, Signed, FitsSigned;
    var bs := OrderBytes(o) + rest;
    assert bs[..8] == Put(o.id, 8);
    assert bs[8..16] == Put(o.clientOrderId, 8);
    assert bs[16..24] == Put(o.owner, 8);
    assert bs[24..25] == Put(o.side, 1);
    assert bs[25..33] == Put(o.price, 8);
    assert bs[33..41] == Put(o.qty, 8);
    SignedPut(o.id, 8);
    SignedPut(o.clientOrderId, 8);
    SignedPut(o.owner, 8);
    SignedPut(o.side, 1);
    SignedPut(o.price, 8);
    SignedPut(o.qty, 8);
  }

  lemma {:induction false} ReadNext(o: Order, rest: seq<byte>, count: int, b: Book)
    requires OrderFits(o) && count > 0
    ensures ReadOrders(OrderBytes(o) + rest, count, b) == ReadOrders(rest, count - 1, Rest(b, o))
  {
    hide OrderBytes, OrderFits, ReadOrder, Rest;
    ReadWritten(o, rest);
    assert (OrderBytes(o) + rest)[RECORD..] == rest;
  }

  // --- Re-resting in book order ----------------------------------------------

  // An order that is not better than any before it goes to the back.
  lemma {:induction false} InsertLast(s: seq<Order>, o: Order)
    requires forall i :: 0 <= i < |s| ==> !Ahead(o.side == BUY, o.price, s[i].price)
    ensures Insert(s, o) == s + [o]
  {
    var k := RestPosition(s, o.price, o.side == BUY);
    assert k == |s|;
    assert s[..k] == s && s[k..] == [];
  }

  ghost predicate SideFits(s: seq<Order>) {
    forall i :: 0 <= i < |s| ==> OrderFits(s[i])
  }

  // A book holding only the first k orders of one side, and that side's next order.
  function Partly(s: seq<Order>, k: nat, buy: bool, other: seq<Order>): Book
    requires k <= |s|
  {
    if buy then Book(s[..k], other, 1) else Book(other, s[..k], 1)
  }

  lemma {:induction false} RestNext(s: seq<Order>, k: nat, buy: bool, nextId: int, other: seq<Order>)
    requires SideOk(s, buy, nextId) && k < |s|
    ensures Rest(Partly(s, k, buy, other), s[k]) == Partly(s, k + 1, buy, other)
  {
    forall i | 0 <= i < k
      ensures !Ahead(buy, s[k].price, s[..k][i].price)
    {
      assert Prior(buy, s[i], s[k]);
    }
    InsertLast(s[..k], s[k]);
    assert s[..k] + [s[k]] == s[..k + 1];
  }

  lemma {:induction false} SideBytesNext(s: seq<Order>, k: nat, rest: seq<byte>)
    requires k < |s|
    ensures SideBytes(s[k..]) + rest == OrderBytes(s[k]) + (SideBytes(s[k + 1..]) + rest)
  {
    hide OrderBytes;
    assert s[k..][0] == s[k] && s[k..][1..] == s[k + 1..];
  }

  // Reading back the records of s[k..] into a side that already holds s[..k].
  lemma {:induction false} ReadSide(s: seq<Order>, k: nat, buy: bool, nextId: int, other: seq<Order>, rest: seq<byte>, more: int)
    requires SideOk(s, buy, nextId) && SideFits(s) && k <= |s| && more >= 0
    ensures ReadOrders(SideBytes(s[k..]) + rest, |s| - k + more, Partly(s, k, buy, other))
         == ReadOrders(rest, more, Partly(s, |s|, buy, other))
    decreases |s| - k
  {
    if k == |s| {
      assert s[k..] == [] && SideBytes(s[k..]) + rest == rest;
    } else {
      hide OrderBytes, SideBytes, ReadOrders, OrderFits, Rest, Partly, SideOk;
      SideBytesNext(s, k, rest);
      ReadNext(s[k], SideBytes(s[k + 1..]) + rest, |s| - k + more, Partly(s, k, buy, other));
      RestNext(s, k, buy, nextId, other);
      ReadSide(s, k + 1, buy, nextId, other, rest, more);
    }
  }

  // --- The header ------------------------------------------------------------

  lemma {:induction false} ReadHeader(nextId: int, count: int, rest: seq<byte>)
    requires FitsSigned(nextId, 8)
    ensures var bs := HeaderBytes(nextId, count) + rest;
            HeaderError(bs) == Ok(()) && NextIdOf(bs) == nextId && CountOf(bs) == Signed(Put(count, 4)) && bs[HEADER..] == rest
  {
    Spans();
    hide Put, Signed, Unsigned, Span;
    var bs := HeaderBytes(nextId, count) + rest;
    assert bs[..4] == Put(MAGIC, 4);
    assert bs[4..8] == Put(VERSION, 4);
    assert bs[16..24] == Put(nextId, 8);
    assert bs[24..28] == Put(count, 4);
    UnsignedPut(MAGIC, 4);
    SignedPut(VERSION, 4);
    SignedPut(nextId, 8);
  }

  // --- Round trip ------------------------------------------------------------

  ghost predicate BookFits(b: Book) {
    FitsSigned(b.nextId, 8) && SideFits(b.bids) && SideFits(b.asks)
  }

  // How many orders a restored book holds.
  lemma {:induction false} ReadCount(bs: seq<byte>, count: int, b: Book)
    ensures var r := ReadOrders(bs, count, b);
            && (r.Ok? <==> |bs| >= RECORD * count)
            && (r.Ok? ==> Count(r.value) == Count(b) + (if count > 0 then count else 0))
            && (r.Err? ==> r.error == Truncated)
    decreases count
  {
    if count > 0 && |bs| >= RECORD {
      ReadCount(bs[RECORD..], count - 1, Rest(b, ReadOrder(bs)));
    }
  }

  // No record from the k-th on has this id.
  ghost predicate NoneFrom(bs: seq<byte>, count: nat, k: nat, id: int)
    requires RECORD * count <= |bs|
  {
    forall j: nat :: k <= j < count ==> Record(bs, j).id != id
  }

  lemma {:induction false} NextRecord(bs: seq<byte>, k: nat)
    requires RECORD * (k + 2) <= |bs|
    ensures Record(bs[RECORD..], k) == Record(bs, k + 1)
  {
    assert bs[RECORD..][RECORD * k..] == bs[RECORD * (k + 1)..];
  }

  lemma {:induction false} NoneInRest(bs: seq<byte>, count: nat, k: nat, id: int)
    requires 0 < k <= count && RECORD * count <= |bs| && NoneFrom(bs, count, k, id)
    ensures NoneFrom(bs[RECORD..], count - 1, k - 1, id)
  {
    hide Record;
    forall j: nat | k - 1 <= j < count - 1
      ensures Record(bs[RECORD..], j).id != id
    {
      NextRecord(bs, j);
    }
  }

  // The map of a rebuilt book leaves an id alone that no record has.
  lemma {:induction false} UnreadId(bs: seq<byte>, count: nat, m: map<int, Order>, id: int)
    requires RECORD * count <= |bs| && NoneFrom(bs, count, 0, id)
    ensures var after := IndexOrders(bs, count, m);
            (id in after <==> id in m) && (id in m ==> after[id] == m[id])
    decreases count
  {
    if count > 0 {
      assert bs[RECORD * 0..] == bs && Record(bs, 0) == ReadOrder(bs);
      hide ReadOrder, Record;
      NoneInRest(bs, count, 1, id);
      UnreadId(bs[RECORD..], count - 1, m[ReadOrder(bs).id := ReadOrder(bs)], id);
    }
  }

  // It holds a record's id with that record, if it is the last one of the id.
  lemma {:induction false} LastRecordWins(bs: seq<byte>, count: nat, m: map<int, Order>, k: nat)
    requires k < count && RECORD * count <= |bs| && NoneFrom(bs, count, k + 1, Record(bs, k).id)
    ensures var after, o := IndexOrders(bs, count, m), Record(bs, k);
            o.id in after && after[o.id] == o
    decreases count
  {
    assert bs[RECORD * 0..] == bs && Record(bs, 0) == ReadOrder(bs);
    hide ReadOrder, Record, NoneFrom;
    var o := ReadOrder(bs);
    var m' := m[o.id := o];
    NoneInRest(bs, count, k + 1, Record(bs, k).id);
    assert IndexOrders(bs, count, m) == IndexOrders(bs[RECORD..], count - 1, m');
    if k > 0 {
      NextRecord(bs, k - 1);
      LastRecordWins(bs[RECORD..], count - 1, m', k - 1);
    } else {
      UnreadId(bs[RECORD..], count - 1, m', o.id);
    }
  }

  // The 32-bit count field holds a count exactly when it fits.
  lemma {:induction false} CountField(n: nat)
    ensures Signed(Put(n, 4)) < 0x8000_0000
    ensures n < 0x8000_0000 ==> Signed(Put(n, 4)) == n
  {
    Spans();
    SignedPutWraps(n, 4);
    hide Put, Signed, Span;
    if n < 0x8000_0000 {
      SignedPut(n, 4);
    }
  }

  // Restoring the snapshot of any well-formed book gives that book back, if and
  // only if its order count fits the 32-bit field of the header.
  lemma {:induction false} RoundTrip(b: Book)
    requires WellFormed(b) && BookFits(b)
    ensures Restore(SnapshotBytes(b)) == Ok(b) <==> Count(b) < 0x8000_0000
  {
    BookFitsParts(b);
    hide SideBytes, HeaderBytes, HeaderError, ReadOrders, WellFormed, BookFits, FitsSigned, Signed, Put, Span;
    var n := Count(b);
    var body := SideBytes(b.bids) + SideBytes(b.asks);
    assert SnapshotBytes(b) == HeaderBytes(b.nextId, n) + body;
    ReadHeader(b.nextId, n, body);
    CountField(n);
    if n < 0x8000_0000 {
      RoundTripBody(b);
    } else {
      ReadCount(body, Signed(Put(n, 4)), EMPTY);
    }
  }

  lemma {:induction false} RoundTripBody(b: Book)
    requires WellFormed(b) && BookFits(b)
    ensures ReadOrders(SideBytes(b.bids) + SideBytes(b.asks), Count(b), EMPTY) == Ok(Book(b.bids, b.asks, 1))
  {
    hide SideBytes, SideOk, SideFits;
    assert b.bids[..0] == [] && b.asks[..0] == [] && b.bids[0..] == b.bids && b.asks[0..] == b.asks;
    assert b.bids[..|b.bids|] == b.bids && b.asks[..|b.asks|] == b.asks;
    ReadSide(b.bids, 0, true, b.nextId, [], SideBytes(b.asks), |b.asks|);
    ReadSide(b.asks, 0, false, b.nextId, b.bids, [], 0);
    assert SideBytes(b.asks) + [] == SideBytes(b.asks);
  }

  // --- Length and truncation -------------------------------------------------

  lemma {:induction false} SnapshotLength(b: Book)
    ensures |SnapshotBytes(b)| == 28 + 41 * Count(b)
  {
  }

  // On any bytes at all, restoring succeeds exactly when the header is sound and
  // the body is as long as the header says.
  lemma {:induction false} RestoreSucceeds(bs: seq<byte>)
    ensures Restore(bs).Ok? <==> HeaderError(bs).Ok? && |bs| >= HEADER + RECORD * CountOf(bs)
    ensures Restore(bs).Ok? ==> Count(Restore(bs).value) == if CountOf(bs) > 0 then CountOf(bs) else 0
  {
    if HeaderError(bs).Ok? {
      ReadCount(bs[HEADER..], CountOf(bs), EMPTY);
    }
  }

  // Every strict prefix of a snapshot is refused.
  lemma {:induction false} TruncationDetected(b: Book, k: nat)
    requires FitsSigned(b.nextId, 8) && Count(b) < 0x8000_0000
    requires k < |SnapshotBytes(b)|
    ensures Restore(SnapshotBytes(b)[..k]) == Err(Truncated)
  {
    Spans();
    SnapshotLength(b);
    hide HeaderBytes, SideBytes, Put, Signed, Unsigned, ReadOrders, Span;
    var n, bs := Count(b), SnapshotBytes(b);
    var body := SideBytes(b.bids) + SideBytes(b.asks);
    assert bs == HeaderBytes(b.nextId, n) + body;
    if k >= HEADER {
      assert bs[..k] == HeaderBytes(b.nextId, n) + body[..k - HEADER];
      ReadHeader(b.nextId, n, body[..k - HEADER]);
      SignedPut(n, 4);
      ReadCount(body[..k - HEADER], n, EMPTY);
    }
  }

  // --- The format, byte by byte ----------------------------------------------

  lemma {:induction false} MagicBytes()
    ensures Put(MAGIC, 4) == [0x31, 0x53, 0x4D, 0x47]
  {
    var a := MAGIC / 256;
    var b := a / 256;
    var c := b / 256;
    assert Put(c, 1) == [0x47] + Put(c / 256, 0) == [0x47];
    assert Put(b, 2) == [0x4D] + Put(c, 1);
    assert Put(a, 3) == [0x53] + Put(b, 2);
    assert Put(MAGIC, 4) == [0x31] + Put(a, 3);
  }

  // The header of a snapshot: the bytes of "GMS1" backwards, version 1, instrument
  // 1, the next id and the number of orders.
  lemma {:induction false} HeaderLayout(b: Book)
    requires BookFits(b) && |b.bids| + |b.asks| < 0x8000_0000
    ensures var bs := SnapshotBytes(b);
            && |bs| == 28 + 41 * (|b.bids| + |b.asks|)
            && bs[0] == 0x31 && bs[1] == 0x53 && bs[2] == 0x4D && bs[3] == 0x47
            && Signed(bs[4..8]) == 1 && Signed(bs[8..16]) == 1
            && Signed(bs[16..24]) == b.nextId && Signed(bs[24..28]) == |b.bids| + |b.asks|
  {
    var bs, n := SnapshotBytes(b), Count(b);
    MagicBytes();
    SnapshotLength(b);
    Spans();
    hide Put, Signed, Span, SideBytes, BookFits;
    assert bs[..4] == Put(MAGIC, 4) && bs[4..8] == Put(VERSION, 4) && bs[8..16] == Put(INSTRUMENT, 8);
    assert bs[16..24] == Put(b.nextId, 8) && bs[24..28] == Put(n, 4);
    assert bs[0] == bs[..4][0] && bs[1] == bs[..4][1] && bs[2] == bs[..4][2] && bs[3] == bs[..4][3];
    SignedPut(VERSION, 4);
    SignedPut(INSTRUMENT, 8);
    SignedPut(n, 4);
    assert FitsSigned(b.nextId, 8) by {
      BookFitsParts(b);
    }
    SignedPut(b.nextId, 8);
  }

  lemma {:induction false} BookFitsParts(b: Book)
    requires BookFits(b)
    ensures FitsSigned(b.nextId, 8) && SideFits(b.bids + b.asks)
  {
  }

  // The k-th record starts at 41 * k.
  lemma {:induction false} SideBytesAt(s: seq<Order>, k: nat)
    requires k < |s|
    ensures SideBytes(s)[41 * k..41 * k + 41] == OrderBytes(s[k])
  {
    hide OrderBytes;
    if k > 0 {
      SideBytesAt(s[1..], k - 1);
      var first, rest := OrderBytes(s[0]), SideBytes(s[1..]);
      assert (first + rest)[41 * k..41 * k + 41] == rest[41 * (k - 1)..41 * (k - 1) + 41];
    } else {
      assert (OrderBytes(s[0]) + SideBytes(s[1..]))[0..41] == OrderBytes(s[0]);
    }
  }

  lemma {:induction false} SideBytesConcat(a: seq<Order>, b: seq<Order>)
    ensures SideBytes(a + b) == SideBytes(a) + SideBytes(b)
  {
    hide OrderBytes;
    if a == [] {
      assert a + b == b;
    } else {
      assert (a + b)[0] == a[0] && (a + b)[1..] == a[1..] + b;
      assert SideBytes(a + b) == OrderBytes(a[0]) + SideBytes(a[1..] + b) && SideBytes(a) == OrderBytes(a[0]) + SideBytes(a[1..]);
      SideBytesConcat(a[1..], b);
      hide SideBytes;
      assert OrderBytes(a[0]) + (SideBytes(a[1..]) + SideBytes(b)) == (OrderBytes(a[0]) + SideBytes(a[1..])) + SideBytes(b);
    }
  }

  // The record of an order: id, client id, owner, side, price and quantity.
  lemma {:induction false} OrderLayout(o: Order)
    requires OrderFits(o)
    ensures var r := OrderBytes(o);
            && |r| == 41
            && Signed(r[0..8]) == o.id && Signed(r[8..16]) == o.clientOrderId && Signed(r[16..24]) == o.owner
            && Signed(r[24..25]) == o.side && Signed(r[25..33]) == o.price && Signed(r[33..41]) == o.qty
  {
    ReadWritten(o, []);
    assert OrderBytes(o) + [] == OrderBytes(o);
    assert OrderBytes(o)[0..8] == OrderBytes(o)[..8];
    hide OrderBytes, Signed, OrderFits;
  }

  // The records follow the header, 41 bytes each, bids before asks in book order.
  lemma {:induction false} RecordLayout(b: Book, k: nat)
    requires BookFits(b) && k < |b.bids + b.asks|
    ensures var bs, o, at := SnapshotBytes(b), (b.bids + b.asks)[k], 28 + 41 * k;
            && at + 41 <= |bs|
            && Signed(bs[at..at + 8]) == o.id
            && Signed(bs[at + 8..at + 16]) == o.clientOrderId
            && Signed(bs[at + 16..at + 24]) == o.owner
            && Signed(bs[at + 24..at + 25]) == o.side
            && Signed(bs[at + 25..at + 33]) == o.price
            && Signed(bs[at + 33..at + 41]) == o.qty
  {
    var s := b.bids + b.asks;
    var body, r := SideBytes(s), OrderBytes(s[k]);
    BookFitsParts(b);
    SideBytesConcat(b.bids, b.asks);
    SideBytesAt(s, k);
    OrderLayout(s[k]);
    assert |HeaderBytes(b.nextId, Count(b))| == 28 && |body| == 41 * |s|;
    Behind(HeaderBytes(b.nextId, Count(b)), SideBytes(b.bids), SideBytes(b.asks), body, 41 * k, r);
    hide SideBytes, OrderBytes, HeaderBytes, Signed, BookFits;
  }

  // A record at `from` of the body, read field by field behind a header.
  lemma {:induction false} Behind(header: seq<byte>, bids: seq<byte>, asks: seq<byte>, body: seq<byte>, from: nat, r: seq<byte>)
    requires |header| == 28 && body == bids + asks && from + 41 <= |body| && body[from..from + 41] == r
    ensures var bs, at := header + bids + asks, 28 + from;
            && bs[at..at + 8] == r[0..8] && bs[at + 8..at + 16] == r[8..16] && bs[at + 16..at + 24] == r[16..24]
            && bs[at + 24..at + 25] == r[24..25] && bs[at + 25..at + 33] == r[25..33] && bs[at + 33..at + 41] == r[33..41]
  {
    var bs, at := header + bids + asks, 28 + from;
    assert bs == header + body;
    assert forall i :: 0 <= i < 41 ==> bs[at + i] == body[from + i] == r[i];
    Slice(bs, at, r, 0, 8);
    Slice(bs, at, r, 8, 16);
    Slice(bs, at, r, 16, 24);
    Slice(bs, at, r, 24, 25);
    Slice(bs, at, r, 25, 33);
    Slice(bs, at, r, 33, 41);
  }

  lemma {:induction false} Slice(bs: seq<byte>, at: nat, r: seq<byte>, i: nat, j: nat)
    requires at + |r| <= |bs| && i <= j <= |r| && forall k :: 0 <= k < |r| ==> bs[at + k] == r[k]
    ensures bs[at + i..at + j] == r[i..j]
  {
    forall k | 0 <= k < j - i
      ensures bs[at + i..at + j][k] == r[i..j][k]
    {
      assert bs[at + (i + k)] == r[i + k];
    }
  }

  // What restoring says to any bytes, told from the bytes.
  lemma {:induction false} RestoreOutcome(bs: seq<byte>)
    ensures Restore(bs).Err? && Restore(bs).error == Truncated <==>
              || |bs| < 28
              || (bs[..4] == [0x31, 0x53, 0x4D, 0x47] && Signed(bs[4..8]) == 1 && |bs| < 28 + 41 * Signed(bs[24..28]))
    ensures Restore(bs).Err? && Restore(bs).error == BadMagic <==> |bs| >= 28 && bs[..4] != [0x31, 0x53, 0x4D, 0x47]
    ensures Restore(bs).Err? && Restore(bs).error == BadVersion <==>
              |bs| >= 28 && bs[..4] == [0x31, 0x53, 0x4D, 0x47] && Signed(bs[4..8]) != 1
    ensures Restore(bs).Ok? ==> Restore(bs).value.nextId == Signed(bs[16..24])
  {
    if |bs| >= 28 {
      MagicRead(bs[..4]);
      ReadCount(bs[HEADER..], CountOf(bs), EMPTY);
    }
  }

  lemma {:induction false} MagicRead(bs: seq<byte>)
    requires |bs| == 4
    ensures Unsigned(bs) == MAGIC <==> bs == [0x31, 0x53, 0x4D, 0x47]
  {
    assert Unsigned(bs) == bs[0] + 256 * Unsigned(bs[1..]);
    assert bs[1..][1..] == bs[2..] && Unsigned(bs[1..]) == bs[1] + 256 * Unsigned(bs[2..]);
    assert bs[2..][1..] == bs[3..] && Unsigned(bs[2..]) == bs[2] + 256 * Unsigned(bs[3..]);
    assert bs[3..][1..] == [] && Unsigned(bs[3..]) == bs[3];
  }

  // --- Behaviour after a restore ---------------------------------------------

  // A restored engine is indistinguishable from the original: any further run
  // gives the same events, and the next snapshot the same bytes.
  lemma {:induction false} RestoredBehavesAlike(b: Book, cmds: seq<Command>)
    requires WellFormed(b) && BookFits(b) && Count(b) < 0x8000_0000
    ensures var r := Restore(SnapshotBytes(b));
            && r.Ok?
            && Run(r.value, cmds).events == Run(b, cmds).events
            && SnapshotBytes(Run(r.value, cmds).book) == SnapshotBytes(Run(b, cmds).book)
  {
    RoundTrip(b);
  }
}
