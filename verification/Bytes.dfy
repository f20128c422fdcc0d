/**
Little-endian two's-complement integers of any width, as both the snapshot
writer and the wire codecs produce them byte by byte.
*/
module Bytes {

  type byte = x: int | 0 <= x < 256

  // The low n bytes of v, least significant first. Division here floors, which
  // is the arithmetic shift of the program, so negative values come out in two's
  // complement.
  function Put(v: int, n: nat): (bs: seq<byte>)
    ensures |bs| == n
    decreases n
  {
    if n == 0 then [] else [(v % 256) as byte] + Put(v / 256, n - 1)
  }

  function Unsigned(bs: seq<byte>): nat {
    if bs == [] then 0 else bs[0] + 256 * Unsigned(bs[1..])
  }

  // The top byte carries the sign.
  function Signed(bs: seq<byte>): int {
    if bs == [] then 0
    else if |bs| == 1 then if bs[0] < 128 then bs[0] else bs[0] - 256
    else bs[0] + 256 * Signed(bs[1..])
  }

  // 2 to the power 8n.
  function Span(n: nat): (s: nat)
    ensures s > 0
  {
    if n == 0 then 1 else 256 * Span(n - 1)
  }

  lemma {:induction false} Spans()
    ensures Span(1) == 0x100 && Span(2) == 0x1_0000 && Span(4) == 0x1_0000_0000 && Span(8) == 0x1_0000_0000_0000_0000
  {
    assert Span(3) == 256 * Span(2);
    assert Span(4) == 256 * Span(3);
    assert Span(5) == 256 * Span(4);
    assert Span(6) == 256 * Span(5);
    assert Span(7) == 256 * Span(6);
    assert Span(8) == 256 * Span(7);
  }

  predicate FitsSigned(v: int, n: nat) {
    n > 0 && 0 <= 2 * v + Span(n) < 2 * Span(n)
  }

  lemma {:induction false} Digit(r: int, q: int)
    requires 0 <= r < 256
    ensures (r + 256 * q) % 256 == r && (r + 256 * q) / 256 == q
  {
  }

  lemma {:induction false} ShiftFits(v: int, n: nat)
    requires FitsSigned(v, n) && n > 1
    ensures FitsSigned(v / 256, n - 1)
  {
    var q := v / 256;
    assert v == 256 * q + v % 256;
    assert Span(n) == 256 * Span(n - 1);
  }

  lemma {:induction false} SignedByte(v: int)
    requires FitsSigned(v, 1)
    ensures Signed([(v % 256) as byte]) == v
  {
    assert Span(1) == 256;
    assert v >= 0 ==> v % 256 == v;
    if v < 0 {
      Digit(v + 256, -1);
    }
  }

  lemma {:induction false} SignedPut(v: int, n: nat)
    requires FitsSigned(v, n)
    ensures Signed(Put(v, n)) == v
    decreases n
  {
    if n == 1 {
      SignedByte(v);
      assert Put(v / 256, 0) == [];
    } else {
      ShiftFits(v, n);
      hide Span;
      SignedPut(v / 256, n - 1);
      assert Put(v, n)[1..] == Put(v / 256, n - 1);
    }
  }

  lemma {:induction false} UnsignedPut(v: int, n: nat)
    requires 0 <= v < Span(n)
    ensures Unsigned(Put(v, n)) == v
    decreases n
  {
    if n > 0 {
      UnsignedPut(v / 256, n - 1);
      assert Put(v, n)[1..] == Put(v / 256, n - 1);
    }
  }

  // Reading and writing back gives the same bytes, so the encoding is a bijection.
  lemma {:induction false} PutSigned(bs: seq<byte>)
    requires bs != []
    ensures FitsSigned(Signed(bs), |bs|) && Put(Signed(bs), |bs|) == bs
  {
    if |bs| == 1 {
      Digit(bs[0], if bs[0] < 128 then 0 else -1);
      assert Span(1) == 256 && Put(Signed(bs) / 256, 0) == [];
    } else {
      PutSigned(bs[1..]);
      Digit(bs[0], Signed(bs[1..]));
      GrowFits(bs[0], Signed(bs[1..]), |bs| - 1);
      hide Span;
      assert bs == [bs[0]] + bs[1..];
    }
  }

  lemma {:induction false} GrowFits(r: int, q: int, n: nat)
    requires 0 <= r < 256 && FitsSigned(q, n)
    ensures FitsSigned(r + 256 * q, n + 1)
  {
    assert Span(n + 1) == 256 * Span(n);
  }

  // A value too wide for n bytes is reduced by whole multiples of the span.
  lemma {:induction false} SignedPutWraps(v: int, n: nat)
    requires n > 0
    ensures FitsSigned(Signed(Put(v, n)), n)
  {
    PutSigned(Put(v, n));
  }
}
