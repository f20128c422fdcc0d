/**
The marshaller of the wire codecs: every integer goes through one eight-byte
scratch buffer that each call overwrites. Proved against the encoding of
`Bytes.dfy`.
*/
module Marshalling {
  import opened Bytes

  // The k-th byte of v, as a right shift by 8k and a truncation to a byte.
  function ByteAt(v: int, k: nat): byte {
    ((v / Span(k)) % 256) as byte
  }

  lemma {:induction false} Scaled(d: int, n: int)
    requires d > 0 && n > 0
    ensures d * n >= d
  {
  }

  // The quotient is determined by a remainder in range.
  lemma {:induction false} Quotient(d: int, q: int, r: int, q': int, r': int)
    requires 0 <= r < d && 0 <= r' < d && d * q + r == d * q' + r'
    ensures q == q'
  {
    assert d * (q - q') == d * q - d * q';
    if q > q' {
      Scaled(d, q - q');
    } else if q < q' {
      Scaled(d, q' - q);
    }
  }

  lemma {:induction false} ShiftTwice(v: int, s: int)
    requires s > 0
    ensures (v / 256) / s == v / (256 * s)
  {
    var q, d := v / 256, 256 * s;
    var t, r := q / s, 256 * (q % s) + v % 256;
    assert 256 * (s * t) == d * t;
    Quotient(d, t, r, v / d, v % d);
  }

  // Byte by byte, the encoding is a shift.
  lemma {:induction false} PutIsShifts(v: int, n: nat, k: nat)
    requires k < n
    ensures Put(v, n)[k] == ByteAt(v, k)
    decreases n
  {
    if k > 0 {
      PutIsShifts(v / 256, n - 1, k - 1);
      ShiftTwice(v, Span(k - 1));
    }
  }

  // The signed reading is the unsigned one, less the span when the top bit is set.
  lemma {:induction false} SignedIsUnsigned(bs: seq<byte>)
    requires bs != []
    ensures Signed(bs) == Unsigned(bs) - (if bs[|bs| - 1] >= 128 then Span(|bs|) else 0)
  {
    if |bs| > 1 {
      SignedIsUnsigned(bs[1..]);
    } else {
      assert bs[1..] == [] && Span(1) == 256;
    }
  }

  lemma {:induction false} EightBytes(bs: seq<byte>)
    requires |bs| == 8
    ensures Unsigned(bs) == (bs[0] as int) + 0x100 * (bs[1] as int) + 0x1_0000 * (bs[2] as int) + 0x100_0000 * (bs[3] as int) + 0x1_0000_0000 * (bs[4] as int)
                            + 0x100_0000_0000 * (bs[5] as int) + 0x1_0000_0000_0000 * (bs[6] as int) + 0x100_0000_0000_0000 * (bs[7] as int)
  {
    assert Unsigned(bs[8..]) == 0;
    Tail(bs, 7);
    Tail(bs, 6);
    Tail(bs, 5);
    Tail(bs, 4);
    Tail(bs, 3);
    Tail(bs, 2);
    Tail(bs, 1);
    Tail(bs, 0);
    assert bs[0..] == bs;
  }

  lemma {:induction false} Tail(bs: seq<byte>, k: nat)
    requires k < |bs|
    ensures Unsigned(bs[k..]) == (bs[k] as int) + 256 * Unsigned(bs[k + 1..])
  {
    assert bs[k..][1..] == bs[k + 1..];
  }

  class Marshaller {
    const b8: array<byte> // scratch; the narrower scratch slices are its prefixes

    constructor ()
      ensures b8.Length == 8 && fresh(b8)
    {
      b8 := new byte[8](_ => 0);
    }

    method WriteInt64(w: seq<byte>, v: int) returns (w': seq<byte>)
      requires b8.Length == 8
      modifies b8
      ensures w' == w + Put(v, 8)
    {
      b8[0] := ByteAt(v, 0);
      b8[1] := ByteAt(v, 1);
      b8[2] := ByteAt(v, 2);
      b8[3] := ByteAt(v, 3);
      b8[4] := ByteAt(v, 4);
      b8[5] := ByteAt(v, 5);
      b8[6] := ByteAt(v, 6);
      b8[7] := ByteAt(v, 7);
      w' := w + b8[..8];
      forall k | 0 <= k < 8
        ensures b8[k] == Put(v, 8)[k]
      {
        PutIsShifts(v, 8, k);
      }
      assert b8[..8] == Put(v, 8);
    }

    method WriteUint16(w: seq<byte>, v: int) returns (w': seq<byte>)
      requires b8.Length == 8
      modifies b8
      ensures w' == w + Put(v, 2)
    {
      b8[0] := ByteAt(v, 0);
      b8[1] := ByteAt(v, 1);
      w' := w + b8[..2];
      PutIsShifts(v, 2, 0);
      PutIsShifts(v, 2, 1);
      assert b8[..2] == Put(v, 2);
    }

    method WriteInt8(w: seq<byte>, v: int) returns (w': seq<byte>)
      requires b8.Length == 8
      modifies b8
      ensures w' == w + Put(v, 1)
    {
      b8[0] := ByteAt(v, 0);
      w' := w + b8[..1];
      PutIsShifts(v, 1, 0);
      assert b8[..1] == Put(v, 1);
    }

    // Reads eight bytes if the stream has them; a short stream is an error.
    method ReadInt64(r: seq<byte>) returns (ok: bool, v: int, rest: seq<byte>)
      requires b8.Length == 8
      modifies b8
      ensures ok <==> |r| >= 8
      ensures ok ==> v == Signed(r[..8]) && rest == r[8..]
    {
      if |r| < 8 {
        return false, 0, [];
      }
      forall k | 0 <= k < 8 {
        b8[k] := r[k];
      }
      assert b8[..8] == r[..8];
      var word := (b8[0] as int) + 0x100 * (b8[1] as int) + 0x1_0000 * (b8[2] as int) + 0x100_0000 * (b8[3] as int) + 0x1_0000_0000 * (b8[4] as int)
                  + 0x100_0000_0000 * (b8[5] as int) + 0x1_0000_0000_0000 * (b8[6] as int) + 0x100_0000_0000_0000 * (b8[7] as int);
      v := if b8[7] >= 128 then word - 0x1_0000_0000_0000_0000 else word; // the sign bit of the 64-bit word
      rest := r[8..];
      EightBytes(r[..8]);
      SignedIsUnsigned(r[..8]);
      Spans();
      ok := true;
    }

    method ReadInt8(r: seq<byte>) returns (ok: bool, v: int, rest: seq<byte>)
      requires b8.Length == 8
      modifies b8
      ensures ok <==> |r| >= 1
      ensures ok ==> v == Signed(r[..1]) && rest == r[1..]
    {
      if |r| < 1 {
        return false, 0, [];
      }
      b8[0] := r[0];
      v := if b8[0] >= 128 then (b8[0] as int) - 256 else b8[0];
      rest := r[1..];
      ok := true;
    }

    method ReadUint16(r: seq<byte>) returns (ok: bool, v: int, rest: seq<byte>)
      requires b8.Length == 8
      modifies b8
      ensures ok <==> |r| >= 2
      ensures ok ==> v == Unsigned(r[..2]) && rest == r[2..]
    {
      if |r| < 2 {
        return false, 0, [];
      }
      b8[0] := r[0];
      b8[1] := r[1];
      v := (b8[0] as int) + 0x100 * (b8[1] as int);
      rest := r[2..];
      Tail(r[..2], 0);
      Tail(r[..2], 1);
      assert r[..2][0..] == r[..2] && Unsigned(r[..2][2..]) == 0;
      ok := true;
    }
  }
}
