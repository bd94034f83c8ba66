/** Little-endian integer fields as the WAV writer stores them.

    The writer puts an integer of width `w` into its byte buffer one byte at a
    time, byte `i` being the JavaScript expression `(v >> (i * 8)) & 0xFF`.
    This module models that expression exactly (the 32-bit conversion that
    `>>` performs, the arithmetic shift, the mask), proves that it is byte `i`
    of the two's-complement representation of `v`, and gives the decoder a
    reader of the file would use, with the round trips in both directions.
 */
module LittleEndian {

  /** One element of a `Uint8Array`. */
  type byte = x: int | 0 <= x < 256

  /** The widest integer field the writer stores, in bytes. */
  const MaxWidth: nat := 4

  const TwoTo31: int := 0x8000_0000
  const TwoTo32: int := 0x1_0000_0000

  /** 256 to the power `i`: the weight of byte `i` of a little-endian field. */
  function Pow256(i: nat): (r: nat)
    ensures r > 0
  {
    if i == 0 then 1 else 256 * Pow256(i - 1)
  }

  /** JavaScript's ToInt32, the conversion `>>` applies to its left operand:
      the one 32-bit signed value congruent to `v` modulo 2^32. */
  function ToInt32(v: int): (r: int)
    ensures -TwoTo31 <= r < TwoTo31
    ensures r % TwoTo32 == v % TwoTo32
  {
    var t := (v + TwoTo31) % TwoTo32 - TwoTo31;
    DivAddMultiple(t, (v + TwoTo31) / TwoTo32, TwoTo32);
    t
  }

  /** The byte `(v >> (i * 8)) & 0xFF`: an arithmetic shift of the 32-bit
      conversion of `v` by `8 * i` bits (a floor division), then its low
      eight bits (a non-negative remainder). */
  function ShiftMask(v: int, i: nat): byte
    requires i < MaxWidth
  {
    (ToInt32(v) / Pow256(i)) % 256
  }

  /** Byte `i` of the two's-complement representation of `v`. */
  function ByteAt(v: int, i: nat): byte
  {
    (v / Pow256(i)) % 256
  }

  /** The bytes the store loop of `appendData` and `insertData` writes for
      the integer `v` with `numBytes == w`, lowest address first. */
  function Encode(v: int, w: nat): (r: seq<byte>)
    requires w <= MaxWidth
    ensures |r| == w
  {
    seq(w, i requires 0 <= i < w => ShiftMask(v, i))
  }

  /** The unsigned value of a little-endian byte sequence. */
  function Decode(bs: seq<byte>): (n: nat)
    ensures n < Pow256(|bs|)
  {
    if bs == [] then 0 else bs[0] + 256 * Decode(bs[1..])
  }

  /** A 16-bit PCM sample as a reader decodes it: two's complement. */
  function DecodeInt16(bs: seq<byte>): (s: int)
    requires |bs| == 2
    ensures -0x8000 <= s < 0x8000
    ensures (s - Decode(bs)) % 0x1_0000 == 0
  {
    var u := Decode(bs);
    if u >= 0x8000 then u - 0x1_0000 else u
  }

  // ---------------------------------------------------------------------
  // Division facts used below. Dafny's `/` and `%` are floor division and a
  // non-negative remainder for a positive divisor, as JavaScript's `>>` and
  // `& 0xFF` are on 32-bit two's complement.
  // ---------------------------------------------------------------------

  lemma DivModUnique(x: int, d: int, q: int, r: int)
    requires d > 0 && 0 <= r < d && x == q * d + r
    ensures x / d == q && x % d == r
  {
    var q' := x / d;
    var r' := x % d;
    assert (q - q') * d == r' - r;
    if q - q' >= 1 {
      assert false;
    } else if q - q' <= -1 {
      assert false;
    }
  }

  lemma DivAddMultiple(x: int, m: int, d: int)
    requires d > 0
    ensures (x + m * d) / d == x / d + m
    ensures (x + m * d) % d == x % d
  {
    assert x + m * d == (x / d + m) * d + x % d;
    DivModUnique(x + m * d, d, x / d + m, x % d);
  }

  lemma Pow256Split(i: nat)
    requires i <= MaxWidth
    ensures Pow256(i) * Pow256(MaxWidth - i) == TwoTo32
  {
    assert Pow256(4) == TwoTo32;
    assert Pow256(3) == 0x100_0000;
    assert Pow256(2) == 0x1_0000;
  }

  /** Dividing by `256 * P` is dividing by 256, then by `P`. */
  lemma DivDiv256(v: int, p: nat)
    requires p > 0
    ensures v / (256 * p) == (v / 256) / p
    ensures v % (256 * p) == v % 256 + 256 * ((v / 256) % p)
  {
    var q := (v / 256) / p;
    var r := v % 256 + 256 * ((v / 256) % p);
    assert v / 256 == q * p + (v / 256) % p;
    assert v == q * (256 * p) + r;
    DivModUnique(v, 256 * p, q, r);
  }

  // ---------------------------------------------------------------------
  // The shift-and-mask is two's complement, and the round trips.
  // ---------------------------------------------------------------------

  /** For the four shifts the writer uses, `(v >> (8 * i)) & 0xFF` is byte
      `i` of `v` whatever the size of `v`: the 32-bit conversion only drops
      bytes above the fourth. */
  lemma ShiftMaskIsByteAt(v: int, i: nat)
    requires i < MaxWidth
    ensures ShiftMask(v, i) == ByteAt(v, i)
  {
    var t := ToInt32(v);
    var p := Pow256(i);
    var q := Pow256(MaxWidth - i);
    Pow256Split(i);
    var k := (v - t) / TwoTo32;
    assert (v - t) % TwoTo32 == 0 by {
      DivAddMultiple(t, v / TwoTo32 - t / TwoTo32, TwoTo32);
      assert v == t + (v / TwoTo32 - t / TwoTo32) * TwoTo32 + (v % TwoTo32 - t % TwoTo32);
    }
    assert v == t + (k * q) * p;
    DivAddMultiple(t, k * q, p);
    assert v / p == t / p + k * q;
    assert q == 256 * Pow256(MaxWidth - i - 1);
    assert k * q == (k * Pow256(MaxWidth - i - 1)) * 256;
    DivAddMultiple(t / p, k * Pow256(MaxWidth - i - 1), 256);
  }

  lemma EncodeIsLowBytes(v: int, w: nat)
    requires w <= MaxWidth
    ensures forall i :: 0 <= i < w ==> Encode(v, w)[i] == ByteAt(v, i)
  {
    forall i | 0 <= i < w
      ensures Encode(v, w)[i] == ByteAt(v, i)
    {
      ShiftMaskIsByteAt(v, i);
    }
  }

  lemma ByteAtNext(v: int, i: nat)
    ensures ByteAt(v, i + 1) == ByteAt(v / 256, i)
  {
    DivDiv256(v, Pow256(i));
  }

  /** Reading back a field of width `w` yields `v` modulo 2^(8w): the
      writer keeps the low `w` bytes and silently drops the rest. */
  lemma {:induction false} DecodeEncode(v: int, w: nat)
    requires w <= MaxWidth
    decreases w
    ensures Decode(Encode(v, w)) == v % Pow256(w)
  {
    EncodeIsLowBytes(v, w);
    if w > 0 {
      EncodeIsLowBytes(v / 256, w - 1);
      assert Encode(v, w)[1..] == Encode(v / 256, w - 1) by {
        forall i | 0 <= i < w - 1
          ensures Encode(v, w)[1..][i] == Encode(v / 256, w - 1)[i]
        {
          ByteAtNext(v, i);
        }
      }
      DecodeEncode(v / 256, w - 1);
      DivDiv256(v, Pow256(w - 1));
    }
  }

  /** Writing the value a field decodes to reproduces the field. */
  lemma {:induction false} EncodeDecode(bs: seq<byte>)
    requires |bs| <= MaxWidth
    ensures Encode(Decode(bs), |bs|) == bs
  {
    var n := Decode(bs);
    EncodeIsLowBytes(n, |bs|);
    forall i | 0 <= i < |bs|
      ensures ByteAt(n, i) == bs[i]
    {
      ByteAtOfDecode(bs, i);
    }
  }

  lemma {:induction false} ByteAtOfDecode(bs: seq<byte>, i: nat)
    requires i < |bs|
    ensures ByteAt(Decode(bs), i) == bs[i]
  {
    var rest := Decode(bs[1..]);
    DivModUnique(Decode(bs), 256, rest, bs[0]);
    if i > 0 {
      ByteAtNext(Decode(bs), i - 1);
      ByteAtOfDecode(bs[1..], i - 1);
    }
  }

  /** Two integers are written as the same field exactly when they agree
      modulo 2^(8w): the encoding wraps around. */
  lemma EncodeWraps(u: int, v: int, w: nat)
    requires w <= MaxWidth
    ensures Encode(u, w) == Encode(v, w) <==> u % Pow256(w) == v % Pow256(w)
  {
    DecodeEncode(u, w);
    DecodeEncode(v, w);
    if u % Pow256(w) == v % Pow256(w) {
      EncodeDecode(Encode(u, w));
      EncodeDecode(Encode(v, w));
    }
  }

  /** A sample in the signed 16-bit range reads back as itself; any other
      integer reads back as its low 16 bits in two's complement. */
  lemma Int16RoundTrip(s: int)
    ensures (DecodeInt16(Encode(s, 2)) - s) % 0x1_0000 == 0
    ensures -0x8000 <= s < 0x8000 ==> DecodeInt16(Encode(s, 2)) == s
  {
    DecodeEncode(s, 2);
    assert Pow256(2) == 0x1_0000;
    var u := Decode(Encode(s, 2));
    assert u == s % 0x1_0000;
    DivAddMultiple(s % 0x1_0000, s / 0x1_0000, 0x1_0000);
    assert s == s % 0x1_0000 + (s / 0x1_0000) * 0x1_0000;
  }
}
