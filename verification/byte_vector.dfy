/** The growable byte vector `_Uint8Vector` of the WAV writer, as a value.

    `store` is the backing `Uint8Array`: its length is the capacity, and
    bytes past `size` have never been written. A write first grows the store
    at most once, to the next power of two above the current capacity, and
    then stores its bytes one by one. A `Uint8Array` silently ignores a store
    past its end, so the point of this module is that no such store happens:
    starting from the encoder's capacity of 44, every capacity the vector can
    reach is 44 or a power of two above it, and from any of those one growth
    step leaves room for a write of up to four bytes.
 */
module ByteVector {
  import opened LittleEndian

  /** The length the encoder creates its vector with: the header size. */
  const InitialCapacity: nat := 44

  datatype Vector = Vector(store: seq<byte>, size: nat)

  function Zeros(n: nat): (r: seq<byte>)
    ensures |r| == n
    ensures forall i :: 0 <= i < n ==> r[i] == 0
  {
    seq(n, _ => 0)
  }

  /** Regrouping a concatenation; stated once so that chains of appends are
      not proved element by element. */
  lemma ConcatAssoc<T>(a: seq<T>, b: seq<T>, c: seq<T>)
    ensures (a + b) + c == a + (b + c)
  {
  }

  /** `new _Uint8Vector(initialLength)`: a zero-filled store, nothing written. */
  function New(initialLength: nat): (v: Vector)
    ensures |v.store| == initialLength
    ensures Contents(v) == []
  {
    Vector(Zeros(initialLength), 0)
  }

  /** `writeBuffer()`: `_data.slice(0, _size)`, which stops at the end of the
      store should `size` ever exceed it. */
  function Contents(v: Vector): seq<byte>
  {
    if v.size <= |v.store| then v.store[..v.size] else v.store
  }

  /** On a valid vector the output is exactly the first `size` bytes of the
      store: the bytes written so far, in order. */
  lemma ContentsOfValid(v: Vector)
    requires Valid(v)
    ensures |Contents(v)| == v.size
    ensures forall i :: 0 <= i < v.size ==> Contents(v)[i] == v.store[i]
    ensures Contents(v) + v.store[v.size..] == v.store
  {
  }

  // ---------------------------------------------------------------------
  // Powers of two and `_nextPowerOf2`
  // ---------------------------------------------------------------------

  function Pow2(k: nat): (r: nat)
    ensures r >= 1
  {
    if k == 0 then 1 else 2 * Pow2(k - 1)
  }

  predicate IsPowerOf2(n: nat)
    decreases n
  {
    n == 1 || (n >= 2 && n % 2 == 0 && IsPowerOf2(n / 2))
  }

  /** The number of times the loop of `_nextPowerOf2` shifts `n` right
      before it reaches zero: the number of binary digits of `n`. */
  function BitLength(n: nat): nat
  {
    if n == 0 then 0 else 1 + BitLength(n / 2)
  }

  /** `_nextPowerOf2(n)`, that is `1 << count` after the shift loop: the
      least power of two strictly above `n`. */
  function NextPowerOf2(n: nat): (p: nat)
    ensures IsPowerOf2(p)
    ensures n < p
    ensures n == 0 ==> p == 1
    ensures n > 0 ==> p <= 2 * n
  {
    BitLengthBounds(n);
    Pow2IsPowerOf2(BitLength(n));
    Pow2(BitLength(n))
  }

  lemma {:induction false} BitLengthBounds(n: nat)
    ensures n < Pow2(BitLength(n))
    ensures n > 0 ==> Pow2(BitLength(n)) <= 2 * n
  {
    if n > 0 {
      BitLengthBounds(n / 2);
    }
  }

  lemma {:induction false} Pow2IsPowerOf2(k: nat)
    ensures IsPowerOf2(Pow2(k))
  {
    if k > 0 {
      Pow2IsPowerOf2(k - 1);
      assert Pow2(k) / 2 == Pow2(k - 1);
    }
  }

  /** Two distinct powers of two are at least a factor of two apart. */
  lemma {:induction false} PowersOf2AreSpaced(a: nat, b: nat)
    requires IsPowerOf2(a) && IsPowerOf2(b) && a < b
    ensures 2 * a <= b
    decreases a
  {
    if a > 1 {
      PowersOf2AreSpaced(a / 2, b / 2);
    }
  }

  /** Growing a power-of-two store doubles it. */
  lemma NextPowerOf2Doubles(n: nat)
    requires IsPowerOf2(n)
    ensures NextPowerOf2(n) == 2 * n
  {
    PowersOf2AreSpaced(n, NextPowerOf2(n));
  }

  /** The first two growth steps of the encoder's vector. */
  lemma FirstGrowthSteps()
    ensures NextPowerOf2(InitialCapacity) == 64
    ensures NextPowerOf2(64) == 128
  {
    assert IsPowerOf2(64);
    NextPowerOf2Doubles(64);
    PowersOf2AreSpaced(32, NextPowerOf2(44));
    assert IsPowerOf2(32);
  }

  /** `1 << count` in JavaScript: the shift count is taken modulo 32 and
      the result is a signed 32-bit integer. */
  function ShiftLeftOne(count: nat): int
  {
    ToInt32(Pow2(count % 32))
  }

  /** A number below `Pow2(k)` has at most `k` binary digits. */
  lemma {:induction false} BitLengthBelow(n: nat, k: nat)
    requires n < Pow2(k)
    ensures BitLength(n) <= k
  {
    if n > 0 {
      BitLengthBelow(n / 2, k - 1);
    }
  }

  /** A number of at least `Pow2(k)` has more than `k` binary digits. */
  lemma {:induction false} BitLengthAbove(n: nat, k: nat)
    requires Pow2(k) <= n
    ensures k < BitLength(n)
  {
    if k > 0 {
      BitLengthAbove(n / 2, k - 1);
    }
  }

  lemma {:induction false} Pow2Add(a: nat, b: nat)
    ensures Pow2(a + b) == Pow2(a) * Pow2(b)
    decreases b
  {
    if b > 0 {
      Pow2Add(a, b - 1);
      assert Pow2(a + b) == 2 * Pow2(a + b - 1);
    }
  }

  lemma Pow2Constants()
    ensures Pow2(30) == 0x4000_0000 && Pow2(31) == TwoTo31
  {
    assert Pow2(2) == 4;
    Pow2Add(2, 2);
    Pow2Add(4, 4);
    Pow2Add(8, 8);
    Pow2Add(16, 8);
    Pow2Add(24, 4);
    Pow2Add(28, 2);
    Pow2Add(30, 1);
  }

  /** Below 2^30 the 32-bit `1 << count` that ends `_nextPowerOf2` is the
      least power of two above `n`. */
  lemma NextPowerOf2In32Bits(n: nat)
    requires n < 0x4000_0000
    ensures ShiftLeftOne(BitLength(n)) == NextPowerOf2(n)
  {
    BitLengthBounds(n);
    BitLengthBelow2To30(n);
    ShiftLeftOneBelow(BitLength(n));
  }

  lemma BitLengthBelow2To30(n: nat)
    requires n < 0x4000_0000
    ensures BitLength(n) <= 30
  {
    Pow2Constants();
    BitLengthBelow(n, 30);
  }

  /** Below the sign bit, `1 << count` is the power of two itself. */
  lemma ShiftLeftOneBelow(count: nat)
    requires count < 32 && Pow2(count) < TwoTo31
    ensures ShiftLeftOne(count) == Pow2(count)
  {
    DivModUnique(count, 32, 0, count);
    ToInt32NonNegative(Pow2(count));
  }

  /** From 2^30 up to 2^31 the shift count is 31 and `1 << 31` is the most
      negative 32-bit integer, where the least power of two above `n` is
      2^31: growing a store of 2^30 bytes asks for a negative length. */
  lemma NextPowerOf2Overflows(n: nat)
    requires 0x4000_0000 <= n < TwoTo31
    ensures NextPowerOf2(n) == TwoTo31
    ensures ShiftLeftOne(BitLength(n)) == -TwoTo31
  {
    Pow2Constants();
    BitLengthBelow(n, 31);
    BitLengthAbove(n, 30);
    var count := BitLength(n);
    assert count == 31;
    assert count % 32 == 31;
    ToInt32Of2To31();
  }

  lemma ToInt32NonNegative(v: int)
    requires 0 <= v < TwoTo31
    ensures ToInt32(v) == v
  {
    DivModUnique(v + TwoTo31, TwoTo32, 0, v + TwoTo31);
  }

  lemma ToInt32Of2To31()
    ensures ToInt32(TwoTo31) == -TwoTo31
  {
    DivModUnique(TwoTo31 + TwoTo31, TwoTo32, 1, 0);
  }

  // ---------------------------------------------------------------------
  // Capacities the encoder's vector can reach
  // ---------------------------------------------------------------------

  /** The capacities reachable from the initial 44 by growth steps. */
  predicate ReachableCapacity(c: nat)
  {
    c == InitialCapacity || (c > InitialCapacity && IsPowerOf2(c))
  }

  /** From a reachable capacity, one growth step reaches another and adds
      room for at least one write of the widest field. */
  lemma GrowthKeepsRoom(c: nat)
    requires ReachableCapacity(c)
    ensures ReachableCapacity(NextPowerOf2(c))
    ensures c + MaxWidth <= NextPowerOf2(c)
  {
    if c == InitialCapacity {
      FirstGrowthSteps();
    } else {
      NextPowerOf2Doubles(c);
      assert IsPowerOf2(2 * c) by {
        assert (2 * c) / 2 == c;
      }
    }
  }

  /** The representation invariant of the encoder's vector: `size` within the
      store, a reachable capacity, and nothing written past `size`. */
  predicate Valid(v: Vector)
  {
    && v.size <= |v.store|
    && ReachableCapacity(|v.store|)
    && forall j :: v.size <= j < |v.store| ==> v.store[j] == 0
  }

  /** The encoder's fresh vector satisfies the invariant. */
  lemma NewVectorValid()
    ensures var v := New(InitialCapacity);
      Valid(v) && v.size == 0 && |v.store| == InitialCapacity
  {
  }

  // ---------------------------------------------------------------------
  // `_resizeArray`, the growth step and the store loop
  // ---------------------------------------------------------------------

  /** `_resizeArray(newSize)`: a zero-filled store of `newSize` bytes holding
      the first `min(newSize, |data|)` bytes of `data`; the same store when
      the size does not change. */
  function Resize(data: seq<byte>, newSize: nat): (r: seq<byte>)
    ensures |r| == newSize
    ensures forall i :: 0 <= i < |data| && i < newSize ==> r[i] == data[i]
    ensures forall i :: |data| <= i < newSize ==> r[i] == 0
  {
    if newSize == |data| then data
    else
      var dataStop := if newSize > |data| then |data| else newSize;
      data[..dataStop] + Zeros(newSize - dataStop)
  }

  /** The resize both writers perform first: once, to the next power of two,
      when the write would end past the capacity. */
  function Grow(v: Vector, end: nat): (r: Vector)
    ensures r.size == v.size
    ensures |r.store| == if end > |v.store| then NextPowerOf2(|v.store|) else |v.store|
    ensures r.store[..|v.store|] == v.store
    ensures forall j :: |v.store| <= j < |r.store| ==> r.store[j] == 0
  {
    if end > |v.store| then Vector(Resize(v.store, NextPowerOf2(|v.store|)), v.size) else v
  }

  /** The store loop: `bs` written over `store` from index `at`. */
  function WriteBytes(store: seq<byte>, at: nat, bs: seq<byte>): (r: seq<byte>)
    requires at + |bs| <= |store|
    ensures |r| == |store|
    ensures forall i :: 0 <= i < |bs| ==> r[at + i] == bs[i]
    ensures forall j :: 0 <= j < |store| && !(at <= j < at + |bs|) ==> r[j] == store[j]
  {
    store[..at] + bs + store[at + |bs|..]
  }

  // ---------------------------------------------------------------------
  // `appendData` and `insertData`
  // ---------------------------------------------------------------------

  /** `appendData`: `bs` added at the end, after at most one growth step.
      The writes all land inside the store, earlier bytes are kept, and the
      invariant is preserved. */
  function AppendBytes(v: Vector, bs: seq<byte>): (r: Vector)
    requires Valid(v) && |bs| <= MaxWidth
    ensures Valid(r)
    ensures |r.store| == if v.size + |bs| > |v.store| then NextPowerOf2(|v.store|) else |v.store|
    ensures r.size == v.size + |bs|
    ensures Contents(r) == Contents(v) + bs
  {
    var g := Grow(v, v.size + |bs|);
    GrowthKeepsRoom(|v.store|);
    var r := Vector(WriteBytes(g.store, v.size, bs), v.size + |bs|);
    assert Contents(r) == Contents(v) + bs by {
      assert Contents(r)[..v.size] == Contents(v);
      assert Contents(r)[v.size..] == bs;
    }
    r
  }

  /** `appendData(x, numBytes)` for an integer: its low `numBytes` bytes,
      little-endian. A `numBytes` of zero takes the string path in the
      source, so integer fields are one to four bytes wide. */
  function AppendInt(v: Vector, x: int, numBytes: nat): (r: Vector)
    requires Valid(v) && 1 <= numBytes <= MaxWidth
    ensures Valid(r)
    ensures |r.store| == if v.size + numBytes > |v.store| then NextPowerOf2(|v.store|) else |v.store|
    ensures r.size == v.size + numBytes
    ensures Contents(r) == Contents(v) + Encode(x, numBytes)
  {
    AppendBytes(v, Encode(x, numBytes))
  }

  /** `insertData`: `bs` written over the bytes from `index`, after at most
      one growth step, `size` extended when the write ends past it. The
      precondition is exactly that the one growth step leaves room, which is
      when the source's stores all land. */
  function InsertBytes(v: Vector, index: nat, bs: seq<byte>): (r: Vector)
    requires Valid(v) && |bs| <= MaxWidth
    requires index + |bs| <= NextPowerOf2(|v.store|)
    ensures Valid(r)
    ensures |r.store| == if index + |bs| > |v.store| then NextPowerOf2(|v.store|) else |v.store|
    ensures r.size == if index + |bs| > v.size then index + |bs| else v.size
    ensures |Contents(r)| == r.size
    ensures forall j :: 0 <= j < r.size ==>
      Contents(r)[j] == if index <= j < index + |bs| then bs[j - index]
                        else if j < v.size then Contents(v)[j] else 0
  {
    var end := index + |bs|;
    var g := Grow(v, end);
    GrowthKeepsRoom(|v.store|);
    Vector(WriteBytes(g.store, index, bs), if end > v.size then end else v.size)
  }

  /** `insertData(index, x, numBytes)` for an integer. */
  function InsertInt(v: Vector, index: nat, x: int, numBytes: nat): (r: Vector)
    requires Valid(v) && 1 <= numBytes <= MaxWidth
    requires index + numBytes <= NextPowerOf2(|v.store|)
    ensures Valid(r)
    ensures |r.store| == if index + numBytes > |v.store| then NextPowerOf2(|v.store|) else |v.store|
    ensures r.size == if index + numBytes > v.size then index + numBytes else v.size
    ensures Contents(r)[index..index + numBytes] == Encode(x, numBytes)
    ensures forall j :: 0 <= j < v.size && !(index <= j < index + numBytes) ==>
      Contents(r)[j] == Contents(v)[j]
  {
    var bs := Encode(x, numBytes);
    var r := InsertBytes(v, index, bs);
    assert Contents(r)[index..index + numBytes] == bs by {
      forall k | 0 <= k < numBytes
        ensures Contents(r)[index..index + numBytes][k] == bs[k]
      {
        assert Contents(r)[index + k] == bs[k];
      }
    }
    r
  }

  /** Writing over bytes that are already written leaves `size` alone and
      changes exactly the bytes written: the backpatch case. */
  lemma InsertWithinContents(v: Vector, index: nat, bs: seq<byte>)
    requires Valid(v) && |bs| <= MaxWidth
    requires index + |bs| <= v.size
    ensures index + |bs| <= NextPowerOf2(|v.store|)
    ensures InsertBytes(v, index, bs).size == v.size
    ensures Contents(InsertBytes(v, index, bs))
         == Contents(v)[..index] + bs + Contents(v)[index + |bs|..]
  {
    var r := InsertBytes(v, index, bs);
    var expected := Contents(v)[..index] + bs + Contents(v)[index + |bs|..];
    assert |Contents(r)| == |expected|;
    forall j | 0 <= j < |expected|
      ensures Contents(r)[j] == expected[j]
    {
      if j < index {
      } else if j < index + |bs| {
      } else {
      }
    }
  }
}
