/** Powers of two, shifts and masks, little-endian bit strings, and byte buffers read as bit strings. */
module Bits {

  type byte = x: int | 0 <= x < 256

  function ZeroBytes(n: nat): (z: seq<byte>)
    ensures |z| == n && forall i :: 0 <= i < n ==> z[i] == 0
  {
    seq(n, _ => 0)
  }

  function Pow2(n: nat): (p: nat)
    ensures 1 <= p
  {
    if n == 0 then 1 else 2 * Pow2(n - 1)
  }

  lemma DoubleProduct(p: int, q: int)
    ensures (2 * p) * q == 2 * (p * q) == p * (2 * q)
  {}

  lemma {:induction false} Pow2Add(m: nat, n: nat)
    ensures Pow2(m + n) == Pow2(m) * Pow2(n)
  {
    if m > 0 {
      Pow2Add(m - 1, n);
      DoubleProduct(Pow2(m - 1), Pow2(n));
    }
  }

  lemma {:induction false} Pow2Mono(m: nat, n: nat)
    requires m <= n
    ensures Pow2(m) <= Pow2(n)
  {
    if m < n {
      Pow2Mono(m, n - 1);
    }
  }

  /** Multiplying by a non-negative factor keeps order. */
  lemma MulMono(a: int, b: int, c: nat)
    requires a <= b
    ensures a * c <= b * c
  {}

  lemma Distribute(d: int, p: int)
    ensures (d + 1) * p == d * p + p
  {}

  /** The quotient and remainder of `q * d + r`. */
  lemma DivModUnique(q: int, d: nat, r: nat)
    requires r < d
    ensures (q * d + r) / d == q
    ensures (q * d + r) % d == r
  {
    var x := q * d + r;
    assert x == (x / d) * d + x % d;
    if x / d < q {
      MulMono(x / d + 1, q, d);
    } else if x / d > q {
      MulMono(q + 1, x / d, d);
    }
  }

  // ------------------------------------------------------------ shifts and masks

  /** `v >> n` */
  function Shr(v: nat, n: nat): (r: nat) {
    if n == 0 then v else Shr(v / 2, n - 1)
  }

  /** `v & ((1 << n) - 1)` */
  function Low(v: nat, n: nat): (r: nat) {
    if n == 0 then 0 else v % 2 + 2 * Low(v / 2, n - 1)
  }

  /** Shift and mask split a number. */
  lemma {:induction false} ShrLow(v: nat, n: nat)
    ensures v == Shr(v, n) * Pow2(n) + Low(v, n)
    ensures Low(v, n) < Pow2(n)
  {
    if n > 0 {
      ShrLow(v / 2, n - 1);
      DoubleProduct(Shr(v / 2, n - 1), Pow2(n - 1));
    }
  }

  lemma LowSmall(v: nat, n: nat)
    requires v < Pow2(n)
    ensures Low(v, n) == v
    ensures Shr(v, n) == 0
  {}

  /** The split is unique. */
  lemma ShrLowUnique(v: nat, n: nat, q: nat, r: nat)
    requires v == q * Pow2(n) + r && r < Pow2(n)
    ensures Shr(v, n) == q && Low(v, n) == r
  {
    ShrLow(v, n);
    DivModUnique(q, Pow2(n), r);
    DivModUnique(Shr(v, n), Pow2(n), Low(v, n));
  }

  lemma {:induction false} ShrShr(v: nat, m: nat, n: nat)
    ensures Shr(Shr(v, m), n) == Shr(v, m + n)
  {
    if m > 0 {
      ShrShr(v / 2, m - 1, n);
    }
  }

  // ------------------------------------------------------------ highest set bit

  /** The index of the highest set bit of a positive value; 0 for 0. */
  function HighBit(value: nat): (bit: nat) {
    if value <= 1 then 0 else 1 + HighBit(value / 2)
  }

  lemma {:induction false} HighBitBounds(value: nat)
    requires value >= 1
    ensures Pow2(HighBit(value)) <= value < Pow2(HighBit(value) + 1)
  {
    if value > 1 {
      HighBitBounds(value / 2);
    }
  }

  // ------------------------------------------------------------ bit strings

  function Digit(b: bool): (d: nat) {
    if b then 1 else 0
  }

  /** The number written by a bit string, least significant bit first. */
  function Value(bits: seq<bool>): (v: nat) {
    if bits == [] then 0 else Digit(bits[0]) + 2 * Value(bits[1..])
  }

  /** The `n` low bits of `v`, least significant first. */
  function ToBits(v: nat, n: nat): (bits: seq<bool>)
    ensures |bits| == n
  {
    if n == 0 then [] else [v % 2 == 1] + ToBits(v / 2, n - 1)
  }

  lemma {:induction false} ValueBound(bits: seq<bool>)
    ensures Value(bits) < Pow2(|bits|)
  {
    if bits != [] {
      ValueBound(bits[1..]);
    }
  }

  /** Writing `n` bits and reading them back masks to `n` bits. */
  lemma {:induction false} ValueToBits(v: nat, n: nat)
    ensures Value(ToBits(v, n)) == Low(v, n)
  {
    if n > 0 {
      ValueToBits(v / 2, n - 1);
    }
  }

  /** A bit string is the writing of its own value. */
  lemma {:induction false} ToBitsValue(bits: seq<bool>)
    ensures ToBits(Value(bits), |bits|) == bits
  {
    if bits != [] {
      ToBitsValue(bits[1..]);
      assert bits == [bits[0]] + bits[1..];
    }
  }

  /** `Value` is injective at each length. */
  lemma ValueInjective(a: seq<bool>, b: seq<bool>)
    requires |a| == |b|
    requires Value(a) == Value(b)
    ensures a == b
  {}

  lemma {:induction false} ValueAppend(a: seq<bool>, b: seq<bool>)
    ensures Value(a + b) == Value(a) + Pow2(|a|) * Value(b)
  {
    if a == [] {
      assert a + b == b;
    } else {
      ValueAppend(a[1..], b);
      assert (a + b)[1..] == a[1..] + b;
      DoubleProduct(Pow2(|a| - 1), Value(b));
    }
  }

  /** Bit `i` of `v` is bit `i` of its writing. */
  lemma {:induction false} ToBitsIndex(v: nat, n: nat, i: nat)
    requires i < n
    ensures ToBits(v, n)[i] == (Shr(v, i) % 2 == 1)
  {
    if i > 0 {
      ToBitsIndex(v / 2, n - 1, i - 1);
    }
  }

  // ------------------------------------------------------------ byte buffers

  /** Bit `i` of a byte buffer, low bit of each byte first. */
  function BitAt(data: seq<byte>, i: nat): (b: bool)
    requires i < 8 * |data|
  {
    Shr(data[i / 8], i % 8) % 2 == 1
  }

  /** A byte buffer as one bit string. */
  function BitsOf(data: seq<byte>): (bits: seq<bool>)
    ensures |bits| == 8 * |data|
    ensures forall i :: 0 <= i < |bits| ==> bits[i] == BitAt(data, i)
  {
    seq(8 * |data|, i requires 0 <= i < 8 * |data| => BitAt(data, i))
  }

  /** Packs a whole number of bytes. */
  function Pack(bits: seq<bool>): (data: seq<byte>)
    requires |bits| % 8 == 0
    ensures |data| * 8 == |bits|
  {
    if bits == [] then []
    else
      ValueBound(bits[..8]);
      assert Pow2(8) == 256;
      [Value(bits[..8])] + Pack(bits[8..])
  }

  lemma {:induction false} BitsOfPack(bits: seq<bool>)
    requires |bits| % 8 == 0
    ensures BitsOf(Pack(bits)) == bits
  {
    if bits != [] {
      var data := Pack(bits);
      BitsOfPack(bits[8..]);
      forall i | 0 <= i < |bits|
        ensures BitAt(data, i) == bits[i]
      {
        if i < 8 {
          ToBitsValue(bits[..8]);
          ToBitsIndex(Value(bits[..8]), 8, i);
        } else {
          assert data[i / 8] == Pack(bits[8..])[(i - 8) / 8];
          assert BitAt(data, i) == BitsOf(Pack(bits[8..]))[i - 8];
        }
      }
    }
  }

  /** A byte shifted right and masked to `count` bits holds `count` consecutive bits of the buffer. */
  lemma ByteField(data: seq<byte>, start: nat, count: nat)
    requires start < 8 * |data| && start % 8 + count <= 8
    ensures start + count <= 8 * |data|
    ensures Low(Shr(data[start / 8], start % 8), count) == Value(BitsOf(data)[start..start + count])
  {
    var v := Shr(data[start / 8], start % 8);
    var written := ToBits(v, count);
    forall i | 0 <= i < count
      ensures BitsOf(data)[start + i] == written[i]
    {
      ToBitsIndex(v, count, i);
      ShrShr(data[start / 8], start % 8, i);
      assert (start + i) / 8 == start / 8 && (start + i) % 8 == start % 8 + i;
    }
    assert BitsOf(data)[start..start + count] == written;
    ValueToBits(v, count);
  }

  /** The number of bits in a buffer as the readers compute it, in 32 bits. */
  function Limit(source: seq<byte>): (n: nat)
    ensures n <= 8 * |source|
  {
    8 * |source| % 0x1_0000_0000
  }

  lemma LimitWholeBytes(source: seq<byte>)
    ensures Limit(source) % 8 == 0 && Limit(source) <= 0xffff_fff8
  {}

  // ------------------------------------------------------------ bit strings standing in a stream

  /** `written` stands in `bits` at `offset`. */
  predicate Stands(bits: seq<bool>, offset: nat, written: seq<bool>) {
    offset + |written| <= |bits| && bits[offset..offset + |written|] == written
  }

  lemma StandsParts(bits: seq<bool>, offset: nat, a: seq<bool>, b: seq<bool>)
    requires Stands(bits, offset, a + b)
    ensures Stands(bits, offset, a) && Stands(bits, offset + |a|, b)
  {
    var s := bits[offset..offset + |a + b|];
    assert s[..|a|] == bits[offset..offset + |a|];
    assert s[|a|..] == bits[offset + |a|..offset + |a| + |b|];
  }

  /** A number written in `n` bits is read back. */
  lemma ReadStanding(bits: seq<bool>, offset: nat, v: nat, n: nat)
    requires v < Pow2(n) && Stands(bits, offset, ToBits(v, n))
    ensures Value(bits[offset..offset + n]) == v
  {
    ValueToBits(v, n);
    LowSmall(v, n);
  }
}
