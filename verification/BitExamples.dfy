/** Bit strings of given bytes, one byte or one bit at a time. */
module BitExamples {
  import opened Bits

  /** The bits of a byte, low bit first. */
  function EightBits(v: byte): (bits: seq<bool>)
    ensures |bits| == 8
  {
    [v % 2 == 1, v / 2 % 2 == 1, v / 4 % 2 == 1, v / 8 % 2 == 1,
     v / 16 % 2 == 1, v / 32 % 2 == 1, v / 64 % 2 == 1, v / 128 % 2 == 1]
  }

  lemma ShiftsLow(v: nat)
    ensures Shr(v, 0) == v && Shr(v, 1) == v / 2 && Shr(v, 2) == v / 4 && Shr(v, 3) == v / 8
  {
    assert Shr(v, 2) == Shr(v / 2, 1) == v / 2 / 2;
    assert Shr(v, 3) == Shr(v / 2, 2) == Shr(v / 2 / 2, 1) == v / 2 / 2 / 2;
  }

  lemma ShiftsHigh(v: nat)
    ensures Shr(v, 4) == v / 16 && Shr(v, 5) == v / 32 && Shr(v, 6) == v / 64 && Shr(v, 7) == v / 128
  {
    ShiftsLow(v / 16);
    ShrFour(v, 0);
    ShrFour(v, 1);
    ShrFour(v, 2);
    ShrFour(v, 3);
  }

  lemma ShrFour(v: nat, n: nat)
    ensures Shr(v, n + 4) == Shr(v / 16, n)
  {
    assert Shr(v, n + 4) == Shr(v / 2, n + 3) == Shr(v / 2 / 2, n + 2);
    assert Shr(v / 2 / 2, n + 2) == Shr(v / 2 / 2 / 2, n + 1) == Shr(v / 2 / 2 / 2 / 2, n);
    assert v / 2 / 2 == v / 4 && v / 4 / 2 == v / 8 && v / 8 / 2 == v / 16;
  }

  lemma ByteBit(data: seq<byte>, i: nat)
    requires data != [] && i < 8
    ensures BitAt(data, i) == EightBits(data[0])[i]
  {
    hide Shr;
    ShiftsLow(data[0]);
    ShiftsHigh(data[0]);
  }

  lemma LaterBit(v: byte, rest: seq<byte>, i: nat)
    requires i < 8 * |rest|
    ensures BitAt([v] + rest, 8 + i) == BitAt(rest, i)
  {
    hide Shr;
    assert (8 + i) / 8 == 1 + i / 8 && (8 + i) % 8 == i % 8;
    assert ([v] + rest)[1 + i / 8] == rest[i / 8];
  }

  /** The bits of a buffer are those of its first byte and then the others. */
  lemma NextByte(v: byte, rest: seq<byte>)
    ensures BitsOf([v] + rest) == EightBits(v) + BitsOf(rest)
  {
    hide BitAt, EightBits;
    var a, b := BitsOf([v] + rest), EightBits(v) + BitsOf(rest);
    forall i | 0 <= i < |a|
      ensures a[i] == b[i]
    {
      if i < 8 {
        ByteBit([v] + rest, i);
      } else {
        LaterBit(v, rest, i - 8);
      }
    }
  }

  lemma NoBytes()
    ensures BitsOf([]) == []
  {}

  lemma TwoBytes(a: byte, b: byte)
    ensures BitsOf([a, b]) == EightBits(a) + EightBits(b)
  {
    hide BitsOf, EightBits;
    NoBytes();
    NextByte(b, []);
    NextByte(a, [b]);
    assert [b] + [] == [b] && [a] + [b] == [a, b];
  }

  lemma FourBytes(a: byte, b: byte, c: byte, d: byte, rest: seq<byte>)
    ensures BitsOf([a, b, c, d] + rest) == (EightBits(a) + EightBits(b)) + (EightBits(c) + EightBits(d)) + BitsOf(rest)
  {
    hide BitsOf, EightBits;
    NextByte(d, rest);
    NextByte(c, [d] + rest);
    NextByte(b, [c, d] + rest);
    NextByte(a, [b, c, d] + rest);
    assert [c] + ([d] + rest) == [c, d] + rest && [b] + ([c, d] + rest) == [b, c, d] + rest;
    assert [a] + ([b, c, d] + rest) == [a, b, c, d] + rest;
  }

  lemma NextValue(b: bool, rest: seq<bool>)
    ensures Value([b] + rest) == Digit(b) + 2 * Value(rest)
  {
    assert ([b] + rest)[1..] == rest;
  }

  lemma NoValue()
    ensures Value([]) == 0
  {}

  /** The number in five bits, and in the first four of them. */
  lemma SmallValue(a: bool, b: bool, c: bool, d: bool, e: bool)
    ensures Value([a, b, c, d, e]) == Digit(a) + 2 * Digit(b) + 4 * Digit(c) + 8 * Digit(d) + 16 * Digit(e)
    ensures Value([a, b, c, d]) == Digit(a) + 2 * Digit(b) + 4 * Digit(c) + 8 * Digit(d)
  {
    hide Value, Digit;
    NoValue();
    NextValue(e, []);
    NextValue(d, []);
    NextValue(d, [e]);
    NextValue(c, [d]);
    NextValue(c, [d, e]);
    NextValue(b, [c, d]);
    NextValue(b, [c, d, e]);
    NextValue(a, [b, c, d]);
    NextValue(a, [b, c, d, e]);
    assert [e] + [] == [e] && [d] + [] == [d] && [d] + [e] == [d, e] && [c] + [d] == [c, d];
    assert [c] + [d, e] == [c, d, e] && [b] + [c, d] == [b, c, d] && [b] + [c, d, e] == [b, c, d, e];
    assert [a] + [b, c, d] == [a, b, c, d] && [a] + [b, c, d, e] == [a, b, c, d, e];
  }
}
