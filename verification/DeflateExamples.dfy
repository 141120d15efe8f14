/** Streams given byte by byte, and what they inflate to. */
module DeflateExamples {
  import opened Bits
  import opened BitExamples
  import opened Huffman
  import opened Inflate
  import opened DeflateWriter
  import opened DeflateBlocks
  import opened DeflateFormat

  // ------------------------------------------------------------ codewords

  lemma MsbNext(v: nat, n: nat)
    requires n > 0
    ensures MsbBits(v, n) == MsbBits(v / 2, n - 1) + [v % 2 == 1]
  {}

  lemma MsbNone(v: nat)
    ensures MsbBits(v, 0) == []
  {}

  lemma MsbFour(v: nat, n: nat)
    requires n >= 4
    ensures MsbBits(v, n)
         == MsbBits(v / 16, n - 4) + [v / 8 % 2 == 1, v / 4 % 2 == 1, v / 2 % 2 == 1, v % 2 == 1]
  {
    hide MsbBits;
    MsbNext(v, n);
    MsbNext(v / 2, n - 1);
    MsbNext(v / 2 / 2, n - 2);
    MsbNext(v / 2 / 2 / 2, n - 3);
    assert v / 2 / 2 == v / 4 && v / 4 / 2 == v / 8 && v / 8 / 2 == v / 16;
  }

  lemma MsbEight(v: nat)
    requires v < 256
    ensures MsbBits(v, 8) == [v / 128 == 1, v / 64 % 2 == 1, v / 32 % 2 == 1, v / 16 % 2 == 1,
                              v / 8 % 2 == 1, v / 4 % 2 == 1, v / 2 % 2 == 1, v % 2 == 1]
  {
    hide MsbBits;
    MsbFour(v, 8);
    MsbFour(v / 16, 4);
    MsbNone(v / 16 / 16);
    assert v / 16 / 8 == v / 128 && v / 16 / 4 == v / 64 && v / 16 / 2 == v / 32;
  }

  function Off(n: nat): (bits: seq<bool>)
    ensures |bits| == n && forall i :: 0 <= i < n ==> !bits[i]
  {
    seq(n, _ => false)
  }

  lemma {:induction false} MsbZero(n: nat)
    ensures MsbBits(0, n) == Off(n)
  {
    if n > 0 {
      MsbZero(n - 1);
      MsbNext(0, n);
    }
  }

  /** The example of section 3.2.2 of RFC 1951: eight symbols of lengths 3, 3, 3, 3, 3, 2, 4 and 4. */
  const EIGHT: seq<nat> := [3, 3, 3, 3, 3, 2, 4, 4]

  lemma EightCounts()
    ensures Total(EIGHT, 0) == 0 && Total(EIGHT, 1) == 0 && Total(EIGHT, 2) == 1 && Total(EIGHT, 3) == 5
  {
    hide Count;
    NoneOfLengthZero(EIGHT, 8);
    forall l | 1 <= l <= 3
      ensures Total(EIGHT, l) == if l == 3 then 5 else if l == 2 then 1 else 0
    {
      CountNone(EIGHT, l);
      CountPart(EIGHT, l, 0, 5, 3);
      CountPart(EIGHT, l, 5, 6, 2);
      CountPart(EIGHT, l, 6, 8, 4);
    }
  }

  lemma EightFirst()
    ensures First(EIGHT, 2) == 0 && First(EIGHT, 3) == 2 && First(EIGHT, 4) == 14
  {
    hide Count, First;
    EightCounts();
    FirstZero(EIGHT, 2);
    FirstNext(EIGHT, 3);
    FirstNext(EIGHT, 4);
  }

  /** Their codes are 010, 011, 100, 101, 110, 00, 1110 and 1111. */
  lemma EightCodes()
    ensures Code(EIGHT, 0) == 2 && Code(EIGHT, 1) == 3 && Code(EIGHT, 2) == 4 && Code(EIGHT, 3) == 5
    ensures Code(EIGHT, 4) == 6 && Code(EIGHT, 5) == 0 && Code(EIGHT, 6) == 14 && Code(EIGHT, 7) == 15
  {
    hide Count, First;
    EightFirst();
    CountNone(EIGHT, 3);
    CountPart(EIGHT, 3, 0, 1, 3);
    CountPart(EIGHT, 3, 0, 2, 3);
    CountPart(EIGHT, 3, 0, 3, 3);
    CountPart(EIGHT, 3, 0, 4, 3);
    CountNone(EIGHT, 2);
    CountPart(EIGHT, 2, 0, 5, 3);
    CountNone(EIGHT, 4);
    CountPart(EIGHT, 4, 0, 5, 3);
    CountPart(EIGHT, 4, 5, 6, 2);
    CountPart(EIGHT, 4, 6, 7, 4);
  }

  // ------------------------------------------------------------ checksums

  lemma {:induction false} AdlerOfZeros(data: seq<byte>)
    requires forall i :: 0 <= i < |data| ==> data[i] == 0
    ensures AdlerA(data) == 1 && AdlerB(data) == |data|
  {
    if data != [] {
      AdlerOfZeros(data[..|data| - 1]);
    }
  }

  lemma {:induction false} AdlerOfLast(data: seq<byte>)
    requires forall i :: 0 <= i < |data| ==> data[i] == 255
    ensures AdlerA(data) == 1 + 255 * |data|
  {
    if data != [] {
      AdlerOfLast(data[..|data| - 1]);
    }
  }

  /** The sums are taken modulo 65521: 257 bytes of 255 add up, with the one at the start, to 65536. */
  lemma AdlerWraps(data: seq<byte>)
    requires |data| == 257 && forall i :: 0 <= i < |data| ==> data[i] == 255
    ensures Adler(data) % 65536 == 15
  {
    AdlerOfLast(data);
    AdlerLow(AdlerB(data) % 65521, 15);
  }

  lemma AdlerLow(high: nat, low: nat)
    requires low < 65536
    ensures (high * 65536 + low) % 65536 == low
  {}

  // ------------------------------------------------------------ a fixed block: 259 zero bytes

  const ZEROS_TOKENS := [Literal(0), Match(28, 0, 0, 0)]
  const ZEROS_STREAM: seq<byte> := [0x78, 0x9c, 0x63, 0x18, 0x05, 0x00, 0x01, 0x03, 0x00, 0x01]

  function Zeros(n: nat): (data: seq<byte>)
    ensures |data| == n && forall i :: 0 <= i < n ==> data[i] == 0
  {
    seq(n, _ => 0)
  }

  lemma FixedWords()
    ensures Codeword(FixedLit(), 0) == [false, false, true, true, false, false, false, false]
    ensures Codeword(FixedLit(), 285) == [true, true, false, false, false, true, false, true]
    ensures Codeword(FixedLit(), 256) == Off(7) && Codeword(FixedDist(), 0) == Off(5)
  {
    hide MsbBits, Code, FixedLit, FixedDist;
    FixedCodes(0);
    FixedCodes(285);
    FixedCodes(256);
    FixedDistances(0);
    MsbEight(0x30);
    MsbEight(0xc5);
    MsbZero(7);
    MsbZero(5);
  }

  lemma CopyOfZeros(n: nat)
    ensures Copy([0], n, 1) == Zeros(n + 1)
  {
    hide Copy;
    var longer := Copy([0], n, 1);
    forall p | 1 <= p < n + 1
      ensures longer[p] == 0
    {
      CopyRepeats([0], n, 1, p - 1);
    }
    if n == 0 {
      CopyNothing([0], 1);
    } else {
      CopyRepeats([0], n, 1, 0);
      assert longer[0] == longer[..1][0];
    }
  }

  lemma CopyNothing(out: seq<byte>, distance: nat)
    requires 1 <= distance <= |out|
    ensures Copy(out, 0, distance) == out
  {}

  lemma ZerosMatch()
    ensures ZEROS_TOKENS[1].WellFormed() && ZEROS_TOKENS[1].Length() == 258 && ZEROS_TOKENS[1].Distance() == 1
  {
    ExtraPowers();
  }

  lemma ZerosTail()
    ensures TokensOk(FixedLit(), FixedDist(), [], Zeros(259))
    ensures TokensOk(FixedLit(), FixedDist(), [ZEROS_TOKENS[1]], [0])
    ensures Expand(FixedLit(), FixedDist(), [ZEROS_TOKENS[1]], [0]) == Zeros(259)
    ensures TokensBits(FixedLit(), FixedDist(), [ZEROS_TOKENS[1]], [0])
         == Codeword(FixedLit(), 285) + (Codeword(FixedDist(), 0)) + Codeword(FixedLit(), 256)
  {
    hide Codeword, Copy, Zeros;
    var t := ZEROS_TOKENS[1];
    var none: seq<Token> := [];
    ZerosMatch();
    CopyOfZeros(258);
    assert [t][1..] == none;
    assert Apply(t, [0]) == Zeros(259);
    assert ToBits(0, 0) == [];
    assert MatchBits(FixedDist(), t) == Codeword(FixedDist(), 0);
  }

  lemma ZerosTokens()
    ensures TokensOk(FixedLit(), FixedDist(), ZEROS_TOKENS, [])
    ensures Expand(FixedLit(), FixedDist(), ZEROS_TOKENS, []) == Zeros(259)
    ensures TokensBits(FixedLit(), FixedDist(), ZEROS_TOKENS, [])
         == Codeword(FixedLit(), 0) + (Codeword(FixedLit(), 285) + Codeword(FixedDist(), 0) + Codeword(FixedLit(), 256))
  {
    hide Codeword, Copy, Zeros;
    ZerosTail();
    assert ZEROS_TOKENS[1..] == [ZEROS_TOKENS[1]];
    assert Apply(ZEROS_TOKENS[0], []) == [0];
  }

  lemma ZerosBlock()
    ensures var blocks := [Fixed(ZEROS_TOKENS)];
      && BlocksOk(blocks, 0, []) && AllWritten(blocks, 0, []) == Zeros(259)
      && BlocksBits(blocks, 0, []) == [true, true, false]
           + [false, false, true, true, false, false, false, false]
           + [true, true, false, false, false, true, false, true] + Off(12)
  {
    hide Codeword, Zeros, TokensOk, Expand, TokensBits, FixedLit, FixedDist;
    ZerosTokens();
    FixedWords();
    assert ToBits(1, 2) == [true, false];
    assert Off(5) + Off(7) == Off(12);
  }

  lemma ZerosBits()
    ensures BitsOf([0x63, 0x18, 0x05, 0x00]) == [true, true, false]
              + [false, false, true, true, false, false, false, false]
              + [true, true, false, false, false, true, false, true] + Off(13)
  {
    hide BitsOf, EightBits;
    NoBytes();
    FourBytes(0x63, 0x18, 0x05, 0x00, []);
    ZerosBytes();
    assert [0x63, 0x18, 0x05, 0x00] + [] == [0x63, 0x18, 0x05, 0x00];
    assert Off(13) == [false, false, false, false, false] + Off(8);
  }

  lemma ZerosBytes()
    ensures EightBits(0x63) == [true, true, false, false, false, true, true, false]
    ensures EightBits(0x18) == [false, false, false, true, true, false, false, false]
    ensures EightBits(0x05) == [true, false, true, false, false, false, false, false]
    ensures EightBits(0x00) == Off(8)
  {}

  /** Literal 0 and the match of code 285 at distance 1 are 259 zero bytes. */
  lemma ZerosInflate(capacity: nat)
    requires capacity >= 259
    ensures Decompressed(ZEROS_STREAM, capacity) == Inflated(Zeros(259))
  {
    hide BitsOf, BlocksOk, BlocksBits, AllWritten, Adler, BigEndian32, Decompressed;
    var blocks := [Fixed(ZEROS_TOKENS)];
    ZerosBlock();
    ZerosBits();
    assert ZEROS_STREAM[2..6] == [0x63, 0x18, 0x05, 0x00] && ZEROS_STREAM[6..] == [0x01, 0x03, 0x00, 0x01];
    ZerosSum();
    var bits := BlocksBits(blocks, 0, []);
    assert Off(13)[..12] == Off(12);
    assert Payload(ZEROS_STREAM).bits[0..31] == bits;
    assert Carries(ZEROS_STREAM, blocks);
    CarriedIsDecompressed(ZEROS_STREAM, capacity, blocks);
  }

  lemma ZerosSum()
    ensures Adler(Zeros(259)) == BigEndian32([0x01, 0x03, 0x00, 0x01])
  {
    AdlerOfZeros(Zeros(259));
  }
}
