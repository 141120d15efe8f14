/** A writer of probability headers, and the proof that the reader inverts it. */
module FseHeaderCodec {
  import opened Bits
  import opened FseBuild
  import opened FseHeader

  // ------------------------------------------------------------ writing

  function FieldBits(remaining: nat, p: int): (bits: seq<bool>)
    requires p >= -1
  {
    var v, w, t := p + 1, Width(remaining), Threshold(remaining);
    if v < t then ToBits(v, w - 1)
    else if v < Pow2(w - 1) then ToBits(v, w)
    else if t < 0 then []
    else ToBits(v + t, w)
  }

  function RunBits(zeros: nat): (bits: seq<bool>) {
    if zeros >= 3 then ToBits(3, 2) + RunBits(zeros - 3) else ToBits(zeros, 2)
  }

  /** Zero probabilities from index `i` on. */
  function RunLength(norm: seq<int>, i: nat): (n: nat)
    requires i <= |norm|
    ensures i + n <= |norm|
    ensures forall k :: i <= k < i + n ==> norm[k] == 0
    decreases |norm| - i
  {
    if i < |norm| && norm[i] == 0 then 1 + RunLength(norm, i + 1) else 0
  }

  predicate Probabilities(norm: seq<int>) {
    forall k :: 0 <= k < |norm| ==> norm[k] >= -1
  }

  /** Probabilities covered by the field of index `i`: a zero probability carries the zeros after it. */
  function Taken(norm: seq<int>, i: nat): (n: nat)
    requires i < |norm|
    ensures 1 <= n && i + n <= |norm|
  {
    if norm[i] == 0 then 1 + RunLength(norm, i + 1) else 1
  }

  function After(remaining: nat, p: int): (r: nat) {
    if Magnitude(p) <= remaining then remaining - Magnitude(p) else 0
  }

  function GroupBits(norm: seq<int>, i: nat, remaining: nat): (bits: seq<bool>)
    requires i < |norm| && norm[i] >= -1
  {
    FieldBits(remaining, norm[i]) + (if norm[i] == 0 then RunBits(RunLength(norm, i + 1)) else [])
  }

  /** The fields from index `i` on, with `remaining` cells unassigned. */
  function WriteFrom(norm: seq<int>, i: nat, remaining: nat): (bits: seq<bool>)
    requires i <= |norm| && Probabilities(norm)
    decreases |norm| - i
  {
    if i == |norm| then []
    else GroupBits(norm, i, remaining) + WriteFrom(norm, i + Taken(norm, i), After(remaining, norm[i]))
  }

  /** Probabilities a header can carry: complete, fewer than 256, and without trailing zeros. */
  predicate Writable(norm: seq<int>, log: nat) {
    && 5 <= log <= 10 && Complete(norm, log)
    && 0 < |norm| < 256
    && norm[|norm| - 1] != 0
  }

  function HeaderBits(norm: seq<int>, log: nat): (bits: seq<bool>)
    requires Writable(norm, log)
  {
    ToBits(log - 5, 4) + WriteFrom(norm, 0, Pow2(log))
  }

  // ------------------------------------------------------------ one field

  lemma ShortReadsBack(bits: seq<bool>, offset: nat, v: nat, n: nat)
    requires v < Pow2(n) && Stands(bits, offset, ToBits(v, n)) && offset + n + 1 <= |bits|
    ensures Low(Value(bits[offset..offset + n + 1]), n) == v
  {
    ReadStanding(bits, offset, v, n);
    var next := [bits[offset + n]];
    assert bits[offset..offset + n + 1] == bits[offset..offset + n] + next;
    ValueAppend(bits[offset..offset + n], next);
    ShrLowUnique(Value(bits[offset..offset + n + 1]), n, Value(next), v);
  }

  lemma TopBitReadsBack(raw: nat, n: nat)
    requires Pow2(n) <= raw < 2 * Pow2(n)
    ensures Low(raw, n) == raw - Pow2(n)
  {}

  /** A field is read back whatever bit follows its short form. */
  lemma FieldReadsBack(bits: seq<bool>, offset: nat, remaining: nat, p: int)
    requires -1 <= p <= remaining
    requires Stands(bits, offset, FieldBits(remaining, p)) && offset + Width(remaining) <= |bits|
    ensures FieldAt(bits, offset, remaining) == (p + 1, |FieldBits(remaining, p)|)
  {
    hide Stands, Value, ToBits;
    var v, w, t := p + 1, Width(remaining), Threshold(remaining);
    WidthBounds(remaining);
    if v < t {
      ShortReadsBack(bits, offset, v, w - 1);
    } else if v < Pow2(w - 1) {
      ReadStanding(bits, offset, v, w);
      LowSmall(v, w - 1);
    } else {
      ReadStanding(bits, offset, v + t, w);
      TopBitReadsBack(v + t, w - 1);
    }
  }

  // ------------------------------------------------------------ runs of zeros

  lemma ZerosAdd(norm: seq<int>, m: nat, n: nat)
    ensures norm + ZeroProbabilities(m) + ZeroProbabilities(n) == norm + ZeroProbabilities(m + n)
  {}

  lemma {:induction false} RunReadsBack(bits: seq<bool>, limit: nat, offset: nat, norm: seq<int>, remaining: nat,
                                        zeros: nat)
    requires limit <= |bits| && |norm| + zeros <= 256
    requires Stands(bits, offset, RunBits(zeros)) && offset + |RunBits(zeros)| <= limit
    ensures ParseRun(bits, limit, offset, norm, remaining)
         == Parsed(norm + ZeroProbabilities(zeros), offset + |RunBits(zeros)|, remaining)
    decreases zeros
  {
    assert Pow2(2) == 4;
    if zeros >= 3 {
      StandsParts(bits, offset, ToBits(3, 2), RunBits(zeros - 3));
      ReadStanding(bits, offset, 3, 2);
      RunReadsBack(bits, limit, offset + 2, norm + ZeroProbabilities(3), remaining, zeros - 3);
      ZerosAdd(norm, 3, zeros - 3);
    } else {
      ReadStanding(bits, offset, zeros, 2);
    }
  }

  // ------------------------------------------------------------ the whole header

  lemma {:induction false} SumMono(norm: seq<int>, m: nat, n: nat)
    requires m <= n <= |norm|
    ensures MagnitudeSum(norm, m) <= MagnitudeSum(norm, n)
  {
    if m < n {
      SumMono(norm, m, n - 1);
    }
  }

  lemma {:induction false} SumZeros(norm: seq<int>, i: nat, n: nat)
    requires i + n <= |norm| && forall k :: i <= k < i + n ==> norm[k] == 0
    ensures MagnitudeSum(norm, i + n) == MagnitudeSum(norm, i)
  {
    if n > 0 {
      SumZeros(norm, i, n - 1);
    }
  }

  /** Cells not yet assigned before index `i`. */
  predicate Left(norm: seq<int>, log: nat, i: nat, remaining: nat) {
    Writable(norm, log) && i <= |norm| && remaining == Pow2(log) - MagnitudeSum(norm, i)
  }

  lemma LeftPositive(norm: seq<int>, log: nat, i: nat, remaining: nat)
    requires Left(norm, log, i, remaining) && i < |norm|
    ensures Magnitude(norm[i]) <= remaining && 0 < remaining
    ensures i == |norm| - 1 ==> Magnitude(norm[i]) == remaining
    ensures Left(norm, log, i + 1, remaining - Magnitude(norm[i]))
  {
    SumMono(norm, i + 1, |norm|);
    SumMono(norm, i, |norm| - 1);
  }

  /** The reader may look one bit past a header that ends in probability -1. */
  function Spare(norm: seq<int>): (n: nat) {
    if norm != [] && norm[|norm| - 1] == -1 then 1 else 0
  }

  lemma FieldLength(remaining: nat, p: int)
    requires -1 <= p <= remaining && 0 < remaining
    ensures Width(remaining) - 1 <= |FieldBits(remaining, p)| <= Width(remaining)
    ensures p == remaining ==> |FieldBits(remaining, p)| == Width(remaining)
    ensures 1 <= |FieldBits(remaining, p)|
  {
    WidthBounds(remaining);
    assert Pow2(1) == 2;
  }

  /** Looking at the long form of a field never passes the end of what follows. */
  lemma LongFormFits(norm: seq<int>, log: nat, i: nat, remaining: nat)
    requires Left(norm, log, i, remaining) && i < |norm|
    ensures Width(remaining) <= |WriteFrom(norm, i, remaining)| + Spare(norm)
  {
    LeftPositive(norm, log, i, remaining);
    FieldLength(remaining, norm[i]);
    if norm[i] == 0 {
      assert |RunBits(RunLength(norm, i + 1))| >= 1;
    } else if i + 1 < |norm| {
      var rest := After(remaining, norm[i]);
      LeftPositive(norm, log, i + 1, rest);
      FieldLength(rest, norm[i + 1]);
      assert |WriteFrom(norm, i + 1, rest)| >= 1;
    }
  }

  /** Reading one written field, with its run of zeros. */
  lemma OneReadsBack(bits: seq<bool>, limit: nat, offset: nat, norm: seq<int>, i: nat, remaining: nat)
    requires i < |norm| <= 256 && limit <= |bits| && 0 < remaining
    requires -1 <= norm[i] && Magnitude(norm[i]) <= remaining
    requires Stands(bits, offset, GroupBits(norm, i, remaining))
    requires offset + |GroupBits(norm, i, remaining)| <= limit && offset + Width(remaining) <= limit
    ensures ParseOne(bits, limit, offset, norm[..i], remaining)
         == Parsed(norm[..i + Taken(norm, i)], offset + |GroupBits(norm, i, remaining)|, After(remaining, norm[i]))
  {
    hide FieldAt, FieldBits, Width, RunBits, RunLength, ParseRun, Stands;
    var field := FieldBits(remaining, norm[i]);
    if norm[i] == 0 {
      var zeros := RunLength(norm, i + 1);
      StandsParts(bits, offset, field, RunBits(zeros));
      FieldReadsBack(bits, offset, remaining, 0);
      RunReadsBack(bits, limit, offset + |field|, norm[..i] + [0], remaining, zeros);
      assert norm[..i] + [0] + ZeroProbabilities(zeros) == norm[..i + 1 + zeros];
    } else {
      StandsParts(bits, offset, field, []);
      FieldReadsBack(bits, offset, remaining, norm[i]);
      assert norm[..i] + [norm[i]] == norm[..i + 1];
    }
  }

  lemma LeftAfter(norm: seq<int>, log: nat, i: nat, remaining: nat)
    requires Left(norm, log, i, remaining) && i < |norm|
    ensures Left(norm, log, i + Taken(norm, i), After(remaining, norm[i]))
  {
    LeftPositive(norm, log, i, remaining);
    if norm[i] == 0 { SumZeros(norm, i + 1, RunLength(norm, i + 1)); }
  }

  lemma {:induction false} AllReadsBack(bits: seq<bool>, limit: nat, offset: nat, norm: seq<int>, log: nat, i: nat,
                                        remaining: nat)
    requires Left(norm, log, i, remaining) && limit <= |bits|
    requires Stands(bits, offset, WriteFrom(norm, i, remaining))
    requires offset + |WriteFrom(norm, i, remaining)| + Spare(norm) <= limit
    ensures ParseAll(bits, limit, offset, norm[..i], remaining)
         == Parsed(norm, offset + |WriteFrom(norm, i, remaining)|, 0)
    decreases |norm| - i
  {
    hide GroupBits, Width, ParseOne, Spare, Taken, Stands;
    if i == |norm| {
      assert norm[..i] == norm;
    } else {
      var group, next, rest := GroupBits(norm, i, remaining), i + Taken(norm, i), After(remaining, norm[i]);
      LeftPositive(norm, log, i, remaining);
      LongFormFits(norm, log, i, remaining);
      StandsParts(bits, offset, group, WriteFrom(norm, next, rest));
      OneReadsBack(bits, limit, offset, norm, i, remaining);
      LeftAfter(norm, log, i, remaining);
      AllReadsBack(bits, limit, offset + |group|, norm, log, next, rest);
    }
  }

  /**
   * Round trip: a stream that starts with the header of some probabilities, and holds one more bit
   * when the last of them is -1, is read back as exactly those probabilities.
   */
  lemma HeaderRoundTrip(stream: seq<byte>, maxLog: nat, norm: seq<int>, log: nat)
    requires Writable(norm, log) && log <= maxLog <= 10
    requires Stands(BitsOf(stream), 0, HeaderBits(norm, log))
    requires |HeaderBits(norm, log)| + Spare(norm) <= Limit(stream)
    ensures ParseHeader(stream, maxLog) == Header(norm, log, |HeaderBits(norm, log)|)
  {
    hide ParseHeader, ParseAll, WriteFrom, Value, Limit, BitsOf, Stands, ToBits, Pow2, Left, Spare;
    var bits, fields := BitsOf(stream), WriteFrom(norm, 0, Pow2(log));
    StandsParts(bits, 0, ToBits(log - 5, 4), fields);
    LogReadsBack(bits, log);
    LeftAtStart(norm, log);
    AllReadsBack(bits, Limit(stream), 4, norm, log, 0, Pow2(log));
    HeaderParses(stream, maxLog, norm, log, 4 + |fields|);
  }

  lemma LogReadsBack(bits: seq<bool>, log: nat)
    requires 5 <= log <= 10 && Stands(bits, 0, ToBits(log - 5, 4))
    ensures 5 + Value(bits[..4]) == log
  {
    assert Pow2(4) == 16;
    ReadStanding(bits, 0, log - 5, 4);
    assert bits[0..4] == bits[..4];
  }

  lemma LeftAtStart(norm: seq<int>, log: nat)
    requires Writable(norm, log)
    ensures Left(norm, log, 0, Pow2(log)) && norm[..0] == []
  {}

  lemma HeaderParses(stream: seq<byte>, maxLog: nat, norm: seq<int>, log: nat, end: nat)
    requires log <= maxLog <= 10 && 4 <= Limit(stream) && 0 < |norm| < 256
    requires 5 + Value(BitsOf(stream)[..4]) == log
    requires ParseAll(BitsOf(stream), Limit(stream), 4, [], Pow2(log)) == Parsed(norm, end, 0)
    ensures ParseHeader(stream, maxLog) == Header(norm, log, end)
  {}

  // ------------------------------------------------------------ the spare bit is needed

  /** A reader never passes the end of its input. */
  lemma {:induction false} ParseRunInside(bits: seq<bool>, limit: nat, offset: nat, norm: seq<int>, remaining: nat)
    requires limit <= |bits| && |norm| <= 256
    ensures var p := ParseRun(bits, limit, offset, norm, remaining); p.Parsed? ==> p.offset <= limit
    decreases 256 - |norm|
  {
    if offset + 2 <= limit && Value(bits[offset..offset + 2]) == 3 && 3 <= 256 - |norm| {
      ParseRunInside(bits, limit, offset + 2, norm + ZeroProbabilities(3), remaining);
    }
  }

  lemma {:induction false} ParseAllInside(bits: seq<bool>, limit: nat, offset: nat, norm: seq<int>, remaining: nat)
    requires limit <= |bits| && |norm| <= 256 && offset <= limit
    ensures var p := ParseAll(bits, limit, offset, norm, remaining); p.Parsed? ==> p.offset <= limit
    decreases 256 - |norm|
  {
    hide FieldAt, Width, ParseRun;
    if remaining != 0 && |norm| != 256 && ParseOne(bits, limit, offset, norm, remaining).Parsed? {
      var one := ParseOne(bits, limit, offset, norm, remaining);
      var (v, used) := FieldAt(bits, offset, remaining);
      ParseRunInside(bits, limit, offset + used, norm + [v - 1], remaining);
      ParseAllInside(bits, limit, one.offset, one.norm, one.remaining);
    }
  }

  /** The last probability -1 takes one bit, and the reader looks at two. */
  lemma LastTooShort(norm: seq<int>, log: nat, remaining: nat)
    requires norm != [] && Left(norm, log, |norm| - 1, remaining) && norm[|norm| - 1] == -1
    ensures remaining == 1 && Width(1) == 2 && |WriteFrom(norm, |norm| - 1, 1)| == 1
  {
    LeftPositive(norm, log, |norm| - 1, remaining);
    WidthBounds(1);
    assert Pow2(1) == 2 && Pow2(2) == 4;
    assert HighBit(2) == 1;
    assert WriteFrom(norm, |norm|, 0) == [];
  }

  /** Fields that end in probability -1 right at the end of the input are refused. */
  lemma {:induction false} AllRefused(bits: seq<bool>, offset: nat, norm: seq<int>, log: nat, i: nat, remaining: nat)
    requires Left(norm, log, i, remaining) && i < |norm| && norm[|norm| - 1] == -1
    requires Stands(bits, offset, WriteFrom(norm, i, remaining))
    requires offset + |WriteFrom(norm, i, remaining)| <= |bits|
    ensures ParseAll(bits, offset + |WriteFrom(norm, i, remaining)|, offset, norm[..i], remaining) == Malformed
    decreases |norm| - i
  {
    hide GroupBits, Width, ParseOne, Taken, Stands;
    var group, next, rest := GroupBits(norm, i, remaining), i + Taken(norm, i), After(remaining, norm[i]);
    var limit := offset + |WriteFrom(norm, i, remaining)|;
    LeftPositive(norm, log, i, remaining);
    LeftAfter(norm, log, i, remaining);
    StandsParts(bits, offset, group, WriteFrom(norm, next, rest));
    if offset + Width(remaining) > limit {
      OneTooShort(bits, limit, offset, norm[..i], remaining);
    } else {
      OneReadsBack(bits, limit, offset, norm, i, remaining);
      if next == |norm| {
        TakenLast(norm, i);
        LastTooShort(norm, log, remaining);
        assert false;
      }
      AllRefused(bits, offset + |group|, norm, log, next, rest);
    }
  }

  lemma OneTooShort(bits: seq<bool>, limit: nat, offset: nat, norm: seq<int>, remaining: nat)
    requires limit <= |bits| && |norm| < 256 && remaining > 0 && offset + Width(remaining) > limit
    ensures ParseAll(bits, limit, offset, norm, remaining) == Malformed
  {}

  lemma TakenLast(norm: seq<int>, i: nat)
    requires i < |norm| && norm[|norm| - 1] == -1 && i + Taken(norm, i) == |norm|
    ensures i == |norm| - 1
  {}

  /** A header that ends in probability -1 and fills its stream to the last bit is refused. */
  lemma FullHeaderRefused(stream: seq<byte>, maxLog: nat, norm: seq<int>, log: nat)
    requires Writable(norm, log) && log <= maxLog <= 10 && Spare(norm) == 1
    requires Stands(BitsOf(stream), 0, HeaderBits(norm, log)) && |HeaderBits(norm, log)| == Limit(stream)
    ensures ParseHeader(stream, maxLog) == NoHeader
  {
    hide ParseAll, WriteFrom, Value, Limit, BitsOf, Stands, ToBits, Pow2, Left;
    var bits, fields := BitsOf(stream), WriteFrom(norm, 0, Pow2(log));
    StandsParts(bits, 0, ToBits(log - 5, 4), fields);
    LogReadsBack(bits, log);
    LeftAtStart(norm, log);
    AllRefused(bits, 4, norm, log, 0, Pow2(log));
  }

  /** A written header is read back exactly when the bit that a last -1 needs is there. */
  lemma HeaderReadIff(stream: seq<byte>, maxLog: nat, norm: seq<int>, log: nat)
    requires Writable(norm, log) && log <= maxLog <= 10
    requires Stands(BitsOf(stream), 0, HeaderBits(norm, log))
    ensures ParseHeader(stream, maxLog) == Header(norm, log, |HeaderBits(norm, log)|)
      <==> |HeaderBits(norm, log)| + Spare(norm) <= Limit(stream)
  {
    hide ParseAll, HeaderBits, Value, BitsOf, Stands, Pow2, Writable;
    if |HeaderBits(norm, log)| + Spare(norm) <= Limit(stream) {
      HeaderRoundTrip(stream, maxLog, norm, log);
    } else if Limit(stream) >= 4 {
      if |HeaderBits(norm, log)| == Limit(stream) {
        FullHeaderRefused(stream, maxLog, norm, log);
      }
      ParseAllInside(BitsOf(stream), Limit(stream), 4, [], Pow2(5 + Value(BitsOf(stream)[..4])));
    }
  }

  // ------------------------------------------------------------ a header that fills two bytes

  const SMALL: seq<int> := [1, 30, -1]

  lemma SmallWritable()
    ensures Writable(SMALL, 5) && Spare(SMALL) == 1
  {
    assert Pow2(5) == 32;
    assert MagnitudeSum(SMALL, 3) == 32;
  }

  lemma SmallFields()
    ensures FieldBits(32, 1) == [false, true, false, false, false]
    ensures FieldBits(31, 30) == [true, true, true, true, true, false]
    ensures FieldBits(1, -1) == [false]
  {
    assert HighBit(33) == 5 && HighBit(32) == 5 && HighBit(2) == 1;
    assert Pow2(1) == 2 && Pow2(2) == 4 && Pow2(5) == 32 && Pow2(6) == 64;
    assert ToBits(2, 5) == [false, true, false, false, false];
    assert ToBits(31, 6) == [true, true, true, true, true, false];
    assert ToBits(0, 1) == [false];
  }

  const FIRST: seq<bool> := [false, false, false, false, false, true, false, false]
  const SECOND: seq<bool> := [false, true, true, true, true, true, false, false]
  const THIRD: seq<bool> := [false, false, false, false, false, false, false, false]

  lemma SmallTail()
    ensures WriteFrom(SMALL, 1, 31) == FieldBits(31, 30) + FieldBits(1, -1)
  {
    hide FieldBits;
    assert WriteFrom(SMALL, 3, 0) == [];
    assert WriteFrom(SMALL, 2, 1) == FieldBits(1, -1);
  }

  lemma SmallParts()
    requires Writable(SMALL, 5)
    ensures HeaderBits(SMALL, 5) == ToBits(0, 4) + (FieldBits(32, 1) + (FieldBits(31, 30) + FieldBits(1, -1)))
  {
    hide FieldBits, ToBits, Writable;
    SmallTail();
    assert Pow2(5) == 32;
    assert WriteFrom(SMALL, 0, 32) == FieldBits(32, 1) + WriteFrom(SMALL, 1, 31);
  }

  lemma SmallBits()
    requires Writable(SMALL, 5)
    ensures HeaderBits(SMALL, 5) == FIRST + SECOND
  {
    hide FieldBits, HeaderBits, Writable;
    SmallFields();
    SmallParts();
    assert ToBits(0, 4) == [false, false, false, false];
  }

  lemma NextDigit(v: nat, n: nat)
    requires n > 0
    ensures ToBits(v, n) == [v % 2 == 1] + ToBits(v / 2, n - 1)
  {}

  lemma FirstDigits()
    ensures ToBits(32, 8) == FIRST
  {
    hide ToBits;
    NextDigit(32, 8);
    NextDigit(16, 7);
    NextDigit(8, 6);
    NextDigit(4, 5);
    HighDigits();
  }

  lemma SecondDigits()
    ensures ToBits(62, 8) == SECOND
  {
    hide ToBits;
    NextDigit(62, 8);
    NextDigit(31, 7);
    NextDigit(15, 6);
    NextDigit(7, 5);
    HighDigits();
  }

  lemma ThirdDigits()
    ensures ToBits(0, 8) == THIRD
  {
    hide ToBits;
    NextDigit(0, 8);
    NextDigit(0, 7);
    NextDigit(0, 6);
    NextDigit(0, 5);
    HighDigits();
  }

  lemma HighDigits()
    ensures ToBits(2, 4) == [false, true, false, false] && ToBits(3, 4) == [true, true, false, false]
    ensures ToBits(0, 4) == [false, false, false, false]
  {}

  lemma SmallValues()
    ensures Value(FIRST) == 32 && Value(SECOND) == 62 && Value(THIRD) == 0
  {
    hide Value, ToBits;
    assert Pow2(8) == 256;
    FirstDigits();
    SecondDigits();
    ThirdDigits();
    ValueToBits(32, 8);
    ValueToBits(62, 8);
    ValueToBits(0, 8);
  }

  lemma PackOne(v: byte, a: seq<bool>, rest: seq<bool>)
    requires |a| == 8 && Value(a) == v && |rest| % 8 == 0
    ensures Pack(a + rest) == [v] + Pack(rest)
  {
    hide Value;
    assert (a + rest)[..8] == a && (a + rest)[8..] == rest;
  }

  lemma SmallBytes()
    ensures BitsOf([32, 62]) == FIRST + SECOND
    ensures BitsOf([32, 62, 0]) == FIRST + (SECOND + THIRD)
  {
    hide BitsOf, Value, Pack;
    SmallValues();
    assert Pack([]) == [] by { PackNone(); }
    PackOne(0, THIRD, []);
    PackOne(62, SECOND, []);
    PackOne(62, SECOND, THIRD);
    PackOne(32, FIRST, SECOND);
    PackOne(32, FIRST, SECOND + THIRD);
    assert THIRD + [] == THIRD && SECOND + [] == SECOND;
    BitsOfPack(FIRST + SECOND);
    BitsOfPack(FIRST + (SECOND + THIRD));
  }

  lemma PackNone()
    ensures Pack([]) == []
  {}

  /** Probabilities 1, 30 and -1 fill the bytes 32 and 62: refused as they stand, read back with one byte more. */
  lemma SpareBitExample()
    ensures ParseHeader([32, 62], 10) == NoHeader
    ensures ParseHeader([32, 62, 0], 10) == Header(SMALL, 5, 16)
  {
    hide ParseHeader, HeaderBits, BitsOf, Writable, Spare;
    SmallWritable();
    SmallBits();
    SmallBytes();
    FullHeaderRefused([32, 62], 10, SMALL, 5);
    HeaderRoundTrip([32, 62, 0], 10, SMALL, 5);
  }

  // ------------------------------------------------------------ the examples of RFC 8878

  lemma WidthExample()
    ensures Width(156) == 8 && Threshold(156) == 98 && Pow2(7) == 128
  {
    assert HighBit(157) == 1 + HighBit(78) && HighBit(78) == 1 + HighBit(39) && HighBit(39) == 1 + HighBit(19);
    assert HighBit(19) == 1 + HighBit(9) && HighBit(9) == 1 + HighBit(4) && HighBit(4) == 2;
    assert Pow2(8) == 256;
  }

  lemma LowSeven(raw: nat)
    requires raw < 256
    ensures Low(raw, 7) == raw % 128
  {
    hide Low, Shr;
    ShrLow(raw, 7);
    assert Pow2(7) == 128;
  }

  /** The table of section 4.1.1: with 100 of 256 points handed out, values of 0 to 97 take seven bits and values of 98
      to 157 take eight. */
  lemma FieldExample(raw: nat)
    requires raw < 256
    ensures Field(156, raw)
         == if raw < 98 then (raw, 7) else if raw < 128 then (raw, 8) else if raw < 226 then (raw - 128, 7)
            else (raw - 98, 8)
  {
    hide Low, Width, Threshold, Pow2;
    WidthExample();
    LowSeven(raw);
  }

  /** A zero is followed by two bits that say how many more zeros there are, and by two more after a count of three. */
  lemma RunExample(remaining: nat)
    ensures ParseRun([true, true, true, false], 4, 0, [0], remaining) == Parsed([0, 0, 0, 0, 0], 4, remaining)
    ensures ParseRun([false, true], 2, 0, [0], remaining) == Parsed([0, 0, 0], 2, remaining)
  {
    var bits := [true, true, true, false];
    assert bits[0..2] == [true, true] && bits[2..4] == [true, false] && [false, true][0..2] == [false, true];
    assert Value([true, true]) == 3 && Value([true, false]) == 1 && Value([false, true]) == 2;
    assert [0] + ZeroProbabilities(3) + ZeroProbabilities(1) == [0, 0, 0, 0, 0];
    assert [0] + ZeroProbabilities(2) == [0, 0, 0];
  }
}
