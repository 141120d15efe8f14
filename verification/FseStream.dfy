/** The backward bit reader and the streaming decoder over a built table. */
module FseStream {
  import opened Bits
  import opened FseBuild
  import opened FseCodec

  /** Shifting whole bytes' worth of bits into place extends the number read so far. */
  lemma ExtendRead(source: seq<byte>, from: nat, start: nat, count: nat)
    requires from <= start < 8 * |source| && start % 8 + count <= 8
    ensures start + count <= 8 * |source|
    ensures Value(BitsOf(source)[from..start + count])
         == Value(BitsOf(source)[from..start]) + Low(Shr(source[start / 8], start % 8), count) * Pow2(start - from)
  {
    hide BitsOf, Value, Low, Shr, Pow2;
    ByteField(source, start, count);
    var bits := BitsOf(source);
    assert bits[from..start + count] == bits[from..start] + bits[start..start + count];
    ValueAppend(bits[from..start], bits[start..start + count]);
  }

  /**
   * Reads `bits` bits ending at `offset`, byte fragment by byte fragment. Each fragment is shifted
   * above the bits already read, so joining it by `|` is adding it.
   */
  method StreamRead(source: seq<byte>, bits: nat, offset: int) returns (result: nat, offset': int)
    requires offset <= 8 * |source| && bits <= 32
    ensures offset' == offset - bits
    ensures result == ReadBack(BitsOf(source), offset, bits)
  {
    var start := offset - bits;
    offset' := start;
    var left, shift := bits, 0;
    result := 0;
    while left > 0 && start >= 0
      invariant 0 <= left && start + left == offset && shift == start - offset'
      invariant offset' < 0 ==> start == offset' && result == 0
      invariant offset' >= 0 ==> offset' <= start && result == Value(BitsOf(source)[offset'..start])
      decreases left
    {
      var available := 8 - start % 8;
      var count := if left < available then left else available;
      ExtendRead(source, offset', start, count);
      result := result + Low(Shr(source[start / 8], start % 8), count) * Pow2(shift);
      shift, left, start := shift + count, left - count, start + count;
    }
  }

  /** Finds the end mark of a stream. */
  method StreamBegin(stream: seq<byte>) returns (ok: bool, offset: int)
    ensures ok <==> stream != [] && stream[|stream| - 1] != 0
    ensures ok ==> offset >= 0 && EndMark(BitsOf(stream), offset)
  {
    if stream == [] || stream[|stream| - 1] == 0 {
      return false, 0;
    }
    var last := stream[|stream| - 1];
    offset := |stream| * 8 - (8 - HighBit(last));
    HighestIsMark(stream);
    ok := true;
  }

  lemma LastByteBit(stream: seq<byte>, i: nat)
    requires stream != [] && i < 8
    ensures BitsOf(stream)[8 * (|stream| - 1) + i] == (Shr(stream[|stream| - 1], i) % 2 == 1)
  {}

  lemma ZeroAbove(value: nat, i: nat)
    requires value >= 1 && i > HighBit(value)
    ensures Shr(value, i) == 0
  {
    HighBitBounds(value);
    Pow2Mono(HighBit(value) + 1, i);
    LowSmall(value, i);
  }

  lemma HighestIsMark(stream: seq<byte>)
    requires stream != [] && stream[|stream| - 1] != 0
    ensures HighBit(stream[|stream| - 1]) < 8
    ensures EndMark(BitsOf(stream), 8 * (|stream| - 1) + HighBit(stream[|stream| - 1]))
  {
    var last := stream[|stream| - 1];
    var h := HighBit(last);
    HighBitBelow(last);
    HighBitSet(last);
    LastByteBit(stream, h);
    var bits, first := BitsOf(stream), 8 * (|stream| - 1);
    forall i | first + h < i < |bits|
      ensures !bits[i]
    {
      LastByteBit(stream, i - first);
      ZeroAbove(last, i - first);
    }
  }

  lemma HighBitBelow(value: byte)
    requires value != 0
    ensures HighBit(value) < 8
  {
    HighBitBounds(value);
    assert Pow2(8) == 256;
    if HighBit(value) >= 8 { Pow2Mono(8, HighBit(value)); }
  }

  lemma {:induction false} HighBitSet(value: nat)
    requires value >= 1
    ensures Shr(value, HighBit(value)) == 1
  {
    if value > 1 {
      HighBitSet(value / 2);
    }
  }

  /** Reads the start state. */
  method StreamSeed(table: FseTable, stream: seq<byte>, offset: int) returns (ok: bool, state: nat, offset': int)
    requires table.Valid() && offset <= 8 * |stream|
    ensures table.size == 0 || table.accuracyLog > 10 ==> !ok && offset' == offset
    ensures table.size > 0 && table.accuracyLog <= 10 ==>
      && state == ReadBack(BitsOf(stream), offset, table.accuracyLog)
      && offset' == offset - table.accuracyLog
      && (ok <==> state < table.size)
  {
    if table.size == 0 || table.accuracyLog > 10 {
      return false, 0, offset;
    }
    state, offset' := StreamRead(stream, table.accuracyLog, offset);
    ok := state < table.size;
  }

  method StreamPeek(table: FseTable, state: nat) returns (ok: bool, symbol: byte)
    requires table.Valid()
    ensures ok <==> state < table.size
    ensures ok ==> symbol == table.symbols[state]
  {
    if state >= table.size {
      return false, 0;
    }
    return true, table.symbols[state];
  }

  method StreamUpdate(table: FseTable, stream: seq<byte>, state: nat, offset: int)
    returns (ok: bool, next: nat, offset': int)
    requires table.Valid() && offset <= 8 * |stream| && (state < table.size ==> table.bits[state] <= 32)
    ensures state >= table.size ==> !ok && next == state && offset' == offset
    ensures state < table.size ==>
      && next == Sum32(table.newState[state], ReadBack(BitsOf(stream), offset, table.bits[state]))
      && offset' == offset - table.bits[state]
      && (ok <==> next < table.size)
  {
    if state >= table.size {
      return false, state, offset;
    }
    var v;
    v, offset' := StreamRead(stream, table.bits[state], offset);
    next := Sum32(table.newState[state], v);
    ok := next < table.size;
  }

  /** A table as the builder leaves it for complete probabilities. */
  ghost predicate Loaded(table: FseTable, norm: seq<int>)
    reads table, table.symbols, table.bits, table.newState
  {
    && table.Valid() && 1 <= table.accuracyLog <= 10 && table.size == Pow2(table.accuracyLog)
    && Built(table.View(), norm)
  }

  /** On a built table the decoder's state checks never fail. */
  lemma LoadedStep(table: FseTable, norm: seq<int>, bits: seq<bool>, state: nat, offset: int)
    requires Loaded(table, norm) && state < table.size && offset <= |bits|
    ensures table.bits[state] <= 32
    ensures Sum32(table.newState[state], ReadBack(bits, offset, table.bits[state]))
         == NextState(table.View(), bits, state, offset) < table.size
  {
    IntervalInside(table.View(), norm, state);
    NextStateInside(table.View(), norm, bits, state, offset);
  }

  /** `rest` is what a decoder standing at `state` and `offset` has still to deliver. */
  ghost predicate Remaining(t: Table, bits: seq<bool>, state: nat, offset: int, count: nat, rest: seq<byte>) {
    t.Sized() && state < |t.symbols| && offset <= |bits| && |rest| == count
      && rest == Decoded(t, bits, state, offset, count)
  }

  /** One symbol and the rest. */
  lemma DecodedUnfold(table: FseTable, norm: seq<int>, bits: seq<bool>, state: nat, offset: int, rest: seq<byte>)
    requires Loaded(table, norm) && rest != []
    requires Remaining(table.View(), bits, state, offset, |rest|, rest)
    ensures state < table.size && table.bits[state] <= 32
    ensures var next := Sum32(table.newState[state], ReadBack(bits, offset, table.bits[state]));
      && next < table.size && rest[0] == table.symbols[state]
      && Remaining(table.View(), bits, next, offset - table.bits[state], |rest| - 1, rest[1..])
  {
    LoadedStep(table, norm, bits, state, offset);
  }

  /** One peek and one update. */
  method NextSymbol(table: FseTable, stream: seq<byte>, state: nat, offset: int, ghost norm: seq<int>,
                    ghost rest: seq<byte>)
    returns (ok: bool, symbol: byte, next: nat, offset': int)
    requires Loaded(table, norm) && rest != []
    requires Remaining(table.View(), BitsOf(stream), state, offset, |rest|, rest)
    ensures ok && symbol == rest[0]
    ensures Remaining(table.View(), BitsOf(stream), next, offset', |rest| - 1, rest[1..])
  {
    DecodedUnfold(table, norm, BitsOf(stream), state, offset, rest);
    ok, symbol := StreamPeek(table, state);
    ok, next, offset' := StreamUpdate(table, stream, state, offset);
  }

  /** The peek and update calls of a decoder. */
  method ReadSymbols(table: FseTable, stream: seq<byte>, start: nat, from: int, count: nat, ghost norm: seq<int>)
    returns (ok: bool, message: seq<byte>)
    requires Loaded(table, norm) && start < table.size && from <= 8 * |stream|
    ensures ok && |message| == count
    ensures message == Decoded(table.View(), BitsOf(stream), start, from, count)
  {
    hide BitsOf, Value, Built, Pow2;
    ok, message := true, [];
    var state: nat, offset: int := start, from;
    ghost var whole := Decoded(table.View(), BitsOf(stream), start, from, count);
    DecodedLength(table.View(), norm, BitsOf(stream), start, from, count);
    var i := 0;
    while i < count
      invariant 0 <= i <= count && ok
      invariant Remaining(table.View(), BitsOf(stream), state, offset, count - i, whole[i..])
      invariant |message| == i && forall k :: 0 <= k < i ==> message[k] == whole[k]
    {
      var symbol;
      ok, symbol, state, offset := NextSymbol(table, stream, state, offset, norm, whole[i..]);
      message := message + [symbol];
      assert whole[i..][1..] == whole[i + 1..];
      i := i + 1;
    }
  }

  /** Decodes a whole stream by the streaming calls; `sent` is any message the stream may have been made from. */
  method ReadStream(table: FseTable, stream: seq<byte>, count: nat, ghost norm: seq<int>, ghost sent: seq<byte>)
    returns (ok: bool, message: seq<byte>)
    requires Loaded(table, norm)
    ensures ok <==> stream != [] && stream[|stream| - 1] != 0
    ensures ok ==> |message| == count
    ensures sent != [] && Sendable(sent, norm) && stream == Stream(table.View(), norm, sent) && count == |sent| ==>
      ok && message == sent
  {
    hide BitsOf, Value, Stream, Decoded, EndMark, Sendable, Built;
    message := [];
    var offset;
    ok, offset := StreamBegin(stream);
    if sent != [] && Sendable(sent, norm) && stream == Stream(table.View(), norm, sent) {
      StreamEndsNonzero(table.View(), norm, sent);
      StreamRoundTrip(table.View(), norm, sent, offset);
    }
    if !ok {
      return;
    }
    SeedInside(table, norm, BitsOf(stream), offset);
    var state;
    ok, state, offset := StreamSeed(table, stream, offset);
    ok, message := ReadSymbols(table, stream, state, offset, count, norm);
  }

  lemma SeedInside(table: FseTable, norm: seq<int>, bits: seq<bool>, offset: int)
    requires Loaded(table, norm) && offset <= |bits|
    ensures ReadBack(bits, offset, table.accuracyLog) < table.size
  {
    if offset - table.accuracyLog >= 0 { ValueBound(bits[offset - table.accuracyLog..offset]); }
  }

  lemma StreamEndsNonzero(t: Table, norm: seq<int>, message: seq<byte>)
    requires Built(t, norm) && t.log <= 10 && message != [] && Sendable(message, norm)
    ensures var stream := Stream(t, norm, message); stream != [] && stream[|stream| - 1] != 0
  {
    var bits := StreamBits(t, norm, message);
    var stream := Stream(t, norm, message);
    BitsOfPack(bits);
    var (state, written) := Encoded(t, norm, message);
    var mark := |written| + t.log;
    assert bits[mark] && mark < |bits| <= mark + 8;
    assert BitAt(stream, mark);
    assert mark / 8 == |stream| - 1;
    LowSmall(0, mark % 8);
  }

  /** What `Decode` reads from a stream. */
  function PlainDecoded(t: Table, stream: seq<byte>, count: nat): (message: seq<byte>)
    requires t.Sized()
  {
    var bits := BitsOf(stream);
    Decoded(t, bits, ReadBack(bits, |bits|, t.log), |bits| - t.log, count)
  }

  /** On a built table every plain stream holds as many symbols as are asked for. */
  lemma PlainNeverStops(t: Table, norm: seq<int>, stream: seq<byte>, count: nat)
    requires Built(t, norm) && t.log <= 10
    ensures |PlainDecoded(t, stream, count)| == count
  {
    var bits := BitsOf(stream);
    if |bits| - t.log >= 0 {
      ValueBound(bits[|bits| - t.log..|bits|]);
    }
    DecodedLength(t, norm, bits, ReadBack(bits, |bits|, t.log), |bits| - t.log, count);
  }

  /** A table that the builder has filled, whose reads stay within 32 bits. */
  ghost predicate Filled(table: FseTable)
    reads table, table.bits
  {
    && table.Valid() && table.accuracyLog <= 10 && table.size == Pow2(table.accuracyLog)
    && forall p :: 0 <= p < table.size ==> table.bits[p] <= 32
  }

  /** What is delivered and what is to come make up the whole. */
  ghost predicate Delivered(t: Table, bits: seq<bool>, state: nat, offset: int, done: seq<byte>, rest: nat,
                            whole: seq<byte>) {
    t.Sized() && offset <= |bits| && done + Decoded(t, bits, state, offset, rest) == whole
  }

  lemma DeliverOne(t: Table, bits: seq<bool>, state: nat, offset: int, done: seq<byte>, rest: nat, whole: seq<byte>)
    requires Delivered(t, bits, state, offset, done, rest, whole) && rest > 0
    ensures state >= |t.symbols| ==> whole == done
    ensures state < |t.symbols| ==>
      Delivered(t, bits, NextState(t, bits, state, offset), offset - t.bits[state],
                done + [t.symbols[state]], rest - 1, whole)
  {
    hide NextState;
    if state < |t.symbols| {
      var tail := Decoded(t, bits, NextState(t, bits, state, offset), offset - t.bits[state], rest - 1);
      assert done + ([t.symbols[state]] + tail) == done + [t.symbols[state]] + tail;
    }
  }

  lemma FieldsOfState(table: FseTable, bits: seq<bool>, state: nat, offset: int)
    requires Filled(table) && state < table.size && offset <= |bits|
    ensures var t := table.View();
      && t.Sized() && |t.symbols| == table.size
      && t.symbols[state] == table.symbols[state] && t.bits[state] == table.bits[state]
      && NextState(t, bits, state, offset) == Sum32(table.newState[state], ReadBack(bits, offset, table.bits[state]))
  {}

  /**
   * The decoder of plain streams, whose start state stands in the last bits of the last byte. It
   * fails exactly for its arguments or when the table leads out of itself, which a built one never does.
   */
  method Decode(table: FseTable, stream: seq<byte>, symbols: array<byte>, count: nat) returns (ok: bool)
    requires table.Valid() && (table.size != 0 ==> Filled(table))
    requires count <= symbols.Length && symbols != table.symbols && symbols != table.bits
    modifies symbols
    ensures ok <==>
      && stream != [] && count > 0 && table.size != 0 && stream[|stream| - 1] != 0
      && |PlainDecoded(table.View(), stream, count + 1)| == count + 1
    ensures ok ==> symbols[..count] == PlainDecoded(table.View(), stream, count)
    ensures symbols[count..] == old(symbols[count..])
  {
    hide BitsOf, Value, Pow2, Decoded, ReadBack, NextState, Sum32;
    if stream == [] || count == 0 || table.size == 0 || table.size > TABLE_MAX || table.accuracyLog > 10
       || stream[|stream| - 1] == 0 {
      return false;
    }
    ghost var t, bits, whole := table.View(), BitsOf(stream), PlainDecoded(table.View(), stream, count + 1);
    var state: nat, offset := StreamRead(stream, table.accuracyLog, 8 * |stream|);
    DecodedPrefix(t, bits, state, offset, count);
    assert symbols[..0] == [] && [] + whole == whole;
    var i := 0;
    while i < count
      invariant 0 <= i <= count && table.View() == t && Filled(table)
      invariant Delivered(t, bits, state, offset, symbols[..i], count + 1 - i, whole)
      invariant i > 0 ==> state < table.size
      invariant symbols[count..] == old(symbols[count..])
    {
      DeliverOne(t, bits, state, offset, symbols[..i], count + 1 - i, whole);
      if state >= table.size {
        return false;
      }
      FieldsOfState(table, bits, state, offset);
      ghost var before := symbols[..i];
      symbols[i] := table.symbols[state];
      assert symbols[..i + 1] == before + [table.symbols[state]];
      var read := table.bits[state];
      var v;
      v, offset := StreamRead(stream, read, offset);
      state := Sum32(table.newState[state], v);
      i := i + 1;
      if state >= table.size {
        DeliverOne(t, bits, state, offset, symbols[..i], count + 1 - i, whole);
        return false;
      }
    }
    DeliverOne(t, bits, state, offset, symbols[..count], 1, whole);
    return true;
  }

  /** Round trip for plain streams: any leading bits, then the encoder's bits, then the start state. */
  lemma PlainRoundTrip(t: Table, norm: seq<int>, message: seq<byte>, lead: seq<bool>)
    requires Built(t, norm) && t.log <= 10 && message != [] && Sendable(message, norm)
    requires var (state, written) := Encoded(t, norm, message); |lead + written + ToBits(state, t.log)| % 8 == 0
    ensures var (state, written) := Encoded(t, norm, message);
      PlainDecoded(t, Pack(lead + written + ToBits(state, t.log)), |message|) == message
  {
    var (state, written) := Encoded(t, norm, message);
    var bits := lead + written + ToBits(state, t.log);
    BitsOfPack(bits);
    PlainFramed(lead, written, ToBits(state, t.log));
    assert bits[|bits| - t.log..|bits|] == ToBits(state, t.log);
    ReadWritten(bits, |bits|, state, t.log);
    DecodedEncoded(t, norm, message, bits, |bits| - t.log);
  }

  lemma PlainFramed(lead: seq<bool>, written: seq<bool>, start: seq<bool>)
    ensures var bits := lead + written + start;
      && bits[|bits| - |start|..|bits|] == start
      && bits[|lead|..|lead| + |written|] == written
  {}
}
