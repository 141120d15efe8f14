/** Whole DEFLATE streams and their zlib container: the decoder accepts exactly what can be written. */
module DeflateBlocks {
  import opened Bits
  import opened Huffman
  import opened Inflate
  import opened InflateReader
  import opened DeflateWriter
  import opened DeflateTables

  // ------------------------------------------------------------ blocks

  datatype Block =
    | Stored(pad: seq<bool>, data: seq<byte>)
    | Fixed(tokens: seq<Token>)
    | Dynamic(codes: Codes, tokens: seq<Token>)
  {
    function Kind(): (k: nat) {
      match this
      case Stored(_, _) => 0
      case Fixed(_) => 1
      case Dynamic(_, _) => 2
    }
  }

  /** A block can be written with its body at bit `at`, behind the bytes `out`. */
  ghost predicate BlockOk(b: Block, at: nat, out: seq<byte>) {
    match b
    case Stored(pad, data) => |pad| == Aligned(at) - at && |data| < 65536
    case Fixed(tokens) => TokensOk(FixedLit(), FixedDist(), tokens, out)
    case Dynamic(codes, tokens) => CodesOk(codes) && TokensOk(codes.lit, codes.dist, tokens, out)
  }

  ghost function Written(b: Block, at: nat, out: seq<byte>): (out': seq<byte>)
    requires BlockOk(b, at, out)
    ensures |out| <= |out'|
  {
    match b
    case Stored(_, data) => out + data
    case Fixed(tokens) => Expand(FixedLit(), FixedDist(), tokens, out)
    case Dynamic(codes, tokens) => Expand(codes.lit, codes.dist, tokens, out)
  }

  function DataBits(data: seq<byte>): (bits: seq<bool>)
    ensures |bits| == 8 * |data|
  {
    if data == [] then [] else DataBits(data[..|data| - 1]) + ToBits(data[|data| - 1], 8)
  }

  function StoredBits(pad: seq<bool>, data: seq<byte>): (bits: seq<bool>)
    requires |data| < 65536
  {
    pad + (ToBits(|data|, 16) + (ToBits(0xffff - |data|, 16) + DataBits(data)))
  }

  ghost function BodyBits(b: Block, at: nat, out: seq<byte>): (bits: seq<bool>)
    requires BlockOk(b, at, out)
  {
    match b
    case Stored(pad, data) => StoredBits(pad, data)
    case Fixed(tokens) => TokensBits(FixedLit(), FixedDist(), tokens, out)
    case Dynamic(codes, tokens) => CodesBits(codes) + TokensBits(codes.lit, codes.dist, tokens, out)
  }

  // ------------------------------------------------------------ stored data

  lemma Sixteen()
    ensures Pow2(8) == 256 && Pow2(16) == 65536
  {}

  lemma {:induction false} DataStands(input: Input, data: seq<byte>)
    requires input.Valid() && input.Has(0)
    ensures Next(input, DataBits(data)) <==> input.Has(8 * |data|) && Bytes(input, |data|) == data
  {
    hide Next, Value, ToBits;
    if data == [] {
      NextNothing(input);
      NoBytes(input);
    } else {
      var front, last := data[..|data| - 1], data[|data| - 1];
      DataStands(input, front);
      Sixteen();
      NextParts(input, DataBits(front), ToBits(last, 8));
      NextNumberIs(input.Skip(8 * |front|), last, 8);
      if input.Has(8 * |data|) { LastByte(input, data); }
    }
  }

  lemma LastByte(input: Input, data: seq<byte>)
    requires data != [] && input.Valid() && input.Has(8 * |data|)
    ensures Bytes(input, |data|) == data <==>
      Bytes(input, |data| - 1) == data[..|data| - 1] && input.Skip(8 * (|data| - 1)).Number(8) == data[|data| - 1]
  {
    hide Bytes, Value;
    BytesStep(input, |data| - 1);
    var n := |data| - 1;
    SplitLast(data, Bytes(input, n), input.Skip(8 * n).Number(8));
  }

  lemma SplitLast(data: seq<byte>, front: seq<byte>, last: byte)
    requires data != []
    ensures data == front + [last] <==> front == data[..|data| - 1] && last == data[|data| - 1]
  {}

  lemma AnyPad(input: Input, n: nat) returns (pad: seq<bool>)
    requires input.Valid() && input.Has(n)
    ensures |pad| == n && Next(input, pad)
  {
    pad := input.bits[input.at..input.at + n];
  }

  lemma StoredStands(input: Input, pad: seq<bool>, data: seq<byte>)
    requires |data| < 65536 && |pad| == Aligned(input.at) - input.at
    ensures var head := input.(at := Aligned(input.at));
      Next(input, StoredBits(pad, data)) <==>
      && Next(input, pad) && head.Valid() && head.Has(32)
      && head.Number(16) == |data| && head.Skip(16).Number(16) == 0xffff - |data|
      && head.Skip(32).Has(8 * |data|) && Bytes(head.Skip(32), |data|) == data
  {
    hide Next, Value, ToBits, DataBits, Bytes, Aligned;
    var head := input.(at := Aligned(input.at));
    assert input.Skip(|pad|) == head;
    NextParts(input, pad, ToBits(|data|, 16) + (ToBits(0xffff - |data|, 16) + DataBits(data)));
    SizesStand(head, |data|, DataBits(data));
    if head.Valid() && head.Has(32) { DataStands(head.Skip(32), data); }
  }

  /** The length and its complement in front of stored data. */
  lemma SizesStand(head: Input, n: nat, body: seq<bool>)
    requires n < 65536
    ensures Next(head, ToBits(n, 16) + (ToBits(0xffff - n, 16) + body)) <==>
      && head.Valid() && head.Has(32) && head.Number(16) == n && head.Skip(16).Number(16) == 0xffff - n
      && Next(head.Skip(32), body)
  {
    hide Value, ToBits;
    Sixteen();
    NextParts(head, ToBits(n, 16), ToBits(0xffff - n, 16) + body);
    NextParts(head.Skip(16), ToBits(0xffff - n, 16), body);
    NextNumberIs(head, n, 16);
    NextNumberIs(head.Skip(16), 0xffff - n, 16);
  }

  lemma StoredRoundTrip(input: Input, pad: seq<bool>, data: seq<byte>, out: seq<byte>, capacity: nat)
    requires |data| < 65536 && |pad| == Aligned(input.at) - input.at && Next(input, StoredBits(pad, data))
    requires |out| + |data| <= capacity && input.Valid()
    ensures StoredBlock(input, out, capacity) == Good(input.Skip(|StoredBits(pad, data)|), out + data)
  {
    hide Next, Value, ToBits, Bytes;
    StoredStands(input, pad, data);
  }

  lemma StoredSound(input: Input, out: seq<byte>, capacity: nat) returns (b: Block)
    requires input.Valid() && StoredBlock(input, out, capacity).Good?
    ensures b.Stored? && BlockOk(b, input.at, out) && Next(input, StoredBits(b.pad, b.data))
    ensures StoredBlock(input, out, capacity) == Good(input.Skip(|StoredBits(b.pad, b.data)|), out + b.data)
  {
    hide Next, Value, ToBits, Bytes;
    var head := input.(at := Aligned(input.at));
    var pad := AnyPad(input, Aligned(input.at) - input.at);
    Sixteen();
    NumberBelow(head, 16);
    var data := Bytes(head.Skip(32), head.Number(16));
    StoredStands(input, pad, data);
    b := Stored(pad, data);
  }

  // ------------------------------------------------------------ block bodies: both directions

  lemma DynamicRoundTrip(input: Input, codes: Codes, tokens: seq<Token>, out: seq<byte>, capacity: nat)
    requires input.Valid() && CodesOk(codes) && TokensOk(codes.lit, codes.dist, tokens, out)
    requires Next(input, CodesBits(codes) + TokensBits(codes.lit, codes.dist, tokens, out))
    requires |Expand(codes.lit, codes.dist, tokens, out)| <= capacity
    ensures CompressedBlock(2, input, out, capacity)
         == Good(input.Skip(|CodesBits(codes) + TokensBits(codes.lit, codes.dist, tokens, out)|),
                 Expand(codes.lit, codes.dist, tokens, out))
  {
    hide Accepts, Next, CodesBits, TokensBits, TokensOk, Expand, DynamicTables, Tokens, Sendable, RunsOk, AddRuns;
    var a, b := CodesBits(codes), TokensBits(codes.lit, codes.dist, tokens, out);
    NextParts(input, a, b);
    CodesRoundTrip(codes, input);
    TokensRoundTrip(codes.lit, codes.dist, input.Skip(|a|), tokens, out, capacity);
    SkipSkip(input, |a|, |b|);
  }

  lemma BodyRoundTrip(b: Block, input: Input, out: seq<byte>, capacity: nat)
    requires input.Valid() && BlockOk(b, input.at, out) && Next(input, BodyBits(b, input.at, out))
    requires |Written(b, input.at, out)| <= capacity
    ensures Body(b.Kind(), input, out, capacity)
         == Good(input.Skip(|BodyBits(b, input.at, out)|), Written(b, input.at, out))
  {
    hide Accepts, Next, CodesBits, TokensBits, TokensOk, Expand, DynamicTables, Tokens, CodesOk, StoredBits,
         StoredBlock;
    match b
    case Stored(pad, data) => StoredRoundTrip(input, pad, data, out, capacity);
    case Fixed(tokens) =>
      FixedAccepted();
      TokensRoundTrip(FixedLit(), FixedDist(), input, tokens, out, capacity);
    case Dynamic(codes, tokens) => DynamicRoundTrip(input, codes, tokens, out, capacity);
  }

  lemma DynamicSound(input: Input, out: seq<byte>, capacity: nat) returns (b: Block)
    requires input.Valid() && CompressedBlock(2, input, out, capacity).Good?
    ensures b.Dynamic? && BlockOk(b, input.at, out) && Next(input, BodyBits(b, input.at, out))
    ensures CompressedBlock(2, input, out, capacity)
         == Good(input.Skip(|BodyBits(b, input.at, out)|), Written(b, input.at, out))
  {
    hide Accepts, Next, CodesBits, TokensBits, TokensOk, Expand, DynamicTables, Tokens, Sendable, RunsOk, AddRuns;
    var codes := CodesSound(input);
    var tail := DynamicTables(input).rest;
    var tokens := TokensSound(codes.lit, codes.dist, tail, out, capacity);
    b := Dynamic(codes, tokens);
    var x, y := CodesBits(codes), TokensBits(codes.lit, codes.dist, tokens, out);
    NextParts(input, x, y);
    SkipSkip(input, |x|, |y|);
  }

  lemma BodySound(kind: nat, input: Input, out: seq<byte>, capacity: nat) returns (b: Block)
    requires input.Valid() && Body(kind, input, out, capacity).Good?
    ensures b.Kind() == kind && BlockOk(b, input.at, out) && Next(input, BodyBits(b, input.at, out))
    ensures Body(kind, input, out, capacity)
         == Good(input.Skip(|BodyBits(b, input.at, out)|), Written(b, input.at, out))
  {
    hide Accepts, Next, CodesBits, TokensBits, TokensOk, Expand, DynamicTables, Tokens, CodesOk, StoredBits,
         StoredBlock;
    if kind == 0 {
      b := StoredSound(input, out, capacity);
    } else if kind == 1 {
      FixedAccepted();
      var tokens := TokensSound(FixedLit(), FixedDist(), input, out, capacity);
      b := Fixed(tokens);
    } else {
      b := DynamicSound(input, out, capacity);
    }
  }

  // ------------------------------------------------------------ streams of blocks

  /** Blocks that can be written one after the other from bit `at` on; the last is the final one. */
  ghost predicate BlocksOk(blocks: seq<Block>, at: nat, out: seq<byte>)
    decreases |blocks|
  {
    && blocks != [] && BlockOk(blocks[0], at + 3, out)
    && (|blocks| > 1 ==>
          BlocksOk(blocks[1..], at + 3 + |BodyBits(blocks[0], at + 3, out)|, Written(blocks[0], at + 3, out)))
  }

  ghost function AllWritten(blocks: seq<Block>, at: nat, out: seq<byte>): (out': seq<byte>)
    requires BlocksOk(blocks, at, out)
    ensures |out| <= |out'|
    decreases |blocks|
  {
    hide BlockOk, Written, BodyBits;
    var out1 := Written(blocks[0], at + 3, out);
    if |blocks| == 1 then out1
    else AllWritten(blocks[1..], at + 3 + |BodyBits(blocks[0], at + 3, out)|, out1)
  }

  ghost function BlockBits(b: Block, final: bool, at: nat, out: seq<byte>): (bits: seq<bool>)
    requires BlockOk(b, at + 3, out)
  {
    [final] + (ToBits(b.Kind(), 2) + BodyBits(b, at + 3, out))
  }

  ghost function BlocksBits(blocks: seq<Block>, at: nat, out: seq<byte>): (bits: seq<bool>)
    requires BlocksOk(blocks, at, out)
    decreases |blocks|
  {
    hide BlockOk, Written, BodyBits;
    var first := BlockBits(blocks[0], |blocks| == 1, at, out);
    if |blocks| == 1 then first
    else first + BlocksBits(blocks[1..], at + 3 + |BodyBits(blocks[0], at + 3, out)|, Written(blocks[0], at + 3, out))
  }

  lemma NextBit(input: Input, b: bool)
    ensures Next(input, [b]) <==> input.Valid() && input.Has(1) && input.bits[input.at] == b
  {}

  lemma HeadStands(input: Input, final: bool, kind: nat, body: seq<bool>)
    requires kind < 4
    ensures Next(input, [final] + (ToBits(kind, 2) + body)) <==>
      && input.Valid() && input.Has(3) && input.bits[input.at] == final && input.Skip(1).Number(2) == kind
      && Next(input.Skip(3), body)
  {
    hide Value, ToBits, Next;
    SmallPowers();
    NextBit(input, final);
    NextParts(input, [final], ToBits(kind, 2) + body);
    NextParts(input.Skip(1), ToBits(kind, 2), body);
    NextNumberIs(input.Skip(1), kind, 2);
  }

  /** A written stream decodes to the expansion of its blocks. */
  lemma {:induction false} BlocksRoundTrip(blocks: seq<Block>, input: Input, out: seq<byte>, capacity: nat)
    requires input.Valid() && BlocksOk(blocks, input.at, out) && Next(input, BlocksBits(blocks, input.at, out))
    requires |AllWritten(blocks, input.at, out)| <= capacity
    ensures Blocks(input, out, capacity)
         == Good(input.Skip(|BlocksBits(blocks, input.at, out)|), AllWritten(blocks, input.at, out))
    decreases |blocks|
  {
    hide Next, BlockOk, Written, BodyBits, ToBits, Body, Value;
    var b, last := blocks[0], |blocks| == 1;
    var body, out1 := BodyBits(b, input.at + 3, out), Written(b, input.at + 3, out);
    var first := BlockBits(b, last, input.at, out);
    if !last { NextParts(input, first, BlocksBits(blocks[1..], input.at + 3 + |body|, out1)); }
    HeadStands(input, last, b.Kind(), body);
    BodyRoundTrip(b, input.Skip(3), out, capacity);
    SkipSkip(input, 3, |body|);
    if !last {
      BlocksRoundTrip(blocks[1..], input.Skip(3 + |body|), out1, capacity);
      SkipSkip(input, 3 + |body|, |BlocksBits(blocks[1..], input.at + 3 + |body|, out1)|);
    }
  }

  /** Everything the decoder accepts is a written stream. */
  lemma {:induction false} BlocksSound(input: Input, out: seq<byte>, capacity: nat) returns (blocks: seq<Block>)
    requires input.Valid() && Blocks(input, out, capacity).Good?
    ensures BlocksOk(blocks, input.at, out) && Next(input, BlocksBits(blocks, input.at, out))
    ensures Blocks(input, out, capacity)
         == Good(input.Skip(|BlocksBits(blocks, input.at, out)|), AllWritten(blocks, input.at, out))
    decreases input.Left()
  {
    hide Next, BlockOk, Written, BodyBits, ToBits, Body, Value, Input.Number;
    var kind, last := input.Skip(1).Number(2), input.bits[input.at];
    SmallPowers();
    NumberBelow(input.Skip(1), 2);
    var b := BodySound(kind, input.Skip(3), out, capacity);
    var body, out1 := BodyBits(b, input.at + 3, out), Written(b, input.at + 3, out);
    HeadStands(input, last, kind, body);
    SkipSkip(input, 3, |body|);
    if last {
      blocks := [b];
    } else {
      var rest := BlocksSound(input.Skip(3 + |body|), out1, capacity);
      blocks := [b] + rest;
      assert blocks[1..] == rest;
      NextParts(input, BlockBits(b, false, input.at, out), BlocksBits(rest, input.at + 3 + |body|, out1));
      SkipSkip(input, 3 + |body|, |BlocksBits(rest, input.at + 3 + |body|, out1)|);
    }
  }

  // ------------------------------------------------------------ the container

  function BigEndianBytes(v: nat): (b: seq<byte>)
    requires v < 0x1_0000_0000
    ensures |b| == 4 && BigEndian32(b) == v
  {
    var high, low := v / 0x10000, v % 0x10000;
    [high / 0x100, high % 0x100, low / 0x100, low % 0x100]
  }

  lemma AdlerBelow(data: seq<byte>)
    ensures Adler(data) < 0x1_0000_0000
  {}

  /** A zlib stream: header, packed bits and the checksum of what they stand for. */
  function ZlibStream(cmf: byte, flg: byte, bits: seq<bool>, out: seq<byte>): (stream: seq<byte>)
    requires |bits| % 8 == 0
  {
    AdlerBelow(out);
    [cmf, flg] + Pack(bits) + BigEndianBytes(Adler(out))
  }

  /** The compressed bits of a zlib stream as the decoder sees them. */
  function Payload(input: seq<byte>): (i: Input)
    requires |input| >= 6
    ensures i.Valid() && i.at == 0
  {
    var data := input[2..|input| - 4];
    Input(BitsOf(data), Limit(data), 0)
  }

  /** `input` carries the given blocks and nothing is wrong with its container. */
  ghost predicate Carries(input: seq<byte>, blocks: seq<Block>) {
    && |input| >= 6 && HeaderOk(input[0], input[1])
    && BlocksOk(blocks, 0, []) && Next(Payload(input), BlocksBits(blocks, 0, []))
    && Adler(AllWritten(blocks, 0, [])) == BigEndian32(input[|input| - 4..])
  }

  /** The decoder inflates exactly the streams that carry blocks, to the expansion of those blocks. */
  lemma InflatesIffCarries(input: seq<byte>, capacity: nat, out: seq<byte>)
    requires capacity > 0
    ensures Decompressed(input, capacity) == Inflated(out) <==>
      |out| <= capacity && exists blocks :: Carries(input, blocks) && AllWritten(blocks, 0, []) == out
  {
    if Decompressed(input, capacity) == Inflated(out) {
      var blocks := DecompressedSound(input, capacity, out);
    }
    forall blocks | Carries(input, blocks) && AllWritten(blocks, 0, []) == out && |out| <= capacity
      ensures Decompressed(input, capacity) == Inflated(out)
    {
      CarriedIsDecompressed(input, capacity, blocks);
    }
  }

  lemma CarriedIsDecompressed(input: seq<byte>, capacity: nat, blocks: seq<Block>)
    requires capacity > 0 && Carries(input, blocks) && |AllWritten(blocks, 0, [])| <= capacity
    ensures Decompressed(input, capacity) == Inflated(AllWritten(blocks, 0, []))
  {
    hide Next, BlocksOk, BlocksBits, AllWritten, Blocks, BitsOf, Limit, Adler, BigEndian32, HeaderOk;
    BlocksRoundTrip(blocks, Payload(input), [], capacity);
  }

  lemma DecompressedSound(input: seq<byte>, capacity: nat, out: seq<byte>) returns (blocks: seq<Block>)
    requires Decompressed(input, capacity) == Inflated(out)
    ensures Carries(input, blocks) && AllWritten(blocks, 0, []) == out && |out| <= capacity
  {
    hide Next, BlocksOk, BlocksBits, AllWritten, Blocks, BitsOf, Limit, Adler, BigEndian32, HeaderOk;
    blocks := BlocksSound(Payload(input), [], capacity);
  }

  lemma StreamParts(cmf: byte, flg: byte, bits: seq<bool>, out: seq<byte>)
    requires |bits| % 8 == 0 && |bits| < 0x1_0000_0000
    ensures var stream := ZlibStream(cmf, flg, bits, out);
      && |stream| >= 6 && stream[0] == cmf && stream[1] == flg
      && Payload(stream) == Input(bits, |bits|, 0)
      && BigEndian32(stream[|stream| - 4..]) == Adler(out)
  {
    hide Adler, BigEndian32, BigEndianBytes, BitsOf, Pack;
    var stream := ZlibStream(cmf, flg, bits, out);
    AdlerBelow(out);
    var tail := BigEndianBytes(Adler(out));
    assert stream[|stream| - 4..] == tail;
    assert stream[2..|stream| - 4] == Pack(bits);
    BitsOfPack(bits);
  }

  /**
   * Round trip: every sequence of stored, fixed and dynamic blocks, packed behind any valid header
   * with any slack before the checksum, inflates to the expansion of its tokens.
   */
  lemma ZlibRoundTrip(cmf: byte, flg: byte, blocks: seq<Block>, slack: seq<bool>, capacity: nat)
    requires HeaderOk(cmf, flg) && BlocksOk(blocks, 0, []) && 0 < capacity && |AllWritten(blocks, 0, [])| <= capacity
    requires var bits := BlocksBits(blocks, 0, []) + slack; |bits| % 8 == 0 && |bits| < 0x1_0000_0000
    ensures var out := AllWritten(blocks, 0, []);
      Decompressed(ZlibStream(cmf, flg, BlocksBits(blocks, 0, []) + slack, out), capacity) == Inflated(out)
  {
    hide BlocksOk, BlocksBits, AllWritten, Blocks, BitsOf, Limit, Adler, BigEndian32, HeaderOk, ZlibStream, Payload,
         Decompressed;
    var out, body := AllWritten(blocks, 0, []), BlocksBits(blocks, 0, []);
    StreamParts(cmf, flg, body + slack, out);
    assert (body + slack)[0..0 + |body|] == body;
    CarriedIsDecompressed(ZlibStream(cmf, flg, body + slack, out), capacity, blocks);
  }
}
