/** The zlib decoder as it runs: a bit reader, an output buffer, and loops over blocks and symbols. */
module InflateReader {
  import opened Bits
  import opened Huffman
  import opened HuffmanReader
  import opened Inflate

  // ------------------------------------------------------------ reading

  /** What a reader has still to deliver. */
  ghost function View(reader: BitReader): (input: Input)
    reads reader
    ensures input.Valid()
  {
    Input(BitsOf(reader.data), Limit(reader.data), reader.bit)
  }

  lemma SymbolIs(lengths: seq<nat>, input: Input, s: int)
    requires Accepts(lengths) && ReadsAs(lengths, input.bits, input.limit, input.at, s)
    ensures SymbolAt(lengths, input) == s
  {
    ReadsAsOne(lengths, input.bits, input.limit, input.at, SymbolAt(lengths, input), s);
  }

  /** `ReadSymbol` in terms of the input view. */
  method NextSymbol(reader: BitReader, tree: Tree) returns (ok: bool, symbol: nat)
    requires Matches(tree)
    modifies reader`bit
    ensures ok <==> SymbolAt(tree.lengths, old(View(reader))) >= 0
    ensures ok ==> symbol == SymbolAt(tree.lengths, old(View(reader))) < |tree.lengths|
    ensures ok ==> View(reader) == old(View(reader)).Skip(tree.lengths[symbol])
  {
    ok, symbol := ReadSymbol(reader, tree);
    if ok { SymbolIs(tree.lengths, old(View(reader)), symbol); }
  }

  /** `ReadBits` in terms of the input view. */
  method NextNumber(reader: BitReader, n: nat) returns (ok: bool, value: nat)
    requires n <= 24
    modifies reader`bit
    ensures ok <==> old(View(reader)).Has(n)
    ensures ok ==> value == old(View(reader)).Number(n) && View(reader) == old(View(reader)).Skip(n)
    ensures !ok ==> reader.bit == old(reader.bit)
  {
    ok, value := reader.ReadBits(n);
  }

  // ------------------------------------------------------------ output

  /** Copies a match byte by byte; a byte written may be read again. */
  method CopyMatch(output: array<byte>, produced: nat, length: nat, distance: nat)
    requires 1 <= distance <= produced && produced + length <= output.Length
    modifies output
    ensures output[..produced + length] == Copy(old(output[..produced]), length, distance)
  {
    var i := 0;
    while i < length
      invariant 0 <= i <= length
      invariant Copy(old(output[..produced]), length, distance) == Copy(output[..produced + i], length - i, distance)
    {
      ghost var sofar := output[..produced + i];
      output[produced + i] := output[produced + i - distance];
      assert output[..produced + (i + 1)] == sofar + [sofar[|sofar| - distance]];
      i := i + 1;
    }
  }

  datatype Status = Fail | End | Continue

  /** A status reports a step: where the input now stands and what has been written. */
  ghost predicate Stepped(step: Step, status: Status, rest: Input, before: seq<byte>, out: seq<byte>) {
    match step
    case Failed => status == Fail
    case Ended(rest') => status == End && rest == rest' && out == before
    case More(rest', out') => status == Continue && rest == rest' && out == out'
  }

  lemma ExtraBounds(i: nat)
    ensures i < 29 ==> LENGTH_EXTRA[i] <= 24
    ensures i < 30 ==> DISTANCE_EXTRA[i] <= 24
  {}

  // ------------------------------------------------------------ tokens

  method ReadDistance(reader: BitReader, dist: Tree, length: nat, output: array<byte>, produced: nat)
    returns (status: Status, produced': nat)
    requires Matches(dist) && produced <= output.Length
    modifies reader`bit, output
    ensures produced' <= output.Length
    ensures Stepped(DistanceStep(dist.lengths, old(View(reader)), length, old(output[..produced]), output.Length),
                    status, View(reader), old(output[..produced]), output[..produced'])
  {
    status, produced' := Fail, produced;
    var ok, symbol := NextSymbol(reader, dist);
    if !ok || symbol >= 30 {
      return;
    }
    var extra;
    ExtraBounds(symbol);
    DistancePositive(symbol);
    ok, extra := NextNumber(reader, DISTANCE_EXTRA[symbol]);
    if !ok {
      return;
    }
    var distance := DISTANCE_BASE[symbol] + extra;
    if distance > produced || length > output.Length - produced {
      return;
    }
    CopyMatch(output, produced, length, distance);
    status, produced' := Continue, produced + length;
  }

  method ReadMatch(reader: BitReader, dist: Tree, index: nat, output: array<byte>, produced: nat)
    returns (status: Status, produced': nat)
    requires Matches(dist) && index < 29 && produced <= output.Length
    modifies reader`bit, output
    ensures produced' <= output.Length
    ensures Stepped(MatchStep(dist.lengths, old(View(reader)), index, old(output[..produced]), output.Length),
                    status, View(reader), old(output[..produced]), output[..produced'])
  {
    hide DistanceStep, BitsOf, Limit, Matches, Value;
    status, produced' := Fail, produced;
    ExtraBounds(index);
    var ok, extra := NextNumber(reader, LENGTH_EXTRA[index]);
    if !ok {
      return;
    }
    status, produced' := ReadDistance(reader, dist, LENGTH_BASE[index] + extra, output, produced);
  }

  method ReadToken(reader: BitReader, lit: Tree, dist: Tree, output: array<byte>, produced: nat)
    returns (status: Status, produced': nat)
    requires Matches(lit) && Matches(dist) && produced <= output.Length
    modifies reader`bit, output
    ensures produced' <= output.Length
    ensures Stepped(TokenStep(lit.lengths, dist.lengths, old(View(reader)), old(output[..produced]), output.Length),
                    status, View(reader), old(output[..produced]), output[..produced'])
  {
    status, produced' := Fail, produced;
    var ok, symbol := NextSymbol(reader, lit);
    if !ok {
      return;
    }
    if symbol < 256 {
      if produced >= output.Length {
        return;
      }
      output[produced] := symbol;
      status, produced' := Continue, produced + 1;
    } else if symbol == 256 {
      status := End;
    } else if symbol > 285 {
      return;
    } else {
      status, produced' := ReadMatch(reader, dist, symbol - 257, output, produced);
    }
  }

  /** An outcome is reported by success, the input left over and the bytes written. */
  ghost predicate Reported(outcome: Outcome, ok: bool, rest: Input, out: seq<byte>) {
    match outcome
    case Bad => !ok
    case Good(rest', out') => ok && rest == rest' && out == out'
  }

  method ReadTokens(reader: BitReader, lit: Tree, dist: Tree, output: array<byte>, produced: nat)
    returns (ok: bool, produced': nat)
    requires Matches(lit) && Matches(dist) && produced <= output.Length
    modifies reader`bit, output
    ensures produced' <= output.Length
    ensures Reported(Tokens(lit.lengths, dist.lengths, old(View(reader)), old(output[..produced]), output.Length),
                     ok, View(reader), output[..produced'])
  {
    produced' := produced;
    ghost var goal := Tokens(lit.lengths, dist.lengths, View(reader), output[..produced], output.Length);
    while true
      invariant produced' <= output.Length
      invariant goal == Tokens(lit.lengths, dist.lengths, View(reader), output[..produced'], output.Length)
      decreases View(reader).Left()
    {
      var status;
      status, produced' := ReadToken(reader, lit, dist, output, produced');
      match status {
        case Fail => return false, produced';
        case End => return true, produced';
        case Continue =>
      }
    }
  }

  // ------------------------------------------------------------ code lengths

  ghost predicate LengthsReported(r: Lengths, ok: bool, rest: Input, lengths: seq<nat>) {
    match r
    case NoLengths => !ok
    case Lengths(rest', lengths') => ok && rest == rest' && lengths == lengths'
  }

  method ReadRun(reader: BitReader, value: nat, base: nat, extra: nat, lengths: seq<nat>, count: nat)
    returns (ok: bool, lengths': seq<nat>)
    requires extra <= 24 && |lengths| <= count
    modifies reader`bit
    ensures LengthsReported(RunStep(old(View(reader)), value, base, extra, lengths, count), ok, View(reader), lengths')
  {
    lengths' := lengths;
    var n;
    ok, n := NextNumber(reader, extra);
    if !ok {
      return;
    }
    var repeat := base + n;
    if repeat > count - |lengths| {
      return false, lengths;
    }
    lengths' := lengths + Repeated(value, repeat);
  }

  method ReadLength(reader: BitReader, cl: Tree, lengths: seq<nat>, count: nat) returns (ok: bool, lengths': seq<nat>)
    requires Matches(cl) && |lengths| < count
    modifies reader`bit
    ensures LengthsReported(LengthStep(cl.lengths, old(View(reader)), lengths, count), ok, View(reader), lengths')
    ensures ok ==> |lengths'| <= count
  {
    lengths' := lengths;
    var symbol;
    ok, symbol := NextSymbol(reader, cl);
    if !ok {
      return;
    }
    if symbol < 16 {
      lengths' := lengths + [symbol];
    } else if symbol == 16 {
      if lengths == [] {
        return false, lengths;
      }
      ok, lengths' := ReadRun(reader, lengths[|lengths| - 1], 3, 2, lengths, count);
    } else if symbol == 17 {
      ok, lengths' := ReadRun(reader, 0, 3, 3, lengths, count);
    } else if symbol == 18 {
      ok, lengths' := ReadRun(reader, 0, 11, 7, lengths, count);
    } else {
      ok := false;
    }
  }

  method ReadCodeLengths(reader: BitReader, cl: Tree, count: nat) returns (ok: bool, lengths: seq<nat>)
    requires Matches(cl)
    modifies reader`bit
    ensures LengthsReported(CodeLengths(cl.lengths, old(View(reader)), [], count), ok, View(reader), lengths)
    ensures ok ==> |lengths| == count
  {
    ok, lengths := true, [];
    ghost var goal := CodeLengths(cl.lengths, View(reader), [], count);
    while |lengths| < count
      invariant ok && |lengths| <= count
      invariant goal == CodeLengths(cl.lengths, View(reader), lengths, count)
      decreases View(reader).Left()
    {
      ok, lengths := ReadLength(reader, cl, lengths, count);
      if !ok {
        return;
      }
    }
  }

  // ------------------------------------------------------------ tables

  /** The three-bit lengths of the code length code. */
  method ReadCodeCode(reader: BitReader, n: nat) returns (ok: bool, cl: seq<nat>)
    requires n <= 19
    modifies reader`bit
    ensures ok <==> old(View(reader)).Has(3 * n)
    ensures ok ==> cl == CodeCode(old(View(reader)), n) && View(reader) == old(View(reader)).Skip(3 * n)
  {
    hide BitsOf, Value, Limit;
    cl := Repeated(0, 19);
    var i := 0;
    ok := reader.bit <= Limit(reader.data);
    while i < n
      invariant 0 <= i <= n
      invariant i > 0 ==> ok
      invariant ok <==> old(View(reader)).Has(3 * i)
      invariant View(reader) == old(View(reader)).Skip(3 * i)
      invariant ok ==> cl == CodeCode(old(View(reader)), i)
    {
      var value;
      ok, value := NextNumber(reader, 3);
      if !ok {
        return;
      }
      OrderBelow(i);
      cl := cl[ORDER[i] := value];
      i := i + 1;
    }
  }

  ghost predicate TablesReported(t: Tables, ok: bool, rest: Input, lit: Tree, dist: Tree) {
    match t
    case NoTables => !ok
    case Tables(rest', lit', dist') => ok && rest == rest' && lit.lengths == lit' && dist.lengths == dist'
  }

  method ReadTables(reader: BitReader, cl: seq<nat>, hlit: nat, hdist: nat) returns (ok: bool, lit: Tree, dist: Tree)
    modifies reader`bit
    ensures TablesReported(TablesFrom(cl, old(View(reader)), hlit, hdist), ok, View(reader), lit, dist)
    ensures ok ==> Matches(lit) && Matches(dist)
  {
    lit, dist := Tree([], []), Tree([], []);
    var tree, lengths;
    ok, tree := Build(cl);
    if !ok {
      return;
    }
    ok, lengths := ReadCodeLengths(reader, tree, hlit + hdist);
    if !ok {
      return;
    }
    ok, lit := Build(lengths[..hlit]);
    if !ok {
      return;
    }
    ok, dist := Build(lengths[hlit..hlit + hdist]);
  }

  method ReadDynamicTables(reader: BitReader) returns (ok: bool, lit: Tree, dist: Tree)
    modifies reader`bit
    ensures TablesReported(DynamicTables(old(View(reader))), ok, View(reader), lit, dist)
    ensures ok ==> Matches(lit) && Matches(dist)
  {
    hide TablesFrom, CodeCode, BitsOf, Limit, Matches, Value;
    lit, dist := Tree([], []), Tree([], []);
    var hlit, hdist, hclen, cl;
    ok, hlit := NextNumber(reader, 5);
    if !ok {
      return;
    }
    ok, hdist := NextNumber(reader, 5);
    if !ok {
      return;
    }
    ok, hclen := NextNumber(reader, 4);
    if !ok {
      return;
    }
    FourBits(old(View(reader)));
    ok, cl := ReadCodeCode(reader, hclen + 4);
    if !ok {
      return;
    }
    ok, lit, dist := ReadTables(reader, cl, hlit + 257, hdist + 1);
  }

  lemma FourBits(input: Input)
    requires input.Valid() && input.Has(14)
    ensures input.Skip(10).Number(4) < 16
  {
    ValueBound(input.bits[input.at + 10..input.at + 14]);
    assert Pow2(4) == 16;
  }

  // ------------------------------------------------------------ blocks

  /** Both trees of the fixed code. */
  method FixedTrees() returns (ok: bool, lit: Tree, dist: Tree)
    ensures ok && Matches(lit) && Matches(dist)
    ensures lit.lengths == FixedLit() && dist.lengths == FixedDist()
  {
    FixedAccepted();
    ok, lit := Build(FixedLit());
    ok, dist := Build(FixedDist());
  }

  lemma BytesStep(input: Input, n: nat)
    requires input.Valid() && input.Has(8 * (n + 1))
    ensures input.Skip(8 * n).Number(8) < 256
    ensures Bytes(input, n + 1) == Bytes(input, n) + [input.Skip(8 * n).Number(8)]
  {
    ValueBound(input.bits[input.at + 8 * n..input.at + 8 * n + 8]);
    assert Pow2(8) == 256;
  }

  lemma NoBytes(input: Input)
    requires input.Valid() && input.Has(0)
    ensures Bytes(input, 0) == []
  {}

  /** The bytes of a stored block, one at a time. */
  method ReadBytes(reader: BitReader, n: nat, output: array<byte>, produced: nat) returns (ok: bool)
    requires produced + n <= output.Length && reader.bit <= Limit(reader.data)
    modifies reader`bit, output
    ensures ok <==> old(View(reader)).Has(8 * n)
    ensures ok ==> View(reader) == old(View(reader)).Skip(8 * n)
    ensures ok ==> output[..produced + n] == old(output[..produced]) + Bytes(old(View(reader)), n)
  {
    hide BitsOf, Limit, Value, Bytes;
    ok := true;
    NoBytes(View(reader));
    var i := 0;
    while i < n
      invariant 0 <= i <= n && ok
      invariant old(View(reader)).Has(8 * i) && View(reader) == old(View(reader)).Skip(8 * i)
      invariant output[..produced + i] == old(output[..produced]) + Bytes(old(View(reader)), i)
    {
      var value;
      ok, value := NextNumber(reader, 8);
      if !ok {
        return;
      }
      BytesStep(old(View(reader)), i);
      ghost var sofar := output[..produced + i];
      output[produced + i] := value;
      assert output[..produced + (i + 1)] == sofar + [value];
      i := i + 1;
    }
  }

  /**
   * A stored block. The length check of the decoder subtracts in 32 bits and may pass for a block
   * that is too long; the bytes themselves then run out.
   */
  method ReadStored(reader: BitReader, output: array<byte>, produced: nat) returns (ok: bool, produced': nat)
    requires produced <= output.Length && reader.bit <= Limit(reader.data)
    modifies reader`bit, output
    ensures produced' <= output.Length
    ensures Reported(StoredBlock(old(View(reader)), old(output[..produced]), output.Length), ok, View(reader),
                     output[..produced'])
  {
    hide BitsOf, Value, Bytes, Limit;
    produced' := produced;
    LimitWholeBytes(reader.data);
    reader.bit := Aligned(reader.bit);
    var length, inverse;
    ok, length := NextNumber(reader, 16);
    if !ok {
      return;
    }
    ok, inverse := NextNumber(reader, 16);
    if !ok {
      return;
    }
    SixteenBits(old(View(reader)));
    var room := (Limit(reader.data) - 8 * length) % 0x1_0000_0000;
    if length + inverse != 0xffff || length > output.Length - produced || reader.bit > room {
      return false, produced;
    }
    ok := ReadBytes(reader, length, output, produced);
    if ok {
      produced' := produced + length;
    }
  }

  lemma SixteenBits(input: Input)
    requires input.Valid() && Aligned(input.at) + 32 <= input.limit
    ensures input.(at := Aligned(input.at)).Number(16) < 65536
  {
    var a := Aligned(input.at);
    ValueBound(input.bits[a..a + 16]);
    assert Pow2(8) == 256;
    Pow2Add(8, 8);
  }

  method ReadCompressed(reader: BitReader, kind: nat, output: array<byte>, produced: nat)
    returns (ok: bool, produced': nat)
    requires produced <= output.Length
    modifies reader`bit, output
    ensures produced' <= output.Length
    ensures Reported(CompressedBlock(kind, old(View(reader)), old(output[..produced]), output.Length),
                     ok, View(reader), output[..produced'])
  {
    produced' := produced;
    var lit, dist;
    if kind == 1 {
      ok, lit, dist := FixedTrees();
    } else if kind == 2 {
      ok, lit, dist := ReadDynamicTables(reader);
    } else {
      return false, produced;
    }
    if !ok {
      return;
    }
    ok, produced' := ReadTokens(reader, lit, dist, output, produced);
  }

  /** Blocks until the final one. */
  method ReadBlocks(reader: BitReader, output: array<byte>) returns (ok: bool, produced: nat)
    modifies reader`bit, output
    ensures produced <= output.Length
    ensures Reported(Blocks(old(View(reader)), [], output.Length), ok, View(reader), output[..produced])
  {
    produced := 0;
    ghost var goal := Blocks(View(reader), [], output.Length);
    assert output[..0] == [];
    var final := 0;
    while true
      invariant produced <= output.Length
      invariant goal == Blocks(View(reader), output[..produced], output.Length)
      decreases View(reader).Left()
    {
      ghost var input := View(reader);
      var kind;
      ok, final := NextNumber(reader, 1);
      if !ok {
        return;
      }
      ok, kind := NextNumber(reader, 2);
      if !ok {
        return;
      }
      OneBit(input);
      if kind == 0 {
        ok, produced := ReadStored(reader, output, produced);
      } else {
        ok, produced := ReadCompressed(reader, kind, output, produced);
      }
      if !ok || final != 0 {
        return;
      }
    }
  }

  lemma OneBit(input: Input)
    requires input.Valid() && input.Has(1)
    ensures input.Number(1) != 0 <==> input.bits[input.at]
  {
    var one := input.bits[input.at..input.at + 1];
    assert one[1..] == [];
    assert Value(one) == Digit(one[0]) + 2 * Value([]);
  }

  // ------------------------------------------------------------ the container

  lemma AdlerStart()
    ensures AdlerA([]) == 1 && AdlerB([]) == 0
  {}

  lemma AdlerStep(data: seq<byte>, i: nat)
    requires i < |data|
    ensures AdlerA(data[..i + 1]) == AdlerA(data[..i]) + data[i]
    ensures AdlerB(data[..i + 1]) == AdlerB(data[..i]) + AdlerA(data[..i + 1])
  {
    assert data[..i + 1][..i] == data[..i];
  }

  /** Adler-32 with a reduction at every byte. */
  method Adler32(data: seq<byte>) returns (v: nat)
    ensures v == Adler(data)
  {
    hide AdlerA, AdlerB;
    AdlerStart();
    var a: int, b: int, i := 1, 0, 0;
    while i < |data|
      invariant 0 <= i <= |data|
      invariant a == AdlerA(data[..i]) % 65521 && b == AdlerB(data[..i]) % 65521
    {
      AdlerStep(data, i);
      a := (a + data[i]) % 65521;
      b := (b + a) % 65521;
      i := i + 1;
    }
    assert data[..|data|] == data;
    v := b * 65536 + a;
  }

  /** The whole decoder, into a buffer whose length is its capacity. */
  method ZlibInflate(input: seq<byte>, output: array<byte>) returns (ok: bool, size: nat)
    modifies output
    ensures size <= output.Length
    ensures ok <==> Decompressed(input, output.Length).Inflated?
    ensures ok ==> Decompressed(input, output.Length) == Inflated(output[..size])
  {
    size := 0;
    if |input| < 6 || output.Length == 0 || input[0] % 16 != 8 || input[0] / 16 > 7 || input[1] / 32 % 2 != 0
       || (input[0] as int * 256 + input[1]) % 31 != 0 {
      return false, 0;
    }
    var reader := new BitReader(input[2..|input| - 4]);
    var produced;
    ok, produced := ReadBlocks(reader, output);
    if !ok {
      return;
    }
    var sum := Adler32(output[..produced]);
    if sum != BigEndian32(input[|input| - 4..]) {
      return false, 0;
    }
    size := produced;
  }
}
