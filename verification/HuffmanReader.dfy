/** The bit reader and the table-driven side of Huffman decoding. */
module HuffmanReader {
  import opened Bits
  import opened Huffman

  // ------------------------------------------------------------ bits

  class BitReader {
    const data: seq<byte>
    var bit: nat

    constructor (data: seq<byte>)
      ensures this.data == data && bit == 0
    {
      this.data := data;
      bit := 0;
    }

    /** Reads up to 24 bits, low bit first, or leaves the position alone. */
    method ReadBits(count: nat) returns (ok: bool, value: nat)
      modifies this`bit
      ensures ok <==> count <= 24 && old(bit) + count <= Limit(data)
      ensures ok ==> bit == old(bit) + count && value == Value(BitsOf(data)[old(bit)..bit])
      ensures !ok ==> bit == old(bit)
    {
      value := 0;
      if count > 24 || bit > Limit(data) || count > Limit(data) - bit {
        return false, 0;
      }
      var i := 0;
      while i < count
        invariant 0 <= i <= count && bit == old(bit) + i
        invariant value == Value(BitsOf(data)[old(bit)..bit])
      {
        AppendBit(BitsOf(data), old(bit), bit);
        value := value + Shr(data[bit / 8], bit % 8) % 2 * Pow2(i);
        i, bit := i + 1, bit + 1;
      }
      ok := true;
    }
  }

  /** One more bit at the top of the number read. */
  lemma AppendBit(bits: seq<bool>, from: nat, at: nat)
    requires from <= at < |bits|
    ensures Value(bits[from..at + 1]) == Value(bits[from..at]) + Digit(bits[at]) * Pow2(at - from)
  {
    assert bits[from..at + 1] == bits[from..at] + [bits[at]];
    ValueAppend(bits[from..at], [bits[at]]);
  }

  // ------------------------------------------------------------ building

  datatype Tree = Tree(lengths: seq<nat>, codes: seq<nat>)

  /** The stored code of a symbol is its codeword as read by the bit reader. */
  ghost predicate Matches(tree: Tree) {
    && Accepts(tree.lengths) && |tree.codes| == |tree.lengths|
    && forall i :: 0 <= i < |tree.codes| ==> tree.codes[i] == StoredCode(tree.lengths, i)
  }

  function StoredCode(lengths: seq<nat>, i: nat): (c: nat)
    requires i < |lengths|
  {
    if lengths[i] == 0 then 0 else Value(Codeword(lengths, i))
  }

  lemma {:induction false} MsbFront(v: nat, n: nat)
    ensures MsbBits(v, n + 1) == [Shr(v, n) % 2 == 1] + MsbBits(v, n)
  {
    if n > 0 {
      MsbFront(v / 2, n - 1);
    }
  }

  method ReverseBits(value: nat, count: nat) returns (result: nat)
    ensures result == Value(MsbBits(value, count))
  {
    result := 0;
    var v, i := value, 0;
    while i < count
      invariant 0 <= i <= count && v == Shr(value, i)
      invariant result == Value(MsbBits(value, i))
    {
      MsbFront(value, i);
      ShrShr(value, i, 1);
      result := result * 2 + v % 2;
      v, i := v / 2, i + 1;
    }
  }

  /** The symbols of each length, or a length out of range. */
  method CountLengths(lengths: seq<nat>, counts: array<nat>) returns (ok: bool)
    requires counts.Length == 16 && forall l :: 0 <= l < 16 ==> counts[l] == 0
    modifies counts
    ensures ok <==> forall i :: 0 <= i < |lengths| ==> lengths[i] <= MAX_LENGTH
    ensures ok ==> forall l :: 0 <= l < 16 ==> counts[l] == Total(lengths, l)
  {
    var i := 0;
    while i < |lengths|
      invariant 0 <= i <= |lengths|
      invariant forall k :: 0 <= k < i ==> lengths[k] <= MAX_LENGTH
      invariant forall l :: 0 <= l < 16 ==> counts[l] == Count(lengths, l, i)
    {
      if lengths[i] > MAX_LENGTH {
        return false;
      }
      if lengths[i] != 0 {
        counts[lengths[i]] := counts[lengths[i]] + 1;
      }
      i := i + 1;
    }
    ok := true;
  }

  lemma FirstStep(lengths: seq<nat>, l: nat)
    ensures First(lengths, 0) == 0
    ensures First(lengths, l + 1) == (First(lengths, l) + Total(lengths, l)) * 2
    ensures Count(lengths, l, 0) == 0
  {}

  /** The first code of each length, or a length with too many codes. */
  method FirstCodes(ghost lengths: seq<nat>, counts: array<nat>, next: array<nat>) returns (ok: bool)
    requires counts.Length == next.Length == 16 && counts != next
    requires forall l :: 0 <= l < 16 ==> counts[l] == Total(lengths, l)
    modifies next
    ensures ok <==> forall l :: 1 <= l <= MAX_LENGTH ==> Fits(lengths, l)
    ensures ok ==> NextCodes(lengths, next[..], 0)
  {
    hide First, Total, Pow2;
    var code, bits := 0, 1;
    FirstStep(lengths, 0);
    while bits <= MAX_LENGTH
      invariant 1 <= bits <= MAX_LENGTH + 1
      invariant forall l :: 0 <= l < 16 ==> counts[l] == Total(lengths, l)
      invariant code == First(lengths, bits - 1)
      invariant forall l :: 1 <= l < bits ==> next[l] == First(lengths, l) && Fits(lengths, l)
    {
      FirstStep(lengths, bits - 1);
      code := (code + counts[bits - 1]) * 2;
      next[bits] := code;
      assert Fits(lengths, bits) <==> code + counts[bits] <= Pow2(bits);
      if code + counts[bits] > Pow2(bits) {
        return false;
      }
      bits := bits + 1;
    }
    ok := true;
  }

  /** `next` holds the code that the next symbol of each length will get. */
  ghost predicate NextCodes(lengths: seq<nat>, next: seq<nat>, i: nat) {
    && |next| == 16 && i <= |lengths|
    && forall l :: 1 <= l <= MAX_LENGTH ==> next[l] == First(lengths, l) + Count(lengths, l, i)
  }

  lemma NextCodesStep(lengths: seq<nat>, next: seq<nat>, i: nat)
    requires i < |lengths| && lengths[i] <= MAX_LENGTH && NextCodes(lengths, next, i)
    ensures lengths[i] > 0 ==> next[lengths[i]] == Code(lengths, i)
    ensures NextCodes(lengths, if lengths[i] > 0 then next[lengths[i] := next[lengths[i]] + 1] else next, i + 1)
  {}

  /** The code of each symbol, reversed into reading order. */
  method AssignCodes(lengths: seq<nat>, next: array<nat>) returns (codes: seq<nat>)
    requires next.Length == 16 && forall i :: 0 <= i < |lengths| ==> lengths[i] <= MAX_LENGTH
    requires NextCodes(lengths, next[..], 0)
    modifies next
    ensures |codes| == |lengths|
    ensures forall i :: 0 <= i < |codes| ==> codes[i] == StoredCode(lengths, i)
  {
    hide NextCodes, First, Count;
    codes := [];
    var i := 0;
    while i < |lengths|
      invariant 0 <= i <= |lengths| && |codes| == i
      invariant NextCodes(lengths, next[..], i)
      invariant forall k :: 0 <= k < i ==> codes[k] == StoredCode(lengths, k)
    {
      NextCodesStep(lengths, next[..], i);
      ghost var before := next[..];
      var code := 0;
      if lengths[i] != 0 {
        code := ReverseBits(next[lengths[i]], lengths[i]);
        next[lengths[i]] := next[lengths[i]] + 1;
      }
      assert next[..] == if lengths[i] > 0 then before[lengths[i] := before[lengths[i]] + 1] else before;
      codes, i := codes + [code], i + 1;
    }
  }

  /** Builds the decoding table of a length vector, if there is one. */
  method Build(lengths: seq<nat>) returns (ok: bool, tree: Tree)
    ensures ok <==> Accepts(lengths)
    ensures ok ==> tree.lengths == lengths && Matches(tree)
  {
    tree := Tree([], []);
    if |lengths| == 0 || |lengths| > 288 {
      return false, tree;
    }
    var counts, next := new nat[16](_ => 0), new nat[16](_ => 0);
    ok := CountLengths(lengths, counts);
    if !ok {
      return;
    }
    ok := FirstCodes(lengths, counts, next);
    if !ok {
      return;
    }
    var codes := AssignCodes(lengths, next);
    tree := Tree(lengths, codes);
  }

  // ------------------------------------------------------------ reading

  /** The codeword of `symbol` stands at `at`, before the end of the input. */
  ghost predicate ReadsAs(lengths: seq<nat>, bits: seq<bool>, limit: nat, at: nat, symbol: int) {
    && 0 <= symbol < |lengths| && lengths[symbol] > 0
    && at + lengths[symbol] <= limit <= |bits|
    && bits[at..at + lengths[symbol]] == Codeword(lengths, symbol)
  }

  /** Decoding is unambiguous. */
  lemma ReadsAsOne(lengths: seq<nat>, bits: seq<bool>, limit: nat, at: nat, a: int, b: int)
    requires Accepts(lengths) && ReadsAs(lengths, bits, limit, at, a) && ReadsAs(lengths, bits, limit, at, b)
    ensures a == b
  {
    var i, j := if lengths[a] <= lengths[b] then a else b, if lengths[a] <= lengths[b] then b else a;
    assert Codeword(lengths, j)[..lengths[i]] == bits[at..at + lengths[i]];
    PrefixFree(lengths, i, j);
  }

  /** Comparing numbers of one length is comparing bit strings. */
  lemma SameCode(tree: Tree, i: nat, bits: seq<bool>)
    requires Matches(tree) && i < |tree.lengths| && tree.lengths[i] == |bits| > 0
    ensures tree.codes[i] == Value(bits) <==> bits == Codeword(tree.lengths, i)
  {
    if tree.codes[i] == Value(bits) { ValueInjective(bits, Codeword(tree.lengths, i)); }
  }

  /** The linear search for a symbol of the given length and code. */
  method FindCode(tree: Tree, length: nat, code: nat, ghost bits: seq<bool>) returns (found: bool, symbol: nat)
    requires Matches(tree) && length == |bits| > 0 && code == Value(bits)
    ensures found ==>
      symbol < |tree.lengths| && tree.lengths[symbol] == length && bits == Codeword(tree.lengths, symbol)
    ensures !found ==> forall i ::
      0 <= i < |tree.lengths| && tree.lengths[i] == length ==> bits != Codeword(tree.lengths, i)
  {
    symbol := 0;
    while symbol < |tree.lengths|
      invariant 0 <= symbol <= |tree.lengths|
      invariant forall i :: 0 <= i < symbol && tree.lengths[i] == length ==> bits != Codeword(tree.lengths, i)
    {
      if tree.lengths[symbol] == length {
        SameCode(tree, symbol, bits);
        if tree.codes[symbol] == code {
          return true, symbol;
        }
      }
      symbol := symbol + 1;
    }
    found := false;
  }

  /** Reads one symbol bit by bit; fails exactly when no codeword stands at the position. */
  method ReadSymbol(reader: BitReader, tree: Tree) returns (ok: bool, symbol: nat)
    requires Matches(tree)
    modifies reader`bit
    ensures ok ==> ReadsAs(tree.lengths, BitsOf(reader.data), Limit(reader.data), old(reader.bit), symbol)
    ensures ok ==> reader.bit == old(reader.bit) + tree.lengths[symbol]
    ensures !ok ==> forall s :: !ReadsAs(tree.lengths, BitsOf(reader.data), Limit(reader.data), old(reader.bit), s)
  {
    hide Value, BitsOf, Limit, Codeword, StoredCode;
    symbol := 0;
    var code: nat, length: nat := 0, 1;
    ghost var bits, at := BitsOf(reader.data), reader.bit;
    while length <= MAX_LENGTH
      invariant 1 <= length <= MAX_LENGTH + 1
      invariant reader.bit == at + (length - 1)
      invariant ReadSoFar(bits, Limit(reader.data), at, length - 1, code)
      invariant forall s :: 0 <= s < |tree.lengths| && tree.lengths[s] < length ==>
        !ReadsAs(tree.lengths, bits, Limit(reader.data), at, s)
    {
      var bit;
      ok, bit := reader.ReadBits(1);
      if !ok {
        return;
      }
      ReadOneMore(bits, Limit(reader.data), at, length - 1, code, bit);
      code := code + bit * Pow2(length - 1);
      ok, symbol := FindCode(tree, length, code, bits[at..at + length]);
      if ok {
        return;
      }
      length := length + 1;
    }
    ok := false;
  }

  /** `code` is the number in the first `n` bits from `at` on. */
  ghost predicate ReadSoFar(bits: seq<bool>, limit: nat, at: nat, n: nat, code: nat) {
    if n == 0 then code == 0 else at + n <= limit <= |bits| && code == Value(bits[at..at + n])
  }

  lemma ReadOneMore(bits: seq<bool>, limit: nat, at: nat, n: nat, code: nat, bit: nat)
    requires ReadSoFar(bits, limit, at, n, code) && at + n + 1 <= limit <= |bits|
    requires bit == Value(bits[at + n..at + n + 1])
    ensures ReadSoFar(bits, limit, at, n + 1, code + bit * Pow2(n))
  {
    assert bits[at + n..at + n + 1] == [bits[at + n]];
    AppendBit(bits, at, at + n);
    assert bits[at..at] == [];
  }
}
