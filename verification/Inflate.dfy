/** The DEFLATE format as a partial function from bits to bytes. */
module Inflate {
  import opened Bits
  import opened Huffman
  import opened HuffmanReader

  const LENGTH_BASE: seq<nat> :=
    [3, 4, 5, 6, 7, 8, 9, 10, 11, 13, 15, 17, 19, 23, 27, 31, 35, 43, 51, 59, 67, 83, 99, 115, 131, 163, 195, 227, 258]
  const LENGTH_EXTRA: seq<nat> :=
    [0, 0, 0, 0, 0, 0, 0, 0, 1, 1, 1, 1, 2, 2, 2, 2, 3, 3, 3, 3, 4, 4, 4, 4, 5, 5, 5, 5, 0]
  const DISTANCE_BASE: seq<nat> :=
    [1, 2, 3, 4, 5, 7, 9, 13, 17, 25, 33, 49, 65, 97, 129, 193, 257, 385, 513, 769, 1025, 1537, 2049, 3073, 4097, 6145,
     8193, 12289, 16385, 24577]
  const DISTANCE_EXTRA: seq<nat> :=
    [0, 0, 0, 0, 1, 1, 2, 2, 3, 3, 4, 4, 5, 5, 6, 6, 7, 7, 8, 8, 9, 9, 10, 10, 11, 11, 12, 12, 13, 13]
  const ORDER: seq<nat> := [16, 17, 18, 0, 8, 7, 9, 6, 10, 5, 11, 4, 12, 3, 13, 2, 14, 1, 15]

  // ------------------------------------------------------------ the input

  /** The bits still to be read: a bit string, how much of it counts, and the position. */
  datatype Input = Input(bits: seq<bool>, limit: nat, at: nat) {
    predicate Valid() { limit <= |bits| }
    predicate Has(n: nat) { at + n <= limit }
    function Skip(n: nat): (i: Input) { this.(at := at + n) }
    function Left(): (n: nat) { if at <= limit then limit - at else 0 }
    function Number(n: nat): (v: nat)
      requires Valid() && Has(n)
    {
      Value(bits[at..at + n])
    }
  }

  /** The symbol standing at the position, or -1. */
  ghost function SymbolAt(lengths: seq<nat>, input: Input): (s: int)
    ensures s >= 0 ==> ReadsAs(lengths, input.bits, input.limit, input.at, s)
    ensures s < 0 ==> forall t :: !ReadsAs(lengths, input.bits, input.limit, input.at, t)
  {
    if exists t :: ReadsAs(lengths, input.bits, input.limit, input.at, t)
    then var t :| ReadsAs(lengths, input.bits, input.limit, input.at, t); t
    else -1
  }

  // ------------------------------------------------------------ compressed data

  /** Appends `n` bytes, each a copy of the byte `distance` before it; the source may overlap the copy. */
  function Copy(out: seq<byte>, n: nat, distance: nat): (r: seq<byte>)
    requires 1 <= distance <= |out|
    ensures |r| == |out| + n
    decreases n
  {
    if n == 0 then out else Copy(out + [out[|out| - distance]], n - 1, distance)
  }

  datatype Step = Failed | Ended(rest: Input) | More(rest: Input, out: seq<byte>)

  lemma DistancePositive(d: nat)
    requires d < 30
    ensures DISTANCE_BASE[d] >= 1
  {}

  /** The distance half of a match. */
  ghost function DistanceStep(dist: seq<nat>, input: Input, length: nat, out: seq<byte>, capacity: nat): (s: Step)
    requires input.Valid()
    ensures !s.Ended?
    ensures s.More? ==> s.rest.Valid() && s.rest.Left() < input.Left() && |s.out| <= capacity
  {
    var d := SymbolAt(dist, input);
    if d < 0 || d >= 30 then Failed
    else
      var tail := input.Skip(dist[d]);
      if !tail.Has(DISTANCE_EXTRA[d]) then Failed
      else
        var distance := DISTANCE_BASE[d] + tail.Number(DISTANCE_EXTRA[d]);
        DistancePositive(d);
        if distance > |out| || |out| + length > capacity then Failed
        else More(tail.Skip(DISTANCE_EXTRA[d]), Copy(out, length, distance))
  }

  ghost function MatchStep(dist: seq<nat>, input: Input, index: nat, out: seq<byte>, capacity: nat): (s: Step)
    requires input.Valid() && index < 29
    ensures !s.Ended?
    ensures s.More? ==> s.rest.Valid() && s.rest.Left() < input.Left() && |s.out| <= capacity
  {
    if !input.Has(LENGTH_EXTRA[index]) then Failed
    else
      DistanceStep(dist, input.Skip(LENGTH_EXTRA[index]),
                   LENGTH_BASE[index] + input.Number(LENGTH_EXTRA[index]), out, capacity)
  }

  /** One literal, match or end mark. */
  ghost function TokenStep(lit: seq<nat>, dist: seq<nat>, input: Input, out: seq<byte>, capacity: nat): (s: Step)
    requires input.Valid()
    ensures !s.Failed? ==> s.rest.Valid() && s.rest.Left() < input.Left()
    ensures s.More? ==> |s.out| <= capacity
  {
    var symbol := SymbolAt(lit, input);
    if symbol < 0 then Failed
    else
      var tail := input.Skip(lit[symbol]);
      if symbol < 256 then if |out| >= capacity then Failed else More(tail, out + [symbol])
      else if symbol == 256 then Ended(tail)
      else if symbol > 285 then Failed
      else MatchStep(dist, tail, symbol - 257, out, capacity)
  }

  datatype Outcome = Bad | Good(rest: Input, out: seq<byte>)

  /** Tokens up to the end mark. */
  ghost function Tokens(lit: seq<nat>, dist: seq<nat>, input: Input, out: seq<byte>, capacity: nat): (r: Outcome)
    requires input.Valid()
    ensures r.Good? ==> r.rest.Valid() && r.rest.Left() < input.Left()
    ensures r.Good? && |out| <= capacity ==> |r.out| <= capacity
    decreases input.Left()
  {
    match TokenStep(lit, dist, input, out, capacity)
    case Failed => Bad
    case Ended(rest) => Good(rest, out)
    case More(rest, out') => Tokens(lit, dist, rest, out', capacity)
  }

  // ------------------------------------------------------------ code tables

  function Repeated(v: nat, n: nat): (s: seq<nat>)
    ensures |s| == n
  {
    seq(n, i => v)
  }

  datatype Lengths = NoLengths | Lengths(rest: Input, lengths: seq<nat>)

  /** A run of `base` plus `extra` bits' worth of equal lengths. */
  function RunStep(input: Input, value: nat, base: nat, extra: nat, lengths: seq<nat>, count: nat): (r: Lengths)
    requires input.Valid()
    ensures r.Lengths? ==> r.rest.Valid() && r.rest.Left() <= input.Left()
  {
    if !input.Has(extra) then NoLengths
    else
      var n := base + input.Number(extra);
      if n > count - |lengths| then NoLengths else Lengths(input.Skip(extra), lengths + Repeated(value, n))
  }

  ghost function LengthStep(cl: seq<nat>, input: Input, lengths: seq<nat>, count: nat): (r: Lengths)
    requires input.Valid()
    ensures r.Lengths? ==> r.rest.Valid() && r.rest.Left() < input.Left()
  {
    var symbol := SymbolAt(cl, input);
    if symbol < 0 then NoLengths
    else
      var tail := input.Skip(cl[symbol]);
      if symbol < 16 then Lengths(tail, lengths + [symbol])
      else if symbol == 16 then
        if lengths == [] then NoLengths else RunStep(tail, lengths[|lengths| - 1], 3, 2, lengths, count)
      else if symbol == 17 then RunStep(tail, 0, 3, 3, lengths, count)
      else if symbol == 18 then RunStep(tail, 0, 11, 7, lengths, count)
      else NoLengths
  }

  /** Code lengths until there are `count` of them. */
  ghost function CodeLengths(cl: seq<nat>, input: Input, lengths: seq<nat>, count: nat): (r: Lengths)
    requires input.Valid()
    ensures r.Lengths? ==> r.rest.Valid() && r.rest.Left() <= input.Left() && |r.lengths| >= count
    decreases input.Left()
  {
    if |lengths| >= count then Lengths(input, lengths)
    else
      match LengthStep(cl, input, lengths, count)
      case NoLengths => NoLengths
      case Lengths(rest, lengths') => CodeLengths(cl, rest, lengths', count)
  }

  /** The first `n` three-bit lengths of the code length code, put in their places. */
  function CodeCode(input: Input, n: nat): (cl: seq<nat>)
    requires input.Valid() && n <= 19 && input.Has(3 * n)
    ensures |cl| == 19
  {
    if n == 0 then Repeated(0, 19)
    else
      OrderBelow(n - 1);
      CodeCode(input, n - 1)[ORDER[n - 1] := Value(input.bits[input.at + 3 * (n - 1)..input.at + 3 * n])]
  }

  lemma OrderBelow(i: nat)
    requires i < 19
    ensures ORDER[i] < 19
  {}

  datatype Tables = NoTables | Tables(rest: Input, lit: seq<nat>, dist: seq<nat>)

  /** The tables behind a complete code length code. */
  ghost function TablesFrom(cl: seq<nat>, input: Input, hlit: nat, hdist: nat): (t: Tables)
    requires input.Valid()
    ensures t.Tables? ==> t.rest.Valid() && t.rest.Left() <= input.Left() && Accepts(t.lit) && Accepts(t.dist)
  {
    if !Accepts(cl) then NoTables
    else
      match CodeLengths(cl, input, [], hlit + hdist)
      case NoLengths => NoTables
      case Lengths(rest, lengths) =>
        var lit, dist := lengths[..hlit], lengths[hlit..hlit + hdist];
        if Accepts(lit) && Accepts(dist) then Tables(rest, lit, dist) else NoTables
  }

  ghost function DynamicTables(input: Input): (t: Tables)
    requires input.Valid()
    ensures t.Tables? ==> t.rest.Valid() && t.rest.Left() <= input.Left() && Accepts(t.lit) && Accepts(t.dist)
  {
    if !input.Has(14) then NoTables
    else
      var hlit, hdist, hclen := input.Number(5) + 257, input.Skip(5).Number(5) + 1, input.Skip(10).Number(4) + 4;
      var tail := input.Skip(14);
      ValueBound(input.bits[input.at + 10..input.at + 14]);
      assert Pow2(4) == 16;
      if !tail.Has(3 * hclen) then NoTables
      else TablesFrom(CodeCode(tail, hclen), tail.Skip(3 * hclen), hlit, hdist)
  }

  function FixedLit(): (lengths: seq<nat>)
    ensures |lengths| == 288
  {
    seq(288, i => if i < 144 then 8 else if i < 256 then 9 else if i < 280 then 7 else 8)
  }

  function FixedDist(): (lengths: seq<nat>)
    ensures |lengths| == 32
  {
    seq(32, i => 5)
  }

  // ------------------------------------------------------------ blocks

  function Aligned(at: nat): (a: nat)
    ensures at <= a < at + 8 && a % 8 == 0
  {
    (at + 7) / 8 * 8
  }

  /** `n` whole bytes. */
  function Bytes(input: Input, n: nat): (data: seq<byte>)
    requires input.Valid() && input.Has(8 * n)
    ensures |data| == n
  {
    if n == 0 then []
    else
      var last := input.bits[input.at + 8 * (n - 1)..input.at + 8 * n];
      ValueBound(last);
      assert Pow2(8) == 256;
      Bytes(input, n - 1) + [Value(last)]
  }

  ghost function StoredBlock(input: Input, out: seq<byte>, capacity: nat): (r: Outcome)
    requires input.Valid()
    ensures r.Good? ==> r.rest.Valid() && r.rest.Left() <= input.Left()
    ensures r.Good? && |out| <= capacity ==> |r.out| <= capacity
  {
    var head := input.(at := Aligned(input.at));
    if !head.Has(32) then Bad
    else
      var n, inverse := head.Number(16), head.Skip(16).Number(16);
      var body := head.Skip(32);
      if n + inverse != 0xffff || |out| + n > capacity || !body.Has(8 * n) then Bad
      else Good(body.Skip(8 * n), out + Bytes(body, n))
  }

  ghost function CompressedBlock(kind: nat, input: Input, out: seq<byte>, capacity: nat): (r: Outcome)
    requires input.Valid()
    ensures r.Good? ==> r.rest.Valid() && r.rest.Left() <= input.Left()
    ensures r.Good? && |out| <= capacity ==> |r.out| <= capacity
  {
    if kind == 1 then Tokens(FixedLit(), FixedDist(), input, out, capacity)
    else if kind == 2 then
      match DynamicTables(input)
      case NoTables => Bad
      case Tables(rest, lit, dist) => Tokens(lit, dist, rest, out, capacity)
    else Bad
  }

  /** The body of a block behind its three header bits. */
  ghost function Body(kind: nat, input: Input, out: seq<byte>, capacity: nat): (r: Outcome)
    requires input.Valid()
    ensures r.Good? ==> r.rest.Valid() && r.rest.Left() <= input.Left()
    ensures r.Good? && |out| <= capacity ==> |r.out| <= capacity
  {
    if kind == 0 then StoredBlock(input, out, capacity) else CompressedBlock(kind, input, out, capacity)
  }

  /** Blocks up to the one marked final. */
  ghost function Blocks(input: Input, out: seq<byte>, capacity: nat): (r: Outcome)
    requires input.Valid()
    ensures r.Good? && |out| <= capacity ==> |r.out| <= capacity
    decreases input.Left()
  {
    if !input.Has(3) then Bad
    else
      match Body(input.Skip(1).Number(2), input.Skip(3), out, capacity)
      case Bad => Bad
      case Good(rest, out') => if input.bits[input.at] then Good(rest, out') else Blocks(rest, out', capacity)
  }

  // ------------------------------------------------------------ the fixed code

  lemma {:induction false} KraftRun(lengths: seq<nat>, v: nat, n: nat)
    requires 1 <= v <= MAX_LENGTH && forall i :: 0 <= i < |lengths| ==> lengths[i] <= MAX_LENGTH
    ensures Kraft(lengths + Repeated(v, n)) == Kraft(lengths) + n * Pow2(MAX_LENGTH - v)
  {
    hide Kraft, Pow2;
    if n == 0 {
      assert lengths + Repeated(v, 0) == lengths;
    } else {
      KraftRun(lengths, v, n - 1);
      assert lengths + Repeated(v, n) == lengths + Repeated(v, n - 1) + [v];
      KraftNext(lengths + Repeated(v, n - 1), v);
      Distribute(n - 1, Pow2(MAX_LENGTH - v));
    }
  }

  lemma KraftNext(lengths: seq<nat>, v: nat)
    requires 1 <= v <= MAX_LENGTH && forall i :: 0 <= i < |lengths| ==> lengths[i] <= MAX_LENGTH
    ensures Kraft(lengths + [v]) == Kraft(lengths) + Pow2(MAX_LENGTH - v)
  {
    assert (lengths + [v])[..|lengths|] == lengths;
  }

  lemma FixedShape()
    ensures FixedLit() == [] + Repeated(8, 144) + Repeated(9, 112) + Repeated(7, 24) + Repeated(8, 8)
  {}

  lemma FixedKraft()
    ensures (forall i :: 0 <= i < 288 ==> FixedLit()[i] <= MAX_LENGTH) && Kraft(FixedLit()) == 0x8000
  {
    hide Kraft, Repeated, FixedLit;
    var a := [] + Repeated(8, 144);
    var b := a + Repeated(9, 112);
    var c := b + Repeated(7, 24);
    FixedShape();
    FixedRange();
    KraftRun([], 8, 144);
    KraftRun(a, 9, 112);
    KraftRun(b, 7, 24);
    KraftRun(c, 8, 8);
    assert Pow2(6) == 64 && Pow2(7) == 128 && Pow2(8) == 256;
  }

  lemma FixedRange()
    ensures Kraft([]) == 0
    ensures forall v: nat, n: nat, i: nat :: i < n ==> Repeated(v, n)[i] == v
    ensures forall i :: 0 <= i < 288 ==> FixedLit()[i] <= MAX_LENGTH
  {}

  /** The fixed code uses up the code space exactly, so building it never fails. */
  lemma FixedAccepted()
    ensures Accepts(FixedLit()) && Accepts(FixedDist())
  {
    hide Kraft, FixedLit, Accepts, FixedDist;
    FixedKraft();
    assert Pow2(7) == 128;
    Pow2Add(7, 8);
    AcceptsIffKraft(FixedLit());
    FixedDistAccepted();
  }

  lemma FixedDistAccepted()
    ensures Accepts(FixedDist())
  {
    hide Kraft, Accepts;
    assert [] + Repeated(5, 32) == FixedDist();
    FixedRange();
    KraftRun([], 5, 32);
    assert Pow2(5) == 32;
    Pow2Add(5, 10);
    AcceptsIffKraft(FixedDist());
  }

  // ------------------------------------------------------------ the zlib container

  /** The two header bytes: method 8, a window of at most 32K, no preset dictionary, and a checksum. */
  predicate HeaderOk(cmf: byte, flg: byte) {
    cmf % 16 == 8 && cmf / 16 <= 7 && flg / 32 % 2 == 0 && (cmf as int * 256 + flg) % 31 == 0
  }

  /** The running sums of Adler-32, without reduction. */
  function AdlerA(data: seq<byte>): (a: nat) {
    if data == [] then 1 else AdlerA(data[..|data| - 1]) + data[|data| - 1]
  }

  function AdlerB(data: seq<byte>): (b: nat) {
    if data == [] then 0 else AdlerB(data[..|data| - 1]) + AdlerA(data)
  }

  function Adler(data: seq<byte>): (v: nat) {
    AdlerB(data) % 65521 * 65536 + AdlerA(data) % 65521
  }

  function BigEndian32(b: seq<byte>): (v: nat)
    requires |b| == 4
  {
    b[0] as int * 0x1000000 + b[1] as int * 0x10000 + b[2] as int * 0x100 + b[3]
  }

  datatype Result = Rejected | Inflated(data: seq<byte>)

  /** What a zlib stream inflates to in a buffer of the given capacity. */
  ghost function Decompressed(input: seq<byte>, capacity: nat): (r: Result) {
    if |input| < 6 || capacity == 0 || !HeaderOk(input[0], input[1]) then Rejected
    else
      var data := input[2..|input| - 4];
      match Blocks(Input(BitsOf(data), Limit(data), 0), [], capacity)
      case Bad => Rejected
      case Good(_, out) => if Adler(out) == BigEndian32(input[|input| - 4..]) then Inflated(out) else Rejected
  }
}
