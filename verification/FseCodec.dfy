/** Why a built FSE table decodes: its intervals tile the states, and the backward stream inverts an encoder. */
module FseCodec {
  import opened Bits
  import opened FseOrbit
  import opened FseBuild

  // ------------------------------------------------------------ renormalization

  /** Halves `x` until it falls below `2c`; returns the number of halvings. */
  function Halvings(x: nat, c: nat): (n: nat)
    requires c >= 1
  {
    if x < 2 * c then 0 else 1 + Halvings(x / 2, c)
  }

  lemma {:induction false} HalvingsLand(x: nat, c: nat)
    requires 1 <= c <= x
    ensures c <= Shr(x, Halvings(x, c)) < 2 * c
  {
    if x >= 2 * c {
      HalvingsLand(x / 2, c);
    }
  }

  lemma {:induction false} ShrMono(x: nat, n: nat)
    ensures Shr(x, n) <= x
  {
    if n > 0 {
      ShrMono(x / 2, n - 1);
    }
  }

  /** Only one number of halvings lands in `[c, 2c)`. */
  lemma HalvingsUnique(x: nat, c: nat, m: nat, n: nat)
    requires c >= 1 && m < n
    requires c <= Shr(x, m) < 2 * c
    ensures Shr(x, n) < c
  {
    ShrShr(x, m, n - m);
    ShrMono(Shr(x, m) / 2, n - m - 1);
  }

  /** Halving a number of `log + 1` bits keeps the sum of halvings and remaining bits. */
  lemma HighBitOfShr(x: nat, log: nat, n: nat)
    requires Pow2(log) <= x < Pow2(log + 1) && Shr(x, n) >= 1
    ensures n <= log && HighBit(Shr(x, n)) == log - n
  {
    var d := Shr(x, n);
    var h := HighBit(d);
    HighBitBounds(d);
    ShrLow(x, n);
    Pow2Add(h, n);
    MulMono(Pow2(h), d, Pow2(n));
    Pow2Add(h + 1, n);
    MulMono(d + 1, Pow2(h + 1), Pow2(n));
    Distribute(d, Pow2(n));
    if h + n > log { Pow2Mono(log + 1, h + n); }
    if h + 1 + n <= log { Pow2Mono(h + 1 + n, log); }
  }

  // ------------------------------------------------------------ tiling

  /** The states reachable after reading the bits of cell `p`. */
  predicate Reaches(t: Table, p: nat, y: nat)
    requires t.Sized() && p < |t.symbols|
  {
    t.base[p] <= y < t.base[p] + Pow2(t.bits[p])
  }

  /** The cell of occurrence number `k` of `s` at or after `lo`. */
  function Nth(cells: seq<byte>, s: int, k: nat, lo: nat): (p: nat)
    requires lo <= |cells| && k < Occurrences(cells, s, lo, |cells|)
    ensures lo <= p < |cells| && cells[p] == s && Occurrences(cells, s, lo, p) == k
    decreases |cells| - lo
  {
    if cells[lo] == s then if k == 0 then lo else Nth(cells, s, k - 1, lo + 1) else Nth(cells, s, k, lo + 1)
  }

  lemma NthUnique(cells: seq<byte>, s: int, p: nat, q: nat)
    requires p < |cells| && q < |cells| && cells[p] == cells[q] == s
    requires Occurrences(cells, s, 0, p) == Occurrences(cells, s, 0, q)
    ensures p == q
  {
    var a, b := if p < q then p else q, if p < q then q else p;
    if a < b {
      OccurrencesSplit(cells, s, 0, a, b);
      SomeOccurrence(cells, a, a, b);
      assert false;
    }
  }

  /** A cell reaches `y` exactly when its descriptor is `y + size` shifted by its bit count. */
  lemma ReachesIsShift(t: Table, norm: seq<int>, p: nat, y: nat)
    requires Built(t, norm) && t.log <= 10 && p < |t.symbols|
    ensures Reaches(t, p, y) <==> Shr(y + Pow2(t.log), t.bits[p]) == Descriptor(t.symbols, norm, p)
  {
    var d, b, x := Descriptor(t.symbols, norm, p), t.bits[p], y + Pow2(t.log);
    assert StateOf(t.symbols, norm, t.log, p, t.bits[p], t.base[p]);
    ShrLow(x, b);
    if Reaches(t, p, y) {
      ShrLowUnique(x, b, d, x - d * Pow2(b));
    }
  }

  /** Every interval stays inside the table. */
  lemma IntervalInside(t: Table, norm: seq<int>, p: nat)
    requires Built(t, norm) && t.log <= 10 && p < |t.symbols|
    ensures t.bits[p] <= t.log
    ensures t.base[p] + Pow2(t.bits[p]) <= Pow2(t.log)
  {
    assert StateOf(t.symbols, norm, t.log, p, t.bits[p], t.base[p]);
    DescriptorFits(t.symbols, norm, t.log, p);
  }

  /** The cell of symbol `s` from which state `y` is reached. */
  function CellFor(t: Table, norm: seq<int>, s: nat, y: nat): (p: nat)
    requires s < |norm| && Magnitude(norm[s]) >= 1
    requires |t.symbols| == Pow2(t.log) && y < Pow2(t.log)
    requires Occurrences(t.symbols, s, 0, |t.symbols|) == Magnitude(norm[s])
    ensures p < |t.symbols| && t.symbols[p] == s
  {
    var c := Magnitude(norm[s]);
    var x := y + Pow2(t.log);
    OccurrencesBound(t.symbols, s, 0, |t.symbols|);
    HalvingsLand(x, c);
    Nth(t.symbols, s, Shr(x, Halvings(x, c)) - c, 0)
  }

  lemma CellForReaches(t: Table, norm: seq<int>, s: nat, y: nat)
    requires Built(t, norm) && t.log <= 10 && s < |norm| && Magnitude(norm[s]) >= 1 && y < Pow2(t.log)
    ensures Reaches(t, CellFor(t, norm, s, y), y)
  {
    var c, x, p := Magnitude(norm[s]), y + Pow2(t.log), CellFor(t, norm, s, y);
    OccurrencesBound(t.symbols, s, 0, |t.symbols|);
    HalvingsLand(x, c);
    assert Descriptor(t.symbols, norm, p) == Shr(x, Halvings(x, c));
    HighBitOfShr(x, t.log, Halvings(x, c));
    assert StateOf(t.symbols, norm, t.log, p, t.bits[p], t.base[p]);
    ReachesIsShift(t, norm, p, y);
  }

  /**
   * Tiling: for every symbol with cells and every state there is exactly one cell of that symbol
   * whose interval contains the state, and every interval lies inside the table.
   */
  lemma IntervalsTile(t: Table, norm: seq<int>, s: nat, y: nat)
    requires Built(t, norm) && t.log <= 10 && s < |norm| && Magnitude(norm[s]) >= 1 && y < Pow2(t.log)
    ensures exists p :: 0 <= p < |t.symbols| && t.symbols[p] == s && Reaches(t, p, y)
    ensures forall p, q | 0 <= p < |t.symbols| && 0 <= q < |t.symbols| && t.symbols[p] == t.symbols[q] == s ::
      Reaches(t, p, y) && Reaches(t, q, y) ==> p == q
    ensures forall p :: 0 <= p < |t.symbols| ==> t.base[p] + Pow2(t.bits[p]) <= Pow2(t.log)
  {
    CellForReaches(t, norm, s, y);
    forall p | 0 <= p < |t.symbols|
      ensures t.base[p] + Pow2(t.bits[p]) <= Pow2(t.log)
    {
      IntervalInside(t, norm, p);
    }
    forall p, q | 0 <= p < |t.symbols| && 0 <= q < |t.symbols| && t.symbols[p] == t.symbols[q] == s
      && Reaches(t, p, y) && Reaches(t, q, y)
      ensures p == q
    {
      OneCellReaches(t, norm, p, q, y);
    }
  }

  lemma OneCellReaches(t: Table, norm: seq<int>, p: nat, q: nat, y: nat)
    requires Built(t, norm) && t.log <= 10 && p < |t.symbols| && q < |t.symbols| && t.symbols[p] == t.symbols[q]
    requires Reaches(t, p, y) && Reaches(t, q, y)
    ensures p == q
  {
    var x, c := y + Pow2(t.log), Magnitude(norm[t.symbols[p]]);
    ReachesIsShift(t, norm, p, y);
    ReachesIsShift(t, norm, q, y);
    DescriptorRange(t.symbols, norm, p);
    DescriptorRange(t.symbols, norm, q);
    if t.bits[p] < t.bits[q] { HalvingsUnique(x, c, t.bits[p], t.bits[q]); }
    if t.bits[q] < t.bits[p] { HalvingsUnique(x, c, t.bits[q], t.bits[p]); }
    NthUnique(t.symbols, t.symbols[p], p, q);
  }

  // ------------------------------------------------------------ decoding as a function

  /** The number in the `n` bits before `offset`; a read that would start before bit 0 yields 0. */
  function ReadBack(bits: seq<bool>, offset: int, n: nat): (v: nat)
    requires offset <= |bits|
  {
    if offset - n < 0 then 0 else Value(bits[offset - n..offset])
  }

  /** A 32-bit sum. */
  function Sum32(a: u16, b: nat): (c: nat) {
    if a + b < 0x1_0000_0000 then a + b else a + b - 0x1_0000_0000
  }

  function NextState(t: Table, bits: seq<bool>, state: nat, offset: int): (next: nat)
    requires t.Sized() && state < |t.symbols| && offset <= |bits|
  {
    Sum32(t.base[state], ReadBack(bits, offset, t.bits[state]))
  }

  lemma NextStateInside(t: Table, norm: seq<int>, bits: seq<bool>, state: nat, offset: int)
    requires Built(t, norm) && t.log <= 10 && state < |t.symbols| && offset <= |bits|
    ensures NextState(t, bits, state, offset) < |t.symbols|
  {
    IntervalInside(t, norm, state);
    if offset - t.bits[state] >= 0 { ValueBound(bits[offset - t.bits[state]..offset]); }
    Pow2Mono(t.log, 10);
    assert Pow2(10) == 1024;
  }

  /** The symbols met from `state` on, reading bits backward from `offset`; stops at a state outside the table. */
  function Decoded(t: Table, bits: seq<bool>, state: nat, offset: int, count: nat): (message: seq<byte>)
    requires t.Sized() && offset <= |bits|
    decreases count
  {
    if count == 0 || state >= |t.symbols| then []
    else [t.symbols[state]] + Decoded(t, bits, NextState(t, bits, state, offset), offset - t.bits[state], count - 1)
  }

  /** A built table never runs out of states: every request is answered in full. */
  lemma {:induction false} DecodedLength(t: Table, norm: seq<int>, bits: seq<bool>, state: nat, offset: int, count: nat)
    requires Built(t, norm) && t.log <= 10 && state < |t.symbols| && offset <= |bits|
    ensures |Decoded(t, bits, state, offset, count)| == count
    decreases count
  {
    if count > 0 {
      NextStateInside(t, norm, bits, state, offset);
      DecodedLength(t, norm, bits, NextState(t, bits, state, offset), offset - t.bits[state], count - 1);
    }
  }

  /** Asking for more symbols does not change the first ones. */
  lemma {:induction false} DecodedPrefix(t: Table, bits: seq<bool>, state: nat, offset: int, count: nat)
    requires t.Sized() && offset <= |bits|
    ensures var more := Decoded(t, bits, state, offset, count + 1);
      |more| <= count + 1 && (|more| > count ==> Decoded(t, bits, state, offset, count) == more[..count])
    decreases count
  {
    hide NextState;
    if count > 0 && state < |t.symbols| {
      DecodedPrefix(t, bits, NextState(t, bits, state, offset), offset - t.bits[state], count - 1);
    }
  }

  // ------------------------------------------------------------ the inverse encoder

  /** Symbols an encoder may send: those with cells. */
  predicate Sendable(message: seq<byte>, norm: seq<int>) {
    forall i :: 0 <= i < |message| ==> message[i] < |norm| && Magnitude(norm[message[i]]) >= 1
  }

  /** Where `y` lies in the interval of cell `p`. */
  function OffsetIn(t: Table, p: nat, y: nat): (v: nat)
    requires t.Sized() && p < |t.symbols|
  {
    if t.base[p] <= y then y - t.base[p] else 0
  }

  /** The state a decoder must start in, and the bits it will read, last bits first. */
  ghost function Encoded(t: Table, norm: seq<int>, message: seq<byte>): (r: (nat, seq<bool>))
    requires Built(t, norm) && t.log <= 10 && message != [] && Sendable(message, norm)
    ensures r.0 < Pow2(t.log)
  {
    if |message| == 1 then (Nth(t.symbols, message[0], 0, 0), [])
    else
      var (next, bits) := Encoded(t, norm, message[1..]);
      var p := CellFor(t, norm, message[0], next);
      (p, bits + ToBits(OffsetIn(t, p, next), t.bits[p]))
  }

  lemma ReadWritten(bits: seq<bool>, offset: nat, v: nat, n: nat)
    requires n <= offset <= |bits| && v < Pow2(n)
    requires bits[offset - n..offset] == ToBits(v, n)
    ensures ReadBack(bits, offset, n) == v
  {}

  lemma SliceParts(bits: seq<bool>, offset: nat, rest: seq<bool>, last: seq<bool>)
    requires |rest + last| <= offset <= |bits|
    requires bits[offset - |rest + last|..offset] == rest + last
    ensures bits[offset - |last|..offset] == last
    ensures bits[offset - |last| - |rest|..offset - |last|] == rest
  {
    var s := bits[offset - |rest + last|..offset];
    assert s[|rest|..] == bits[offset - |last|..offset];
    assert s[..|rest|] == bits[offset - |last| - |rest|..offset - |last|];
  }

  /** The cell chosen for a symbol leads back to the state it was chosen for and to the bits before. */
  lemma StepBack(t: Table, norm: seq<int>, s: nat, next: nat, bits: seq<bool>, offset: nat, rest: seq<bool>)
    requires Built(t, norm) && t.log <= 10 && s < |norm| && Magnitude(norm[s]) >= 1 && next < Pow2(t.log)
    requires var p := CellFor(t, norm, s, next);
      var written := rest + ToBits(OffsetIn(t, p, next), t.bits[p]);
      |written| <= offset <= |bits| && bits[offset - |written|..offset] == written
    ensures var p := CellFor(t, norm, s, next);
      && NextState(t, bits, p, offset) == next
      && |rest| <= offset - t.bits[p]
      && bits[offset - t.bits[p] - |rest|..offset - t.bits[p]] == rest
  {
    var p := CellFor(t, norm, s, next);
    CellForReaches(t, norm, s, next);
    SliceParts(bits, offset, rest, ToBits(next - t.base[p], t.bits[p]));
    ReadWritten(bits, offset, next - t.base[p], t.bits[p]);
    Pow2Mono(t.log, 10);
    assert Pow2(10) == 1024;
  }

  lemma DecodedStep(t: Table, bits: seq<bool>, state: nat, offset: int, message: seq<byte>)
    requires t.Sized() && offset <= |bits| && state < |t.symbols| && message != []
    requires t.symbols[state] == message[0]
    requires Decoded(t, bits, NextState(t, bits, state, offset), offset - t.bits[state], |message| - 1) == message[1..]
    ensures Decoded(t, bits, state, offset, |message|) == message
  {}

  /** Decoding inverts encoding wherever the encoder's bits stand in the stream. */
  lemma {:induction false} DecodedEncoded(t: Table, norm: seq<int>, message: seq<byte>, bits: seq<bool>, offset: nat)
    requires Built(t, norm) && t.log <= 10 && message != [] && Sendable(message, norm)
    requires |Encoded(t, norm, message).1| <= offset <= |bits|
    requires bits[offset - |Encoded(t, norm, message).1|..offset] == Encoded(t, norm, message).1
    ensures Decoded(t, bits, Encoded(t, norm, message).0, offset, |message|) == message
    decreases |message|
  {
    var (state, written) := Encoded(t, norm, message);
    if |message| > 1 {
      var (next, rest) := Encoded(t, norm, message[1..]);
      StepBack(t, norm, message[0], next, bits, offset, rest);
      DecodedEncoded(t, norm, message[1..], bits, offset - t.bits[state]);
    }
    DecodedStep(t, bits, state, offset, message);
  }

  // ------------------------------------------------------------ framing

  function Zeros(n: nat): (z: seq<bool>)
    ensures |z| == n
  {
    seq(n, i => false)
  }

  /** Bits missing to a whole byte. */
  function Pad(n: nat): (p: nat)
    ensures p < 8 && (n + p) % 8 == 0
  {
    7 - (n + 7) % 8
  }

  /** The bits of a whole stream: the encoder's bits, the start state, an end mark and padding to a byte. */
  ghost function StreamBits(t: Table, norm: seq<int>, message: seq<byte>): (bits: seq<bool>)
    requires Built(t, norm) && t.log <= 10 && message != [] && Sendable(message, norm)
    ensures |bits| % 8 == 0
  {
    hide Encoded, ToBits, Built, Pad;
    var (state, written) := Encoded(t, norm, message);
    var body := written + ToBits(state, t.log) + [true];
    body + Zeros(Pad(|body|))
  }

  ghost function Stream(t: Table, norm: seq<int>, message: seq<byte>): (data: seq<byte>)
    requires Built(t, norm) && t.log <= 10 && message != [] && Sendable(message, norm)
  {
    Pack(StreamBits(t, norm, message))
  }

  /** The position of the end mark: the highest set bit of the last byte. */
  predicate EndMark(bits: seq<bool>, offset: nat) {
    && offset < |bits| <= offset + 8
    && bits[offset]
    && forall i :: offset < i < |bits| ==> !bits[i]
  }

  lemma EndMarkUnique(bits: seq<bool>, a: nat, b: nat)
    requires EndMark(bits, a) && EndMark(bits, b)
    ensures a == b
  {}

  /**
   * Round trip: reading the stream of a message from its end mark, first the start state and then
   * `|message|` symbols, returns the message.
   */
  lemma StreamRoundTrip(t: Table, norm: seq<int>, message: seq<byte>, offset: nat)
    requires Built(t, norm) && t.log <= 10 && message != [] && Sendable(message, norm)
    requires EndMark(BitsOf(Stream(t, norm, message)), offset)
    ensures var bits := BitsOf(Stream(t, norm, message));
      && t.log <= offset
      && ReadBack(bits, offset, t.log) < Pow2(t.log)
      && Decoded(t, bits, ReadBack(bits, offset, t.log), offset - t.log, |message|) == message
  {
    var bits := StreamBits(t, norm, message);
    BitsOfPack(bits);
    var (state, written) := Encoded(t, norm, message);
    var start := ToBits(state, t.log);
    Framed(written, start, Pad(|written + start + [true]|));
    EndMarkUnique(bits, offset, |written| + |start|);
    ReadWritten(bits, offset, state, t.log);
    DecodedEncoded(t, norm, message, bits, |written|);
  }

  lemma Framed(written: seq<bool>, start: seq<bool>, pad: nat)
    requires pad < 8
    ensures var bits := written + start + [true] + Zeros(pad);
      && EndMark(bits, |written| + |start|)
      && bits[|written|..|written| + |start|] == start
      && bits[..|written|] == written
  {}
}
