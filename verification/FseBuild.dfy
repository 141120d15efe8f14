/** Construction of an FSE decoding table from normalized symbol probabilities. */
module FseBuild {
  import opened Bits
  import opened FseOrbit

  const TABLE_MAX := 1024

  type u16 = x: int | 0 <= x < 65536

  // ------------------------------------------------------------ probabilities

  /** Cells a probability stands for; -1 marks a symbol of less than one cell, which gets one. */
  function Magnitude(p: int): (n: nat) {
    if p < 0 then -p else p
  }

  /** Symbols of probability -1 among the first `n`. */
  function LowCount(norm: seq<int>, n: nat): (c: nat)
    requires n <= |norm|
  {
    if n == 0 then 0 else LowCount(norm, n - 1) + (if norm[n - 1] == -1 then 1 else 0)
  }

  /** Cells of the symbols of positive probability among the first `n`. */
  function PositiveSum(norm: seq<int>, n: nat): (c: nat)
    requires n <= |norm|
  {
    if n == 0 then 0 else PositiveSum(norm, n - 1) + Positive(norm[n - 1])
  }

  function Positive(p: int): (n: nat) {
    if p > 0 then p else 0
  }

  function MagnitudeSum(norm: seq<int>, n: nat): (c: nat)
    requires n <= |norm|
  {
    if n == 0 then 0 else MagnitudeSum(norm, n - 1) + Magnitude(norm[n - 1])
  }

  predicate InRange(norm: seq<int>, size: nat) {
    forall i :: 0 <= i < |norm| ==> -1 <= norm[i] <= size
  }

  lemma {:induction false} MagnitudeSplits(norm: seq<int>, n: nat)
    requires n <= |norm|
    requires forall i :: 0 <= i < |norm| ==> -1 <= norm[i]
    ensures MagnitudeSum(norm, n) == LowCount(norm, n) + PositiveSum(norm, n)
  {
    if n > 0 {
      MagnitudeSplits(norm, n - 1);
    }
  }

  lemma {:induction false} PartialSums(norm: seq<int>, m: nat, n: nat)
    requires m <= n <= |norm|
    ensures LowCount(norm, m) <= LowCount(norm, n)
    ensures PositiveSum(norm, m) <= PositiveSum(norm, n)
  {
    if m < n {
      PartialSums(norm, m, n - 1);
    }
  }

  // ------------------------------------------------------------ step

  function Step(log: nat): (step: nat) {
    Pow2(log) / 2 + Pow2(log) / 8 + 3
  }

  /** Accuracy logs 1 and 3 give a step that is a multiple of the table size: the walk never leaves cell 0. */
  predicate Spreads(log: nat) {
    log != 1 && log != 3
  }

  lemma PowersOfTwo()
    ensures Pow2(0) == 1 && Pow2(1) == 2 && Pow2(2) == 4 && Pow2(3) == 8 && Pow2(4) == 16 && Pow2(5) == 32
    ensures Pow2(6) == 64 && Pow2(7) == 128 && Pow2(8) == 256 && Pow2(9) == 512 && Pow2(10) == 1024 && Pow2(11) == 2048
  {}

  lemma StepParity(log: nat)
    requires 1 <= log <= 10
    ensures Spreads(log) <==> Step(log) % 2 == 1
    ensures !Spreads(log) ==> Step(log) % Pow2(log) == 0
  {
    PowersOfTwo();
  }

  lemma {:induction false} StuckAtZero(log: nat, j: nat)
    requires 1 <= log <= 10 && !Spreads(log)
    ensures Orbit(Pow2(log), Step(log), j) == 0
  {
    StepParity(log);
    if j > 0 {
      StuckAtZero(log, j - 1);
    }
  }

  // ------------------------------------------------------------ which cell a symbol gets

  /** The symbols of positive probability among the first `n`, each as often as its probability says. */
  function Units(norm: seq<int>, n: nat): (u: seq<int>)
    requires n <= |norm|
    ensures |u| == PositiveSum(norm, n)
  {
    if n == 0 then [] else Units(norm, n - 1) + seq(Positive(norm[n - 1]), _ => n - 1)
  }

  /** Where the walk stands after `i` steps of five eighths of the size and three. */
  function WalkCell(size: nat, i: nat): (p: nat)
    requires size > 0
    ensures p < size
  {
    if i == 0 then 0 else (WalkCell(size, i - 1) + size / 2 + size / 8 + 3) % size
  }

  /** How many of the first `i` places of the walk lie below the threshold. */
  function WalkRank(size: nat, high: nat, i: nat): (n: nat)
    requires size > 0
  {
    if i == 0 then 0 else WalkRank(size, high, i - 1) + (if WalkCell(size, i - 1) < high then 1 else 0)
  }

  lemma {:induction false} WalkIsOrbit(log: nat, high: nat, i: nat)
    ensures WalkCell(Pow2(log), i) == Orbit(Pow2(log), Step(log), i)
    ensures WalkRank(Pow2(log), high, i) == Usable(Pow2(log), Step(log), high, i)
  {
    if i > 0 {
      WalkIsOrbit(log, high, i - 1);
    }
  }

  /** The symbols of probability -1 stand in the last cells, the first of them in the very last. */
  predicate LowPlaced(cells: seq<byte>, norm: seq<int>, n: nat, size: nat)
    requires n <= |norm|
  {
    forall s :: 0 <= s < n && norm[s] == -1 ==>
      LowCount(norm, s) < size <= |cells| && cells[size - 1 - LowCount(norm, s)] == s
  }

  /** Unit number `r` of the positive symbols stands on the cell below the threshold that the walk meets as number
      `r`. */
  ghost predicate UnitsPlaced(cells: seq<byte>, norm: seq<int>, size: nat, high: nat) {
    && 0 < size <= |cells|
    && forall i: nat :: i < size && WalkCell(size, i) < high ==>
      WalkRank(size, high, i) < |Units(norm, |norm|)|
      && cells[WalkCell(size, i)] == Units(norm, |norm|)[WalkRank(size, high, i)]
  }

  /** Every cell of a table holds the symbol that it should. */
  ghost predicate Arranged(cells: seq<byte>, norm: seq<int>) {
    && LowPlaced(cells, norm, |norm|, |cells|) && LowCount(norm, |norm|) <= |cells|
    && UnitsPlaced(cells, norm, |cells|, |cells| - LowCount(norm, |norm|))
  }

  /** What the walk has met up to index `j` holds the units of the first `n` symbols in turn. */
  ghost predicate LaidOut(cells: seq<byte>, norm: seq<int>, n: nat, log: nat, high: nat, j: nat) {
    && n <= |norm| && Pow2(log) <= |cells|
    && forall i: nat :: i < j && Orbit(Pow2(log), Step(log), i) < high ==>
      Usable(Pow2(log), Step(log), high, i) < |Units(norm, n)|
      && cells[Orbit(Pow2(log), Step(log), i)] == Units(norm, n)[Usable(Pow2(log), Step(log), high, i)]
  }

  /** Between walk indices `j` and `j'` every usable cell has got `symbol`, and those before have kept theirs. */
  ghost predicate Laid(before: seq<byte>, after: seq<byte>, symbol: int, log: nat, high: nat, j: nat, j': nat) {
    && Pow2(log) <= |before| && Pow2(log) <= |after|
    && forall i: nat :: i < j' && Orbit(Pow2(log), Step(log), i) < high ==>
      var p := Orbit(Pow2(log), Step(log), i); after[p] == if i < j then before[p] else symbol
  }

  lemma LaidNext(before: seq<byte>, after: seq<byte>, symbol: byte, log: nat, high: nat, j: nat, j': nat, next: nat)
    requires 1 <= log <= 10 && Spreads(log) && Laid(before, after, symbol, log, high, j, j') && j' < Pow2(log)
    requires j <= j' < next && Orbit(Pow2(log), Step(log), j') < high
    requires forall k :: j' < k < next ==> Orbit(Pow2(log), Step(log), k) >= high
    ensures Laid(before, after[Orbit(Pow2(log), Step(log), j') := symbol], symbol, log, high, j, next)
  {
    StepParity(log);
    var size, step := Pow2(log), Step(log);
    var after' := after[Orbit(size, step, j') := symbol];
    forall i: nat | i < next && Orbit(size, step, i) < high
      ensures var p := Orbit(size, step, i); after'[p] == if i < j then before[p] else symbol
    {
      if i < j' {
        OrbitInjective(log, step, i, j');
      }
    }
  }

  lemma UnitAt(norm: seq<int>, n: nat, r: nat)
    requires n < |norm| && norm[n] > 0 && r < PositiveSum(norm, n) + norm[n]
    ensures r < |Units(norm, n + 1)|
    ensures Units(norm, n + 1)[r] == if r < PositiveSum(norm, n) then Units(norm, n)[r] else n
  {}

  lemma RankBetween(size: nat, step: nat, high: nat, j: nat, i: nat, j': nat)
    requires size > 0 && i < j' && Orbit(size, step, i) < high
    ensures Usable(size, step, high, i) < Usable(size, step, high, j')
    ensures j <= i ==> Usable(size, step, high, j) <= Usable(size, step, high, i)
    ensures i < j ==> Usable(size, step, high, i) < Usable(size, step, high, j)
  {
    UsableMono(size, step, high, i + 1, j');
    if j <= i {
      UsableMono(size, step, high, j, i);
    } else {
      UsableMono(size, step, high, i + 1, j);
    }
  }

  lemma LaidOutNext(before: seq<byte>, after: seq<byte>, norm: seq<int>, n: nat, log: nat, high: nat, j: nat, j': nat)
    requires n < |norm| && norm[n] > 0 && LaidOut(before, norm, n, log, high, j)
    requires Laid(before, after, n, log, high, j, j') && j <= j'
    requires Usable(Pow2(log), Step(log), high, j) == PositiveSum(norm, n)
    requires Usable(Pow2(log), Step(log), high, j') == PositiveSum(norm, n) + norm[n]
    ensures LaidOut(after, norm, n + 1, log, high, j')
  {
    hide Units, Orbit, Usable, Pow2, Step, PositiveSum;
    forall i: nat | i < j' && Orbit(Pow2(log), Step(log), i) < high
      ensures Usable(Pow2(log), Step(log), high, i) < |Units(norm, n + 1)|
      ensures after[Orbit(Pow2(log), Step(log), i)] == Units(norm, n + 1)[Usable(Pow2(log), Step(log), high, i)]
    {
      RankBetween(Pow2(log), Step(log), high, j, i, j');
      UnitAt(norm, n, Usable(Pow2(log), Step(log), high, i));
    }
  }

  /** A walk over the whole period has put every unit in its place. */
  lemma LaidOutAll(cells: seq<byte>, norm: seq<int>, log: nat, high: nat)
    requires LaidOut(cells, norm, |norm|, log, high, Pow2(log))
    ensures UnitsPlaced(cells, norm, Pow2(log), high)
  {
    forall i: nat | i < Pow2(log) && WalkCell(Pow2(log), i) < high
      ensures WalkRank(Pow2(log), high, i) < |Units(norm, |norm|)|
      ensures cells[WalkCell(Pow2(log), i)] == Units(norm, |norm|)[WalkRank(Pow2(log), high, i)]
    {
      WalkIsOrbit(log, high, i);
    }
  }

  // ------------------------------------------------------------ what the builder accepts

  /** The arguments for which the builder reports success. */
  predicate Accepts(norm: seq<int>, log: nat) {
    && 1 <= |norm| <= 256
    && 1 <= log <= 10
    && InRange(norm, Pow2(log))
    && LowCount(norm, |norm|) <= Pow2(log)
    && SpreadEnds(PositiveSum(norm, |norm|), Pow2(log) - LowCount(norm, |norm|), log)
  }

  /** Spreading `cells` symbols over `high` cells ends on cell 0. */
  predicate SpreadEnds(cells: nat, high: nat, log: nat) {
    if high == 0 then cells == 0 else Spreads(log) ==> cells % high == 0
  }

  /** The arguments for which the table is also complete. */
  predicate Complete(norm: seq<int>, log: nat) {
    && 1 <= |norm| <= 256
    && 1 <= log <= 10
    && Spreads(log)
    && (forall i :: 0 <= i < |norm| ==> -1 <= norm[i])
    && MagnitudeSum(norm, |norm|) == Pow2(log)
  }

  lemma {:induction false} PartBelowSum(norm: seq<int>, i: nat, n: nat)
    requires i < n <= |norm|
    ensures Magnitude(norm[i]) <= MagnitudeSum(norm, n)
  {
    if i < n - 1 {
      PartBelowSum(norm, i, n - 1);
    }
  }

  /** Probabilities whose magnitudes add up to the table size are always accepted. */
  lemma CompleteIsAccepted(norm: seq<int>, log: nat)
    requires Complete(norm, log)
    ensures Accepts(norm, log)
    ensures PositiveSum(norm, |norm|) == Pow2(log) - LowCount(norm, |norm|)
  {
    MagnitudeSplits(norm, |norm|);
    forall i | 0 <= i < |norm|
      ensures norm[i] <= Pow2(log)
    {
      PartBelowSum(norm, i, |norm|);
    }
    var high := Pow2(log) - LowCount(norm, |norm|);
    if high > 0 { DivModUnique(1, high, 0); }
  }

  // ------------------------------------------------------------ the finished table

  /** A decoding table: for each state its symbol, the bits to read next and the base of the next state. */
  datatype Table = Table(log: nat, symbols: seq<byte>, bits: seq<byte>, base: seq<u16>) {
    predicate Sized() {
      |symbols| == |bits| == |base| == Pow2(log)
    }
  }

  /** Cell `p` is occurrence number `descriptor - count` of its symbol. */
  function Descriptor(symbols: seq<byte>, norm: seq<int>, p: nat): (d: nat)
    requires p < |symbols| && symbols[p] < |norm|
  {
    Magnitude(norm[symbols[p]]) + Occurrences(symbols, symbols[p], 0, p)
  }

  ghost predicate Spread(symbols: seq<byte>, norm: seq<int>) {
    && (forall p :: 0 <= p < |symbols| ==> symbols[p] < |norm|)
    && (forall s :: 0 <= s < |norm| ==> Occurrences(symbols, s, 0, |symbols|) == Magnitude(norm[s]))
  }

  /** The bits to read and the base of the next state that the descriptor of cell `p` calls for. */
  predicate StateOf(symbols: seq<byte>, norm: seq<int>, log: nat, p: nat, bits: nat, base: int)
    requires p < |symbols| && symbols[p] < |norm|
  {
    var d := Descriptor(symbols, norm, p);
    bits == log - HighBit(d) && base == d * Pow2(bits) - Pow2(log)
  }

  ghost predicate Built(t: Table, norm: seq<int>) {
    && t.Sized()
    && Spread(t.symbols, norm)
    && forall p :: 0 <= p < |t.symbols| ==> StateOf(t.symbols, norm, t.log, p, t.bits[p], t.base[p])
  }

  // ------------------------------------------------------------ one placement of the spread

  lemma {:induction false} VisitedSkip(cells: seq<byte>, t: int, size: nat, step: nat, high: nat, i: nat, j: nat)
    requires 0 < size <= |cells| && i <= j
    requires forall k :: i <= k < j ==> Orbit(size, step, k) >= high
    ensures Visited(cells, t, size, step, high, i) == Visited(cells, t, size, step, high, j)
    decreases j
  {
    if i < j {
      VisitedSkip(cells, t, size, step, high, i, j - 1);
    }
  }

  lemma PlaceOne(cells: seq<byte>, t: int, log: nat, step: nat, high: nat, j: nat, next: nat, symbol: byte)
    requires step % 2 == 1 && j < Pow2(log) <= |cells| && j < next
    requires Orbit(Pow2(log), step, j) < high
    requires forall k :: j < k < next ==> Orbit(Pow2(log), step, k) >= high
    ensures Visited(cells[Orbit(Pow2(log), step, j) := symbol], t, Pow2(log), step, high, next)
         == Visited(cells, t, Pow2(log), step, high, j) + (if t == symbol then 1 else 0)
  {
    var cells' := cells[Orbit(Pow2(log), step, j) := symbol];
    VisitedUpdate(cells, t, log, step, high, j, j, symbol);
    VisitedSkip(cells', t, Pow2(log), step, high, j + 1, next);
  }

  /** While cells remain the walk is inside its first period. */
  lemma InsideFirstPeriod(log: nat, step: nat, high: nat, j: nat)
    requires step % 2 == 1 && 0 < high <= Pow2(log)
    ensures Usable(Pow2(log), step, high, j) < high && Orbit(Pow2(log), step, j) < high ==> j < Pow2(log)
    ensures Usable(Pow2(log), step, high, j) <= high ==> j <= Pow2(log) || Orbit(Pow2(log), step, j) >= high
  {
    UsableAll(log, step, high);
    OrbitPeriod(Pow2(log), step, 0);
    if j >= Pow2(log) { UsableMono(Pow2(log), step, high, Pow2(log), j); }
    if j >= Pow2(log) + 1 { UsableMono(Pow2(log), step, high, Pow2(log) + 1, j); }
  }

  // ------------------------------------------------------------ loops of the builder

  method ClearCounts(desc: array<u16>, n: nat)
    requires n <= desc.Length
    modifies desc
    ensures forall s :: 0 <= s < n ==> desc[s] == 0
  {
    var i := 0;
    while i < n
      invariant 0 <= i <= n
      invariant forall s :: 0 <= s < i ==> desc[s] == 0
    {
      desc[i] := 0;
      i := i + 1;
    }
  }

  /** The top cells hold each of the first `n` symbols of probability -1 once, in their places, and nothing else. */
  ghost predicate LowDone(cells: seq<byte>, norm: seq<int>, n: nat, size: nat, high: nat) {
    && n <= |norm| && LowCount(norm, n) <= size <= |cells| && high == size - LowCount(norm, n)
    && (forall p :: high <= p < size ==> cells[p] < n)
    && (forall s :: 0 <= s < n ==> Occurrences(cells, s, high, size) == (if norm[s] == -1 then 1 else 0))
    && LowPlaced(cells, norm, n, size)
  }

  lemma LowSkips(cells: seq<byte>, norm: seq<int>, n: nat, size: nat, high: nat)
    requires LowDone(cells, norm, n, size, high) && n < |norm| && norm[n] != -1
    ensures LowDone(cells, norm, n + 1, size, high)
  {
    NoOccurrence(cells, n, high, size);
  }

  lemma LowPlaces(cells: seq<byte>, norm: seq<int>, n: nat, size: nat, high: nat)
    requires LowDone(cells, norm, n, size, high) && n < |norm| && n < 256 && norm[n] == -1 && high > 0
    ensures LowDone(cells[high - 1 := n], norm, n + 1, size, high - 1)
  {
    var cells' := cells[high - 1 := n];
    forall s | 0 <= s <= n
      ensures Occurrences(cells', s, high, size) == Occurrences(cells, s, high, size)
    {
      OccurrencesSame(cells, cells', s, high, size);
    }
    NoOccurrence(cells, n, high, size);
    forall s | 0 <= s < n && norm[s] == -1
      ensures cells'[size - 1 - LowCount(norm, s)] == s
    {
      PartialSums(norm, s + 1, n);
    }
  }

  /** The descent that hands the top cells to the symbols of probability -1. */
  method PlaceLow(symbols: array<byte>, desc: array<u16>, norm: seq<int>, size: nat)
    returns (ok: bool, high: nat)
    requires 1 <= |norm| <= 256 && desc.Length == 256 && size <= symbols.Length
    modifies symbols, desc
    ensures ok <==> InRange(norm, size) && LowCount(norm, |norm|) <= size
    ensures ok ==> high == size - LowCount(norm, |norm|)
    ensures ok ==> forall p :: high <= p < size ==> symbols[p] < |norm|
    ensures ok ==> forall s :: 0 <= s < |norm| ==>
      Occurrences(symbols[..], s, high, size) == (if norm[s] == -1 then 1 else 0)
    ensures ok ==> forall s :: 0 <= s < |norm| ==> desc[s] == (if norm[s] == -1 then 1 else 0)
    ensures ok ==> forall p :: 0 <= p < high ==> symbols[p] == old(symbols[p])
    ensures ok ==> LowPlaced(symbols[..], norm, |norm|, size)
  {
    hide Occurrences, LowPlaced;
    ok, high := false, size;
    ClearCounts(desc, |norm|);
    LowNone(symbols[..], norm, size);
    var symbol := 0;
    while symbol < |norm|
      invariant 0 <= symbol <= |norm|
      invariant forall s :: 0 <= s < symbol ==> -1 <= norm[s] <= size
      invariant LowDone(symbols[..], norm, symbol, size, high)
      invariant forall s :: 0 <= s < |norm| ==> desc[s] == (if s < symbol && norm[s] == -1 then 1 else 0)
      invariant forall p :: 0 <= p < high ==> symbols[p] == old(symbols[p])
    {
      PartialSums(norm, symbol + 1, |norm|);
      if norm[symbol] < -1 || norm[symbol] > size {
        return;
      }
      ghost var before := symbols[..];
      if norm[symbol] == -1 {
        if high == 0 {
          return;
        }
        LowPlaces(before, norm, symbol, size, high);
        high := high - 1;
        symbols[high] := symbol;
        desc[symbol] := 1;
        assert symbols[..] == before[high := symbol as byte];
      } else {
        LowSkips(before, norm, symbol, size, high);
      }
      symbol := symbol + 1;
    }
    ok := true;
  }

  lemma LowNone(cells: seq<byte>, norm: seq<int>, size: nat)
    requires size <= |cells|
    ensures LowDone(cells, norm, 0, size, size)
  {}

  lemma {:induction false} NoOccurrence(cells: seq<byte>, s: int, lo: nat, hi: nat)
    requires lo <= hi <= |cells|
    requires forall p :: lo <= p < hi ==> cells[p] != s
    ensures Occurrences(cells, s, lo, hi) == 0
    decreases hi - lo
  {
    if lo < hi {
      NoOccurrence(cells, s, lo + 1, hi);
    }
  }

  /** The walk returns to cell 0 after every index. */
  lemma {:induction false} NextReturn(size: nat, step: nat, j: nat) returns (stop: nat)
    requires size > 0
    ensures j < stop && Orbit(size, step, stop) == 0
  {
    if j < size {
      stop := size;
      OrbitPeriod(size, step, 0);
    } else {
      stop := NextReturn(size, step, j - size);
      OrbitPeriod(size, step, stop);
      stop := stop + size;
    }
  }

  /** The do-while step to the next cell below the threshold; it ends because the walk returns to cell 0. */
  method NextCell(size: nat, step: nat, high: nat, position: nat, ghost j: nat)
    returns (next: nat, ghost j': nat)
    requires 0 < high <= size
    requires position == Orbit(size, step, j)
    ensures next < high
    ensures j < j' && next == Orbit(size, step, j')
    ensures forall k :: j < k < j' ==> Orbit(size, step, k) >= high
    ensures Usable(size, step, high, j') == Usable(size, step, high, j + 1)
  {
    next, j' := Advance(size, step, position), j + 1;
    ghost var stop := NextReturn(size, step, j);
    while next >= high
      invariant j < j' <= stop
      invariant next == Orbit(size, step, j')
      invariant forall k :: j < k < j' ==> Orbit(size, step, k) >= high
      invariant Usable(size, step, high, j') == Usable(size, step, high, j + 1)
      decreases stop - j'
    {
      next, j' := Advance(size, step, next), j' + 1;
    }
  }

  /** Between walk indices `j` and `j'` the cells gained `count` occurrences of `symbol` and nothing else. */
  ghost predicate Counted(before: seq<byte>, after: seq<byte>, symbol: int, count: nat, log: nat, high: nat, j: nat,
                          j': nat) {
    && Pow2(log) <= |before| && Pow2(log) <= |after|
    && forall t :: Visited(after, t, Pow2(log), Step(log), high, j')
                == Visited(before, t, Pow2(log), Step(log), high, j) + (if t == symbol then count else 0)
  }

  /** The inner loop that places one symbol `count` times. */
  method PlaceSymbol(symbols: array<byte>, symbol: byte, count: nat, log: nat, high: nat, start: nat, ghost j: nat)
    returns (position: nat, ghost j': nat)
    requires 1 <= log <= 10 && 0 < high <= Pow2(log) <= symbols.Length
    requires start == Orbit(Pow2(log), Step(log), j) < high
    modifies symbols
    ensures position == Orbit(Pow2(log), Step(log), j') < high
    ensures Usable(Pow2(log), Step(log), high, j') == Usable(Pow2(log), Step(log), high, j) + count
    ensures forall p :: 0 <= p < symbols.Length ==> symbols[p] == old(symbols[p]) || (symbols[p] == symbol && p < high)
    ensures !Spreads(log) ==> forall p :: 0 < p < symbols.Length ==> symbols[p] == old(symbols[p])
    ensures Spreads(log) && Usable(Pow2(log), Step(log), high, j) + count <= high ==>
      Counted(old(symbols[..]), symbols[..], symbol, count, log, high, j, j')
      && Laid(old(symbols[..]), symbols[..], symbol, log, high, j, j')
    ensures j <= j'
  {
    position, j' := start, j;
    ghost var size, step := Pow2(log), Step(log);
    ghost var counted := Spreads(log) && Usable(size, step, high, j) + count <= high;
    StepParity(log);
    var done := 0;
    while done < count
      invariant 0 <= done <= count
      invariant position == Orbit(size, step, j') < high
      invariant Usable(size, step, high, j') == Usable(size, step, high, j) + done
      invariant forall p ::
        0 <= p < symbols.Length ==> symbols[p] == old(symbols[p]) || (symbols[p] == symbol && p < high)
      invariant !Spreads(log) ==> forall p :: 0 < p < symbols.Length ==> symbols[p] == old(symbols[p])
      invariant counted ==> Counted(old(symbols[..]), symbols[..], symbol, done, log, high, j, j')
      invariant j <= j' && (counted ==> Laid(old(symbols[..]), symbols[..], symbol, log, high, j, j'))
    {
      if !Spreads(log) { StuckAtZero(log, j'); }
      ghost var before, at := symbols[..], j';
      symbols[position] := symbol;
      position, j' := NextCell(Pow2(log), Step(log), high, position, j');
      if counted {
        InsideFirstPeriod(log, step, high, at);
        assert symbols[..] == before[Orbit(size, step, at) := symbol];
        LaidNext(old(symbols[..]), before, symbol, log, high, j, at, j');
        forall t
          ensures Visited(symbols[..], t, size, step, high, j')
               == Visited(before, t, size, step, high, at) + (if t == symbol then 1 else 0)
        {
          PlaceOne(before, t, log, step, high, at, j', symbol);
        }
      }
      done := done + 1;
    }
  }

  lemma {:induction false} SomeOccurrence(cells: seq<byte>, p: nat, lo: nat, hi: nat)
    requires lo <= p < hi <= |cells|
    ensures Occurrences(cells, cells[p], lo, hi) >= 1
    decreases hi - lo
  {
    if lo < p {
      SomeOccurrence(cells, p, lo + 1, hi);
    }
  }

  /** A completed walk has placed every positive symbol exactly as often as its probability says. */
  lemma WalkComplete(cells: seq<byte>, norm: seq<int>, log: nat, high: nat, j: nat)
    requires 1 <= log <= 10 && Spreads(log) && 0 < high <= Pow2(log) <= |cells|
    requires Orbit(Pow2(log), Step(log), j) < high
    requires Usable(Pow2(log), Step(log), high, j) == high
    requires forall t :: Visited(cells, t, Pow2(log), Step(log), high, j)
                      == (if 0 <= t < |norm| then Positive(norm[t]) else 0)
    ensures CellsPlaced(cells, norm, high) && j == Pow2(log)
  {
    var size, step := Pow2(log), Step(log);
    StepParity(log);
    UsableAll(log, step, high);
    OrbitPeriod(size, step, 0);
    UsableUnique(size, step, high, j, size);
    forall s | 0 <= s < |norm|
      ensures Occurrences(cells, s, 0, high) == Positive(norm[s])
    {
      VisitedAll(cells, s, log, step, high);
    }
    forall p | 0 <= p < high
      ensures cells[p] < |norm|
    {
      VisitedAll(cells, cells[p], log, step, high);
      SomeOccurrence(cells, p, 0, high);
    }
  }

  lemma WalkEnds(log: nat, high: nat, j: nat)
    requires 1 <= log <= 10 && 0 < high <= Pow2(log)
    requires Orbit(Pow2(log), Step(log), j) < high
    ensures Orbit(Pow2(log), Step(log), j) == 0 <==> SpreadEnds(Usable(Pow2(log), Step(log), high, j), high, log)
  {
    StepParity(log);
    if Spreads(log) { BackAtZero(log, Step(log), high, j); } else { StuckAtZero(log, j); }
  }

  /** The walk stands at `position`, having placed the first `symbol` symbols. */
  ghost predicate Walking(cells: seq<byte>, norm: seq<int>, log: nat, high: nat, symbol: nat, position: nat, j: nat)
    requires symbol <= |norm|
  {
    && high <= Pow2(log) <= |cells|
    && position == Orbit(Pow2(log), Step(log), j)
    && (if high == 0 then j == 0 && PositiveSum(norm, symbol) == 0
        else position < high && Usable(Pow2(log), Step(log), high, j) == PositiveSum(norm, symbol))
    && (Spreads(log) && PositiveSum(norm, |norm|) == high > 0 ==>
          forall t :: Visited(cells, t, Pow2(log), Step(log), high, j)
                   == (if 0 <= t < symbol then Positive(norm[t]) else 0))
    && (Spreads(log) && PositiveSum(norm, |norm|) == high > 0 ==> LaidOut(cells, norm, symbol, log, high, j))
  }

  lemma WalkSkips(cells: seq<byte>, norm: seq<int>, log: nat, high: nat, symbol: nat, position: nat, j: nat)
    requires symbol < |norm| && norm[symbol] <= 0 && Walking(cells, norm, log, high, symbol, position, j)
    ensures Walking(cells, norm, log, high, symbol + 1, position, j)
  {}

  lemma WalkPlaces(before: seq<byte>, cells: seq<byte>, norm: seq<int>, log: nat, high: nat, symbol: nat, j: nat,
                   position: nat, j': nat)
    requires symbol < |norm| && norm[symbol] > 0 && 0 < high <= Pow2(log) <= |cells|
    requires Walking(before, norm, log, high, symbol, Orbit(Pow2(log), Step(log), j), j)
    requires position == Orbit(Pow2(log), Step(log), j') < high
    requires Usable(Pow2(log), Step(log), high, j') == Usable(Pow2(log), Step(log), high, j) + norm[symbol]
    requires Spreads(log) && Usable(Pow2(log), Step(log), high, j) + norm[symbol] <= high ==>
      Counted(before, cells, symbol, norm[symbol], log, high, j, j') && Laid(before, cells, symbol, log, high, j, j')
    requires j <= j'
    ensures Walking(cells, norm, log, high, symbol + 1, position, j')
  {
    hide Units, Orbit, Usable, Visited, Laid, LaidOut, Pow2, Step;
    PartialSums(norm, symbol + 1, |norm|);
    if Spreads(log) && PositiveSum(norm, |norm|) == high {
      LaidOutNext(before, cells, norm, symbol, log, high, j, j');
    }
  }

  /** The outcome of the spread. */
  lemma WalkOutcome(cells: seq<byte>, norm: seq<int>, log: nat, high: nat, position: nat, j: nat)
    requires 1 <= log <= 10 && Walking(cells, norm, log, high, |norm|, position, j)
    ensures position == 0 <==> SpreadEnds(PositiveSum(norm, |norm|), high, log)
    ensures Spreads(log) && PositiveSum(norm, |norm|) == high > 0 ==>
      CellsPlaced(cells, norm, high) && UnitsPlaced(cells, norm, Pow2(log), high)
  {
    if high > 0 { WalkEnds(log, high, j); }
    if Spreads(log) && PositiveSum(norm, |norm|) == high > 0 {
      WalkComplete(cells, norm, log, high, j);
      LaidOutAll(cells, norm, log, high);
    }
  }

  /** Below the threshold every symbol of positive probability has exactly its cells. */
  ghost predicate CellsPlaced(cells: seq<byte>, norm: seq<int>, high: nat) {
    && high <= |cells|
    && (forall s :: 0 <= s < |norm| ==> Occurrences(cells, s, 0, high) == Positive(norm[s]))
    && (forall p :: 0 <= p < high ==> cells[p] < |norm|)
  }

  /** The spread of the symbols of positive probability over the cells below the threshold. */
  method SpreadSymbols(symbols: array<byte>, desc: array<u16>, norm: seq<int>, log: nat, high: nat)
    returns (ok: bool)
    requires 1 <= |norm| <= 256 && desc.Length == 256 && 1 <= log <= 10 && high <= Pow2(log) <= symbols.Length
    requires InRange(norm, Pow2(log)) && Pow2(log) < 65536
    modifies symbols, desc
    ensures ok <==> SpreadEnds(PositiveSum(norm, |norm|), high, log)
    ensures forall p :: high <= p < symbols.Length ==> symbols[p] == old(symbols[p])
    ensures !Spreads(log) ==> forall p :: 0 < p < symbols.Length ==> symbols[p] == old(symbols[p])
    ensures ok ==> forall s :: 0 <= s < |norm| ==> desc[s] == (if norm[s] > 0 then norm[s] else old(desc[s]))
    ensures ok && Spreads(log) && PositiveSum(norm, |norm|) == high > 0 ==>
      CellsPlaced(symbols[..], norm, high) && UnitsPlaced(symbols[..], norm, Pow2(log), high)
  {
    ok := false;
    var position: nat := 0;
    ghost var j: nat := 0;
    var symbol := 0;
    while symbol < |norm|
      invariant 0 <= symbol <= |norm|
      invariant Walking(symbols[..], norm, log, high, symbol, position, j)
      invariant forall p :: high <= p < symbols.Length ==> symbols[p] == old(symbols[p])
      invariant !Spreads(log) ==> forall p :: 0 < p < symbols.Length ==> symbols[p] == old(symbols[p])
      invariant forall s :: 0 <= s < |norm| ==>
        desc[s] == (if s < symbol && norm[s] > 0 then norm[s] else old(desc[s]))
    {
      if norm[symbol] > 0 {
        desc[symbol] := norm[symbol];
        if position >= high {
          PartialSums(norm, symbol + 1, |norm|);
          return;
        }
        ghost var before, at := symbols[..], j;
        position, j := PlaceSymbol(symbols, symbol, norm[symbol], log, high, position, j);
        WalkPlaces(before, symbols[..], norm, log, high, symbol, at, position, j);
      } else {
        WalkSkips(symbols[..], norm, log, high, symbol, position, j);
      }
      symbol := symbol + 1;
    }
    WalkOutcome(symbols[..], norm, log, high, position, j);
    ok := position == 0;
  }

  // ------------------------------------------------------------ state assignment

  lemma {:induction false} OccurrencesBound(cells: seq<byte>, s: int, lo: nat, hi: nat)
    requires lo <= hi <= |cells|
    ensures Occurrences(cells, s, lo, hi) <= hi - lo
    decreases hi - lo
  {
    if lo < hi {
      OccurrencesBound(cells, s, lo + 1, hi);
    }
  }

  /** The descriptors of a symbol with `c` cells lie in `[c, 2c)`. */
  lemma DescriptorRange(symbols: seq<byte>, norm: seq<int>, p: nat)
    requires Spread(symbols, norm) && p < |symbols|
    ensures 1 <= Magnitude(norm[symbols[p]]) <= |symbols|
    ensures Magnitude(norm[symbols[p]]) <= Descriptor(symbols, norm, p) < 2 * Magnitude(norm[symbols[p]])
  {
    var s := symbols[p];
    OccurrencesSplit(symbols, s, 0, p, |symbols|);
    OccurrencesBound(symbols, s, 0, |symbols|);
  }

  /** Scaling a descriptor to `log + 1` bits lands in `[size, 2 * size)`, with room for the bits read. */
  lemma Scaled(d: nat, log: nat)
    requires 1 <= d < Pow2(log + 1)
    ensures HighBit(d) <= log
    ensures Pow2(log) <= d * Pow2(log - HighBit(d))
    ensures d * Pow2(log - HighBit(d)) + Pow2(log - HighBit(d)) <= Pow2(log + 1)
  {
    var h := HighBit(d);
    HighBitBounds(d);
    if h > log { Pow2Mono(log + 1, h); }
    Pow2Add(h, log - h);
    Pow2Add(h + 1, log - h);
    MulMono(Pow2(h), d, Pow2(log - h));
    MulMono(d + 1, Pow2(h + 1), Pow2(log - h));
    Distribute(d, Pow2(log - h));
  }

  lemma DescriptorFits(symbols: seq<byte>, norm: seq<int>, log: nat, p: nat)
    requires Spread(symbols, norm) && |symbols| == Pow2(log) && p < |symbols| && log <= 10
    ensures var d := Descriptor(symbols, norm, p);
      && 1 <= d && HighBit(d) <= log
      && 0 <= d * Pow2(log - HighBit(d)) - Pow2(log)
      && d * Pow2(log - HighBit(d)) - Pow2(log) + Pow2(log - HighBit(d)) <= Pow2(log) < 65536
  {
    DescriptorRange(symbols, norm, p);
    Scaled(Descriptor(symbols, norm, p), log);
    PowersOfTwo();
    Pow2Mono(log, 10);
  }

  /** The fields of one state, in 8 and 16 bits. */
  method StateFields(descriptor: u16, log: nat) returns (bits: byte, base: u16)
    requires log <= 10
    ensures Fields(descriptor, log, bits, base)
  {
    var high := HighBit(descriptor);
    if high <= log {
      bits := log - high;
      base := (descriptor * Pow2(bits) - Pow2(log)) % 65536;
    } else {
      // The C code shifts by a wrapped count here, which the language leaves undefined.
      var undefined: u16 :| true;
      bits := (log - high) % 256;
      base := undefined;
    }
  }

  ghost predicate Fields(descriptor: nat, log: nat, bits: nat, base: int) {
    HighBit(descriptor) <= log ==>
      bits == log - HighBit(descriptor) && base == (descriptor * Pow2(bits) - Pow2(log)) % 65536
  }

  lemma FieldsAreState(symbols: seq<byte>, norm: seq<int>, log: nat, p: nat, bits: nat, base: int)
    requires Spread(symbols, norm) && |symbols| == Pow2(log) && p < |symbols| && log <= 10
    requires Fields(Descriptor(symbols, norm, p), log, bits, base)
    ensures StateOf(symbols, norm, log, p, bits, base)
  {
    DescriptorFits(symbols, norm, log, p);
  }

  /** A table of cells and counts from which every state gets its fields. */
  ghost predicate Ready(cells: seq<byte>, desc: seq<u16>, norm: seq<int>, log: nat) {
    && |norm| <= 256 && |desc| == 256 && |cells| == Pow2(log)
    && Spread(cells, norm)
    && forall s :: 0 <= s < |norm| ==> desc[s] == Magnitude(norm[s])
  }

  ghost predicate Advanced(cells: seq<byte>, desc: seq<u16>, norm: seq<int>, state: nat)
    requires |norm| <= |desc| && state <= |cells|
  {
    forall s :: 0 <= s < |norm| ==> desc[s] == Magnitude(norm[s]) + Occurrences(cells, s, 0, state)
  }

  lemma AdvanceOne(cells: seq<byte>, desc: seq<u16>, norm: seq<int>, log: nat, state: nat)
    requires |norm| <= 256 && |desc| == 256 && log <= 10 && state < |cells| == Pow2(log)
    requires Spread(cells, norm) && Advanced(cells, desc, norm, state)
    ensures desc[cells[state]] == Descriptor(cells, norm, state)
    ensures desc[cells[state]] < 65535
    ensures Advanced(cells, desc[cells[state] := desc[cells[state]] + 1], norm, state + 1)
  {
    PowersOfTwo();
    Pow2Mono(log, 10);
    DescriptorRange(cells, norm, state);
    forall s | 0 <= s < |norm|
      ensures Occurrences(cells, s, 0, state + 1)
        == Occurrences(cells, s, 0, state) + (if cells[state] == s then 1 else 0)
    {
      OccurrencesSplit(cells, s, 0, state, state + 1);
    }
  }

  /** The first `n` states have their fields and the counts have moved past them. */
  ghost predicate StatesDone(cells: seq<byte>, norm: seq<int>, log: nat, desc: seq<u16>, bits: seq<byte>,
                             base: seq<u16>, n: nat)
  {
    && |norm| <= 256 && |desc| == 256 && n <= |cells| == Pow2(log) <= |bits| && |cells| <= |base|
    && Spread(cells, norm)
    && Advanced(cells, desc, norm, n)
    && forall p :: 0 <= p < n ==> StateOf(cells, norm, log, p, bits[p], base[p])
  }

  lemma StatesExtend(cells: seq<byte>, norm: seq<int>, log: nat, desc: seq<u16>, bits: seq<byte>, base: seq<u16>,
                     n: nat, b: byte, v: u16)
    requires log <= 10 && n < |cells| && StatesDone(cells, norm, log, desc, bits, base, n)
    requires Fields(desc[cells[n]], log, b, v)
    ensures StatesDone(cells, norm, log, desc[cells[n] := Next(desc[cells[n]])], bits[n := b], base[n := v], n + 1)
  {
    AdvanceOne(cells, desc, norm, log, n);
    FieldsAreState(cells, norm, log, n, b, v);
  }

  /** A 16-bit increment. */
  function Next(x: u16): (y: u16) {
    if x == 65535 then 0 else x + 1
  }

  /** The final loop: each state takes the next descriptor of its symbol. */
  method AssignStates(symbols: array<byte>, desc: array<u16>, bits: array<byte>, base: array<u16>, log: nat,
                      ghost norm: seq<int>)
    requires 1 <= log <= 10 && Pow2(log) <= symbols.Length == bits.Length == base.Length && desc.Length == 256
    requires bits != symbols && desc != base
    modifies desc, bits, base
    ensures old(Ready(symbols[..Pow2(log)], desc[..], norm, log)) ==>
      StatesDone(old(symbols[..Pow2(log)]), norm, log, desc[..], bits[..], base[..], Pow2(log))
  {
    ghost var cells := symbols[..Pow2(log)];
    ghost var good := Ready(cells, desc[..], norm, log);
    var state := 0;
    while state < Pow2(log)
      invariant 0 <= state <= Pow2(log)
      invariant cells == symbols[..Pow2(log)]
      invariant good ==> StatesDone(cells, norm, log, desc[..], bits[..], base[..], state)
    {
      var symbol := symbols[state];
      var descriptor := desc[symbol];
      var b, n := StateFields(descriptor, log);
      if good {
        StatesExtend(cells, norm, log, desc[..], bits[..], base[..], state, b, n);
      }
      ghost var desc', bits', base' := desc[..][symbol := Next(descriptor)], bits[..][state := b], base[..][state := n];
      desc[symbol] := Next(descriptor);
      bits[state], base[state] := b, n;
      assert desc[..] == desc' && bits[..] == bits' && base[..] == base';
      state := state + 1;
    }
  }

  /** The three phases on the table's buffers. */
  method Fill(symbols: array<byte>, bits: array<byte>, base: array<u16>, norm: seq<int>, log: nat) returns (ok: bool)
    requires 1 <= |norm| <= 256 && 1 <= log <= 10
    requires Pow2(log) <= symbols.Length == bits.Length == base.Length && symbols != bits
    modifies symbols, bits, base
    ensures ok <==> Accepts(norm, log)
    ensures ok && Complete(norm, log) ==>
      Built(Table(log, symbols[..Pow2(log)], bits[..Pow2(log)], base[..Pow2(log)]), norm)
    ensures ok && Complete(norm, log) ==> Arranged(symbols[..Pow2(log)], norm)
    ensures ok && !Spreads(log) ==>
      forall p :: 0 < p < Pow2(log) - LowCount(norm, |norm|) ==> symbols[p] == old(symbols[p])
  {
    PowersOfTwo();
    Pow2Mono(log, 10);
    var desc := new u16[256];
    var high;
    ok, high := PlaceLow(symbols, desc, norm, Pow2(log));
    if !ok {
      return;
    }
    ghost var placed := symbols[..];
    ok := SpreadSymbols(symbols, desc, norm, log, high);
    if !ok {
      return;
    }
    if Complete(norm, log) {
      SpreadIsComplete(placed, symbols[..], norm, log, high);
      SpreadIsArranged(placed, symbols[..], norm, log, high);
      assert symbols[..][..Pow2(log)] == symbols[..Pow2(log)];
      assert Ready(symbols[..Pow2(log)], desc[..], norm, log);
    }
    AssignStates(symbols, desc, bits, base, log, norm);
  }

  // ------------------------------------------------------------ only complete probabilities build a table

  /** Cells that hold one of the first `n` symbols among the first `hi`. */
  function CellsOf(cells: seq<byte>, n: nat, hi: nat): (c: nat)
    requires hi <= |cells|
  {
    if n == 0 then 0 else CellsOf(cells, n - 1, hi) + Occurrences(cells, n - 1, 0, hi)
  }

  lemma {:induction false} CellsOfNext(cells: seq<byte>, n: nat, hi: nat)
    requires hi < |cells|
    ensures CellsOf(cells, n, hi + 1) == CellsOf(cells, n, hi) + (if cells[hi] < n then 1 else 0)
  {
    if n > 0 {
      CellsOfNext(cells, n - 1, hi);
      OccurrencesSplit(cells, n - 1, 0, hi, hi + 1);
    }
  }

  lemma {:induction false} CellsOfAll(cells: seq<byte>, n: nat, hi: nat)
    requires hi <= |cells| && forall p :: 0 <= p < hi ==> cells[p] < n
    ensures CellsOf(cells, n, hi) == hi
  {
    if hi == 0 {
      CellsOfNone(cells, n);
    } else {
      CellsOfAll(cells, n, hi - 1);
      CellsOfNext(cells, n, hi - 1);
    }
  }

  lemma {:induction false} CellsOfNone(cells: seq<byte>, n: nat)
    ensures CellsOf(cells, n, 0) == 0
  {
    if n > 0 {
      CellsOfNone(cells, n - 1);
    }
  }

  lemma {:induction false} CellsAreMagnitudes(cells: seq<byte>, norm: seq<int>, n: nat)
    requires Spread(cells, norm) && n <= |norm|
    ensures CellsOf(cells, n, |cells|) == MagnitudeSum(norm, n)
  {
    if n > 0 {
      CellsAreMagnitudes(cells, norm, n - 1);
    }
  }

  /** Every cell belongs to a symbol, so the magnitudes of a built table add up to its size. */
  lemma BuiltIsComplete(t: Table, norm: seq<int>)
    requires Built(t, norm) && Accepts(norm, t.log) && Spreads(t.log)
    ensures Complete(norm, t.log)
  {
    CellsAreMagnitudes(t.symbols, norm, |norm|);
    CellsOfAll(t.symbols, |norm|, |t.symbols|);
  }

  /** One symbol without cells is accepted, though its table of 32 cells stays unwritten. */
  lemma AcceptedIncomplete()
    ensures Accepts([0], 5) && Spreads(5) && !Complete([0], 5)
  {
    assert Pow2(5) == 32;
    assert PositiveSum([0], 1) == 0 && MagnitudeSum([0], 1) == 0 && LowCount([0], 1) == 0;
  }

  class FseTable {
    const symbols: array<byte>
    const bits: array<byte>
    const newState: array<u16>
    var size: nat
    var accuracyLog: nat

    ghost predicate Valid()
      reads this
    {
      symbols.Length == bits.Length == newState.Length == TABLE_MAX && symbols != bits && size <= TABLE_MAX
    }

    ghost function View(): (t: Table)
      requires Valid() && Pow2(accuracyLog) <= TABLE_MAX
      reads this, symbols, bits, newState
    {
      var n := Pow2(accuracyLog);
      Table(accuracyLog, symbols[..n], bits[..n], newState[..n])
    }

    constructor ()
      ensures Valid() && size == 0 && fresh(symbols) && fresh(bits) && fresh(newState)
    {
      symbols, bits, newState := new byte[TABLE_MAX], new byte[TABLE_MAX], new u16[TABLE_MAX];
      size, accuracyLog := 0, 0;
    }

    /**
     * Fills the table. Success is decided by the arguments alone; what is built is a decoding table
     * exactly for complete probabilities, and logs 1 and 3 leave every cell below the threshold but
     * the first unwritten.
     */
    method Build(norm: seq<int>, log: nat) returns (ok: bool)
      requires Valid()
      modifies this`size, this`accuracyLog, symbols, bits, newState
      ensures Valid()
      ensures ok <==> Accepts(norm, log)
      ensures ok ==> size == Pow2(log) <= TABLE_MAX && accuracyLog == log
      ensures !ok ==> size == old(size) && accuracyLog == old(accuracyLog)
      ensures ok && Spreads(log) ==> (Built(View(), norm) <==> Complete(norm, log))
      ensures ok && Complete(norm, log) ==> Arranged(View().symbols, norm)
      ensures ok && !Spreads(log) ==>
        forall p :: 0 < p < Pow2(log) - LowCount(norm, |norm|) ==> symbols[p] == old(symbols[p])
    {
      if |norm| == 0 || |norm| > 256 || log == 0 || log > 10 {
        return false;
      }
      PowersOfTwo();
      Pow2Mono(log, 10);
      ok := Fill(symbols, bits, newState, norm, log);
      if ok {
        size, accuracyLog := Pow2(log), log;
        if Spreads(log) && Built(View(), norm) {
          BuiltIsComplete(View(), norm);
        }
      }
    }
  }

  lemma SpreadIsComplete(placed: seq<byte>, cells: seq<byte>, norm: seq<int>, log: nat, high: nat)
    requires Complete(norm, log) && Pow2(log) <= |placed| == |cells|
    requires high == Pow2(log) - LowCount(norm, |norm|)
    requires forall p :: high <= p < Pow2(log) ==> cells[p] == placed[p] < |norm|
    requires forall s :: 0 <= s < |norm| ==> Occurrences(placed, s, high, Pow2(log)) == (if norm[s] == -1 then 1 else 0)
    requires PositiveSum(norm, |norm|) == high > 0 ==> CellsPlaced(cells, norm, high)
    ensures Spread(cells[..Pow2(log)], norm)
  {
    CompleteIsAccepted(norm, log);
    var size := Pow2(log);
    forall s | 0 <= s < |norm|
      ensures Occurrences(cells[..size], s, 0, size) == Magnitude(norm[s])
    {
      OccurrencesSame(cells[..size], cells, s, 0, size);
      OccurrencesSplit(cells, s, 0, high, size);
      OccurrencesSame(cells, placed, s, high, size);
      PositivePart(norm, s, |norm|);
    }
  }

  lemma LowKept(placed: seq<byte>, cells: seq<byte>, norm: seq<int>, size: nat, high: nat)
    requires size <= |placed| && size <= |cells| && LowCount(norm, |norm|) <= size
    requires LowPlaced(placed, norm, |norm|, size) && high == size - LowCount(norm, |norm|)
    requires forall p :: high <= p < size ==> cells[p] == placed[p]
    ensures LowPlaced(cells[..size], norm, |norm|, size)
  {
    hide LowCount;
    forall s | 0 <= s < |norm| && norm[s] == -1
      ensures LowCount(norm, s) < size && cells[size - 1 - LowCount(norm, s)] == s
    {
      LowCountNext(norm, s);
      PartialSums(norm, s + 1, |norm|);
    }
  }

  lemma UnitsKept(cells: seq<byte>, norm: seq<int>, size: nat, high: nat)
    requires 0 < size <= |cells| && (high > 0 ==> UnitsPlaced(cells, norm, size, high)) && high <= size
    ensures UnitsPlaced(cells[..size], norm, size, high)
  {
    hide Units, WalkCell, WalkRank;
  }

  lemma SpreadIsArranged(placed: seq<byte>, cells: seq<byte>, norm: seq<int>, log: nat, high: nat)
    requires Complete(norm, log) && Pow2(log) <= |placed| == |cells|
    requires LowCount(norm, |norm|) <= Pow2(log) && high == Pow2(log) - LowCount(norm, |norm|)
    requires LowPlaced(placed, norm, |norm|, Pow2(log))
    requires forall p :: high <= p < Pow2(log) ==> cells[p] == placed[p]
    requires PositiveSum(norm, |norm|) == high > 0 ==> UnitsPlaced(cells, norm, Pow2(log), high)
    ensures Arranged(cells[..Pow2(log)], norm)
  {
    hide LowPlaced, UnitsPlaced, LowCount, Complete;
    CompleteIsAccepted(norm, log);
    LowKept(placed, cells, norm, Pow2(log), high);
    UnitsKept(cells, norm, Pow2(log), high);
  }

  lemma LowCountNext(norm: seq<int>, s: nat)
    requires s < |norm| && norm[s] == -1
    ensures LowCount(norm, s + 1) == LowCount(norm, s) + 1
  {}

  lemma {:induction false} PositivePart(norm: seq<int>, i: nat, n: nat)
    requires i < n <= |norm|
    ensures Positive(norm[i]) <= PositiveSum(norm, n)
  {
    if i < n - 1 {
      PositivePart(norm, i, n - 1);
    }
  }
}
