/**
 * The walk that spreads FSE symbols over a table: repeated addition of a fixed step modulo a
 * power of two, skipping the cells at or above a threshold.
 */
module FseOrbit {
  import opened Bits

  /** One step of the walk; the mask of a power of two is a remainder. */
  function Advance(size: nat, step: nat, p: nat): (q: nat)
    requires size > 0
    ensures q < size
  {
    (p + step) % size
  }

  /** The position after `j` steps from cell 0. */
  function Orbit(size: nat, step: nat, j: nat): (p: nat)
    requires size > 0
    ensures p < size
  {
    if j == 0 then 0 else Advance(size, step, Orbit(size, step, j - 1))
  }

  /** How many of the first `j` positions lie below the threshold. */
  function Usable(size: nat, step: nat, high: nat, j: nat): (n: nat)
    requires size > 0
  {
    if j == 0 then 0
    else Usable(size, step, high, j - 1) + (if Orbit(size, step, j - 1) < high then 1 else 0)
  }

  // ------------------------------------------------------------ full cycle

  /** An odd factor does not help a power of two to divide a product. */
  lemma {:induction false} OddFactor(n: nat, d: int, s: int, k: int) returns (m: int)
    requires s % 2 == 1
    requires d * s == k * Pow2(n)
    ensures d == m * Pow2(n)
  {
    if n == 0 {
      m := d;
    } else {
      var p := Pow2(n - 1);
      DoubleProduct(k, p);
      EvenFactor(d, s, k * p);
      var e := d / 2;
      DoubleProduct(e, s);
      m := OddFactor(n - 1, e, s, k);
      DoubleProduct(m, p);
    }
  }

  lemma EvenFactor(d: int, s: int, h: int)
    requires s % 2 == 1 && d * s == 2 * h
    ensures d % 2 == 0
  {
    var e, t := d / 2, s / 2;
    if d % 2 == 1 {
      assert d == 2 * e + 1 && s == 2 * t + 1;
      OddProduct(e, t);
    }
  }

  lemma OddProduct(e: int, t: int)
    ensures (2 * e + 1) * (2 * t + 1) == 2 * (2 * (e * t) + e + t) + 1
  {}

  /** The position is `j * step` up to a multiple of the size. */
  lemma {:induction false} OrbitForm(size: nat, step: nat, j: nat) returns (k: int)
    requires size > 0
    ensures Orbit(size, step, j) == j * step - k * size
  {
    if j == 0 {
      k := 0;
    } else {
      var k' := OrbitForm(size, step, j - 1);
      var x := Orbit(size, step, j - 1) + step;
      var q := x / size;
      assert x == q * size + x % size;
      assert (j - 1) * step == j * step - step;
      assert (k' + q) * size == k' * size + q * size;
      k := k' + q;
    }
  }

  /** With an odd step no position repeats within one period. */
  lemma OrbitInjective(log: nat, step: nat, i: nat, j: nat)
    requires step % 2 == 1
    requires i < j < Pow2(log)
    ensures Orbit(Pow2(log), step, i) != Orbit(Pow2(log), step, j)
  {
    var size := Pow2(log);
    if Orbit(size, step, i) == Orbit(size, step, j) {
      var a := OrbitForm(size, step, i);
      var b := OrbitForm(size, step, j);
      assert (j - i) * step == j * step - i * step;
      assert (b - a) * size == b * size - a * size;
      var m := OddFactor(log, j - i, step, b - a);
      if m <= 0 { MulMono(m, 0, size); } else { MulMono(1, m, size); }
      assert false;
    }
  }

  /** After `size` steps the walk is back at cell 0, whatever the step. */
  lemma {:induction false} OrbitPeriod(size: nat, step: nat, j: nat)
    requires size > 0
    ensures Orbit(size, step, j + size) == Orbit(size, step, j)
  {
    if j == 0 {
      OrbitSize(size, step);
    } else {
      OrbitPeriod(size, step, j - 1);
    }
  }

  lemma OrbitSize(size: nat, step: nat)
    requires size > 0
    ensures Orbit(size, step, size) == 0
  {
    var k := OrbitForm(size, step, size);
    var m := step - k;
    assert m * size == size * step - k * size;
    if m >= 1 { MulMono(1, m, size); } else { MulMono(m, 0, size); }
  }

  lemma {:induction false} OrbitMultiple(size: nat, step: nat, m: nat)
    requires size > 0
    ensures m * size >= 0
    ensures Orbit(size, step, m * size) == 0
  {
    if m > 0 {
      OrbitMultiple(size, step, m - 1);
      OrbitPeriod(size, step, (m - 1) * size);
      assert (m - 1) * size + size == m * size;
    }
  }

  // ------------------------------------------------------------ counting usable positions

  lemma {:induction false} UsableMono(size: nat, step: nat, high: nat, i: nat, j: nat)
    requires size > 0 && i <= j
    ensures Usable(size, step, high, i) <= Usable(size, step, high, j)
    decreases j
  {
    if i < j {
      UsableMono(size, step, high, i, j - 1);
    }
  }

  /** A usable index is determined by the number of usable indices before it. */
  lemma UsableUnique(size: nat, step: nat, high: nat, i: nat, j: nat)
    requires size > 0
    requires Orbit(size, step, i) < high && Orbit(size, step, j) < high
    requires Usable(size, step, high, i) == Usable(size, step, high, j)
    ensures i == j
  {
    var a, b := if i < j then i else j, if i < j then j else i;
    if a < b {
      UsableMono(size, step, high, a + 1, b);
      assert false;
    }
  }

  lemma {:induction false} UsablePeriod(size: nat, step: nat, high: nat, j: nat)
    requires size > 0
    ensures Usable(size, step, high, j + size) == Usable(size, step, high, j) + Usable(size, step, high, size)
  {
    if j > 0 {
      UsablePeriod(size, step, high, j - 1);
      OrbitPeriod(size, step, j - 1);
      assert j + size - 1 == (j - 1) + size;
    }
  }

  lemma {:induction false} UsableMultiple(size: nat, step: nat, high: nat, m: nat)
    requires size > 0
    ensures m * size >= 0
    ensures Usable(size, step, high, m * size) == m * Usable(size, step, high, size)
  {
    if m > 0 {
      var u := Usable(size, step, high, size);
      UsableMultiple(size, step, high, m - 1);
      UsablePeriod(size, step, high, (m - 1) * size);
      assert (m - 1) * size + size == m * size;
      assert (m - 1) * u + u == m * u;
    }
  }

  // ------------------------------------------------------------ positions as sets

  ghost function Positions(size: nat, step: nat, j: nat): (s: set<nat>)
    requires size > 0
  {
    set i | 0 <= i < j :: Orbit(size, step, i)
  }

  ghost function Below(n: nat): (s: set<nat>)
    ensures forall p :: p in s <==> 0 <= p < n
    ensures |s| == n
  {
    if n == 0 then {} else Below(n - 1) + {n - 1}
  }

  lemma {:induction false} PositionsSize(log: nat, step: nat, j: nat)
    requires step % 2 == 1 && j <= Pow2(log)
    ensures |Positions(Pow2(log), step, j)| == j
  {
    var size := Pow2(log);
    if j == 0 {
      assert Positions(size, step, 0) == {};
    } else {
      PositionsSize(log, step, j - 1);
      var last := Orbit(size, step, j - 1);
      forall i | 0 <= i < j - 1
        ensures Orbit(size, step, i) != last
      {
        OrbitInjective(log, step, i, j - 1);
      }
      assert Positions(size, step, j) == Positions(size, step, j - 1) + {last};
    }
  }

  lemma SubsetSameSize(a: set<nat>, b: set<nat>)
    requires a <= b && |a| == |b|
    ensures a == b
  {
    assert |b - a| == |b| - |a|;
  }

  /** With an odd step one period visits every cell. */
  lemma OrbitCovers(log: nat, step: nat)
    requires step % 2 == 1
    ensures Positions(Pow2(log), step, Pow2(log)) == Below(Pow2(log))
  {
    var size := Pow2(log);
    PositionsSize(log, step, size);
    SubsetSameSize(Positions(size, step, size), Below(size));
  }

  // ------------------------------------------------------------ counting along the walk

  /** Occurrences of `s` in `cells[lo..hi]`. */
  function Occurrences(cells: seq<byte>, s: int, lo: nat, hi: nat): (n: nat)
    requires lo <= hi <= |cells|
    decreases hi - lo
  {
    if lo == hi then 0 else (if cells[lo] == s then 1 else 0) + Occurrences(cells, s, lo + 1, hi)
  }

  lemma {:induction false} OccurrencesSplit(cells: seq<byte>, s: int, lo: nat, mid: nat, hi: nat)
    requires lo <= mid <= hi <= |cells|
    ensures Occurrences(cells, s, lo, hi) == Occurrences(cells, s, lo, mid) + Occurrences(cells, s, mid, hi)
    decreases mid - lo
  {
    if lo < mid {
      OccurrencesSplit(cells, s, lo + 1, mid, hi);
    }
  }

  lemma {:induction false} OccurrencesSame(a: seq<byte>, b: seq<byte>, s: int, lo: nat, hi: nat)
    requires lo <= hi <= |a| && hi <= |b|
    requires forall p :: lo <= p < hi ==> a[p] == b[p]
    ensures Occurrences(a, s, lo, hi) == Occurrences(b, s, lo, hi)
    decreases hi - lo
  {
    if lo < hi {
      OccurrencesSame(a, b, s, lo + 1, hi);
    }
  }

  /** Occurrences of `s` in the usable cells among the first `j` positions of the walk. */
  function Visited(cells: seq<byte>, s: int, size: nat, step: nat, high: nat, j: nat): (n: nat)
    requires 0 < size <= |cells|
  {
    if j == 0 then 0
    else
      var p := Orbit(size, step, j - 1);
      Visited(cells, s, size, step, high, j - 1) + (if p < high && cells[p] == s then 1 else 0)
  }

  /** Writing the cell the walk stands on does not change the counts of the cells before it. */
  lemma {:induction false} VisitedUpdate(cells: seq<byte>, s: int, log: nat, step: nat, high: nat, i: nat, j: nat,
                                         v: byte)
    requires step % 2 == 1 && i <= j < Pow2(log) <= |cells|
    ensures Visited(cells[Orbit(Pow2(log), step, j) := v], s, Pow2(log), step, high, i)
         == Visited(cells, s, Pow2(log), step, high, i)
  {
    if i > 0 {
      VisitedUpdate(cells, s, log, step, high, i - 1, j, v);
      OrbitInjective(log, step, i - 1, j);
    }
  }

  ghost function Holding(cells: seq<byte>, s: int, positions: set<nat>, high: nat): (r: set<nat>) {
    set p | p in positions && p < high && p < |cells| && cells[p] == s
  }

  lemma {:induction false} VisitedSet(cells: seq<byte>, s: int, log: nat, step: nat, high: nat, j: nat)
    requires step % 2 == 1 && j <= Pow2(log) <= |cells|
    ensures Visited(cells, s, Pow2(log), step, high, j) == |Holding(cells, s, Positions(Pow2(log), step, j), high)|
  {
    var size := Pow2(log);
    if j == 0 {
      assert Holding(cells, s, Positions(size, step, 0), high) == {};
    } else {
      VisitedSet(cells, s, log, step, high, j - 1);
      var p := Orbit(size, step, j - 1);
      forall i | 0 <= i < j - 1
        ensures Orbit(size, step, i) != p
      {
        OrbitInjective(log, step, i, j - 1);
      }
      assert Positions(size, step, j) == Positions(size, step, j - 1) + {p};
      HoldingAdd(cells, s, Positions(size, step, j - 1), high, p);
    }
  }

  lemma HoldingAdd(cells: seq<byte>, s: int, positions: set<nat>, high: nat, p: nat)
    requires p !in positions && p < |cells|
    ensures |Holding(cells, s, positions + {p}, high)|
         == |Holding(cells, s, positions, high)| + (if p < high && cells[p] == s then 1 else 0)
  {
    if p < high && cells[p] == s {
      assert Holding(cells, s, positions + {p}, high) == Holding(cells, s, positions, high) + {p};
    } else {
      assert Holding(cells, s, positions + {p}, high) == Holding(cells, s, positions, high);
    }
  }

  lemma {:induction false} OccurrencesSet(cells: seq<byte>, s: int, high: nat)
    requires high <= |cells|
    ensures Occurrences(cells, s, 0, high) == |Holding(cells, s, Below(high), high)|
  {
    if high == 0 {
      assert Holding(cells, s, Below(0), 0) == {};
    } else {
      OccurrencesSet(cells, s, high - 1);
      OccurrencesSplit(cells, s, 0, high - 1, high);
      assert Holding(cells, s, Below(high - 1), high) == Holding(cells, s, Below(high - 1), high - 1);
      HoldingAdd(cells, s, Below(high - 1), high, high - 1);
    }
  }

  /** Over one period the walk counts every cell below the threshold once. */
  lemma VisitedAll(cells: seq<byte>, s: int, log: nat, step: nat, high: nat)
    requires step % 2 == 1 && high <= Pow2(log) <= |cells|
    ensures Visited(cells, s, Pow2(log), step, high, Pow2(log)) == Occurrences(cells, s, 0, high)
  {
    VisitedSet(cells, s, log, step, high, Pow2(log));
    OrbitCovers(log, step);
    OccurrencesSet(cells, s, high);
    assert Holding(cells, s, Below(Pow2(log)), high) == Holding(cells, s, Below(high), high);
  }

  /** Over one period the walk meets exactly `high` usable cells. */
  lemma UsableAll(log: nat, step: nat, high: nat)
    requires step % 2 == 1 && high <= Pow2(log)
    ensures Usable(Pow2(log), step, high, Pow2(log)) == high
  {
    var size := Pow2(log);
    var zeros: seq<byte> := seq(size, i => 0);
    VisitedUsable(zeros, size, step, high, size);
    VisitedAll(zeros, 0, log, step, high);
    OccurrencesConstant(zeros, 0, high);
  }

  lemma {:induction false} VisitedUsable(zeros: seq<byte>, size: nat, step: nat, high: nat, j: nat)
    requires 0 < size <= |zeros| && forall p :: 0 <= p < |zeros| ==> zeros[p] == 0
    ensures Visited(zeros, 0, size, step, high, j) == Usable(size, step, high, j)
  {
    if j > 0 {
      VisitedUsable(zeros, size, step, high, j - 1);
    }
  }

  lemma {:induction false} OccurrencesConstant(zeros: seq<byte>, lo: nat, hi: nat)
    requires lo <= hi <= |zeros| && forall p :: 0 <= p < |zeros| ==> zeros[p] == 0
    ensures Occurrences(zeros, 0, lo, hi) == hi - lo
    decreases hi - lo
  {
    if lo < hi {
      OccurrencesConstant(zeros, lo + 1, hi);
    }
  }

  /**
   * The walk stands on cell 0 exactly when the number of cells it has filled is a multiple of
   * the number of usable cells.
   */
  lemma BackAtZero(log: nat, step: nat, high: nat, j: nat)
    requires step % 2 == 1 && 0 < high <= Pow2(log)
    requires Orbit(Pow2(log), step, j) < high
    ensures Orbit(Pow2(log), step, j) == 0 <==> Usable(Pow2(log), step, high, j) % high == 0
  {
    if Orbit(Pow2(log), step, j) == 0 {
      CountAtZero(log, step, high, j);
    } else if Usable(Pow2(log), step, high, j) % high == 0 {
      var m := ExactQuotient(Usable(Pow2(log), step, high, j), high);
      MultipleIsZero(log, step, high, j, m);
    }
  }

  lemma ExactQuotient(u: nat, d: nat) returns (m: nat)
    requires d > 0 && u % d == 0
    ensures u == m * d
  {
    m := u / d;
  }

  lemma CountAtZero(log: nat, step: nat, high: nat, j: nat)
    requires step % 2 == 1 && 0 < high <= Pow2(log)
    requires Orbit(Pow2(log), step, j) == 0
    ensures Usable(Pow2(log), step, high, j) % high == 0
  {
    UsableAll(log, step, high);
    var m := ZeroIsMultiple(log, step, j);
    UsableMultiple(Pow2(log), step, high, m);
    DivModUnique(m, high, 0);
  }

  lemma MultipleIsZero(log: nat, step: nat, high: nat, j: nat, m: nat)
    requires step % 2 == 1 && 0 < high <= Pow2(log)
    requires Orbit(Pow2(log), step, j) < high
    requires Usable(Pow2(log), step, high, j) == m * high
    ensures Orbit(Pow2(log), step, j) == 0
  {
    var size := Pow2(log);
    UsableAll(log, step, high);
    UsableMultiple(size, step, high, m);
    OrbitMultiple(size, step, m);
    UsableUnique(size, step, high, j, m * size);
  }

  lemma {:induction false} ZeroIsMultiple(log: nat, step: nat, j: nat) returns (m: nat)
    requires step % 2 == 1
    requires Orbit(Pow2(log), step, j) == 0
    ensures j == m * Pow2(log)
  {
    var size := Pow2(log);
    if j < size {
      m := 0;
      if 0 < j { OrbitInjective(log, step, 0, j); }
    } else {
      OrbitPeriod(size, step, j - size);
      m := ZeroIsMultiple(log, step, j - size);
      m := m + 1;
    }
  }
}
