/** The predefined tables (appendix A of RFC 8878), and one of them cell by cell. */
module FsePredefined {
  import opened Bits
  import opened BitExamples
  import opened FseOrbit
  import opened FseBuild
  import opened FseCodec
  import opened FseStream

  function LiteralLength(s: nat): (p: int) {
    if s == 0 then 4 else if s == 1 || s == 25 then 3
    else if s < 13 || 16 <= s < 27 then 2
    else if s < 32 then 1 else -1
  }

  function Offset(s: nat): (p: int) {
    if 6 <= s < 9 then 2 else if s < 24 then 1 else -1
  }

  function MatchLength(s: nat): (p: int) {
    if s == 1 then 4 else if s == 2 then 3 else if 3 <= s < 9 then 2 else if s < 46 then 1 else -1
  }

  const LITERAL_LENGTHS: seq<int> := seq(36, s requires 0 <= s => LiteralLength(s))
  const OFFSETS: seq<int> := seq(29, s requires 0 <= s => Offset(s))
  const MATCH_LENGTHS: seq<int> := seq(53, s requires 0 <= s => MatchLength(s))

  lemma {:induction false} SumOfSame(norm: seq<int>, m: nat, n: nat, v: nat)
    requires m <= n <= |norm| && forall i :: m <= i < n ==> Magnitude(norm[i]) == v
    ensures MagnitudeSum(norm, n) == MagnitudeSum(norm, m) + v * (n - m)
    decreases n
  {
    if m < n {
      SumOfSame(norm, m, n - 1, v);
      assert v * (n - m) == v * (n - 1 - m) + v;
    }
  }

  lemma OffsetsComplete()
    ensures Complete(OFFSETS, 5)
  {
    hide MagnitudeSum;
    PowersOfTwo();
    NoSum(OFFSETS);
    SumOfSame(OFFSETS, 0, 6, 1);
    SumOfSame(OFFSETS, 6, 9, 2);
    SumOfSame(OFFSETS, 9, 29, 1);
  }

  lemma NoSum(norm: seq<int>)
    ensures MagnitudeSum(norm, 0) == 0
  {}

  lemma LiteralLengthsComplete()
    ensures Complete(LITERAL_LENGTHS, 6)
  {
    hide MagnitudeSum;
    PowersOfTwo();
    NoSum(LITERAL_LENGTHS);
    SumOfSame(LITERAL_LENGTHS, 0, 1, 4);
    SumOfSame(LITERAL_LENGTHS, 1, 2, 3);
    SumOfSame(LITERAL_LENGTHS, 2, 13, 2);
    SumOfSame(LITERAL_LENGTHS, 13, 16, 1);
    SumOfSame(LITERAL_LENGTHS, 16, 25, 2);
    SumOfSame(LITERAL_LENGTHS, 25, 26, 3);
    SumOfSame(LITERAL_LENGTHS, 26, 27, 2);
    SumOfSame(LITERAL_LENGTHS, 27, 36, 1);
  }

  lemma MatchLengthsComplete()
    ensures Complete(MATCH_LENGTHS, 6)
  {
    hide MagnitudeSum;
    PowersOfTwo();
    NoSum(MATCH_LENGTHS);
    SumOfSame(MATCH_LENGTHS, 0, 1, 1);
    SumOfSame(MATCH_LENGTHS, 1, 2, 4);
    SumOfSame(MATCH_LENGTHS, 2, 3, 3);
    SumOfSame(MATCH_LENGTHS, 3, 9, 2);
    SumOfSame(MATCH_LENGTHS, 9, 53, 1);
  }

  /** One of the three tables; there is no fourth. */
  method BuildPredefined(table: FseTable, part: nat) returns (ok: bool)
    requires table.Valid()
    modifies table`size, table`accuracyLog, table.symbols, table.bits, table.newState
    ensures table.Valid() && (ok <==> part <= 2)
    ensures !ok ==> table.size == old(table.size) && table.accuracyLog == old(table.accuracyLog)
    ensures ok ==> Predefined(table, if part == 1 then 5 else 6,
                              if part == 0 then LITERAL_LENGTHS else if part == 1 then OFFSETS else MATCH_LENGTHS)
    ensures ok && part == 1 ==> table.View() == OFFSET_TABLE
  {
    hide Complete, Accepts, Arranged, Built;
    if part == 0 {
      LiteralLengthsComplete();
      CompleteIsAccepted(LITERAL_LENGTHS, 6);
      ok := table.Build(LITERAL_LENGTHS, 6);
    } else if part == 1 {
      OffsetsComplete();
      CompleteIsAccepted(OFFSETS, 5);
      ok := table.Build(OFFSETS, 5);
      OffsetTable(table.View());
    } else if part == 2 {
      MatchLengthsComplete();
      CompleteIsAccepted(MATCH_LENGTHS, 6);
      ok := table.Build(MATCH_LENGTHS, 6);
    } else {
      return false;
    }
  }

  /** The table is built from these probabilities, with every symbol in its cells. */
  ghost predicate Predefined(table: FseTable, log: nat, norm: seq<int>)
    reads table, table.symbols, table.bits, table.newState
  {
    && table.Valid() && table.accuracyLog == log && table.size == Pow2(log) <= TABLE_MAX
    && Built(table.View(), norm) && Arranged(table.View().symbols, norm)
  }

  // ------------------------------------------------------------ the table of offset codes

  /** Appendix A of RFC 8878 lists symbol, bits and base of each of the 32 states. */
  const OFFSET_SYMBOLS: seq<byte> :=
    [0, 6, 9, 15, 21, 3, 7, 12, 18, 23, 5, 8, 14, 20, 2, 7, 11, 17, 22, 4, 8, 13, 19, 1, 6, 10, 16, 28, 27, 26, 25, 24]
  const OFFSET_BITS: seq<byte> :=
    [5, 4, 5, 5, 5, 5, 4, 5, 5, 5, 5, 4, 5, 5, 5, 4, 5, 5, 5, 5, 4, 5, 5, 5, 4, 5, 5, 5, 5, 5, 5, 5]
  const OFFSET_BASES: seq<u16> :=
    [0, 0, 0, 0, 0, 0, 0, 0, 0, 0, 0, 0, 0, 0, 0, 16, 0, 0, 0, 0, 16, 0, 0, 0, 16, 0, 0, 0, 0, 0, 0, 0]

  const OFFSET_TABLE := Table(5, OFFSET_SYMBOLS, OFFSET_BITS, OFFSET_BASES)

  /** The walk at step `i`: on cell `p`, after `r` cells below 27. */
  predicate At(i: nat, p: nat, r: nat) {
    WalkCell(32, i) == p && WalkRank(32, 27, i) == r
  }

  lemma WalkStarts()
    ensures At(0, 0, 0)
  {}

  lemma WalkGoes(i: nat, p: nat, r: nat)
    requires At(i, p, r) && p < 32
    ensures At(i + 1, if p < 9 then p + 23 else p - 9, if p < 27 then r + 1 else r)
  {}

  lemma WalkFirst()
    ensures At(0, 0, 0) && At(1, 23, 1) && At(2, 14, 2) && At(3, 5, 3)
    ensures At(4, 28, 4) && At(5, 19, 4) && At(6, 10, 5) && At(7, 1, 6)
    ensures At(8, 24, 7)
  {
    hide At;
    WalkStarts();
    WalkGoes(0, 0, 0);
    WalkGoes(1, 23, 1);
    WalkGoes(2, 14, 2);
    WalkGoes(3, 5, 3);
    WalkGoes(4, 28, 4);
    WalkGoes(5, 19, 4);
    WalkGoes(6, 10, 5);
    WalkGoes(7, 1, 6);
  }

  lemma WalkSecond()
    requires At(8, 24, 7)
    ensures At(8, 24, 7) && At(9, 15, 8) && At(10, 6, 9) && At(11, 29, 10)
    ensures At(12, 20, 10) && At(13, 11, 11) && At(14, 2, 12) && At(15, 25, 13)
    ensures At(16, 16, 14)
  {
    hide At;
    WalkGoes(8, 24, 7);
    WalkGoes(9, 15, 8);
    WalkGoes(10, 6, 9);
    WalkGoes(11, 29, 10);
    WalkGoes(12, 20, 10);
    WalkGoes(13, 11, 11);
    WalkGoes(14, 2, 12);
    WalkGoes(15, 25, 13);
  }

  lemma WalkThird()
    requires At(16, 16, 14)
    ensures At(16, 16, 14) && At(17, 7, 15) && At(18, 30, 16) && At(19, 21, 16)
    ensures At(20, 12, 17) && At(21, 3, 18) && At(22, 26, 19) && At(23, 17, 20)
    ensures At(24, 8, 21)
  {
    hide At;
    WalkGoes(16, 16, 14);
    WalkGoes(17, 7, 15);
    WalkGoes(18, 30, 16);
    WalkGoes(19, 21, 16);
    WalkGoes(20, 12, 17);
    WalkGoes(21, 3, 18);
    WalkGoes(22, 26, 19);
    WalkGoes(23, 17, 20);
  }

  lemma WalkFourth()
    requires At(24, 8, 21)
    ensures At(24, 8, 21) && At(25, 31, 22) && At(26, 22, 22) && At(27, 13, 23)
    ensures At(28, 4, 24) && At(29, 27, 25) && At(30, 18, 25) && At(31, 9, 26)
  {
    hide At;
    WalkGoes(24, 8, 21);
    WalkGoes(25, 31, 22);
    WalkGoes(26, 22, 22);
    WalkGoes(27, 13, 23);
    WalkGoes(28, 4, 24);
    WalkGoes(29, 27, 25);
    WalkGoes(30, 18, 25);
  }

  /** Units of symbols whose probability is `v`. */
  lemma {:induction false} UnitsInTurn(norm: seq<int>, m: nat, n: nat, v: nat, k: nat, r: nat)
    requires m <= k < n <= |norm| && (forall i :: m <= i < n ==> norm[i] == v)
    requires v * (k - m) <= r - PositiveSum(norm, m) < v * (k - m) + v
    ensures PositiveSum(norm, n) == PositiveSum(norm, m) + v * (n - m)
    ensures 0 <= r < PositiveSum(norm, n) && Units(norm, n)[r] == k
    decreases n
  {
    SameSum(norm, m, n, v);
    SameSum(norm, m, n - 1, v);
    assert v * (n - m) == v * (n - 1 - m) + v;
    if k < n - 1 {
      UnitsInTurn(norm, m, n - 1, v, k, r);
    }
  }

  lemma {:induction false} SameSum(norm: seq<int>, m: nat, n: nat, v: nat)
    requires m <= n <= |norm| && forall i :: m <= i < n ==> norm[i] == v
    ensures PositiveSum(norm, n) == PositiveSum(norm, m) + v * (n - m)
    decreases n
  {
    if m < n {
      SameSum(norm, m, n - 1, v);
      assert v * (n - m) == v * (n - 1 - m) + v;
    }
  }

  lemma {:induction false} UnitsGrow(norm: seq<int>, m: nat, n: nat, r: nat)
    requires m <= n <= |norm| && r < PositiveSum(norm, m)
    ensures r < PositiveSum(norm, n) && Units(norm, n)[r] == Units(norm, m)[r]
    decreases n
  {
    if m < n {
      UnitsGrow(norm, m, n - 1, r);
    }
  }

  /** The 27 units in order. */
  function Unit(r: nat): (s: nat) {
    if r < 6 then r else if r < 12 then 6 + (r - 6) / 2 else r - 3
  }

  lemma OffsetSums()
    ensures PositiveSum(OFFSETS, 0) == 0 && PositiveSum(OFFSETS, 6) == 6 && PositiveSum(OFFSETS, 9) == 12
    ensures PositiveSum(OFFSETS, 24) == 27
  {
    hide PositiveSum;
    NoUnits(OFFSETS);
    SameSum(OFFSETS, 0, 6, 1);
    SameSum(OFFSETS, 6, 9, 2);
    SameSum(OFFSETS, 9, 24, 1);
  }

  lemma NoUnits(norm: seq<int>)
    ensures PositiveSum(norm, 0) == 0
  {}

  lemma OffsetUnit(r: nat)
    requires r < 27
    ensures r < |Units(OFFSETS, 29)| && Units(OFFSETS, 29)[r] == Unit(r)
  {
    hide PositiveSum, Units;
    OffsetSums();
    if r < 6 {
      UnitsInTurn(OFFSETS, 0, 6, 1, r, r);
      UnitsGrow(OFFSETS, 6, 29, r);
    } else if r < 12 {
      UnitsInTurn(OFFSETS, 6, 9, 2, 6 + (r - 6) / 2, r);
      UnitsGrow(OFFSETS, 9, 29, r);
    } else {
      UnitsInTurn(OFFSETS, 9, 24, 1, r - 3, r);
      UnitsGrow(OFFSETS, 24, 29, r);
    }
  }

  lemma {:induction false} LowSum(n: nat)
    requires n <= 29
    ensures LowCount(OFFSETS, n) == if n <= 24 then 0 else n - 24
  {
    if n > 0 {
      LowSum(n - 1);
    }
  }

  lemma LowCell(cells: seq<byte>, s: nat)
    requires Arranged(cells, OFFSETS) && |cells| == 32 && 24 <= s < 29
    ensures cells[55 - s] == s
  {
    hide LowCount, UnitsPlaced;
    LowSum(s);
  }

  lemma UnitCell(cells: seq<byte>, i: nat, p: nat, r: nat)
    requires Arranged(cells, OFFSETS) && |cells| == 32 && i < 32 && At(i, p, r) && p < 27 && r < 27
    ensures cells[p] == Unit(r)
  {
    hide LowCount, Units, WalkCell, WalkRank, LowPlaced;
    LowSum(29);
    OffsetUnit(r);
  }

  lemma CellsFirst(cells: seq<byte>)
    requires Arranged(cells, OFFSETS) && |cells| == 32
    requires At(0, 0, 0) && At(1, 23, 1) && At(2, 14, 2)
    requires At(3, 5, 3) && At(5, 19, 4) && At(6, 10, 5) && At(7, 1, 6)
    ensures cells[0] == 0 && cells[23] == 1 && cells[14] == 2 && cells[5] == 3 && cells[19] == 4 && cells[10] == 5
    ensures cells[1] == 6
  {
    hide At, Arranged;
    UnitCell(cells, 0, 0, 0);
    UnitCell(cells, 1, 23, 1);
    UnitCell(cells, 2, 14, 2);
    UnitCell(cells, 3, 5, 3);
    UnitCell(cells, 5, 19, 4);
    UnitCell(cells, 6, 10, 5);
    UnitCell(cells, 7, 1, 6);
  }

  lemma CellsSecond(cells: seq<byte>)
    requires Arranged(cells, OFFSETS) && |cells| == 32
    requires At(8, 24, 7) && At(9, 15, 8) && At(10, 6, 9)
    requires At(12, 20, 10) && At(13, 11, 11) && At(14, 2, 12) && At(15, 25, 13)
    ensures cells[24] == 6 && cells[15] == 7 && cells[6] == 7 && cells[20] == 8 && cells[11] == 8 && cells[2] == 9
    ensures cells[25] == 10
  {
    hide At, Arranged;
    UnitCell(cells, 8, 24, 7);
    UnitCell(cells, 9, 15, 8);
    UnitCell(cells, 10, 6, 9);
    UnitCell(cells, 12, 20, 10);
    UnitCell(cells, 13, 11, 11);
    UnitCell(cells, 14, 2, 12);
    UnitCell(cells, 15, 25, 13);
  }

  lemma CellsThird(cells: seq<byte>)
    requires Arranged(cells, OFFSETS) && |cells| == 32
    requires At(16, 16, 14) && At(17, 7, 15) && At(19, 21, 16)
    requires At(20, 12, 17) && At(21, 3, 18) && At(22, 26, 19) && At(23, 17, 20)
    ensures cells[16] == 11 && cells[7] == 12 && cells[21] == 13 && cells[12] == 14 && cells[3] == 15
    ensures cells[26] == 16 && cells[17] == 17
  {
    hide At, Arranged;
    UnitCell(cells, 16, 16, 14);
    UnitCell(cells, 17, 7, 15);
    UnitCell(cells, 19, 21, 16);
    UnitCell(cells, 20, 12, 17);
    UnitCell(cells, 21, 3, 18);
    UnitCell(cells, 22, 26, 19);
    UnitCell(cells, 23, 17, 20);
  }

  lemma CellsFourth(cells: seq<byte>)
    requires Arranged(cells, OFFSETS) && |cells| == 32
    requires At(24, 8, 21) && At(26, 22, 22) && At(27, 13, 23)
    requires At(28, 4, 24) && At(30, 18, 25) && At(31, 9, 26)
    ensures cells[8] == 18 && cells[22] == 19 && cells[13] == 20 && cells[4] == 21 && cells[18] == 22 && cells[9] == 23
  {
    hide At, Arranged;
    UnitCell(cells, 24, 8, 21);
    UnitCell(cells, 26, 22, 22);
    UnitCell(cells, 27, 13, 23);
    UnitCell(cells, 28, 4, 24);
    UnitCell(cells, 30, 18, 25);
    UnitCell(cells, 31, 9, 26);
  }

  /** Whatever else it looks like, a table of these probabilities has the symbols of the appendix. */
  lemma OffsetSymbols(cells: seq<byte>)
    requires Arranged(cells, OFFSETS) && |cells| == 32
    ensures cells == OFFSET_SYMBOLS
  {
    hide Arranged, At;
    WalkFirst();
    WalkSecond();
    WalkThird();
    WalkFourth();
    CellsFirst(cells);
    CellsSecond(cells);
    CellsThird(cells);
    CellsFourth(cells);
    LowCell(cells, 24);
    LowCell(cells, 25);
    LowCell(cells, 26);
    LowCell(cells, 27);
    LowCell(cells, 28);
  }

  // ------------------------------------------------------------ bits and bases

  lemma SmallDescriptors()
    ensures HighBit(1) == 0 && HighBit(2) == 1 && HighBit(3) == 1
  {}

  /** The only cell of a symbol. */
  lemma OnlyCell(t: Table, p: nat)
    requires Built(t, OFFSETS) && t.log == 5 && p < 32 && t.symbols[p] < 29 && Magnitude(OFFSETS[t.symbols[p]]) == 1
    ensures t.bits[p] == 5 && t.base[p] == 0
  {
    hide Occurrences, HighBit, Pow2;
    PowersOfTwo();
    SmallDescriptors();
    var s := t.symbols[p];
    OccurrencesSplit(t.symbols, s, 0, p, 32);
    SomeOccurrence(t.symbols, p, p, 32);
    assert StateOf(t.symbols, OFFSETS, 5, p, t.bits[p], t.base[p]);
  }

  /** The first and the second cell of a symbol with two. */
  lemma TwoCells(t: Table, p: nat, q: nat)
    requires Built(t, OFFSETS) && t.log == 5 && p < q < 32 && t.symbols[p] == t.symbols[q] < 29
    requires Magnitude(OFFSETS[t.symbols[p]]) == 2
    ensures t.bits[p] == 4 == t.bits[q] && t.base[p] == 0 && t.base[q] == 16
  {
    hide Occurrences, HighBit, Pow2;
    PowersOfTwo();
    SmallDescriptors();
    var s := t.symbols[p];
    OccurrencesSplit(t.symbols, s, 0, p, q);
    OccurrencesSplit(t.symbols, s, 0, q, 32);
    SomeOccurrence(t.symbols, p, p, q);
    SomeOccurrence(t.symbols, q, q, 32);
    assert StateOf(t.symbols, OFFSETS, 5, p, t.bits[p], t.base[p]);
    assert StateOf(t.symbols, OFFSETS, 5, q, t.bits[q], t.base[q]);
  }

  lemma FieldsFirst(t: Table)
    requires Built(t, OFFSETS) && t.log == 5 && |t.symbols| == |t.bits| == |t.base| == 32
    requires t.symbols[0] == 0 && t.symbols[2] == 9 && t.symbols[3] == 15 && t.symbols[4] == 21
    requires t.symbols[5] == 3 && t.symbols[7] == 12
    ensures t.bits[0] == 5 && t.bits[2] == 5 && t.bits[3] == 5 && t.bits[4] == 5 && t.bits[5] == 5 && t.bits[7] == 5
    ensures t.base[0] == 0 && t.base[2] == 0 && t.base[3] == 0 && t.base[4] == 0 && t.base[5] == 0 && t.base[7] == 0
  {
    hide Built;
    OnlyCell(t, 0);
    OnlyCell(t, 2);
    OnlyCell(t, 3);
    OnlyCell(t, 4);
    OnlyCell(t, 5);
    OnlyCell(t, 7);
  }

  lemma FieldsSecond(t: Table)
    requires Built(t, OFFSETS) && t.log == 5 && |t.symbols| == |t.bits| == |t.base| == 32
    requires t.symbols[8] == 18 && t.symbols[9] == 23 && t.symbols[10] == 5 && t.symbols[12] == 14
    requires t.symbols[13] == 20 && t.symbols[14] == 2
    ensures t.bits[8] == 5 && t.bits[9] == 5 && t.bits[10] == 5 && t.bits[12] == 5 && t.bits[13] == 5 && t.bits[14] == 5
    ensures t.base[8] == 0 && t.base[9] == 0 && t.base[10] == 0 && t.base[12] == 0 && t.base[13] == 0 && t.base[14] == 0
  {
    hide Built;
    OnlyCell(t, 8);
    OnlyCell(t, 9);
    OnlyCell(t, 10);
    OnlyCell(t, 12);
    OnlyCell(t, 13);
    OnlyCell(t, 14);
  }

  lemma FieldsThird(t: Table)
    requires Built(t, OFFSETS) && t.log == 5 && |t.symbols| == |t.bits| == |t.base| == 32
    requires t.symbols[16] == 11 && t.symbols[17] == 17 && t.symbols[18] == 22 && t.symbols[19] == 4
    requires t.symbols[21] == 13 && t.symbols[22] == 19 && t.symbols[23] == 1
    ensures t.bits[16] == 5 && t.bits[17] == 5 && t.bits[18] == 5 && t.bits[19] == 5 && t.bits[21] == 5
    ensures t.bits[22] == 5 && t.bits[23] == 5
    ensures t.base[16] == 0 && t.base[17] == 0 && t.base[18] == 0 && t.base[19] == 0 && t.base[21] == 0
    ensures t.base[22] == 0 && t.base[23] == 0
  {
    hide Built;
    OnlyCell(t, 16);
    OnlyCell(t, 17);
    OnlyCell(t, 18);
    OnlyCell(t, 19);
    OnlyCell(t, 21);
    OnlyCell(t, 22);
    OnlyCell(t, 23);
  }

  lemma FieldsFourth(t: Table)
    requires Built(t, OFFSETS) && t.log == 5 && |t.symbols| == |t.bits| == |t.base| == 32
    requires t.symbols[25] == 10 && t.symbols[26] == 16 && t.symbols[27] == 28 && t.symbols[28] == 27
    requires t.symbols[29] == 26 && t.symbols[30] == 25 && t.symbols[31] == 24
    ensures t.bits[25] == 5 && t.bits[26] == 5 && t.bits[27] == 5 && t.bits[28] == 5 && t.bits[29] == 5
    ensures t.bits[30] == 5 && t.bits[31] == 5
    ensures t.base[25] == 0 && t.base[26] == 0 && t.base[27] == 0 && t.base[28] == 0 && t.base[29] == 0
    ensures t.base[30] == 0 && t.base[31] == 0
  {
    hide Built;
    OnlyCell(t, 25);
    OnlyCell(t, 26);
    OnlyCell(t, 27);
    OnlyCell(t, 28);
    OnlyCell(t, 29);
    OnlyCell(t, 30);
    OnlyCell(t, 31);
  }

  /** The table of offset codes is that of the appendix, cell by cell. */
  lemma OffsetTable(t: Table)
    requires Built(t, OFFSETS) && Arranged(t.symbols, OFFSETS) && t.log == 5
    ensures t.symbols == OFFSET_SYMBOLS && t.bits == OFFSET_BITS && t.base == OFFSET_BASES
  {
    hide Arranged, Built;
    BuiltSize(t);
    OffsetSymbols(t.symbols);
    TwoCells(t, 1, 24);
    TwoCells(t, 6, 15);
    TwoCells(t, 11, 20);
    FieldsFirst(t);
    FieldsSecond(t);
    FieldsThird(t);
    FieldsFourth(t);
  }

  lemma BuiltSize(t: Table)
    requires Built(t, OFFSETS) && t.log == 5
    ensures |t.symbols| == |t.bits| == |t.base| == 32
  {
    PowersOfTwo();
  }

  // ------------------------------------------------------------ a stream

  const STREAM_BITS := EightBits(0xb4) + EightBits(0x31)

  lemma StreamBits()
    ensures BitsOf([0xb4, 0x31]) == STREAM_BITS
    ensures STREAM_BITS[11..16] == [false, true, true, false, false]
    ensures STREAM_BITS[7..11] == [true, true, false, false] && STREAM_BITS[2..7] == [true, false, true, true, false]
  {
    hide BitsOf;
    TwoBytes(0xb4, 0x31);
  }

  /** An entry of a table. */
  predicate Entry(t: Table, state: nat, symbol: byte, bits: byte, base: u16) {
    t.Sized() && state < |t.symbols| && t.symbols[state] == symbol && t.bits[state] == bits && t.base[state] == base
  }

  lemma DecodesOne(t: Table, bits: seq<bool>, state: nat, offset: int, count: nat, symbol: byte, read: byte, base: u16)
    requires Entry(t, state, symbol, read, base) && offset <= |bits| && count > 0
    ensures Decoded(t, bits, state, offset, count)
         == [symbol] + Decoded(t, bits, Sum32(base, ReadBack(bits, offset, read)), offset - read, count - 1)
  {}

  lemma Decodes(t: Table, bits: seq<bool>)
    requires t.log == 5 && Entry(t, 6, 7, 4, 0) && Entry(t, 3, 15, 5, 0) && Entry(t, 13, 20, 5, 0) && |bits| == 16
    requires ReadBack(bits, 11, 4) == 3 && ReadBack(bits, 7, 5) == 13
    ensures Decoded(t, bits, 6, 11, 3) == [7, 15, 20]
  {
    hide Decoded, ReadBack;
    DecodesOne(t, bits, 6, 11, 3, 7, 4, 0);
    DecodesOne(t, bits, 3, 7, 2, 15, 5, 0);
    DecodesOne(t, bits, 13, 2, 1, 20, 5, 0);
    DecodesNone(t, bits, Sum32(0, ReadBack(bits, 2, 5)), -3);
    assert [7] + ([15] + ([20] + [])) == [7, 15, 20];
  }

  lemma DecodesNone(t: Table, bits: seq<bool>, state: nat, offset: int)
    requires t.Sized() && offset <= |bits|
    ensures Decoded(t, bits, state, offset, 0) == []
  {}

  lemma OffsetEntries()
    ensures Entry(OFFSET_TABLE, 6, 7, 4, 0) && Entry(OFFSET_TABLE, 3, 15, 5, 0) && Entry(OFFSET_TABLE, 13, 20, 5, 0)
  {
    PowersOfTwo();
  }

  /** Two bytes, read backwards: the start state 6, then 4 bits to state 3 and 5 bits to state 13. */
  lemma StreamExample()
    ensures OFFSET_TABLE.Sized() && PlainDecoded(OFFSET_TABLE, [0xb4, 0x31], 3) == [7, 15, 20]
  {
    hide Value, BitsOf, Decoded, EightBits;
    OffsetEntries();
    StreamBits();
    SmallValue(false, true, true, false, false);
    SmallValue(true, true, false, false, false);
    SmallValue(true, false, true, true, false);
    Decodes(OFFSET_TABLE, STREAM_BITS);
  }
}
