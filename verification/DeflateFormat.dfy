/** The constants of the format as RFC 1950 and RFC 1951 define them, against which the decoder's own are judged. */
module DeflateFormat {
  import opened Bits
  import opened Huffman
  import opened Inflate
  import opened DeflateWriter
  import opened DeflateTables

  // ------------------------------------------------------------ the zlib header

  lemma HeaderFields(cmf: bv8, flg: bv8)
    ensures cmf as nat % 16 == 8 <==> cmf & 0x0f == 8
    ensures cmf as nat / 16 <= 7 <==> cmf & 0xf0 <= 0x70
    ensures flg as nat / 32 % 2 == 0 <==> flg & 0x20 == 0
  {}

  /** Section 2.2 of RFC 1950: method 8, a window of at most 32K, no preset dictionary, and a multiple of 31. */
  lemma ZlibHeader(cmf: bv8, flg: bv8)
    ensures HeaderOk(cmf as nat, flg as nat)
      <==> (cmf & 0x0f == 8 && cmf & 0xf0 <= 0x70 && flg & 0x20 == 0 && (256 * (cmf as nat) + flg as nat) % 31 == 0)
  {
    HeaderFields(cmf, flg);
  }

  // ------------------------------------------------------------ lengths and distances (section 3.2.5 of RFC 1951)

  lemma LengthExtra(i: nat)
    requires i < 28
    ensures LENGTH_EXTRA[i] == if i < 8 then 0 else (i - 4) / 4
  {}

  lemma LengthsFollow(i: nat)
    requires i < 27
    ensures LENGTH_BASE[i + 1] == LENGTH_BASE[i] + Pow2(LENGTH_EXTRA[i])
  {
    hide Pow2;
    ExtraPowers();
  }

  /** Lengths start at 3, the codes up to 284 leave no gap and do not overlap, their extra bits rise by one every
      four codes from 265 on, and 285 stands for 258 alone. */
  lemma LengthCodes()
    ensures |LENGTH_BASE| == |LENGTH_EXTRA| == 29 && LENGTH_BASE[0] == 3
    ensures LENGTH_BASE[28] == 258 && LENGTH_EXTRA[28] == 0
    ensures forall i :: 0 <= i < 28 ==> LENGTH_EXTRA[i] == if i < 8 then 0 else (i - 4) / 4
    ensures forall i :: 0 <= i < 27 ==> LENGTH_BASE[i + 1] == LENGTH_BASE[i] + Pow2(LENGTH_EXTRA[i])
  {
    forall i | 0 <= i < 28
      ensures LENGTH_EXTRA[i] == if i < 8 then 0 else (i - 4) / 4
    {
      LengthExtra(i);
    }
    forall i | 0 <= i < 27
      ensures LENGTH_BASE[i + 1] == LENGTH_BASE[i] + Pow2(LENGTH_EXTRA[i])
    {
      LengthsFollow(i);
    }
  }

  lemma DistanceExtra(i: nat)
    requires i < 30
    ensures DISTANCE_EXTRA[i] == if i < 4 then 0 else (i - 2) / 2
  {}

  lemma DistancesFollow(i: nat)
    requires i < 29
    ensures DISTANCE_BASE[i + 1] == DISTANCE_BASE[i] + Pow2(DISTANCE_EXTRA[i])
  {
    hide Pow2;
    ExtraPowers();
  }

  /** Distances start at 1, leave no gap and do not overlap, and their extra bits rise by one every two codes from 4
      on; the last is 32768. */
  lemma DistanceCodes()
    ensures |DISTANCE_BASE| == |DISTANCE_EXTRA| == 30 && DISTANCE_BASE[0] == 1
    ensures DISTANCE_BASE[29] + Pow2(DISTANCE_EXTRA[29]) == 32769
    ensures forall i :: 0 <= i < 30 ==> DISTANCE_EXTRA[i] == if i < 4 then 0 else (i - 2) / 2
    ensures forall i :: 0 <= i < 29 ==> DISTANCE_BASE[i + 1] == DISTANCE_BASE[i] + Pow2(DISTANCE_EXTRA[i])
  {
    hide Pow2;
    ExtraPowers();
    forall i | 0 <= i < 30
      ensures DISTANCE_EXTRA[i] == if i < 4 then 0 else (i - 2) / 2
    {
      DistanceExtra(i);
    }
    forall i | 0 <= i < 29
      ensures DISTANCE_BASE[i + 1] == DISTANCE_BASE[i] + Pow2(DISTANCE_EXTRA[i])
    {
      DistancesFollow(i);
    }
  }

  /** Code 285, in whatever codes: 258 bytes are appended, each the one a distance before it. */
  lemma LongestMatch(lit: seq<nat>, dist: seq<nat>, input: Input, out: seq<byte>, capacity: nat, k: nat)
    requires input.Valid() && SymbolAt(lit, input) == 285 && k < 258
    requires TokenStep(lit, dist, input, out, capacity).More?
    ensures var d := SymbolAt(dist, input.Skip(lit[285])); 0 <= d < 30
    ensures var d := SymbolAt(dist, input.Skip(lit[285]));
      var tail := input.Skip(lit[285]).Skip(dist[d]);
      tail.Valid() && tail.Has(DISTANCE_EXTRA[d])
    ensures var d := SymbolAt(dist, input.Skip(lit[285]));
      var distance := DISTANCE_BASE[d] + input.Skip(lit[285]).Skip(dist[d]).Number(DISTANCE_EXTRA[d]);
      var longer := TokenStep(lit, dist, input, out, capacity).out;
      && |longer| == |out| + 258 && longer[..|out|] == out && 1 <= distance <= |out|
      && longer[|out| + k] == out[|out| - distance + k % distance]
  {
    hide Value, Copy, SymbolAt;
    var tail := input.Skip(lit[285]);
    assert input.Skip(lit[285]).Skip(0) == tail;
    var d := SymbolAt(dist, tail);
    NoBitsRead(tail);
    DistancePositive(d);
    var distance := DISTANCE_BASE[d] + tail.Skip(dist[d]).Number(DISTANCE_EXTRA[d]);
    CopyRepeats(out, 258, distance, k);
  }

  lemma NoBitsRead(input: Input)
    requires input.Valid() && input.Has(0)
    ensures input.Number(0) == 0
  {
    assert input.bits[input.at..input.at + 0] == [];
  }

  // ------------------------------------------------------------ code length codes (section 3.2.7 of RFC 1951)

  /** After 16, 17, 18 and 0 the lengths come outward from 8 and 7. */
  lemma OrderZigzags(k: nat)
    requires k < 8
    ensures |ORDER| == 19 && ORDER[..4] == [16, 17, 18, 0]
    ensures ORDER[4 + 2 * k] == 8 + k && (k < 7 ==> ORDER[5 + 2 * k] == 7 - k)
  {}

  /** Code 16 repeats the last length 3 to 6 times, 17 gives 3 to 10 zeros and 18 gives 11 to 138. */
  lemma RunRanges(r: Run)
    requires r.WellFormed()
    ensures r.Symbol() == 16 ==> 3 <= r.Count() <= 6 && |r.ExtraBits()| == 2
    ensures r.Symbol() == 17 ==> 3 <= r.Count() <= 10 && |r.ExtraBits()| == 3
    ensures r.Symbol() == 18 ==> 11 <= r.Count() <= 138 && |r.ExtraBits()| == 7
    ensures r.Symbol() < 16 ==> r.Count() == 1 && r.ExtraBits() == []
  {}

  // ------------------------------------------------------------ the fixed codes (section 3.2.6 of RFC 1951)

  lemma {:induction false} CountPart(lengths: seq<nat>, l: nat, m: nat, n: nat, v: nat)
    requires m <= n <= |lengths| && l > 0 && forall i :: m <= i < n ==> lengths[i] == v
    ensures Count(lengths, l, n) == Count(lengths, l, m) + (if v == l then n - m else 0)
    decreases n
  {
    if m < n {
      CountPart(lengths, l, m, n - 1, v);
    }
  }

  lemma CountNone(lengths: seq<nat>, l: nat)
    ensures Count(lengths, l, 0) == 0
  {}

  /** How many of the first `n` symbols of the fixed code have length `l`. */
  lemma FixedCount(l: nat, n: nat)
    requires n <= 288 && l > 0
    ensures Count(FixedLit(), l, n) ==
      if l == 8 then if n <= 144 then n else if n <= 280 then 144 else n - 136
      else if l == 9 then if n <= 144 then 0 else if n <= 256 then n - 144 else 112
      else if l == 7 then if n <= 256 then 0 else if n <= 280 then n - 256 else 24
      else 0
  {
    hide Count;
    var lit := FixedLit();
    CountNone(lit, l);
    if n <= 144 {
      CountPart(lit, l, 0, n, 8);
    } else {
      CountPart(lit, l, 0, 144, 8);
      if n <= 256 {
        CountPart(lit, l, 144, n, 9);
      } else {
        CountPart(lit, l, 144, 256, 9);
        if n <= 280 {
          CountPart(lit, l, 256, n, 7);
        } else {
          CountPart(lit, l, 256, 280, 7);
          CountPart(lit, l, 280, n, 8);
        }
      }
    }
  }

  lemma FirstNext(lengths: seq<nat>, l: nat)
    requires l > 0
    ensures First(lengths, l) == 2 * (First(lengths, l - 1) + Total(lengths, l - 1))
  {}

  lemma {:induction false} FirstZero(lengths: seq<nat>, l: nat)
    requires forall k :: 0 <= k < l ==> Total(lengths, k) == 0
    ensures First(lengths, l) == 0
  {
    if l > 0 {
      FirstZero(lengths, l - 1);
    }
  }

  lemma {:induction false} NoneOfLengthZero(lengths: seq<nat>, n: nat)
    requires n <= |lengths|
    ensures Count(lengths, 0, n) == 0
  {
    if n > 0 {
      NoneOfLengthZero(lengths, n - 1);
    }
  }

  lemma FixedFirst()
    ensures First(FixedLit(), 7) == 0 && First(FixedLit(), 8) == 0x30 && First(FixedLit(), 9) == 0x190
  {
    hide Count, First;
    var lit := FixedLit();
    forall k | 0 <= k < 7
      ensures Total(lit, k) == 0
    {
      if k == 0 { NoneOfLengthZero(lit, 288); } else { FixedCount(k, 288); }
    }
    FirstZero(lit, 7);
    FixedCount(7, 288);
    FirstNext(lit, 8);
    FixedCount(8, 288);
    FirstNext(lit, 9);
  }

  /** The code of every symbol of the fixed code, as the table of section 3.2.6 gives it. */
  lemma FixedCodes(s: nat)
    requires s < 288
    ensures FixedLit()[s] == (if s < 144 then 8 else if s < 256 then 9 else if s < 280 then 7 else 8)
    ensures Code(FixedLit(), s) ==
      if s < 144 then 0x30 + s else if s < 256 then 0x190 + (s - 144) else if s < 280 then s - 256 else 0xc0 + (s - 280)
  {
    hide Count, First;
    FixedFirst();
    FixedCount(FixedLit()[s], s);
  }

  /** Distance codes are their five-bit numbers. */
  lemma FixedDistances(s: nat)
    requires s < 32
    ensures FixedDist()[s] == 5 && Code(FixedDist(), s) == s
  {
    hide Count, First;
    var dist := FixedDist();
    forall k | 0 <= k < 5
      ensures Total(dist, k) == 0
    {
      CountNone(dist, k);
      if k == 0 { NoneOfLengthZero(dist, 32); } else { CountPart(dist, k, 0, 32, 5); }
    }
    FirstZero(dist, 5);
    CountNone(dist, 5);
    CountPart(dist, 5, 0, s, 5);
  }
}
