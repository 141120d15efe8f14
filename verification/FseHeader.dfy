/** The variable-width probability header in front of an FSE table description. */
module FseHeader {
  import opened Bits
  import opened FseBuild
  import opened FseStream

  // ------------------------------------------------------------ forward reads

  /** Reads `bits` bits from `offset` on, or reports that they are not there. */
  method ForwardRead(source: seq<byte>, offset: nat, bits: nat) returns (ok: bool, result: nat, offset': nat)
    ensures ok <==> bits <= 16 && offset + bits <= Limit(source)
    ensures ok ==> offset' == offset + bits && result == Value(BitsOf(source)[offset..offset + bits])
    ensures !ok ==> offset' == offset
  {
    offset', result := offset, 0;
    if bits > 16 || offset > Limit(source) || bits > Limit(source) - offset {
      return false, 0, offset;
    }
    var left, shift := bits, 0;
    while left > 0
      invariant 0 <= left && offset' + left == offset + bits && shift == offset' - offset >= 0
      invariant result == Value(BitsOf(source)[offset..offset'])
      decreases left
    {
      var available := 8 - offset' % 8;
      var count := if left < available then left else available;
      ExtendRead(source, offset, offset', count);
      result := result + Low(Shr(source[offset' / 8], offset' % 8), count) * Pow2(shift);
      offset', left, shift := offset' + count, left - count, shift + count;
    }
    ok := true;
  }

  // ------------------------------------------------------------ one probability field

  /** Bits of the long form of a field while `remaining` cells are unassigned. */
  function Width(remaining: nat): (w: nat)
    ensures w >= 1
  {
    HighBit(remaining + 1) + 1
  }

  /** Values below the threshold take one bit less. */
  function Threshold(remaining: nat): (t: int) {
    Pow2(Width(remaining)) - 1 - (remaining + 1)
  }

  lemma WidthBounds(remaining: nat)
    ensures Pow2(Width(remaining) - 1) <= remaining + 1 < Pow2(Width(remaining))
    ensures Pow2(Width(remaining)) == 2 * Pow2(Width(remaining) - 1)
    ensures 0 <= Threshold(remaining) < Pow2(Width(remaining) - 1)
  {
    HighBitBounds(remaining + 1);
  }

  /** The value in a field and the number of bits it takes. */
  function Field(remaining: nat, raw: nat): (r: (int, nat)) {
    var w, t := Width(remaining), Threshold(remaining);
    var low := Low(raw, w - 1);
    if low < t then (low, w - 1)
    else if raw > Pow2(w - 1) - 1 then (raw - t, w)
    else (raw, w)
  }

  /** A field never holds more than `remaining + 1`: the range check of the reader cannot fail. */
  lemma FieldRange(remaining: nat, raw: nat)
    requires raw < Pow2(Width(remaining))
    ensures 0 <= Field(remaining, raw).0 <= remaining + 1
    ensures Width(remaining) - 1 <= Field(remaining, raw).1 <= Width(remaining)
  {
    WidthBounds(remaining);
    ShrLow(raw, Width(remaining) - 1);
  }

  /** The field at `offset`. */
  function FieldAt(bits: seq<bool>, offset: nat, remaining: nat): (r: (int, nat))
    requires offset + Width(remaining) <= |bits|
    ensures 0 <= r.0 <= remaining + 1
    ensures Width(remaining) - 1 <= r.1 <= Width(remaining)
  {
    var raw := bits[offset..offset + Width(remaining)];
    ValueBound(raw);
    FieldRange(remaining, Value(raw));
    Field(remaining, Value(raw))
  }

  // ------------------------------------------------------------ parsing as a function

  datatype Parse = Malformed | Parsed(norm: seq<int>, offset: nat, remaining: nat)

  function ZeroProbabilities(n: nat): (z: seq<int>)
    ensures |z| == n
  {
    seq(n, i => 0)
  }

  /** Two-bit counts of further zero probabilities; 3 announces another count. */
  function ParseRun(bits: seq<bool>, limit: nat, offset: nat, norm: seq<int>, remaining: nat): (p: Parse)
    requires limit <= |bits| && |norm| <= 256
    ensures p.Parsed? ==> |norm| <= |p.norm| <= 256 && p.remaining == remaining
    decreases 256 - |norm|
  {
    if offset + 2 > limit then Malformed
    else
      var n := Value(bits[offset..offset + 2]);
      if n > 256 - |norm| then Malformed
      else if n == 3 then ParseRun(bits, limit, offset + 2, norm + ZeroProbabilities(3), remaining)
      else Parsed(norm + ZeroProbabilities(n), offset + 2, remaining)
  }

  /** One probability and the run of zeros that a zero probability carries. */
  function ParseOne(bits: seq<bool>, limit: nat, offset: nat, norm: seq<int>, remaining: nat): (p: Parse)
    requires limit <= |bits| && |norm| < 256 && remaining > 0
    ensures p.Parsed? ==> |norm| < |p.norm| <= 256
  {
    if offset + Width(remaining) > limit then Malformed
    else
      var (v, used) := FieldAt(bits, offset, remaining);
      var norm' := norm + [v - 1];
      if v == 1 then ParseRun(bits, limit, offset + used, norm', remaining)
      else Parsed(norm', offset + used, remaining - Magnitude(v - 1))
  }

  function ParseAll(bits: seq<bool>, limit: nat, offset: nat, norm: seq<int>, remaining: nat): (p: Parse)
    requires limit <= |bits| && |norm| <= 256
    decreases 256 - |norm|
  {
    if remaining == 0 || |norm| == 256 then Parsed(norm, offset, remaining)
    else
      var one := ParseOne(bits, limit, offset, norm, remaining);
      if one.Malformed? then Malformed else ParseAll(bits, limit, one.offset, one.norm, one.remaining)
  }

  datatype Header = NoHeader | Header(norm: seq<int>, log: nat, end: nat)

  /** The header as a whole: accuracy log, probabilities and the bit after the last of them. */
  function ParseHeader(stream: seq<byte>, maxLog: nat): (h: Header) {
    var bits, limit := BitsOf(stream), Limit(stream);
    if maxLog > 10 || limit < 4 then NoHeader
    else
      var log := 5 + Value(bits[..4]);
      if log > maxLog then NoHeader
      else
        var p := ParseAll(bits, limit, 4, [], Pow2(log));
        if p.Parsed? && p.remaining == 0 && 0 < |p.norm| < 256 then Header(p.norm, log, p.offset) else NoHeader
  }

  // ------------------------------------------------------------ conservation

  /** What is left plus what has been handed out is the table size. */
  predicate Conserves(norm: seq<int>, remaining: nat, size: nat) {
    && (forall i :: 0 <= i < |norm| ==> -1 <= norm[i])
    && remaining + MagnitudeSum(norm, |norm|) == size
  }

  lemma {:induction false} SumAppend(a: seq<int>, b: seq<int>, n: nat)
    requires n <= |a|
    ensures MagnitudeSum(a + b, n) == MagnitudeSum(a, n)
  {
    if n > 0 {
      SumAppend(a, b, n - 1);
    }
  }

  lemma ConservesOne(norm: seq<int>, remaining: nat, size: nat, p: int)
    requires Conserves(norm, remaining, size) && -1 <= p && Magnitude(p) <= remaining
    ensures Conserves(norm + [p], remaining - Magnitude(p), size)
  {
    SumAppend(norm, [p], |norm|);
  }

  lemma {:induction false} ConservesZeros(norm: seq<int>, remaining: nat, size: nat, n: nat)
    requires Conserves(norm, remaining, size)
    ensures Conserves(norm + ZeroProbabilities(n), remaining, size)
  {
    if n == 0 {
      assert norm + ZeroProbabilities(0) == norm;
    } else {
      ConservesZeros(norm, remaining, size, n - 1);
      ConservesOne(norm + ZeroProbabilities(n - 1), remaining, size, 0);
      assert norm + ZeroProbabilities(n) == norm + ZeroProbabilities(n - 1) + [0];
    }
  }

  lemma {:induction false} RunConserves(bits: seq<bool>, limit: nat, offset: nat, norm: seq<int>, remaining: nat,
                                        size: nat)
    requires limit <= |bits| && |norm| <= 256 && Conserves(norm, remaining, size)
    ensures var p := ParseRun(bits, limit, offset, norm, remaining);
      p.Parsed? ==> Conserves(p.norm, remaining, size) && p.offset <= limit
    decreases 256 - |norm|
  {
    if offset + 2 <= limit {
      var n := Value(bits[offset..offset + 2]);
      ConservesZeros(norm, remaining, size, n);
      if n == 3 <= 256 - |norm| {
        RunConserves(bits, limit, offset + 2, norm + ZeroProbabilities(3), remaining, size);
      }
    }
  }

  lemma OneConserves(bits: seq<bool>, limit: nat, offset: nat, norm: seq<int>, remaining: nat, size: nat)
    requires limit <= |bits| && |norm| < 256 && remaining > 0 && Conserves(norm, remaining, size)
    ensures var p := ParseOne(bits, limit, offset, norm, remaining);
      p.Parsed? ==> Conserves(p.norm, p.remaining, size) && p.offset <= limit
  {
    if offset + Width(remaining) <= limit {
      var (v, used) := FieldAt(bits, offset, remaining);
      ConservesOne(norm, remaining, size, v - 1);
      if v == 1 { RunConserves(bits, limit, offset + used, norm + [0], remaining, size); }
    }
  }

  lemma {:induction false} AllConserves(bits: seq<bool>, limit: nat, offset: nat, norm: seq<int>, remaining: nat,
                                        size: nat)
    requires limit <= |bits| && |norm| <= 256 && offset <= limit && Conserves(norm, remaining, size)
    ensures var p := ParseAll(bits, limit, offset, norm, remaining);
      p.Parsed? ==> Conserves(p.norm, p.remaining, size) && p.offset <= limit
    decreases 256 - |norm|
  {
    if remaining > 0 && |norm| < 256 {
      OneConserves(bits, limit, offset, norm, remaining, size);
      var one := ParseOne(bits, limit, offset, norm, remaining);
      if one.Parsed? { AllConserves(bits, limit, one.offset, one.norm, one.remaining, size); }
    }
  }

  /** Every header that parses describes a complete table, so building it always succeeds. */
  lemma HeaderIsComplete(stream: seq<byte>, maxLog: nat)
    requires ParseHeader(stream, maxLog).Header?
    ensures var h := ParseHeader(stream, maxLog);
      && 5 <= h.log <= maxLog && Complete(h.norm, h.log) && Accepts(h.norm, h.log)
      && h.end <= Limit(stream)
  {
    var h := ParseHeader(stream, maxLog);
    AllConserves(BitsOf(stream), Limit(stream), 4, [], Pow2(h.log), Pow2(h.log));
    CompleteIsAccepted(h.norm, h.log);
  }

  // ------------------------------------------------------------ the reader

  /** The zero counts that follow a zero probability. */
  method ReadRun(stream: seq<byte>, offset: nat, norm: seq<int>, ghost remaining: nat)
    returns (ok: bool, norm': seq<int>, offset': nat)
    requires |norm| <= 256
    ensures var p := ParseRun(BitsOf(stream), Limit(stream), offset, norm, remaining);
      (ok <==> p.Parsed?) && (ok ==> p == Parsed(norm', offset', remaining))
  {
    norm', offset' := norm, offset;
    ghost var goal := ParseRun(BitsOf(stream), Limit(stream), offset, norm, remaining);
    var more := true;
    while more
      invariant |norm'| <= 256
      invariant more ==> goal == ParseRun(BitsOf(stream), Limit(stream), offset', norm', remaining)
      invariant !more ==> goal == Parsed(norm', offset', remaining)
      decreases 256 - |norm'|, more
    {
      var repeat;
      ok, repeat, offset' := ForwardRead(stream, offset', 2);
      if !ok {
        return;
      }
      more := repeat == 3;
      if repeat > 256 - |norm'| {
        return false, norm', offset';
      }
      norm' := norm' + ZeroProbabilities(repeat);
    }
    ok := true;
  }

  /** The value of a field read in its long form, and the bits to give back. */
  method Narrow(remaining: nat, value: nat) returns (field: int, back: nat)
    requires value < Pow2(Width(remaining))
    ensures (field, Width(remaining) - back) == Field(remaining, value)
    ensures back <= 1
  {
    WidthBounds(remaining);
    var mask, threshold := Pow2(Width(remaining) - 1) - 1, Threshold(remaining);
    field, back := value, 0;
    if Low(value, Width(remaining) - 1) < threshold {
      field, back := Low(value, Width(remaining) - 1), 1;
    } else if value > mask {
      field := value - threshold;
    }
  }

  /** One field: read in its long form, then given back a bit if it was short. */
  method ReadOne(stream: seq<byte>, offset: nat, norm: seq<int>, remaining: nat)
    returns (ok: bool, norm': seq<int>, offset': nat, remaining': nat)
    requires |norm| < 256 && 0 < remaining <= 1024
    ensures var p := ParseOne(BitsOf(stream), Limit(stream), offset, norm, remaining);
      (ok <==> p.Parsed?) && (ok ==> p == Parsed(norm', offset', remaining'))
  {
    hide Width, Field, ParseRun, Pow2, BitsOf, Limit;
    norm', remaining' := norm, remaining;
    var width := Width(remaining);
    WidthAtMost(remaining);
    var value;
    ok, value, offset' := ForwardRead(stream, offset, width);
    if !ok {
      return;
    }
    ValueBound(BitsOf(stream)[offset..offset + width]);
    var field, back := Narrow(remaining, value);
    assert (field, width - back) == FieldAt(BitsOf(stream), offset, remaining);
    offset' := offset' - back;
    var probability := field - 1;
    if probability < -1 || probability > remaining {
      return false, norm', offset', remaining';
    }
    norm', remaining' := norm + [probability], remaining - Magnitude(probability);
    if probability == 0 {
      ok, norm', offset' := ReadRun(stream, offset', norm', remaining);
    }
  }

  lemma WidthAtMost(remaining: nat)
    requires remaining <= 1024
    ensures Width(remaining) <= 11
  {
    WidthBounds(remaining);
    PowersOfTwo();
    if Width(remaining) > 11 { Pow2Mono(11, Width(remaining) - 1); }
  }

  lemma LogAtMost(log: nat)
    requires log <= 10
    ensures Pow2(log) <= 1024
  {
    PowersOfTwo();
    Pow2Mono(log, 10);
  }

  /** The probabilities of a table of `2^log` cells. */
  method ReadProbabilities(stream: seq<byte>, start: nat, log: nat)
    returns (ok: bool, norm: seq<int>, offset: nat, remaining: nat)
    requires log <= 10 && start <= Limit(stream)
    ensures var p := ParseAll(BitsOf(stream), Limit(stream), start, [], Pow2(log));
      (ok <==> p.Parsed?) && (ok ==> p == Parsed(norm, offset, remaining))
    ensures ok ==> |norm| <= 256 && offset <= Limit(stream) && Conserves(norm, remaining, Pow2(log))
  {
    ok, norm, offset, remaining := true, [], start, Pow2(log);
    LogAtMost(log);
    while remaining > 0 && |norm| < 256
      invariant ok && |norm| <= 256 && remaining <= 1024
      invariant Conserves(norm, remaining, Pow2(log)) && offset <= Limit(stream)
      invariant ParseAll(BitsOf(stream), Limit(stream), start, [], Pow2(log))
             == ParseAll(BitsOf(stream), Limit(stream), offset, norm, remaining)
      decreases 256 - |norm|
    {
      OneConserves(BitsOf(stream), Limit(stream), offset, norm, remaining, Pow2(log));
      var norm', offset', remaining';
      ok, norm', offset', remaining' := ReadOne(stream, offset, norm, remaining);
      if !ok {
        return;
      }
      norm, offset, remaining := norm', offset', remaining';
    }
  }

  /** The header up to the build. */
  method ReadDescription(stream: seq<byte>, maxLog: nat) returns (ok: bool, norm: seq<int>, log: nat, end: nat)
    ensures ok <==> ParseHeader(stream, maxLog).Header?
    ensures ok ==> ParseHeader(stream, maxLog) == Header(norm, log, end)
  {
    hide ParseAll, Conserves;
    norm, log, end := [], 0, 0;
    if stream == [] || maxLog > 10 {
      return false, [], 0, 0;
    }
    ok, log, end := ForwardRead(stream, 0, 4);
    log := 5 + log;
    if !ok || log > maxLog {
      return false, [], 0, 0;
    }
    var remaining;
    ok, norm, end, remaining := ReadProbabilities(stream, end, log);
    LimitWholeBytes(stream);
    if !ok || remaining > 0 || |norm| == 0 || |norm| >= 256 || end > 0xffff_ffff - 7 {
      return false, [], 0, 0;
    }
  }

  /** The probabilities and the build; reaching the build means succeeding. */
  method ReadHeader(table: FseTable, stream: seq<byte>, maxLog: nat) returns (ok: bool, consumed: nat)
    requires table.Valid()
    modifies table`size, table`accuracyLog, table.symbols, table.bits, table.newState
    ensures table.Valid()
    ensures ok <==> ParseHeader(stream, maxLog).Header?
    ensures ok ==> var h := ParseHeader(stream, maxLog);
      && table.accuracyLog == h.log && Loaded(table, h.norm)
      && consumed == (h.end + 7) / 8 <= |stream|
  {
    consumed := 0;
    var norm, log, end;
    ok, norm, log, end := ReadDescription(stream, maxLog);
    if !ok {
      return;
    }
    HeaderIsComplete(stream, maxLog);
    LimitWholeBytes(stream);
    ok := table.Build(norm, log);
    consumed := (end + 7) / 8;
  }
}
