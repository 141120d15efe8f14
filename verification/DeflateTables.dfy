/** Writing the code tables of a dynamic block. */
module DeflateTables {
  import opened Bits
  import opened Huffman
  import opened Inflate
  import opened DeflateWriter

  // ------------------------------------------------------------ runs of code lengths

  datatype Run = Plain(length: nat) | Again(extra: nat) | Zeros(extra: nat) | ManyZeros(extra: nat) {
    predicate WellFormed() {
      match this
      case Plain(l) => l < 16
      case Again(e) => e < 4
      case Zeros(e) => e < 8
      case ManyZeros(e) => e < 128
    }
    function Symbol(): (s: nat) {
      match this
      case Plain(l) => l
      case Again(_) => 16
      case Zeros(_) => 17
      case ManyZeros(_) => 18
    }
    function ExtraBits(): (bits: seq<bool>) {
      match this
      case Plain(_) => []
      case Again(e) => ToBits(e, 2)
      case Zeros(e) => ToBits(e, 3)
      case ManyZeros(e) => ToBits(e, 7)
    }
    function Count(): (n: nat) {
      match this
      case Plain(_) => 1
      case Again(e) => 3 + e
      case Zeros(e) => 3 + e
      case ManyZeros(e) => 11 + e
    }
  }

  /** The run fits behind the lengths already there. */
  predicate RunFits(r: Run, lengths: seq<nat>, count: nat) {
    r.WellFormed() && |lengths| + r.Count() <= count && (r.Again? ==> lengths != [])
  }

  function AddRun(r: Run, lengths: seq<nat>): (s: seq<nat>)
    requires r.Again? ==> lengths != []
    ensures |s| == |lengths| + r.Count()
  {
    match r
    case Plain(l) => lengths + [l]
    case Again(_) => lengths + Repeated(lengths[|lengths| - 1], r.Count())
    case Zeros(_) => lengths + Repeated(0, r.Count())
    case ManyZeros(_) => lengths + Repeated(0, r.Count())
  }

  function RunBits(cl: seq<nat>, r: Run): (bits: seq<bool>)
    requires r.WellFormed() && Coded(cl, r.Symbol())
  {
    Codeword(cl, r.Symbol()) + r.ExtraBits()
  }

  predicate RunsOk(cl: seq<nat>, runs: seq<Run>, lengths: seq<nat>, count: nat)
    decreases |runs|
  {
    if runs == [] then |lengths| == count
    else
      && RunFits(runs[0], lengths, count) && Coded(cl, runs[0].Symbol())
      && RunsOk(cl, runs[1..], AddRun(runs[0], lengths), count)
  }

  function AddRuns(cl: seq<nat>, runs: seq<Run>, lengths: seq<nat>, count: nat): (s: seq<nat>)
    requires RunsOk(cl, runs, lengths, count)
    ensures |s| == count && |lengths| <= count
    decreases |runs|
  {
    if runs == [] then lengths else AddRuns(cl, runs[1..], AddRun(runs[0], lengths), count)
  }

  function RunsBits(cl: seq<nat>, runs: seq<Run>, lengths: seq<nat>, count: nat): (bits: seq<bool>)
    requires RunsOk(cl, runs, lengths, count)
    decreases |runs|
  {
    if runs == [] then []
    else RunBits(cl, runs[0]) + RunsBits(cl, runs[1..], AddRun(runs[0], lengths), count)
  }

  // ------------------------------------------------------------ runs: both directions

  lemma SmallPowers()
    ensures Pow2(2) == 4 && Pow2(3) == 8 && Pow2(4) == 16 && Pow2(5) == 32 && Pow2(7) == 128
  {}

  /** The extra bits of a run are its number. */
  lemma RunStepIs(input: Input, r: Run, value: nat, lengths: seq<nat>, count: nat)
    requires r.WellFormed() && !r.Plain? && Next(input, r.ExtraBits()) && |lengths| + r.Count() <= count
    ensures var base, bits := if r.ManyZeros? then 11 else 3, |r.ExtraBits()|;
      RunStep(input, value, base, bits, lengths, count)
      == Lengths(input.Skip(bits), lengths + Repeated(value, r.Count()))
  {
    hide ToBits, Next, Repeated;
    SmallPowers();
    NextNumberIs(input, r.extra, |r.ExtraBits()|);
  }

  lemma RunRoundTrip(cl: seq<nat>, input: Input, r: Run, lengths: seq<nat>, count: nat)
    requires Accepts(cl) && RunFits(r, lengths, count) && Coded(cl, r.Symbol()) && Next(input, RunBits(cl, r))
    ensures LengthStep(cl, input, lengths, count) == Lengths(input.Skip(|RunBits(cl, r)|), AddRun(r, lengths))
  {
    hide Codeword, Accepts, ToBits, Next, RunStep, Repeated;
    NextParts(input, Codeword(cl, r.Symbol()), r.ExtraBits());
    NextSymbolIs(cl, input, r.Symbol());
    var tail := input.Skip(cl[r.Symbol()]);
    SkipSkip(input, cl[r.Symbol()], |r.ExtraBits()|);
    if !r.Plain? {
      RunStepIs(tail, r, if r.Again? then lengths[|lengths| - 1] else 0, lengths, count);
    }
  }

  lemma {:induction false} RunsRoundTrip(cl: seq<nat>, input: Input, runs: seq<Run>, lengths: seq<nat>, count: nat)
    requires Accepts(cl) && RunsOk(cl, runs, lengths, count) && input.Valid()
    requires Next(input, RunsBits(cl, runs, lengths, count))
    ensures CodeLengths(cl, input, lengths, count)
         == Lengths(input.Skip(|RunsBits(cl, runs, lengths, count)|), AddRuns(cl, runs, lengths, count))
    decreases |runs|
  {
    hide Accepts, Next, RunBits, LengthStep;
    if runs != [] {
      var first, rest := RunBits(cl, runs[0]), RunsBits(cl, runs[1..], AddRun(runs[0], lengths), count);
      NextParts(input, first, rest);
      RunRoundTrip(cl, input, runs[0], lengths, count);
      RunsRoundTrip(cl, input.Skip(|first|), runs[1..], AddRun(runs[0], lengths), count);
      SkipSkip(input, |first|, |rest|);
    }
  }

  /** The run behind a symbol of the code length code. */
  lemma RunStepSound(input: Input, symbol: nat, lengths: seq<nat>, count: nat, value: nat) returns (r: Run)
    requires 16 <= symbol <= 18 && input.Valid()
    requires symbol == 16 ==> lengths != [] && value == lengths[|lengths| - 1]
    requires symbol != 16 ==> value == 0
    requires RunStep(input, value, if symbol == 18 then 11 else 3,
                     if symbol == 16 then 2 else if symbol == 17 then 3 else 7, lengths, count).Lengths?
    ensures RunFits(r, lengths, count) && r.Symbol() == symbol && Next(input, r.ExtraBits())
    ensures RunStep(input, value, if symbol == 18 then 11 else 3,
                    if symbol == 16 then 2 else if symbol == 17 then 3 else 7, lengths, count)
         == Lengths(input.Skip(|r.ExtraBits()|), AddRun(r, lengths))
  {
    hide ToBits, Next, Repeated;
    SmallPowers();
    var n := if symbol == 16 then 2 else if symbol == 17 then 3 else 7;
    var v := input.Number(n);
    NumberBelow(input, n);
    NextNumberIs(input, v, n);
    r := if symbol == 16 then Again(v) else if symbol == 17 then Zeros(v) else ManyZeros(v);
  }

  lemma NextNothing(input: Input)
    requires input.Valid() && input.Has(0)
    ensures Next(input, []) && input.Skip(0) == input
  {}

  lemma RunSound(cl: seq<nat>, input: Input, lengths: seq<nat>, count: nat) returns (r: Run)
    requires Accepts(cl) && |cl| == 19 && input.Valid() && |lengths| < count
    requires LengthStep(cl, input, lengths, count).Lengths?
    ensures RunFits(r, lengths, count) && Coded(cl, r.Symbol()) && Next(input, RunBits(cl, r))
    ensures LengthStep(cl, input, lengths, count) == Lengths(input.Skip(|RunBits(cl, r)|), AddRun(r, lengths))
  {
    hide Codeword, Accepts, ToBits, Next, RunStep, Repeated;
    var symbol := SymbolAt(cl, input);
    var tail := input.Skip(cl[symbol]);
    NextSymbolIs(cl, input, symbol);
    if symbol < 16 {
      r := Plain(symbol);
      NextNothing(tail);
    } else {
      r := RunStepSound(tail, symbol, lengths, count, if symbol == 16 then lengths[|lengths| - 1] else 0);
    }
    NextParts(input, Codeword(cl, symbol), r.ExtraBits());
    SkipSkip(input, cl[symbol], |r.ExtraBits()|);
  }

  lemma {:induction false} RunsSound(cl: seq<nat>, input: Input, lengths: seq<nat>, count: nat) returns (runs: seq<Run>)
    requires Accepts(cl) && |cl| == 19 && input.Valid() && input.Has(0) && |lengths| <= count
    requires CodeLengths(cl, input, lengths, count).Lengths?
    ensures RunsOk(cl, runs, lengths, count) && Next(input, RunsBits(cl, runs, lengths, count))
    ensures CodeLengths(cl, input, lengths, count)
         == Lengths(input.Skip(|RunsBits(cl, runs, lengths, count)|), AddRuns(cl, runs, lengths, count))
    decreases input.Left()
  {
    hide Accepts, Next, RunBits, LengthStep;
    if |lengths| == count {
      runs := [];
      NextNothing(input);
    } else {
      var r := RunSound(cl, input, lengths, count);
      StillInside(input, RunBits(cl, r));
      var rest := RunsSound(cl, input.Skip(|RunBits(cl, r)|), AddRun(r, lengths), count);
      runs := [r] + rest;
      assert runs[1..] == rest;
      NextParts(input, RunBits(cl, r), RunsBits(cl, rest, AddRun(r, lengths), count));
      SkipSkip(input, |RunBits(cl, r)|, |RunsBits(cl, rest, AddRun(r, lengths), count)|);
    }
  }

  lemma StillInside(input: Input, bits: seq<bool>)
    requires Next(input, bits)
    ensures input.Skip(|bits|).Valid() && input.Skip(|bits|).Has(0)
  {}

  // ------------------------------------------------------------ the code length code

  const PLACE: seq<nat> := [3, 17, 15, 13, 11, 9, 7, 5, 4, 6, 8, 10, 12, 14, 16, 18, 0, 1, 2]

  /** The transmission order is a permutation. */
  lemma OrderIsPermutation(k: nat)
    requires k < 19
    ensures ORDER[k] < 19 && PLACE[k] < 19
    ensures ORDER[PLACE[k]] == k && PLACE[ORDER[k]] == k
  {}

  function CodeCodeBits(cl: seq<nat>, n: nat): (bits: seq<bool>)
    requires |cl| == 19 && n <= 19
    ensures |bits| == 3 * n
  {
    if n == 0 then [] else OrderBelow(n - 1); CodeCodeBits(cl, n - 1) + ToBits(cl[ORDER[n - 1]], 3)
  }

  /** The lengths sent fit into three bits, and those not sent are zero. */
  ghost predicate Sendable(cl: seq<nat>, n: nat) {
    && |cl| == 19 && 4 <= n <= 19
    && (forall k :: 0 <= k < 19 ==> cl[k] < 8)
    && (forall k :: 0 <= k < 19 && PLACE[k] >= n ==> cl[k] == 0)
  }

  lemma {:induction false} CodeCodeAt(input: Input, n: nat, k: nat)
    requires input.Valid() && n <= 19 && input.Has(3 * n) && k < 19
    ensures CodeCode(input, n)[k] == if PLACE[k] < n then input.Skip(3 * PLACE[k]).Number(3) else 0
  {
    hide Value;
    OrderIsPermutation(k);
    if n > 0 {
      OrderIsPermutation(n - 1);
      CodeCodeAt(input, n - 1, k);
    }
  }

  /** The first `n` lengths in the input are those of `cl`. */
  ghost predicate SentAre(input: Input, cl: seq<nat>, n: nat)
    requires |cl| == 19 && n <= 19 && input.Valid()
  {
    input.Has(3 * n) && forall i :: 0 <= i < n ==> input.Skip(3 * i).Number(3) == cl[ORDER[i]]
  }

  lemma SentStep(input: Input, cl: seq<nat>, n: nat)
    requires |cl| == 19 && 0 < n <= 19 && input.Valid()
    ensures SentAre(input, cl, n) <==>
      && SentAre(input, cl, n - 1) && input.Skip(3 * (n - 1)).Has(3)
      && input.Skip(3 * (n - 1)).Number(3) == cl[ORDER[n - 1]]
  {}

  lemma {:induction false} CodeCodeStands(input: Input, cl: seq<nat>, n: nat)
    requires |cl| == 19 && n <= 19 && (forall k :: 0 <= k < 19 ==> cl[k] < 8) && input.Valid() && input.Has(0)
    ensures Next(input, CodeCodeBits(cl, n)) <==> SentAre(input, cl, n)
  {
    hide Next, Value, ToBits, SentAre;
    if n == 0 {
      NextNothing(input);
      NothingSent(input, cl);
    } else {
      CodeCodeStands(input, cl, n - 1);
      OrderBelow(n - 1);
      SmallPowers();
      SentStep(input, cl, n);
      NextParts(input, CodeCodeBits(cl, n - 1), ToBits(cl[ORDER[n - 1]], 3));
      NextNumberIs(input.Skip(3 * (n - 1)), cl[ORDER[n - 1]], 3);
    }
  }

  lemma NothingSent(input: Input, cl: seq<nat>)
    requires |cl| == 19 && input.Valid() && input.Has(0)
    ensures SentAre(input, cl, 0)
  {}

  lemma CodeCodeRoundTrip(input: Input, cl: seq<nat>, n: nat)
    requires Sendable(cl, n) && Next(input, CodeCodeBits(cl, n))
    ensures input.Has(3 * n) && CodeCode(input, n) == cl
  {
    hide Next, CodeCode, CodeCodeBits;
    assert input.Valid() && input.Has(0) by { NextInside(input, CodeCodeBits(cl, n)); }
    CodeCodeStands(input, cl, n);
    forall k | 0 <= k < 19
      ensures CodeCode(input, n)[k] == cl[k]
    {
      CodeCodeAt(input, n, k);
      OrderIsPermutation(k);
    }
  }

  lemma NextInside(input: Input, bits: seq<bool>)
    requires Next(input, bits)
    ensures input.Valid() && input.Has(0) && input.Has(|bits|)
  {}

  lemma CodeCodeSound(input: Input, n: nat)
    requires input.Valid() && 4 <= n <= 19 && input.Has(3 * n)
    ensures Sendable(CodeCode(input, n), n) && Next(input, CodeCodeBits(CodeCode(input, n), n))
  {
    hide Next, CodeCode, CodeCodeBits;
    var cl := CodeCode(input, n);
    forall k | 0 <= k < 19
      ensures cl[k] < 8 && (PLACE[k] >= n ==> cl[k] == 0)
    {
      CodeCodeAt(input, n, k);
      OrderIsPermutation(k);
      if PLACE[k] < n { NumberBelow(input.Skip(3 * PLACE[k]), 3); SmallPowers(); }
    }
    forall i | 0 <= i < n
      ensures input.Skip(3 * i).Number(3) == cl[ORDER[i]]
    {
      OrderIsPermutation(i);
      CodeCodeAt(input, n, ORDER[i]);
    }
    CodeCodeStands(input, cl, n);
  }

  // ------------------------------------------------------------ the whole table description

  datatype Codes = Codes(lit: seq<nat>, dist: seq<nat>, cl: seq<nat>, sent: nat, runs: seq<Run>)

  ghost predicate CodesOk(c: Codes) {
    && 257 <= |c.lit| <= 288 && 1 <= |c.dist| <= 32
    && Sendable(c.cl, c.sent)
    && Accepts(c.cl) && Accepts(c.lit) && Accepts(c.dist)
    && RunsOk(c.cl, c.runs, [], |c.lit| + |c.dist|)
    && AddRuns(c.cl, c.runs, [], |c.lit| + |c.dist|) == c.lit + c.dist
  }

  ghost function RunsOf(c: Codes): (bits: seq<bool>)
    requires CodesOk(c)
  {
    RunsBits(c.cl, c.runs, [], |c.lit| + |c.dist|)
  }

  ghost function CodesBits(c: Codes): (bits: seq<bool>)
    requires CodesOk(c)
  {
    ToBits(|c.lit| - 257, 5)
      + (ToBits(|c.dist| - 1, 5) + (ToBits(c.sent - 4, 4) + (CodeCodeBits(c.cl, c.sent) + RunsOf(c))))
  }

  /** The three counts in front of a table description. */
  lemma CountsStand(input: Input, hlit: nat, hdist: nat, hclen: nat, rest: seq<bool>)
    requires hlit < 32 && hdist < 32 && hclen < 16
    ensures Next(input, ToBits(hlit, 5) + (ToBits(hdist, 5) + (ToBits(hclen, 4) + rest))) <==>
      && input.Valid() && input.Has(14)
      && input.Number(5) == hlit && input.Skip(5).Number(5) == hdist && input.Skip(10).Number(4) == hclen
      && Next(input.Skip(14), rest)
  {
    hide ToBits, Value;
    SmallPowers();
    NextParts(input, ToBits(hlit, 5), ToBits(hdist, 5) + (ToBits(hclen, 4) + rest));
    NextParts(input.Skip(5), ToBits(hdist, 5), ToBits(hclen, 4) + rest);
    NextParts(input.Skip(10), ToBits(hclen, 4), rest);
    NextNumberIs(input, hlit, 5);
    NextNumberIs(input.Skip(5), hdist, 5);
    NextNumberIs(input.Skip(10), hclen, 4);
  }

  /** Splitting the lengths gives back the two vectors. */
  lemma TablesRoundTrip(c: Codes, input: Input)
    requires CodesOk(c) && Next(input, RunsOf(c))
    ensures TablesFrom(c.cl, input, |c.lit|, |c.dist|) == Tables(input.Skip(|RunsOf(c)|), c.lit, c.dist)
  {
    hide Accepts, Next, RunsOk, AddRuns, RunsBits, CodeLengths, Sendable;
    NextInside(input, RunsOf(c));
    RunsRoundTrip(c.cl, input, c.runs, [], |c.lit| + |c.dist|);
    var all := c.lit + c.dist;
    assert all[..|c.lit|] == c.lit && all[|c.lit|..|c.lit| + |c.dist|] == c.dist;
  }

  lemma CodesRoundTrip(c: Codes, input: Input)
    requires CodesOk(c) && Next(input, CodesBits(c))
    ensures DynamicTables(input) == Tables(input.Skip(|CodesBits(c)|), c.lit, c.dist)
  {
    hide Accepts, Next, RunsOk, AddRuns, RunsOf, ToBits, TablesFrom, CodeCode, CodeCodeBits;
    var code, runs := CodeCodeBits(c.cl, c.sent), RunsOf(c);
    CountsStand(input, |c.lit| - 257, |c.dist| - 1, c.sent - 4, code + runs);
    NextParts(input.Skip(14), code, runs);
    CodeCodeRoundTrip(input.Skip(14), c.cl, c.sent);
    TablesRoundTrip(c, input.Skip(14).Skip(3 * c.sent));
    SkipSkip(input.Skip(14), 3 * c.sent, |runs|);
    SkipSkip(input, 14, |code + runs|);
  }

  lemma CountsBelow(input: Input)
    requires input.Valid() && input.Has(14)
    ensures input.Number(5) < 32 && input.Skip(5).Number(5) < 32 && input.Skip(10).Number(4) < 16
  {
    SmallPowers();
    NumberBelow(input, 5);
    NumberBelow(input.Skip(5), 5);
    NumberBelow(input.Skip(10), 4);
  }

  lemma TablesSound(cl: seq<nat>, sent: nat, input: Input, hlit: nat, hdist: nat) returns (c: Codes)
    requires Sendable(cl, sent) && input.Valid() && input.Has(0) && 257 <= hlit <= 288 && 1 <= hdist <= 32
    requires TablesFrom(cl, input, hlit, hdist).Tables?
    ensures CodesOk(c) && |c.lit| == hlit && |c.dist| == hdist && c.cl == cl && c.sent == sent
    ensures Next(input, RunsOf(c))
    ensures TablesFrom(cl, input, hlit, hdist) == Tables(input.Skip(|RunsOf(c)|), c.lit, c.dist)
  {
    hide Accepts, Next, RunsOk, AddRuns, RunsBits, CodeLengths;
    var t := TablesFrom(cl, input, hlit, hdist);
    var runs := RunsSound(cl, input, [], hlit + hdist);
    var all := AddRuns(cl, runs, [], hlit + hdist);
    assert all[..hlit] + all[hlit..hlit + hdist] == all;
    c := Codes(t.lit, t.dist, cl, sent, runs);
  }

  lemma CodesSound(input: Input) returns (c: Codes)
    requires input.Valid() && DynamicTables(input).Tables?
    ensures CodesOk(c) && Next(input, CodesBits(c))
    ensures DynamicTables(input) == Tables(input.Skip(|CodesBits(c)|), c.lit, c.dist)
  {
    hide Accepts, Next, RunsOk, AddRuns, RunsOf, ToBits, TablesFrom, CodeCode, CodeCodeBits, Sendable;
    CountsBelow(input);
    var hlit, hdist, hclen := input.Number(5), input.Skip(5).Number(5), input.Skip(10).Number(4);
    var tail := input.Skip(14);
    var cl := CodeCode(tail, hclen + 4);
    CodeCodeSound(tail, hclen + 4);
    c := TablesSound(cl, hclen + 4, tail.Skip(3 * (hclen + 4)), hlit + 257, hdist + 1);
    var code, runs := CodeCodeBits(cl, hclen + 4), RunsOf(c);
    NextParts(tail, code, runs);
    CountsStand(input, hlit, hdist, hclen, code + runs);
    SkipSkip(tail, |code|, |runs|);
    SkipSkip(input, 14, |code + runs|);
  }
}
