/** A writer of DEFLATE blocks: the inverse against which the decoder is judged. */
module DeflateWriter {
  import opened Bits
  import opened Huffman
  import opened Inflate
  import opened InflateReader

  // ------------------------------------------------------------ tokens

  /** A literal, or a match given by its length and distance classes and their extra bits. */
  datatype Token =
    | Literal(value: byte)
    | Match(lengthClass: nat, lengthExtra: nat, distanceClass: nat, distanceExtra: nat)
  {
    predicate WellFormed() {
      Match? ==>
        && lengthClass < 29 && lengthExtra < Pow2(LENGTH_EXTRA[lengthClass])
        && distanceClass < 30 && distanceExtra < Pow2(DISTANCE_EXTRA[distanceClass])
    }

    function Length(): (n: nat)
      requires WellFormed() && Match?
    {
      LENGTH_BASE[lengthClass] + lengthExtra
    }

    function Distance(): (n: nat)
      requires WellFormed() && Match?
      ensures n >= 1
    {
      DistancePositive(distanceClass);
      DISTANCE_BASE[distanceClass] + distanceExtra
    }
  }

  /** `symbol` has a code. */
  predicate Coded(lengths: seq<nat>, symbol: nat) {
    symbol < |lengths| && lengths[symbol] > 0
  }

  predicate TokenCoded(lit: seq<nat>, dist: seq<nat>, t: Token) {
    && t.WellFormed()
    && match t
       case Literal(b) => Coded(lit, b)
       case Match(l, _, d, _) => Coded(lit, 257 + l) && Coded(dist, d)
  }

  /** The token can be applied to the bytes before it. */
  predicate Applies(t: Token, out: seq<byte>)
    requires t.WellFormed()
  {
    t.Match? ==> t.Distance() <= |out|
  }

  function Apply(t: Token, out: seq<byte>): (out': seq<byte>)
    requires t.WellFormed() && Applies(t, out)
  {
    match t
    case Literal(b) => out + [b]
    case Match(_, _, _, _) => Copy(out, t.Length(), t.Distance())
  }

  function DistanceBits(dist: seq<nat>, t: Token): (bits: seq<bool>)
    requires t.Match? && t.WellFormed() && Coded(dist, t.distanceClass)
  {
    Codeword(dist, t.distanceClass) + ToBits(t.distanceExtra, DISTANCE_EXTRA[t.distanceClass])
  }

  function MatchBits(dist: seq<nat>, t: Token): (bits: seq<bool>)
    requires t.Match? && t.WellFormed() && Coded(dist, t.distanceClass)
  {
    ToBits(t.lengthExtra, LENGTH_EXTRA[t.lengthClass]) + DistanceBits(dist, t)
  }

  function TokenBits(lit: seq<nat>, dist: seq<nat>, t: Token): (bits: seq<bool>)
    requires TokenCoded(lit, dist, t)
  {
    match t
    case Literal(b) => Codeword(lit, b)
    case Match(l, _, _, _) => Codeword(lit, 257 + l) + MatchBits(dist, t)
  }

  /** A token sequence that can be written in the given codes, starting from `out`. */
  predicate TokensOk(lit: seq<nat>, dist: seq<nat>, tokens: seq<Token>, out: seq<byte>)
    decreases |tokens|
  {
    if tokens == [] then Coded(lit, 256)
    else
      && TokenCoded(lit, dist, tokens[0]) && Applies(tokens[0], out)
      && TokensOk(lit, dist, tokens[1..], Apply(tokens[0], out))
  }

  /** The LZ77 expansion of a token sequence. */
  function Expand(lit: seq<nat>, dist: seq<nat>, tokens: seq<Token>, out: seq<byte>): (out': seq<byte>)
    requires TokensOk(lit, dist, tokens, out)
    ensures |out| <= |out'|
    decreases |tokens|
  {
    if tokens == [] then out else Expand(lit, dist, tokens[1..], Apply(tokens[0], out))
  }

  function TokensBits(lit: seq<nat>, dist: seq<nat>, tokens: seq<Token>, out: seq<byte>): (bits: seq<bool>)
    requires TokensOk(lit, dist, tokens, out)
    decreases |tokens|
  {
    if tokens == [] then Codeword(lit, 256)
    else TokenBits(lit, dist, tokens[0]) + TokensBits(lit, dist, tokens[1..], Apply(tokens[0], out))
  }

  // ------------------------------------------------------------ what a match means

  lemma NextResidue(k: nat, d: nat)
    requires d >= 1
    ensures (k + 1) % d == if k % d == d - 1 then 0 else k % d + 1
  {
    var q, r := k / d, k % d;
    assert k == q * d + r;
    if r == d - 1 {
      Distribute(q, d);
      DivModUnique(q + 1, d, 0);
    } else {
      DivModUnique(q, d, r + 1);
    }
  }

  /** A match appends the last `distance` bytes over and over, also when it is longer than they are. */
  lemma {:induction false} CopyRepeats(out: seq<byte>, n: nat, distance: nat, k: nat)
    requires 1 <= distance <= |out| && k < n
    ensures Copy(out, n, distance)[..|out|] == out
    ensures 0 <= k % distance < distance
    ensures Copy(out, n, distance)[|out| + k] == out[|out| - distance + k % distance]
    decreases n
  {
    var longer := out + [out[|out| - distance]];
    if k == 0 {
      DivModUnique(0, distance, 0);
    } else {
      NextResidue(k - 1, distance);
    }
    if n > 1 {
      CopyRepeats(longer, n - 1, distance, if k == 0 then 0 else k - 1);
      assert Copy(out, n, distance)[..|out|] == Copy(longer, n - 1, distance)[..|longer|][..|out|];
    } else {
      assert Copy(out, n, distance) == longer;
    }
  }

  lemma ExtraPowers()
    ensures Pow2(0) == 1 && Pow2(1) == 2 && Pow2(2) == 4 && Pow2(3) == 8 && Pow2(4) == 16 && Pow2(5) == 32
    ensures Pow2(6) == 64
    ensures Pow2(7) == 128 && Pow2(8) == 256 && Pow2(9) == 512 && Pow2(10) == 1024
    ensures Pow2(11) == 2048 && Pow2(12) == 4096 && Pow2(13) == 8192
  {}

  /** Consecutive classes leave no gap. */
  lemma LengthsMeet(i: nat)
    requires i < 28
    ensures LENGTH_BASE[i + 1] <= LENGTH_BASE[i] + Pow2(LENGTH_EXTRA[i])
  {
    hide Pow2;
    ExtraPowers();
  }

  lemma DistancesMeet(i: nat)
    requires i < 29
    ensures DISTANCE_BASE[i + 1] <= DISTANCE_BASE[i] + Pow2(DISTANCE_EXTRA[i])
  {
    hide Pow2;
    ExtraPowers();
  }

  lemma LengthClass(length: nat, i: nat) returns (c: nat)
    requires i < 29 && LENGTH_BASE[i] <= length <= 258
    ensures c < 29 && LENGTH_BASE[c] <= length < LENGTH_BASE[c] + Pow2(LENGTH_EXTRA[c])
    decreases 29 - i
  {
    if i < 28 { LengthsMeet(i); } else { ExtraPowers(); }
    if i == 28 || length < LENGTH_BASE[i + 1] { c := i; } else { c := LengthClass(length, i + 1); }
  }

  lemma DistanceClass(distance: nat, i: nat) returns (c: nat)
    requires i < 30 && DISTANCE_BASE[i] <= distance <= 32768
    ensures c < 30 && DISTANCE_BASE[c] <= distance < DISTANCE_BASE[c] + Pow2(DISTANCE_EXTRA[c])
    decreases 30 - i
  {
    if i < 29 { DistancesMeet(i); } else { ExtraPowers(); }
    if i == 29 || distance < DISTANCE_BASE[i + 1] { c := i; } else { c := DistanceClass(distance, i + 1); }
  }

  /** Every match of the format, length 3 to 258 and distance 1 to 32768, is a token. */
  lemma EveryMatchHasAToken(length: nat, distance: nat) returns (t: Token)
    requires 3 <= length <= 258 && 1 <= distance <= 32768
    ensures t.Match? && t.WellFormed() && t.Length() == length && t.Distance() == distance
  {
    var l := LengthClass(length, 0);
    var d := DistanceClass(distance, 0);
    t := Match(l, length - LENGTH_BASE[l], d, distance - DISTANCE_BASE[d]);
  }

  // ------------------------------------------------------------ reading what was written

  /** `written` comes next in the input, before its end. */
  ghost predicate Next(input: Input, written: seq<bool>) {
    input.Valid() && input.Has(|written|) && Stands(input.bits, input.at, written)
  }

  lemma NextParts(input: Input, a: seq<bool>, b: seq<bool>)
    ensures Next(input, a + b) <==> Next(input, a) && Next(input.Skip(|a|), b)
  {
    if Next(input, a + b) {
      StandsParts(input.bits, input.at, a, b);
    }
    if Next(input, a) && Next(input.Skip(|a|), b) {
      var s := input.bits[input.at..input.at + |a + b|];
      assert s == input.bits[input.at..input.at + |a|] + input.bits[input.at + |a|..input.at + |a| + |b|];
    }
  }

  lemma NextNumberIs(input: Input, v: nat, n: nat)
    requires v < Pow2(n)
    ensures Next(input, ToBits(v, n)) <==> input.Valid() && input.Has(n) && input.Number(n) == v
  {
    hide ToBits, Value;
    if Next(input, ToBits(v, n)) {
      ReadStanding(input.bits, input.at, v, n);
    }
    if input.Valid() && input.Has(n) && input.Number(n) == v {
      ToBitsValue(input.bits[input.at..input.at + n]);
    }
  }

  lemma NextSymbolIs(lengths: seq<nat>, input: Input, s: nat)
    requires Accepts(lengths) && Coded(lengths, s)
    ensures Next(input, Codeword(lengths, s)) <==> input.Valid() && SymbolAt(lengths, input) == s
  {
    if Next(input, Codeword(lengths, s)) {
      SymbolIs(lengths, input, s);
    }
  }

  lemma SkipSkip(input: Input, a: nat, b: nat)
    ensures input.Skip(a).Skip(b) == input.Skip(a + b)
  {}

  // ------------------------------------------------------------ one token

  /** The distance half of a match is read back. */
  lemma DistanceRoundTrip(dist: seq<nat>, input: Input, t: Token, out: seq<byte>, capacity: nat)
    requires Accepts(dist) && t.Match? && t.WellFormed() && Coded(dist, t.distanceClass)
    requires Next(input, DistanceBits(dist, t)) && Applies(t, out) && |out| + t.Length() <= capacity
    ensures DistanceStep(dist, input, t.Length(), out, capacity)
         == More(input.Skip(|DistanceBits(dist, t)|), Apply(t, out))
  {
    hide Codeword, Accepts, ToBits, Copy, Next;
    var d := t.distanceClass;
    var code, extra := Codeword(dist, d), ToBits(t.distanceExtra, DISTANCE_EXTRA[d]);
    NextParts(input, code, extra);
    NextSymbolIs(dist, input, d);
    NextNumberIs(input.Skip(|code|), t.distanceExtra, DISTANCE_EXTRA[d]);
    SkipSkip(input, |code|, |extra|);
  }

  lemma MatchRoundTrip(dist: seq<nat>, input: Input, t: Token, out: seq<byte>, capacity: nat)
    requires Accepts(dist) && t.Match? && t.WellFormed() && Coded(dist, t.distanceClass)
    requires Next(input, MatchBits(dist, t)) && Applies(t, out) && |out| + t.Length() <= capacity
    ensures MatchStep(dist, input, t.lengthClass, out, capacity)
      == More(input.Skip(|MatchBits(dist, t)|), Apply(t, out))
  {
    hide Accepts, ToBits, Copy, Next, DistanceStep, DistanceBits, Applies, Apply;
    var extra, rest := ToBits(t.lengthExtra, LENGTH_EXTRA[t.lengthClass]), DistanceBits(dist, t);
    NextParts(input, extra, rest);
    NextNumberIs(input, t.lengthExtra, LENGTH_EXTRA[t.lengthClass]);
    DistanceRoundTrip(dist, input.Skip(|extra|), t, out, capacity);
    SkipSkip(input, |extra|, |rest|);
  }

  lemma ApplyLength(t: Token, out: seq<byte>)
    requires t.WellFormed() && Applies(t, out)
    ensures t.Match? ==> |Apply(t, out)| == |out| + t.Length()
    ensures t.Literal? ==> Apply(t, out) == out + [t.value]
  {}

  lemma TokenRoundTrip(lit: seq<nat>, dist: seq<nat>, input: Input, t: Token, out: seq<byte>, capacity: nat)
    requires Accepts(lit) && Accepts(dist) && TokenCoded(lit, dist, t)
    requires Next(input, TokenBits(lit, dist, t)) && Applies(t, out) && |Apply(t, out)| <= capacity
    ensures TokenStep(lit, dist, input, out, capacity) == More(input.Skip(|TokenBits(lit, dist, t)|), Apply(t, out))
  {
    hide Codeword, Accepts, Next, MatchStep, MatchBits, Applies, Apply;
    ApplyLength(t, out);
    match t
    case Literal(b) => NextSymbolIs(lit, input, b);
    case Match(l, _, _, _) =>
      var code, rest := Codeword(lit, 257 + l), MatchBits(dist, t);
      NextParts(input, code, rest);
      NextSymbolIs(lit, input, 257 + l);
      MatchRoundTrip(dist, input.Skip(|code|), t, out, capacity);
      SkipSkip(input, |code|, |rest|);
  }

  lemma EndStep(lit: seq<nat>, dist: seq<nat>, input: Input, out: seq<byte>, capacity: nat)
    requires input.Valid() && Coded(lit, 256)
    ensures SymbolAt(lit, input) == 256 ==> TokenStep(lit, dist, input, out, capacity) == Ended(input.Skip(lit[256]))
  {}

  /** A written token sequence decodes to its expansion. */
  lemma {:induction false} TokensRoundTrip(lit: seq<nat>, dist: seq<nat>, input: Input, tokens: seq<Token>,
                                           out: seq<byte>, capacity: nat)
    requires Accepts(lit) && Accepts(dist) && TokensOk(lit, dist, tokens, out)
    requires Next(input, TokensBits(lit, dist, tokens, out)) && |Expand(lit, dist, tokens, out)| <= capacity
    ensures Tokens(lit, dist, input, out, capacity)
         == Good(input.Skip(|TokensBits(lit, dist, tokens, out)|), Expand(lit, dist, tokens, out))
    decreases |tokens|
  {
    hide Codeword, Accepts, Next, TokenBits, Applies, Apply, TokenStep;
    if tokens == [] {
      NextSymbolIs(lit, input, 256);
      EndStep(lit, dist, input, out, capacity);
    } else {
      var first, rest := TokenBits(lit, dist, tokens[0]), TokensBits(lit, dist, tokens[1..], Apply(tokens[0], out));
      NextParts(input, first, rest);
      TokenRoundTrip(lit, dist, input, tokens[0], out, capacity);
      TokensRoundTrip(lit, dist, input.Skip(|first|), tokens[1..], Apply(tokens[0], out), capacity);
      SkipSkip(input, |first|, |rest|);
    }
  }

  // ------------------------------------------------------------ everything read was written

  lemma NumberBelow(input: Input, n: nat)
    requires input.Valid() && input.Has(n)
    ensures input.Number(n) < Pow2(n)
  {
    ValueBound(input.bits[input.at..input.at + n]);
  }

  lemma DistanceSound(dist: seq<nat>, input: Input, index: nat, extra: nat, out: seq<byte>, capacity: nat)
    returns (t: Token)
    requires Accepts(dist) && input.Valid() && index < 29 && extra < Pow2(LENGTH_EXTRA[index])
    requires DistanceStep(dist, input, LENGTH_BASE[index] + extra, out, capacity).More?
    ensures t.Match? && t.lengthClass == index && t.lengthExtra == extra && t.WellFormed()
    ensures Coded(dist, t.distanceClass) && Applies(t, out) && Next(input, DistanceBits(dist, t))
    ensures DistanceStep(dist, input, t.Length(), out, capacity)
      == More(input.Skip(|DistanceBits(dist, t)|), Apply(t, out))
  {
    hide Codeword, Accepts, ToBits, Copy, Next, Value, Pow2;
    var d := SymbolAt(dist, input);
    var tail := input.Skip(dist[d]);
    var v := tail.Number(DISTANCE_EXTRA[d]);
    NumberBelow(tail, DISTANCE_EXTRA[d]);
    t := Match(index, extra, d, v);
    var code, written := Codeword(dist, d), ToBits(v, DISTANCE_EXTRA[d]);
    NextSymbolIs(dist, input, d);
    NextNumberIs(tail, v, DISTANCE_EXTRA[d]);
    NextParts(input, code, written);
    SkipSkip(input, |code|, |written|);
  }

  lemma MatchSound(dist: seq<nat>, input: Input, index: nat, out: seq<byte>, capacity: nat) returns (t: Token)
    requires Accepts(dist) && input.Valid() && index < 29
    requires MatchStep(dist, input, index, out, capacity).More?
    ensures t.Match? && t.lengthClass == index && t.WellFormed()
    ensures Coded(dist, t.distanceClass) && Applies(t, out) && Next(input, MatchBits(dist, t))
    ensures MatchStep(dist, input, index, out, capacity) == More(input.Skip(|MatchBits(dist, t)|), Apply(t, out))
  {
    hide Accepts, ToBits, Copy, Next, DistanceStep, DistanceBits, Applies, Apply;
    var n := LENGTH_EXTRA[index];
    var v := input.Number(n);
    NumberBelow(input, n);
    t := DistanceSound(dist, input.Skip(n), index, v, out, capacity);
    NextNumberIs(input, v, n);
    NextParts(input, ToBits(v, n), DistanceBits(dist, t));
    SkipSkip(input, n, |DistanceBits(dist, t)|);
  }

  lemma TokenSound(lit: seq<nat>, dist: seq<nat>, input: Input, out: seq<byte>, capacity: nat) returns (t: Token)
    requires Accepts(lit) && Accepts(dist) && input.Valid()
    requires TokenStep(lit, dist, input, out, capacity).More?
    ensures TokenCoded(lit, dist, t) && Applies(t, out) && Next(input, TokenBits(lit, dist, t))
    ensures TokenStep(lit, dist, input, out, capacity) == More(input.Skip(|TokenBits(lit, dist, t)|), Apply(t, out))
  {
    hide Codeword, Accepts, Next, MatchStep, MatchBits;
    var symbol := SymbolAt(lit, input);
    NextSymbolIs(lit, input, symbol);
    if symbol < 256 {
      t := Literal(symbol);
    } else {
      t := MatchSound(dist, input.Skip(lit[symbol]), symbol - 257, out, capacity);
      NextParts(input, Codeword(lit, symbol), MatchBits(dist, t));
      SkipSkip(input, lit[symbol], |MatchBits(dist, t)|);
    }
  }

  lemma {:induction false} TokensSound(lit: seq<nat>, dist: seq<nat>, input: Input, out: seq<byte>, capacity: nat)
    returns (tokens: seq<Token>)
    requires Accepts(lit) && Accepts(dist) && input.Valid()
    requires Tokens(lit, dist, input, out, capacity).Good?
    ensures TokensOk(lit, dist, tokens, out) && Next(input, TokensBits(lit, dist, tokens, out))
    ensures Tokens(lit, dist, input, out, capacity)
         == Good(input.Skip(|TokensBits(lit, dist, tokens, out)|), Expand(lit, dist, tokens, out))
    decreases input.Left()
  {
    hide Codeword, Accepts, Next, TokenBits, Applies, Apply, TokenStep;
    var step := TokenStep(lit, dist, input, out, capacity);
    if step.Ended? {
      tokens := [];
      EndSound(lit, dist, input, out, capacity);
      NextSymbolIs(lit, input, 256);
    } else {
      var t := TokenSound(lit, dist, input, out, capacity);
      var rest := TokensSound(lit, dist, step.rest, step.out, capacity);
      tokens := [t] + rest;
      assert tokens[1..] == rest;
      NextParts(input, TokenBits(lit, dist, t), TokensBits(lit, dist, rest, Apply(t, out)));
      SkipSkip(input, |TokenBits(lit, dist, t)|, |TokensBits(lit, dist, rest, Apply(t, out))|);
    }
  }

  lemma EndSound(lit: seq<nat>, dist: seq<nat>, input: Input, out: seq<byte>, capacity: nat)
    requires input.Valid() && TokenStep(lit, dist, input, out, capacity).Ended?
    ensures Coded(lit, 256) && SymbolAt(lit, input) == 256
    ensures TokenStep(lit, dist, input, out, capacity) == Ended(input.Skip(lit[256]))
  {}
}
