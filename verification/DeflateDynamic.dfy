/** A dynamic block given byte by byte: its tables, and the letter it holds. */
module DeflateDynamic {
  import opened Bits
  import opened BitExamples
  import opened Huffman
  import opened Inflate
  import opened DeflateWriter
  import opened DeflateTables
  import opened DeflateBlocks
  import opened DeflateFormat
  import opened DeflateExamples

  // ------------------------------------------------------------ the counts in front

  /** Five bits as a number. */
  function Five(input: Input, at: nat): (v: nat)
    requires input.Valid() && input.Has(at + 5)
  {
    var b := input.bits[input.at + at..];
    Digit(b[0]) + 2 * Digit(b[1]) + 4 * Digit(b[2]) + 8 * Digit(b[3]) + 16 * Digit(b[4])
  }

  lemma FiveIs(input: Input, at: nat)
    requires input.Valid() && input.Has(at + 5)
    ensures input.Skip(at).Number(5) == Five(input, at)
  {
    hide Value, Digit;
    var b := input.bits[input.at + at..];
    assert input.bits[input.at + at..input.at + at + 5] == [b[0], b[1], b[2], b[3], b[4]];
    SmallValue(b[0], b[1], b[2], b[3], b[4]);
  }

  /** A dynamic block has 257 literal codes and one distance code more than its first two fields say. */
  lemma DynamicCounts(input: Input)
    requires input.Valid() && DynamicTables(input).Tables?
    ensures input.Has(14)
    ensures var t := DynamicTables(input); |t.lit| == 257 + Five(input, 0) && |t.dist| == 1 + Five(input, 5)
  {
    hide CodeLengths, Accepts, CodeCode, Five, Value;
    FiveIs(input, 0);
    FiveIs(input, 5);
  }

  // ------------------------------------------------------------ the codes

  /** Codes that leave no room stay within bounds at greater lengths. */
  lemma {:induction false} FitsBeyond(lengths: seq<nat>, m: nat, l: nat)
    requires m <= l && Fits(lengths, m) && forall k :: m < k <= l ==> Total(lengths, k) == 0
    ensures Fits(lengths, l)
  {
    if m < l {
      FitsBeyond(lengths, m, l - 1);
      FirstNext(lengths, l);
    }
  }

  /** Codes of length 1, 2 and 2 for the symbols 18, 0 and 1. */
  const CL: seq<nat> := [2, 2, 0, 0, 0, 0, 0, 0, 0, 0, 0, 0, 0, 0, 0, 0, 0, 0, 1]

  lemma ClCount(l: nat, n: nat)
    requires l > 0 && n <= 19
    ensures Count(CL, l, n) == if l == 2 then (if n <= 2 then n else 2) else if l == 1 && n == 19 then 1 else 0
  {
    hide Count;
    CountNone(CL, l);
    if n <= 2 {
      CountPart(CL, l, 0, n, 2);
    } else {
      CountPart(CL, l, 0, 2, 2);
      CountPart(CL, l, 2, if n <= 18 then n else 18, 0);
      CountPart(CL, l, 18, if n <= 18 then 18 else n, 1);
    }
  }

  lemma ClFirst()
    ensures First(CL, 1) == 0 && First(CL, 2) == 2
  {
    hide Count, First;
    NoneOfLengthZero(CL, 19);
    ClCount(1, 19);
    FirstZero(CL, 1);
    FirstNext(CL, 2);
  }

  lemma ClAccepted()
    ensures Accepts(CL)
  {
    hide Count, First;
    ClFirst();
    forall l: nat | 1 <= l <= MAX_LENGTH
      ensures Fits(CL, l)
    {
      ClCount(1, 19);
      ClCount(2, 19);
      assert Pow2(1) == 2 && Pow2(2) == 4;
      if l > 2 {
        forall k: nat | 2 < k <= l
          ensures Total(CL, k) == 0
        {
          ClCount(k, 19);
        }
        FitsBeyond(CL, 2, l);
      }
    }
  }

  lemma ClWords()
    ensures Codeword(CL, 18) == [false] && Codeword(CL, 0) == [true, false] && Codeword(CL, 1) == [true, true]
  {
    hide Count, First, MsbBits;
    ClFirst();
    ClCount(1, 18);
    ClCount(2, 0);
    ClCount(2, 1);
    ShortWords();
  }

  lemma ShortWords()
    ensures MsbBits(0, 1) == [false] && MsbBits(1, 1) == [true]
    ensures MsbBits(2, 2) == [true, false] && MsbBits(3, 2) == [true, true]
  {}

  /** One bit each for the letter and the end of the block. */
  function LitLengths(): (lengths: seq<nat>)
    ensures |lengths| == 257 && forall i :: 0 <= i < 257 ==> lengths[i] == if i == 97 || i == 256 then 1 else 0
  {
    seq(257, i => if i == 97 || i == 256 then 1 else 0)
  }

  const NO_DISTANCES: seq<nat> := [0]

  lemma LitCount(l: nat, n: nat)
    requires l > 0 && n <= 257
    ensures Count(LitLengths(), l, n) == if l != 1 || n <= 97 then 0 else if n <= 256 then 1 else 2
  {
    hide Count, LitLengths;
    var lit := LitLengths();
    CountNone(lit, l);
    if n <= 97 {
      CountPart(lit, l, 0, n, 0);
    } else {
      CountPart(lit, l, 0, 97, 0);
      CountPart(lit, l, 97, 98, 1);
      CountPart(lit, l, 98, if n <= 256 then n else 256, 0);
      CountPart(lit, l, 256, if n <= 256 then 256 else n, 1);
    }
  }

  lemma LitAccepted()
    ensures Accepts(LitLengths()) && First(LitLengths(), 1) == 0
  {
    hide Count, First, LitLengths;
    var lit := LitLengths();
    NoneOfLengthZero(lit, 257);
    FirstZero(lit, 1);
    LitCount(1, 257);
    assert Pow2(1) == 2;
    forall l: nat | 1 <= l <= MAX_LENGTH
      ensures Fits(lit, l)
    {
      forall k: nat | 1 < k <= l
        ensures Total(lit, k) == 0
      {
        LitCount(k, 257);
      }
      FitsBeyond(lit, 1, l);
    }
  }

  lemma LitWords()
    ensures Codeword(LitLengths(), 97) == [false] && Codeword(LitLengths(), 256) == [true]
  {
    hide Count, First, MsbBits, Accepts;
    LitAccepted();
    LitCount(1, 97);
    LitCount(1, 256);
    ShortWords();
  }

  lemma NoDistancesAccepted()
    ensures Accepts(NO_DISTANCES)
  {
    hide Count, First;
    var none := NO_DISTANCES;
    NoneOfLengthZero(none, 1);
    FirstZero(none, 0);
    forall l: nat | 1 <= l <= MAX_LENGTH
      ensures Fits(none, l)
    {
      forall k: nat | 0 < k <= l
        ensures Total(none, k) == 0
      {
        CountNone(none, k);
        CountPart(none, k, 0, 1, 0);
      }
      FitsBeyond(none, 0, l);
    }
  }

  // ------------------------------------------------------------ the lengths in runs

  const RUNS: seq<Run> := [ManyZeros(86), Plain(1), ManyZeros(127), ManyZeros(9), Plain(1), Plain(0)]

  /** The first `n` of both tables' lengths. */
  function Sent(n: nat): (lengths: seq<nat>)
    requires n <= 258
    ensures |lengths| == n && forall i :: 0 <= i < n ==> lengths[i] == if i == 97 || i == 256 then 1 else 0
  {
    seq(n, i => if i == 97 || i == 256 then 1 else 0)
  }

  lemma SentRuns()
    ensures AddRun(ManyZeros(86), Sent(0)) == Sent(97) && AddRun(Plain(1), Sent(97)) == Sent(98)
    ensures AddRun(ManyZeros(127), Sent(98)) == Sent(236) && AddRun(ManyZeros(9), Sent(236)) == Sent(256)
    ensures AddRun(Plain(1), Sent(256)) == Sent(257) && AddRun(Plain(0), Sent(257)) == Sent(258)
  {}

  lemma SentAll()
    ensures Sent(258) == LitLengths() + NO_DISTANCES && Sent(0) == []
  {}

  lemma NextRun(r: Run, rest: seq<Run>, n: nat, m: nat)
    requires n <= m <= 258 && r.WellFormed() && !r.Again? && Coded(CL, r.Symbol()) && n + r.Count() == m
    requires AddRun(r, Sent(n)) == Sent(m) && RunsOk(CL, rest, Sent(m), 258)
    ensures RunsOk(CL, [r] + rest, Sent(n), 258)
    ensures AddRuns(CL, [r] + rest, Sent(n), 258) == AddRuns(CL, rest, Sent(m), 258)
    ensures RunsBits(CL, [r] + rest, Sent(n), 258) == RunBits(CL, r) + RunsBits(CL, rest, Sent(m), 258)
  {
    hide AddRun, Sent, RunBits;
    assert ([r] + rest)[1..] == rest;
  }

  lemma NextToBits(v: nat, n: nat)
    requires n > 0
    ensures ToBits(v, n) == [v % 2 == 1] + ToBits(v / 2, n - 1)
  {}

  lemma NoToBits(v: nat)
    ensures ToBits(v, 0) == []
  {}

  lemma FirstExtra()
    ensures ToBits(86, 7) == [false, true, true, false, true, false, true]
  {
    hide ToBits;
    NextToBits(86, 7);
    NextToBits(43, 6);
    NextToBits(21, 5);
    NextToBits(10, 4);
    NextToBits(5, 3);
    NextToBits(2, 2);
    NextToBits(1, 1);
    NoToBits(0);
  }

  lemma SecondExtra()
    ensures ToBits(127, 7) == [true, true, true, true, true, true, true]
  {
    hide ToBits;
    NextToBits(127, 7);
    NextToBits(63, 6);
    NextToBits(31, 5);
    NextToBits(15, 4);
    NextToBits(7, 3);
    NextToBits(3, 2);
    NextToBits(1, 1);
    NoToBits(0);
  }

  lemma ThirdExtra()
    ensures ToBits(9, 7) == [true, false, false, true, false, false, false]
  {
    hide ToBits;
    NextToBits(9, 7);
    NextToBits(4, 6);
    NextToBits(2, 5);
    NextToBits(1, 4);
    NextToBits(0, 3);
    NextToBits(0, 2);
    NextToBits(0, 1);
    NoToBits(0);
  }

  predicate RunCoded(r: Run) {
    r.WellFormed() && Coded(CL, r.Symbol())
  }

  lemma RunsCoded()
    ensures RunCoded(Plain(0)) && RunCoded(Plain(1))
    ensures RunCoded(ManyZeros(86)) && RunCoded(ManyZeros(127)) && RunCoded(ManyZeros(9))
  {}

  lemma RunWords()
    ensures RunCoded(Plain(0)) && RunCoded(Plain(1))
    ensures RunCoded(ManyZeros(86)) && RunCoded(ManyZeros(127)) && RunCoded(ManyZeros(9))
    ensures RunBits(CL, ManyZeros(86)) == [false, false, true, true, false, true, false, true]
    ensures RunBits(CL, ManyZeros(127)) == [false, true, true, true, true, true, true, true]
    ensures RunBits(CL, ManyZeros(9)) == [false, true, false, false, true, false, false, false]
    ensures RunBits(CL, Plain(1)) == [true, true] && RunBits(CL, Plain(0)) == [true, false]
  {
    hide Codeword, ToBits;
    RunsCoded();
    ClWords();
    FirstExtra();
    SecondExtra();
    ThirdExtra();
  }

  lemma LastRuns()
    ensures var runs := [ManyZeros(9), Plain(1), Plain(0)];
      && RunsOk(CL, runs, Sent(236), 258) && AddRuns(CL, runs, Sent(236), 258) == Sent(258)
      && RunsBits(CL, runs, Sent(236), 258)
         == [false, true, false, false, true, false, false, false] + ([true, true] + [true, false])
  {
    hide AddRun, Sent, RunBits;
    SentRuns();
    RunWords();
    var none: seq<Run> := [];
    NextRun(Plain(0), none, 257, 258);
    assert [Plain(0)] + none == [Plain(0)];
    NextRun(Plain(1), [Plain(0)], 256, 257);
    assert [Plain(1)] + [Plain(0)] == [Plain(1), Plain(0)];
    NextRun(ManyZeros(9), [Plain(1), Plain(0)], 236, 256);
    assert [ManyZeros(9)] + [Plain(1), Plain(0)] == [ManyZeros(9), Plain(1), Plain(0)];
    assert [true, false] + RunsBits(CL, none, Sent(258), 258) == [true, false];
  }

  const RUNS_BITS: seq<bool> :=
    [false, false, true, true, false, true, false, true]
    + ([true, true]
       + ([false, true, true, true, true, true, true, true]
          + ([false, true, false, false, true, false, false, false] + ([true, true] + [true, false]))))

  lemma AllRuns()
    ensures RunsOk(CL, RUNS, [], 258) && AddRuns(CL, RUNS, [], 258) == LitLengths() + NO_DISTANCES
    ensures RunsBits(CL, RUNS, [], 258) == RUNS_BITS
  {
    hide AddRun, Sent, RunBits;
    SentRuns();
    SentAll();
    RunWords();
    LastRuns();
    var last := [ManyZeros(9), Plain(1), Plain(0)];
    NextRun(ManyZeros(127), last, 98, 236);
    NextRun(Plain(1), [ManyZeros(127)] + last, 97, 98);
    NextRun(ManyZeros(86), [Plain(1)] + ([ManyZeros(127)] + last), 0, 97);
    assert [ManyZeros(86)] + ([Plain(1)] + ([ManyZeros(127)] + last)) == RUNS;
  }

  // ------------------------------------------------------------ the code length code

  lemma NextCodeCode(n: nat)
    requires n < 19
    ensures ORDER[n] < 19 && CodeCodeBits(CL, n + 1) == CodeCodeBits(CL, n) + ToBits(CL[ORDER[n]], 3)
  {
    hide ToBits;
    OrderBelow(n);
  }

  lemma ThreeBits()
    ensures ToBits(0, 3) == Off(3) && ToBits(1, 3) == [true, false, false] && ToBits(2, 3) == [false, true, false]
  {}

  lemma {:induction false} ZeroCodeCode(n: nat, m: nat)
    requires 4 <= n <= m <= 17
    ensures CodeCodeBits(CL, m) == CodeCodeBits(CL, n) + Off(3 * (m - n))
    decreases m
  {
    hide ToBits, CodeCodeBits;
    if n < m {
      ZeroCodeCode(n, m - 1);
      NextCodeCode(m - 1);
      ThreeBits();
      assert CL[ORDER[m - 1]] == 0;
      assert Off(3 * (m - 1 - n)) + Off(3) == Off(3 * (m - n));
    } else {
      assert Off(0) == [];
    }
  }

  lemma CodeCodeSent()
    ensures CodeCodeBits(CL, 18)
      == Off(6) + [true, false, false] + [false, true, false] + Off(39) + [false, true, false]
  {
    hide ToBits, CodeCodeBits;
    ThreeBits();
    NoCodeCode();
    NextCodeCode(0);
    NextCodeCode(1);
    NextCodeCode(2);
    NextCodeCode(3);
    ZeroCodeCode(4, 17);
    NextCodeCode(17);
    assert Off(3) + Off(3) == Off(6);
  }

  lemma NoCodeCode()
    ensures CodeCodeBits(CL, 0) == []
  {}

  const CODES := Codes(LitLengths(), NO_DISTANCES, CL, 18, RUNS)

  lemma ClSendable()
    ensures Sendable(CL, 18)
  {}

  lemma FirstCounts()
    ensures ToBits(0, 5) == Off(5) && ToBits(14, 4) == [false, true, true, true]
  {}

  lemma CodesAreOk()
    ensures CodesOk(CODES)
  {
    hide Accepts, RunsOk, AddRuns, RunsBits, Sendable;
    ClSendable();
    ClAccepted();
    LitAccepted();
    NoDistancesAccepted();
    AllRuns();
  }

  lemma CodesWritten()
    requires CodesOk(CODES)
    ensures CodesBits(CODES) == Off(5) + (Off(5) + ([false, true, true, true]
              + (CodeCodeBits(CL, 18) + RunsOf(CODES))))
  {
    hide RunsOf, CodeCodeBits, ToBits, CodesOk;
    FirstCounts();
  }

  // ------------------------------------------------------------ the stream

  const LETTER := [Literal(97)]
  const LETTER_BYTES: seq<byte> := [5, 192, 129, 8, 0, 0, 0, 0, 32, 214, 253, 37, 78]
  const LETTER_STREAM: seq<byte> := [120, 156, 5, 192, 129, 8, 0, 0, 0, 0, 32, 214, 253, 37, 78, 0, 98, 0, 98]

  lemma LetterTokens()
    ensures TokensOk(LitLengths(), NO_DISTANCES, LETTER, [])
    ensures Expand(LitLengths(), NO_DISTANCES, LETTER, []) == [97]
    ensures TokensBits(LitLengths(), NO_DISTANCES, LETTER, []) == [false] + [true]
  {
    hide Codeword, LitLengths;
    LitWords();
    var none: seq<Token> := [];
    assert LETTER[1..] == none;
    assert Apply(LETTER[0], []) == [97];
  }

  /** What stands before the runs: three header bits, the counts and the code length code. */
  function BeforeRuns(): (bits: seq<bool>) {
    [true] + [false, true] + Off(5) + Off(5) + [false, true, true, true] + CodeCodeBits(CL, 18)
  }

  lemma Regroup(a: seq<bool>, b: seq<bool>, c: seq<bool>, d: seq<bool>, e: seq<bool>, f: seq<bool>, g: seq<bool>,
                t: seq<bool>, u: seq<bool>)
    ensures a + (b + ((c + (d + (e + (f + g)))) + (t + u))) == a + b + c + d + e + f + g + t + u
  {
    assert c + (d + (e + (f + g))) == c + d + e + f + g;
    var m := c + d + e + f + g;
    assert a + (b + (m + (t + u))) == a + b + m + t + u;
    assert a + b + m == a + b + c + d + e + f + g;
  }

  lemma OneBlock(codes: Codes, tokens: seq<Token>)
    requires CodesOk(codes) && TokensOk(codes.lit, codes.dist, tokens, [])
    ensures var blocks := [Dynamic(codes, tokens)];
      && BlocksOk(blocks, 0, []) && AllWritten(blocks, 0, []) == Expand(codes.lit, codes.dist, tokens, [])
      && BlocksBits(blocks, 0, [])
         == [true] + ([false, true] + (CodesBits(codes) + TokensBits(codes.lit, codes.dist, tokens, [])))
  {
    hide CodesOk, TokensOk, Expand, TokensBits, CodesBits, ToBits;
    TwoBits();
  }

  lemma TwoBits()
    ensures ToBits(2, 2) == [false, true]
  {}

  lemma LetterBlock()
    ensures var blocks := [Dynamic(CODES, LETTER)];
      && BlocksOk(blocks, 0, []) && AllWritten(blocks, 0, []) == [97]
      && BlocksBits(blocks, 0, []) == BeforeRuns() + RUNS_BITS + [false] + [true]
  {
    hide CodesOk, TokensOk, Expand, TokensBits, CodesBits, CodeCodeBits, BlocksOk, BlocksBits, AllWritten, RunsOf;
    CodesAreOk();
    CodesWritten();
    RunsSent();
    LetterTokens();
    OneBlock(CODES, LETTER);
    Regroup([true], [false, true], Off(5), Off(5), [false, true, true, true], CodeCodeBits(CL, 18), RUNS_BITS, [false],
            [true]);
  }

  lemma RunsSent()
    requires CodesOk(CODES)
    ensures RunsOf(CODES) == RUNS_BITS
  {
    hide RunsBits, CodesOk, RunsOk;
    AllRuns();
  }

  lemma LeftBits()
    ensures BeforeRuns() == [true, false, true, false, false, false, false, false]
      + [false, false, false, false, false, false, true, true]
              + [true, false, false, false, false, false, false, true]
              + [false, false, false, true, false, false, false, false] + Off(32) + (Off(4) + [false, true, false])
  {
    hide CodeCodeBits;
    CodeCodeSent();
    var five, four := Off(5), [false, true, true, true];
    var lengths := Off(6) + [true, false, false] + [false, true, false];
    assert [true] + [false, true] + five == [true, false, true, false, false, false, false, false];
    assert five + four == [false, false, false, false, false, false, true, true] + [true];
    assert [true] + lengths
      == [true, false, false, false, false, false, false, true] + [false, false, false, true, false];
    assert [false, false, false, true, false] + Off(3) == [false, false, false, true, false, false, false, false];
    assert Off(39) == Off(3) + Off(32) + Off(4);
  }

  lemma RightBits()
    ensures RUNS_BITS + [false] + [true] + [false]
         == [false] + ([false, true, true, false, true, false, true, true]
                       + [true, false, true, true, true, true, true, true])
            + ([true, false, true, false, false, true, false, false]
               + [false, true, true, true, false, false, true, false])
  {}

  lemma HeadBytes()
    ensures EightBits(5) == [true, false, true, false, false, false, false, false]
    ensures EightBits(192) == [false, false, false, false, false, false, true, true]
    ensures EightBits(129) == [true, false, false, false, false, false, false, true]
    ensures EightBits(8) == [false, false, false, true, false, false, false, false] && EightBits(0) == Off(8)
  {}

  lemma TailBytes()
    ensures EightBits(32) == [false, false, false, false, false, true, false, false]
    ensures EightBits(214) == [false, true, true, false, true, false, true, true]
    ensures EightBits(253) == [true, false, true, true, true, true, true, true]
    ensures EightBits(37) == [true, false, true, false, false, true, false, false]
    ensures EightBits(78) == [false, true, true, true, false, false, true, false]
  {}

  lemma Assemble(a: seq<bool>, b: seq<bool>, c: seq<bool>, d: seq<bool>, z: seq<bool>, n: seq<bool>, f: seq<bool>,
                 p: seq<bool>, q: seq<bool>, r: seq<bool>, s: seq<bool>)
    ensures (a + b) + (c + d) + (z + (((n + f) + p) + (q + r) + s)) == (a + b + c + d + z + n) + (f + (p + q) + (r + s))
  {
    var left := a + b + c + d;
    assert (a + b) + (c + d) == left;
    assert ((n + f) + p) + (q + r) + s == n + (f + (p + q) + (r + s));
    var right := f + (p + q) + (r + s);
    assert left + (z + (n + right)) == (left + z + n) + right;
  }

  lemma LetterTail()
    ensures BitsOf([32, 214, 253, 37, 78])
         == ((Off(4) + [false, true, false]) + [false] + [false, true, true, false, true, false, true, true])
            + ([true, false, true, true, true, true, true, true]
               + [true, false, true, false, false, true, false, false])
            + [false, true, true, true, false, false, true, false]
  {
    hide BitsOf, EightBits;
    FourBytes(32, 214, 253, 37, [78]);
    NextByte(78, []);
    NoBytes();
    TailBytes();
    assert [78] + [] == [78] && EightBits(78) + [] == EightBits(78);
    assert [32, 214, 253, 37] + [78] == [32, 214, 253, 37, 78];
    assert Off(4) + [false, true, false] + [false] == [false, false, false, false, false, true, false, false];
  }

  lemma LetterHead(rest: seq<byte>)
    ensures BitsOf([5, 192, 129, 8] + ([0, 0, 0, 0] + rest))
         == ([true, false, true, false, false, false, false, false]
             + [false, false, false, false, false, false, true, true])
            + ([true, false, false, false, false, false, false, true]
               + [false, false, false, true, false, false, false, false])
            + (Off(32) + BitsOf(rest))
  {
    hide BitsOf, EightBits;
    FourBytes(5, 192, 129, 8, [0, 0, 0, 0] + rest);
    FourBytes(0, 0, 0, 0, rest);
    HeadBytes();
    assert Off(8) + Off(8) + (Off(8) + Off(8)) == Off(32);
  }

  lemma LetterBits()
    ensures BitsOf(LETTER_BYTES) == BeforeRuns() + RUNS_BITS + [false] + [true] + [false]
  {
    hide BitsOf, BeforeRuns, Off;
    LetterHead([32, 214, 253, 37, 78]);
    LetterTail();
    LeftBits();
    RightBits();
    assert [5, 192, 129, 8] + ([0, 0, 0, 0] + [32, 214, 253, 37, 78]) == LETTER_BYTES;
    Assemble([true, false, true, false, false, false, false, false],
             [false, false, false, false, false, false, true, true],
             [true, false, false, false, false, false, false, true],
               [false, false, false, true, false, false, false, false], Off(32),
             Off(4) + [false, true, false], [false], [false, true, true, false, true, false, true, true],
             [true, false, true, true, true, true, true, true], [true, false, true, false, false, true, false, false],
             [false, true, true, true, false, false, true, false]);
    assert BeforeRuns() + (RUNS_BITS + [false] + [true] + [false])
        == BeforeRuns() + RUNS_BITS + [false] + [true] + [false];
  }

  /** A block with its own codes for the letter a. */
  lemma LetterInflates(capacity: nat)
    requires capacity >= 1
    ensures Decompressed(LETTER_STREAM, capacity) == Inflated([97])
  {
    hide BitsOf, BlocksOk, BlocksBits, AllWritten, Adler, BigEndian32, Decompressed, BeforeRuns;
    var blocks := [Dynamic(CODES, LETTER)];
    LetterBlock();
    LetterBits();
    assert LETTER_STREAM[2..15] == LETTER_BYTES && LETTER_STREAM[15..] == [0, 98, 0, 98];
    LetterSum();
    var bits := BlocksBits(blocks, 0, []);
    assert Payload(LETTER_STREAM).bits == bits + [false];
    assert Payload(LETTER_STREAM).bits[0..|bits|] == bits;
    assert Carries(LETTER_STREAM, blocks);
    CarriedIsDecompressed(LETTER_STREAM, capacity, blocks);
  }

  lemma LetterSum()
    ensures Adler([97]) == BigEndian32([0, 98, 0, 98])
  {
    var none: seq<byte> := [];
    assert [97][..0] == none;
  }
}
