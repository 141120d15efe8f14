/** Canonical Huffman codes from code lengths, and bit-serial reading of symbols. */
module Huffman {
  import opened Bits

  const MAX_LENGTH := 15

  // ------------------------------------------------------------ canonical codes

  /** Symbols of length `l` among the first `n`. Length 0 marks an unused symbol. */
  function Count(lengths: seq<nat>, l: nat, n: nat): (c: nat)
    requires n <= |lengths|
  {
    if n == 0 then 0 else Count(lengths, l, n - 1) + (if l > 0 && lengths[n - 1] == l then 1 else 0)
  }

  function Total(lengths: seq<nat>, l: nat): (c: nat) {
    Count(lengths, l, |lengths|)
  }

  /** The first code of length `l`. */
  function First(lengths: seq<nat>, l: nat): (c: nat) {
    if l == 0 then 0 else 2 * (First(lengths, l - 1) + Total(lengths, l - 1))
  }

  function Code(lengths: seq<nat>, i: nat): (c: nat)
    requires i < |lengths|
  {
    First(lengths, lengths[i]) + Count(lengths, lengths[i], i)
  }

  /** The `n` low bits of `v`, most significant first. */
  function MsbBits(v: nat, n: nat): (bits: seq<bool>)
    ensures |bits| == n
  {
    if n == 0 then [] else MsbBits(v / 2, n - 1) + [v % 2 == 1]
  }

  /** The bits of a symbol in the order they stand in the stream. */
  function Codeword(lengths: seq<nat>, i: nat): (bits: seq<bool>)
    requires i < |lengths|
    ensures |bits| == lengths[i]
  {
    MsbBits(Code(lengths, i), lengths[i])
  }

  /** Codes of each length fit into that many bits. */
  predicate Fits(lengths: seq<nat>, l: nat) {
    First(lengths, l) + Total(lengths, l) <= Pow2(l)
  }

  predicate Accepts(lengths: seq<nat>) {
    && 1 <= |lengths| <= 288
    && (forall i :: 0 <= i < |lengths| ==> lengths[i] <= MAX_LENGTH)
    && (forall l :: 1 <= l <= MAX_LENGTH ==> Fits(lengths, l))
  }

  // ------------------------------------------------------------ the Kraft bound

  /** The sum of `2^(15 - length)` over the used symbols. */
  function Kraft(lengths: seq<nat>): (k: nat)
    requires forall i :: 0 <= i < |lengths| ==> lengths[i] <= MAX_LENGTH
  {
    if lengths == [] then 0
    else
      var last := lengths[|lengths| - 1];
      Kraft(lengths[..|lengths| - 1]) + (if last == 0 then 0 else Pow2(MAX_LENGTH - last))
  }

  lemma {:induction false} CountPrefix(lengths: seq<nat>, more: seq<nat>, l: nat, n: nat)
    requires n <= |lengths|
    ensures Count(lengths + more, l, n) == Count(lengths, l, n)
  {
    if n > 0 {
      CountPrefix(lengths, more, l, n - 1);
    }
  }

  lemma TotalAppend(lengths: seq<nat>, x: nat, l: nat)
    ensures Total(lengths + [x], l) == Total(lengths, l) + (if l > 0 && x == l then 1 else 0)
  {
    CountPrefix(lengths, [x], l, |lengths|);
  }

  lemma {:induction false} UsedAppend(lengths: seq<nat>, x: nat, l: nat)
    ensures First(lengths + [x], l) + Total(lengths + [x], l)
         == First(lengths, l) + Total(lengths, l) + (if 0 < x <= l then Pow2(l - x) else 0)
  {
    TotalAppend(lengths, x, l);
    if l > 0 {
      UsedAppend(lengths, x, l - 1);
    }
  }

  lemma {:induction false} TotalEmpty(l: nat)
    ensures First([], l) + Total([], l) == 0
  {
    if l > 0 {
      TotalEmpty(l - 1);
    }
  }

  lemma {:induction false} KraftIsUsed(lengths: seq<nat>)
    requires forall i :: 0 <= i < |lengths| ==> lengths[i] <= MAX_LENGTH
    ensures Kraft(lengths) == First(lengths, MAX_LENGTH) + Total(lengths, MAX_LENGTH)
  {
    if lengths == [] {
      TotalEmpty(MAX_LENGTH);
    } else {
      var front, last := lengths[..|lengths| - 1], lengths[|lengths| - 1];
      KraftIsUsed(front);
      UsedAppend(front, last, MAX_LENGTH);
      assert lengths == front + [last];
    }
  }

  /** The codes of length `a`, extended, all lie before the codes of length `b`. */
  lemma {:induction false} FirstGrows(lengths: seq<nat>, a: nat, b: nat)
    requires a < b
    ensures (First(lengths, a) + Total(lengths, a)) * Pow2(b - a) <= First(lengths, b)
    decreases b
  {
    var u := First(lengths, a) + Total(lengths, a);
    if a + 1 < b {
      FirstGrows(lengths, a, b - 1);
      DoubleProduct(u, Pow2(b - 1 - a));
    }
  }

  /** The builder accepts exactly the length vectors that satisfy the Kraft inequality. */
  lemma AcceptsIffKraft(lengths: seq<nat>)
    requires 1 <= |lengths| <= 288 && forall i :: 0 <= i < |lengths| ==> lengths[i] <= MAX_LENGTH
    ensures Accepts(lengths) <==> Kraft(lengths) <= Pow2(MAX_LENGTH)
  {
    KraftIsUsed(lengths);
    assert Accepts(lengths) ==> Fits(lengths, MAX_LENGTH);
    if Kraft(lengths) <= Pow2(MAX_LENGTH) {
      forall l | 1 <= l <= MAX_LENGTH
        ensures Fits(lengths, l)
      {
        if l < MAX_LENGTH { FitsBelow(lengths, l, MAX_LENGTH); }
      }
    }
  }

  lemma FitsBelow(lengths: seq<nat>, a: nat, b: nat)
    requires a < b && Fits(lengths, b)
    ensures Fits(lengths, a)
  {
    FirstGrows(lengths, a, b);
    Pow2Add(a, b - a);
    Distribute(Pow2(a), Pow2(b - a));
    if First(lengths, a) + Total(lengths, a) >= Pow2(a) + 1 {
      MulMono(Pow2(a) + 1, First(lengths, a) + Total(lengths, a), Pow2(b - a));
    }
  }

  // ------------------------------------------------------------ prefix freedom

  lemma {:induction false} CountBelow(lengths: seq<nat>, i: nat, n: nat)
    requires i < n <= |lengths| && lengths[i] > 0
    ensures Count(lengths, lengths[i], i) < Count(lengths, lengths[i], n)
  {
    if i < n - 1 {
      CountBelow(lengths, i, n - 1);
    }
  }

  /** A code lies among the codes of its length. */
  lemma CodeRange(lengths: seq<nat>, i: nat)
    requires i < |lengths| && lengths[i] > 0
    ensures First(lengths, lengths[i]) <= Code(lengths, i) < First(lengths, lengths[i]) + Total(lengths, lengths[i])
  {
    CountBelow(lengths, i, |lengths|);
  }

  /** Codes of one length differ. */
  lemma CodesDiffer(lengths: seq<nat>, i: nat, j: nat)
    requires i < |lengths| && j < |lengths| && lengths[i] == lengths[j] > 0
    requires Code(lengths, i) == Code(lengths, j)
    ensures i == j
  {
    var a, b := if i < j then i else j, if i < j then j else i;
    if a < b {
      CountBelow(lengths, a, b);
      assert false;
    }
  }

  lemma {:induction false} MsbPrefix(v: nat, n: nat, m: nat)
    requires m <= n
    ensures MsbBits(v, n)[..m] == MsbBits(Shr(v, n - m), m)
  {
    if m < n {
      MsbPrefix(v / 2, n - 1, m);
      assert MsbBits(v, n)[..m] == MsbBits(v / 2, n - 1)[..m];
    }
  }

  lemma {:induction false} MsbInjective(v: nat, w: nat, n: nat)
    requires v < Pow2(n) && w < Pow2(n) && MsbBits(v, n) == MsbBits(w, n)
    ensures v == w
  {
    if n > 0 {
      var a, b := MsbBits(v, n), MsbBits(w, n);
      assert a[..n - 1] == MsbBits(v / 2, n - 1) && b[..n - 1] == MsbBits(w / 2, n - 1);
      assert a[n - 1] == b[n - 1];
      MsbInjective(v / 2, w / 2, n - 1);
    }
  }

  lemma CodeFits(lengths: seq<nat>, i: nat)
    requires Accepts(lengths) && i < |lengths| && lengths[i] > 0
    ensures Code(lengths, i) < Pow2(lengths[i])
  {
    CodeRange(lengths, i);
    assert Fits(lengths, lengths[i]);
  }

  lemma ShrBelow(v: nat, n: nat, bound: nat)
    requires bound * Pow2(n) <= v
    ensures bound <= Shr(v, n)
  {
    ShrLow(v, n);
    Distribute(Shr(v, n), Pow2(n));
    if Shr(v, n) + 1 <= bound {
      MulMono(Shr(v, n) + 1, bound, Pow2(n));
    }
  }

  lemma ShrSmall(v: nat, n: nat, m: nat)
    requires m <= n && v < Pow2(n)
    ensures Shr(v, n - m) < Pow2(m)
  {
    ShrLow(v, n - m);
    Pow2Add(m, n - m);
    if Shr(v, n - m) >= Pow2(m) { MulMono(Pow2(m), Shr(v, n - m), Pow2(n - m)); }
  }

  /** No codeword of an accepted length vector is a prefix of another. */
  lemma PrefixFree(lengths: seq<nat>, i: nat, j: nat)
    requires Accepts(lengths) && i < |lengths| && j < |lengths| && 0 < lengths[i] <= lengths[j]
    requires Codeword(lengths, j)[..lengths[i]] == Codeword(lengths, i)
    ensures i == j
  {
    var a, b := lengths[i], lengths[j];
    CodeFits(lengths, i);
    CodeFits(lengths, j);
    MsbPrefix(Code(lengths, j), b, a);
    ShrSmall(Code(lengths, j), b, a);
    MsbInjective(Shr(Code(lengths, j), b - a), Code(lengths, i), a);
    CodeRange(lengths, i);
    if a < b {
      CodeRange(lengths, j);
      FirstGrows(lengths, a, b);
      ShrBelow(Code(lengths, j), b - a, First(lengths, a) + Total(lengths, a));
      assert false;
    }
    CodesDiffer(lengths, i, j);
  }
}
