/** The checksum of metadata blocks, bit by bit. */
module Crc32c {

  const POLYNOMIAL: bv32 := 0x82f63b78
  const ONES: bv32 := 0xffff_ffff

  function Xor(a: bv32, b: bv32): (r: bv32) { a ^ b }
  function Half(a: bv32): (r: bv32) { a >> 1 }
  predicate Odd(a: bv32) { a & 1 == 1 }
  function Wide(d: bv8): (r: bv32) { d as bv32 }

  /** One bit through the register. */
  function Shift(c: bv32): (r: bv32) {
    if Odd(c) then Xor(Half(c), POLYNOMIAL) else Half(c)
  }

  function Shifts(c: bv32, n: nat): (r: bv32)
    decreases n
  {
    if n == 0 then c else Shifts(Shift(c), n - 1)
  }

  function Absorb(c: bv32, d: bv8): (r: bv32) {
    Shifts(Xor(c, Wide(d)), 8)
  }

  /** The register after a message. */
  function Register(c: bv32, data: seq<bv8>): (r: bv32)
    decreases |data|
  {
    if data == [] then c else Register(Absorb(c, data[0]), data[1..])
  }

  function Checksum(data: seq<bv8>): (r: bv32) {
    Xor(Register(ONES, data), ONES)
  }

  // ------------------------------------------------------------ words

  lemma XorCancels(a: bv32, b: bv32, w: bv32)
    requires Xor(a, w) == Xor(b, w) || Xor(w, a) == Xor(w, b)
    ensures a == b
  {}

  lemma XorMoves(c: bv32, d: bv32, w: bv32)
    ensures Xor(Xor(c, d), w) == Xor(c, Xor(w, d))
  {}

  lemma XorTwice(a: bv32, b: bv32, p: bv32)
    ensures Xor(Xor(a, p), Xor(b, p)) == Xor(a, b)
  {
    assert (a ^ p) ^ (b ^ p) == a ^ b;
  }

  lemma XorInside(a: bv32, b: bv32, p: bv32)
    ensures Xor(a, Xor(b, p)) == Xor(Xor(a, b), p)
  {}

  lemma XorCommutes(a: bv32, b: bv32)
    ensures Xor(a, b) == Xor(b, a)
  {}

  lemma XorOutside(a: bv32, b: bv32, p: bv32)
    ensures Xor(Xor(a, p), b) == Xor(Xor(a, b), p)
  {
    hide Xor;
    XorInside(a, p, b);
    XorCommutes(p, b);
    XorInside(a, b, p);
  }

  lemma XorHalves(a: bv32, b: bv32)
    ensures Half(Xor(a, b)) == Xor(Half(a), Half(b))
    ensures Odd(Xor(a, b)) <==> Odd(a) != Odd(b)
  {}

  // ------------------------------------------------------------ the register forgets nothing

  lemma ShiftInjective(a: bv32, b: bv32)
    requires Shift(a) == Shift(b)
    ensures a == b
  {}

  lemma {:induction false} ShiftsInjective(a: bv32, b: bv32, n: nat)
    requires Shifts(a, n) == Shifts(b, n)
    ensures a == b
    decreases n
  {
    hide Shift;
    if n > 0 {
      ShiftsInjective(Shift(a), Shift(b), n - 1);
      ShiftInjective(a, b);
    }
  }

  lemma {:induction false} RegisterInjective(a: bv32, b: bv32, data: seq<bv8>)
    requires Register(a, data) == Register(b, data)
    ensures a == b
    decreases |data|
  {
    hide Shifts, Xor, Wide;
    if data != [] {
      RegisterInjective(Absorb(a, data[0]), Absorb(b, data[0]), data[1..]);
      ShiftsInjective(Xor(a, Wide(data[0])), Xor(b, Wide(data[0])), 8);
      XorCancels(a, b, Wide(data[0]));
    }
  }

  lemma {:induction false} RegisterAppend(c: bv32, a: seq<bv8>, b: seq<bv8>)
    ensures Register(c, a + b) == Register(Register(c, a), b)
    decreases |a|
  {
    hide Absorb;
    if a == [] {
      assert a + b == b;
    } else {
      RegisterAppend(Absorb(c, a[0]), a[1..], b);
      assert (a + b)[1..] == a[1..] + b;
    }
  }

  // ------------------------------------------------------------ four bytes at a time

  lemma ShiftLinear(a: bv32, b: bv32)
    ensures Shift(Xor(a, b)) == Xor(Shift(a), Shift(b))
  {
    hide Xor, Half, Odd;
    XorHalves(a, b);
    XorTwice(Half(a), Half(b), POLYNOMIAL);
    XorOutside(Half(a), Half(b), POLYNOMIAL);
    XorInside(Half(a), Half(b), POLYNOMIAL);
  }

  lemma {:induction false} ShiftsLinear(a: bv32, b: bv32, n: nat)
    ensures Shifts(Xor(a, b), n) == Xor(Shifts(a, n), Shifts(b, n))
    decreases n
  {
    hide Shift, Xor;
    if n > 0 {
      ShiftLinear(a, b);
      ShiftsLinear(Shift(a), Shift(b), n - 1);
    }
  }

  lemma {:induction false} ShiftsAdd(c: bv32, m: nat, n: nat)
    ensures Shifts(c, m + n) == Shifts(Shifts(c, m), n)
    decreases m
  {
    hide Shift;
    if m > 0 {
      ShiftsAdd(Shift(c), m - 1, n);
    }
  }

  /** `w` moved up by a byte. */
  function Up(w: bv32): (r: bv32) {
    w << 8
  }

  lemma NoShifts(c: bv32)
    ensures Shifts(c, 0) == c
  {}

  /** A byte's worth of zeros shifts out without a trace. */
  lemma ZerosShiftOut(w: bv32)
    requires w < 0x100_0000
    ensures Shifts(Up(w), 8) == w
  {}

  /** Up to four bytes as one little-endian word. */
  function Word(data: seq<bv8>): (w: bv32)
    requires |data| <= 4
  {
    if data == [] then 0 else Xor(Up(Word(data[1..])), Wide(data[0]))
  }

  /** Three bytes leave the top byte clear. */
  lemma WordBound(data: seq<bv8>)
    requires |data| <= 3
    ensures Word(data) < 0x100_0000
    ensures |data| <= 2 ==> Word(data) < 0x1_0000
    ensures |data| <= 1 ==> Word(data) < 0x100
  {}

  lemma WordStep(v: bv32, w: bv32, d: bv8, e: bv8)
    requires v < 0x100_0000 && w < 0x100_0000 && Xor(Up(v), Wide(d)) == Xor(Up(w), Wide(e))
    ensures v == w && d == e
  {}

  function Low(x: bv32): (d: bv8) { (x & 0xff) as bv8 }

  lemma {:induction false} WordInjective(a: seq<bv8>, b: seq<bv8>)
    requires |a| == |b| <= 4 && Word(a) == Word(b)
    ensures a == b
  {
    hide Xor, Up, Wide;
    if a != [] {
      WordBound(a[1..]);
      WordBound(b[1..]);
      WordStep(Word(a[1..]), Word(b[1..]), a[0], b[0]);
      WordInjective(a[1..], b[1..]);
      assert a == [a[0]] + a[1..] && b == [b[0]] + b[1..];
    }
  }

  /** Taking in up to four bytes is taking in their word. */
  lemma {:induction false} RegisterWord(c: bv32, data: seq<bv8>)
    requires |data| <= 4
    ensures Register(c, data) == Shifts(Xor(c, Word(data)), 8 * |data|)
    decreases |data|
  {
    hide Xor, Up, Wide, Shifts;
    if data == [] {
      XorZero(c);
      NoShifts(c);
    } else {
      var d, w := Wide(data[0]), Word(data[1..]);
      RegisterWord(Absorb(c, data[0]), data[1..]);
      WordBound(data[1..]);
      ShiftsLinear(Xor(c, d), Up(w), 8);
      ZerosShiftOut(w);
      XorMoves(c, d, Up(w));
      ShiftsAdd(Xor(c, Word(data)), 8, 8 * (|data| - 1));
    }
  }

  lemma XorZero(c: bv32)
    ensures Xor(c, 0) == c
  {}

  // ------------------------------------------------------------ what the checksum detects

  /** Messages that differ only within four neighbouring bytes have different checksums. */
  lemma BurstDetected(prefix: seq<bv8>, a: seq<bv8>, b: seq<bv8>, suffix: seq<bv8>)
    requires |a| == |b| <= 4 && a != b
    ensures Checksum(prefix + a + suffix) != Checksum(prefix + b + suffix)
  {
    hide Xor, Register, Word, Shifts;
    var c := Register(ONES, prefix);
    RegisterAppend(ONES, prefix + a, suffix);
    RegisterAppend(ONES, prefix, a);
    RegisterAppend(ONES, prefix + b, suffix);
    RegisterAppend(ONES, prefix, b);
    RegisterWord(c, a);
    RegisterWord(c, b);
    if Checksum(prefix + a + suffix) == Checksum(prefix + b + suffix) {
      XorCancels(Register(ONES, prefix + a + suffix), Register(ONES, prefix + b + suffix), ONES);
      RegisterInjective(Register(c, a), Register(c, b), suffix);
      ShiftsInjective(Xor(c, Word(a)), Xor(c, Word(b)), 8 * |a|);
      XorCancels(Word(a), Word(b), c);
      WordInjective(a, b);
    }
  }

  /** Messages that differ in exactly one byte have different checksums. */
  lemma OneByteDetected(s: seq<bv8>, i: nat, d: bv8)
    requires i < |s| && s[i] != d
    ensures Checksum(s) != Checksum(s[i := d])
  {
    hide Checksum;
    assert s == s[..i] + [s[i]] + s[i + 1..];
    assert s[i := d] == s[..i] + [d] + s[i + 1..];
    BurstDetected(s[..i], [s[i]], [d], s[i + 1..]);
  }

  // ------------------------------------------------------------ the check value

  /** A message one byte longer. */
  lemma RegisterStep(c: bv32, d: bv8, rest: seq<bv8>)
    ensures Register(c, [d] + rest) == Register(Absorb(c, d), rest)
  {
    hide Absorb;
    assert ([d] + rest)[1..] == rest;
  }

  /** The first digits through the register. */
  lemma CheckSteps()
    ensures Absorb(0xffff_ffff, 0x31) == 0x6f0a_661c
    ensures Absorb(0x6f0a_661c, 0x32) == 0x8caa_3b9f
    ensures Absorb(0x8caa_3b9f, 0x33) == 0xef84_d04d
    ensures Absorb(0xef84_d04d, 0x34) == 0x09c5_0b11
    ensures Absorb(0x09c5_0b11, 0x35) == 0xe72e_dcca
    ensures Absorb(0xe72e_dcca, 0x36) == 0xbeca_8e79
    ensures Absorb(0xbeca_8e79, 0x37) == 0xedbd_6815
    ensures Absorb(0xedbd_6815, 0x38) == 0x9f78_7f65
    ensures Absorb(0x9f78_7f65, 0x39) == 0x1cf9_6d7c
  {}

  /** The digits 1 to 9 have the check value that identifies this polynomial, its bit order and its complements. */
  lemma CheckValue()
    ensures Checksum([0x31, 0x32, 0x33, 0x34, 0x35, 0x36, 0x37, 0x38, 0x39]) == 0xe306_9283
  {
    hide Absorb;
    CheckSteps();
    RegisterStep(0xffff_ffff, 0x31, [0x32, 0x33, 0x34, 0x35, 0x36, 0x37, 0x38, 0x39]);
    RegisterStep(0x6f0a_661c, 0x32, [0x33, 0x34, 0x35, 0x36, 0x37, 0x38, 0x39]);
    RegisterStep(0x8caa_3b9f, 0x33, [0x34, 0x35, 0x36, 0x37, 0x38, 0x39]);
    RegisterStep(0xef84_d04d, 0x34, [0x35, 0x36, 0x37, 0x38, 0x39]);
    RegisterStep(0x09c5_0b11, 0x35, [0x36, 0x37, 0x38, 0x39]);
    RegisterStep(0xe72e_dcca, 0x36, [0x37, 0x38, 0x39]);
    RegisterStep(0xbeca_8e79, 0x37, [0x38, 0x39]);
    RegisterStep(0xedbd_6815, 0x38, [0x39]);
    RegisterStep(0x9f78_7f65, 0x39, []);
  }

  // ------------------------------------------------------------ the loop

  lemma MaskedShift(c: bv32)
    ensures (c >> 1) ^ (POLYNOMIAL & (if c & 1 == 1 then ONES else 0)) == Shift(c)
  {
    assert POLYNOMIAL & ONES == POLYNOMIAL && POLYNOMIAL & 0 == 0;
    XorZero(Half(c));
  }

  method Compute(data: seq<bv8>) returns (crc: bv32)
    ensures crc == Checksum(data)
  {
    hide Shift, Absorb;
    crc := ONES;
    var i := 0;
    while i < |data|
      invariant 0 <= i <= |data|
      invariant Register(crc, data[i..]) == Register(ONES, data)
    {
      crc := TakeIn(crc, data[i]);
      assert data[i..][1..] == data[i + 1..];
      i := i + 1;
    }
    crc := crc ^ ONES;
  }

  /** One byte goes through the register. */
  method TakeIn(c: bv32, d: bv8) returns (crc: bv32)
    ensures crc == Absorb(c, d)
  {
    hide Shift;
    crc := c ^ (d as bv32);
    var bit := 0;
    while bit < 8
      invariant 0 <= bit <= 8
      invariant Shifts(crc, 8 - bit) == Absorb(c, d)
    {
      MaskedShift(crc);
      crc := (crc >> 1) ^ (POLYNOMIAL & (if crc & 1 == 1 then ONES else 0));
      bit := bit + 1;
    }
  }
}
