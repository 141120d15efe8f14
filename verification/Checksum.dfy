/** The Internet checksum: one's complement sums of big-endian words. */
module Checksum {
  import opened Bits

  type u16 = x: int | 0 <= x < 0x1_0000
  type u32 = x: int | 0 <= x < 0x1_0000_0000

  // ------------------------------------------------------------ big-endian numbers

  function Be16(v: u16): (b: seq<byte>)
    ensures |b| == 2
  {
    [v / 256, v % 256]
  }

  function Be32(v: u32): (b: seq<byte>)
    ensures |b| == 4
  {
    Be16(v / 65536) + Be16(v % 65536)
  }

  function Load16(b: seq<byte>, at: nat): (v: u16)
    requires at + 2 <= |b|
  {
    b[at] as int * 256 + b[at + 1]
  }

  function Load32(b: seq<byte>, at: nat): (v: u32)
    requires at + 4 <= |b|
  {
    Load16(b, at) as int * 65536 + Load16(b, at + 2)
  }

  lemma LoadsBack16(b: seq<byte>, at: nat, v: u16)
    requires at + 2 <= |b| && b[at..at + 2] == Be16(v)
    ensures Load16(b, at) == v
  {}

  // ------------------------------------------------------------ sums of words

  /** The sum of the 16-bit words, an odd last byte being the high half of its word. */
  function WordSum(b: seq<byte>): (s: nat) {
    if b == [] then 0
    else if |b| == 1 then b[0] as int * 256
    else b[0] as int * 256 + b[1] + WordSum(b[2..])
  }

  lemma {:induction false} WordSumBound(b: seq<byte>)
    ensures WordSum(b) <= (|b| + 1) / 2 * 0xffff
  {
    if |b| >= 2 {
      WordSumBound(b[2..]);
    }
  }

  lemma {:induction false} WordSumAppend(a: seq<byte>, b: seq<byte>)
    requires |a| % 2 == 0
    ensures WordSum(a + b) == WordSum(a) + WordSum(b)
  {
    if a == [] {
      assert a + b == b;
    } else {
      WordSumAppend(a[2..], b);
      assert (a + b)[2..] == a[2..] + b;
    }
  }

  lemma WordSumOf16(v: u16)
    ensures WordSum(Be16(v)) == v
  {}

  /** One's complement folding: the representative of `s` modulo 65535 in 1..65535, and 0 for 0. */
  function Folded(s: nat): (r: u16) {
    if s == 0 then 0 else (s - 1) % 0xffff + 1
  }

  lemma FoldOnce(s: nat)
    ensures Folded(s % 65536 + s / 65536) == Folded(s)
    ensures s >= 65536 ==> s % 65536 + s / 65536 < s
    ensures s < 65536 ==> Folded(s) == s
  {
    var q := s / 65536;
    if s >= 65536 {
      var t := s % 65536 + q;
      assert s - 1 == q * 0xffff + (t - 1);
      ModShift(q, t - 1);
    }
  }

  lemma {:induction false} ModShift(q: nat, r: nat)
    ensures (q * 0xffff + r) % 0xffff == r % 0xffff
  {}

  /** Adds the words of `bytes` to a 32-bit sum; the sum does not wrap while it stays below 2^32. */
  method AddBytes(sum: u32, bytes: seq<byte>) returns (sum': u32)
    requires sum + WordSum(bytes) < 0x1_0000_0000
    ensures sum' == sum + WordSum(bytes)
  {
    sum' := sum;
    var i := 0;
    while i + 1 < |bytes|
      invariant 0 <= i <= |bytes| && i % 2 == 0
      invariant sum' + WordSum(bytes[i..]) == sum + WordSum(bytes)
    {
      assert bytes[i..][2..] == bytes[i + 2..];
      sum' := (sum' as int + bytes[i] as int * 256 + bytes[i + 1]) % 0x1_0000_0000;
      i := i + 2;
    }
    if |bytes| % 2 != 0 {
      sum' := (sum' as int + bytes[|bytes| - 1] as int * 256) % 0x1_0000_0000;
    }
  }

  /** The carry loop and the final complement. */
  method FoldAndComplement(sum: u32) returns (c: u16)
    ensures c == 0xffff - Folded(sum)
  {
    var s: int := sum;
    while s / 65536 != 0
      invariant 0 <= s < 0x1_0000_0000 && Folded(s) == Folded(sum)
      decreases s
    {
      FoldOnce(s);
      s := s % 65536 + s / 65536;
    }
    FoldOnce(s);
    c := 0xffff - s;
  }

  /** A block whose checksum field, at an even offset, holds the complement of the rest sums to all ones. */
  lemma ChecksumVerifies(rest: nat, stored: nat)
    requires stored == 0xffff - Folded(rest) || (Folded(rest) == 0xffff && stored == 0xffff)
    ensures Folded(rest + stored) == 0xffff
  {}

  /** The sum of a packet in which a 16-bit field stands at an even offset. */
  lemma SumWithField(head: seq<byte>, field: u16, tail: seq<byte>)
    requires |head| % 2 == 0
    ensures WordSum(head + Be16(field) + tail) == WordSum(head) + field + WordSum(tail)
  {
    WordSumAppend(head, Be16(field) + tail);
    WordSumAppend(Be16(field), tail);
    WordSumOf16(field);
    assert head + Be16(field) + tail == head + (Be16(field) + tail);
  }
}
