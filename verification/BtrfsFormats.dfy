/** How keys, nodes and items are written, and that reading them back gives what was written. */
module BtrfsFormats {
  import opened Bits
  import opened BtrfsTree
  import opened BtrfsFile

  function Limit(n: nat): (limit: nat)
    ensures limit > 0
  {
    if n == 0 then 1 else 256 * Limit(n - 1)
  }

  /** A number in `n` bytes, the least significant first. */
  function LeBytes(v: nat, n: nat): (b: seq<byte>)
    ensures |b| == n
    decreases n
  {
    if n == 0 then [] else [v % 256] + LeBytes(v / 256, n - 1)
  }

  /** `data` stands in `s` at an offset. */
  predicate Stands(s: seq<byte>, at: nat, data: seq<byte>) {
    at + |data| <= |s| && s[at..at + |data|] == data
  }

  lemma StandsParts(s: seq<byte>, at: nat, a: seq<byte>, b: seq<byte>)
    requires Stands(s, at, a + b)
    ensures Stands(s, at, a) && Stands(s, at + |a|, b)
  {
    var whole := s[at..at + |a + b|];
    assert whole[..|a|] == a && whole[|a|..] == b;
    assert s[at..at + |a|] == whole[..|a|] && s[at + |a|..at + |a| + |b|] == whole[|a|..];
  }

  lemma {:induction false} LeReads(s: seq<byte>, at: nat, v: nat, n: nat)
    requires Stands(s, at, LeBytes(v, n)) && v < Limit(n)
    ensures Le(s, at, n) == v
    decreases n
  {
    if n > 0 {
      StandsParts(s, at, [v % 256], LeBytes(v / 256, n - 1));
      assert s[at] == s[at..at + 1][0];
      LeReads(s, at + 1, v / 256, n - 1);
    }
  }

  lemma Limits()
    ensures Limit(4) == 0x1_0000_0000 && Limit(8) == 0x1_0000_0000_0000_0000
  {
    assert Limit(2) == 0x1_0000;
    assert Limit(4) == 256 * (256 * Limit(2));
    assert Limit(6) == 256 * (256 * Limit(4));
  }

  predicate Wide(k: Key) {
    k.objectid <= U64_MAX && k.kind < 256 && k.offset <= U64_MAX
  }

  function KeyBytes(k: Key): (b: seq<byte>)
    requires Wide(k)
    ensures |b| == 17
  {
    LeBytes(k.objectid, 8) + ([k.kind] + LeBytes(k.offset, 8))
  }

  lemma KeyReads(s: seq<byte>, at: nat, k: Key)
    requires Wide(k) && Stands(s, at, KeyBytes(k))
    ensures KeyAt(s, at) == k
  {
    hide Le, LeBytes;
    Limits();
    StandsParts(s, at, LeBytes(k.objectid, 8), [k.kind] + LeBytes(k.offset, 8));
    StandsParts(s, at + 8, [k.kind], LeBytes(k.offset, 8));
    assert s[at + 8] == s[at + 8..at + 9][0];
    LeReads(s, at, k.objectid, 8);
    LeReads(s, at + 9, k.offset, 8);
  }

  /** Item `i` of a leaf: a key, then where its data lies and how long it is, 25 bytes each after the header. */
  lemma ItemReads(n: Node, i: nat, k: Key, offset: nat, size: nat)
    requires FullLeaf(n) && i < Count(n) && Wide(k) && offset < 0x1_0000_0000 && size < 0x1_0000_0000
    requires Stands(n, 101 + 25 * i, KeyBytes(k) + (LeBytes(offset, 4) + LeBytes(size, 4)))
    ensures ItemAt(n, i) == Item(k, offset, size, n)
  {
    hide Le, LeBytes, KeyBytes, KeyAt;
    Limits();
    var at := 101 + 25 * i;
    StandsParts(n, at, KeyBytes(k), LeBytes(offset, 4) + LeBytes(size, 4));
    StandsParts(n, at + 17, LeBytes(offset, 4), LeBytes(size, 4));
    KeyReads(n, at, k);
    LeReads(n, at + 17, offset, 4);
    LeReads(n, at + 21, size, 4);
  }

  /** Entry `i` of a branch: a key and the child's address, 33 bytes each after the header. */
  lemma EntryReads(n: Node, i: nat, k: Key, address: nat)
    requires FullBranch(n) && i < Count(n) && Wide(k) && address <= U64_MAX
    requires Stands(n, 101 + 33 * i, KeyBytes(k) + LeBytes(address, 8))
    ensures BranchKey(n, i) == k && Child(n, i) == address
  {
    hide Le, LeBytes, KeyBytes, KeyAt;
    Limits();
    var at := 101 + 33 * i;
    StandsParts(n, at, KeyBytes(k), LeBytes(address, 8));
    KeyReads(n, at, k);
    LeReads(n, at + 17, address, 8);
  }

  // ------------------------------------------------------------ extents

  /** The head of an extent item: generation, length in memory, four bytes of encodings, and the kind of extent. */
  function ExtentHead(generation: nat, length: nat, encodings: seq<byte>, kind: byte): (b: seq<byte>)
    requires |encodings| == 4
    ensures |b| == 21
  {
    LeBytes(generation, 8) + (LeBytes(length, 8) + (encodings + [kind]))
  }

  lemma HeadReads(s: seq<byte>, generation: nat, length: nat, encodings: seq<byte>, kind: byte)
    requires |encodings| == 4 && length <= U64_MAX && Stands(s, 0, ExtentHead(generation, length, encodings, kind))
    ensures Le(s, 8, 8) == length && s[20] == kind
  {
    hide Le, LeBytes;
    Limits();
    StandsParts(s, 0, LeBytes(generation, 8), LeBytes(length, 8) + (encodings + [kind]));
    StandsParts(s, 8, LeBytes(length, 8), encodings + [kind]);
    StandsParts(s, 16, encodings, [kind]);
    LeReads(s, 8, length, 8);
    assert s[20] == s[20..21][0];
  }

  /** An inline extent is as long as its data in memory. */
  lemma InlineLength(generation: nat, length: nat, encodings: seq<byte>, data: seq<byte>)
    requires |encodings| == 4 && length <= U64_MAX && |data| >= 32
    ensures HeaderLength(ExtentHead(generation, length, encodings, 0) + data) == length
  {
    hide Le, ExtentHead;
    HeadReads(ExtentHead(generation, length, encodings, 0) + data, generation, length, encodings, 0);
  }

  /** One on disk is as long as its item says last, whatever its length in memory and its place on disk. */
  lemma RegularLength(generation: nat, memory: nat, encodings: seq<byte>, kind: byte, place: seq<byte>, length: nat)
    requires |encodings| == 4 && memory <= U64_MAX && length <= U64_MAX && kind != 0 && |place| == 24
    ensures HeaderLength(ExtentHead(generation, memory, encodings, kind) + place + LeBytes(length, 8)) == length
  {
    hide Le, ExtentHead, LeBytes;
    Limits();
    var s := ExtentHead(generation, memory, encodings, kind) + place + LeBytes(length, 8);
    assert Stands(s, 0, ExtentHead(generation, memory, encodings, kind));
    HeadReads(s, generation, memory, encodings, kind);
    assert s[45..53] == LeBytes(length, 8);
    LeReads(s, 45, length, 8);
  }

  lemma HighNibble(high: bv8)
    ensures high as nat / 16 == 8 <==> high & 0xf0 == 0x80
  {}

  lemma TypeBits(upper: nat, high: byte, low: byte)
    ensures Regular(0x1_0000 * upper + 256 * high + low) <==> high / 16 == 8
  {
    assert (0x1_0000 * upper + 256 * high + low) / 4096 == 16 * upper + high / 16;
  }

  /** The file type is in the upper half of the mode's second byte; regular files have 8 there. */
  lemma RegularIsMask(upper: nat, high: bv8, low: byte)
    ensures Regular(0x1_0000 * upper + 256 * (high as nat) + low) <==> high & 0xf0 == 0x80
  {
    hide Regular;
    TypeBits(upper, high as nat, low);
    HighNibble(high);
  }
}
