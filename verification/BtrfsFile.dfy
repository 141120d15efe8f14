/** Reading a file through its extents: the extent before or after a position, and the bytes of a range. */
module BtrfsFile {
  import opened Bits
  import opened Options
  import opened BtrfsTree

  const INODE_ITEM := 1
  const EXTENT_DATA := 108
  const EXTENT_HEADER := 53
  const ITEM_CAPACITY := 4096
  const U64_MAX := 0xffff_ffff_ffff_ffff

  // ------------------------------------------------------------ the extent before or after a position

  predicate OfInode(item: Item, inode: nat) {
    item.key.objectid == inode && item.key.kind == EXTENT_DATA
  }

  /** An extent start on the wanted side of a position. */
  predicate OnSide(start: nat, position: nat, next: bool) {
    if next then start > position else start <= position
  }

  predicate Nearer(start: nat, best: Option<nat>, next: bool) {
    best.None? || (if next then start < best.value else start > best.value)
  }

  function Improve(best: Option<nat>, item: Item, inode: nat, position: nat, next: bool): (b: Option<nat>) {
    if OfInode(item, inode) && OnSide(item.key.offset, position, next) && Nearer(item.key.offset, best, next)
    then Some(item.key.offset) else best
  }

  function Nearest(items: seq<Item>, inode: nat, position: nat, next: bool, best: Option<nat>): (b: Option<nat>) {
    if items == [] then best
    else Nearest(items[1..], inode, position, next, Improve(best, items[0], inode, position, next))
  }

  lemma {:induction false} NearestAppend(a: seq<Item>, b: seq<Item>, inode: nat, position: nat, next: bool,
                                         best: Option<nat>)
    ensures Nearest(a + b, inode, position, next, best)
         == Nearest(b, inode, position, next, Nearest(a, inode, position, next, best))
    decreases |a|
  {
    if a == [] {
      assert a + b == b;
    } else {
      NearestAppend(a[1..], b, inode, position, next, Improve(best, a[0], inode, position, next));
      assert (a + b)[1..] == a[1..] + b;
    }
  }

  predicate IsExtent(items: seq<Item>, inode: nat, start: nat) {
    exists i :: 0 <= i < |items| && OfInode(items[i], inode) && items[i].key.offset == start
  }

  /** `best` is the true predecessor (or successor) among the extents of an inode. */
  ghost predicate IsNearest(items: seq<Item>, inode: nat, position: nat, next: bool, best: Option<nat>) {
    && (best.Some? ==> IsExtent(items, inode, best.value) && OnSide(best.value, position, next))
    && (forall s: nat :: IsExtent(items, inode, s) && OnSide(s, position, next) ==>
        best.Some? && !Nearer(s, best, next))
  }

  lemma {:induction false} NearestFrom(items: seq<Item>, inode: nat, position: nat, next: bool, best: Option<nat>)
    ensures var r := Nearest(items, inode, position, next, best);
      && (best.Some? ==> r.Some? && !Nearer(best.value, r, next))
      && (r == best || (r.Some? && IsExtent(items, inode, r.value) && OnSide(r.value, position, next)))
      && forall i :: 0 <= i < |items| && OfInode(items[i], inode) && OnSide(items[i].key.offset, position, next)
           ==> r.Some? && !Nearer(items[i].key.offset, r, next)
    decreases |items|
  {
    if items != [] {
      var b := Improve(best, items[0], inode, position, next);
      NearestFrom(items[1..], inode, position, next, b);
      var r := Nearest(items, inode, position, next, best);
      assert forall i :: 0 < i < |items| ==> items[i] == items[1..][i - 1];
      if r != b {
        ExtentTail(items, inode, r.value);
      }
    }
  }

  lemma ExtentTail(items: seq<Item>, inode: nat, start: nat)
    requires items != [] && IsExtent(items[1..], inode, start)
    ensures IsExtent(items, inode, start)
  {}

  /** The scan finds the true predecessor or successor. */
  lemma NearestIsNearest(items: seq<Item>, inode: nat, position: nat, next: bool)
    ensures IsNearest(items, inode, position, next, Nearest(items, inode, position, next, None))
  {
    hide Nearest;
    NearestFrom(items, inode, position, next, None);
  }

  /** One leaf. */
  method ScanLeaf(n: Node, inode: nat, position: nat, next: bool, best: Option<nat>) returns (r: Option<nat>)
    requires FullLeaf(n)
    ensures r == Nearest(LeafItems(n), inode, position, next, best)
  {
    hide Le, KeyAt, ItemAt;
    r := best;
    var i := 0;
    while i < Count(n)
      invariant 0 <= i <= Count(n)
      invariant Nearest(LeafItems(n)[i..], inode, position, next, r)
        == Nearest(LeafItems(n), inode, position, next, best)
    {
      var item := ItemAt(n, i);
      assert LeafItems(n)[i..][1..] == LeafItems(n)[i + 1..];
      if OfInode(item, inode) {
        if (!next && item.key.offset <= position && (r.None? || item.key.offset > r.value))
           || (next && item.key.offset > position && (r.None? || item.key.offset < r.value)) {
          r := Some(item.key.offset);
        }
      }
      i := i + 1;
    }
  }

  /** Every leaf below an address; the depth limit is never reached below a shaped root. */
  method ScanExtents(store: Store, address: nat, inode: nat, position: nat, next: bool, depth: nat, best: Option<nat>)
    returns (ok: bool, r: Option<nat>)
    requires address in store && Shaped(store, address, Level(store[address]))
    requires depth + Level(store[address]) <= MAX_LEVEL
    ensures ok && r == Nearest(Items(store, address), inode, position, next, best)
    decreases Level(store[address])
  {
    hide Le, KeyAt, ItemAt, Nearest, Child;
    if depth > MAX_LEVEL {
      assert false;
      return false, best;
    }
    var n := store[address];
    ShapedFull(store, address);
    if Level(n) == 0 {
      r := ScanLeaf(n, inode, position, next, best);
      return true, r;
    }
    r := best;
    var i := 0;
    while i < Count(n)
      invariant 0 <= i <= Count(n)
      invariant Nearest(BranchItems(store, n, i), inode, position, next, r)
             == Nearest(BranchItems(store, n, 0), inode, position, next, best)
    {
      assert ShapedChild(store, n, i);
      NearestAppend(Items(store, Child(n, i)), BranchItems(store, n, i + 1), inode, position, next, r);
      var scanned: bool;
      scanned, r := ScanExtents(store, Child(n, i), inode, position, next, depth + 1, r);
      i := i + 1;
    }
    NearestNone(inode, position, next, r);
    return true, r;
  }

  lemma NearestNone(inode: nat, position: nat, next: bool, best: Option<nat>)
    ensures Nearest([], inode, position, next, best) == best
  {}

  // ------------------------------------------------------------ the flat file

  /** The length in the header of an extent item. */
  function HeaderLength(data: seq<byte>): (n: nat)
    requires |data| >= EXTENT_HEADER
  {
    if data[20] == 0 then Le(data, 8, 8) else Le(data, 45, 8)
  }

  /** The length of the extent at a start, if its item can be read. */
  function ExtentLength(items: seq<Item>, inode: nat, start: nat): (n: Option<nat>) {
    match ItemData(items, Key(inode, EXTENT_DATA, start), ITEM_CAPACITY)
    case None => None
    case Some(data) => if |data| < EXTENT_HEADER then None else Some(HeaderLength(data))
  }

  /** An extent reaches over a position. */
  predicate Covers(items: seq<Item>, inode: nat, start: nat, position: nat) {
    && IsExtent(items, inode, start) && ExtentLength(items, inode, start).Some?
    && start <= position < start + ExtentLength(items, inode, start).value
  }

  /** Extents do not overlap. */
  ghost predicate Disjoint(items: seq<Item>, inode: nat) {
    forall s: nat, t: nat | s < t && IsExtent(items, inode, s) && IsExtent(items, inode, t) ::
      ExtentLength(items, inode, s).Some? ==> s + ExtentLength(items, inode, s).value <= t
  }

  /** A byte is what the file holds: the extent's byte where one reaches, zero elsewhere. */
  ghost predicate FlatByte(items: seq<Item>, inode: nat, contents: map<nat, seq<byte>>, position: nat, b: byte) {
    && (forall s: nat | Covers(items, inode, s, position) ::
         s in contents && position - s < |contents[s]| && b == contents[s][position - s])
    && ((forall s: nat :: !Covers(items, inode, s, position)) ==> b == 0)
  }

  ghost predicate FlatRange(items: seq<Item>, inode: nat, contents: map<nat, seq<byte>>, position: nat,
                            bytes: seq<byte>) {
    forall i :: 0 <= i < |bytes| ==> FlatByte(items, inode, contents, position + i, bytes[i])
  }

  /** A position past the end of the last extent, though there is one. */
  ghost predicate PastLast(items: seq<Item>, inode: nat, position: nat) {
    && (exists s: nat :: IsExtent(items, inode, s) && s <= position)
    && (forall s: nat :: IsExtent(items, inode, s) ==> s <= position && !Covers(items, inode, s, position))
  }

  /** No extent reaches over a stretch between its predecessor's end and its successor. */
  lemma HoleByte(items: seq<Item>, inode: nat, contents: map<nat, seq<byte>>, from: nat,
                 before: Option<nat>, after: Option<nat>, position: nat)
    requires Disjoint(items, inode) && IsNearest(items, inode, from, false, before)
    requires IsNearest(items, inode, from, true, after)
    requires before.Some? && ExtentLength(items, inode, before.value).Some? ==>
      before.value + ExtentLength(items, inode, before.value).value <= from
    requires from <= position && (after.Some? ==> position < after.value)
    ensures FlatByte(items, inode, contents, position, 0)
    ensures PastLast(items, inode, position) <==> before.Some? && after.None?
  {
    hide ExtentLength, IsExtent;
    forall s: nat
      ensures !Covers(items, inode, s, position)
    {
      if IsExtent(items, inode, s) {
        if OnSide(s, from, false) {
          assert before.Some? && s <= before.value;
        } else {
          assert OnSide(s, from, true);
        }
      }
    }
    if before.Some? && after.None? {
      forall s: nat | IsExtent(items, inode, s)
        ensures s <= position
      {
        assert OnSide(s, from, false) || OnSide(s, from, true);
      }
    }
    if PastLast(items, inode, position) {
      var s: nat :| IsExtent(items, inode, s) && s <= position;
      assert OnSide(s, from, false) || OnSide(s, from, true);
    }
  }

  /** A stretch inside an extent. */
  lemma CoveredByte(items: seq<Item>, inode: nat, contents: map<nat, seq<byte>>, start: nat, position: nat)
    requires Disjoint(items, inode) && Covers(items, inode, start, position)
    requires start in contents && position - start < |contents[start]|
    ensures FlatByte(items, inode, contents, position, contents[start][position - start])
    ensures !PastLast(items, inode, position)
  {
    hide ExtentLength, IsExtent;
    assert forall s: nat | Covers(items, inode, s, position) :: s == start;
  }

  // ------------------------------------------------------------ reading

  /** What reading part of an extent's data returned: start, position and size give the bytes. */
  type Reader = (nat, nat, nat) -> Option<seq<byte>>

  /** Whatever the reader returns is the extent's data. */
  ghost predicate Faithful(reader: Reader, contents: map<nat, seq<byte>>) {
    forall s: nat, p: nat, n: nat | reader(s, p, n).Some? ::
      && s in contents && s <= p && p - s + n <= |contents[s]|
      && reader(s, p, n).value == contents[s][p - s..p - s + n]
  }

  /** A read from `p` to `end` asks for this extent: the one before `p`, or one that starts on the way. */
  ghost predicate Consulted(items: seq<Item>, inode: nat, s: nat, p: nat, end: nat) {
    && IsExtent(items, inode, s) && s < end
    && (s > p || forall t: nat | IsExtent(items, inode, t) && t <= p :: t <= s)
  }

  /** The item of an extent can be read, and the reader answers for the part between `p` and `end`, if there is one. */
  ghost predicate PartReads(items: seq<Item>, inode: nat, reader: Reader, s: nat, p: nat, end: nat) {
    var length := ExtentLength(items, inode, s);
    var from := if s > p then s else p;
    && length.Some?
    && var to := if s + length.value < end then s + length.value else end;
       from < to ==> reader(s, from, to - from).Some?
  }

  /** The disk answers everything that a read from `p` to `end` asks for. */
  ghost predicate Answers(items: seq<Item>, inode: nat, reader: Reader, p: nat, end: nat) {
    p < end ==> forall s: nat | Consulted(items, inode, s, p, end) :: PartReads(items, inode, reader, s, p, end)
  }

  /** A pass of `n` bytes from `p` that asked for the extent before `p` and ran into no other. */
  ghost predicate Passed(items: seq<Item>, inode: nat, reader: Reader, p: nat, n: nat, end: nat, before: Option<nat>) {
    && n > 0 && p + n <= end && IsNearest(items, inode, p, false, before)
    && (forall s: nat | IsExtent(items, inode, s) :: s <= p || s >= p + n)
    && (before.Some? ==> PartReads(items, inode, reader, before.value, p, end))
    && (p + n < end && !IsExtent(items, inode, p + n) ==>
         before.Some? && ExtentLength(items, inode, before.value).Some?
         && before.value + ExtentLength(items, inode, before.value).value == p + n)
  }

  lemma PassedOn(items: seq<Item>, inode: nat, reader: Reader, p: nat, n: nat, end: nat, before: Option<nat>, s: nat)
    requires Passed(items, inode, reader, p, n, end, before) && Answers(items, inode, reader, p, end)
    requires p + n < end && Consulted(items, inode, s, p + n, end)
    ensures PartReads(items, inode, reader, s, p + n, end)
  {
    hide ExtentLength, IsExtent;
    if s > p {
      assert Consulted(items, inode, s, p, end);
    } else {
      assert OnSide(s, p, false);
      assert !IsExtent(items, inode, p + n);
      assert OnSide(before.value, p, false) && IsExtent(items, inode, before.value);
      assert s == before.value;
    }
  }

  lemma PassedBack(items: seq<Item>, inode: nat, reader: Reader, p: nat, n: nat, end: nat, before: Option<nat>, s: nat)
    requires Passed(items, inode, reader, p, n, end, before) && Answers(items, inode, reader, p + n, end)
    requires Consulted(items, inode, s, p, end)
    ensures PartReads(items, inode, reader, s, p, end)
  {
    hide ExtentLength, IsExtent;
    if s > p {
      assert Consulted(items, inode, s, p + n, end);
    } else {
      assert OnSide(s, p, false);
      assert s == before.value;
    }
  }

  /** A pass leaves the same question to the rest of the read. */
  lemma PassKeepsAnswers(items: seq<Item>, inode: nat, reader: Reader, p: nat, n: nat, end: nat, before: Option<nat>)
    requires Passed(items, inode, reader, p, n, end, before)
    ensures Answers(items, inode, reader, p, end) <==> Answers(items, inode, reader, p + n, end)
  {
    hide PartReads, Consulted, IsNearest;
    if Answers(items, inode, reader, p, end) && p + n < end {
      var q := p + n;
      forall s: nat | Consulted(items, inode, s, q, end)
        ensures PartReads(items, inode, reader, s, q, end)
      {
        PassedOn(items, inode, reader, p, n, end, before, s);
      }
    }
    if Answers(items, inode, reader, p + n, end) {
      forall s: nat | Consulted(items, inode, s, p, end)
        ensures PartReads(items, inode, reader, s, p, end)
      {
        PassedBack(items, inode, reader, p, n, end, before, s);
      }
    }
  }

  predicate ReadPart(items: seq<Item>, inode: nat, s: nat, p: nat, n: nat) {
    && IsExtent(items, inode, s) && ExtentLength(items, inode, s).Some?
    && s <= p && n > 0 && p + n <= s + ExtentLength(items, inode, s).value
  }

  /** A pass over a hole, which ends where the next extent starts or the read ends. */
  lemma HolePass(items: seq<Item>, inode: nat, reader: Reader, p: nat, n: nat, end: nat, before: Option<nat>,
                 after: Option<nat>)
    requires IsNearest(items, inode, p, false, before) && IsNearest(items, inode, p, true, after)
    requires before.Some? ==>
      var length := ExtentLength(items, inode, before.value);
      length.Some? && before.value + length.value <= p
    requires 0 < n && p + n <= end && (after.Some? ==> p + n <= after.value)
    requires p + n == end || after == Some(p + n)
    ensures Answers(items, inode, reader, p, end) <==> Answers(items, inode, reader, p + n, end)
  {
    hide ExtentLength, IsExtent;
    forall s: nat | IsExtent(items, inode, s)
      ensures s <= p || s >= p + n
    {
      assert OnSide(s, p, false) || OnSide(s, p, true);
    }
    assert before.Some? ==> OnSide(before.value, p, false);
    PassKeepsAnswers(items, inode, reader, p, n, end, before);
  }

  /** A pass over a part of one extent, which ends where the extent or the read ends. */
  lemma ChunkPass(items: seq<Item>, inode: nat, reader: Reader, p: nat, n: nat, end: nat, before: nat)
    requires Disjoint(items, inode) && IsNearest(items, inode, p, false, Some(before)) && before <= p
    requires ReadPart(items, inode, before, p, n) && p + n <= end && reader(before, p, n).Some?
    requires p + n == end || p + n == before + ExtentLength(items, inode, before).value
    ensures Answers(items, inode, reader, p, end) <==> Answers(items, inode, reader, p + n, end)
  {
    hide ExtentLength, IsExtent;
    forall s: nat | IsExtent(items, inode, s)
      ensures s <= p || s >= p + n
    {
      if s > p {
        assert before < s;
      }
    }
    PassKeepsAnswers(items, inode, reader, p, n, end, Some(before));
  }

  /** A pass that the disk does not answer. */
  lemma Unanswered(items: seq<Item>, inode: nat, reader: Reader, p: nat, end: nat, before: nat)
    requires IsNearest(items, inode, p, false, Some(before)) && before <= p < end
    requires !PartReads(items, inode, reader, before, p, end)
    ensures !Answers(items, inode, reader, p, end)
  {
    hide ExtentLength, IsExtent, PartReads;
    forall t: nat | IsExtent(items, inode, t) && t <= p
      ensures t <= before
    {
      assert OnSide(t, p, false);
    }
    assert Consulted(items, inode, before, p, end);
  }

  /** An index range of a buffer is overwritten. */
  ghost predicate Overwritten(before: seq<byte>, after: seq<byte>, at: nat, part: seq<byte>) {
    at + |part| <= |before| && after == before[..at] + part + before[at + |part|..]
  }

  method Fill(out: array<byte>, at: nat, part: seq<byte>)
    requires at + |part| <= out.Length
    modifies out
    ensures Overwritten(old(out[..]), out[..], at, part)
  {
    ghost var before := out[..];
    var i := 0;
    while i < |part|
      invariant 0 <= i <= |part|
      invariant forall j :: 0 <= j < out.Length ==> out[j] == if at <= j < at + i then part[j - at] else before[j]
    {
      out[at + i] := part[i];
      i := i + 1;
    }
    assert out[..] == before[..at] + part + before[at + |part|..];
  }

  /** The range of a hole. */
  lemma HoleRange(items: seq<Item>, inode: nat, contents: map<nat, seq<byte>>, from: nat, before: Option<nat>,
                  after: Option<nat>, n: nat)
    requires Disjoint(items, inode) && IsNearest(items, inode, from, false, before)
    requires IsNearest(items, inode, from, true, after)
    requires before.Some? && ExtentLength(items, inode, before.value).Some? ==>
      before.value + ExtentLength(items, inode, before.value).value <= from
    requires after.Some? ==> from + n <= after.value
    ensures FlatRange(items, inode, contents, from, ZeroBytes(n))
    ensures before.None? || after.Some? ==> NonePastLast(items, inode, from, n)
  {
    hide IsNearest, FlatByte, PastLast, Disjoint, ExtentLength;
    forall p: nat | from <= p < from + n
      ensures FlatByte(items, inode, contents, p, 0)
      ensures before.None? || after.Some? ==> !PastLast(items, inode, p)
    {
      HoleByte(items, inode, contents, from, before, after, p);
    }
  }

  ghost predicate NonePastLast(items: seq<Item>, inode: nat, from: nat, n: nat) {
    forall p: nat :: from <= p < from + n ==> !PastLast(items, inode, p)
  }

  /** The range inside an extent. */
  lemma CoveredRange(items: seq<Item>, inode: nat, contents: map<nat, seq<byte>>, start: nat, from: nat, n: nat)
    requires Disjoint(items, inode) && ReadPart(items, inode, start, from, n)
    requires start in contents && from - start + n <= |contents[start]|
    ensures FlatRange(items, inode, contents, from, contents[start][from - start..from - start + n])
    ensures NonePastLast(items, inode, from, n)
  {
    hide FlatByte, PastLast, Disjoint, ExtentLength;
    var part := contents[start][from - start..from - start + n];
    forall i | 0 <= i < n
      ensures FlatByte(items, inode, contents, from + i, part[i])
    {
      CoveredByte(items, inode, contents, start, from + i);
    }
    forall p: nat | from <= p < from + n
      ensures !PastLast(items, inode, p)
    {
      CoveredByte(items, inode, contents, start, p);
    }
  }

  method FindExtent(store: Store, root: nat, inode: nat, position: nat, next: bool) returns (r: Option<nat>)
    requires WellFormed(store, root)
    ensures IsNearest(Items(store, root), inode, position, next, r)
  {
    hide Ranged, IsNearest, Nearest, Shaped;
    NearestIsNearest(Items(store, root), inode, position, next);
    LevelBound(store, root);
    var ok;
    ok, r := ScanExtents(store, root, inode, position, next, 0, None);
  }

  lemma LevelBound(store: Store, root: nat)
    requires root in store && Shaped(store, root, Level(store[root]))
    ensures Level(store[root]) <= MAX_LEVEL
  {}

  /** The header of an extent item. */
  method ReadLength(store: Store, root: nat, inode: nat, start: nat) returns (r: Option<nat>)
    requires WellFormed(store, root)
    ensures r == ExtentLength(Items(store, root), inode, start)
  {
    hide Ranged, Shaped, Le, ItemData;
    var data := ReadItem(store, root, Key(inode, EXTENT_DATA, start), ITEM_CAPACITY);
    if data.None? || |data.value| < EXTENT_HEADER {
      return None;
    }
    return Some(HeaderLength(data.value));
  }

  /** `n` bytes of the file have gone into the buffer at `at`. */
  ghost predicate PassDone(items: seq<Item>, inode: nat, contents: map<nat, seq<byte>>, position: nat,
                           before: seq<byte>, after: seq<byte>, at: nat, n: nat) {
    && 0 < n && at + n <= |after|
    && Overwritten(before, after, at, after[at..at + n])
    && FlatRange(items, inode, contents, position, after[at..at + n])
    && NonePastLast(items, inode, position, n)
  }

  lemma PassFrom(items: seq<Item>, inode: nat, contents: map<nat, seq<byte>>, position: nat,
                 before: seq<byte>, after: seq<byte>, at: nat, part: seq<byte>)
    requires part != [] && Overwritten(before, after, at, part) && FlatRange(items, inode, contents, position, part)
    requires NonePastLast(items, inode, position, |part|)
    ensures PassDone(items, inode, contents, position, before, after, at, |part|)
  {}

  /** One pass of the read: a hole or a part of one extent goes into the buffer. */
  method ReadPass(store: Store, root: nat, inode: nat, position: nat, out: array<byte>, at: nat, remaining: nat,
                  reader: Reader, ghost contents: map<nat, seq<byte>>)
    returns (n: Option<nat>)
    requires WellFormed(store, root) && Disjoint(Items(store, root), inode) && Faithful(reader, contents)
    requires 0 < remaining && at + remaining <= out.Length
    modifies out
    ensures n.Some? ==>
      && n.value <= remaining
      && PassDone(Items(store, root), inode, contents, position, old(out[..]), out[..], at, n.value)
    ensures var items, end := Items(store, root), position + remaining;
      if n.Some? then Answers(items, inode, reader, position, end)
        <==> Answers(items, inode, reader, position + n.value, end)
      else PastLast(items, inode, position) || !Answers(items, inode, reader, position, end)
  {
    hide Ranged, Shaped, Disjoint, FlatRange, NonePastLast, PastLast, ExtentLength, IsExtent, Overwritten, PassDone,
         Answers, Items;
    ghost var items, end := Items(store, root), position + remaining;
    var start := FindExtent(store, root, inode, position, false);
    if start.None? {
      var next := FindExtent(store, root, inode, position, true);
      var hole := remaining;
      if next.Some? && next.value - position < hole {
        hole := next.value - position;
      }
      HoleRange(items, inode, contents, position, start, next, hole);
      HolePass(items, inode, reader, position, hole, end, start, next);
      Fill(out, at, ZeroBytes(hole));
      PassFrom(items, inode, contents, position, old(out[..]), out[..], at, ZeroBytes(hole));
      return Some(hole);
    }
    var length := ReadLength(store, root, inode, start.value);
    if length.None? {
      Unanswered(items, inode, reader, position, end, start.value);
      return None;
    }
    var relative := position - start.value;
    if relative >= length.value {
      var next := FindExtent(store, root, inode, position, true);
      if next.None? {
        HoleByte(items, inode, contents, position, start, next, position);
        return None;
      }
      var hole := next.value - position;
      if hole > remaining {
        hole := remaining;
      }
      HoleRange(items, inode, contents, position, start, next, hole);
      HolePass(items, inode, reader, position, hole, end, start, next);
      Fill(out, at, ZeroBytes(hole));
      PassFrom(items, inode, contents, position, old(out[..]), out[..], at, ZeroBytes(hole));
      return Some(hole);
    }
    var chunk := length.value - relative;
    if chunk > remaining {
      chunk := remaining;
    }
    assert ReadPart(items, inode, start.value, position, chunk);
    var data := reader(start.value, position, chunk);
    if data.None? {
      Unanswered(items, inode, reader, position, end, start.value);
      return None;
    }
    ChunkPass(items, inode, reader, position, chunk, end, start.value);
    CoveredRange(items, inode, contents, start.value, position, chunk);
    Fill(out, at, data.value);
    PassFrom(items, inode, contents, position, old(out[..]), out[..], at, data.value);
    return Some(chunk);
  }

  datatype Stat = Stat(size: nat, mode: nat)

  /** Size and mode from the inode item. */
  function InodeStat(items: seq<Item>, inode: nat): (r: Option<Stat>) {
    match ItemData(items, Key(inode, INODE_ITEM, 0), ITEM_CAPACITY)
    case None => None
    case Some(data) => if |data| < 160 then None else Some(Stat(Le(data, 16, 8), Le(data, 96, 4)))
  }

  /** The file-type bits say that this is a regular file. */
  predicate Regular(mode: nat) { mode / 4096 % 16 == 8 }

  method ReadStat(store: Store, root: nat, inode: nat) returns (r: Option<Stat>)
    requires WellFormed(store, root)
    ensures r == InodeStat(Items(store, root), inode)
  {
    hide Ranged, Shaped, Le, ItemData;
    var data := ReadItem(store, root, Key(inode, INODE_ITEM, 0), ITEM_CAPACITY);
    if data.None? || |data.value| < 160 {
      return None;
    }
    return Some(Stat(Le(data.value, 16, 8), Le(data.value, 96, 4)));
  }

  /** A request that the file can answer: a regular file and a start inside it. */
  predicate Requestable(items: seq<Item>, inode: nat, offset: nat, size: nat) {
    var stat := InodeStat(items, inode);
    size > 0 && stat.Some? && Regular(stat.value.mode) && offset <= stat.value.size && offset <= U64_MAX - size
  }

  lemma PassesAdd(items: seq<Item>, inode: nat, contents: map<nat, seq<byte>>, offset: nat,
                  start: seq<byte>, before: seq<byte>, after: seq<byte>, done: nat, n: nat)
    requires |start| == |before| && done <= |before|
    requires FlatRange(items, inode, contents, offset, before[..done]) && NonePastLast(items, inode, offset, done)
    requires before[done..] == start[done..]
    requires PassDone(items, inode, contents, offset + done, before, after, done, n)
    ensures 0 < n && |start| == |after| && done + n <= |after|
    ensures FlatRange(items, inode, contents, offset, after[..done + n]) && NonePastLast(items, inode, offset, done + n)
    ensures after[done + n..] == start[done + n..]
  {}

  /** What a read needs: a request that can be answered, no wanted byte past the end of the last extent of a
      file that has one, and an answer from the disk for every extent on the way. */
  ghost predicate Succeeds(items: seq<Item>, inode: nat, reader: Reader, offset: nat, size: nat) {
    && Requestable(items, inode, offset, size)
    && NonePastLast(items, inode, offset, size)
    && Answers(items, inode, reader, offset, offset + size)
  }

  /** A read that succeeds returns the file's bytes, and it succeeds exactly when it should. */
  method ReadFile(store: Store, root: nat, inode: nat, offset: nat, out: array<byte>, size: nat,
                  reader: Reader, ghost contents: map<nat, seq<byte>>)
    returns (ok: bool)
    requires WellFormed(store, root) && Disjoint(Items(store, root), inode) && Faithful(reader, contents)
    requires size <= out.Length
    requires Requestable(Items(store, root), inode, offset, size) ==>
      offset + size <= InodeStat(Items(store, root), inode).value.size
    modifies out
    ensures ok ==>
      FlatRange(Items(store, root), inode, contents, offset, out[..size]) && out[size..] == old(out[size..])
    ensures ok <==> Succeeds(Items(store, root), inode, reader, offset, size)
  {
    hide Ranged, Shaped, Disjoint, Faithful, FlatRange, PastLast, InodeStat, PassDone, Regular, Items, Answers;
    ghost var items, end := Items(store, root), offset + size;
    var stat := ReadStat(store, root, inode);
    if size == 0 || stat.None? || !Regular(stat.value.mode) || offset > stat.value.size || offset > U64_MAX - size {
      return false;
    }
    ghost var start := out[..];
    var done := 0;
    NothingDone(items, inode, contents, offset);
    while done < size
      invariant done <= size && out[..][done..] == start[done..]
      invariant FlatRange(items, inode, contents, offset, out[..][..done]) && NonePastLast(items, inode, offset, done)
      invariant Answers(items, inode, reader, offset, end) <==> Answers(items, inode, reader, offset + done, end)
    {
      ghost var before := out[..];
      var n := ReadPass(store, root, inode, offset + done, out, done, size - done, reader, contents);
      if n.None? {
        return false;
      }
      PassesAdd(items, inode, contents, offset, start, before, out[..], done, n.value);
      done := done + n.value;
    }
    NothingAsked(items, inode, reader, end);
    assert out[..][..size] == out[..size] && out[..][size..] == out[size..];
    return true;
  }

  lemma NothingAsked(items: seq<Item>, inode: nat, reader: Reader, end: nat)
    ensures Answers(items, inode, reader, end, end)
  {}

  lemma NothingDone(items: seq<Item>, inode: nat, contents: map<nat, seq<byte>>, offset: nat)
    ensures FlatRange(items, inode, contents, offset, []) && NonePastLast(items, inode, offset, 0)
  {}
}
