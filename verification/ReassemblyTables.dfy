/** The reassembly table in place: payload buffers, packed bitmaps and the search for an entry. */
module ReassemblyTables {
  import opened Bits
  import opened Options
  import opened Reassembly

  const BITMAP_SIZE := 8190

  // ------------------------------------------------------------ packed bits

  function Mask(k: nat): (m: bv8)
    requires k < 8
  {
    if k == 0 then 1 else if k == 1 then 2 else if k == 2 then 4 else if k == 3 then 8
    else if k == 4 then 16 else if k == 5 then 32 else if k == 6 then 64 else 128
  }

  function Or(a: bv8, b: bv8): (r: bv8) { a | b }

  predicate Meets(a: bv8, b: bv8) { a & b != 0 }

  predicate IsSet(bits: seq<bv8>, p: nat)
    requires |bits| == BITMAP_SIZE && p < MAX_PAYLOAD
  {
    Meets(bits[p / 8], Mask(p % 8))
  }

  function WithBit(bits: seq<bv8>, p: nat): (r: seq<bv8>)
    requires |bits| == BITMAP_SIZE && p < MAX_PAYLOAD
    ensures |r| == BITMAP_SIZE
  {
    bits[p / 8 := Or(bits[p / 8], Mask(p % 8))]
  }

  lemma WithBitSets(bits: seq<bv8>, p: nat, q: nat)
    requires |bits| == BITMAP_SIZE && p < MAX_PAYLOAD && q < MAX_PAYLOAD
    ensures IsSet(WithBit(bits, p), q) <==> q == p || IsSet(bits, q)
  {}

  /** The positions whose bit is set. */
  ghost function Positions(bits: seq<bv8>): (s: set<nat>)
    requires |bits| == BITMAP_SIZE
  {
    set p: nat | p < MAX_PAYLOAD && IsSet(bits, p)
  }

  ghost predicate AnyIn(s: set<nat>, from: nat, to: nat) {
    exists p: nat :: from <= p < to && p in s
  }

  /** Bits set one after another. */
  ghost predicate SetFrom(bits: seq<bv8>, bits': seq<bv8>, from: nat, to: nat)
    requires |bits| == BITMAP_SIZE == |bits'|
  {
    forall q: nat :: q < MAX_PAYLOAD ==> (IsSet(bits', q) <==> from <= q < to || IsSet(bits, q))
  }

  lemma SetFromNext(bits: seq<bv8>, bits': seq<bv8>, from: nat, to: nat)
    requires |bits| == BITMAP_SIZE == |bits'| && from <= to < MAX_PAYLOAD && SetFrom(bits, bits', from, to)
    ensures SetFrom(bits, WithBit(bits', to), from, to + 1)
  {
    hide IsSet, WithBit;
    forall q: nat | q < MAX_PAYLOAD
      ensures IsSet(WithBit(bits', to), q) <==> from <= q < to + 1 || IsSet(bits, q)
    {
      WithBitSets(bits', to, q);
    }
  }

  lemma SetFromPositions(bits: seq<bv8>, bits': seq<bv8>, f: Fragment)
    requires |bits| == BITMAP_SIZE == |bits'| && f.Proper() && SetFrom(bits, bits', f.offset, f.End())
    ensures Positions(bits') == Positions(bits) + f.Span()
  {}

  lemma NoPositions(bits: seq<bv8>)
    requires |bits| == BITMAP_SIZE && forall i :: 0 <= i < |bits| ==> bits[i] == 0
    ensures Positions(bits) == {}
  {}

  // ------------------------------------------------------------ one entry

  class ReassemblyEntry {
    var valid: bool
    var key: Key
    var first: bool
    var total: nat
    var received: nat
    var lastSeen: nat
    const payload: array<byte>
    const bitmap: array<bv8>

    ghost predicate Valid() {
      payload.Length == MAX_PAYLOAD && bitmap.Length == BITMAP_SIZE
    }

    constructor ()
      ensures Valid() && !valid && fresh(payload) && fresh(bitmap)
    {
      valid, key, first, total, received, lastSeen := false, Key(0, [], [], 0), false, 0, 0, 0;
      payload := new byte[MAX_PAYLOAD](_ => 0);
      bitmap := new bv8[BITMAP_SIZE](_ => 0);
    }

    ghost function View(): (e: Entry)
      requires Valid()
      reads this, payload, bitmap
    {
      Entry(valid, key, first, total, received, lastSeen, payload[..], Positions(bitmap[..]))
    }

    method Clear()
      requires Valid()
      modifies this
      ensures View() == Cleared(old(View()))
    {
      valid, first, total, received := false, false, 0, 0;
    }

    /** A free entry is taken over: its bitmap is wiped. */
    method Take(k: Key)
      requires Valid()
      modifies this, bitmap
      ensures View() == Taken(old(View()), k)
    {
      hide Positions;
      if !valid {
        valid, key, total, received, first := true, k, 0, 0, false;
        var i := 0;
        while i < BITMAP_SIZE
          invariant 0 <= i <= BITMAP_SIZE
          invariant valid && key == k && total == 0 && received == 0 && !first && lastSeen == old(lastSeen)
          invariant payload[..] == old(payload[..])
          invariant forall j :: 0 <= j < i ==> bitmap[j] == 0
        {
          bitmap[i] := 0;
          i := i + 1;
        }
        NoPositions(bitmap[..]);
      }
    }

    /** Some byte of a range has come already. */
    method AnySet(from: nat, to: nat) returns (any: bool)
      requires Valid() && from <= to <= MAX_PAYLOAD
      ensures any <==> AnyIn(Positions(bitmap[..]), from, to)
    {
      hide IsSet;
      var i := from;
      while i < to
        invariant from <= i <= to
        invariant forall p: nat :: from <= p < i ==> p !in Positions(bitmap[..])
      {
        if SetAt(i) {
          assert i in Positions(bitmap[..]);
          return true;
        }
        i := i + 1;
      }
      return false;
    }

    predicate SetAt(p: nat)
      requires Valid() && p < MAX_PAYLOAD
      reads this, bitmap
      ensures SetAt(p) == IsSet(bitmap[..], p)
    {
      Meets(bitmap[p / 8], Mask(p % 8))
    }

    /** Bytes and their bits are stored. */
    method Store(f: Fragment)
      requires Valid() && f.Proper()
      modifies payload, bitmap
      ensures payload[..] == Overlaid(old(payload[..]), f)
      ensures Positions(bitmap[..]) == old(Positions(bitmap[..])) + f.Span()
    {
      hide IsSet, Interval, Positions, Overlaid;
      ghost var bytes, bits := payload[..], bitmap[..];
      var i := 0;
      while i < |f.payload|
        invariant 0 <= i <= |f.payload|
        invariant SetFrom(bits, bitmap[..], f.offset, f.offset + i)
        invariant forall q | 0 <= q < MAX_PAYLOAD ::
          payload[q] == if f.offset <= q < f.offset + i then f.payload[q - f.offset] else bytes[q]
      {
        var position := f.offset + i;
        SetFromNext(bits, bitmap[..], f.offset, position);
        payload[position] := f.payload[i];
        Raise(position);
        i := i + 1;
      }
      SetFromPositions(bits, bitmap[..], f);
    }

    method Raise(p: nat)
      requires Valid() && p < MAX_PAYLOAD
      modifies bitmap
      ensures bitmap[..] == WithBit(old(bitmap[..]), p)
    {
      bitmap[p / 8] := bitmap[p / 8] | Mask(p % 8);
    }

    /** A fragment goes into the entry. */
    method AddFragment(f: Fragment, now: nat, capacity: nat) returns (out: Option<seq<byte>>)
      requires Valid() && f.Proper() && Sound(View()) && valid
      modifies this, payload, bitmap
      ensures (View(), out) == Add(old(View()), f, now, capacity)
    {
      hide Interval, Positions, Overlaid, AnyIn, Sound;
      ghost var e := View();
      SoundTotal(e, f);
      var end := f.offset + |f.payload|;
      if (total != 0 && end > total) || (!f.more && total != 0 && total != end) {
        Clear();
        return None;
      }
      var overlap := AnySet(f.offset, end);
      assert Positions(bitmap[..]) == e.have;
      OverlapMeets(e, f, overlap);
      if !f.more {
        total := end;
      }
      if overlap {
        Clear();
        return None;
      }
      Store(f);
      received := received + |f.payload|;
      if f.offset == 0 {
        first := true;
      }
      lastSeen := now;
      assert View() == Merged(e, f, now);
      if !first || total == 0 || received != total || capacity < total {
        return None;
      }
      out := Some(payload[..total]);
      Clear();
    }
  }

  lemma SoundTotal(e: Entry, f: Fragment)
    requires Sound(e) && e.valid && f.Proper()
    ensures |e.payload| == MAX_PAYLOAD && e.total <= MAX_PAYLOAD && f.End() <= MAX_PAYLOAD
  {}

  lemma OverlapMeets(e: Entry, f: Fragment, overlap: bool)
    requires overlap <==> AnyIn(e.have, f.offset, f.End())
    ensures overlap <==> e.have * f.Span() != {}
  {}

  // ------------------------------------------------------------ the table

  class ReassemblyTable {
    const entries: seq<ReassemblyEntry>

    ghost predicate Valid() {
      && |entries| == SLOTS && (forall i :: 0 <= i < SLOTS ==> entries[i].Valid())
      && (forall i, j :: 0 <= i < j < SLOTS ==>
        entries[i] != entries[j] && entries[i].payload != entries[j].payload && entries[i].bitmap != entries[j].bitmap)
    }

    ghost function Headers(): (s: set<ReassemblyEntry>) {
      set e | e in entries
    }

    ghost function Payloads(): (s: set<array<byte>>) {
      set e | e in entries :: e.payload
    }

    ghost function Bitmaps(): (s: set<array<bv8>>) {
      set e | e in entries :: e.bitmap
    }

    ghost function View(): (t: Table)
      requires Valid()
      reads Headers(), Payloads(), Bitmaps()
      ensures forall i :: 0 <= i < SLOTS ==> t[i] == entries[i].View()
    {
      [entries[0].View(), entries[1].View(), entries[2].View(), entries[3].View()]
    }

    /** An empty table. */
    constructor ()
      ensures Valid() && AllSound(View()) && Unique(View()) && forall i :: 0 <= i < SLOTS ==> !View()[i].valid
    {
      var a := new ReassemblyEntry();
      var b := new ReassemblyEntry();
      var c := new ReassemblyEntry();
      var d := new ReassemblyEntry();
      entries := [a, b, c, d];
    }

    /** Entries not heard of for the timeout are cleared. */
    method Expire(now: nat, timeout: nat)
      requires Valid()
      modifies Headers()
      ensures View() == if timeout == 0 then old(View()) else Expired(old(View()), now, timeout)
    {
      hide Positions;
      if timeout == 0 {
        return;
      }
      ghost var t := View();
      var i := 0;
      while i < SLOTS
        invariant 0 <= i <= SLOTS
        invariant forall j :: 0 <= j < i ==> View()[j] == Expired(t, now, timeout)[j]
        invariant forall j :: i <= j < SLOTS ==> View()[j] == t[j]
      {
        ExpireOne(i, now, timeout);
        i := i + 1;
      }
    }

    method ExpireOne(i: nat, now: nat, timeout: nat)
      requires Valid() && i < SLOTS && timeout != 0
      modifies entries[i]
      ensures View() == if Stale(old(View()[i]), now, timeout) then old(View())[i := Cleared(old(View()[i]))]
        else old(View())
    {
      hide Positions;
      var entry := entries[i];
      if entry.valid && now >= entry.lastSeen && now - entry.lastSeen >= timeout {
        entry.Clear();
      }
    }

    /** The entry for a datagram: its own, else a free one, else the oldest. */
    method Choose(key: Key) returns (k: nat)
      requires Valid()
      ensures k == Select(View(), key)
    {
      hide Positions, Same;
      ghost var t := View();
      var selected, oldest, i := SLOTS, 0, 0;
      while i < SLOTS
        invariant 0 <= i <= SLOTS && oldest < SLOTS
        invariant FirstSame(t, key, i) == SLOTS && selected == LastFree(t, i)
        invariant selected == SLOTS && i > 0 ==> oldest == Oldest(t, i)
        invariant i == 0 ==> oldest == 0
      {
        assert t[i] == entries[i].View();
        if entries[i].valid && entries[i].key == key {
          SelectSame(t, key, i);
          return i;
        }
        NotSame(t, key, i);
        if !entries[i].valid {
          selected := i;
        } else if selected == SLOTS && entries[i].lastSeen < entries[oldest].lastSeen {
          oldest := i;
        }
        i := i + 1;
      }
      if selected == SLOTS {
        selected := oldest;
      }
      return selected;
    }

    /** One entry takes a fragment in, for a datagram whose entry it becomes if it was free. */
    method AddTo(k: nat, p: Packet) returns (out: Option<seq<byte>>)
      requires Valid() && k < SLOTS && p.fragment.Proper() && AllSound(View())
      modifies entries[k], entries[k].payload, entries[k].bitmap
      ensures var r := Add(Taken(old(View())[k], p.key), p.fragment, p.now, p.capacity);
        View() == old(View())[k := r.0] && out == r.1
    {
      hide Positions, Add, Sound, Fragment.Proper;
      ghost var t := View();
      TakenSound(t[k], p.key);
      entries[k].Take(p.key);
      out := entries[k].AddFragment(p.fragment, p.now, p.capacity);
    }

    /** A fragment of a datagram arrives. */
    method AddPacket(p: Packet, timeout: nat) returns (out: Option<seq<byte>>)
      requires Valid() && AllSound(View())
      modifies Headers(), Payloads(), Bitmaps()
      ensures (View(), out) == Receive(old(View()), p, timeout)
    {
      hide Positions, Add, Taken, Select, Fragment.Proper, Sound;
      var f := p.fragment;
      if |f.payload| == 0 || f.offset >= MAX_PAYLOAD || |f.payload| > MAX_PAYLOAD - f.offset
        || (f.more && |f.payload| % 8 != 0) {
        NotProper(f);
        return None;
      }
      IsProper(f);
      ghost var t := View();
      ExpiredSound(t, p.now, timeout);
      ExpireNever(t, p.now);
      Expire(p.now, timeout);
      var k := Choose(p.key);
      out := AddTo(k, p);
    }
  }

  lemma NotProper(f: Fragment)
    requires |f.payload| == 0 || f.offset >= MAX_PAYLOAD || |f.payload| > MAX_PAYLOAD - f.offset
      || (f.more && |f.payload| % 8 != 0)
    ensures !f.Proper()
  {}

  lemma IsProper(f: Fragment)
    requires !(|f.payload| == 0 || f.offset >= MAX_PAYLOAD || |f.payload| > MAX_PAYLOAD - f.offset
               || (f.more && |f.payload| % 8 != 0))
    ensures f.Proper()
  {}

  lemma TakenSound(e: Entry, key: Key)
    requires Sound(e)
    ensures Sound(Taken(e, key)) && Taken(e, key).valid
  {}

  lemma ExpireNever(t: Table, now: nat)
    ensures Expired(t, now, 0) == t
  {}

  lemma {:induction false} FirstSameKept(t: Table, key: Key, i: nat, n: nat)
    requires i < n <= SLOTS && FirstSame(t, key, i) == SLOTS && Same(t[i], key)
    ensures FirstSame(t, key, n) == i
    decreases n
  {
    if n > i + 1 {
      FirstSameKept(t, key, i, n - 1);
    }
  }

  lemma SelectSame(t: Table, key: Key, i: nat)
    requires i < SLOTS && FirstSame(t, key, i) == SLOTS && t[i].valid && t[i].key == key
    ensures Select(t, key) == i
  {
    FirstSameKept(t, key, i, SLOTS);
  }

  lemma NotSame(t: Table, key: Key, i: nat)
    requires i < SLOTS && FirstSame(t, key, i) == SLOTS && !(t[i].valid && t[i].key == key)
    ensures FirstSame(t, key, i + 1) == SLOTS
  {}
}
