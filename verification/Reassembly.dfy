/** Putting IPv4 fragments back together (section 3.2 of RFC 791). */
module Reassembly {
  import opened Bits
  import opened Options

  const SLOTS := 4
  const MAX_PAYLOAD := 65515

  datatype Key = Key(identification: nat, source: seq<byte>, destination: seq<byte>, protocol: nat)

  function Interval(from: nat, n: nat): (s: set<nat>)
    ensures forall i: nat :: i in s <==> from <= i < from + n
    ensures |s| == n
  {
    if n == 0 then {} else Interval(from, n - 1) + {from + n - 1}
  }

  datatype Fragment = Fragment(offset: nat, more: bool, payload: seq<byte>) {
    function End(): (e: nat) { offset + |payload| }
    function Span(): (s: set<nat>) { Interval(offset, |payload|) }
    /** What is looked at before the table: a fragment that fits, in units of eight bytes unless it is the last. */
    predicate Proper() {
      && |payload| > 0 && offset < MAX_PAYLOAD && |payload| <= MAX_PAYLOAD - offset
      && (more ==> |payload| % 8 == 0)
    }
  }

  // ------------------------------------------------------------ one entry

  /** An entry; `have` are the positions whose bit is set. */
  datatype Entry = Entry(valid: bool, key: Key, first: bool, total: nat, received: nat, lastSeen: nat,
                         payload: seq<byte>, have: set<nat>)

  function Cleared(e: Entry): (e': Entry) {
    e.(valid := false, first := false, total := 0, received := 0)
  }

  /** A free entry is taken for a datagram; one in use is used as it stands. */
  function Taken(e: Entry, key: Key): (e': Entry) {
    if e.valid then e else e.(valid := true, key := key, first := false, total := 0, received := 0, have := {})
  }

  predicate Conflicts(e: Entry, f: Fragment) {
    || (e.total != 0 && f.End() > e.total)
    || (!f.more && e.total != 0 && e.total != f.End())
    || e.have * f.Span() != {}
  }

  function Overlaid(payload: seq<byte>, f: Fragment): (p: seq<byte>)
    requires |payload| == MAX_PAYLOAD && f.Proper()
    ensures |p| == MAX_PAYLOAD
    ensures forall i :: 0 <= i < MAX_PAYLOAD ==>
      p[i] == if f.offset <= i < f.End() then f.payload[i - f.offset] else payload[i]
  {
    payload[..f.offset] + f.payload + payload[f.End()..]
  }

  function Merged(e: Entry, f: Fragment, now: nat): (e': Entry)
    requires |e.payload| == MAX_PAYLOAD && f.Proper()
  {
    e.(total := if f.more then e.total else f.End(), payload := Overlaid(e.payload, f), have := e.have + f.Span(),
       received := e.received + |f.payload|, first := e.first || f.offset == 0, lastSeen := now)
  }

  predicate Whole(e: Entry) {
    e.first && e.total != 0 && e.received == e.total
  }

  /** An entry after a fragment, and the datagram if that completes it. */
  function Add(e: Entry, f: Fragment, now: nat, capacity: nat): (r: (Entry, Option<seq<byte>>))
    requires |e.payload| == MAX_PAYLOAD && f.Proper()
  {
    if Conflicts(e, f) then (Cleared(e), None)
    else
      var m := Merged(e, f, now);
      if Whole(m) && m.total <= capacity && m.total <= MAX_PAYLOAD then (Cleared(m), Some(m.payload[..m.total]))
        else (m, None)
  }

  /** The count of received bytes is the number of set bits. */
  predicate Sound(e: Entry) {
    && |e.payload| == MAX_PAYLOAD
    && (e.valid ==> e.received == |e.have| && e.total <= MAX_PAYLOAD && forall i :: i in e.have ==> i < MAX_PAYLOAD)
  }

  /** Whatever arrives, the count stays the number of set bits. */
  lemma AddSound(e: Entry, key: Key, f: Fragment, now: nat, capacity: nat)
    requires Sound(e) && f.Proper()
    ensures Sound(Add(Taken(e, key), f, now, capacity).0)
  {}

  /** A whole entry holds every byte of the datagram exactly when it holds none beyond it. */
  lemma WholeIsComplete(e: Entry)
    requires Sound(e) && e.valid && Whole(e)
    ensures (forall i: nat :: i < e.total ==> i in e.have) <==> (forall i :: i in e.have ==> i < e.total)
  {
    var range := Interval(0, e.total);
    if forall i: nat :: i < e.total ==> i in e.have {
      SameSize(range, e.have);
    }
    if forall i :: i in e.have ==> i < e.total {
      SameSize(e.have, range);
    }
  }

  lemma SameSize<T>(a: set<T>, b: set<T>)
    requires a <= b && |a| == |b|
    ensures a == b
  {
    assert |b - a| == |b| - |a|;
    assert b == a + (b - a);
  }

  lemma Smaller<T>(a: set<T>, b: set<T>)
    requires a < b
    ensures |a| < |b|
  {
    assert b == a + (b - a);
  }

  // ------------------------------------------------------------ the fragments of one datagram

  /** Fragments, in the order they arrive, that cut a datagram up. */
  ghost predicate Partition(fragments: seq<Fragment>, datagram: seq<byte>) {
    && 0 < |datagram| <= MAX_PAYLOAD
    && (forall i :: 0 <= i < |fragments| ==> PartOf(fragments[i], datagram))
    && (forall i, j :: 0 <= i < j < |fragments| ==> fragments[i].Span() !! fragments[j].Span())
    && (forall p: nat :: p < |datagram| ==> Brought(fragments, |fragments|, p))
  }

  /** One of the first `n` fragments brings a position. */
  predicate Brought(fragments: seq<Fragment>, n: nat, p: nat)
    requires n <= |fragments|
  {
    exists i :: 0 <= i < n && p in fragments[i].Span()
  }

  predicate PartOf(f: Fragment, datagram: seq<byte>) {
    && f.Proper() && f.End() <= |datagram| && f.payload == datagram[f.offset..f.End()]
    && f.more == (f.End() < |datagram|)
  }

  /** The positions that the first `n` fragments bring. */
  function Spans(fragments: seq<Fragment>, n: nat): (s: set<nat>)
    requires n <= |fragments|
  {
    if n == 0 then {} else Spans(fragments, n - 1) + fragments[n - 1].Span()
  }

  lemma {:induction false} InSpans(fragments: seq<Fragment>, n: nat, p: nat)
    requires n <= |fragments|
    ensures p in Spans(fragments, n) <==> Brought(fragments, n, p)
  {
    hide Interval, Fragment.Span;
    if n > 0 {
      InSpans(fragments, n - 1, p);
    }
  }

  predicate HasLast(fragments: seq<Fragment>, n: nat)
    requires n <= |fragments|
  {
    n > 0 && (!fragments[n - 1].more || HasLast(fragments, n - 1))
  }

  predicate HasFirst(fragments: seq<Fragment>, n: nat)
    requires n <= |fragments|
  {
    n > 0 && (fragments[n - 1].offset == 0 || HasFirst(fragments, n - 1))
  }

  lemma {:induction false} Includes(fragments: seq<Fragment>, n: nat, i: nat)
    requires i < n <= |fragments|
    ensures !fragments[i].more ==> HasLast(fragments, n)
    ensures fragments[i].offset == 0 ==> HasFirst(fragments, n)
    decreases n
  {
    if i < n - 1 {
      Includes(fragments, n - 1, i);
    }
  }

  /** An entry that has taken in the first `n` fragments of a datagram. */
  ghost predicate Holds(e: Entry, fragments: seq<Fragment>, n: nat, datagram: seq<byte>)
    requires n <= |fragments|
  {
    && Sound(e) && e.valid && e.have == Spans(fragments, n)
    && e.total == (if HasLast(fragments, n) then |datagram| else 0)
    && e.first == HasFirst(fragments, n)
    && forall p :: p in e.have ==> p < |datagram| && e.payload[p] == datagram[p]
  }

  lemma PartAt(fragments: seq<Fragment>, datagram: seq<byte>, n: nat)
    requires Partition(fragments, datagram) && n < |fragments|
    ensures PartOf(fragments[n], datagram) && fragments[n].Proper() && |datagram| <= MAX_PAYLOAD
  {}

  /** The next fragment does not clash with those before it. */
  lemma NoConflict(e: Entry, fragments: seq<Fragment>, n: nat, datagram: seq<byte>)
    requires Partition(fragments, datagram) && n < |fragments| && Holds(e, fragments, n, datagram)
    ensures !Conflicts(e, fragments[n])
  {
    hide Interval, Spans;
    var f := fragments[n];
    assert PartOf(f, datagram);
    forall p: nat | p in e.have
      ensures p !in f.Span()
    {
      InSpans(fragments, n, p);
      var i :| 0 <= i < n && p in fragments[i].Span();
      assert fragments[i].Span() !! fragments[n].Span();
    }
  }

  lemma {:induction false} SpansInside(fragments: seq<Fragment>, n: nat, datagram: seq<byte>)
    requires Partition(fragments, datagram) && n <= |fragments|
    ensures Spans(fragments, n) <= Interval(0, |datagram|)
  {
    hide Interval;
    if n > 0 {
      SpansInside(fragments, n - 1, datagram);
      assert PartOf(fragments[n - 1], datagram);
    }
  }

  /** Merging keeps what an entry holds. */
  lemma MergeHolds(e: Entry, fragments: seq<Fragment>, n: nat, datagram: seq<byte>, now: nat)
    requires Partition(fragments, datagram) && n < |fragments| && Holds(e, fragments, n, datagram)
    ensures PartOf(fragments[n], datagram) && Holds(Merged(e, fragments[n], now), fragments, n + 1, datagram)
  {
    hide Interval, Overlaid, Partition, Sound, Fragment.Proper;
    var f := fragments[n];
    PartAt(fragments, datagram, n);
    NoConflict(e, fragments, n, datagram);
    MergeBytes(e, f, datagram, now);
    MergeSound(e, f, now);
  }

  lemma MergeBytes(e: Entry, f: Fragment, datagram: seq<byte>, now: nat)
    requires Sound(e) && PartOf(f, datagram)
    requires forall p :: p in e.have ==> p < |datagram| <= MAX_PAYLOAD && e.payload[p] == datagram[p]
    requires |datagram| <= MAX_PAYLOAD
    ensures var m := Merged(e, f, now); forall p :: p in m.have ==> p < |datagram| && m.payload[p] == datagram[p]
  {}

  lemma MergeSound(e: Entry, f: Fragment, now: nat)
    requires Sound(e) && f.Proper() && !Conflicts(e, f)
    ensures Sound(Merged(e, f, now))
  {}

  /** An entry is whole exactly when it holds the last fragment to arrive. */
  lemma WholeAtEnd(e: Entry, fragments: seq<Fragment>, n: nat, datagram: seq<byte>)
    requires Partition(fragments, datagram) && n <= |fragments| && Holds(e, fragments, n, datagram)
    ensures Whole(e) <==> n == |fragments|
    ensures Whole(e) ==> e.total == |datagram| && e.payload[..|datagram|] == datagram
  {
    hide Interval, Conflicts;
    var all := Interval(0, |datagram|);
    SpansInside(fragments, n, datagram);
    if n < |fragments| {
      var f := fragments[n];
      assert PartOf(f, datagram);
      NoConflictSpan(fragments, n, f.offset);
      assert f.offset in all && f.offset !in e.have;
      Smaller(e.have, all);
    } else {
      EndReached(fragments, datagram);
      forall p: nat | p < |datagram|
        ensures p in e.have
      {
        InSpans(fragments, n, p);
      }
      assert e.have == all;
      assert forall p :: 0 <= p < |datagram| ==> e.payload[p] == datagram[p];
    }
  }

  lemma NoConflictSpan(fragments: seq<Fragment>, n: nat, p: nat)
    requires n < |fragments| && p in fragments[n].Span()
    requires forall i, j :: 0 <= i < j < |fragments| ==> fragments[i].Span() !! fragments[j].Span()
    ensures p !in Spans(fragments, n)
  {
    InSpans(fragments, n, p);
  }

  /** Among all fragments are a first and a last. */
  lemma EndReached(fragments: seq<Fragment>, datagram: seq<byte>)
    requires Partition(fragments, datagram)
    ensures HasLast(fragments, |fragments|) && HasFirst(fragments, |fragments|)
  {
    assert Brought(fragments, |fragments|, |datagram| - 1);
    var i :| 0 <= i < |fragments| && |datagram| - 1 in fragments[i].Span();
    assert PartOf(fragments[i], datagram);
    Includes(fragments, |fragments|, i);
    assert Brought(fragments, |fragments|, 0);
    var j :| 0 <= j < |fragments| && 0 in fragments[j].Span();
    Includes(fragments, |fragments|, j);
  }

  /** The next fragment of a datagram: it is kept, or completes the datagram if it is the last to arrive. */
  lemma AddNext(e: Entry, fragments: seq<Fragment>, n: nat, datagram: seq<byte>, now: nat, capacity: nat)
    requires Partition(fragments, datagram) && n < |fragments| && Holds(e, fragments, n, datagram)
    requires capacity >= |datagram|
    ensures fragments[n].Proper() && |e.payload| == MAX_PAYLOAD
    ensures var r := Add(e, fragments[n], now, capacity);
      if n + 1 == |fragments| then r.1 == Some(datagram) && !r.0.valid
      else r.1 == None && r.0.valid && Holds(r.0, fragments, n + 1, datagram) && r.0.key == e.key
  {
    hide Interval, Partition, Overlaid, Conflicts, Spans, HasFirst, HasLast, Whole;
    PartAt(fragments, datagram, n);
    NoConflict(e, fragments, n, datagram);
    MergeHolds(e, fragments, n, datagram, now);
    WholeAtEnd(Merged(e, fragments[n], now), fragments, n + 1, datagram);
  }

  // ------------------------------------------------------------ the table

  const NO_ENTRY := Entry(false, Key(0, [], [], 0), false, 0, 0, 0, [], {})

  type Table = t: seq<Entry> | |t| == SLOTS witness seq(SLOTS, _ => NO_ENTRY)

  datatype Packet = Packet(key: Key, fragment: Fragment, now: nat, capacity: nat)

  predicate Stale(e: Entry, now: nat, timeout: nat) {
    e.valid && timeout != 0 && now >= e.lastSeen && now - e.lastSeen >= timeout
  }

  function Expired(t: Table, now: nat, timeout: nat): (t': Table)
    ensures forall i :: 0 <= i < SLOTS ==> t'[i] == if Stale(t[i], now, timeout) then Cleared(t[i]) else t[i]
  {
    seq(SLOTS, i requires 0 <= i < SLOTS => if Stale(t[i], now, timeout) then Cleared(t[i]) else t[i])
  }

  predicate Same(e: Entry, key: Key) {
    e.valid && e.key == key
  }

  /** The first entry of a datagram among the first `n`, or `SLOTS`. */
  function FirstSame(t: Table, key: Key, n: nat): (k: nat)
    requires n <= SLOTS
    ensures k == SLOTS <==> forall i :: 0 <= i < n ==> !Same(t[i], key)
    ensures k != SLOTS ==> k < n && Same(t[k], key)
  {
    if n == 0 then SLOTS
    else
      var k := FirstSame(t, key, n - 1);
      if k != SLOTS then k else if Same(t[n - 1], key) then n - 1 else SLOTS
  }

  /** The last free entry among the first `n`, or `SLOTS`. */
  function LastFree(t: Table, n: nat): (k: nat)
    requires n <= SLOTS
    ensures k == SLOTS <==> forall i :: 0 <= i < n ==> t[i].valid
    ensures k != SLOTS ==> k < n && !t[k].valid
  {
    if n == 0 then SLOTS else if !t[n - 1].valid then n - 1 else LastFree(t, n - 1)
  }

  /** The entry used least recently among the first `n`. */
  function Oldest(t: Table, n: nat): (k: nat)
    requires 0 < n <= SLOTS
    ensures k < n && forall i :: 0 <= i < n ==> t[k].lastSeen <= t[i].lastSeen
  {
    if n == 1 then 0
    else
      var k := Oldest(t, n - 1);
      if t[n - 1].lastSeen < t[k].lastSeen then n - 1 else k
  }

  function Select(t: Table, key: Key): (k: nat)
    ensures k < SLOTS
  {
    var same, free := FirstSame(t, key, SLOTS), LastFree(t, SLOTS);
    if same != SLOTS then same else if free != SLOTS then free else Oldest(t, SLOTS)
  }

  predicate AllSound(t: Table) {
    forall i :: 0 <= i < SLOTS ==> Sound(t[i])
  }

  lemma ExpiredSound(t: Table, now: nat, timeout: nat)
    requires AllSound(t)
    ensures AllSound(Expired(t, now, timeout))
  {}

  /** The table after a packet, and the datagram if it completes one. */
  function Receive(t: Table, p: Packet, timeout: nat): (r: (Table, Option<seq<byte>>))
    requires AllSound(t)
    ensures AllSound(r.0)
  {
    if !p.fragment.Proper() then (t, None)
    else
      ExpiredSound(t, p.now, timeout);
      var t1 := Expired(t, p.now, timeout);
      var k := Select(t1, p.key);
      AddSound(t1[k], p.key, p.fragment, p.now, p.capacity);
      var r := Add(Taken(t1[k], p.key), p.fragment, p.now, p.capacity);
      (t1[k := r.0], r.1)
  }

  /** At most one entry per datagram. */
  predicate Unique(t: Table) {
    forall i, j :: 0 <= i < j < SLOTS && t[i].valid && t[j].valid ==> t[i].key != t[j].key
  }

  /** An entry keeps its datagram or becomes free. */
  lemma AddKey(e: Entry, key: Key, f: Fragment, now: nat, capacity: nat)
    requires Sound(e) && f.Proper()
    ensures var e' := Add(Taken(e, key), f, now, capacity).0;
      e'.valid ==> e'.key == (if e.valid then e.key else key)
  {}

  lemma UniqueKept(t: Table, p: Packet, timeout: nat)
    requires AllSound(t) && Unique(t)
    ensures Unique(Receive(t, p, timeout).0)
  {
    hide Add, Interval, AllSound;
    if p.fragment.Proper() {
      ExpiredSound(t, p.now, timeout);
      var t1 := Expired(t, p.now, timeout);
      var k := Select(t1, p.key);
      SoundAt(t1, k);
      AddKey(t1[k], p.key, p.fragment, p.now, p.capacity);
    }
  }

  lemma SoundAt(t: Table, k: nat)
    requires AllSound(t) && k < SLOTS
    ensures Sound(t[k])
  {}

  // ------------------------------------------------------------ runs

  /** A packet that does not find the entry of `key` timed out, finds one for itself if it is of `key`, and is not
      put into that of `key` if it is not. One that is refused before the table is looked at is always calm. */
  predicate Calm(t: Table, p: Packet, timeout: nat, key: Key) {
    p.fragment.Proper() ==>
      && (forall i :: 0 <= i < SLOTS && Same(t[i], key) ==> !Stale(t[i], p.now, timeout))
      && var t1 := Expired(t, p.now, timeout);
         if p.key == key then exists i :: 0 <= i < SLOTS && (Same(t1[i], key) || !t1[i].valid)
         else !Same(t1[Select(t1, p.key)], key)
  }

  /** The table has taken in the first `n` fragments of the datagram `key`. */
  ghost predicate Tracks(t: Table, key: Key, fragments: seq<Fragment>, n: nat, datagram: seq<byte>)
    requires n <= |fragments|
  {
    && AllSound(t) && Unique(t)
    && if n == 0 || n == |fragments| then forall i :: 0 <= i < SLOTS ==> !Same(t[i], key)
       else exists i :: 0 <= i < SLOTS && Same(t[i], key) && Holds(t[i], fragments, n, datagram)
  }

  /** The entry that the next fragment of a datagram goes to. */
  lemma OwnEntry(t: Table, p: Packet, timeout: nat, fragments: seq<Fragment>, n: nat, datagram: seq<byte>)
    requires n < |fragments| && Tracks(t, p.key, fragments, n, datagram) && Calm(t, p, timeout, p.key)
    requires p.fragment.Proper()
    ensures var t1 := Expired(t, p.now, timeout); var k := Select(t1, p.key);
      && Holds(Taken(t1[k], p.key), fragments, n, datagram) && Taken(t1[k], p.key).key == p.key
      && forall i :: 0 <= i < SLOTS && i != k ==> !Same(t1[i], p.key)
  {
    hide Interval, FirstSame, LastFree, Oldest;
    var t1 := Expired(t, p.now, timeout);
    var k := Select(t1, p.key);
    if n == 0 {
      assert LastFree(t1, SLOTS) != SLOTS;
      assert !t1[k].valid && Sound(t1[k]);
    } else {
      var i :| 0 <= i < SLOTS && Same(t[i], p.key) && Holds(t[i], fragments, n, datagram);
      assert t1[i] == t[i];
      assert Same(t1[k], p.key) && k == i;
    }
  }

  /** A fragment of the datagram: nothing comes out before the last one, and then the datagram does. */
  lemma OwnStep(t: Table, p: Packet, timeout: nat, fragments: seq<Fragment>, n: nat, datagram: seq<byte>)
    requires Partition(fragments, datagram) && n < |fragments| && p.fragment == fragments[n] && p.capacity >= |datagram|
    requires Tracks(t, p.key, fragments, n, datagram) && Calm(t, p, timeout, p.key)
    ensures Tracks(Receive(t, p, timeout).0, p.key, fragments, n + 1, datagram)
    ensures Receive(t, p, timeout).1 == if n + 1 == |fragments| then Some(datagram) else None
  {
    hide Interval, Select, Partition, Calm, Add, Holds, Sound, Unique, Fragment.Proper;
    PartAt(fragments, datagram, n);
    OwnEntry(t, p, timeout, fragments, n, datagram);
    UniqueKept(t, p, timeout);
    var t1 := Expired(t, p.now, timeout);
    var k := Select(t1, p.key);
    AddNext(Taken(t1[k], p.key), fragments, n, datagram, p.now, p.capacity);
    var t' := Receive(t, p, timeout).0;
    if n + 1 < |fragments| {
      assert Same(t'[k], p.key) && Holds(t'[k], fragments, n + 1, datagram);
    }
  }

  /** A fragment of another datagram leaves this one alone. */
  lemma OtherStep(t: Table, p: Packet, timeout: nat, key: Key, fragments: seq<Fragment>, n: nat, datagram: seq<byte>)
    requires n <= |fragments| && p.key != key && Tracks(t, key, fragments, n, datagram) && Calm(t, p, timeout, key)
    ensures Tracks(Receive(t, p, timeout).0, key, fragments, n, datagram)
  {
    hide Interval, Add, Holds, Unique, FirstSame, LastFree, Oldest, Sound, Fragment.Proper;
    UniqueKept(t, p, timeout);
    if p.fragment.Proper() {
      ExpiredSound(t, p.now, timeout);
      var t1 := Expired(t, p.now, timeout);
      var k := Select(t1, p.key);
      AddKey(t1[k], p.key, p.fragment, p.now, p.capacity);
      var t' := Receive(t, p, timeout).0;
      assert forall i :: 0 <= i < SLOTS && Same(t'[i], key) ==> i != k && Same(t[i], key);
      if n != 0 && n != |fragments| {
        var i :| 0 <= i < SLOTS && Same(t[i], key) && Holds(t[i], fragments, n, datagram);
        assert t'[i] == t[i];
      }
    }
  }

  /** A fragment that is a datagram by itself and comes out at once. */
  predicate AtOnce(p: Packet) {
    p.fragment.offset == 0 && !p.fragment.more && p.fragment.End() <= p.capacity
  }

  /** A packet is put into an entry of another datagram exactly when there is no entry of its own and none is free. */
  lemma ForeignIffCrowded(t: Table, p: Packet, timeout: nat)
    requires p.fragment.Proper()
    ensures var t1 := Expired(t, p.now, timeout); var e := t1[Select(t1, p.key)];
      e.valid && e.key != p.key <==> forall i :: 0 <= i < SLOTS ==> t1[i].valid && t1[i].key != p.key
  {
    hide FirstSame, LastFree, Oldest, Stale;
  }

  /** The first fragment of a datagram to arrive is kept in an entry of its own exactly when one is free and the
      fragment is not the whole datagram. */
  lemma KeptIffFree(t: Table, p: Packet, timeout: nat)
    requires AllSound(t) && p.fragment.Proper() && forall i :: 0 <= i < SLOTS ==> !Same(t[i], p.key)
    ensures (exists i :: 0 <= i < SLOTS && Same(Receive(t, p, timeout).0[i], p.key))
      <==> !AtOnce(p) && exists i :: 0 <= i < SLOTS && !Expired(t, p.now, timeout)[i].valid
  {
    hide Interval, FirstSame, LastFree, Oldest, Add, AllSound, Sound;
    var t1, t' := Expired(t, p.now, timeout), Receive(t, p, timeout).0;
    ExpiredSound(t, p.now, timeout);
    var k := Select(t1, p.key);
    SoundAt(t1, k);
    AddKey(t1[k], p.key, p.fragment, p.now, p.capacity);
    if !t1[k].valid {
      AddFirst(t1[k], p.key, p.fragment, p.now, p.capacity);
      assert !AtOnce(p) ==> Same(t'[k], p.key);
    }
  }

  /** A fresh entry keeps a fragment that is not a whole datagram. */
  lemma AddFirst(e: Entry, key: Key, f: Fragment, now: nat, capacity: nat)
    requires Sound(e) && !e.valid && f.Proper()
    ensures Same(Add(Taken(e, key), f, now, capacity).0, key) <==> !(f.offset == 0 && !f.more && f.End() <= capacity)
  {}

  /** What each packet of a run brings out. */
  function Outputs(t: Table, packets: seq<Packet>, timeout: nat): (out: seq<Option<seq<byte>>>)
    requires AllSound(t)
    ensures |out| == |packets|
    decreases |packets|
  {
    if packets == [] then []
    else
      var r := Receive(t, packets[0], timeout);
      [r.1] + Outputs(r.0, packets[1..], timeout)
  }

  predicate CalmRun(t: Table, packets: seq<Packet>, timeout: nat, key: Key)
    requires AllSound(t)
    decreases |packets|
  {
    packets == [] || (Calm(t, packets[0], timeout, key)
                      && CalmRun(Receive(t, packets[0], timeout).0, packets[1..], timeout, key))
  }

  /** The fragments of one datagram, in the order they arrive among the others. */
  function FragmentsOf(packets: seq<Packet>, key: Key): (f: seq<Fragment>) {
    if packets == [] then []
    else if packets[0].key == key then [packets[0].fragment] + FragmentsOf(packets[1..], key)
    else FragmentsOf(packets[1..], key)
  }

  predicate Spacious(packets: seq<Packet>, key: Key, size: nat) {
    forall j :: 0 <= j < |packets| && packets[j].key == key ==> packets[j].capacity >= size
  }

  /** The datagram comes out with its last fragment to arrive, and nothing comes out before. */
  predicate Delivered(out: seq<Option<seq<byte>>>, packets: seq<Packet>, key: Key, datagram: seq<byte>)
    requires |out| == |packets|
  {
    forall j :: 0 <= j < |packets| && packets[j].key == key ==>
      out[j] == if FragmentsOf(packets[j + 1..], key) == [] then Some(datagram) else None
  }

  lemma {:induction false} DeliveredFrom(t: Table, packets: seq<Packet>, timeout: nat, key: Key,
                                         fragments: seq<Fragment>, n: nat, datagram: seq<byte>)
    requires Partition(fragments, datagram) && n <= |fragments| && Tracks(t, key, fragments, n, datagram)
    requires FragmentsOf(packets, key) == fragments[n..]
    requires CalmRun(t, packets, timeout, key) && Spacious(packets, key, |datagram|)
    ensures Delivered(Outputs(t, packets, timeout), packets, key, datagram)
    decreases |packets|
  {
    hide Partition, Tracks, Calm, Receive;
    if packets != [] {
      var p, rest := packets[0], packets[1..];
      TracksSound(t, key, fragments, n, datagram);
      var r := Receive(t, p, timeout);
      if p.key == key {
        assert p.fragment == FragmentsOf(packets, key)[0] == fragments[n];
        assert FragmentsOf(rest, key) == FragmentsOf(packets, key)[1..] == fragments[n + 1..];
        OwnStep(t, p, timeout, fragments, n, datagram);
        DeliveredFrom(r.0, rest, timeout, key, fragments, n + 1, datagram);
      } else {
        OtherStep(t, p, timeout, key, fragments, n, datagram);
        DeliveredFrom(r.0, rest, timeout, key, fragments, n, datagram);
      }
      DeliveredNext(t, packets, timeout, key, datagram);
    }
  }

  lemma TracksSound(t: Table, key: Key, fragments: seq<Fragment>, n: nat, datagram: seq<byte>)
    requires n <= |fragments| && Tracks(t, key, fragments, n, datagram)
    ensures AllSound(t)
  {}

  lemma DeliveredNext(t: Table, packets: seq<Packet>, timeout: nat, key: Key, datagram: seq<byte>)
    requires AllSound(t) && packets != []
    requires var r := Receive(t, packets[0], timeout);
      && Delivered(Outputs(r.0, packets[1..], timeout), packets[1..], key, datagram)
      && (packets[0].key == key ==> r.1 == if FragmentsOf(packets[1..], key) == [] then Some(datagram) else None)
    ensures Delivered(Outputs(t, packets, timeout), packets, key, datagram)
  {}

  /** However a datagram is cut up, in whatever order its fragments arrive and whatever arrives between
      them, it comes out whole with the last of them and not before. */
  lemma Reassembles(t: Table, packets: seq<Packet>, timeout: nat, key: Key, datagram: seq<byte>)
    requires AllSound(t) && Unique(t) && forall i :: 0 <= i < SLOTS ==> !Same(t[i], key)
    requires Partition(FragmentsOf(packets, key), datagram)
    requires CalmRun(t, packets, timeout, key) && Spacious(packets, key, |datagram|)
    ensures Delivered(Outputs(t, packets, timeout), packets, key, datagram)
  {
    hide Partition, CalmRun, Delivered, Outputs;
    var fragments := FragmentsOf(packets, key);
    assert fragments[0..] == fragments;
    DeliveredFrom(t, packets, timeout, key, fragments, 0, datagram);
  }
}
