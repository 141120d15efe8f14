/** What the cache is for: a sector that was used is served without its device while few others are used. */
module CacheRetention {
  import opened Bits
  import opened Options
  import opened BlockCache

  /** The sector has an entry. */
  predicate Cached(c: Cache, k: Key) {
    c.Sized() && Find(c.entries, k, 0) < ENTRIES
  }

  lemma CachedAt(c: Cache, k: Key, n: nat)
    requires c.Sized() && n < ENTRIES && Matches(c.entries[n], k)
    ensures Cached(c, k)
  {}

  lemma StoredCached(c: Cache, k: Key, data: seq<byte>)
    requires c.Sized()
    ensures Cached(Stored(c, k, data), k)
  {
    hide Find, Choose;
    CachedAt(Stored(c, k, data), k, Place(c.entries, k));
  }

  /** After a read that succeeds, the same read succeeds with the same data though the device fails. */
  lemma SecondReadHits(c: Cache, disks: Disks, k: Key, size: nat, works: bool)
    requires Coherent(c, disks) && Read(c, disks, k, size, works).1.Some?
    ensures var r := Read(c, disks, k, size, works); Read(r.0, disks, k, size, false).1 == r.1 && Cached(r.0, k)
  {
    hide Stored, Find, Place, Agrees;
    ReadCoherent(c, disks, k, size, works);
    var r := Read(c, disks, k, size, works);
    var n := Find(c.entries, k, 0);
    if n < ENTRIES {
      CachedAt(r.0, k, n);
    } else {
      StoredCached(c, k, r.1.value);
    }
    HitsAsDevice(r.0, disks, k, size);
    FoundIs(c, disks, k, size, works);
  }

  /** A hit returns what the device holds. */
  lemma HitsAsDevice(c: Cache, disks: Disks, k: Key, size: nat)
    requires Coherent(c, disks) && Cached(c, k) && 0 < size <= SECTOR_MAX && Registered(disks, k)
    requires SectorSize(disks, k) == size
    ensures Requestable(disks, k) && Read(c, disks, k, size, false).1 == Some(Sector(disks, k))
  {
    hide Find;
    assert Agrees(c.entries[Find(c.entries, k, 0)], disks);
  }

  lemma FoundIs(c: Cache, disks: Disks, k: Key, size: nat, works: bool)
    requires Coherent(c, disks) && Read(c, disks, k, size, works).1.Some?
    ensures Requestable(disks, k) && Read(c, disks, k, size, works).1 == Some(Sector(disks, k))
  {
    hide Find;
    var n := Find(c.entries, k, 0);
    assert n < ENTRIES ==> Agrees(c.entries[n], disks);
  }

  /** After a write that succeeds, a read of the sector returns what was written though the device fails. */
  lemma ReadAfterWriteHits(c: Cache, disks: Disks, k: Key, data: seq<byte>, works: bool)
    requires Coherent(c, disks) && Write(c, disks, k, data, works).2
    ensures var r := Write(c, disks, k, data, works);
      Read(r.0, r.1, k, |data|, false).1 == Some(data) && Cached(r.0, k)
  {
    hide Stored, Find, Place, WithSector, Sector;
    CoherentValid(c, disks);
    WriteCoherent(c, disks, k, data, works);
    var r := Write(c, disks, k, data, works);
    StoredCached(c, k, data);
    WithSectorOnly(disks, k, data, k);
    SizeSame(disks, k, data);
    HitsAsDevice(r.0, r.1, k, |data|);
  }

  lemma SizeSame(disks: Disks, k: Key, data: seq<byte>)
    requires Requestable(disks, k)
    ensures Registered(WithSector(disks, k, data), k)
    ensures SectorSize(WithSector(disks, k, data), k) == SectorSize(disks, k)
  {}

  /** After a sector or its whole device is invalidated, a read of it asks the device. */
  lemma InvalidatedMisses(c: Cache, disks: Disks, k: Key, size: nat, works: bool)
    requires Coherent(c, disks)
    ensures !Cached(Invalidate(c, k), k) && !Cached(InvalidateDevice(c, k.registry, k.device), k)
    ensures var c' := Invalidate(c, k); Read(c', disks, k, size, works).1.Some? ==> works
    ensures var c' := InvalidateDevice(c, k.registry, k.device); Read(c', disks, k, size, works).1.Some? ==> works
  {
    hide Find, Agrees;
    OnlyInPlace(c.entries, k);
  }

  // ------------------------------------------------------------ staying in the cache

  /** The sectors of the first `m` entries, without that of entry `n`. */
  function Others(entries: seq<Entry>, m: nat, n: nat): (keys: set<Key>)
    requires m <= |entries|
  {
    if m == 0 then {} else Others(entries, m - 1, n) + (if m - 1 == n then {} else {entries[m - 1].key})
  }

  lemma {:induction false} OthersAre(entries: seq<Entry>, m: nat, n: nat, k: Key)
    requires m <= |entries|
    ensures k in Others(entries, m, n) <==> exists i :: 0 <= i < m && i != n && entries[i].key == k
  {
    if m > 0 {
      OthersAre(entries, m - 1, n, k);
    }
  }

  lemma {:induction false} OthersCount(entries: seq<Entry>, m: nat, n: nat)
    requires m <= |entries| && UniqueKeys(entries) && forall i :: 0 <= i < |entries| ==> entries[i].valid
    ensures |Others(entries, m, n)| == if n < m then m - 1 else m
  {
    if m > 0 {
      OthersCount(entries, m - 1, n);
      OthersAre(entries, m - 1, n, entries[m - 1].key);
    }
  }

  /** After position `start`, only `k` and the sectors of a set are used. */
  predicate Uses(uses: seq<Key>, start: nat, k: Key, few: set<Key>) {
    forall i :: start <= i < |uses| ==> uses[i] == k || uses[i] in few
  }

  /** In a full cache, an entry used after `k` was is of a sector of the set. */
  lemma YoungerIsFew(c: Cache, uses: seq<Key>, k: Key, n: nat, start: nat, few: set<Key>, i: nat)
    requires Aged(c, uses) && |uses| < CLOCK_LIMIT && UniqueKeys(c.entries) && Uses(uses, start, k, few)
    requires n < ENTRIES && Matches(c.entries[n], k) && Last(uses, k) > start
    requires i < ENTRIES && i != n && c.entries[i].valid && c.entries[n].age <= c.entries[i].age
    ensures c.entries[i].key in few
  {
    hide Last;
    assert LastUsed(c.entries[i], uses) && LastUsed(c.entries[n], uses);
    var at := Last(uses, c.entries[i].key);
    assert c.entries[i].key != k;
    assert uses[at - 1] == c.entries[i].key;
  }

  /** While fewer than sixteen other sectors are used, the entry of `k` is not the one given up. */
  lemma NotGivenUp(c: Cache, uses: seq<Key>, k: Key, n: nat, start: nat, few: set<Key>, j: Key)
    requires Aged(c, uses) && |uses| < CLOCK_LIMIT && UniqueKeys(c.entries) && Uses(uses, start, k, few)
    requires n < ENTRIES && Matches(c.entries[n], k) && Last(uses, k) > start
    requires |few| < ENTRIES && j in few && Find(c.entries, j, 0) == ENTRIES
    ensures Place(c.entries, j) != n
  {
    hide Last, Aged, Find, Choose;
    AgedSized(c, uses);
    if Place(c.entries, j) == n {
      assert forall i :: 0 <= i < ENTRIES ==> c.entries[i].valid;
      var keys := Others(c.entries, ENTRIES, n);
      forall x | x in keys
        ensures x in few && x != j
      {
        OthersAre(c.entries, ENTRIES, n, x);
        var i :| 0 <= i < ENTRIES && i != n && c.entries[i].key == x;
        YoungerIsFew(c, uses, k, n, start, few, i);
        assert !Matches(c.entries[i], j);
      }
      OthersCount(c.entries, ENTRIES, n);
      Subset(keys + {j}, few);
      assert false;
    }
  }

  lemma Subset(a: set<Key>, b: set<Key>)
    requires a <= b
    ensures |a| <= |b|
  {
    assert |b| == |a| + |b - a| by {
      assert b == a + (b - a);
    }
  }

  /** An operation that does not take the sector out of the cache. */
  predicate Spares(e: Event, k: Key) {
    match e
    case InvalidateEvent(j) => j != k
    case InvalidateDeviceEvent(registry, device) => registry != k.registry || device != k.device
    case BypassEvent(j, _, _) => j != k
    case _ => true
  }

  /** The sector is in the cache, and was used after `start`. */
  ghost predicate Held(w: World, k: Key, start: nat) {
    Coherent(w.cache, w.disks) && Aged(w.cache, w.uses) && Cached(w.cache, k) && Last(w.uses, k) > start
  }

  /** Storing another sector leaves `k` in the cache. */
  lemma StoreSpares(w: World, k: Key, start: nat, few: set<Key>, j: Key, data: seq<byte>)
    requires Held(w, k, start) && |w.uses| < CLOCK_LIMIT && Uses(w.uses, start, k, few)
    requires |few| < ENTRIES && (j == k || j in few)
    ensures Cached(Stored(w.cache, j, data), k)
  {
    hide Last, Aged, Find, Choose, Agrees;
    var n := Find(w.cache.entries, k, 0);
    if j == k {
      StoredCached(w.cache, k, data);
    } else {
      if Find(w.cache.entries, j, 0) == ENTRIES {
        NotGivenUp(w.cache, w.uses, k, n, start, few, j);
      }
      CachedAt(Stored(w.cache, j, data), k, n);
    }
  }

  lemma ReadSpares(w: World, k: Key, start: nat, few: set<Key>, j: Key, size: nat, works: bool)
    requires Held(w, k, start) && |w.uses| < CLOCK_LIMIT && Uses(w.uses, start, k, few)
    requires |few| < ENTRIES && (Read(w.cache, w.disks, j, size, works).1.Some? ==> j == k || j in few)
    ensures Cached(Read(w.cache, w.disks, j, size, works).0, k)
  {
    hide Last, Aged, Find, Choose, Agrees, Stored, Uses;
    var r := Read(w.cache, w.disks, j, size, works);
    if r.1.Some? && Find(w.cache.entries, j, 0) == ENTRIES {
      StoreSpares(w, k, start, few, j, r.1.value);
    } else {
      CachedAt(r.0, k, Find(w.cache.entries, k, 0));
    }
  }

  lemma InvalidateSpares(c: Cache, k: Key, e: Event)
    requires Cached(c, k) && Spares(e, k)
    ensures e.InvalidateEvent? || e.BypassEvent? ==> Cached(Invalidate(c, e.k), k)
    ensures e.InvalidateDeviceEvent? ==> Cached(InvalidateDevice(c, e.registry, e.device), k)
  {
    hide Find;
    var n := Find(c.entries, k, 0);
    if e.InvalidateEvent? || e.BypassEvent? {
      CachedAt(Invalidate(c, e.k), k, n);
    }
    if e.InvalidateDeviceEvent? {
      CachedAt(InvalidateDevice(c, e.registry, e.device), k, n);
    }
  }

  /** Every operation but taking the sector out leaves it in, if fewer than sixteen others have been used since. */
  lemma StepSpares(w: World, e: Event, k: Key, start: nat, few: set<Key>)
    requires Held(w, k, start) && Spares(e, k) && |few| < ENTRIES
    requires |Step(w, e).uses| < CLOCK_LIMIT && Uses(Step(w, e).uses, start, k, few)
    ensures Held(Step(w, e), k, start)
  {
    hide Last, Aged, Coherent, Cached, Read, Write, Invalidate, InvalidateDevice, Stored;
    HeldSized(w, k, start);
    StepCoherent(w, e);
    StepAged(w, e);
    UsesBefore(w.uses, Step(w, e).uses, start, k, few);
    InvalidateSpares(w.cache, k, e);
    match e
    case ReadEvent(j, size, works) =>
      ReadSpares(w, k, start, few, j, size, works);
      LastMore(w.uses, j, k);
    case WriteEvent(j, data, works) =>
      WriteStores(w.cache, w.disks, j, data, works);
      if Write(w.cache, w.disks, j, data, works).2 {
        StoreSpares(w, k, start, few, j, data);
      }
      LastMore(w.uses, j, k);
    case _ =>
  }

  lemma HeldSized(w: World, k: Key, start: nat)
    requires Held(w, k, start)
    ensures w.cache.Sized() && start < |w.uses|
  {}

  lemma WriteStores(c: Cache, disks: Disks, k: Key, data: seq<byte>, works: bool)
    requires c.Sized()
    ensures var r := Write(c, disks, k, data, works); r.0 == if r.2 then Stored(c, k, data) else c
  {}

  lemma UsesBefore(uses: seq<Key>, uses': seq<Key>, start: nat, k: Key, few: set<Key>)
    requires Uses(uses', start, k, few) && uses <= uses'
    ensures Uses(uses, start, k, few)
    ensures |uses'| > |uses| >= start ==> uses'[|uses|] == k || uses'[|uses|] in few
  {}

  lemma StepUses(w: World, e: Event)
    requires w.cache.Sized()
    ensures w.uses <= Step(w, e).uses
  {}

  lemma {:induction false} RunUses(w: World, events: seq<Event>)
    requires Coherent(w.cache, w.disks)
    ensures w.uses <= Run(w, events).uses
    decreases |events|
  {
    hide Step, Coherent;
    if events != [] {
      CoherentValid(w.cache, w.disks);
      StepCoherent(w, events[0]);
      StepUses(w, events[0]);
      RunUses(Step(w, events[0]), events[1..]);
    }
  }

  lemma {:induction false} RunSpares(w: World, events: seq<Event>, k: Key, start: nat, few: set<Key>)
    requires Held(w, k, start) && |few| < ENTRIES && forall i :: 0 <= i < |events| ==> Spares(events[i], k)
    requires |Run(w, events).uses| < CLOCK_LIMIT && Uses(Run(w, events).uses, start, k, few)
    ensures Held(Run(w, events), k, start)
    decreases |events|
  {
    hide Step, Coherent, Aged, Cached, Last, Spares, Uses;
    if events != [] {
      HeldSized(w, k, start);
      StepCoherent(w, events[0]);
      var w1 := Step(w, events[0]);
      RunUses(w1, events[1..]);
      UsesBefore(w1.uses, Run(w, events).uses, start, k, few);
      StepSpares(w, events[0], k, start, few);
      RunSpares(w1, events[1..], k, start, few);
    }
  }

  /** A sector just used is served from the cache, though its device fails, as long as fewer than sixteen others are
      used and nothing takes it out, however often each is used before the clock runs over. */
  lemma ServedWhileFew(w: World, events: seq<Event>, k: Key, few: set<Key>)
    requires Coherent(w.cache, w.disks) && Aged(w.cache, w.uses) && Cached(w.cache, k)
    requires w.uses != [] && w.uses[|w.uses| - 1] == k
    requires |few| < 16 && forall i :: 0 <= i < |events| ==> Spares(events[i], k)
    requires var uses := Run(w, events).uses;
      |uses| < 0x1_0000_0000_0000_0000 && forall i :: |w.uses| <= i < |uses| ==> uses[i] == k || uses[i] in few
    ensures var end := Run(w, events);
      && Requestable(end.disks, k)
      && (SectorSize(end.disks, k) <= 512 ==>
        Read(end.cache, end.disks, k, SectorSize(end.disks, k), false).1 == Some(Sector(end.disks, k)))
  {
    hide Run, Aged, Last, Find, Spares, Read, Sector, SectorSize;
    var start := |w.uses| - 1;
    LastIsLast(w.uses, k);
    RunUses(w, events);
    assert Run(w, events).uses[start] == k;
    RunSpares(w, events, k, start, few);
    var end := Run(w, events);
    assert Agrees(end.cache.entries[Find(end.cache.entries, k, 0)], end.disks);
    SizePositive(end.disks, k);
    if SectorSize(end.disks, k) <= SECTOR_MAX {
      HitsAsDevice(end.cache, end.disks, k, SectorSize(end.disks, k));
    }
  }

  lemma LastIsLast(uses: seq<Key>, k: Key)
    requires uses != [] && uses[|uses| - 1] == k
    ensures Last(uses, k) == |uses|
  {}

  lemma SizePositive(disks: Disks, k: Key)
    requires DisksValid(disks) && Requestable(disks, k)
    ensures SectorSize(disks, k) > 0
  {}
}
