/** The sector cache with its lock released during device transfers, so that operations overlap. */
module CacheRaces {
  import opened Bits
  import opened BlockCache

  /** An operation between its device transfer and its return to the cache. */
  datatype Pending = Fetched(key: Key, data: seq<byte>) | Sent(key: Key, data: seq<byte>)

  datatype World = World(cache: Cache, disks: Disks, pending: seq<Pending>)

  /** What one processor does without being interrupted: a transfer, the return to the cache after one, a hit,
      or an invalidation. */
  datatype Step =
    | Fetch(k: Key)
    | Send(k: Key, data: seq<byte>)
    | Finish(i: nat)
    | Hit(k: Key)
    | Drop(k: Key)
    | DropDevice(registry: nat, device: nat)

  function Removed(pending: seq<Pending>, i: nat): (p: seq<Pending>)
    requires i < |pending|
    ensures forall x :: x in p ==> x in pending
  {
    pending[..i] + pending[i + 1..]
  }

  /** A hit makes an entry young again. */
  function Touched(c: Cache, k: Key): (c': Cache)
    requires c.Sized()
  {
    var n := Find(c.entries, k, 0);
    if n < ENTRIES then c.(clock := Tick(c.clock), entries := c.entries[n := c.entries[n].(age := Tick(c.clock))])
      else c
  }

  /** A finished fetch keeps what the cache holds by then, and a finished write replaces it. */
  function Returned(c: Cache, p: Pending): (c': Cache)
    requires c.Sized()
    ensures c'.Sized()
  {
    if p.Fetched? && Find(c.entries, p.key, 0) < ENTRIES then Touched(c, p.key) else Stored(c, p.key, p.data)
  }

  function Next(w: World, s: Step): (w': World)
    requires w.cache.Sized()
    ensures w'.cache.Sized()
  {
    match s
    case Fetch(k) => if Requestable(w.disks, k) then w.(pending := w.pending + [Fetched(k, Sector(w.disks, k))]) else w
    case Send(k, data) =>
      if Requestable(w.disks, k) && |data| == SectorSize(w.disks, k)
      then w.(disks := WithSector(w.disks, k, data), pending := w.pending + [Sent(k, data)]) else w
    case Finish(i) =>
      if i < |w.pending| then w.(cache := Returned(w.cache, w.pending[i]), pending := Removed(w.pending, i)) else w
    case Hit(k) => w.(cache := Touched(w.cache, k))
    case Drop(k) => w.(cache := Invalidate(w.cache, k))
    case DropDevice(registry, device) => w.(cache := InvalidateDevice(w.cache, registry, device))
  }

  // ------------------------------------------------------------ writers kept apart

  predicate Writing(pending: seq<Pending>, k: Key) {
    exists i :: 0 <= i < |pending| && pending[i].Sent? && pending[i].key == k
  }

  predicate Busy(pending: seq<Pending>, k: Key) {
    exists i :: 0 <= i < |pending| && pending[i].key == k
  }

  /** A write that reaches the device starts only when nothing is under way for its sector, or when it writes what
      the sector holds already. */
  predicate Separate(w: World, s: Step) {
    s.Send? && Requestable(w.disks, s.k) && |s.data| == SectorSize(w.disks, s.k) ==>
      !Busy(w.pending, s.k) || s.data == Sector(w.disks, s.k)
  }

  /** What is under way carries what the device holds. */
  predicate Carries(p: Pending, disks: Disks) {
    Requestable(disks, p.key) && p.data == Sector(disks, p.key)
  }

  /** Every entry holds what the device holds, unless a write to its sector is on its way back. */
  predicate Consistent(w: World)
    requires w.cache.Sized()
  {
    forall i :: 0 <= i < ENTRIES && w.cache.entries[i].valid ==>
      Agrees(w.cache.entries[i], w.disks) || Writing(w.pending, w.cache.entries[i].key)
  }

  /** The invariant. */
  predicate Settled(w: World) {
    && w.cache.Sized() && DisksValid(w.disks)
    && (forall i :: 0 <= i < |w.pending| ==> Carries(w.pending[i], w.disks))
    && Consistent(w) && UniqueKeys(w.cache.entries)
  }

  lemma WritingMore(pending: seq<Pending>, p: Pending, k: Key)
    ensures Writing(pending, k) ==> Writing(pending + [p], k)
    ensures p.Sent? ==> Writing(pending + [p], p.key)
  {
    if Writing(pending, k) {
      var i :| 0 <= i < |pending| && pending[i].Sent? && pending[i].key == k;
      assert (pending + [p])[i] == pending[i];
    }
    assert (pending + [p])[|pending|] == p;
  }

  lemma WritingLess(pending: seq<Pending>, i: nat, k: Key)
    requires i < |pending| && (pending[i].key != k || pending[i].Fetched?)
    ensures Writing(pending, k) ==> Writing(Removed(pending, i), k)
  {
    if Writing(pending, k) {
      var j :| 0 <= j < |pending| && pending[j].Sent? && pending[j].key == k;
      assert Removed(pending, i)[if j < i then j else j - 1] == pending[j];
    }
  }

  lemma FetchSettles(w: World, k: Key)
    requires Settled(w) && Requestable(w.disks, k)
    ensures Settled(w.(pending := w.pending + [Fetched(k, Sector(w.disks, k))]))
  {
    hide Sector, DisksValid;
    forall i | 0 <= i < ENTRIES
      ensures w.cache.entries[i].valid && Writing(w.pending, w.cache.entries[i].key) ==>
        Writing(w.pending + [Fetched(k, Sector(w.disks, k))], w.cache.entries[i].key)
    {
      WritingMore(w.pending, Fetched(k, Sector(w.disks, k)), w.cache.entries[i].key);
    }
  }

  lemma SendSettles(w: World, k: Key, data: seq<byte>)
    requires Settled(w) && Requestable(w.disks, k) && |data| == SectorSize(w.disks, k)
    requires !Busy(w.pending, k) || data == Sector(w.disks, k)
    ensures Settled(w.(disks := WithSector(w.disks, k, data), pending := w.pending + [Sent(k, data)]))
  {
    hide Sector, WithSector, DisksValid;
    var w' := w.(disks := WithSector(w.disks, k, data), pending := w.pending + [Sent(k, data)]);
    WithSectorOnly(w.disks, k, data, k);
    forall i | 0 <= i < |w.pending|
      ensures Carries(w.pending[i], w'.disks)
    {
      WithSectorOnly(w.disks, k, data, w.pending[i].key);
    }
    forall i | 0 <= i < ENTRIES && w.cache.entries[i].valid
      ensures Agrees(w.cache.entries[i], w'.disks) || Writing(w'.pending, w.cache.entries[i].key)
    {
      WritingMore(w.pending, Sent(k, data), w.cache.entries[i].key);
      WithSectorOnly(w.disks, k, data, w.cache.entries[i].key);
    }
  }

  lemma TouchedUnique(c: Cache, k: Key)
    requires c.Sized() && UniqueKeys(c.entries)
    ensures UniqueKeys(Touched(c, k).entries) && UniqueKeys(Invalidate(c, k).entries)
  {}

  /** An entry after a return is the one before, or holds what came back. */
  lemma ReturnedEntry(c: Cache, p: Pending, i: nat)
    requires c.Sized() && UniqueKeys(c.entries) && i < ENTRIES
    ensures var e, e' := c.entries[i], Returned(c, p).entries[i];
      e'.valid ==> (e'.key == p.key && e'.data == p.data)
                   || (e.valid && e'.key == e.key && e'.data == e.data && (p.Sent? ==> e'.key != p.key))
  {
    hide UniqueKeys, Find, Choose;
    OnlyInPlace(c.entries, p.key);
  }

  lemma ReturnedUnique(c: Cache, p: Pending)
    requires c.Sized() && UniqueKeys(c.entries)
    ensures UniqueKeys(Returned(c, p).entries)
  {
    hide UniqueKeys, Stored, Touched;
    StoredUnique(c, p.key, p.data);
    TouchedUnique(c, p.key);
  }

  lemma FinishSettles(w: World, i: nat)
    requires Settled(w) && i < |w.pending|
    ensures Settled(w.(cache := Returned(w.cache, w.pending[i]), pending := Removed(w.pending, i)))
  {
    hide Sector, DisksValid, Returned, UniqueKeys, Find;
    var p, rest, c := w.pending[i], Removed(w.pending, i), Returned(w.cache, w.pending[i]);
    ReturnedUnique(w.cache, p);
    assert forall j :: 0 <= j < |rest| ==> rest[j] == w.pending[if j < i then j else j + 1];
    forall e | 0 <= e < ENTRIES && c.entries[e].valid
      ensures Agrees(c.entries[e], w.disks) || Writing(rest, c.entries[e].key)
    {
      ReturnedEntry(w.cache, p, e);
      if !(c.entries[e].key == p.key && c.entries[e].data == p.data) {
        WritingLess(w.pending, i, c.entries[e].key);
      }
    }
  }

  lemma TouchSettles(w: World, k: Key)
    requires Settled(w)
    ensures Settled(w.(cache := Touched(w.cache, k))) && Settled(w.(cache := Invalidate(w.cache, k)))
  {}

  lemma DropSettles(w: World, registry: nat, device: nat)
    requires Settled(w)
    ensures Settled(w.(cache := InvalidateDevice(w.cache, registry, device)))
  {}

  lemma NextSettles(w: World, s: Step)
    requires Settled(w) && Separate(w, s)
    ensures Settled(Next(w, s))
  {
    hide Settled, Touched, Returned, Removed, Invalidate, InvalidateDevice, Sector, WithSector, Writing, Busy;
    SettledSized(w);
    match s
    case Fetch(k) =>
      if Requestable(w.disks, k) {
        FetchSettles(w, k);
      }
    case Send(k, data) =>
      if Requestable(w.disks, k) && |data| == SectorSize(w.disks, k) {
        SendSettles(w, k, data);
      }
    case Finish(i) =>
      if i < |w.pending| {
        FinishSettles(w, i);
      }
    case Hit(k) => TouchSettles(w, k);
    case Drop(k) => TouchSettles(w, k);
    case DropDevice(registry, device) => DropSettles(w, registry, device);
  }

  lemma SettledSized(w: World)
    requires Settled(w)
    ensures w.cache.Sized()
  {}

  // ------------------------------------------------------------ runs

  predicate SeparateRun(w: World, steps: seq<Step>)
    requires w.cache.Sized()
    decreases |steps|
  {
    steps == [] || (Separate(w, steps[0]) && SeparateRun(Next(w, steps[0]), steps[1..]))
  }

  function Run(w: World, steps: seq<Step>): (w': World)
    requires w.cache.Sized() && SeparateRun(w, steps)
    ensures w'.cache.Sized()
    decreases |steps|
  {
    if steps == [] then w else Run(Next(w, steps[0]), steps[1..])
  }

  lemma {:induction false} RunSettles(w: World, steps: seq<Step>)
    requires Settled(w) && SeparateRun(w, steps)
    ensures Settled(Run(w, steps))
    decreases |steps|
  {
    hide Settled, Separate, Next;
    SettledSized(w);
    if steps != [] {
      NextSettles(w, steps[0]);
      RunSettles(Next(w, steps[0]), steps[1..]);
    }
  }

  /** However operations overlap, as long as writes to a sector do not, a hit returns what the device holds
      whenever no write to that sector is under way; and when nothing is under way the cache is coherent. */
  lemma OverlapsStayCoherent(w: World, steps: seq<Step>, k: Key)
    requires Settled(w) && SeparateRun(w, steps)
    ensures var end := Run(w, steps);
      && end.cache.Sized() && (end.pending == [] ==> Coherent(end.cache, end.disks))
      && (var n := Find(end.cache.entries, k, 0);
          n < ENTRIES && !Writing(end.pending, k) ==>
            Requestable(end.disks, k) && end.cache.entries[n].data == Sector(end.disks, k))
  {
    hide Run, SeparateRun, Sector;
    RunSettles(w, steps);
    var end := Run(w, steps);
    var n := Find(end.cache.entries, k, 0);
    if end.pending == [] {
      assert forall j: Key :: !Writing(end.pending, j);
    }
  }

  /** Two writes to one sector that overlap can return to the cache in the other order: then nothing is under
      way, the device holds the second and the cache the first. */
  lemma OverlappingWritesDiverge(w: World, k: Key, a: seq<byte>, b: seq<byte>)
    requires w.cache.Sized() && DisksValid(w.disks) && w.pending == [] && Requestable(w.disks, k)
    requires |a| == |b| == SectorSize(w.disks, k) && a != b
    ensures var end := Next(Next(Next(Next(w, Send(k, a)), Send(k, b)), Finish(1)), Finish(0));
      var n := Find(end.cache.entries, k, 0);
      && end.pending == [] && n < ENTRIES && end.cache.entries[n].data == a
      && Requestable(end.disks, k) && Sector(end.disks, k) == b
  {
    hide Place, Find, Sector, WithSector, DisksValid;
    var w1 := Next(w, Send(k, a));
    WithSectorOnly(w.disks, k, a, k);
    SizeKept(w.disks, k, a);
    var w2 := Next(w1, Send(k, b));
    WithSectorOnly(w1.disks, k, b, k);
    var w3 := Next(w2, Finish(1));
    assert w3.pending == [Sent(k, a)];
    StoredFound(w3.cache, k, a);
  }

  /** A write that overlaps a fetch of its sector: if the sector leaves the cache in between, the fetch brings back
      what the device held before. */
  lemma FetchAndWriteDiverge(w: World, k: Key, b: seq<byte>)
    requires w.cache.Sized() && UniqueKeys(w.cache.entries) && DisksValid(w.disks) && w.pending == []
    requires Requestable(w.disks, k) && |b| == SectorSize(w.disks, k) && b != Sector(w.disks, k)
    ensures var end := Next(Next(Next(Next(Next(w, Fetch(k)), Send(k, b)), Finish(1)), Drop(k)), Finish(0));
      var n := Find(end.cache.entries, k, 0);
      && end.pending == [] && n < ENTRIES && end.cache.entries[n].data == Sector(w.disks, k)
      && Requestable(end.disks, k) && Sector(end.disks, k) == b
  {
    hide Returned, Find, Sector, WithSector, DisksValid, Invalidate, UniqueKeys;
    var a := Sector(w.disks, k);
    WithSectorOnly(w.disks, k, b, k);
    var w2 := Next(Next(w, Fetch(k)), Send(k, b));
    assert w2.pending == [Fetched(k, a), Sent(k, b)];
    var w3 := Next(w2, Finish(1));
    assert w3.pending == [Fetched(k, a)];
    ReturnedUnique(w2.cache, Sent(k, b));
    DropThenReturn(w3.cache, k, Fetched(k, a));
  }

  /** After an invalidation whatever comes back goes into the cache. */
  lemma DropThenReturn(c: Cache, k: Key, p: Pending)
    requires c.Sized() && UniqueKeys(c.entries) && p.key == k
    ensures Invalidate(c, k).Sized()
    ensures var c' := Returned(Invalidate(c, k), p); var n := Find(c'.entries, k, 0);
      n < ENTRIES && Matches(c'.entries[n], k) && c'.entries[n].data == p.data
  {
    hide Stored, Touched, UniqueKeys;
    DroppedMissing(c, k);
    StoredFound(Invalidate(c, k), k, p.data);
  }

  lemma DroppedMissing(c: Cache, k: Key)
    requires c.Sized() && UniqueKeys(c.entries)
    ensures Find(Invalidate(c, k).entries, k, 0) == ENTRIES
  {
    var c' := Invalidate(c, k);
    var n := Find(c'.entries, k, 0);
    assert n < ENTRIES ==> Matches(c.entries[n], k);
  }

  // ------------------------------------------------------------ exactly when a write is safe

  /** However things go on, the cache stays consistent with the device. */
  ghost predicate Safe(w: World)
    requires w.cache.Sized()
  {
    forall steps: seq<Step> | SeparateRun(w, steps) :: Consistent(Run(w, steps))
  }

  /** `steps` lead to a cache that is not consistent with the device. */
  ghost predicate Spoils(w: World, steps: seq<Step>)
    requires w.cache.Sized()
  {
    SeparateRun(w, steps) && !Consistent(Run(w, steps))
  }

  lemma SpoilsFirst(w: World, s: Step, rest: seq<Step>)
    requires w.cache.Sized() && !s.Send? && Spoils(Next(w, s), rest)
    ensures Spoils(w, [s] + rest)
  {
    hide Next, Consistent;
    assert ([s] + rest)[1..] == rest;
  }

  /** What an operation carries is not what its sector holds. */
  ghost predicate Outdated(w: World, i: nat) {
    && w.cache.Sized() && UniqueKeys(w.cache.entries) && i < |w.pending|
    && Requestable(w.disks, w.pending[i].key) && w.pending[i].data != Sector(w.disks, w.pending[i].key)
  }

  /** With no other write to the sector under way, the sector leaves the cache and the operation returns. */
  lemma SpoilsLast(w: World, i: nat) returns (steps: seq<Step>)
    requires Outdated(w, i) && !Writing(Removed(w.pending, i), w.pending[i].key)
    ensures Spoils(w, steps)
  {
    hide Returned, Find, Sector, Invalidate, Writing, UniqueKeys;
    var p := w.pending[i];
    var w1 := Next(w, Drop(p.key));
    DropThenReturn(w.cache, p.key, p);
    var w2 := Next(w1, Finish(i));
    var n := Find(w2.cache.entries, p.key, 0);
    assert w2.cache.entries[n].valid && !Agrees(w2.cache.entries[n], w2.disks);
    var none: seq<Step> := [];
    assert Spoils(w2, none);
    SpoilsFirst(w1, Finish(i), none);
    SpoilsFirst(w, Drop(p.key), [Finish(i)] + none);
    steps := [Drop(p.key)] + ([Finish(i)] + none);
  }

  lemma FinishOther(w: World, i: nat, j: nat)
    requires Outdated(w, i) && j < |w.pending| && j != i
    ensures Outdated(Next(w, Finish(j)), if i < j then i else i - 1)
  {
    hide Returned, Sector, UniqueKeys;
    ReturnedUnique(w.cache, w.pending[j]);
  }

  /** Whatever else is under way: first the other writes to the sector return. */
  lemma {:induction false} Spoilable(w: World, i: nat) returns (steps: seq<Step>)
    requires Outdated(w, i)
    ensures Spoils(w, steps)
    decreases |w.pending|
  {
    hide Next, Spoils, Outdated, Returned;
    OutdatedInside(w, i);
    var rest := Removed(w.pending, i);
    if Writing(rest, w.pending[i].key) {
      var r :| 0 <= r < |rest| && rest[r].Sent? && rest[r].key == w.pending[i].key;
      var j := if r < i then r else r + 1;
      FinishOther(w, i, j);
      FinishShortens(w, j);
      var later := Spoilable(Next(w, Finish(j)), if i < j then i else i - 1);
      SpoilsFirst(w, Finish(j), later);
      steps := [Finish(j)] + later;
    } else {
      steps := SpoilsLast(w, i);
    }
  }

  lemma OutdatedInside(w: World, i: nat)
    requires Outdated(w, i)
    ensures w.cache.Sized() && i < |w.pending|
  {}

  lemma FinishShortens(w: World, j: nat)
    requires w.cache.Sized() && j < |w.pending|
    ensures |Next(w, Finish(j)).pending| == |w.pending| - 1
  {}

  /** What is under way for the sector is out of date once something else has been written there. */
  lemma SendOutdates(w: World, k: Key, data: seq<byte>) returns (i: nat)
    requires Settled(w) && Requestable(w.disks, k) && |data| == SectorSize(w.disks, k)
    requires Busy(w.pending, k) && data != Sector(w.disks, k)
    ensures Outdated(Next(w, Send(k, data)), i)
  {
    hide Sector, WithSector, DisksValid, UniqueKeys, Consistent;
    i :| 0 <= i < |w.pending| && w.pending[i].key == k;
    assert Carries(w.pending[i], w.disks);
    WithSectorOnly(w.disks, k, data, k);
  }

  /** Whatever is written, and whatever is under way: however operations overlap after it, the cache stays consistent
      exactly if the write does not reach the device, nothing is under way for its sector, or it writes what the
      sector holds already. */
  lemma SendSafeIffSeparate(w: World, k: Key, data: seq<byte>)
    requires Settled(w)
    ensures w.cache.Sized() && (Safe(Next(w, Send(k, data))) <==> Separate(w, Send(k, data)))
  {
    hide Settled, Next, Busy, Consistent, Run, SeparateRun, Sector, Outdated;
    SettledSized(w);
    var w1 := Next(w, Send(k, data));
    if Separate(w, Send(k, data)) {
      NextSettles(w, Send(k, data));
      forall steps: seq<Step> | SeparateRun(w1, steps)
        ensures Consistent(Run(w1, steps))
      {
        RunSettles(w1, steps);
        SettledConsistent(Run(w1, steps));
      }
    } else {
      var i := SendOutdates(w, k, data);
      var steps := Spoilable(w1, i);
    }
  }

  lemma SettledConsistent(w: World)
    requires Settled(w)
    ensures w.cache.Sized() && Consistent(w)
  {}

  lemma SizeKept(disks: Disks, k: Key, data: seq<byte>)
    requires Requestable(disks, k)
    ensures Registered(WithSector(disks, k, data), k)
    ensures SectorSize(WithSector(disks, k, data), k) == SectorSize(disks, k)
  {}

  lemma StoredFound(c: Cache, k: Key, data: seq<byte>)
    requires c.Sized()
    ensures var c' := Stored(c, k, data); var n := Find(c'.entries, k, 0); n < ENTRIES && c'.entries[n].data == data
  {
    hide Choose;
    var c', m := Stored(c, k, data), Place(c.entries, k);
    var n := Find(c'.entries, k, 0);
    assert Matches(c'.entries[m], k);
  }
}
