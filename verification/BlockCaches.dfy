/** The sector cache in place, each operation taken as a whole. */
module BlockCaches {
  import opened Bits
  import opened Options
  import opened BlockCache

  class SectorCache {
    const entries: array<Entry>
    var clock: nat

    ghost predicate Valid() {
      entries.Length == ENTRIES
    }

    ghost function View(): (c: Cache)
      requires Valid()
      reads this, entries
      ensures c.Sized()
    {
      Cache(clock, entries[..])
    }

    constructor ()
      ensures Valid() && clock == 0 && forall i :: 0 <= i < ENTRIES ==> !entries[i].valid
    {
      entries := new Entry[ENTRIES](_ => Entry(false, Key(0, 0, 0), 0, []));
      clock := 0;
    }

    method FindEntry(k: Key) returns (n: nat)
      requires Valid()
      ensures n == Find(View().entries, k, 0)
    {
      n := 0;
      while n < ENTRIES && !Matches(entries[n], k)
        invariant n <= ENTRIES
        invariant Find(entries[..], k, n) == Find(entries[..], k, 0)
      {
        n := n + 1;
      }
    }

    method ChooseEntry() returns (n: nat)
      requires Valid()
      ensures n == Choose(View().entries, 0, 0)
    {
      n := 0;
      var i := 0;
      while i < ENTRIES
        invariant i <= ENTRIES && n < ENTRIES
        invariant Choose(entries[..], i, n) == Choose(entries[..], 0, 0)
      {
        if !entries[i].valid {
          return i;
        }
        if entries[i].age < entries[n].age {
          n := i;
        }
        i := i + 1;
      }
    }

    method Store(k: Key, data: seq<byte>)
      requires Valid()
      modifies this, entries
      ensures View() == Stored(old(View()), k, data)
    {
      hide Find, Choose;
      var n := FindEntry(k);
      if n == ENTRIES {
        n := ChooseEntry();
      }
      clock := Tick(clock);
      entries[n] := Entry(true, k, clock, data);
    }

    /** A read returns the cached sector, or fetches and keeps it. */
    method ReadSector(disks: Disks, k: Key, size: nat, works: bool) returns (r: Option<seq<byte>>)
      requires Valid()
      modifies this, entries
      ensures (View(), r) == Read(old(View()), disks, k, size, works)
    {
      hide Stored, Find, Sector;
      if size == 0 || size > SECTOR_MAX || !Registered(disks, k) || SectorSize(disks, k) != size {
        return None;
      }
      var n := FindEntry(k);
      if n < ENTRIES {
        clock := Tick(clock);
        entries[n] := entries[n].(age := clock);
        return Some(entries[n].data);
      }
      r := DeviceRead(disks, k, works);
      if r.Some? {
        Store(k, r.value);
      }
    }

    /** A write goes to the device first and then into the cache. */
    method WriteSector(disks: Disks, k: Key, data: seq<byte>, works: bool) returns (disks': Disks, ok: bool)
      requires Valid()
      modifies this, entries
      ensures (View(), disks', ok) == Write(old(View()), disks, k, data, works)
    {
      hide Stored, Sector, WithSector;
      if |data| == 0 || |data| > SECTOR_MAX || !Registered(disks, k) || SectorSize(disks, k) != |data| {
        return disks, false;
      }
      var written := DeviceWrite(disks, k, data, works);
      if written.None? {
        return disks, false;
      }
      Store(k, data);
      return written.value, true;
    }

    method InvalidateSector(k: Key)
      requires Valid()
      modifies entries
      ensures View() == Invalidate(old(View()), k)
    {
      hide Find;
      var n := FindEntry(k);
      if n < ENTRIES {
        entries[n] := entries[n].(valid := false);
      }
    }

    method InvalidateAll(registry: nat, device: nat)
      requires Valid()
      modifies entries
      ensures View() == InvalidateDevice(old(View()), registry, device)
    {
      ghost var c := View();
      var i := 0;
      while i < ENTRIES
        invariant 0 <= i <= ENTRIES
        invariant forall j :: 0 <= j < i ==> entries[j] == InvalidateDevice(c, registry, device).entries[j]
        invariant forall j :: i <= j < ENTRIES ==> entries[j] == c.entries[j]
      {
        if OnDevice(entries[i], registry, device) {
          entries[i] := entries[i].(valid := false);
        }
        i := i + 1;
      }
    }
  }
}
