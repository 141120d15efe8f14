/** The handle table in place. */
module HandleTables {
  import opened Options
  import opened Handles

  /** A reference handed out to a caller. */
  class HandleRef {
    var active: bool
    var slot: nat
  }

  class HandleTable {
    const entries: array<Entry>
    const generations: array<nat>
    var retained: nat

    ghost predicate Valid() {
      entries.Length == CAPACITY == generations.Length
    }

    ghost function View(): (t: Table)
      requires Valid()
      reads this, entries, generations
      ensures t.Sized()
    {
      Table(entries[..], generations[..], retained)
    }

    constructor ()
      ensures Valid() && View() == NEW_TABLE
    {
      entries := new Entry[CAPACITY](_ => EMPTY);
      generations := new nat[CAPACITY](_ => 1);
      retained := 0;
    }

    /** The slot of an open entry that a handle names. */
    method Find(h: nat) returns (slot: Option<nat>)
      requires Valid()
      ensures slot.Some? <==> Opens(View(), h)
      ensures slot.Some? ==> slot.value < CAPACITY && slot.value == DecodeHandle(h).value.slot
    {
      var p := DecodeHandle(h);
      if p.None? || generations[p.value.slot] != p.value.generation || entries[p.value.slot].closing
         || entries[p.value.slot].resource == 0 {
        return None;
      }
      return Some(p.value.slot);
    }

    method FindFree() returns (k: nat)
      requires Valid()
      ensures k == FirstFree(View().entries, 0)
    {
      k := 0;
      while k < CAPACITY && entries[k].resource != 0
        invariant k <= CAPACITY
        invariant FirstFree(entries[..], k) == FirstFree(entries[..], 0)
      {
        k := k + 1;
      }
    }

    method OpenKind(resource: nat, rights: nat, release: nat, retain: nat, kind: nat) returns (h: nat)
      requires Valid()
      modifies entries
      ensures (View(), h) == Handles.Open(old(View()), resource, rights, release, retain, kind)
    {
      hide MakeHandle;
      if resource == 0 || rights == 0 || rights > 7 || kind > LAST_KIND {
        return 0;
      }
      var k := FindFree();
      if k == CAPACITY {
        return 0;
      }
      entries[k] := Entry(resource, rights, release, retain, entries[k].retained, false, true, kind);
      return MakeHandle(k, generations[k]);
    }

    method Duplicate(h: nat, rights: nat) returns (h': nat, call: Option<Call>)
      requires Valid()
      modifies entries
      ensures (View(), h', call) == Handles.Duplicate(old(View()), h, rights)
    {
      hide MakeHandle, DecodeHandle, Allows;
      var slot := Find(h);
      if slot.None? {
        return 0, None;
      }
      var source := entries[slot.value];
      if source.retain == 0 || (rights != 0 && !Allows(source.rights, rights)) {
        return 0, None;
      }
      AllowedRights(source.rights, rights);
      var given: Rights := if rights != 0 then rights else source.rights;
      var k := FindFree();
      if k == CAPACITY {
        return 0, None;
      }
      entries[k] := Entry(source.resource, given, source.release, source.retain, entries[k].retained, false,
                          source.inheritable, source.kind);
      return MakeHandle(k, generations[k]), Some(Call(source.retain, source.resource));
    }

    method SetInheritable(h: nat, inheritable: bool) returns (ok: bool)
      requires Valid()
      modifies entries
      ensures (View(), ok) == Handles.SetInheritable(old(View()), h, inheritable)
    {
      hide DecodeHandle;
      var slot := Find(h);
      if slot.None? {
        return false;
      }
      entries[slot.value] := entries[slot.value].(inheritable := inheritable);
      return true;
    }

    /** The resource of an entry that allows what is asked. */
    method Get(h: nat, required: nat) returns (resource: nat)
      requires Valid()
      ensures resource != 0
        <==> required <= 7 && Opens(View(), h) && Allows(View().entries[DecodeHandle(h).value.slot].rights, required)
      ensures required <= 7 && Opens(View(), h) ==>
        (resource != 0 <==>
         (View().entries[DecodeHandle(h).value.slot].rights as bv3) & (required as bv3) == required as bv3)
      ensures resource != 0 ==> resource == View().entries[DecodeHandle(h).value.slot].resource
    {
      hide DecodeHandle, Allows;
      if required > 7 {
        return 0;
      }
      var slot := Find(h);
      if slot.Some? {
        AllowsIsMask(entries[slot.value].rights, required);
      }
      if slot.None? || !Allows(entries[slot.value].rights, required) {
        return 0;
      }
      return entries[slot.value].resource;
    }

    /** Entries that may be inherited are shared with this empty table, each after its retain. */
    method InheritFrom(source: HandleTable) returns (ok: bool, calls: seq<Option<Call>>)
      requires Valid() && source.Valid() && (source != this ==> source.entries != entries)
      modifies entries
      ensures (View(), ok, calls) ==
        if source == this then (old(View()), false, NoCalls()) else Handles.Inherit(old(View()), source.View())
    {
      if source == this {
        return false, NoCalls();
      }
      var i := 0;
      while i < CAPACITY
        invariant 0 <= i <= CAPACITY
        invariant forall j ::
          0 <= j < i ==> entries[j].resource == 0 && !(Passes(source.entries[j]) && source.entries[j].retain == 0)
      {
        if entries[i].resource != 0 || (Passes(source.entries[i]) && source.entries[i].retain == 0) {
          return false, NoCalls();
        }
        i := i + 1;
      }
      ghost var t := View();
      calls := CopyPassing(source);
      assert View().entries == Handles.Inherit(t, source.View()).0.entries;
      assert calls == Handles.Inherit(t, source.View()).2;
      return true, calls;
    }

    method CopyPassing(source: HandleTable) returns (calls: seq<Option<Call>>)
      requires Valid() && source.Valid() && source.entries != entries
      modifies entries
      ensures forall j | 0 <= j < CAPACITY ::
        entries[j] == if Passes(source.entries[j]) then source.entries[j].(retained := 0, closing := false)
          else old(entries[j])
      ensures |calls| == CAPACITY && forall j | 0 <= j < CAPACITY :: calls[j] == Shared(source.entries[j])
    {
      calls := [];
      var i := 0;
      while i < CAPACITY
        invariant 0 <= i <= CAPACITY
        invariant forall j | 0 <= j < CAPACITY ::
          entries[j] == if j < i && Passes(source.entries[j]) then source.entries[j].(retained := 0, closing := false)
            else old(entries[j])
        invariant |calls| == i && forall j | 0 <= j < i :: calls[j] == Shared(source.entries[j])
      {
        var e := source.entries[i];
        var call := None;
        if Passes(e) {
          call := Some(Call(e.retain, e.resource));
          entries[i] := Entry(e.resource, e.rights, e.release, e.retain, 0, false, e.inheritable, e.kind);
        }
        calls := calls + [call];
        i := i + 1;
      }
    }

    /** One entry is closed; what is still referenced keeps its resource. */
    method CloseSlot(k: nat) returns (call: Option<Call>)
      requires Valid() && k < CAPACITY
      modifies entries, generations
      ensures entries[..] == old(entries[..])[k := Closed(old(entries[k])).0] && call == Closed(old(entries[k])).1
      ensures generations[..] == old(generations[..])[k := NextGeneration(old(generations[k]))]
    {
      var e := entries[k];
      var resource, release := e.resource, e.release;
      entries[k] := e.(rights := 0, closing := true);
      if e.retained == 0 {
        entries[k] := entries[k].(resource := 0, release := 0, retain := 0);
      } else {
        release := 0;
      }
      generations[k] := if generations[k] == LAST_GENERATION then 1 else generations[k] + 1;
      return if release != 0 then Some(Call(release, resource)) else None;
    }

    method Close(h: nat) returns (ok: bool, call: Option<Call>)
      requires Valid()
      modifies entries, generations
      ensures (View(), ok, call) == Handles.Close(old(View()), h)
    {
      hide DecodeHandle, Closed;
      var slot := Find(h);
      if slot.None? {
        return false, None;
      }
      call := CloseSlot(slot.value);
      ok := true;
    }

    /** Every entry is closed, and the releases are called afterwards. */
    method CloseAll() returns (calls: seq<Option<Call>>)
      requires Valid()
      modifies entries, generations
      ensures (View(), calls) == Handles.CloseAll(old(View()))
    {
      hide Closed;
      calls := [];
      var i := 0;
      while i < CAPACITY
        invariant 0 <= i <= CAPACITY && |calls| == i
        invariant forall j ::
          0 <= j < i ==> entries[j] == Closed(old(entries[j])).0 && calls[j] == Closed(old(entries[j])).1
        invariant forall j :: 0 <= j < i ==> generations[j] == NextGeneration(old(generations[j]))
        invariant forall j ::
          i <= j < CAPACITY ==> entries[j] == old(entries[j]) && generations[j] == old(generations[j])
      {
        var call := CloseSlot(i);
        calls := calls + [call];
        i := i + 1;
      }
      ghost var r := Handles.CloseAll(old(View()));
      assert View().entries == r.0.entries && View().generations == r.0.generations && calls == r.1;
    }

    /** A reference is taken and written to `ref`. */
    method GetRetain(h: nat, required: nat, ref: HandleRef) returns (ok: bool)
      requires Valid()
      modifies this, entries, ref
      ensures var r := Handles.GetRetain(old(View()), h, required);
        View() == r.0 && ok == r.1.Some? && (ok ==> ref.active && ref.slot == r.1.value)
      ensures !ok && DecodeHandle(h).Some? && required <= 7 ==> !ref.active
    {
      hide DecodeHandle, Allows;
      if DecodeHandle(h).None? || required > 7 {
        return false;
      }
      ref.active, ref.slot := false, 0;
      var slot := Find(h);
      if slot.None? || !Allows(entries[slot.value].rights, required) || entries[slot.value].retained == U32_MAX
        || retained == U32_MAX {
        return false;
      }
      entries[slot.value] := entries[slot.value].(retained := entries[slot.value].retained + 1);
      retained := retained + 1;
      ref.active, ref.slot := true, slot.value;
      return true;
    }

    /** A reference is given up; doing so again has no effect. */
    method ReleaseRef(ref: HandleRef) returns (call: Option<Call>)
      requires Valid() && (ref.active ==> ref.slot < CAPACITY)
      modifies this, entries, ref
      ensures !ref.active
      ensures if old(ref.active) then (View(), call) == Handles.ReleaseRef(old(View()), old(ref.slot))
              else View() == old(View()) && call == None
    {
      if !ref.active {
        return None;
      }
      var k := ref.slot;
      var resource, release := 0, 0;
      if entries[k].retained != 0 && retained != 0 {
        entries[k] := entries[k].(retained := entries[k].retained - 1);
        retained := retained - 1;
        if entries[k].closing && entries[k].retained == 0 {
          resource, release := entries[k].resource, entries[k].release;
          entries[k] := entries[k].(resource := 0, release := 0);
        }
      }
      assert entries[..] == old(entries[..])[k := entries[k]];
      ref.active, ref.slot := false, 0;
      return if release != 0 then Some(Call(release, resource)) else None;
    }
  }

  lemma AllowedRights(given: Rights, required: nat)
    ensures Allows(given, required) ==> required < 8
  {}
}
