/** Process handles: slots with generations, references that defer release, and what every run keeps. */
module Handles {
  import opened Options

  const CAPACITY := 32
  const SLOT_SIZE := 32
  const LAST_GENERATION := 0xffff
  const U32_MAX := 0xffff_ffff
  const LAST_KIND := 2

  // ------------------------------------------------------------ handles as numbers

  datatype Place = Place(slot: nat, generation: nat)

  /** The generation above five bits, with the slot's number plus one put in by a bitwise or. */
  function MakeHandle(slot: nat, generation: nat): (h: nat)
    requires slot < CAPACITY
  {
    if slot + 1 < SLOT_SIZE then generation * SLOT_SIZE + (slot + 1)
    else (if generation % 2 == 1 then generation else generation + 1) * SLOT_SIZE
  }

  function DecodeHandle(h: nat): (p: Option<Place>) {
    var slot, generation := h % SLOT_SIZE, h / SLOT_SIZE;
    if h == 0 || slot == 0 || generation == 0 || slot > CAPACITY || generation > LAST_GENERATION then None
    else Some(Place(slot - 1, generation))
  }

  /** `generation << 5 | slot + 1`, written out at both ends of the table. */
  lemma HandleNumbers()
    ensures MakeHandle(0, 1) == 0x21 && MakeHandle(30, 0xffff) == 0x1f_ffff && DecodeHandle(0x45) == Some(Place(4, 2))
    ensures DecodeHandle(0x1f_ffff) == Some(Place(30, 0xffff)) && DecodeHandle(0x20_0001) == None
    ensures MakeHandle(31, 1) == 0x20 && MakeHandle(31, 2) == 0x60 && DecodeHandle(0x20) == None
  {}

  /** Decoding undoes encoding for every slot but the last, whose handles are never accepted. */
  lemma DecodeMade(slot: nat, generation: nat)
    requires slot < CAPACITY && 1 <= generation <= LAST_GENERATION
    ensures DecodeHandle(MakeHandle(slot, generation)) == if slot < CAPACITY - 1 then Some(Place(slot, generation))
      else None
  {}

  /** Encoding undoes decoding, so no two handles name the same slot and generation. */
  lemma MadeDecoded(h: nat)
    requires DecodeHandle(h).Some?
    ensures var p := DecodeHandle(h).value;
      p.slot < CAPACITY - 1 && 1 <= p.generation <= LAST_GENERATION && MakeHandle(p.slot, p.generation) == h
  {}

  // ------------------------------------------------------------ the table

  type Rights = r: nat | r < 8

  /** The required rights are among the given ones. */
  predicate Allows(given: Rights, required: nat) {
    && required < 8 && required % 2 <= given % 2
    && required / 2 % 2 <= given / 2 % 2 && required / 4 <= given / 4
  }

  /** As a test on masks: each of the required bits is set in what is given. */
  lemma AllowsIsMask(given: Rights, required: Rights)
    ensures Allows(given, required) <==> (given as bv3) & (required as bv3) == required as bv3
  {}

  /** An entry; resource, release and retain functions are zero when there is none. */
  datatype Entry = Entry(resource: nat, rights: Rights, release: nat, retain: nat, retained: nat,
                         closing: bool, inheritable: bool, kind: nat)

  const EMPTY := Entry(0, 0, 0, 0, 0, false, true, 0)

  datatype Table = Table(entries: seq<Entry>, generations: seq<nat>, retained: nat) {
    predicate Sized() { |entries| == CAPACITY == |generations| }
  }

  const NEW_TABLE := Table(seq(CAPACITY, _ => EMPTY), seq(CAPACITY, _ => 1), 0)

  /** A call of a release or retain function with a resource; releases are called once the table is unlocked. */
  datatype Call = Call(routine: nat, resource: nat)

  function NextGeneration(g: nat): (g': nat) {
    if g == LAST_GENERATION then 1 else g + 1
  }

  /** A handle that names an open entry. */
  predicate Opens(t: Table, h: nat)
    requires t.Sized()
  {
    var p := DecodeHandle(h);
    && p.Some? && t.generations[p.value.slot] == p.value.generation
    && !t.entries[p.value.slot].closing && t.entries[p.value.slot].resource != 0
  }

  /** The first slot from `i` on without a resource. */
  function FirstFree(entries: seq<Entry>, i: nat): (k: nat)
    requires i <= |entries|
    ensures i <= k <= |entries| && (k < |entries| ==> entries[k].resource == 0)
    ensures forall j :: i <= j < k ==> entries[j].resource != 0
    decreases |entries| - i
  {
    if i == |entries| || entries[i].resource == 0 then i else FirstFree(entries, i + 1)
  }

  function Open(t: Table, resource: nat, rights: nat, release: nat, retain: nat, kind: nat): (r: (Table, nat))
    requires t.Sized()
  {
    var k := FirstFree(t.entries, 0);
    if resource == 0 || rights == 0 || rights > 7 || kind > LAST_KIND || k == CAPACITY then (t, 0)
    else
      var e := Entry(resource, rights, release, retain, t.entries[k].retained, false, true, kind);
      (t.(entries := t.entries[k := e]), MakeHandle(k, t.generations[k]))
  }

  /** A second entry for a resource, and the retain to call for it. */
  function Duplicate(t: Table, h: nat, rights: nat): (r: (Table, nat, Option<Call>))
    requires t.Sized()
  {
    if !Opens(t, h) then (t, 0, None)
    else
      var source, k := t.entries[DecodeHandle(h).value.slot], FirstFree(t.entries, 0);
      if source.retain == 0 || (rights != 0 && !Allows(source.rights, rights)) || k == CAPACITY then (t, 0, None)
      else
        var given: Rights := if rights != 0 then rights else source.rights;
        (t.(entries := t.entries[k := Entry(source.resource, given, source.release, source.retain,
                                            t.entries[k].retained, false, source.inheritable, source.kind)]),
         MakeHandle(k, t.generations[k]), Some(Call(source.retain, source.resource)))
  }

  function SetInheritable(t: Table, h: nat, inheritable: bool): (r: (Table, bool))
    requires t.Sized()
  {
    if !Opens(t, h) then (t, false)
    else
      var k := DecodeHandle(h).value.slot;
      (t.(entries := t.entries[k := t.entries[k].(inheritable := inheritable)]), true)
  }

  predicate Passes(e: Entry) {
    e.resource != 0 && !e.closing && e.inheritable
  }

  /** The retain that sharing an entry calls for. */
  function Shared(e: Entry): (c: Option<Call>) {
    if Passes(e) then Some(Call(e.retain, e.resource)) else None
  }

  function NoCalls(): (calls: seq<Option<Call>>)
    ensures |calls| == CAPACITY && forall i :: 0 <= i < CAPACITY ==> calls[i] == None
  {
    seq(CAPACITY, _ => None)
  }

  /** An entry of the table is in use, or one of the other's cannot be shared. */
  predicate Hinders(e: Entry, other: Entry) {
    e.resource != 0 || (Passes(other) && other.retain == 0)
  }

  /** An empty table takes over the inheritable entries of another, if all of them can be shared. */
  function Inherit(t: Table, source: Table): (r: (Table, bool, seq<Option<Call>>))
    requires t.Sized() && source.Sized()
  {
    if exists i :: 0 <= i < CAPACITY && Hinders(t.entries[i], source.entries[i])
    then (t, false, NoCalls())
    else (t.(entries := seq(CAPACITY, i requires 0 <= i < CAPACITY =>
               if Passes(source.entries[i]) then source.entries[i].(retained := 0, closing := false)
                 else t.entries[i])),
          true, seq(CAPACITY, i requires 0 <= i < CAPACITY => Shared(source.entries[i])))
  }

  /** An entry after closing, and the release to call if no reference holds it back. */
  function Closed(e: Entry): (r: (Entry, Option<Call>)) {
    var c := e.(rights := 0, closing := true);
    if e.retained == 0 then
      (c.(resource := 0, release := 0, retain := 0), if e.release != 0 then Some(Call(e.release, e.resource)) else None)
    else (c, None)
  }

  function Close(t: Table, h: nat): (r: (Table, bool, Option<Call>))
    requires t.Sized()
  {
    if !Opens(t, h) then (t, false, None)
    else
      var k := DecodeHandle(h).value.slot;
      var c := Closed(t.entries[k]);
      (t.(entries := t.entries[k := c.0], generations := t.generations[k := NextGeneration(t.generations[k])]), true,
       c.1)
  }

  function CloseAll(t: Table): (r: (Table, seq<Option<Call>>))
    requires t.Sized()
  {
    (t.(entries := seq(CAPACITY, i requires 0 <= i < CAPACITY => Closed(t.entries[i]).0),
        generations := seq(CAPACITY, i requires 0 <= i < CAPACITY => NextGeneration(t.generations[i]))),
     seq(CAPACITY, i requires 0 <= i < CAPACITY => Closed(t.entries[i]).1))
  }

  /** A reference to an entry's resource is taken. */
  function GetRetain(t: Table, h: nat, required: nat): (r: (Table, Option<nat>))
    requires t.Sized()
  {
    if required > 7 || !Opens(t, h) then (t, None)
    else
      var k := DecodeHandle(h).value.slot;
      var e := t.entries[k];
      if !Allows(e.rights, required) || e.retained == U32_MAX || t.retained == U32_MAX then (t, None)
      else (t.(entries := t.entries[k := e.(retained := e.retained + 1)], retained := t.retained + 1), Some(k))
  }

  /** A reference is given up; the last one on a closed entry lets its resource go. */
  function ReleaseRef(t: Table, k: nat): (r: (Table, Option<Call>))
    requires t.Sized() && k < CAPACITY
  {
    var e := t.entries[k];
    if e.retained == 0 || t.retained == 0 then (t, None)
    else
      var e1 := e.(retained := e.retained - 1);
      if e.closing && e1.retained == 0 then
        (t.(entries := t.entries[k := e1.(resource := 0, release := 0)], retained := t.retained - 1),
         if e.release != 0 then Some(Call(e.release, e.resource)) else None)
      else (t.(entries := t.entries[k := e1], retained := t.retained - 1), None)
  }

  // ------------------------------------------------------------ handles that open nothing

  predicate Numbered(t: Table) {
    t.Sized() && forall s :: 0 <= s < CAPACITY ==> 1 <= t.generations[s] <= LAST_GENERATION
  }

  /** The handle that opening returns opens its entry exactly when there was a free slot before the last. */
  lemma OpenedOpensIff(t: Table, resource: nat, rights: nat, release: nat, retain: nat, kind: nat)
    requires Numbered(t) && Open(t, resource, rights, release, retain, kind).1 != 0
    ensures var r := Open(t, resource, rights, release, retain, kind);
      r.0.Sized() && (Opens(r.0, r.1) <==> FirstFree(t.entries, 0) < CAPACITY - 1)
  {
    hide MakeHandle, DecodeHandle;
    var k := FirstFree(t.entries, 0);
    DecodeMade(k, t.generations[k]);
  }

  /** So does the handle that duplicating returns. */
  lemma DuplicateOpensIff(t: Table, h: nat, rights: nat)
    requires Numbered(t) && Duplicate(t, h, rights).1 != 0
    ensures var r := Duplicate(t, h, rights);
      r.0.Sized() && (Opens(r.0, r.1) <==> FirstFree(t.entries, 0) < CAPACITY - 1)
  {
    hide MakeHandle, DecodeHandle, Allows;
    var k := FirstFree(t.entries, 0);
    DecodeMade(k, t.generations[k]);
    MadeDecoded(h);
  }
}
