/** The compositor: layers painted onto a target, in full or only where something changed. */
module Compositors {
  import opened Scene
  import opened Surfaces

  datatype Slot = Slot(surface: Surface?, x: int, y: int, z: nat, visible: bool)

  ghost predicate SlotValid(slot: Slot) {
    slot.surface != null ==> slot.surface.Valid()
  }

  ghost function Buffers(slots: seq<Slot>): (b: set<array<Color>>) {
    set s | s in slots && s.surface != null :: s.surface.pixels
  }

  ghost function LayerOf(slot: Slot): (l: Layer)
    requires SlotValid(slot)
    reads if slot.surface == null then {} else {slot.surface.pixels}
    ensures l.Layer? ==> l.image.Valid()
  {
    if slot.surface == null then Empty else Layer(slot.surface.View(), slot.x, slot.y, slot.z, slot.visible)
  }

  ghost predicate SlotsValid(slots: seq<Slot>) {
    forall i :: 0 <= i < |slots| ==> SlotValid(slots[i])
  }

  /** The first slot without a surface, or the number of slots. */
  function FreeSlot(slots: seq<Slot>): (k: nat)
    ensures k <= |slots| && (k < |slots| ==> slots[k].surface == null)
    ensures forall j :: 0 <= j < k ==> slots[j].surface != null
  {
    if slots == [] || slots[0].surface == null then 0 else 1 + FreeSlot(slots[1..])
  }

  /** Slots after one has been put into the first that is free. */
  function WithSlot(slots: seq<Slot>, slot: Slot): (s: seq<Slot>) {
    var k := FreeSlot(slots);
    if k < |slots| then slots[k := slot] else slots + [slot]
  }

  /** What a row of slots shows. */
  ghost function LayersOf(slots: seq<Slot>): (layers: seq<Layer>)
    requires SlotsValid(slots)
    reads Buffers(slots)
    ensures |layers| == |slots| && ImagesValid(layers)
    ensures forall i :: 0 <= i < |slots| ==> layers[i] == LayerOf(slots[i])
  {
    if slots == [] then [] else LayersOf(slots[..|slots| - 1]) + [LayerOf(slots[|slots| - 1])]
  }

  lemma LayersUpdated(slots: seq<Slot>, k: nat, slot: Slot)
    requires SlotsValid(slots) && SlotValid(slot) && k < |slots|
    ensures SlotsValid(slots[k := slot])
    ensures LayersOf(slots[k := slot]) == LayersOf(slots)[k := LayerOf(slot)]
  {}

  lemma LayersAppended(slots: seq<Slot>, slot: Slot)
    requires SlotsValid(slots) && SlotValid(slot)
    ensures SlotsValid(slots + [slot])
    ensures LayersOf(slots + [slot]) == LayersOf(slots) + [LayerOf(slot)]
  {}

  // ------------------------------------------------------------ painting

  lemma InsertedStacked(layers: seq<Layer>, order: seq<nat>, k: nat, at: nat)
    requires k < |layers| && Stacked(layers, k, order) && Drawn(layers, k) && at <= |order|
    requires forall i :: at <= i < |order| ==> layers[order[i]].z > layers[k].z
    requires at > 0 ==> layers[order[at - 1]].z <= layers[k].z
    ensures Stacked(layers, k + 1, order[..at] + [k] + order[at..])
  {
    forall i | 0 <= i < at
      ensures layers[order[i]].z <= layers[k].z
    {
      assert i < at - 1 ==> Under(layers, order[i], order[at - 1]);
    }
    StackedInsert(layers, order, k, at);
  }

  /** From `at` on, a list stands one place further on. */
  ghost predicate Shifting(before: seq<nat>, after: seq<nat>, at: nat) {
    && |after| > |before|
    && forall i :: at < i <= |before| ==> after[i] == before[i - 1]
  }

  lemma NotShifted(before: seq<nat>, after: seq<nat>, at: nat)
    requires |after| > |before| == at
    ensures Shifting(before, after, at)
  {}

  lemma ShiftOne(before: seq<nat>, after: seq<nat>, at: nat)
    requires 0 < at <= |before| && Shifting(before, after, at) && at < |after| && after[at - 1] == before[at - 1]
    ensures Shifting(before, after[at := after[at - 1]], at - 1)
  {}

  lemma ShiftedIn(before: seq<nat>, after: seq<nat>, at: nat, k: nat)
    requires at <= |before| && Shifting(before, after, at) && at < |after|
    requires forall i :: 0 <= i < at ==> after[i] == before[i]
    ensures |after| > |before| && after[at := k][..|before| + 1] == before[..at] + [k] + before[at..]
  {}

  /** The slots from `at` on lie higher. */
  ghost predicate Higher(slots: seq<Slot>, order: seq<nat>, at: nat, z: nat) {
    forall i :: at <= i < |order| ==> order[i] < |slots| && slots[order[i]].z > z
  }

  lemma NoneHigher(slots: seq<Slot>, order: seq<nat>, z: nat)
    ensures Higher(slots, order, |order|, z)
  {}

  lemma HigherNext(slots: seq<Slot>, order: seq<nat>, at: nat, z: nat)
    requires 0 < at <= |order| && Higher(slots, order, at, z) && order[at - 1] < |slots| && slots[order[at - 1]].z > z
    ensures Higher(slots, order, at - 1, z)
  {}

  lemma HigherAll(slots: seq<Slot>, order: seq<nat>, at: nat, z: nat)
    requires Higher(slots, order, at, z)
    ensures forall i :: at <= i < |order| ==> order[i] < |slots| && slots[order[i]].z > z
  {}

  lemma SkippedStacked(layers: seq<Layer>, order: seq<nat>, k: nat)
    requires k < |layers| && Stacked(layers, k, order) && !Drawn(layers, k)
    ensures Stacked(layers, k + 1, order)
  {}

  /** Inside a region the image shows the first `n` layers of an order, elsewhere what it showed before. */
  ghost predicate PaintedTo(before: Image, image: Image, region: Rect, layers: seq<Layer>, order: seq<nat>, n: nat,
                            clear: Color)
    requires ImagesValid(layers) && AllDrawn(layers, order) && n <= |order|
  {
    && before.Valid() && image.Valid() && before.width == image.width && before.height == image.height
    && forall x, y | before.Contains(x, y) ::
         image.At(x, y) == if region.Has(x, y) then Painted(layers, order, n, clear, x, y) else before.At(x, y)
  }

  lemma PaintStart(before: Image, image: Image, region: Rect, layers: seq<Layer>, order: seq<nat>, clear: Color)
    requires ImagesValid(layers) && AllDrawn(layers, order) && FilledWith(before, image, region, clear)
    ensures PaintedTo(before, image, region, layers, order, 0, clear)
  {}

  lemma PaintNext(before: Image, image: Image, image': Image, region: Rect, layers: seq<Layer>, order: seq<nat>,
                  n: nat, clear: Color)
    requires ImagesValid(layers) && AllDrawn(layers, order) && n < |order|
    requires PaintedTo(before, image, region, layers, order, n, clear)
    requires var l := layers[order[n]]; BlitOver(image, image', l.image, l.x, l.y, region)
    ensures PaintedTo(before, image', region, layers, order, n + 1, clear)
  {}

  /** Painting every layer over the damage repairs the scene. */
  lemma PaintRepairs(s: Scene, image: Image, order: seq<nat>, clear: Color)
    requires s.Valid() && s.damage.Dirty? && Stacked(s.layers, |s.layers|, order)
    requires PaintedTo(s.target, image, s.damage.rect, s.layers, order, |order|, clear)
    ensures Repaired(s, clear) == s.(target := image, damage := Clean)
  {
    hide Painted, Shown, Image.At, Repaired, Rect.Has;
    RepairedAt(s, clear, 0, 0);
    RepairedKeeps(s, clear);
    var t := Repaired(s, clear);
    forall x, y | s.target.Contains(x, y)
      ensures t.target.At(x, y) == image.At(x, y)
    {
      RepairedAt(s, clear, x, y);
      PaintedIsShown(s.layers, order, clear, x, y);
    }
    SameImage(t.target, image);
  }

  lemma RepairedKeeps(s: Scene, clear: Color)
    requires s.Valid()
    ensures var t := Repaired(s, clear);
      t.layers == s.layers && t.damage == Clean && t.target.width == s.target.width
        && t.target.height == s.target.height
    ensures s.damage.Clean? ==> Repaired(s, clear) == s
  {
    if s.damage.Clean? {
      var t := Repaired(s, clear);
      forall x, y | s.target.Contains(x, y)
        ensures t.target.At(x, y) == s.target.At(x, y)
      {
        RepairedAt(s, clear, x, y);
      }
      SameImage(t.target, s.target);
    }
  }

  /** Painting every layer over a cleared target renders the scene. */
  lemma PaintRenders(s: Scene, image: Image, order: seq<nat>, clear: Color)
    requires s.Valid() && Stacked(s.layers, |s.layers|, order)
    requires PaintedTo(s.target, image, Rect(0, 0, s.target.width, s.target.height), s.layers, order, |order|, clear)
    ensures Composed(s, clear) == s.(target := image, damage := Clean)
  {
    hide Painted, Shown, Image.At;
    ComposedAt(s, clear, 0, 0);
    var t := Composed(s, clear);
    forall x, y | s.target.Contains(x, y)
      ensures t.target.At(x, y) == image.At(x, y)
    {
      ComposedAt(s, clear, x, y);
      PaintedIsShown(s.layers, order, clear, x, y);
    }
    SameImage(t.target, image);
  }

  class Compositor {
    const target: Surface
    var slots: seq<Slot>
    var damage: Damage

    ghost predicate Valid()
      reads this
    {
      && target.Valid() && |slots| <= LAYER_CAPACITY && SlotsValid(slots)
      && target.pixels !in Buffers(slots)
      && OnScreen(damage, target.width, target.height)
    }

    ghost function View(): (s: Scene)
      requires Valid()
      reads this, target.pixels, Buffers(slots)
      ensures s.Valid()
    {
      Scene(target.View(), LayersOf(slots), damage)
    }

    constructor (target: Surface)
      requires target.Valid()
      ensures Valid() && this.target == target && View() == Scene(target.View(), [], Clean)
    {
      this.target, slots, damage := target, [], Clean;
    }

    /** A rectangle has changed. */
    method MarkDamage(x: int, y: int, width: nat, height: nat)
      requires Valid()
      modifies this
      ensures Valid() && slots == old(slots)
      ensures damage == Mark(old(damage), Rect(x, y, width, height), target.width, target.height)
    {
      hide SlotsValid, Fits, OnScreen, Around;
      if width == 0 || height == 0 {
        return;
      }
      var left, top := if x < 0 then 0 else x, if y < 0 then 0 else y;
      var right, bottom := x + width, y + height;
      if right > target.width {
        right := target.width;
      }
      if bottom > target.height {
        bottom := target.height;
      }
      if left >= right || top >= bottom {
        return;
      }
      ExtendDamage(left, top, right, bottom);
    }

    /** The damage takes in a rectangle of the screen. */
    method ExtendDamage(left: nat, top: nat, right: nat, bottom: nat)
      requires Valid() && left < right <= target.width && top < bottom <= target.height
      modifies this
      ensures Valid() && slots == old(slots)
      ensures damage == Dirty(var r := Rect(left, top, right - left, bottom - top);
                              if old(damage).Clean? then r else Around(old(damage).rect, r))
    {
      hide SlotsValid, Fits;
      if damage.Dirty? {
        var d := damage.rect;
        var damageRight, damageBottom := d.x + d.width, d.y + d.height;
        if left < d.x {
          d := d.(x := left);
        }
        if top < d.y {
          d := d.(y := top);
        }
        if right > damageRight {
          damageRight := right;
        }
        if bottom > damageBottom {
          damageBottom := bottom;
        }
        damage := Dirty(Rect(d.x, d.y, damageRight - d.x, damageBottom - d.y));
        return;
      }
      damage := Dirty(Rect(left, top, right - left, bottom - top));
    }

    method MarkLayer(k: nat)
      requires Valid() && k < |slots|
      modifies this
      ensures Valid() && slots == old(slots)
      ensures damage == Mark(old(damage), LayerOf(slots[k]).Area(), target.width, target.height)
    {
      var slot := slots[k];
      if slot.surface != null {
        MarkDamage(slot.x, slot.y, slot.surface.width, slot.surface.height);
      }
    }

    /** The surface can be shown: it is usable and is not the target itself. */
    ghost predicate Usable(surface: Surface) {
      surface.Valid() && surface.pixels != target.pixels
    }

    /** A slot is given new contents, and both what it showed and what it shows is marked. */
    method ReplaceSlot(k: nat, slot: Slot)
      requires Valid() && k < |slots| && (slot.surface != null ==> Usable(slot.surface))
      modifies this
      ensures Valid() && slots == old(slots)[k := slot]
      ensures View() == Replaced(old(View()), k, LayerOf(slot))
    {
      hide Fits, Mark, Snapshot, OnScreen, LayersOf;
      LayersUpdated(slots, k, slot);
      MarkLayer(k);
      slots := slots[k := slot];
      MarkLayer(k);
    }

    predicate LiveSlot(k: nat)
      reads this
    {
      k < |slots| && slots[k].surface != null
    }

    /** A new layer takes the first free slot. */
    method AddLayer(surface: Surface, x: int, y: int, z: nat) returns (layer: int)
      requires Valid() && Usable(surface)
      modifies this
      ensures Valid() && View() == Changed(old(View()), Add(surface.View(), x, y, z))
      ensures layer == if FirstFree(old(View()).layers) < LAYER_CAPACITY then FirstFree(old(View()).layers) else -1
      ensures layer < 0 ==> slots == old(slots)
      ensures layer >= 0 <==> FreeSlot(old(slots)) < LAYER_CAPACITY
      ensures layer >= 0 ==>
        layer == FreeSlot(old(slots)) && slots == WithSlot(old(slots), Slot(surface, x, y, z, true))
      ensures 0 <= layer < |old(slots)| ==>
        !old(LiveSlot(layer)) && slots == old(slots)[layer := Slot(surface, x, y, z, true)]
      ensures layer >= |old(slots)| ==> layer == |old(slots)| && slots == old(slots) + [Slot(surface, x, y, z, true)]
    {
      hide Fits, Mark, Snapshot, OnScreen, LayersOf, Replaced, Appended;
      var slot := Slot(surface, x, y, z, true);
      var k := FindFree();
      if k < |slots| {
        ReplaceSlot(k, slot);
        return k;
      }
      if k >= LAYER_CAPACITY {
        return -1;
      }
      AppendSlot(slot);
      return k;
    }

    /** The first free slot, or the number of slots. */
    method FindFree() returns (k: nat)
      requires Valid()
      ensures k == FirstFree(View().layers)
    {
      hide Fits, Snapshot, OnScreen, LayersOf;
      k := 0;
      while k < |slots| && slots[k].surface != null
        invariant k <= |slots|
        invariant forall j :: 0 <= j < k ==> slots[j].surface != null
      {
        k := k + 1;
      }
    }

    method AppendSlot(slot: Slot)
      requires Valid() && |slots| < LAYER_CAPACITY && slot.surface != null && Usable(slot.surface)
      modifies this
      ensures Valid() && slots == old(slots) + [slot]
      ensures View() == Appended(old(View()), LayerOf(slot))
    {
      hide Fits, Mark, Snapshot, OnScreen, LayersOf;
      LayersAppended(slots, slot);
      slots := slots + [slot];
      MarkLayer(|slots| - 1);
    }

    method RemoveLayer(k: nat) returns (ok: bool)
      requires Valid()
      modifies this
      ensures Valid() && ok == old(LiveSlot(k)) && View() == Changed(old(View()), Remove(k))
      ensures slots == if ok then old(slots)[k := old(slots)[k].(surface := null, visible := false)] else old(slots)
    {
      hide Fits, Mark, Snapshot, OnScreen, LayersOf, Replaced;
      ok := LiveSlot(k);
      if ok {
        ReplaceSlot(k, slots[k].(surface := null, visible := false));
      }
    }

    method SetPosition(k: nat, x: int, y: int) returns (ok: bool)
      requires Valid()
      modifies this
      ensures Valid() && ok == old(LiveSlot(k)) && View() == Changed(old(View()), Move(k, x, y))
      ensures slots == if ok then old(slots)[k := old(slots)[k].(x := x, y := y)] else old(slots)
    {
      hide Fits, Mark, Snapshot, OnScreen, LayersOf, Replaced;
      ok := LiveSlot(k);
      if ok {
        ReplaceSlot(k, slots[k].(x := x, y := y));
      }
    }

    method SetSurface(k: nat, surface: Surface) returns (ok: bool)
      requires Valid() && Usable(surface)
      modifies this
      ensures Valid() && ok == old(LiveSlot(k)) && View() == Changed(old(View()), Resurface(k, surface.View()))
      ensures slots == if ok then old(slots)[k := old(slots)[k].(surface := surface)] else old(slots)
    {
      hide Fits, Mark, Snapshot, OnScreen, LayersOf, Replaced;
      ok := LiveSlot(k);
      if ok {
        ReplaceSlot(k, slots[k].(surface := surface));
      }
    }

    method SetZ(k: nat, z: nat) returns (ok: bool)
      requires Valid()
      modifies this
      ensures Valid() && ok == old(LiveSlot(k)) && View() == Changed(old(View()), Restack(k, z))
      ensures slots == if ok then old(slots)[k := old(slots)[k].(z := z)] else old(slots)
    {
      hide Fits, Mark, Snapshot, OnScreen, LayersOf, Replaced;
      ok := LiveSlot(k);
      if ok {
        ReplaceSlot(k, slots[k].(z := z));
      }
    }

    method SetVisible(k: nat, visible: bool) returns (ok: bool)
      requires Valid()
      modifies this
      ensures Valid() && ok == old(LiveSlot(k)) && View() == Changed(old(View()), Show(k, visible))
      ensures slots == if ok then old(slots)[k := old(slots)[k].(visible := visible)] else old(slots)
    {
      hide Fits, Mark, Snapshot, OnScreen, LayersOf, Replaced;
      ok := LiveSlot(k);
      if ok {
        ReplaceSlot(k, slots[k].(visible := visible));
      }
    }

    method InvalidateLayer(k: nat) returns (ok: bool)
      requires Valid()
      modifies this
      ensures Valid() && ok == LiveSlot(k) && slots == old(slots) && View() == Changed(old(View()), Invalidate(k))
    {
      hide Fits, Mark, Snapshot, OnScreen, LayersOf;
      ok := LiveSlot(k);
      if ok {
        MarkLayer(k);
      }
    }

    // ---------------------------------------------------------- the painting order

    /** A slot goes into the order above every slot that is not above it. */
    method InsertAbove(order: array<nat>, count: nat, k: nat) returns (at: nat)
      requires count < order.Length && k < |slots| && forall i :: 0 <= i < count ==> order[i] < |slots|
      modifies order
      ensures at <= count && order[..count + 1] == old(order[..count])[..at] + [k] + old(order[..count])[at..]
      ensures forall i :: at <= i < count ==> slots[old(order[i])].z > slots[k].z
      ensures at > 0 ==> slots[old(order[at - 1])].z <= slots[k].z
    {
      hide Shifting, Higher;
      ghost var before := order[..count];
      at := count;
      NotShifted(before, order[..], count);
      NoneHigher(slots, before, slots[k].z);
      while at != 0 && slots[order[at - 1]].z > slots[k].z
        invariant at <= count
        invariant Shifting(before, order[..], at) && Higher(slots, before, at, slots[k].z)
        invariant forall i :: 0 <= i < at ==> order[i] == before[i]
      {
        ShiftOne(before, order[..], at);
        HigherNext(slots, before, at, slots[k].z);
        order[at] := order[at - 1];
        at := at - 1;
      }
      ShiftedIn(before, order[..], at, k);
      order[at] := k;
      assert order[..count + 1] == order[..][..count + 1];
      HigherAll(slots, before, at, slots[k].z);
    }

    /** The visible layers from the bottom up. */
    method PaintingOrder() returns (order: array<nat>, count: nat)
      requires Valid()
      ensures fresh(order) && count <= order.Length
      ensures Stacked(View().layers, |slots|, order[..count])
    {
      hide Fits, Snapshot, OnScreen, LayersOf, Under;
      order, count := new nat[LAYER_CAPACITY], 0;
      var k := 0;
      ghost var layers := View().layers;
      while k < |slots|
        invariant k <= |slots| && count <= k
        invariant View().layers == layers
        invariant Stacked(layers, k, order[..count])
      {
        if slots[k].surface != null && slots[k].visible {
          ghost var before := order[..count];
          var at := InsertAbove(order, count, k);
          InsertedStacked(layers, before, k, at);
          count := count + 1;
        } else {
          SkippedStacked(layers, order[..count], k);
        }
        k := k + 1;
      }
    }

    // ---------------------------------------------------------- drawing

    /** The layers of an order are drawn over a region that has been cleared. */
    method PaintLayers(order: array<nat>, count: nat, region: Rect, ghost before: Image, clear: Color)
      requires Valid() && count <= order.Length && region.width != 0 && region.height != 0
      requires Stacked(View().layers, |slots|, order[..count]) && FilledWith(before, target.View(), region, clear)
      modifies target.pixels
      ensures View().layers == old(View()).layers
      ensures PaintedTo(before, target.View(), region, View().layers, order[..count], count, clear)
      ensures MarginsKept(old(target.pixels[..]), target.pixels[..], target.width, target.pitch)
    {
      hide Fits, Snapshot, OnScreen, LayersOf, PaintedTo, FilledWith, BlitOver, MarginsKept, Image.Valid;
      ghost var layers, sequence := View().layers, order[..count];
      PaintStart(before, target.View(), region, layers, sequence, clear);
      MarginsSame(target.pixels[..], target.width, target.pitch);
      var position := 0;
      while position < count
        invariant position <= count && View().layers == layers && order[..count] == sequence
        invariant PaintedTo(before, target.View(), region, layers, sequence, position, clear)
        invariant MarginsKept(old(target.pixels[..]), target.pixels[..], target.width, target.pitch)
      {
        ghost var image, cells := target.View(), target.pixels[..];
        var slot := slots[order[position]];
        assert order[position] == sequence[position];
        var ok := target.BlitRegion(slot.surface, slot.x, slot.y, region);
        assert View().layers == layers;
        PaintNext(before, image, target.View(), region, layers, sequence, position, clear);
        MarginsChain(old(target.pixels[..]), cells, target.pixels[..], target.width, target.pitch);
        position := position + 1;
      }
    }

    /** Only the damage is redrawn. */
    method ComposeDamage(clear: Color) returns (ok: bool)
      requires Valid()
      modifies this, target.pixels
      ensures ok && Valid() && slots == old(slots) && View() == Repaired(old(View()), clear)
      ensures MarginsKept(old(target.pixels[..]), target.pixels[..], target.width, target.pitch)
    {
      hide Fits, Snapshot, LayersOf, PaintedTo, FilledWith, MarginsKept, Repaired, Stacked, Image.Valid;
      ghost var s := View();
      MarginsSame(target.pixels[..], target.width, target.pitch);
      if damage.Clean? {
        RepairedKeeps(s, clear);
        return true;
      }
      var d := damage.rect;
      var filled := target.FillRect(d.x, d.y, d.width, d.height, clear);
      ghost var cells := target.pixels[..];
      var order, count := PaintingOrder();
      PaintLayers(order, count, d, s.target, clear);
      MarginsChain(old(target.pixels[..]), cells, target.pixels[..], target.width, target.pitch);
      damage := Clean;
      PaintRepairs(s, target.View(), order[..count], clear);
      return true;
    }

    /** The whole target is redrawn. */
    method Compose(clear: Color) returns (ok: bool)
      requires Valid()
      modifies this, target.pixels
      ensures ok && Valid() && slots == old(slots) && View() == Composed(old(View()), clear)
      ensures MarginsKept(old(target.pixels[..]), target.pixels[..], target.width, target.pitch)
    {
      hide Fits, Snapshot, LayersOf, PaintedTo, FilledWith, MarginsKept, Composed, Stacked;
      ghost var s := View();
      var order, count := PaintingOrder();
      target.Clear(clear);
      ghost var cells := target.pixels[..];
      PaintLayers(order, count, Rect(0, 0, target.width, target.height), s.target, clear);
      MarginsChain(old(target.pixels[..]), cells, target.pixels[..], target.width, target.pitch);
      damage := Clean;
      PaintRenders(s, target.View(), order[..count], clear);
      return true;
    }
  }
}
