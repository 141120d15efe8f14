/** What a compositor's screen should show, and how damage tracks where it does not yet show it. */
module Scene {

  type Color = x: int | 0 <= x < 0x1_0000_0000

  const LAYER_CAPACITY := 16

  // ------------------------------------------------------------ images and rectangles

  /** A picture as rows of pixels. */
  datatype Image = Image(width: nat, height: nat, rows: seq<seq<Color>>) {
    predicate Valid() {
      width > 0 && height > 0 && |rows| == height && forall y :: 0 <= y < height ==> |rows[y]| == width
    }
    predicate Contains(x: int, y: int) {
      0 <= x < width && 0 <= y < height
    }
    function At(x: int, y: int): (c: Color)
      requires Valid() && Contains(x, y)
    {
      rows[y][x]
    }
  }

  /** Images are equal when they show the same. */
  lemma SameImage(a: Image, b: Image)
    requires a.Valid() && b.Valid() && a.width == b.width && a.height == b.height
    requires forall x, y :: a.Contains(x, y) ==> a.At(x, y) == b.At(x, y)
    ensures a == b
  {
    forall y | 0 <= y < a.height
      ensures a.rows[y] == b.rows[y]
    {
      forall x | 0 <= x < a.width
        ensures a.rows[y][x] == b.rows[y][x]
      {
        assert a.At(x, y) == b.At(x, y);
      }
    }
  }

  /** A half-open rectangle. */
  datatype Rect = Rect(x: int, y: int, width: nat, height: nat) {
    predicate Has(px: int, py: int) {
      x <= px < x + width && y <= py < y + height
    }
  }

  datatype Damage = Clean | Dirty(rect: Rect) {
    predicate Has(x: int, y: int) {
      Dirty? && rect.Has(x, y)
    }
  }

  function Min(a: int, b: int): (m: int) { if a < b then a else b }
  function Max(a: int, b: int): (m: int) { if a > b then a else b }

  /** The part of a rectangle on a screen of the given size, if any. */
  function Clip(r: Rect, width: nat, height: nat): (d: Damage) {
    var left, top, right, bottom := Max(r.x, 0), Max(r.y, 0), Min(r.x + r.width, width), Min(r.y + r.height, height);
    if r.width == 0 || r.height == 0 || left >= right || top >= bottom then Clean
    else Dirty(Rect(left, top, right - left, bottom - top))
  }

  /** The smallest rectangle around two. */
  function Around(a: Rect, b: Rect): (r: Rect) {
    var left, top := Min(a.x, b.x), Min(a.y, b.y);
    Rect(left, top, Max(a.x + a.width, b.x + b.width) - left, Max(a.y + a.height, b.y + b.height) - top)
  }

  /** Damage after a rectangle has changed. */
  function Mark(d: Damage, r: Rect, width: nat, height: nat): (d': Damage) {
    match Clip(r, width, height)
    case Clean => d
    case Dirty(c) => if d.Clean? then Dirty(c) else Dirty(Around(d.rect, c))
  }

  /** Damage stays on the screen and is never empty. */
  predicate OnScreen(d: Damage, width: nat, height: nat) {
    d.Dirty? ==>
      0 <= d.rect.x && 0 <= d.rect.y && 0 < d.rect.width && 0 < d.rect.height
      && d.rect.x + d.rect.width <= width && d.rect.y + d.rect.height <= height
  }

  /** Marking covers the old damage and every changed point on the screen. */
  lemma MarkCovers(d: Damage, r: Rect, width: nat, height: nat, x: int, y: int)
    requires OnScreen(d, width, height)
    ensures OnScreen(Mark(d, r, width, height), width, height)
    ensures d.Has(x, y) ==> Mark(d, r, width, height).Has(x, y)
    ensures r.Has(x, y) && 0 <= x < width && 0 <= y < height ==> Mark(d, r, width, height).Has(x, y)
  {}

  /** The marked rectangle is the smallest that covers both. */
  lemma MarkIsLeast(d: Damage, r: Rect, width: nat, height: nat, other: Rect, x: int, y: int)
    requires OnScreen(d, width, height)
    requires forall px, py :: d.Has(px, py) ==> other.Has(px, py)
    requires forall px, py :: Clip(r, width, height).Has(px, py) ==> other.Has(px, py)
    requires Mark(d, r, width, height).Has(x, y)
    ensures other.Has(x, y)
  {
    var c := Clip(r, width, height);
    if d.Dirty? {
      assert d.Has(d.rect.x, d.rect.y);
      assert d.Has(d.rect.x + d.rect.width - 1, d.rect.y + d.rect.height - 1);
    }
    if c.Dirty? {
      assert c.Has(c.rect.x, c.rect.y);
      assert c.Has(c.rect.x + c.rect.width - 1, c.rect.y + c.rect.height - 1);
    }
  }

  // ------------------------------------------------------------ layers

  /** A layer slot, as a value. */
  datatype Layer = Empty | Layer(image: Image, x: int, y: int, z: nat, visible: bool) {
    function Area(): (r: Rect) {
      if Empty? then Rect(0, 0, 0, 0) else Rect(x, y, image.width, image.height)
    }
    /** The layer shows at a point. */
    predicate Shows(px: int, py: int) {
      Layer? && visible && Area().Has(px, py)
    }
    function ColorAt(px: int, py: int): (c: Color)
      requires Shows(px, py) && image.Valid()
    {
      image.At(px - x, py - y)
    }
  }

  predicate ImagesValid(layers: seq<Layer>) {
    forall i :: 0 <= i < |layers| ==> layers[i].Layer? ==> layers[i].image.Valid()
  }

  /** The topmost layer at a point among the first `n`, or -1; of equal heights the later slot is on top. */
  function Top(layers: seq<Layer>, n: nat, x: int, y: int): (k: int)
    requires n <= |layers|
    ensures -1 <= k < n
    ensures k >= 0 ==> layers[k].Shows(x, y)
  {
    if n == 0 then -1
    else
      var k := Top(layers, n - 1, x, y);
      if layers[n - 1].Shows(x, y) && (k < 0 || layers[n - 1].z >= layers[k].z) then n - 1 else k
  }

  /** What a point of the screen should show. */
  function Shown(layers: seq<Layer>, clear: Color, x: int, y: int): (c: Color)
    requires ImagesValid(layers)
  {
    var k := Top(layers, |layers|, x, y);
    if k < 0 then clear else layers[k].ColorAt(x, y)
  }

  /** `k` is above every other layer showing at the point. */
  predicate Topmost(layers: seq<Layer>, n: nat, x: int, y: int, k: int)
    requires n <= |layers|
  {
    && 0 <= k < n && layers[k].Shows(x, y)
    && forall j :: 0 <= j < n && layers[j].Shows(x, y) ==>
      layers[j].z < layers[k].z || (layers[j].z == layers[k].z && j <= k)
  }

  lemma {:induction false} TopIsTopmost(layers: seq<Layer>, n: nat, x: int, y: int)
    requires n <= |layers|
    ensures var k := Top(layers, n, x, y);
      if k < 0 then forall j :: 0 <= j < n ==> !layers[j].Shows(x, y) else Topmost(layers, n, x, y, k)
  {
    if n > 0 {
      TopIsTopmost(layers, n - 1, x, y);
    }
  }

  /** Changing a slot that shows nothing at a point, before and after, does not change the point. */
  lemma {:induction false} TopLocal(layers: seq<Layer>, k: nat, l: Layer, n: nat, x: int, y: int)
    requires k < |layers| && n <= |layers| && !layers[k].Shows(x, y) && !l.Shows(x, y)
    ensures Top(layers[k := l], n, x, y) == Top(layers, n, x, y)
  {
    if n > 0 {
      TopLocal(layers, k, l, n - 1, x, y);
    }
  }

  lemma {:induction false} TopPrefix(layers: seq<Layer>, more: seq<Layer>, n: nat, x: int, y: int)
    requires n <= |layers|
    ensures Top(layers + more, n, x, y) == Top(layers, n, x, y)
  {
    if n > 0 {
      TopPrefix(layers, more, n - 1, x, y);
    }
  }

  lemma ShownLocal(layers: seq<Layer>, k: nat, l: Layer, clear: Color, x: int, y: int)
    requires k < |layers| && ImagesValid(layers) && (l.Layer? ==> l.image.Valid())
    requires !layers[k].Shows(x, y) && !l.Shows(x, y)
    ensures ImagesValid(layers[k := l]) && Shown(layers[k := l], clear, x, y) == Shown(layers, clear, x, y)
  {
    TopLocal(layers, k, l, |layers|, x, y);
  }

  lemma ShownAppend(layers: seq<Layer>, l: Layer, clear: Color, x: int, y: int)
    requires ImagesValid(layers) && l.Layer? && l.image.Valid() && !l.Shows(x, y)
    ensures ImagesValid(layers + [l]) && Shown(layers + [l], clear, x, y) == Shown(layers, clear, x, y)
  {
    TopPrefix(layers, [l], |layers|, x, y);
  }

  // ------------------------------------------------------------ scenes

  datatype Scene = Scene(target: Image, layers: seq<Layer>, damage: Damage) {
    predicate Valid() {
      target.Valid() && |layers| <= LAYER_CAPACITY && ImagesValid(layers)
        && OnScreen(damage, target.width, target.height)
    }
    function Marked(r: Rect): (s: Scene) {
      this.(damage := Mark(damage, r, target.width, target.height))
    }
    /** A slot that holds a layer. */
    predicate Live(k: nat) {
      k < |layers| && layers[k].Layer?
    }
  }

  /** Outside the damage the target already shows what it should. */
  ghost predicate Coherent(s: Scene, clear: Color)
    requires s.Valid()
  {
    forall x, y :: s.target.Contains(x, y) && !s.damage.Has(x, y) ==> s.target.At(x, y) == Shown(s.layers, clear, x, y)
  }

  /** Replacing a slot, with the damage that every mutator records. */
  function Replaced(s: Scene, k: nat, l: Layer): (s': Scene)
    requires k < |s.layers|
  {
    s.Marked(s.layers[k].Area()).(layers := s.layers[k := l]).Marked(l.Area())
  }

  /** A new slot at the end. */
  function Appended(s: Scene, l: Layer): (s': Scene) {
    s.(layers := s.layers + [l]).Marked(l.Area())
  }

  lemma ReplacedCoherent(s: Scene, k: nat, l: Layer, clear: Color)
    requires s.Valid() && k < |s.layers| && Coherent(s, clear) && (l.Layer? ==> l.image.Valid())
    ensures Replaced(s, k, l).Valid() && Coherent(Replaced(s, k, l), clear)
  {
    hide Mark, Shown, Image.At;
    var s' := Replaced(s, k, l);
    var middle := Mark(s.damage, s.layers[k].Area(), s.target.width, s.target.height);
    MarkCovers(s.damage, s.layers[k].Area(), s.target.width, s.target.height, 0, 0);
    MarkCovers(middle, l.Area(), s.target.width, s.target.height, 0, 0);
    forall x, y | s.target.Contains(x, y) && !s'.damage.Has(x, y)
      ensures s.target.At(x, y) == Shown(s'.layers, clear, x, y)
    {
      MarkCovers(s.damage, s.layers[k].Area(), s.target.width, s.target.height, x, y);
      MarkCovers(middle, l.Area(), s.target.width, s.target.height, x, y);
      ShownLocal(s.layers, k, l, clear, x, y);
    }
  }

  lemma AppendedCoherent(s: Scene, l: Layer, clear: Color)
    requires s.Valid() && |s.layers| < LAYER_CAPACITY && Coherent(s, clear) && l.Layer? && l.image.Valid()
    ensures Appended(s, l).Valid() && Coherent(Appended(s, l), clear)
  {
    hide Mark, Shown, Image.At;
    var s' := Appended(s, l);
    MarkCovers(s.damage, l.Area(), s.target.width, s.target.height, 0, 0);
    forall x, y | s.target.Contains(x, y) && !s'.damage.Has(x, y)
      ensures s.target.At(x, y) == Shown(s'.layers, clear, x, y)
    {
      MarkCovers(s.damage, l.Area(), s.target.width, s.target.height, x, y);
      ShownAppend(s.layers, l, clear, x, y);
    }
  }

  lemma MarkedCoherent(s: Scene, r: Rect, clear: Color)
    requires s.Valid() && Coherent(s, clear)
    ensures s.Marked(r).Valid() && Coherent(s.Marked(r), clear)
  {}

  // ------------------------------------------------------------ drawing

  /** The image that shows every layer. */
  function Rendered(layers: seq<Layer>, clear: Color, width: nat, height: nat): (i: Image)
    requires ImagesValid(layers)
  {
    Image(width, height, seq(height, y => seq(width, x => Shown(layers, clear, x, y))))
  }

  /** A full redraw. */
  function Composed(s: Scene, clear: Color): (s': Scene)
    requires s.Valid()
  {
    s.(target := Rendered(s.layers, clear, s.target.width, s.target.height), damage := Clean)
  }

  /** A redraw of the damage alone. */
  function Repaired(s: Scene, clear: Color): (s': Scene)
    requires s.Valid()
  {
    s.(target := Image(s.target.width, s.target.height,
                       seq(s.target.height, y requires 0 <= y < s.target.height =>
                           seq(s.target.width, x requires 0 <= x < s.target.width =>
                         if s.damage.Has(x, y) then Shown(s.layers, clear, x, y) else s.target.At(x, y)))),
       damage := Clean)
  }

  /** Redrawing only the damage shows what a full redraw shows, exactly when the scene was coherent. */
  lemma RepairIsFullRedraw(s: Scene, clear: Color)
    requires s.Valid()
    ensures Repaired(s, clear) == Composed(s, clear) <==> Coherent(s, clear)
  {
    hide Shown, Damage.Has;
    var a, b := Repaired(s, clear), Composed(s, clear);
    if Coherent(s, clear) {
      forall x, y | a.target.Contains(x, y)
        ensures a.target.At(x, y) == b.target.At(x, y)
      {
        RepairedAt(s, clear, x, y);
        ComposedAt(s, clear, x, y);
      }
      SameImage(a.target, b.target);
    }
    if a == b {
      forall x, y | s.target.Contains(x, y) && !s.damage.Has(x, y)
        ensures s.target.At(x, y) == Shown(s.layers, clear, x, y)
      {
        RepairedAt(s, clear, x, y);
        ComposedAt(s, clear, x, y);
      }
    }
  }

  lemma RepairedAt(s: Scene, clear: Color, x: int, y: int)
    requires s.Valid() && s.target.Contains(x, y)
    ensures var t := Repaired(s, clear).target;
      t.Valid() && t.Contains(x, y)
      && t.At(x, y) == if s.damage.Has(x, y) then Shown(s.layers, clear, x, y) else s.target.At(x, y)
  {}

  lemma ComposedAt(s: Scene, clear: Color, x: int, y: int)
    requires s.Valid() && s.target.Contains(x, y)
    ensures var t := Composed(s, clear).target;
      t.Valid() && t.Contains(x, y) && t.At(x, y) == Shown(s.layers, clear, x, y)
  {}

  lemma ComposedCoherent(s: Scene, clear: Color)
    requires s.Valid()
    ensures Composed(s, clear).Valid() && Coherent(Composed(s, clear), clear)
  {}

  // ------------------------------------------------------------ painting from the bottom up

  /** Slot `a` lies under slot `b`. */
  predicate Under(layers: seq<Layer>, a: nat, b: nat)
    requires a < |layers| && b < |layers| && layers[a].Layer? && layers[b].Layer?
  {
    layers[a].z < layers[b].z || (layers[a].z == layers[b].z && a < b)
  }

  predicate Drawn(layers: seq<Layer>, k: nat) {
    k < |layers| && layers[k].Layer? && layers[k].visible
  }

  predicate AllDrawn(layers: seq<Layer>, order: seq<nat>) {
    forall i :: 0 <= i < |order| ==> order[i] < |layers| && layers[order[i]].Layer? && layers[order[i]].visible
  }

  /** An order lists the visible layers among the first `n`, from the bottom up. */
  ghost predicate Stacked(layers: seq<Layer>, n: nat, order: seq<nat>) {
    && AllDrawn(layers, order)
    && (forall i :: 0 <= i < |order| ==> order[i] < n)
    && (forall i, j :: 0 <= i < j < |order| ==> Under(layers, order[i], order[j]))
    && (forall k: nat :: k < n && Drawn(layers, k) ==> k in order)
  }

  /** A point after the first `n` layers of an order have been painted. */
  function Painted(layers: seq<Layer>, order: seq<nat>, n: nat, under: Color, x: int, y: int): (c: Color)
    requires n <= |order| && ImagesValid(layers)
    requires AllDrawn(layers, order)
  {
    if n == 0 then under
    else if layers[order[n - 1]].Shows(x, y) then layers[order[n - 1]].ColorAt(x, y)
    else Painted(layers, order, n - 1, under, x, y)
  }

  /** The last of the first `n` layers of an order that shows at a point. */
  lemma {:induction false} PaintedLast(layers: seq<Layer>, order: seq<nat>, n: nat, under: Color, x: int, y: int)
    returns (last: int)
    requires n <= |order| && ImagesValid(layers)
    requires AllDrawn(layers, order)
    ensures -1 <= last < n
    ensures last >= 0 ==> layers[order[last]].Shows(x, y)
    ensures forall i :: last < i < n ==> !layers[order[i]].Shows(x, y)
    ensures Painted(layers, order, n, under, x, y) == if last < 0 then under else layers[order[last]].ColorAt(x, y)
  {
    if n == 0 {
      last := -1;
    } else if layers[order[n - 1]].Shows(x, y) {
      last := n - 1;
    } else {
      last := PaintedLast(layers, order, n - 1, under, x, y);
    }
  }

  lemma TopmostUnique(layers: seq<Layer>, x: int, y: int, a: int, b: int)
    requires Topmost(layers, |layers|, x, y, a) && Topmost(layers, |layers|, x, y, b)
    ensures a == b
  {}

  /** Painting from the bottom up shows the topmost layer everywhere. */
  lemma PaintedIsShown(layers: seq<Layer>, order: seq<nat>, clear: Color, x: int, y: int)
    requires ImagesValid(layers) && Stacked(layers, |layers|, order)
    ensures Painted(layers, order, |order|, clear, x, y) == Shown(layers, clear, x, y)
  {
    hide Painted, Layer.ColorAt;
    var last := PaintedLast(layers, order, |order|, clear, x, y);
    TopIsTopmost(layers, |layers|, x, y);
    var k := Top(layers, |layers|, x, y);
    assert k >= 0 ==> Drawn(layers, k);
    if last >= 0 {
      forall j | 0 <= j < |layers| && layers[j].Shows(x, y)
        ensures layers[j].z < layers[order[last]].z || (layers[j].z == layers[order[last]].z && j <= order[last])
      {
        assert Drawn(layers, j);
        var i :| 0 <= i < |order| && order[i] == j;
      }
      assert Topmost(layers, |layers|, x, y, order[last]);
      TopmostUnique(layers, x, y, k, order[last]);
    }
  }

  /** Putting the next slot above everything not above it keeps an order stacked. */
  lemma StackedInsert(layers: seq<Layer>, order: seq<nat>, n: nat, at: nat)
    requires n < |layers| && Stacked(layers, n, order) && Drawn(layers, n) && at <= |order|
    requires forall i :: 0 <= i < at ==> layers[order[i]].z <= layers[n].z
    requires forall i :: at <= i < |order| ==> layers[order[i]].z > layers[n].z
    ensures Stacked(layers, n + 1, order[..at] + [n] + order[at..])
  {}

  // ------------------------------------------------------------ operations and runs

  /** The first free slot, or the number of slots. */
  function FirstFree(layers: seq<Layer>): (k: nat)
    ensures k <= |layers| && (k < |layers| ==> layers[k].Empty?)
    ensures forall j :: 0 <= j < k ==> layers[j].Layer?
  {
    if layers == [] || layers[0].Empty? then 0 else 1 + FirstFree(layers[1..])
  }

  /** A new layer takes the first free slot, or a slot at the end if there is room. */
  function Added(s: Scene, l: Layer): (s': Scene) {
    var k := FirstFree(s.layers);
    if k < |s.layers| then Replaced(s, k, l)
    else if |s.layers| < LAYER_CAPACITY then Appended(s, l)
    else s
  }

  datatype Change =
    | Add(image: Image, x: int, y: int, z: nat)
    | Remove(k: nat)
    | Move(k: nat, x: int, y: int)
    | Resurface(k: nat, image: Image)
    | Restack(k: nat, z: nat)
    | Show(k: nat, visible: bool)
    | Invalidate(k: nat)
    | Redraw(k: nat, image: Image)

  /** What a change makes of a live slot. */
  function Altered(l: Layer, c: Change): (l': Layer)
    requires l.Layer?
  {
    match c
    case Remove(_) => Empty
    case Move(_, x, y) => l.(x := x, y := y)
    case Resurface(_, image) => l.(image := image)
    case Redraw(_, image) => l.(image := image)
    case Restack(_, z) => l.(z := z)
    case Show(_, visible) => l.(visible := visible)
    case _ => l
  }

  /** The change addresses a live slot, with a usable image if it brings one; redrawing keeps the size. */
  predicate Applies(s: Scene, c: Change)
    requires !c.Add?
  {
    && s.Live(c.k)
    && (c.Resurface? || c.Redraw? ==> c.image.Valid())
    && (c.Redraw? ==> c.image.width == s.layers[c.k].image.width && c.image.height == s.layers[c.k].image.height)
  }

  function Changed(s: Scene, c: Change): (s': Scene) {
    match c
    case Add(image, x, y, z) => if image.Valid() then Added(s, Layer(image, x, y, z, true)) else s
    case Invalidate(k) => if Applies(s, c) then s.Marked(s.layers[k].Area()) else s
    case _ => if Applies(s, c) then Replaced(s, c.k, Altered(s.layers[c.k], c)) else s
  }

  lemma ChangedCoherent(s: Scene, c: Change, clear: Color)
    requires s.Valid() && Coherent(s, clear)
    ensures Changed(s, c).Valid() && Coherent(Changed(s, c), clear)
  {
    hide Coherent, Replaced, Appended, Shown;
    match c
    case Add(image, x, y, z) =>
      if image.Valid() {
        var l, k := Layer(image, x, y, z, true), FirstFree(s.layers);
        if k < |s.layers| {
          ReplacedCoherent(s, k, l, clear);
        } else if |s.layers| < LAYER_CAPACITY {
          AppendedCoherent(s, l, clear);
        }
      }
    case Invalidate(k) =>
      if Applies(s, c) {
        MarkedCoherent(s, s.layers[k].Area(), clear);
      }
    case _ =>
      if Applies(s, c) {
        ReplacedCoherent(s, c.k, Altered(s.layers[c.k], c), clear);
      }
  }

  /** Drawing into a layer's surface and then invalidating the layer is one change. */
  lemma RedrawThenInvalidate(s: Scene, k: nat, image: Image)
    requires s.Valid() && Applies(s, Redraw(k, image))
    ensures Changed(s.(layers := s.layers[k := s.layers[k].(image := image)]), Invalidate(k))
      == Changed(s, Redraw(k, image))
  {}

  datatype Event = Alter(change: Change) | Compose | ComposeDamage

  function Step(s: Scene, e: Event, clear: Color): (s': Scene)
    requires s.Valid()
  {
    match e
    case Alter(change) => Changed(s, change)
    case Compose => Composed(s, clear)
    case ComposeDamage => Repaired(s, clear)
  }

  lemma StepCoherent(s: Scene, e: Event, clear: Color)
    requires s.Valid() && Coherent(s, clear)
    ensures Step(s, e, clear).Valid() && Coherent(Step(s, e, clear), clear)
  {
    hide Coherent, Changed, Repaired, Composed;
    match e
    case Alter(change) => ChangedCoherent(s, change, clear);
    case Compose => ComposedCoherent(s, clear);
    case ComposeDamage =>
      RepairIsFullRedraw(s, clear);
      ComposedCoherent(s, clear);
  }

  /** A run of operations, all drawing on the same background. */
  ghost function Run(s: Scene, events: seq<Event>, clear: Color): (s': Scene)
    requires s.Valid() && Coherent(s, clear)
    ensures s'.Valid() && Coherent(s', clear)
    decreases |events|
  {
    if events == [] then s else
    StepCoherent(s, events[0], clear);
    Run(Step(s, events[0], clear), events[1..], clear)
  }

  /** After one full redraw, whatever is done to the layers, repairing the damage gives the picture
      that a full redraw would give. */
  lemma DamageRedrawIsExact(s: Scene, events: seq<Event>, clear: Color)
    requires s.Valid()
    ensures Composed(s, clear).Valid() && Coherent(Composed(s, clear), clear)
    ensures var end := Run(Composed(s, clear), events, clear);
      Repaired(end, clear) == Composed(end, clear)
  {
    hide Coherent, Repaired, Composed, Run;
    ComposedCoherent(s, clear);
    RepairIsFullRedraw(Run(Composed(s, clear), events, clear), clear);
  }
}
