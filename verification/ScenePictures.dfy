/** What the changes to layers do to the picture, point by point. */
module ScenePictures {
  import opened Scene

  /** A layer's rectangle reaches over a point, and the layer is to be seen. */
  predicate Reaches(l: Layer, px: int, py: int) {
    l.Layer? && l.visible && l.x <= px < l.x + l.image.width && l.y <= py < l.y + l.image.height
  }

  /** A point shows the pixel of the layer with the greatest height there, the last of equals. */
  lemma ShowsHighest(layers: seq<Layer>, clear: Color, k: nat, px: int, py: int)
    requires ImagesValid(layers) && k < |layers| && Reaches(layers[k], px, py)
    requires forall j | 0 <= j < |layers| && j != k && Reaches(layers[j], px, py) ::
      layers[j].z < layers[k].z || (layers[j].z == layers[k].z && j < k)
    ensures py - layers[k].y < |layers[k].image.rows| && px - layers[k].x < |layers[k].image.rows[py - layers[k].y]|
    ensures Shown(layers, clear, px, py) == layers[k].image.rows[py - layers[k].y][px - layers[k].x]
  {
    hide Top;
    TopIsTopmost(layers, |layers|, px, py);
    var top := Top(layers, |layers|, px, py);
    assert top >= 0 ==> Reaches(layers[top], px, py);
    assert layers[k].Shows(px, py);
  }

  /** Where no layer reaches, the background shows. */
  lemma ShowsBackground(layers: seq<Layer>, clear: Color, px: int, py: int)
    requires ImagesValid(layers) && forall j :: 0 <= j < |layers| ==> !Reaches(layers[j], px, py)
    ensures Shown(layers, clear, px, py) == clear
  {
    hide Top;
    var top := Top(layers, |layers|, px, py);
    assert top >= 0 ==> Reaches(layers[top], px, py);
  }

  /** The picture of a full redraw. */
  function Picture(s: Scene, clear: Color): (i: Image)
    requires s.Valid()
  {
    Composed(s, clear).target
  }

  /** A layer that is to be seen and higher than all others. */
  predicate Front(s: Scene, k: nat) {
    && s.Live(k) && s.layers[k].visible
    && forall j :: 0 <= j < |s.layers| && j != k && s.layers[j].Layer? ==> s.layers[j].z < s.layers[k].z
  }

  /** The picture of a front layer's image at a place, over what there is without the layer. */
  predicate InFront(s: Scene, k: nat, image: Image, x: int, y: int, clear: Color, picture: Image)
    requires s.Valid() && k < |s.layers| && image.Valid()
  {
    && picture.Valid() && picture.width == s.target.width && picture.height == s.target.height
    && forall px: nat, py: nat | px < picture.width && py < picture.height ::
      picture.rows[py][px] == if x <= px < x + image.width && y <= py < y + image.height then image.rows[py - y][px - x]
        else Shown(s.layers[k := Empty], clear, px, py)
  }

  lemma FrontPoint(layers: seq<Layer>, k: nat, l: Layer, clear: Color, px: int, py: int)
    requires ImagesValid(layers) && k < |layers| && l.Layer? && l.visible && l.image.Valid()
    requires forall j :: 0 <= j < |layers| && j != k && layers[j].Layer? ==> layers[j].z < l.z
    ensures ImagesValid(layers[k := l]) && ImagesValid(layers[k := Empty])
    ensures Shown(layers[k := l], clear, px, py)
         == if l.x <= px < l.x + l.image.width && l.y <= py < l.y + l.image.height then l.image.rows[py - l.y][px - l.x]
            else Shown(layers[k := Empty], clear, px, py)
  {
    hide Shown;
    var layers' := layers[k := l];
    if Reaches(l, px, py) {
      ShowsHighest(layers', clear, k, px, py);
    } else {
      ShownLocal(layers', k, Empty, clear, px, py);
      assert layers'[k := Empty] == layers[k := Empty];
    }
  }

  lemma FrontPicture(s: Scene, s': Scene, k: nat, l: Layer, clear: Color)
    requires s.Valid() && s'.Valid() && k < |s.layers| && l.Layer? && l.visible && l.image.Valid()
    requires forall j :: 0 <= j < |s.layers| && j != k && s.layers[j].Layer? ==> s.layers[j].z < l.z
    requires s'.layers == s.layers[k := l] && s'.target == s.target
    ensures InFront(s, k, l.image, l.x, l.y, clear, Picture(s', clear))
  {
    hide Shown;
    var picture := Picture(s', clear);
    forall px: nat, py: nat | px < picture.width && py < picture.height
      ensures picture.rows[py][px] == Shown(s'.layers, clear, px, py)
      ensures picture.rows[py][px]
           == if l.x <= px < l.x + l.image.width && l.y <= py < l.y + l.image.height
             then l.image.rows[py - l.y][px - l.x]
              else Shown(s.layers[k := Empty], clear, px, py)
    {
      FrontPoint(s.layers, k, l, clear, px, py);
    }
  }

  lemma StaysValid(s: Scene, c: Change)
    requires s.Valid() && !c.Add? && !c.Invalidate? && Applies(s, c)
    ensures var s' := Changed(s, c);
      s'.Valid() && s'.layers == s.layers[c.k := Altered(s.layers[c.k], c)] && s'.target == s.target
  {
    hide Mark;
    var middle := Mark(s.damage, s.layers[c.k].Area(), s.target.width, s.target.height);
    MarkCovers(s.damage, s.layers[c.k].Area(), s.target.width, s.target.height, 0, 0);
    MarkCovers(middle, Altered(s.layers[c.k], c).Area(), s.target.width, s.target.height, 0, 0);
  }

  /** Moving the front layer moves its image there and uncovers what was under it. */
  lemma MoveMovesPicture(s: Scene, k: nat, x: int, y: int, clear: Color)
    requires s.Valid() && Front(s, k)
    ensures var s' := Changed(s, Move(k, x, y));
      s'.Valid() && InFront(s, k, s.layers[k].image, x, y, clear, Picture(s', clear))
  {
    hide InFront, Picture, Changed;
    StaysValid(s, Move(k, x, y));
    FrontPicture(s, Changed(s, Move(k, x, y)), k, s.layers[k].(x := x, y := y), clear);
  }

  /** Giving it another surface, or drawing on its own, shows the new image in its place. */
  lemma ResurfaceShowsImage(s: Scene, k: nat, image: Image, clear: Color)
    requires s.Valid() && Front(s, k) && image.Valid()
    ensures var s' := Changed(s, Resurface(k, image));
      s'.Valid() && InFront(s, k, image, s.layers[k].x, s.layers[k].y, clear, Picture(s', clear))
    ensures image.width == s.layers[k].image.width && image.height == s.layers[k].image.height ==>
      var s' := Changed(s, Redraw(k, image));
      s'.Valid() && InFront(s, k, image, s.layers[k].x, s.layers[k].y, clear, Picture(s', clear))
  {
    hide InFront, Picture, Changed;
    StaysValid(s, Resurface(k, image));
    FrontPicture(s, Changed(s, Resurface(k, image)), k, s.layers[k].(image := image), clear);
    if image.width == s.layers[k].image.width && image.height == s.layers[k].image.height {
      StaysValid(s, Redraw(k, image));
      FrontPicture(s, Changed(s, Redraw(k, image)), k, s.layers[k].(image := image), clear);
    }
  }

  /** A layer raised above all others is wholly to be seen, and one shown again stands where it stood. */
  lemma RaisedIsSeen(s: Scene, k: nat, z: nat, clear: Color)
    requires s.Valid() && s.Live(k)
    requires forall j :: 0 <= j < |s.layers| && j != k && s.layers[j].Layer? ==> s.layers[j].z < z
    ensures s.layers[k].visible ==>
      var s' := Changed(s, Restack(k, z));
      s'.Valid() && InFront(s, k, s.layers[k].image, s.layers[k].x, s.layers[k].y, clear, Picture(s', clear))
    ensures s.layers[k].z == z ==>
      var s' := Changed(s, Show(k, true));
      s'.Valid() && InFront(s, k, s.layers[k].image, s.layers[k].x, s.layers[k].y, clear, Picture(s', clear))
  {
    hide InFront, Picture, Changed;
    if s.layers[k].visible {
      StaysValid(s, Restack(k, z));
      FrontPicture(s, Changed(s, Restack(k, z)), k, s.layers[k].(z := z), clear);
    }
    if s.layers[k].z == z {
      StaysValid(s, Show(k, true));
      FrontPicture(s, Changed(s, Show(k, true)), k, s.layers[k].(visible := true), clear);
    }
  }

  /** Hiding a layer and removing it give the same picture: the one without the layer. */
  lemma HiddenLeavesPicture(s: Scene, k: nat, clear: Color, px: nat, py: nat)
    requires s.Valid() && s.Live(k) && px < s.target.width && py < s.target.height
    ensures ImagesValid(s.layers[k := Empty])
    ensures var hidden, removed := Changed(s, Show(k, false)), Changed(s, Remove(k));
      && hidden.Valid() && removed.Valid()
      && Picture(hidden, clear).rows[py][px] == Picture(removed, clear).rows[py][px]
      && Picture(removed, clear).rows[py][px] == Shown(s.layers[k := Empty], clear, px, py)
  {
    hide Shown, Changed;
    StaysValid(s, Show(k, false));
    StaysValid(s, Remove(k));
    var hidden := Changed(s, Show(k, false));
    ShownLocal(hidden.layers, k, Empty, clear, px, py);
    assert hidden.layers[k := Empty] == s.layers[k := Empty];
  }

  /** A layer added above all others, while fewer than sixteen slots are taken, shows its image in its place. */
  lemma AddShowsImage(s: Scene, image: Image, x: int, y: int, z: nat, clear: Color, px: nat, py: nat)
    requires s.Valid() && image.Valid() && px < s.target.width && py < s.target.height
    requires |s.layers| < 16 || exists j :: 0 <= j < |s.layers| && s.layers[j].Empty?
    requires forall j :: 0 <= j < |s.layers| && s.layers[j].Layer? ==> s.layers[j].z < z
    ensures var s' := Changed(s, Add(image, x, y, z));
      && s'.Valid()
      && Picture(s', clear).rows[py][px]
         == if x <= px < x + image.width && y <= py < y + image.height then image.rows[py - y][px - x]
            else Shown(s.layers, clear, px, py)
  {
    hide Shown, Mark;
    var l, k, s' := Layer(image, x, y, z, true), FirstFree(s.layers), Changed(s, Add(image, x, y, z));
    MarkCovers(s.damage, l.Area(), s.target.width, s.target.height, 0, 0);
    if k < |s.layers| {
      EmptyMarks(s);
      assert s'.layers == s.layers[k := l] && s.layers[k := Empty] == s.layers;
      FrontPoint(s.layers, k, l, clear, px, py);
    } else {
      assert s'.layers == s.layers + [l];
      AppendedPoint(s.layers, l, clear, px, py);
    }
  }

  lemma EmptyMarks(s: Scene)
    ensures Mark(s.damage, Rect(0, 0, 0, 0), s.target.width, s.target.height) == s.damage
  {}

  lemma AppendedPoint(layers: seq<Layer>, l: Layer, clear: Color, px: int, py: int)
    requires ImagesValid(layers) && l.Layer? && l.visible && l.image.Valid()
    requires forall j :: 0 <= j < |layers| && layers[j].Layer? ==> layers[j].z < l.z
    ensures ImagesValid(layers + [l])
    ensures Shown(layers + [l], clear, px, py)
         == if l.x <= px < l.x + l.image.width && l.y <= py < l.y + l.image.height then l.image.rows[py - l.y][px - l.x]
            else Shown(layers, clear, px, py)
  {
    hide Shown;
    if Reaches(l, px, py) {
      ShowsHighest(layers + [l], clear, |layers|, px, py);
    } else {
      ShownAppend(layers, l, clear, px, py);
    }
  }
}
