/** Pixel surfaces: rows of pixels in one buffer, `pitch` apart. */
module Surfaces {
  import opened Scene

  // ------------------------------------------------------------ rows in a buffer

  /** A buffer holds an image of the given size. */
  predicate Fits(n: nat, width: nat, height: nat, pitch: nat) {
    0 < width <= pitch && 0 < height && (height - 1) * pitch + width <= n
  }

  function Index(pitch: nat, x: nat, y: nat): (i: nat) {
    y * pitch + x
  }

  lemma RowsAscend(pitch: nat, y: nat, y': nat)
    requires y < y'
    ensures y * pitch + pitch <= y' * pitch
  {
    assert y' * pitch == y * pitch + pitch + (y' - y - 1) * pitch;
  }

  lemma IndexInside(n: nat, width: nat, height: nat, pitch: nat, x: nat, y: nat)
    requires Fits(n, width, height, pitch) && x <= width && y < height
    ensures Index(pitch, x, y) <= n
    ensures x < width ==> Index(pitch, x, y) < n
  {}

  function Row(s: seq<Color>, width: nat, height: nat, pitch: nat, y: nat): (r: seq<Color>)
    requires Fits(|s|, width, height, pitch) && y < height
    ensures |r| == width
  {
    IndexInside(|s|, width, height, pitch, width, y);
    s[Index(pitch, 0, y)..Index(pitch, width, y)]
  }

  /** What a buffer shows. */
  function Snapshot(s: seq<Color>, width: nat, height: nat, pitch: nat): (i: Image)
    requires Fits(|s|, width, height, pitch)
    ensures i.Valid() && i.width == width && i.height == height
  {
    hide Index, Row, Fits;
    Image(width, height, seq(height, y requires 0 <= y < height => Row(s, width, height, pitch, y)))
  }

  lemma SnapshotAt(s: seq<Color>, width: nat, height: nat, pitch: nat, x: nat, y: nat)
    requires Fits(|s|, width, height, pitch) && x < width && y < height
    ensures Index(pitch, x, y) < |s| && Snapshot(s, width, height, pitch).At(x, y) == s[Index(pitch, x, y)]
  {
    IndexInside(|s|, width, height, pitch, width, y);
  }

  // ------------------------------------------------------------ writing a block of rows

  function Splice(s: seq<Color>, at: nat, row: seq<Color>): (r: seq<Color>)
    requires at + |row| <= |s|
    ensures |r| == |s|
    ensures forall i :: 0 <= i < |s| ==> r[i] == if at <= i < at + |row| then row[i - at] else s[i]
  {
    s[..at] + row + s[at + |row|..]
  }

  /** Room for `count` rows of `n` pixels from `at`. */
  predicate Room(size: nat, at: nat, pitch: nat, n: nat, count: nat)
    decreases count
  {
    count == 0 || (at + n <= size && Room(size, at + pitch, pitch, n, count - 1))
  }

  predicate Uniform(rows: seq<seq<Color>>, n: nat) {
    forall i :: 0 <= i < |rows| ==> |rows[i]| == n
  }

  /** A buffer after a block of rows has been written. */
  function RowsPut(s: seq<Color>, at: nat, pitch: nat, n: nat, rows: seq<seq<Color>>): (r: seq<Color>)
    requires Uniform(rows, n) && Room(|s|, at, pitch, n, |rows|)
    ensures |r| == |s|
    decreases |rows|
  {
    if rows == [] then s else RowsPut(Splice(s, at, rows[0]), at + pitch, pitch, n, rows[1..])
  }

  lemma {:induction false} RoomInside(size: nat, width: nat, height: nat, pitch: nat, left: nat, top: nat, n: nat,
                                      count: nat)
    requires Fits(size, width, height, pitch) && left + n <= width && top + count <= height
    ensures Room(size, Index(pitch, left, top), pitch, n, count)
    decreases count
  {
    if count > 0 {
      IndexInside(size, width, height, pitch, left + n, top);
      RoomInside(size, width, height, pitch, left, top + 1, n, count - 1);
      assert Index(pitch, left, top + 1) == Index(pitch, left, top) + pitch;
    }
  }

  /** Writing one row changes no pixel of another row. */
  lemma SpliceAt(s: seq<Color>, pitch: nat, left: nat, top: nat, row: seq<Color>, x: nat, y: nat)
    requires left + |row| <= pitch && Index(pitch, left, top) + |row| <= |s| && x < pitch && Index(pitch, x, y) < |s|
    ensures Splice(s, Index(pitch, left, top), row)[Index(pitch, x, y)]
         == if y == top && left <= x < left + |row| then row[x - left] else s[Index(pitch, x, y)]
  {
    if y < top {
      RowsAscend(pitch, y, top);
    } else if top < y {
      RowsAscend(pitch, top, y);
    }
  }

  /** A block lands where it should, and nothing else changes, not even between the rows. */
  lemma {:induction false} RowsPutAt(s: seq<Color>, pitch: nat, left: nat, top: nat, n: nat, rows: seq<seq<Color>>,
                                     x: nat, y: nat)
    requires Uniform(rows, n) && Room(|s|, Index(pitch, left, top), pitch, n, |rows|)
    requires left + n <= pitch && x < pitch && Index(pitch, x, y) < |s|
    ensures RowsPut(s, Index(pitch, left, top), pitch, n, rows)[Index(pitch, x, y)]
         == if top <= y < top + |rows| && left <= x < left + n then rows[y - top][x - left] else s[Index(pitch, x, y)]
    decreases |rows|
  {
    hide Index;
    if rows != [] {
      assert Index(pitch, left, top + 1) == Index(pitch, left, top) + pitch by { NextRow(pitch, left, top); }
      SpliceAt(s, pitch, left, top, rows[0], x, y);
      RowsPutAt(Splice(s, Index(pitch, left, top), rows[0]), pitch, left, top + 1, n, rows[1..], x, y);
    }
  }

  lemma NextRow(pitch: nat, left: nat, top: nat)
    ensures Index(pitch, left, top + 1) == Index(pitch, left, top) + pitch
  {}

  /** The pixels between the rows of an image. */
  ghost predicate MarginsKept(s: seq<Color>, s': seq<Color>, width: nat, pitch: nat) {
    |s| == |s'| && forall x: nat, y: nat | width <= x < pitch && Index(pitch, x, y) < |s| ::
      s'[Index(pitch, x, y)] == s[Index(pitch, x, y)]
  }

  /** One image is another with a rectangle filled. */
  ghost predicate FilledWith(before: Image, after: Image, r: Rect, color: Color) {
    && before.Valid() && after.Valid() && before.width == after.width && before.height == after.height
    && forall x, y :: before.Contains(x, y) ==> after.At(x, y) == if r.Has(x, y) then color else before.At(x, y)
  }

  /** A point of a picture at (x, y) where it and the clip reach, and of the image before elsewhere. */
  function Over(before: Image, source: Image, x: int, y: int, clip: Rect, px: int, py: int): (c: Color)
    requires before.Valid() && source.Valid() && before.Contains(px, py)
  {
    if clip.Has(px, py) && source.Contains(px - x, py - y) then source.At(px - x, py - y) else before.At(px, py)
  }

  /** One image is another with the part of a picture at (x, y) inside a clip drawn over it. */
  ghost predicate BlitOver(before: Image, after: Image, source: Image, x: int, y: int, clip: Rect) {
    && before.Valid() && after.Valid() && source.Valid() && before.width == after.width && before.height == after.height
    && forall px, py | before.Contains(px, py) :: after.At(px, py) == Over(before, source, x, y, clip, px, py)
  }

  /** A block inside the image. */
  predicate BlockFits(s: seq<Color>, width: nat, height: nat, pitch: nat, left: nat, top: nat, n: nat,
                      rows: seq<seq<Color>>) {
    && Fits(|s|, width, height, pitch) && Uniform(rows, n)
    && left + n <= width && top + |rows| <= height
  }

  function BlockPut(s: seq<Color>, width: nat, height: nat, pitch: nat, left: nat, top: nat, n: nat,
                    rows: seq<seq<Color>>): (r: seq<Color>)
    requires BlockFits(s, width, height, pitch, left, top, n, rows)
    ensures |r| == |s|
  {
    RoomInside(|s|, width, height, pitch, left, top, n, |rows|);
    RowsPut(s, Index(pitch, left, top), pitch, n, rows)
  }

  lemma BlockPutAt(s: seq<Color>, width: nat, height: nat, pitch: nat, left: nat, top: nat, n: nat,
                   rows: seq<seq<Color>>, x: nat, y: nat)
    requires BlockFits(s, width, height, pitch, left, top, n, rows) && x < width && y < height
    ensures Snapshot(BlockPut(s, width, height, pitch, left, top, n, rows), width, height, pitch).At(x, y)
         == if top <= y < top + |rows| && left <= x < left + n then rows[y - top][x - left]
           else Snapshot(s, width, height, pitch).At(x, y)
  {
    hide Index, Snapshot, Room;
    RoomInside(|s|, width, height, pitch, left, top, n, |rows|);
    SnapshotAt(s, width, height, pitch, x, y);
    SnapshotAt(BlockPut(s, width, height, pitch, left, top, n, rows), width, height, pitch, x, y);
    RowsPutAt(s, pitch, left, top, n, rows, x, y);
  }

  lemma BlockPutMargins(s: seq<Color>, width: nat, height: nat, pitch: nat, left: nat, top: nat, n: nat,
                        rows: seq<seq<Color>>)
    requires BlockFits(s, width, height, pitch, left, top, n, rows)
    ensures MarginsKept(s, BlockPut(s, width, height, pitch, left, top, n, rows), width, pitch)
  {
    hide Index, Room;
    RoomInside(|s|, width, height, pitch, left, top, n, |rows|);
    forall x: nat, y: nat | width <= x < pitch && Index(pitch, x, y) < |s|
      ensures BlockPut(s, width, height, pitch, left, top, n, rows)[Index(pitch, x, y)] == s[Index(pitch, x, y)]
    {
      RowsPutAt(s, pitch, left, top, n, rows, x, y);
    }
  }

  /** Writing the first row, then the rest. */
  lemma BlockPutFirst(s: seq<Color>, width: nat, height: nat, pitch: nat, left: nat, top: nat, n: nat,
                      rows: seq<seq<Color>>)
    requires BlockFits(s, width, height, pitch, left, top, n, rows) && rows != []
    ensures Index(pitch, left, top) + n <= |s|
    ensures BlockFits(Splice(s, Index(pitch, left, top), rows[0]), width, height, pitch, left, top + 1, n, rows[1..])
    ensures BlockPut(s, width, height, pitch, left, top, n, rows)
         == BlockPut(Splice(s, Index(pitch, left, top), rows[0]), width, height, pitch, left, top + 1, n, rows[1..])
  {
    hide Index;
    RoomInside(|s|, width, height, pitch, left, top, n, |rows|);
    NextRow(pitch, left, top);
  }

  lemma BlockPutNone(s: seq<Color>, width: nat, height: nat, pitch: nat, left: nat, top: nat, n: nat,
                     rows: seq<seq<Color>>)
    requires BlockFits(s, width, height, pitch, left, top, n, rows) && rows == []
    ensures BlockPut(s, width, height, pitch, left, top, n, rows) == s
  {}

  lemma SpliceNext(s: seq<Color>, at: nat, row: seq<Color>, c: Color)
    requires at + |row| + 1 <= |s|
    ensures Splice(s, at, row)[at + |row| := c] == Splice(s, at, row + [c])
  {}

  function Constant(n: nat, color: Color): (row: seq<Color>)
    ensures |row| == n && forall i :: 0 <= i < n ==> row[i] == color
  {
    seq(n, _ => color)
  }

  function ConstantRows(n: nat, color: Color, count: nat): (rows: seq<seq<Color>>)
    ensures |rows| == count && Uniform(rows, n)
    ensures forall i, j :: 0 <= i < count && 0 <= j < n ==> rows[i][j] == color
  {
    seq(count, _ => Constant(n, color))
  }

  lemma SliceOfSlice(s: seq<Color>, from: nat, width: nat, x: nat, n: nat)
    requires from + width <= |s| && x + n <= width
    ensures s[from..from + width][x..x + n] == s[from + x..from + x + n]
  {
    var row := s[from..from + width];
    var a, b := row[x..x + n], s[from + x..from + x + n];
    forall i | 0 <= i < n
      ensures a[i] == b[i]
    {
      assert a[i] == row[x + i] == s[from + (x + i)];
    }
  }

  lemma RowSlice(s: seq<Color>, width: nat, height: nat, pitch: nat, x: nat, y: nat, n: nat)
    requires Fits(|s|, width, height, pitch) && y < height && x + n <= width
    ensures Index(pitch, x, y) + n <= |s|
    ensures Snapshot(s, width, height, pitch).rows[y][x..x + n] == s[Index(pitch, x, y)..Index(pitch, x, y) + n]
  {
    IndexInside(|s|, width, height, pitch, width, y);
    var row, from := Snapshot(s, width, height, pitch).rows[y], Index(pitch, 0, y);
    assert row == s[from..from + width];
    SliceOfSlice(s, from, width, x, n);
  }

  /** A rectangle cut out of an image. */
  function Cut(i: Image, x: nat, y: nat, n: nat, count: nat): (rows: seq<seq<Color>>)
    requires i.Valid() && x + n <= i.width && y + count <= i.height
    ensures |rows| == count && Uniform(rows, n)
  {
    seq(count, k requires 0 <= k < count => i.rows[y + k][x..x + n])
  }

  lemma FillShown(s: seq<Color>, width: nat, height: nat, pitch: nat, left: nat, top: nat, right: nat, bottom: nat,
                  color: Color, r: Rect)
    requires Fits(|s|, width, height, pitch) && left <= right <= width && top <= bottom <= height
    requires forall x, y ::
      0 <= x < width && 0 <= y < height ==> (r.Has(x, y) <==> left <= x < right && top <= y < bottom)
    ensures
      var rows := ConstantRows(right - left, color, bottom - top);
      var s' := BlockPut(s, width, height, pitch, left, top, right - left, rows);
      FilledWith(Snapshot(s, width, height, pitch), Snapshot(s', width, height, pitch), r, color)
  {
    hide Snapshot, BlockPut, Fits, Rect.Has, Image.At;
    var rows := ConstantRows(right - left, color, bottom - top);
    assert BlockFits(s, width, height, pitch, left, top, right - left, rows);
    forall x, y | 0 <= x < width && 0 <= y < height
      ensures Snapshot(BlockPut(s, width, height, pitch, left, top, right - left, rows), width, height, pitch).At(x, y)
           == if r.Has(x, y) then color else Snapshot(s, width, height, pitch).At(x, y)
    {
      BlockPutAt(s, width, height, pitch, left, top, right - left, rows, x, y);
    }
  }

  /** The part of the screen that a blit reaches. */
  ghost predicate Reaches(width: nat, height: nat, source: Image, x: int, y: int, clip: Rect,
                          left: int, top: int, right: int, bottom: int) {
    && 0 <= left - x && right - x <= source.width && 0 <= top - y && bottom - y <= source.height
    && 0 <= left && right <= width && 0 <= top && bottom <= height
    && forall px, py | 0 <= px < width && 0 <= py < height ::
         (clip.Has(px, py) && source.Contains(px - x, py - y)) == (left <= px < right && top <= py < bottom)
  }

  lemma ClippedReach(width: nat, height: nat, source: Image, x: int, y: int, clip: Rect)
    ensures Reaches(width, height, source, x, y, clip,
              Max(Max(x, 0), clip.x), Max(Max(y, 0), clip.y),
              Min(Min(x + source.width, clip.x + clip.width), width),
              Min(Min(y + source.height, clip.y + clip.height), height))
  {}

  lemma BlitEmpty(before: Image, source: Image, x: int, y: int, clip: Rect)
    requires before.Valid() && source.Valid() && (clip.width == 0 || clip.height == 0)
    ensures BlitOver(before, before, source, x, y, clip)
  {}

  lemma MarginsSame(s: seq<Color>, width: nat, pitch: nat)
    ensures MarginsKept(s, s, width, pitch)
  {}

  lemma MarginsChain(s: seq<Color>, s': seq<Color>, s'': seq<Color>, width: nat, pitch: nat)
    requires MarginsKept(s, s', width, pitch) && MarginsKept(s', s'', width, pitch)
    ensures MarginsKept(s, s'', width, pitch)
  {}

  lemma BlitNothing(before: Image, source: Image, x: int, y: int, clip: Rect, left: int, top: int, right: int,
                    bottom: int)
    requires before.Valid() && source.Valid() && (left >= right || top >= bottom)
    requires Reaches(before.width, before.height, source, x, y, clip, left, top, right, bottom)
    ensures BlitOver(before, before, source, x, y, clip)
  {}

  lemma BlitShown(s: seq<Color>, width: nat, height: nat, pitch: nat, left: nat, top: nat, right: nat, bottom: nat,
                  source: Image, x: int, y: int, clip: Rect)
    requires Fits(|s|, width, height, pitch) && source.Valid()
    requires left < right && top < bottom && Reaches(width, height, source, x, y, clip, left, top, right, bottom)
    ensures
      var rows := Cut(source, left - x, top - y, right - left, bottom - top);
      var s' := BlockPut(s, width, height, pitch, left, top, right - left, rows);
      BlitOver(Snapshot(s, width, height, pitch), Snapshot(s', width, height, pitch), source, x, y, clip)
  {
    hide Snapshot, BlockPut, Fits, Rect.Has;
    var rows := Cut(source, left - x, top - y, right - left, bottom - top);
    assert BlockFits(s, width, height, pitch, left, top, right - left, rows);
    var before := Snapshot(s, width, height, pitch);
    forall px, py | 0 <= px < width && 0 <= py < height
      ensures var s' := BlockPut(s, width, height, pitch, left, top, right - left, rows);
        Snapshot(s', width, height, pitch).At(px, py)
           == Over(before, source, x, y, clip, px, py)
    {
      BlockPutAt(s, width, height, pitch, left, top, right - left, rows, px, py);
    }
  }

  // ------------------------------------------------------------ the surface

  /** What the source takes for the description of a surface. */
  predicate Describes(width: nat, height: nat, pitch: nat) {
    0 < width <= pitch && 0 < height && (height - 1) * pitch + width <= 0xffff_ffff_ffff_ffff / 4
  }

  /** A surface over a buffer, refused exactly without a buffer or for a description that cannot be right. That the
      buffer holds what is described is the caller's word. */
  method InitializeSurface(pixels: array?<Color>, width: nat, height: nat, pitch: nat) returns (s: Surface?)
    requires pixels != null && Describes(width, height, pitch) ==> Fits(pixels.Length, width, height, pitch)
    ensures s != null <==> pixels != null && Describes(width, height, pitch)
    ensures s != null ==>
      fresh(s) && s.Valid() && s.pixels == pixels && s.width == width && s.height == height && s.pitch == pitch
  {
    if pixels == null || width == 0 || height == 0 || pitch < width
       || (height - 1) * pitch + width > 0xffff_ffff_ffff_ffff / 4 {
      return null;
    }
    s := new Surface(pixels, width, height, pitch);
  }

  class Surface {
    const pixels: array<Color>
    const width: nat
    const height: nat
    const pitch: nat

    ghost predicate Valid() {
      Fits(pixels.Length, width, height, pitch)
    }

    constructor (pixels: array<Color>, width: nat, height: nat, pitch: nat)
      requires Fits(pixels.Length, width, height, pitch)
      ensures Valid() && this.pixels == pixels && this.width == width && this.height == height && this.pitch == pitch
    {
      this.pixels, this.width, this.height, this.pitch := pixels, width, height, pitch;
    }

    ghost function View(): (i: Image)
      requires Valid()
      reads pixels
      ensures i.Valid() && i.width == width && i.height == height
    {
      Snapshot(pixels[..], width, height, pitch)
    }

    /** The part of a row from `left` to `right` gets one colour. */
    method FillRow(row: nat, left: nat, right: nat, color: Color)
      requires Valid() && row < height && left <= right <= width
      modifies pixels
      ensures Index(pitch, right, row) <= pixels.Length
      ensures pixels[..] == Splice(old(pixels[..]), Index(pitch, left, row), Constant(right - left, color))
    {
      IndexInside(pixels.Length, width, height, pitch, right, row);
      ghost var before, at := pixels[..], Index(pitch, left, row);
      var column := left;
      while column < right
        invariant left <= column <= right
        invariant pixels[..] == Splice(before, at, Constant(column - left, color))
      {
        SpliceNext(before, at, Constant(column - left, color), color);
        assert Constant(column - left, color) + [color] == Constant(column + 1 - left, color);
        pixels[row * pitch + column] := color;
        column := column + 1;
      }
    }

    /** A block of the image gets one colour. */
    method FillBlock(left: nat, top: nat, right: nat, bottom: nat, color: Color)
      requires Valid() && left <= right <= width && top <= bottom <= height
      modifies pixels
      ensures pixels[..] ==
        BlockPut(old(pixels[..]), width, height, pitch, left, top, right - left,
                 ConstantRows(right - left, color, bottom - top))
    {
      hide Index, BlockPut, Splice;
      ghost var n := right - left;
      var row := top;
      while row < bottom
        invariant top <= row <= bottom
        invariant BlockPut(pixels[..], width, height, pitch, left, row, n, ConstantRows(n, color, bottom - row))
               == BlockPut(old(pixels[..]), width, height, pitch, left, top, n, ConstantRows(n, color, bottom - top))
      {
        BlockPutFirst(pixels[..], width, height, pitch, left, row, n, ConstantRows(n, color, bottom - row));
        assert ConstantRows(n, color, bottom - row)[1..] == ConstantRows(n, color, bottom - (row + 1));
        FillRow(row, left, right, color);
        row := row + 1;
      }
      BlockPutNone(pixels[..], width, height, pitch, left, row, n, ConstantRows(n, color, 0));
    }

    /** The whole image gets one colour. */
    method Clear(color: Color)
      requires Valid()
      modifies pixels
      ensures FilledWith(old(View()), View(), Rect(0, 0, width, height), color)
      ensures MarginsKept(old(pixels[..]), pixels[..], width, pitch)
    {
      hide BlockPut, FilledWith, MarginsKept;
      FillBlock(0, 0, width, height, color);
      FillShown(old(pixels[..]), width, height, pitch, 0, 0, width, height, color, Rect(0, 0, width, height));
      BlockPutMargins(old(pixels[..]), width, height, pitch, 0, 0, width, ConstantRows(width, color, height));
    }

    /** The part of a rectangle that lies on the image gets one colour. */
    method FillRect(x: int, y: int, w: nat, h: nat, color: Color) returns (ok: bool)
      requires Valid()
      modifies pixels
      ensures ok <==> w != 0 && h != 0
      ensures FilledWith(old(View()), View(), Rect(x, y, w, h), color)
      ensures MarginsKept(old(pixels[..]), pixels[..], width, pitch)
    {
      hide BlockPut, Snapshot, Image.At, Index;
      if w == 0 || h == 0 {
        return false;
      }
      var left, top := if x < 0 then 0 else x, if y < 0 then 0 else y;
      var right, bottom := x + w, y + h;
      if right > width {
        right := width;
      }
      if bottom > height {
        bottom := height;
      }
      if left >= right || top >= bottom {
        return true;
      }
      FillBlock(left, top, right, bottom, color);
      FillShown(old(pixels[..]), width, height, pitch, left, top, right, bottom, color, Rect(x, y, w, h));
      BlockPutMargins(old(pixels[..]), width, height, pitch, left, top, right - left,
                      ConstantRows(right - left, color, bottom - top));
      return true;
    }

    /** Part of a row is copied from another surface. */
    method CopyRow(row: nat, left: nat, n: nat, source: Surface, sourceX: nat, sourceY: nat)
      requires Valid() && row < height && left + n <= width
      requires source.Valid() && sourceY < source.height && sourceX + n <= source.width && source.pixels != pixels
      modifies pixels
      ensures Index(pitch, left, row) + n <= pixels.Length
      ensures pixels[..] == Splice(old(pixels[..]), Index(pitch, left, row),
                                   source.View().rows[sourceY][sourceX..sourceX + n])
    {
      hide Snapshot, Row, Fits, Splice;
      IndexInside(pixels.Length, width, height, pitch, left + n, row);
      RowSlice(source.pixels[..], source.width, source.height, source.pitch, sourceX, sourceY, n);
      ghost var before, at, from := pixels[..], Index(pitch, left, row), Index(source.pitch, sourceX, sourceY);
      ghost var cells := source.pixels[..];
      assert source.View().rows[sourceY][sourceX..sourceX + n] == cells[from..from + n];
      var k := 0;
      while k < n
        invariant 0 <= k <= n
        invariant source.pixels[..] == cells
        invariant pixels[..] == Splice(before, at, cells[from..from + k])
      {
        SpliceNext(before, at, cells[from..from + k], cells[from + k]);
        assert cells[from..from + k] + [cells[from + k]] == cells[from..from + (k + 1)];
        pixels[row * pitch + (left + k)] := source.pixels[sourceY * source.pitch + sourceX + k];
        k := k + 1;
      }
    }

    /** A block is copied from another surface. */
    method CopyBlock(left: nat, top: nat, right: nat, bottom: nat, source: Surface, sourceX: nat, sourceY: nat)
      requires Valid() && left <= right <= width && top <= bottom <= height
      requires source.Valid() && source.pixels != pixels
      requires sourceX + (right - left) <= source.width && sourceY + (bottom - top) <= source.height
      modifies pixels
      ensures pixels[..] == BlockPut(old(pixels[..]), width, height, pitch, left, top, right - left,
                              Cut(source.View(), sourceX, sourceY, right - left, bottom - top))
    {
      hide Index, BlockPut, Splice, Snapshot;
      ghost var n, picture := right - left, source.View();
      var row := top;
      while row < bottom
        invariant top <= row <= bottom && source.View() == picture
        invariant BlockPut(pixels[..], width, height, pitch, left, row, n,
                           Cut(picture, sourceX, sourceY + (row - top), n, bottom - row))
               == BlockPut(old(pixels[..]), width, height, pitch, left, top, n,
                           Cut(picture, sourceX, sourceY, n, bottom - top))
      {
        ghost var rows := Cut(picture, sourceX, sourceY + (row - top), n, bottom - row);
        BlockPutFirst(pixels[..], width, height, pitch, left, row, n, rows);
        assert rows[1..] == Cut(picture, sourceX, sourceY + (row + 1 - top), n, bottom - (row + 1));
        CopyRow(row, left, right - left, source, sourceX, sourceY + (row - top));
        row := row + 1;
      }
      BlockPutNone(pixels[..], width, height, pitch, left, row, n, Cut(picture, sourceX, sourceY + (row - top), n, 0));
    }

    /** A picture is drawn at (x, y), as far as a clip and the image reach. */
    method BlitRegion(source: Surface, x: int, y: int, clip: Rect) returns (ok: bool)
      requires Valid() && source.Valid() && source.pixels != pixels
      modifies pixels
      ensures ok <==> clip.width != 0 && clip.height != 0
      ensures BlitOver(old(View()), View(), source.View(), x, y, clip)
      ensures MarginsKept(old(pixels[..]), pixels[..], width, pitch)
    {
      hide BlockPut, Snapshot, Image.At, Index, Cut, Reaches, BlitOver, MarginsKept;
      if clip.width == 0 || clip.height == 0 {
        BlitEmpty(View(), source.View(), x, y, clip);
        MarginsSame(pixels[..], width, pitch);
        return false;
      }
      var left, top := if x < 0 then 0 else x, if y < 0 then 0 else y;
      var right, bottom := x + source.width, y + source.height;
      var clipRight, clipBottom := clip.x + clip.width, clip.y + clip.height;
      if left < clip.x {
        left := clip.x;
      }
      if top < clip.y {
        top := clip.y;
      }
      if right > clipRight {
        right := clipRight;
      }
      if bottom > clipBottom {
        bottom := clipBottom;
      }
      if right > width {
        right := width;
      }
      if bottom > height {
        bottom := height;
      }
      ClippedReach(width, height, source.View(), x, y, clip);
      assert Reaches(width, height, source.View(), x, y, clip, left, top, right, bottom);
      if left >= right || top >= bottom {
        BlitNothing(View(), source.View(), x, y, clip, left, top, right, bottom);
        MarginsSame(pixels[..], width, pitch);
        return true;
      }
      DrawReached(source, x, y, clip, left, top, right, bottom);
      return true;
    }

    /** The copying half of a blit, once its reach is known. */
    method DrawReached(source: Surface, x: int, y: int, clip: Rect, left: int, top: int, right: int, bottom: int)
      requires Valid() && source.Valid() && source.pixels != pixels
      requires left < right && top < bottom
      requires Reaches(width, height, source.View(), x, y, clip, left, top, right, bottom)
      modifies pixels
      ensures BlitOver(old(View()), View(), source.View(), x, y, clip)
      ensures MarginsKept(old(pixels[..]), pixels[..], width, pitch)
    {
      hide BlockPut, Snapshot, Image.At, Index, Cut, BlitOver, MarginsKept, Rect.Has, Image.Contains;
      CopyBlock(left, top, right, bottom, source, left - x, top - y);
      BlitShown(old(pixels[..]), width, height, pitch, left, top, right, bottom, source.View(), x, y, clip);
      BlockPutMargins(old(pixels[..]), width, height, pitch, left, top, right - left,
        Cut(source.View(), left - x, top - y, right - left, bottom - top));
    }

    /** A picture is drawn at (x, y), as far as the image reaches. */
    method Blit(source: Surface, x: int, y: int) returns (ok: bool)
      requires Valid() && source.Valid() && source.pixels != pixels
      modifies pixels
      ensures ok
      ensures BlitOver(old(View()), View(), source.View(), x, y, Rect(0, 0, width, height))
      ensures MarginsKept(old(pixels[..]), pixels[..], width, pitch)
    {
      ok := BlitRegion(source, x, y, Rect(0, 0, width, height));
    }
  }
}
