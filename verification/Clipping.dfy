/** Cutting the rectangles of a rendered metatile's features along the grid of its tiles. */
module Clipping {
  import opened Counting
  import opened Division

  // The corners of a rectangle of pixels; both belong to it.
  datatype Rect = Rect(x0: int, y0: int, x1: int, y1: int)

  // The tiles of a master tile: their size in pixels and how many there are.
  datatype Grid = Grid(width: int, height: int, rows: int, columns: int)

  predicate ProperGrid(g: Grid) {
    g.width >= 1 && g.height >= 1
  }

  predicate Degenerate(rect: Rect) {
    rect.y1 - rect.y0 == 0 && rect.x1 - rect.x0 == 0
  }

  predicate Ordered(rect: Rect) {
    rect.x0 <= rect.x1 && rect.y0 <= rect.y1
  }

  predicate Covers(rect: Rect, x: int, y: int) {
    rect.x0 <= x <= rect.x1 && rect.y0 <= y <= rect.y1
  }

  predicate InGrid(g: Grid, r: int, c: int) {
    0 <= r < g.rows && 0 <= c < g.columns
  }

  // The cells that the loops visit for a rectangle and that are part of the grid.
  predicate Visits(g: Grid, rect: Rect, r: int, c: int)
    requires ProperGrid(g)
  {
    && rect.y0 / g.height <= r <= rect.y1 / g.height
    && rect.x0 / g.width <= c <= rect.x1 / g.width
    && InGrid(g, r, c)
  }

  function Clip(g: Grid, rect: Rect, r: int, c: int): Rect {
    Rect(
      if rect.x0 > g.width * c then rect.x0 - g.width * c else 0,
      if rect.y0 > g.height * r then rect.y0 - g.height * r else 0,
      if rect.x1 < g.width * (c + 1) then rect.x1 - g.width * c else g.width - 1,
      if rect.y1 < g.height * (r + 1) then rect.y1 - g.height * r else g.height - 1)
  }

  /* ---- one rectangle ---- */

  lemma ClippedSpan(lo: int, hi: int, size: int, k: int, p: int)
    requires size >= 1 && lo <= hi
    ensures
      var first := if lo > size * k then lo - size * k else 0;
      var last := if hi < size * (k + 1) then hi - size * k else size - 1;
      && (lo / size <= k <= hi / size ==> 0 <= first <= last <= size - 1)
      && (0 <= p < size ==> (lo / size <= k <= hi / size && first <= p <= last <==> lo <= size * k + p <= hi))
  {
    FloorBound(hi, size, k);
    FloorBound(lo, size, k + 1);
    assert size * (k + 1) == size * k + size;
  }

  // The clipped rectangle stays inside the cell.
  lemma ClipStaysInside(g: Grid, rect: Rect, r: int, c: int)
    requires ProperGrid(g) && Ordered(rect) && Visits(g, rect, r, c)
    ensures var k := Clip(g, rect, r, c);
      0 <= k.x0 <= k.x1 <= g.width - 1 && 0 <= k.y0 <= k.y1 <= g.height - 1
  {
    ClippedSpan(rect.x0, rect.x1, g.width, c, 0);
    ClippedSpan(rect.y0, rect.y1, g.height, r, 0);
  }

  // A pixel of a cell is covered in the cell exactly when it is covered in the master tile.
  lemma ClipIsExact(g: Grid, rect: Rect, r: int, c: int, x: int, y: int)
    requires ProperGrid(g) && Ordered(rect) && InGrid(g, r, c) && 0 <= x < g.width && 0 <= y < g.height
    ensures Visits(g, rect, r, c) && Covers(Clip(g, rect, r, c), x, y) <==>
      Covers(rect, g.width * c + x, g.height * r + y)
  {
    ClippedSpan(rect.x0, rect.x1, g.width, c, x);
    ClippedSpan(rect.y0, rect.y1, g.height, r, y);
  }

  // A pixel belongs to one cell only, at one place of it.
  lemma PixelHasOneCell(g: Grid, px: int, py: int, r: int, c: int, x: int, y: int)
    requires ProperGrid(g) && 0 <= x < g.width && 0 <= y < g.height
    ensures px == g.width * c + x && py == g.height * r + y <==>
      r == py / g.height && c == px / g.width && x == px % g.width && y == py % g.height
  {
    DivMod(px, g.width, c, x);
    DivMod(py, g.height, r, y);
  }

  /* ---- all the rectangles of a geometry ---- */

  function ClippedRect(g: Grid, rect: Rect, r: int, c: int): seq<Rect>
    requires ProperGrid(g)
  {
    if !Degenerate(rect) && Visits(g, rect, r, c) then [Clip(g, rect, r, c)] else []
  }

  // The rectangles of a cell, in the order of those they were cut from.
  function Clipped(g: Grid, rects: seq<Rect>, r: int, c: int): seq<Rect>
    requires ProperGrid(g)
  {
    if rects == [] then []
    else Clipped(g, rects[..|rects| - 1], r, c) + ClippedRect(g, rects[|rects| - 1], r, c)
  }

  type Geometries = map<(int, int), seq<Rect>>

  function RectsIn(geometries: Geometries, r: int, c: int): seq<Rect> {
    if (r, c) in geometries then geometries[(r, c)] else []
  }

  // Only cells of the grid are there, and none of them is empty.
  ghost predicate Proper(geometries: Geometries, g: Grid) {
    forall cell <- geometries :: InGrid(g, cell.0, cell.1) && geometries[cell] != []
  }

  method ClipGeometry(g: Grid, rects: seq<Rect>) returns (geometries: Geometries)
    requires ProperGrid(g)
    ensures Proper(geometries, g)
    ensures forall r, c :: RectsIn(geometries, r, c) == Clipped(g, rects, r, c)
  {
    hide Degenerate, Clip;
    geometries := map[];
    for i := 0 to |rects|
      invariant Proper(geometries, g)
      invariant forall r, c :: RectsIn(geometries, r, c) == Clipped(g, rects[..i], r, c)
    {
      var rect := rects[i];
      assert rects[..i + 1][..i] == rects[..i];
      if Degenerate(rect) {
        continue;
      }
      geometries := ClipOne(g, rect, geometries);
    }
    assert rects[..|rects|] == rects;
  }

  // The cells before (r, c), row by row, have got their part of the rectangle.
  ghost predicate Done(geometries: Geometries, before: Geometries, g: Grid, rect: Rect, r: int, c: int)
    requires ProperGrid(g)
  {
    forall a, b :: RectsIn(geometries, a, b) == RectsIn(before, a, b) + Part(g, rect, r, c, a, b)
  }

  function Part(g: Grid, rect: Rect, r: int, c: int, a: int, b: int): seq<Rect>
    requires ProperGrid(g)
  {
    if a < r || (a == r && b < c) then ClippedRect(g, rect, a, b) else []
  }

  method ClipOne(g: Grid, rect: Rect, before: Geometries) returns (geometries: Geometries)
    requires ProperGrid(g) && Proper(before, g) && !Degenerate(rect)
    ensures Proper(geometries, g)
    ensures forall r, c :: RectsIn(geometries, r, c) == RectsIn(before, r, c) + ClippedRect(g, rect, r, c)
  {
    hide Clip, RectsIn;
    geometries := before;
    var r, r1, c0, c1 := rect.y0 / g.height, rect.y1 / g.height, rect.x0 / g.width, rect.x1 / g.width;
    while r < r1 + 1
      invariant Proper(geometries, g) && rect.y0 / g.height <= r
      invariant Done(geometries, before, g, rect, r, c0)
    {
      var c := c0;
      while c < c1 + 1
        invariant Proper(geometries, g) && c0 <= c
        invariant Done(geometries, before, g, rect, r, c)
      {
        geometries := ClipCell(g, rect, geometries, r, c);
        c := c + 1;
      }
      r := r + 1;
    }
  }

  function CellPart(g: Grid, rect: Rect, r: int, c: int, a: int, b: int): seq<Rect> {
    if InGrid(g, r, c) && a == r && b == c then [Clip(g, rect, r, c)] else []
  }

  // The body of the loops: one cell.
  method ClipCell(g: Grid, rect: Rect, before: Geometries, r: int, c: int) returns (geometries: Geometries)
    requires Proper(before, g)
    ensures Proper(geometries, g)
    ensures forall a, b :: RectsIn(geometries, a, b) == RectsIn(before, a, b) + CellPart(g, rect, r, c, a, b)
  {
    geometries := before;
    if !(r < 0 || r >= g.rows || c < 0 || c >= g.columns) {
      var x0 := if rect.x0 > g.width * c then rect.x0 - g.width * c else 0;
      var y0 := if rect.y0 > g.height * r then rect.y0 - g.height * r else 0;
      var x1 := if rect.x1 < g.width * (c + 1) then rect.x1 - g.width * c else g.width - 1;
      var y1 := if rect.y1 < g.height * (r + 1) then rect.y1 - g.height * r else g.height - 1;
      var clipped := Rect(x0, y0, x1, y1);
      assert clipped == Clip(g, rect, r, c);
      hide Clip;
      if (r, c) in geometries {
        geometries := geometries[(r, c) := geometries[(r, c)] + [clipped]];
      } else {
        geometries := geometries[(r, c) := [clipped]];
      }
    }
  }

  lemma {:induction false} CountClipped(g: Grid, rects: seq<Rect>, r: int, c: int, p: Rect -> bool, q: Rect -> bool)
    requires ProperGrid(g)
    requires forall rect <- rects :: Count(ClippedRect(g, rect, r, c), p) == if q(rect) then 1 else 0
    ensures Count(Clipped(g, rects, r, c), p) == Count(rects, q)
  {
    if rects != [] {
      var n := |rects| - 1;
      hide ClippedRect, Count;
      CountClipped(g, rects[..n], r, c, p, q);
      CountAppend(Clipped(g, rects[..n], r, c), ClippedRect(g, rects[n], r, c), p);
      assert rects[..n] + [rects[n]] == rects;
      CountSnoc(rects[..n], rects[n], q);
      assert rects[n] in rects;
    } else {
      CountNone(p);
      CountNone(q);
    }
  }

  lemma CountNone(p: Rect -> bool)
    ensures Count([], p) == 0
  {
  }

  lemma CountOne(k: Rect, p: Rect -> bool)
    ensures Count([k], p) == if p(k) then 1 else 0
  {
    CountSnoc([], k, p);
    assert [] + [k] == [k];
  }

  lemma CoverOfOne(g: Grid, rect: Rect, r: int, c: int, x: int, y: int, p: Rect -> bool)
    requires ProperGrid(g) && Ordered(rect) && InGrid(g, r, c) && 0 <= x < g.width && 0 <= y < g.height
    requires forall k :: p(k) == Covers(k, x, y)
    ensures Count(ClippedRect(g, rect, r, c), p) ==
      if !Degenerate(rect) && Covers(rect, g.width * c + x, g.height * r + y) then 1 else 0
  {
    ClipIsExact(g, rect, r, c, x, y);
    hide Clip, Covers, Visits, Count;
    CountOne(Clip(g, rect, r, c), p);
    CountNone(p);
  }

  // Every pixel of the grid is covered in its cell as often as the geometry covers it.
  lemma CoverIsKept(g: Grid, rects: seq<Rect>, r: int, c: int, x: int, y: int)
    requires ProperGrid(g) && InGrid(g, r, c) && 0 <= x < g.width && 0 <= y < g.height
    requires forall rect <- rects :: Ordered(rect)
    ensures Count(Clipped(g, rects, r, c), k => Covers(k, x, y)) ==
      Count(rects, k => !Degenerate(k) && Covers(k, g.width * c + x, g.height * r + y))
  {
    var p: Rect -> bool := k => Covers(k, x, y);
    var q: Rect -> bool := k => !Degenerate(k) && Covers(k, g.width * c + x, g.height * r + y);
    forall rect | rect in rects
      ensures Count(ClippedRect(g, rect, r, c), p) == if q(rect) then 1 else 0
    {
      CoverOfOne(g, rect, r, c, x, y, p);
    }
    hide Count, Clipped, ClippedRect;
    CountClipped(g, rects, r, c, p, q);
  }

  /* ---- features ---- */

  datatype Feature = Feature(id: int, geometry: seq<Rect>, properties: string)

  // The features of a cell, each with the part of its geometry that lies there.
  function CellFeatures(g: Grid, features: seq<Feature>, r: int, c: int): seq<Feature>
    requires ProperGrid(g)
  {
    if features == [] then []
    else
      var n := |features| - 1;
      var part := Clipped(g, features[n].geometry, r, c);
      CellFeatures(g, features[..n], r, c) + if part == [] then [] else [features[n].(geometry := part)]
  }

  // The numbers of the features that have a part in a cell, in order.
  function Touching(g: Grid, features: seq<Feature>, r: int, c: int): seq<nat>
    requires ProperGrid(g)
  {
    if features == [] then []
    else
      var n := |features| - 1;
      Touching(g, features[..n], r, c) + if Clipped(g, features[n].geometry, r, c) == [] then [] else [n]
  }

  // Each is there once, under its own id and with its own properties.
  lemma {:induction false} CellFeaturesAre(g: Grid, features: seq<Feature>, r: int, c: int)
    requires ProperGrid(g)
    ensures |CellFeatures(g, features, r, c)| == |Touching(g, features, r, c)|
    ensures forall i :: 0 <= i < |Touching(g, features, r, c)| ==> Touching(g, features, r, c)[i] < |features|
    ensures forall i :: 0 <= i < |Touching(g, features, r, c)| ==>
      var cut, whole := CellFeatures(g, features, r, c)[i], features[Touching(g, features, r, c)[i]];
      && cut.id == whole.id && cut.properties == whole.properties
      && cut.geometry == Clipped(g, whole.geometry, r, c) != []
  {
    if features != [] {
      CellFeaturesAre(g, features[..|features| - 1], r, c);
      hide Clipped;
    }
  }

  type Cut = map<(int, int), seq<Feature>>

  predicate CanCut(pixels: (int, int), rows: int, columns: int) {
    && pixels.0 >= 1 && pixels.1 >= 1 && rows >= 1 && columns >= 1
    && pixels.0 / columns >= 1 && pixels.1 / rows >= 1
  }

  method CutFeatures(features: seq<Feature>, pixels: (int, int), rows: int, columns: int) returns (cut: Cut)
    ensures
      if !CanCut(pixels, rows, columns) then cut == map[]
      else
        var g := Grid(pixels.0 / columns, pixels.1 / rows, rows, columns);
        && (forall cell :: cell in cut <==> InGrid(g, cell.0, cell.1))
        && (forall cell <- cut :: cut[cell] == CellFeatures(g, features, cell.0, cell.1))
  {
    cut := map[];
    if pixels.0 < 1 || pixels.1 < 1 || rows < 1 || columns < 1 {
      return;
    }
    var width, height := pixels.0 / columns, pixels.1 / rows;
    if width < 1 || height < 1 {
      return;
    }
    var g := Grid(width, height, rows, columns);
    cut := BlankCells(g);
    for i := 0 to |features|
      invariant forall cell :: cell in cut <==> InGrid(g, cell.0, cell.1)
      invariant forall cell <- cut :: cut[cell] == CellFeatures(g, features[..i], cell.0, cell.1)
    {
      var clipped := ClipGeometry(g, features[i].geometry);
      cut := AddFeature(cut, features[i], clipped);
      assert features[..i + 1][..i] == features[..i];
      hide InGrid;
      forall cell | cell in cut
        ensures cut[cell] == CellFeatures(g, features[..i + 1], cell.0, cell.1)
      {
        assert RectsIn(clipped, cell.0, cell.1) == Clipped(g, features[i].geometry, cell.0, cell.1);
        assert (cell.0, cell.1) == cell;
      }
    }
    assert features[..|features|] == features;
  }

  method BlankCells(g: Grid) returns (cut: Cut)
    ensures forall cell :: cell in cut <==> InGrid(g, cell.0, cell.1)
    ensures forall cell <- cut :: cut[cell] == []
  {
    cut := map[];
    var y := 0;
    while y < g.rows
      invariant 0 <= y && (g.rows > 0 ==> y <= g.rows)
      invariant forall cell :: cell in cut <==> InGrid(g, cell.0, cell.1) && cell.0 < y
      invariant forall cell <- cut :: cut[cell] == []
    {
      var x := 0;
      while x < g.columns
        invariant 0 <= x && (g.columns > 0 ==> x <= g.columns)
        invariant forall cell :: cell in cut <==>
          InGrid(g, cell.0, cell.1) && (cell.0 < y || (cell.0 == y && cell.1 < x))
        invariant forall cell <- cut :: cut[cell] == []
      {
        cut := cut[(y, x) := []];
        x := x + 1;
      }
      y := y + 1;
    }
  }

  // The loop over a feature's cells, in whatever order the dictionary gives them.
  method AddFeature(before: Cut, feature: Feature, clipped: Geometries) returns (cut: Cut)
    requires clipped.Keys <= before.Keys
    ensures cut.Keys == before.Keys
    ensures forall cell <- cut ::
      cut[cell] == before[cell] + if cell in clipped then [feature.(geometry := clipped[cell])] else []
  {
    cut := before;
    var left := clipped.Keys;
    while left != {}
      invariant left <= clipped.Keys && cut.Keys == before.Keys
      invariant forall cell <- cut ::
        cut[cell] == before[cell] +
          if cell in clipped && cell !in left then [feature.(geometry := clipped[cell])] else []
      decreases |left|
    {
      var location :| location in left;
      cut := cut[location := cut[location] + [feature.(geometry := clipped[location])]];
      left := left - {location};
    }
  }
}
