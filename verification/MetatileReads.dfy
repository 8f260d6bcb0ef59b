/** What the reader finds in a metatile of either writer for any tile and format, there or not. */
module MetatileReads {
  import opened Tiles
  import opened Runs
  import opened MetatileCodec
  import opened MetatileWriters

  /* ---- a metatile of the renderer ---- */

  // The first layer of a format, from layer k on.
  function FindLayer(all: seq<Layer>, f: Format, k: nat): (r: Option<nat>)
    requires k <= |all|
    ensures r.Some? ==> k <= r.value < |all| && all[r.value].format == f
    ensures r.Some? ==> forall i :: k <= i < r.value ==> all[i].format != f
    ensures r.None? ==> forall i :: k <= i < |all| ==> all[i].format != f
    decreases |all| - k
  {
    if k == |all| then None else if all[k].format == f then Some(k) else FindLayer(all, f, k + 1)
  }

  // Each layer has the tiles of a square.
  predicate Square(all: seq<Layer>, size: int) {
    forall k :: 0 <= k < |all| ==> |all[k].contents| == size * size
  }

  // The tile in row y and column x of a format; nothing if there is no such format or no such place.
  function TileIn(all: seq<Layer>, size: int, f: Format, y: nat, x: nat): seq<Byte> {
    var k := FindLayer(all, f, 0);
    var r := size * y + x;
    if k.Some? && y < size && x < size && 0 <= r < |all[k.value].contents| then all[k.value].contents[r] else []
  }

  lemma CodesDiffer(f: Format, g: Format)
    ensures Code(f) == Code(g) <==> f == g
  {
  }

  lemma RenderedAbsent(data: seq<Byte>, hs: seq<Header>, job: Tile, all: seq<Layer>, size: int, f: Format,
                       x: int, y: int)
    requires 1 <= size <= METATILE && LaidOut(data, hs, job, all, size) && NoMagic(Concat(LayerTiles(all)))
    requires FindLayer(all, f, 0) == None
    ensures ReadTile(data, Code(f), x, y) == []
  {
    hide HeaderRun, Concat, NoMagic, Encodable, Code, FindLayer, LayerTiles;
    forall i | 0 <= i < |hs| ensures hs[i].fmt != Code(f) {
      assert HeadsLayer(hs[i], job, all, size, i);
      CodesDiffer(all[i].format, f);
    }
    LocateAbsent(hs, Concat(LayerTiles(all)), Code(f), 0);
  }

  // The place of a tile relative to an aligned job.
  lemma AlignedPlace(job: Tile, x: int, y: int)
    requires Align(x) == job.x && Align(y) == job.y
    ensures x == job.x + x % METATILE && y == job.y + y % METATILE
  {
  }

  lemma OutsideIsNoPlace(job: Tile, size: int, x: int, y: int)
    requires 1 <= size <= METATILE && Align(x) == job.x && Align(y) == job.y
    requires !(x % METATILE < size && y % METATILE < size)
    ensures !IsPlace(job, size, size * size, Slot(x, y))
  {
    hide Slot, Align;
    AlignedPlace(job, x, y);
    if IsPlace(job, size, size * size, Slot(x, y)) {
      var s :| 0 <= s < size * size && PlaceOf(job, size, s) == Slot(x, y);
      RowBelow(size, s);
      SlotsDiffer(job, s / size, s % size, y % METATILE, x % METATILE);
    }
  }

  lemma FirstFormatsDiffer(hs: seq<Header>, job: Tile, all: seq<Layer>, size: int, k: nat)
    requires 1 <= size <= METATILE && |hs| == |all| && HeadsLayers(hs, job, all, size) && k < |all|
    requires forall i :: 0 <= i < k ==> all[i].format != all[k].format
    ensures hs[k].fmt == Code(all[k].format) && forall i :: 0 <= i < k ==> hs[i].fmt != hs[k].fmt
  {
    hide Code;
    assert HeadsLayer(hs[k], job, all, size, k);
    forall i | 0 <= i < k ensures hs[i].fmt != hs[k].fmt {
      assert HeadsLayer(hs[i], job, all, size, i);
      CodesDiffer(all[i].format, all[k].format);
    }
  }

  lemma RenderedOutside(data: seq<Byte>, hs: seq<Header>, job: Tile, all: seq<Layer>, size: int, k: nat, x: int, y: int)
    requires 1 <= size <= METATILE && LaidOut(data, hs, job, all, size) && Square(all, size) && k < |all|
    requires forall i :: 0 <= i < k ==> all[i].format != all[k].format
    requires Align(x) == job.x && Align(y) == job.y && !(x % METATILE < size && y % METATILE < size)
    ensures ReadTile(data, Code(all[k].format), x, y) == []
  {
    hide HeaderRun, Concat, ReadTile, Slot, IsPlace, Align, Encodable, Code, LayerTiles;
    FirstFormatsDiffer(hs, job, all, size, k);
    ReadTileOf(hs, Concat(LayerTiles(all)), k, x, y);
    OutsideIsNoPlace(job, size, x, y);
    assert HeadsLayer(hs[k], job, all, size, k);
    assert hs[k].index[Slot(x, y)] == Entry(0, 0);
  }

  lemma RenderedInside(data: seq<Byte>, hs: seq<Header>, job: Tile, all: seq<Layer>, size: int, k: nat, x: int, y: int)
    requires 1 <= size <= METATILE && LaidOut(data, hs, job, all, size) && Square(all, size) && k < |all|
    requires forall i :: 0 <= i < k ==> all[i].format != all[k].format
    requires Align(x) == job.x && Align(y) == job.y && x % METATILE < size && y % METATILE < size
    ensures 0 <= size * (y % METATILE) + x % METATILE < |all[k].contents|
    ensures ReadTile(data, Code(all[k].format), x, y) == all[k].contents[size * (y % METATILE) + x % METATILE]
  {
    hide LaidOut, ReadTile, Align, Code;
    AlignedPlace(job, x, y);
    SquarePlace(size, y % METATILE, x % METATILE);
    RenderedRank(data, hs, job, all, size, k, size * (y % METATILE) + x % METATILE);
  }

  lemma SquarePlace(size: int, dy: nat, dx: nat)
    requires 1 <= size <= METATILE && dy < size && dx < size
    ensures 0 <= size * dy + dx < size * size && (size * dy + dx) % size == dx && (size * dy + dx) / size == dy
  {
    RowFits(size, dy);
    DivModUnique(size * dy + dx, size, dy, dx);
  }

  lemma RenderedRank(data: seq<Byte>, hs: seq<Header>, job: Tile, all: seq<Layer>, size: int, k: nat, r: nat)
    requires 1 <= size <= METATILE && LaidOut(data, hs, job, all, size) && k < |all| && r < |all[k].contents|
    requires forall i :: 0 <= i < k ==> all[i].format != all[k].format
    ensures ReadTile(data, Code(all[k].format), job.x + r % size, job.y + r / size) == all[k].contents[r]
  {
    hide HeaderRun, Concat, ReadTile, LayerTiles, HeadsLayers, Code;
    LayerReadsBack(hs, job, all, size, k, r);
  }

  // The reader finds in a metatile of the renderer exactly the tiles that it holds, and nothing else.
  lemma RenderedReads(data: seq<Byte>, hs: seq<Header>, job: Tile, all: seq<Layer>, size: int, f: Format,
                      x: int, y: int)
    requires 1 <= size <= METATILE && LaidOut(data, hs, job, all, size) && Square(all, size)
    requires NoMagic(Concat(LayerTiles(all))) && Align(x) == job.x && Align(y) == job.y
    ensures ReadTile(data, Code(f), x, y) == TileIn(all, size, f, y % METATILE, x % METATILE)
  {
    hide LaidOut, NoMagic, Concat, LayerTiles, ReadTile, Code, Align;
    var k := FindLayer(all, f, 0);
    if k.None? {
      RenderedAbsent(data, hs, job, all, size, f, x, y);
    } else if x % METATILE < size && y % METATILE < size {
      RenderedInside(data, hs, job, all, size, k.value, x, y);
    } else {
      RenderedOutside(data, hs, job, all, size, k.value, x, y);
    }
  }

  /* ---- a metatile rebuilt from responses ---- */

  // Where a format is in a mask's list.
  function FindFormat(fs: seq<Format>, f: Format, n: nat): (r: Option<nat>)
    requires n <= |fs|
    ensures r.Some? ==> n <= r.value < |fs| && fs[r.value] == f
    ensures r.None? ==> forall i :: n <= i < |fs| ==> fs[i] != f
    decreases |fs| - n
  {
    if n == |fs| then None else if fs[n] == f then Some(n) else FindFormat(fs, f, n + 1)
  }

  // The response for the tile in row y and column x of a format; nothing if there is no such tile.
  function ResponseIn(tile: Tile, responses: seq<seq<Byte>>, f: Format, y: nat, x: nat): seq<Byte>
    requires tile.z >= 0
  {
    var n, d := FindFormat(FormatList(tile.format), f, 0), MetaDim(tile.z);
    if n.Some? && y < d && x < d then Body(responses, d, n.value, y, x) else []
  }

  lemma RebuiltAbsent(data: seq<Byte>, hs: seq<Header>, tile: Tile, responses: seq<seq<Byte>>, f: Format,
                      x: int, y: int)
    requires tile.z >= 0 && RebuiltFrom(data, hs, tile, responses) && NoMagic(Concat(responses))
    requires FindFormat(FormatList(tile.format), f, 0) == None
    ensures ReadTile(data, Code(f), x, y) == []
  {
    hide HeaderRun, Concat, NoMagic, Encodable, Code, FormatList, MetaDim, FindFormat;
    forall i | 0 <= i < |hs| ensures hs[i].fmt != Code(f) {
      assert HeadsFormat(hs[i], FormatList(tile.format)[i], MetaDim(tile.z));
      CodesDiffer(FormatList(tile.format)[i], f);
    }
    LocateAbsent(hs, Concat(responses), Code(f), 0);
  }

  lemma RebuiltOutside(data: seq<Byte>, hs: seq<Header>, tile: Tile, responses: seq<seq<Byte>>, n: nat, x: int, y: int)
    requires tile.z >= 0 && RebuiltFrom(data, hs, tile, responses) && n < |hs|
    requires !(x % METATILE < MetaDim(tile.z) && y % METATILE < MetaDim(tile.z))
    ensures ReadTile(data, Code(FormatList(tile.format)[n]), x, y) == []
  {
    var fs, d := FormatList(tile.format), MetaDim(tile.z);
    FormatListDistinct(tile.format);
    UnoccupiedSlot(x, y, d);
    hide HeaderRun, Concat, ReadTile, Slot, Encodable, Code, FormatList, MetaDim, Occupied;
    forall i | 0 <= i <= n ensures hs[i].fmt == Code(fs[i]) {
      assert HeadsFormat(hs[i], fs[i], d);
    }
    ReadTileOf(hs, Concat(responses), n, x, y);
    assert HeadsFormat(hs[n], fs[n], d);
    EmptyEntry(data, hs[n].index[Slot(x, y)]);
  }

  lemma EmptyEntry(data: seq<Byte>, e: Entry)
    requires e.size == 0
    ensures Extract(data, e) == []
  {
  }

  lemma UnoccupiedSlot(x: int, y: int, d: int)
    requires !(x % METATILE < d && y % METATILE < d)
    ensures !Occupied(Slot(x, y), d)
  {
    SlotParts(0, y % METATILE, x % METATILE);
  }

  // The reader finds in a rebuilt metatile exactly the bodies it was rebuilt from, and nothing else.
  lemma RebuiltReads(data: seq<Byte>, hs: seq<Header>, tile: Tile, responses: seq<seq<Byte>>, f: Format, x: int, y: int)
    requires tile.z >= 0 && RebuiltFrom(data, hs, tile, responses) && ReadsBack(data, tile, responses)
    requires NoMagic(Concat(responses)) && Align(x) == Align(tile.x) && Align(y) == Align(tile.y)
    ensures ReadTile(data, Code(f), x, y) == ResponseIn(tile, responses, f, y % METATILE, x % METATILE)
  {
    var fs, d := FormatList(tile.format), MetaDim(tile.z);
    var n := FindFormat(fs, f, 0);
    RebuiltSize(hs, data, tile, responses);
    hide ReadTile, Body, Code, FormatList, MetaDim, Align, RebuiltFrom, ReadsBack, NoMagic, Concat;
    if n.None? {
      RebuiltAbsent(data, hs, tile, responses, f, x, y);
    } else if x % METATILE < d && y % METATILE < d {
      RebuiltInside(data, tile, responses, n.value, x, y);
    } else {
      RebuiltOutside(data, hs, tile, responses, n.value, x, y);
    }
  }

  lemma RebuiltSize(hs: seq<Header>, data: seq<Byte>, tile: Tile, responses: seq<seq<Byte>>)
    requires tile.z >= 0 && RebuiltFrom(data, hs, tile, responses)
    ensures |hs| == |FormatList(tile.format)|
  {
  }

  lemma RebuiltInside(data: seq<Byte>, tile: Tile, responses: seq<seq<Byte>>, n: nat, x: int, y: int)
    requires tile.z >= 0 && ReadsBack(data, tile, responses) && n < |FormatList(tile.format)|
    requires Align(x) == Align(tile.x) && Align(y) == Align(tile.y)
    requires x % METATILE < MetaDim(tile.z) && y % METATILE < MetaDim(tile.z)
    ensures ReadTile(data, Code(FormatList(tile.format)[n]), x, y) ==
      Body(responses, MetaDim(tile.z), n, y % METATILE, x % METATILE)
  {
    hide ReadTile, Body, Code, FormatList, MetaDim, Align;
    AlignedOffset(x, tile.x);
    AlignedOffset(y, tile.y);
  }

  lemma AlignedOffset(v: int, w: int)
    requires Align(v) == Align(w)
    ensures v == Align(w) + v % METATILE
  {
  }
}
