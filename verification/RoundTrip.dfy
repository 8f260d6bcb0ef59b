/** From the renderer into the store and back: what was rendered is what is read. */
module RoundTrip {
  import opened Tiles
  import opened Runs
  import opened MetatileCodec
  import opened MetatileWriters
  import opened MetatileReads
  import opened LtsStorage

  /* ---- a rendered metatile can be stored ---- */

  // Tile data right after the headers that looks like one more header.
  predicate MimicsHeader(body: seq<Byte>) {
    OkHeader(body, 0)
  }

  lemma FieldInBody(hs: seq<Header>, body: seq<Byte>, lo: nat)
    requires AllEncodable(hs) && |body| >= HEADER_SIZE && lo + 4 <= HEADER_SIZE
    ensures |HeaderRun(hs)| == HEADER_SIZE * |hs|
    ensures ReadInt32(HeaderRun(hs) + body, HEADER_SIZE * |hs| + lo) == ReadInt32(body, lo)
    ensures (HeaderRun(hs) + body)[HEADER_SIZE * |hs|..HEADER_SIZE * |hs| + 4] == body[0..4]
  {
    HeaderRunLength(hs);
    var run, at := HeaderRun(hs), HEADER_SIZE * |hs|;
    hide HeaderRun, Signed;
    SliceOfBack(run, body, 0, 4);
    assert (run + body)[at + lo] == body[lo] && (run + body)[at + lo + 1] == body[lo + 1];
    assert (run + body)[at + lo + 2] == body[lo + 2] && (run + body)[at + lo + 3] == body[lo + 3];
  }

  lemma MimicIsHeader(hs: seq<Header>, body: seq<Byte>)
    requires AllEncodable(hs)
    ensures OkHeader(HeaderRun(hs) + body, |hs|) <==> MimicsHeader(body)
  {
    HeaderRunLength(hs);
    if |body| >= HEADER_SIZE {
      hide HeaderRun, ReadInt32;
      FieldInBody(hs, body, 20);
    }
  }

  // Every header written is counted, and no more, unless the tile data mimics one.
  lemma {:induction false} RenderedHeaderCount(meta: seq<Byte>, hs: seq<Header>, job: Tile, all: seq<Layer>, size: int)
    requires 1 <= size <= METATILE && LaidOut(meta, hs, job, all, size)
    requires !MimicsHeader(Concat(LayerTiles(all)))
    ensures HeaderCount(meta) == |all|
  {
    hide HeaderRun, Concat, OkHeader, HeaderCount, Encodable;
    forall h | h in hs ensures h.fmt % 16 != 0 {
      var i :| 0 <= i < |hs| && hs[i] == h;
      assert HeadsLayer(hs[i], job, all, size, i);
    }
    WrittenHeadersCount(hs, Concat(LayerTiles(all)));
    MimicIsHeader(hs, Concat(LayerTiles(all)));
  }

  lemma RenderedHeader(meta: seq<Byte>, hs: seq<Header>, job: Tile, all: seq<Layer>, size: int, k: nat)
    requires 1 <= size <= METATILE && LaidOut(meta, hs, job, all, size) && k < |all|
    ensures OkHeader(meta, k) && FmtAt(meta, k) == Code(all[k].format) && CountAt(meta, k) == SLOTS
    ensures forall i :: 0 <= i < SLOTS ==> EntryAt(meta, k, i) == hs[k].index[i]
    ensures HeadsLayer(hs[k], job, all, size, k)
  {
    hide HeaderRun, Concat, FmtAt, CountAt, MagicAt, EntryAt;
    assert HeadsLayer(hs[k], job, all, size, k);
    HeadersReadBack(hs, Concat(LayerTiles(all)), k);
    FixedFieldsReadBack(meta, k, hs[k]);
    forall i | 0 <= i < SLOTS ensures EntryAt(meta, k, i) == hs[k].index[i] {
      EntryReadsBack(meta, k, hs[k], i);
    }
  }

  // Every entry of a rendered header lies in the file.
  lemma RenderedEntryInFile(meta: seq<Byte>, hs: seq<Header>, job: Tile, all: seq<Layer>, size: int, k: nat, i: nat)
    requires 1 <= size <= METATILE && LaidOut(meta, hs, job, all, size) && k < |all| && i < SLOTS
    ensures InFile(meta, hs[k].index[i])
  {
    var contents := all[k].contents;
    assert HeadsLayer(hs[k], job, all, size, k);
    if IsPlace(job, size, |contents|, i) {
      var r :| 0 <= r < |contents| && PlaceOf(job, size, r) == i;
      var before := LayerTiles(all[..k]);
      HeaderRunLength(hs);
      LayerTilesUpTo(all, k);
      hide HeaderRun, Concat, PlaceOf, IsPlace, LayerTiles;
      ConcatAt(contents, r);
    }
  }

  lemma LayerTilesUpTo(all: seq<Layer>, k: nat)
    requires k < |all|
    ensures |Concat(LayerTiles(all[..k]))| + |Concat(all[k].contents)| <= |Concat(LayerTiles(all))|
  {
    LayerTilesSnoc(all, k);
    LayerTilesPrefix(all, k + 1);
  }

  lemma RenderedIsProper(meta: seq<Byte>, hs: seq<Header>, job: Tile, all: seq<Layer>, size: int)
    requires 1 <= size <= METATILE && LaidOut(meta, hs, job, all, size)
    requires !MimicsHeader(Concat(LayerTiles(all)))
    requires DistinctFormats(all)
    ensures HeaderCount(meta) == |all| && ProperHeaders(meta)
  {
    hide HeaderCount, LaidOut, FmtAt, CountAt, TilesInFile, OkHeader, HasHeader, MimicsHeader, Concat, LayerTiles;
    RenderedHeaderCount(meta, hs, job, all, size);
    forall k | 0 <= k < |all|
      ensures OkHeader(meta, k) && HasHeader(meta, k) && FmtAt(meta, k) == Code(all[k].format)
      ensures CountAt(meta, k) == SLOTS && TilesInFile(meta, k)
    {
      RenderedHeaderIsSound(meta, hs, job, all, size, k);
    }
  }

  lemma RenderedHeaderIsSound(meta: seq<Byte>, hs: seq<Header>, job: Tile, all: seq<Layer>, size: int, k: nat)
    requires 1 <= size <= METATILE && LaidOut(meta, hs, job, all, size) && k < |all|
    ensures OkHeader(meta, k) && HasHeader(meta, k) && FmtAt(meta, k) == Code(all[k].format)
    ensures CountAt(meta, k) == SLOTS && TilesInFile(meta, k)
  {
    hide LaidOut, FmtAt, CountAt, EntryAt, OkHeader, HasHeader, InFile;
    RenderedHeader(meta, hs, job, all, size, k);
    OkIsHeader(meta, k);
    forall i | 0 <= i < SLOTS ensures InFile(meta, EntryAt(meta, k, i)) {
      RenderedEntryInFile(meta, hs, job, all, size, k, i);
    }
  }

  lemma OkIsHeader(data: seq<Byte>, k: nat)
    requires OkHeader(data, k)
    ensures HasHeader(data, k)
  {
  }

  // The tiles of a layer that fills the metatile are all there.
  predicate FilledLayer(layer: Layer, size: int) {
    |layer.contents| == size * size && forall tile <- layer.contents :: tile != []
  }

  lemma RenderedLayerIsFull(meta: seq<Byte>, hs: seq<Header>, job: Tile, all: seq<Layer>, size: int, k: nat)
    requires 1 <= size <= METATILE && LaidOut(meta, hs, job, all, size) && k < |all|
    requires Align(job.x) == job.x && Align(job.y) == job.y && FilledLayer(all[k], size)
    ensures FullLayer(meta, all[k].format, size, k)
  {
    RenderedHeader(meta, hs, job, all, size, k);
    OkIsHeader(meta, k);
    hide LaidOut, FmtAt, CountAt, EntryAt, OkHeader, HasHeader, Slot, HeadsLayer, FilledLayer;
    forall y, x | 0 <= y < size && 0 <= x < size ensures HoldsTile(meta, (k, Slot(x, y))) {
      LayerEntryNotEmpty(hs[k], job, all, size, k, y, x);
    }
  }

  lemma LayerEntryNotEmpty(h: Header, job: Tile, all: seq<Layer>, size: int, k: nat, y: nat, x: nat)
    requires 1 <= size <= METATILE && k < |all| && HeadsLayer(h, job, all, size, k) && FilledLayer(all[k], size)
    requires Align(job.x) == job.x && Align(job.y) == job.y && y < size && x < size
    ensures h.index[Slot(x, y)].size != 0
  {
    hide Concat, LayerTiles, PlaceOf, Slot, EmptyElsewhere, Align;
    var r := size * y + x;
    PlaceOfAligned(job, size, y, x);
    assert h.index[PlaceOf(job, size, r)].size == |all[k].contents[r]|;
    assert all[k].contents[r] in all[k].contents;
  }

  lemma PlaceOfAligned(job: Tile, size: int, y: nat, x: nat)
    requires 1 <= size <= METATILE && y < size && x < size && Align(job.x) == job.x && Align(job.y) == job.y
    ensures size * y + x < size * size && PlaceOf(job, size, size * y + x) == Slot(x, y)
  {
    PlaceInRun(size, size, y, x);
    PlaceAt(job, size, y, x);
    SlotParts8(job, y, x);
  }

  /* A metatile that the renderer has built for a whole metatile of the grid, without empty tiles and without tile
     data that looks like a header, is complete for every mask of its formats. */
  lemma RenderedIsComplete(meta: seq<Byte>, hs: seq<Header>, job: Tile, all: seq<Layer>)
    requires job.z >= 0 && Align(job.x) == job.x && Align(job.y) == job.y
    requires LaidOut(meta, hs, job, all, MetaDim(job.z)) && !MimicsHeader(Concat(LayerTiles(all)))
    requires DistinctFormats(all)
    requires forall layer <- all :: FilledLayer(layer, MetaDim(job.z))
    requires forall f <- FormatList(job.format) :: exists k: nat :: k < |all| && all[k].format == f
    ensures Complete(job, meta)
  {
    var d := MetaDim(job.z);
    hide LaidOut, ProperHeaders, FullLayer, FormatList, MetaDim, HeaderCount;
    RenderedIsProper(meta, hs, job, all, d);
    forall f | f in FormatList(job.format)
      ensures exists k: nat :: k < HeaderCount(meta) && FullLayer(meta, f, d, k)
    {
      var k: nat :| k < |all| && all[k].format == f;
      RenderedLayerIsFull(meta, hs, job, all, d, k);
    }
  }

  /* ---- the rebuilt metatile is no longer than the rendered one ---- */

  function Bytes(layers: seq<Layer>): nat {
    |Concat(LayerTiles(layers))|
  }

  lemma BytesSnoc(layers: seq<Layer>, layer: Layer)
    ensures LayerTiles(layers + [layer]) == LayerTiles(layers) + layer.contents
    ensures Bytes(layers + [layer]) == Bytes(layers) + |Concat(layer.contents)|
  {
    assert (layers + [layer])[..|layers|] == layers;
    ConcatAppend(LayerTiles(layers), layer.contents);
  }

  lemma {:induction false} BytesAppend(a: seq<Layer>, b: seq<Layer>)
    ensures Bytes(a + b) == Bytes(a) + Bytes(b)
  {
    if b == [] {
      assert a + b == a;
      assert Bytes([]) == 0;
    } else {
      var n := |b| - 1;
      hide Bytes;
      BytesAppend(a, b[..n]);
      assert a + b == (a + b[..n]) + [b[n]] && b == b[..n] + [b[n]];
      BytesSnoc(a + b[..n], b[n]);
      BytesSnoc(b[..n], b[n]);
    }
  }

  lemma BytesWithout(all: seq<Layer>, k: nat)
    requires k < |all|
    ensures Bytes(all) == Bytes(all[..k] + all[k + 1..]) + |Concat(all[k].contents)|
  {
    hide Bytes;
    assert all == (all[..k] + [all[k]]) + all[k + 1..];
    BytesAppend(all[..k] + [all[k]], all[k + 1..]);
    BytesSnoc(all[..k], all[k]);
    BytesAppend(all[..k], all[k + 1..]);
  }

  predicate DistinctFormats(layers: seq<Layer>) {
    forall i, j :: 0 <= i < j < |layers| ==> layers[i].format != layers[j].format
  }

  // Different layers picked from a metatile are no longer than all of it.
  lemma {:induction false} BytesOfSome(picks: seq<Layer>, all: seq<Layer>)
    requires DistinctFormats(picks) && forall p <- picks :: p in all
    ensures Bytes(picks) <= Bytes(all)
  {
    if picks != [] {
      var n := |picks| - 1;
      assert picks[n] in picks;
      var k :| 0 <= k < |all| && all[k] == picks[n];
      var rest := all[..k] + all[k + 1..];
      hide Bytes;
      forall p | p in picks[..n] ensures p in rest {
        assert p in picks;
        var i :| 0 <= i < |all| && all[i] == p;
        assert i != k;
      }
      BytesOfSome(picks[..n], rest);
      assert picks[..n] + [picks[n]] == picks;
      BytesSnoc(picks[..n], picks[n]);
      BytesWithout(all, k);
    } else {
      assert Bytes([]) == 0;
    }
  }

  function Contents(layers: seq<Layer>): seq<seq<seq<Byte>>> {
    seq(|layers|, i requires 0 <= i < |layers| => layers[i].contents)
  }

  lemma {:induction false} LayerTilesAreContents(layers: seq<Layer>)
    ensures LayerTiles(layers) == Concat(Contents(layers))
  {
    if layers != [] {
      var n := |layers| - 1;
      LayerTilesAreContents(layers[..n]);
      assert Contents(layers)[..n] == Contents(layers[..n]);
    }
  }

  // The layers that a mask asks for, in the order in which it lists them.
  ghost predicate Picks(picks: seq<Layer>, job: Tile, all: seq<Layer>) {
    |picks| == |FormatList(job.format)| &&
    forall n :: 0 <= n < |picks| ==> picks[n] in all && picks[n].format == FormatList(job.format)[n]
  }

  lemma {:induction false} PicksFor(job: Tile, all: seq<Layer>, n: nat) returns (picks: seq<Layer>)
    requires n <= |FormatList(job.format)|
    requires forall f <- FormatList(job.format) :: exists k: nat :: k < |all| && all[k].format == f
    ensures |picks| == n && forall i :: 0 <= i < n ==> picks[i] in all && picks[i].format == FormatList(job.format)[i]
  {
    hide FormatList;
    picks := [];
    if n > 0 {
      picks := PicksFor(job, all, n - 1);
      var f := FormatList(job.format)[n - 1];
      assert f in FormatList(job.format);
      var k: nat :| k < |all| && all[k].format == f;
      picks := picks + [all[k]];
    }
  }

  lemma PicksDiffer(picks: seq<Layer>, job: Tile, all: seq<Layer>)
    requires Picks(picks, job, all)
    ensures DistinctFormats(picks)
  {
    FormatListDistinct(job.format);
    hide FormatList;
  }

  // What the reader finds for a tile of a format is that tile of the layer of that format.
  lemma RenderedTile(meta: seq<Byte>, job: Tile, all: seq<Layer>, d: int, k: nat, y: nat, x: nat)
    requires 1 <= d <= METATILE && LayersReadBack(meta, job, all, d) && DistinctFormats(all)
    requires k < |all| && |all[k].contents| == d * d && y < d && x < d
    requires Align(job.x) == job.x && Align(job.y) == job.y
    ensures d * y + x < d * d && TileOf(job, meta, all[k].format, y, x) == all[k].contents[d * y + x]
  {
    hide ReadTile, Align;
    PlaceInRun(d, d, y, x);
    DivModUnique(d * y + x, d, y, x);
    var r := d * y + x;
    assert ReadTile(meta, Code(all[k].format), job.x + r % d, job.y + r / d) == all[k].contents[r];
  }

  lemma RenderedTileAt(meta: seq<Byte>, job: Tile, all: seq<Layer>, picks: seq<Layer>, j: nat)
    requires job.z >= 0 && LayersReadBack(meta, job, all, MetaDim(job.z)) && DistinctFormats(all)
    requires forall layer <- all :: |layer.contents| == MetaDim(job.z) * MetaDim(job.z)
    requires Align(job.x) == job.x && Align(job.y) == job.y && Picks(picks, job, all)
    requires j < |GetUrls(job, 0)|
    ensures j < |LayerTiles(picks)| && TilesOf(job, meta)[j] == LayerTiles(picks)[j]
  {
    var d, fs := MetaDim(job.z), FormatList(job.format);
    UrlCount(job, 0);
    hide MetaDim, FormatList, TileUrl, MaskUrls, LayersReadBack, TileOf, TilesOf, LayerTiles, Align;
    var n, y, x := MaskUrlIs(job, fs, d, j, 0);
    TileAt(job, meta, j, fs[n], y, x);
    var k :| 0 <= k < |all| && all[k] == picks[n];
    RenderedTile(meta, job, all, d, k, y, x);
    PickedTileAt(picks, d, n, y, x, j);
  }

  lemma PickedTileAt(picks: seq<Layer>, d: nat, n: nat, y: nat, x: nat, j: nat)
    requires n < |picks| && y < d && x < d && j == Rank(d, n, y, x)
    requires forall p <- picks :: |p.contents| == d * d
    ensures j < |LayerTiles(picks)| && d * y + x < d * d && LayerTiles(picks)[j] == picks[n].contents[d * y + x]
  {
    hide LayerTiles, Concat;
    LayerTilesAreContents(picks);
    PlaceInRun(d, d, y, x);
    ConcatElement(Contents(picks), d * d, n, d * y + x);
  }

  // The tiles that are fetched are those of the layers that the mask asks for, so they fit where all did.
  lemma FetchedFits(meta: seq<Byte>, job: Tile, all: seq<Layer>)
    requires job.z >= 0 && LayersReadBack(meta, job, all, MetaDim(job.z)) && DistinctFormats(all)
    requires forall layer <- all :: |layer.contents| == MetaDim(job.z) * MetaDim(job.z)
    requires Align(job.x) == job.x && Align(job.y) == job.y
    requires forall f <- FormatList(job.format) :: exists k: nat :: k < |all| && all[k].format == f
    ensures |Concat(TilesOf(job, meta))| <= |Concat(LayerTiles(all))| && |FormatList(job.format)| <= |all|
  {
    var picks := PicksFor(job, all, |FormatList(job.format)|);
    hide LayersReadBack, LayerTiles, Concat, MetaDim, FormatList, Align;
    PicksDiffer(picks, job, all);
    BytesOfSome(picks, all);
    PicksCount(picks, all);
    forall j | 0 <= j < |TilesOf(job, meta)|
      ensures j < |LayerTiles(picks)| && TilesOf(job, meta)[j] == LayerTiles(picks)[j]
    {
      RenderedTileAt(meta, job, all, picks, j);
    }
    PicksLength(job, picks, all);
    assert TilesOf(job, meta) == LayerTiles(picks);
  }

  lemma PicksLength(job: Tile, picks: seq<Layer>, all: seq<Layer>)
    requires job.z >= 0 && Picks(picks, job, all)
    requires forall layer <- all :: |layer.contents| == MetaDim(job.z) * MetaDim(job.z)
    ensures |LayerTiles(picks)| == |GetUrls(job, 0)|
  {
    hide MetaDim, FormatList;
    UrlCount(job, 0);
    LayerTilesAreContents(picks);
    ConcatLength(Contents(picks), MetaDim(job.z) * MetaDim(job.z));
  }

  lemma {:induction false} PicksCount(picks: seq<Layer>, all: seq<Layer>)
    requires DistinctFormats(picks) && forall p <- picks :: p in all
    ensures |picks| <= |all|
  {
    if picks != [] {
      var n := |picks| - 1;
      assert picks[n] in picks;
      var k :| 0 <= k < |all| && all[k] == picks[n];
      var rest := all[..k] + all[k + 1..];
      forall p | p in picks[..n] ensures p in rest {
        assert p in picks;
        var i :| 0 <= i < |all| && all[i] == p;
        assert i != k;
      }
      PicksCount(picks[..n], rest);
    }
  }

  /* ---- render, put, get and read ---- */

  // A whole metatile of the grid with every format asked for, no empty tile and no tile data like a header.
  predicate Storable(job: Tile, all: seq<Layer>)
    requires job.z >= 0
  {
    && Align(job.x) == job.x && Align(job.y) == job.y && DistinctFormats(all)
    && (forall layer <- all :: FilledLayer(layer, MetaDim(job.z)))
    && (forall f <- FormatList(job.format) :: exists k: nat :: k < |all| && all[k].format == f)
    && !MimicsHeader(Concat(LayerTiles(all)))
  }

  // The reader finds, as tile (x, y) of a layer's format, that tile of the layer.
  predicate IsTile(job: Tile, meta: seq<Byte>, layer: Layer, d: int, y: nat, x: nat) {
    0 <= d * y + x < |layer.contents| && TileOf(job, meta, layer.format, y, x) == layer.contents[d * y + x]
  }

  // The reader finds every tile of every layer that the mask asks for.
  ghost predicate HasTiles(job: Tile, meta: seq<Byte>, all: seq<Layer>)
    requires job.z >= 0
  {
    forall k, y: nat, x: nat ::
      0 <= k < |all| && all[k].format in job.format && y < MetaDim(job.z) && x < MetaDim(job.z) ==>
      IsTile(job, meta, all[k], MetaDim(job.z), y, x)
  }

  lemma StorableFits(meta: seq<Byte>, hs: seq<Header>, job: Tile, all: seq<Layer>)
    requires job.z >= 0 && Storable(job, all) && LaidOut(meta, hs, job, all, MetaDim(job.z))
    requires LayersReadBack(meta, job, all, MetaDim(job.z))
    ensures Complete(job, meta) && Bounded(meta, HeaderCount(meta))
    ensures |Concat(TilesOf(job, meta))| <= |Concat(LayerTiles(all))| && |FormatList(job.format)| <= |all|
  {
    hide LaidOut, LayersReadBack, Complete, Concat, LayerTiles, TilesOf, FormatList, MimicsHeader, Align, MetaDim;
    RenderedIsComplete(meta, hs, job, all);
    CompleteIsBounded(job, meta);
    FetchedFits(meta, job, all);
  }

  // A metatile that gives the same bytes for every tile as the rendered one has the rendered tiles.
  lemma SameTilesHaveTiles(job: Tile, meta: seq<Byte>, rebuilt: seq<Byte>, all: seq<Layer>)
    requires job.z >= 0 && Storable(job, all) && LayersReadBack(meta, job, all, MetaDim(job.z))
    requires SameTiles(job, rebuilt, meta)
    ensures HasTiles(job, rebuilt, all)
  {
    var d := MetaDim(job.z);
    StorableCounts(job, all);
    hide MetaDim, FormatList, LayersReadBack, TileOf, Align, MimicsHeader, IsTile, FilledLayer, SameTiles;
    forall k, y: nat, x: nat | 0 <= k < |all| && all[k].format in job.format && y < d && x < d
      ensures IsTile(job, rebuilt, all[k], d, y, x)
    {
      FormatListIs(job.format, all[k].format);
      SameTileAt(job, rebuilt, meta, all[k].format, y, x);
      RenderedIsTile(meta, job, all, d, k, y, x);
      SameIsTile(job, meta, rebuilt, all[k], d, y, x);
    }
  }

  lemma RenderedIsTile(meta: seq<Byte>, job: Tile, all: seq<Layer>, d: int, k: nat, y: nat, x: nat)
    requires 1 <= d <= METATILE && LayersReadBack(meta, job, all, d) && DistinctFormats(all)
    requires k < |all| && |all[k].contents| == d * d && y < d && x < d
    requires Align(job.x) == job.x && Align(job.y) == job.y
    ensures IsTile(job, meta, all[k], d, y, x)
  {
    hide LayersReadBack, TileOf, Align;
    RenderedTile(meta, job, all, d, k, y, x);
  }

  lemma SameIsTile(job: Tile, meta: seq<Byte>, rebuilt: seq<Byte>, layer: Layer, d: int, y: nat, x: nat)
    requires IsTile(job, meta, layer, d, y, x)
    requires TileOf(job, rebuilt, layer.format, y, x) == TileOf(job, meta, layer.format, y, x)
    ensures IsTile(job, rebuilt, layer, d, y, x)
  {
  }

  lemma StorableCounts(job: Tile, all: seq<Layer>)
    requires job.z >= 0 && Storable(job, all)
    ensures forall k :: 0 <= k < |all| ==> |all[k].contents| == MetaDim(job.z) * MetaDim(job.z)
  {
    hide MetaDim, MimicsHeader;
    forall k | 0 <= k < |all| ensures |all[k].contents| == MetaDim(job.z) * MetaDim(job.z) {
      assert all[k] in all;
    }
  }

  /* The renderer builds a metatile, the store splits it, and it is rebuilt from what the hosts then hold: if the first
     copies were all acknowledged, the reader finds every tile of every format that was asked for as it was rendered. */
  method RenderPutGet(job: Tile, layers: seq<Layer>, metadata: Option<seq<seq<Byte>>>, store: Store, now: int,
                      net: Transport, rs1: seq<Response>)
    returns (meta: seq<Byte>, ok: Option<bool>, r: Option<seq<Byte>>)
    requires Buildable(job) && now != INVALID_TIMESTAMP && Storable(job, AllLayers(layers, metadata))
    requires HEADER_SIZE * |AllLayers(layers, metadata)| + Bytes(AllLayers(layers, metadata)) < 0x8000_0000
    requires |rs1| == MetaDim(job.z) * MetaDim(job.z) * |FormatList(job.format)|
    ensures Complete(job, meta)
    ensures ok == Some(FirstAccepted(AllPuts(job, meta), net) || SecondAccepted(AllPuts(job, meta), net))
    ensures FirstAccepted(AllPuts(job, meta), net) ==> r.Some? && HasTiles(job, r.value, AllLayers(layers, metadata))
  {
    ghost var hs;
    ghost var all := AllLayers(layers, metadata);
    StorableCounts(job, all);
    hide MetaDim, FormatList, Concat, LayerTiles, LaidOut, LayersReadBack, Complete, Storable, AllLayers, AllPuts,
      FirstAccepted, SecondAccepted, TilesOf, HasTiles, HeaderCount, SameTiles;
    meta, hs := MakeMeta(job, layers, metadata, MetaDim(job.z));
    StorableFits(meta, hs, job, all);
    ok, r := PutThenGet(job, meta, store, now, net, rs1);
    if FirstAccepted(AllPuts(job, meta), net) {
      SameTilesHaveTiles(job, meta, r.value, all);
    }
  }

  /* ---- a put that reports success and is not read ---- */

  const ONE_TILE := Tile(Render, 0, 0, 0, 1, "", {PNG}, 0, 0, [])

  // The only tile of zoom 0, of one byte.
  const ONE_LAYER := [Layer(PNG, [[1]])]

  function OneHeader(): Header {
    Header(0, 0, 0, 1, seq(SLOTS, i => if i == 0 then Entry(HEADER_SIZE, 1) else Entry(0, 0)))
  }

  function OneMeta(): seq<Byte>
    requires AllEncodable([OneHeader()])
  {
    HeaderRun([OneHeader()]) + [1]
  }

  lemma OneLayerBytes()
    ensures Concat(LayerTiles(ONE_LAYER)) == [1] && Concat(LayerTiles(ONE_LAYER[..0])) == []
  {
    assert ONE_LAYER[..0] == [];
    assert LayerTiles(ONE_LAYER) == [[1]];
    assert [[1 as Byte]][..0] == [];
  }

  lemma OneIndex()
    ensures PlacesLayer(OneHeader().index, ONE_TILE, 1, [[1]], HEADER_SIZE)
    ensures EmptyElsewhere(OneHeader().index, ONE_TILE, 1, 1)
  {
    assert PlaceOf(ONE_TILE, 1, 0) == 0;
    assert IsPlace(ONE_TILE, 1, 1, 0);
    assert Concat([[1 as Byte]][..0]) == [];
  }

  lemma OneMetaIsLaidOut()
    ensures AllEncodable([OneHeader()]) && LaidOut(OneMeta(), [OneHeader()], ONE_TILE, ONE_LAYER, 1)
  {
    OneLayerBytes();
    OneIndex();
    hide HeaderRun, Concat, LayerTiles, PlacesLayer, EmptyElsewhere;
    assert HeadsLayer(OneHeader(), ONE_TILE, ONE_LAYER, 1, 0);
  }

  lemma OneUrl()
    ensures |GetUrls(ONE_TILE, 0)| == 1 && GetUrls(ONE_TILE, 0)[0] == TileUrl(ONE_TILE, PNG, 0, 0, 0)
  {
    UrlCount(ONE_TILE, 0);
    hide GetUrls;
    var f, y, x := GetUrlIs(ONE_TILE, 0);
    assert FormatList(ONE_TILE.format) == [PNG];
  }

  lemma OneMetaIsComplete()
    ensures AllEncodable([OneHeader()]) && Complete(ONE_TILE, OneMeta())
  {
    OneMetaIsLaidOut();
    OneLayerBytes();
    assert FormatList(ONE_TILE.format) == [PNG];
    assert !MimicsHeader([1]);
    hide LaidOut, Concat, LayerTiles, Complete, OneMeta, OneHeader, FormatList, MimicsHeader;
    RenderedIsComplete(OneMeta(), [OneHeader()], ONE_TILE, ONE_LAYER);
  }

  lemma OneMetaTiles()
    ensures AllEncodable([OneHeader()]) && TilesOf(ONE_TILE, OneMeta()) == [[1]]
  {
    OneMetaIsLaidOut();
    OneUrl();
    hide LaidOut, GetUrls, OneMeta, OneHeader, ReadTile;
    RenderedRank(OneMeta(), [OneHeader()], ONE_TILE, ONE_LAYER, 1, 0, 0);
    TileAt(ONE_TILE, OneMeta(), 0, PNG, 0, 0);
  }

  // Every host of a second copy accepts, and no other.
  predicate OnlySecond(url: Url) {
    url.replica == 1
  }

  function OneNet(serial: bool, reached: Url -> bool): Transport {
    Transport(serial, false, false, OnlySecond, reached)
  }

  // The first copy of the tile, of another byte, from before.
  function OneStore(): Store {
    map[TileUrl(ONE_TILE, PNG, 0, 0, 0) := Copy([2], 5)]
  }

  // A good first copy that differs and is not written hides what was put.
  lemma OldCopyHides(tile: Tile, data: seq<Byte>, store: Store, now: int, net: Transport, j: nat)
    requires tile.z >= 0 && Complete(tile, data) && Bounded(data, HeaderCount(data)) && now != INVALID_TIMESTAMP
    requires SecondAccepted(AllPuts(tile, data), net) && j < |GetUrls(tile, 0)|
    requires forall i :: 0 <= i < |GetUrls(tile, 0)| ==>
      Written(tile, data, net, GetUrls(tile, 0)[i]) || Good(Respond(store, GetUrls(tile, 0)[i]))
    requires !Written(tile, data, net, GetUrls(tile, 0)[j])
    requires Respond(store, GetUrls(tile, 0)[j]).body != TilesOf(tile, data)[j]
    ensures var after := BothPosted(store, AllPuts(tile, data), now, net.serial, net.accepts);
      var rs0, rs1 := Fetched(after, GetUrls(tile, 0)), Fetched(after, GetUrls(tile, 1));
      |rs0| == |rs1| && Bodies(Chosen(rs0, rs1)) != TilesOf(tile, data)
  {
    hide Complete, Bounded, HeaderCount, GetUrls, AllPuts, BothPosted, TilesOf, Chosen, Written, SecondAccepted,
      Respond, Bodies;
    ReadsBackIff(tile, data, store, now, net);
    var was := Fetched(store, GetUrls(tile, 0));
    assert was[j] == Respond(store, GetUrls(tile, 0)[j]);
    assert !WrittenTiles(tile, data, net)[j];
  }

  lemma NotWritten(tile: Tile, data: seq<Byte>, net: Transport, url: Url)
    requires Bounded(data, HeaderCount(data)) && !net.accepts(url)
    ensures !Written(tile, data, net, url)
  {
  }

  lemma MirroredAccepted(puts: seq<Put>, serial: bool, reached: Url -> bool)
    ensures SecondAccepted(puts, OneNet(serial, reached))
  {
  }

  /* Only second copies are accepted, and the first copy of the tile holds an older good one: the put reports success,
     and the metatile is rebuilt from the old bytes. */
  lemma StalePut(serial: bool, now: int, reached: Url -> bool)
    requires now != INVALID_TIMESTAMP
    ensures AllEncodable([OneHeader()]) && Complete(ONE_TILE, OneMeta()) && Bounded(OneMeta(), HeaderCount(OneMeta()))
    ensures var net, puts := OneNet(serial, reached), AllPuts(ONE_TILE, OneMeta());
      var after := BothPosted(OneStore(), puts, now, serial, net.accepts);
      var rs0, rs1 := Fetched(after, GetUrls(ONE_TILE, 0)), Fetched(after, GetUrls(ONE_TILE, 1));
      SecondAccepted(puts, net) && |rs0| == |rs1| && Bodies(Chosen(rs0, rs1)) != TilesOf(ONE_TILE, OneMeta())
  {
    OneMetaIsComplete();
    OneMetaTiles();
    OneUrl();
    CompleteIsBounded(ONE_TILE, OneMeta());
    var net, url := OneNet(serial, reached), GetUrls(ONE_TILE, 0)[0];
    hide OneMeta, OneHeader, Complete, HeaderCount, Bounded, GetUrls, AllPuts, BothPosted, TilesOf, Chosen, Attempted,
      Bodies, SecondAccepted, Written;
    MirroredAccepted(AllPuts(ONE_TILE, OneMeta()), serial, reached);
    NotWritten(ONE_TILE, OneMeta(), net, url);
    OldCopyHides(ONE_TILE, OneMeta(), OneStore(), now, net, 0);
  }
}
