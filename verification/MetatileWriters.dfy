/** The two metatile writers: the C++ one that rebuilds a metatile from HTTP responses and the renderer's Python one. */
module MetatileWriters {
  import opened Tiles
  import opened Runs
  import opened MetatileCodec
  import opened Powers

  function Sum(s: seq<int>): int {
    if s == [] then 0 else Sum(s[..|s| - 1]) + s[|s| - 1]
  }

  lemma {:induction false} SumPrefix(s: seq<int>, n: nat)
    requires n <= |s| && forall i :: 0 <= i < |s| ==> s[i] >= 0
    ensures 0 <= Sum(s[..n]) <= Sum(s)
  {
    if n == |s| {
      assert s[..n] == s;
      if n > 0 { SumPrefix(s[..n - 1], n - 1); assert s[..n - 1][..n - 1] == s[..n - 1]; }
    } else {
      SumPrefix(s[..|s| - 1], n);
      assert s[..|s| - 1][..n] == s[..n];
    }
  }

  /* ---- write_headers ---- */

  // Tile i of format f starts after all headers and all tiles listed before it.
  function IndexEntry(nf: nat, sizes: seq<int>, n: nat): Entry
    requires n < |sizes|
  {
    Entry(HEADER_SIZE * nf + Sum(sizes[..n]), sizes[n])
  }

  ghost predicate IndexesFormat(h: Header, formats: seq<Format>, sizes: seq<int>, f: nat)
    requires f < |formats| && |sizes| == SLOTS * |formats|
  {
    && h.fmt == Code(formats[f]) && |h.index| == SLOTS
    && forall i :: 0 <= i < SLOTS ==> h.index[i] == IndexEntry(|formats|, sizes, SLOTS * f + i)
  }

  // Headers 0, 1, ... are the headers of formats 0, 1, ...
  ghost predicate IndexesFormats(hs: seq<Header>, formats: seq<Format>, sizes: seq<int>)
    requires |hs| <= |formats| && |sizes| == SLOTS * |formats|
  {
    forall f :: 0 <= f < |hs| ==> IndexesFormat(hs[f], formats, sizes, f)
  }

  // No offset in the file leaves the range of a 32-bit integer.
  predicate Fits(formats: seq<Format>, sizes: seq<int>) {
    (forall i :: 0 <= i < |sizes| ==> sizes[i] >= 0) && HEADER_SIZE * |formats| + Sum(sizes) < 0x8000_0000
  }

  lemma EntryFits(formats: seq<Format>, sizes: seq<int>, n: nat)
    requires n < |sizes| && Fits(formats, sizes)
    ensures IsInt32(IndexEntry(|formats|, sizes, n).offset) && IsInt32(IndexEntry(|formats|, sizes, n).size)
  {
    SumPrefix(sizes, n);
    SumPrefix(sizes, n + 1);
    assert sizes[..n + 1][..n] == sizes[..n];
  }

  method IndexTiles(nf: nat, sizes: seq<int>, f: nat, start: int) returns (index: seq<Entry>, offset: int)
    requires f < nf && |sizes| == SLOTS * nf && start == HEADER_SIZE * nf + Sum(sizes[..SLOTS * f])
    ensures |index| == SLOTS && forall i :: 0 <= i < SLOTS ==> index[i] == IndexEntry(nf, sizes, SLOTS * f + i)
    ensures offset == HEADER_SIZE * nf + Sum(sizes[..SLOTS * (f + 1)])
  {
    index, offset := [], start;
    for i := 0 to SLOTS
      invariant |index| == i && forall j :: 0 <= j < i ==> index[j] == IndexEntry(nf, sizes, SLOTS * f + j)
      invariant offset == HEADER_SIZE * nf + Sum(sizes[..SLOTS * f + i])
    {
      var n := SLOTS * f + i;
      index := index + [Entry(offset, sizes[n])];
      offset := offset + sizes[n];
      assert sizes[..n + 1][..n] == sizes[..n];
    }
  }

  method WriteHeaders(x: int, y: int, z: int, formats: seq<Format>, sizes: seq<int>)
    returns (r: Option<seq<Byte>>, ghost hs: seq<Header>)
    requires IsInt32(x) && IsInt32(y) && IsInt32(z) && Fits(formats, sizes)
    ensures r.Some? <==> |sizes| == SLOTS * |formats|
    ensures r.Some? ==> |hs| == |formats| && AllEncodable(hs) && r.value == HeaderRun(hs)
    ensures r.Some? ==> IndexesFormats(hs, formats, sizes)
    ensures r.Some? ==> forall f :: 0 <= f < |hs| ==> hs[f].x == x && hs[f].y == y && hs[f].z == z
  {
    hide HeaderBytes, IndexEntry;
    hs := [];
    if |sizes| != SLOTS * |formats| {
      return None, hs;
    }
    assert sizes[..0] == [];
    var offset := HEADER_SIZE * |formats|;
    var headers: seq<Byte> := [];
    for f := 0 to |formats|
      invariant offset == HEADER_SIZE * |formats| + Sum(sizes[..SLOTS * f])
      invariant |hs| == f && AllEncodable(hs) && headers == HeaderRun(hs)
      invariant IndexesFormats(hs, formats, sizes)
      invariant forall g :: 0 <= g < f ==> hs[g].x == x && hs[g].y == y && hs[g].z == z
    {
      var index;
      index, offset := IndexTiles(|formats|, sizes, f, offset);
      forall i | 0 <= i < SLOTS ensures IsInt32(index[i].offset) && IsInt32(index[i].size) {
        EntryFits(formats, sizes, SLOTS * f + i);
      }
      var header := Header(x, y, z, Code(formats[f]), index);
      HeaderRunSnoc(hs, header);
      headers := headers + HeaderBytes(header);
      hs := hs + [header];
    }
    r := Some(headers);
  }

  lemma HeaderRunSnoc(hs: seq<Header>, h: Header)
    requires AllEncodable(hs) && Encodable(h)
    ensures HeaderRun(hs + [h]) == HeaderRun(hs) + HeaderBytes(h)
  {
    assert HeaderChunks(hs + [h])[..|hs|] == HeaderChunks(hs);
  }

  /* ---- make_metatile ---- */

  // How wide and high the metatiles of a zoom level are, in tiles.
  function MetaDim(z: int): (d: int)
    requires z >= 0
    ensures d == 1 || d == 2 || d == 4 || d == 8
  {
    if z == 0 then 1 else if z == 1 then 2 else if z == 2 then 4 else METATILE
  }

  // A zoom level is 2^z tiles wide, and a metatile at most eight.
  lemma MetaDimIs(z: nat)
    ensures MetaDim(z) == if Pow(2, z) < METATILE then Pow(2, z) else METATILE
  {
    if z >= 3 {
      PowMono(2, 3, z);
    }
    assert Pow(2, 1) == 2 && Pow(2, 2) == 4 && Pow(2, 3) == 8;
  }

  // Slot n of the size table, format by format and row by row, belongs to a tile that exists.
  predicate Occupied(n: nat, d: int) {
    n % METATILE < d && n / METATILE % METATILE < d
  }

  // How many of the first n slots are occupied.
  function Served(n: nat, d: int): nat {
    if n == 0 then 0 else Served(n - 1, d) + if Occupied(n - 1, d) then 1 else 0
  }

  lemma SlotParts(f: nat, y: nat, x: nat)
    requires y < METATILE && x < METATILE
    ensures (SLOTS * f + METATILE * y + x) % METATILE == x
    ensures (SLOTS * f + METATILE * y + x) / METATILE % METATILE == y
  {
    assert (SLOTS * f + METATILE * y + x) / METATILE == METATILE * f + y;
  }

  lemma {:induction false} ServedInRow(f: nat, y: nat, c: nat, d: int)
    requires y < METATILE && c <= METATILE && 0 <= d <= METATILE
    ensures Served(SLOTS * f + METATILE * y + c, d) ==
      Served(SLOTS * f + METATILE * y, d) + if y < d then (if c < d then c else d) else 0
  {
    if c > 0 {
      ServedInRow(f, y, c - 1, d);
      SlotParts(f, y, c - 1);
    }
  }

  // The occupied slots of the first y rows.
  function RowsArea(y: nat, d: int): int {
    if y == 0 then 0 else RowsArea(y - 1, d) + if y - 1 < d then d else 0
  }

  lemma {:induction false} RowsAreaIs(y: nat, d: int)
    requires d >= 0
    ensures RowsArea(y, d) == (if y < d then y else d) * d
  {
    if y > 0 { RowsAreaIs(y - 1, d); }
  }

  lemma {:induction false} ServedInFormat(f: nat, y: nat, d: int)
    requires y <= METATILE && 0 <= d <= METATILE
    ensures Served(SLOTS * f + METATILE * y, d) == Served(SLOTS * f, d) + RowsArea(y, d)
  {
    if y > 0 {
      ServedInFormat(f, y - 1, d);
      ServedInRow(f, y - 1, METATILE, d);
    }
  }

  lemma {:induction false} ServedFormats(f: nat, d: int)
    requires 0 <= d <= METATILE
    ensures Served(SLOTS * f, d) == d * d * f
  {
    if f > 0 {
      ServedFormats(f - 1, d);
      ServedInFormat(f - 1, METATILE, d);
      RowsAreaIs(METATILE, d);
      hide Served, RowsArea;
      OneMoreTimes(d * d, f);
    }
  }

  lemma OneMoreTimes(a: int, f: int)
    ensures a * f == a * (f - 1) + a
  {
  }

  // The occupied slot of a tile holds the response that was asked for in that place.
  lemma ServedAt(f: nat, y: nat, x: nat, d: int)
    requires 0 <= d <= METATILE && x < d && y < d
    ensures Occupied(SLOTS * f + METATILE * y + x, d)
    ensures Served(SLOTS * f + METATILE * y + x, d) == d * d * f + d * y + x
  {
    SlotParts(f, y, x);
    ServedInRow(f, y, x, d);
    ServedInFormat(f, y, d);
    ServedFormats(f, d);
    RowsAreaIs(y, d);
  }

  // The response for tile (x, y) of format f.
  function Body(responses: seq<seq<Byte>>, d: int, f: int, y: int, x: int): seq<Byte> {
    var r := d * d * f + d * y + x;
    if 0 <= r < |responses| then responses[r] else []
  }

  function SlotSize(responses: seq<seq<Byte>>, d: int, n: nat): int {
    if Occupied(n, d) && Served(n, d) < |responses| then |responses[Served(n, d)]| else 0
  }

  ghost predicate SizeTable(sizes: seq<int>, responses: seq<seq<Byte>>, d: int) {
    forall i :: 0 <= i < |sizes| ==> sizes[i] == SlotSize(responses, d, i)
  }

  // The table of sizes adds up to where a response's body will be written.
  lemma {:induction false} SizesAddUp(responses: seq<seq<Byte>>, d: int, sizes: seq<int>)
    requires SizeTable(sizes, responses, d) && Served(|sizes|, d) <= |responses|
    ensures Sum(sizes) == |Concat(responses[..Served(|sizes|, d)])|
  {
    if sizes != [] {
      var n := |sizes| - 1;
      SizesAddUp(responses, d, sizes[..n]);
      var k := Served(n, d);
      if Occupied(n, d) {
        assert responses[..k + 1][..k] == responses[..k];
      }
    }
  }

  // A mask lists each of its formats once.
  lemma FormatListDistinct(m: Formats)
    ensures forall i, j :: 0 <= i < j < |FormatList(m)| ==> Code(FormatList(m)[i]) != Code(FormatList(m)[j])
  {
  }

  ghost predicate ReadsBack(metatile: seq<Byte>, tile: Tile, responses: seq<seq<Byte>>)
    requires tile.z >= 0
  {
    var formats, d := FormatList(tile.format), MetaDim(tile.z);
    forall f, y, x :: 0 <= f < |formats| && 0 <= y < d && 0 <= x < d ==>
      Body(responses, d, f, y, x) == ReadTile(metatile, Code(formats[f]), Align(tile.x) + x, Align(tile.y) + y)
  }

  method TileSizes(nf: nat, d: int, responses: seq<seq<Byte>>) returns (sizes: seq<int>)
    requires 0 <= d <= METATILE && Served(SLOTS * nf, d) <= |responses|
    ensures |sizes| == SLOTS * nf && SizeTable(sizes, responses, d)
  {
    sizes := [];
    var r := 0;
    for f := 0 to nf
      invariant |sizes| == SLOTS * f && r == Served(|sizes|, d) && SizeTable(sizes, responses, d)
    {
      for y := 0 to METATILE
        invariant |sizes| == SLOTS * f + METATILE * y && r == Served(|sizes|, d) && SizeTable(sizes, responses, d)
      {
        for x := 0 to METATILE
          invariant |sizes| == SLOTS * f + METATILE * y + x && r == Served(|sizes|, d)
          invariant SizeTable(sizes, responses, d)
        {
          SlotParts(f, y, x);
          if x < d && y < d {
            ServedMonotone(|sizes| + 1, SLOTS * nf, d);
            sizes := sizes + [|responses[r]|];
            r := r + 1;
          } else {
            sizes := sizes + [0];
          }
        }
      }
    }
  }

  lemma {:induction false} ServedMonotone(n: nat, m: nat, d: int)
    requires n <= m
    ensures Served(n, d) <= Served(m, d)
  {
    if n < m { ServedMonotone(n, m - 1, d); }
  }

  /* Rebuilds a metatile from the bodies of the responses, which come format by format and row by row.
     The reader gets back exactly the body supplied for each tile. */
  method MakeMetatile(tile: Tile, responses: seq<seq<Byte>>) returns (metatile: seq<Byte>, ghost hs: seq<Header>)
    requires 0 <= tile.z < 31 && IsInt32(tile.x) && IsInt32(tile.y)
    requires MetaDim(tile.z) * MetaDim(tile.z) * |FormatList(tile.format)| <= |responses|
    requires HEADER_SIZE * |FormatList(tile.format)| + |Concat(responses)| < 0x8000_0000
    ensures ReadsBack(metatile, tile, responses)
    ensures RebuiltFrom(metatile, hs, tile, responses)
  {
    hide Concat, Served, ReadTile, Body, FormatList, MetaDim, IndexEntry, HeaderRun;
    var formats := FormatList(tile.format);
    var d := MetaDim(tile.z);
    ServedFormats(|formats|, d);
    var sizes := TileSizes(|formats|, d, responses);
    SizesAddUp(responses, d, sizes);
    ConcatPrefix(responses, Served(|sizes|, d));
    var headers;
    headers, hs := WriteHeaders(Align(tile.x), Align(tile.y), tile.z, formats, sizes);
    metatile := headers.value + Concat(responses);
    FormatListDistinct(tile.format);
    forall f, y, x | 0 <= f < |formats| && 0 <= y < d && 0 <= x < d
      ensures Body(responses, d, f, y, x) == ReadTile(metatile, Code(formats[f]), Align(tile.x) + x, Align(tile.y) + y)
    {
      BodyReadsBack(hs, formats, d, responses, sizes, f, y, x, tile.x, tile.y);
    }
    UnoccupiedAreEmpty(hs, formats, d, responses, sizes);
  }

  // The file is a header for each format, with empty entries where there is no tile, followed by the bodies.
  ghost predicate RebuiltFrom(metatile: seq<Byte>, hs: seq<Header>, tile: Tile, responses: seq<seq<Byte>>)
    requires tile.z >= 0
  {
    && |hs| == |FormatList(tile.format)| && AllEncodable(hs) && metatile == HeaderRun(hs) + Concat(responses)
    && (forall f :: 0 <= f < |hs| ==> HeadsFormat(hs[f], FormatList(tile.format)[f], MetaDim(tile.z)))
    && forall f :: 0 <= f < |hs| ==> hs[f].x == Align(tile.x) && hs[f].y == Align(tile.y) && hs[f].z == tile.z
  }

  ghost predicate HeadsFormat(h: Header, format: Format, d: int) {
    && h.fmt == Code(format) && |h.index| == SLOTS
    && forall i :: 0 <= i < SLOTS && !Occupied(i, d) ==> h.index[i].size == 0
  }

  lemma UnoccupiedAreEmpty(hs: seq<Header>, formats: seq<Format>, d: int, responses: seq<seq<Byte>>, sizes: seq<int>)
    requires |sizes| == SLOTS * |formats| && |hs| == |formats| && IndexesFormats(hs, formats, sizes)
    requires SizeTable(sizes, responses, d)
    ensures forall f :: 0 <= f < |hs| ==> HeadsFormat(hs[f], formats[f], d)
  {
    hide Served;
    forall f | 0 <= f < |hs| ensures HeadsFormat(hs[f], formats[f], d) {
      assert IndexesFormat(hs[f], formats, sizes, f);
      forall i | 0 <= i < SLOTS && !Occupied(i, d) ensures hs[f].index[i].size == 0 {
        OccupiedInFormat(f, i, d);
        assert hs[f].index[i] == IndexEntry(|formats|, sizes, SLOTS * f + i);
      }
    }
  }

  lemma OccupiedInFormat(f: nat, i: nat, d: int)
    requires i < SLOTS
    ensures Occupied(SLOTS * f + i, d) <==> Occupied(i, d)
  {
    SlotParts(f, i / METATILE, i % METATILE);
    assert i == METATILE * (i / METATILE) + i % METATILE;
  }

  lemma AlignedSlot(x: int, y: int, dx: nat, dy: nat)
    requires dx < METATILE && dy < METATILE
    ensures Slot(Align(x) + dx, Align(y) + dy) == METATILE * dy + dx
  {
    assert (Align(x) + dx) % METATILE == dx && (Align(y) + dy) % METATILE == dy;
  }

  lemma BodyReadsBack(hs: seq<Header>, formats: seq<Format>, d: int, responses: seq<seq<Byte>>, sizes: seq<int>,
                      f: nat, y: nat, x: nat, x0: int, y0: int)
    requires f < |formats| && y < d && x < d && d <= METATILE
    requires forall i, j :: 0 <= i < j < |formats| ==> Code(formats[i]) != Code(formats[j])
    requires |sizes| == SLOTS * |formats| && SizeTable(sizes, responses, d) && Served(|sizes|, d) <= |responses|
    requires |hs| == |formats| && AllEncodable(hs) && IndexesFormats(hs, formats, sizes)
    ensures Body(responses, d, f, y, x) ==
      ReadTile(HeaderRun(hs) + Concat(responses), Code(formats[f]), Align(x0) + x, Align(y0) + y)
  {
    var n := SLOTS * f + (METATILE * y + x);
    hide ReadTile, Slot, Served, Concat, HeaderRun, Encodable, Body, Align, IndexEntry, SizeTable, Occupied;
    BodyServed(responses, d, f, y, x);
    AlignedSlot(x0, y0, x, y);
    EntryPlaced(responses, d, sizes, n, |formats|);
    assert hs[f].index[METATILE * y + x] == IndexEntry(|formats|, sizes, n);
    PlacedTileReadsBack(hs, responses, f, Served(n, d), Align(x0) + x, Align(y0) + y);
  }

  lemma BodyServed(responses: seq<seq<Byte>>, d: int, f: nat, y: nat, x: nat)
    requires x < d && y < d && d <= METATILE
    ensures Occupied(SLOTS * f + (METATILE * y + x), d)
    ensures Served(SLOTS * f + (METATILE * y + x), d) < |responses| ==>
      Body(responses, d, f, y, x) == responses[Served(SLOTS * f + (METATILE * y + x), d)]
  {
    ServedAt(f, y, x, d);
  }

  lemma EntryPlaced(responses: seq<seq<Byte>>, d: int, sizes: seq<int>, n: nat, nf: nat)
    requires n < |sizes| && SizeTable(sizes, responses, d) && Served(|sizes|, d) <= |responses| && Occupied(n, d)
    ensures Served(n, d) < |responses|
    ensures IndexEntry(nf, sizes, n) ==
      Entry(HEADER_SIZE * nf + |Concat(responses[..Served(n, d)])|, |responses[Served(n, d)]|)
  {
    ServedMonotone(n + 1, |sizes|, d);
    SizesAddUp(responses, d, sizes[..n]);
  }

  /* ---- make_meta ---- */

  // The tiles of one format, row by row.
  datatype Layer = Layer(format: Format, contents: seq<seq<Byte>>)

  // The slot of tile r of a layer of a renderer job.
  function PlaceOf(job: Tile, size: int, r: nat): (i: nat)
    requires 1 <= size <= METATILE
    ensures i < SLOTS
  {
    Slot(job.x + r % size, job.y + r / size)
  }

  lemma DivModUnique(r: int, size: int, y: int, x: int)
    requires 1 <= size <= METATILE && 0 <= x < size && r == size * y + x
    ensures r / size == y && r % size == x
  {
    if size == 1 { assert r == y; }
    else if size == 2 { assert r == 2 * y + x; }
    else if size == 3 { assert r == 3 * y + x; }
    else if size == 4 { assert r == 4 * y + x; }
    else if size == 5 { assert r == 5 * y + x; }
    else if size == 6 { assert r == 6 * y + x; }
    else if size == 7 { assert r == 7 * y + x; }
    else { assert r == 8 * y + x; }
  }

  lemma ShiftedMod(a: int, x: nat, x': nat)
    requires x < METATILE && x' < METATILE && (a + x) % METATILE == (a + x') % METATILE
    ensures x == x'
  {
  }

  lemma RowBelow(size: int, s: nat)
    requires 1 <= size <= METATILE && s < size * size
    ensures s / size < size && s == size * (s / size) + s % size
  {
    var q := s / size;
    assert q >= size ==> size * q >= size * size;
  }

  // No two tiles of a layer share a slot, wherever the job lies on the grid.
  lemma PlacesDiffer(job: Tile, size: int, r: nat, s: nat)
    requires 1 <= size <= METATILE && r < s < size * size
    ensures PlaceOf(job, size, r) != PlaceOf(job, size, s)
  {
    hide Slot;
    RowBelow(size, s);
    RowBelow(size, r);
    if PlaceOf(job, size, r) == PlaceOf(job, size, s) {
      SlotsDiffer(job, r / size, r % size, s / size, s % size);
    }
  }

  lemma SlotsDiffer(job: Tile, y: nat, x: nat, v: nat, u: nat)
    requires y < METATILE && x < METATILE && v < METATILE && u < METATILE
    requires Slot(job.x + x, job.y + y) == Slot(job.x + u, job.y + v)
    ensures x == u && y == v
  {
    assert (job.x + x) % METATILE == (job.x + u) % METATILE && (job.y + y) % METATILE == (job.y + v) % METATILE;
    ShiftedMod(job.x, x, u);
    ShiftedMod(job.y, y, v);
  }

  // The table that points each tile's slot at the tile's bytes, the first tile starting at `start`.
  ghost predicate PlacesLayer(index: seq<Entry>, job: Tile, size: int, contents: seq<seq<Byte>>, start: int)
    requires 1 <= size <= METATILE
  {
    && |index| == SLOTS
    && forall r :: 0 <= r < |contents| ==>
      index[PlaceOf(job, size, r)] == Entry(start + |Concat(contents[..r])|, |contents[r]|)
  }

  // Slots that belong to none of the first r tiles are empty.
  ghost predicate EmptyElsewhere(index: seq<Entry>, job: Tile, size: int, r: nat)
    requires 1 <= size <= METATILE
  {
    forall i :: 0 <= i < |index| && !IsPlace(job, size, r, i) ==> index[i] == Entry(0, 0)
  }

  ghost predicate IsPlace(job: Tile, size: int, r: nat, i: nat)
    requires 1 <= size <= METATILE
  {
    exists s :: 0 <= s < r && PlaceOf(job, size, s) == i
  }

  class MetatileBuilder {
    const tile: Tile
    const size: int
    var metaTile: seq<Byte>
    var offset: int

    constructor (tile: Tile, size: int)
      ensures this.tile == tile && this.size == size && metaTile == [] && offset == 0
    {
      this.tile, this.size, metaTile, offset := tile, size, [], 0;
    }

    method OffsetHeader()
      modifies this
      ensures metaTile == old(metaTile) && offset == old(offset) + HEADER_SIZE
    {
      offset := offset + (|MAGIC| + 5 * 4);
      offset := offset + 2 * 4 * (METATILE * METATILE);
    }

    method WriteHeader(format: Format)
      requires IsInt32(tile.x) && IsInt32(tile.y) && IsInt32(tile.z)
      modifies this
      ensures offset == old(offset)
      ensures metaTile == old(metaTile) + FixedBytes(tile.x, tile.y, tile.z, Code(format))
    {
      metaTile := metaTile + FixedBytes(tile.x, tile.y, tile.z, Code(format));
    }

    method WriteOffsets(contents: seq<seq<Byte>>) returns (ghost index: seq<Entry>)
      requires 1 <= size <= METATILE && |contents| == size * size
      requires 0 <= offset && offset + |Concat(contents)| < 0x8000_0000
      modifies this
      ensures offset == old(offset) + |Concat(contents)|
      ensures |index| == SLOTS && EncodableEntries(index)
      ensures PlacesLayer(index, tile, size, contents, old(offset))
      ensures EmptyElsewhere(index, tile, size, |contents|)
      ensures metaTile == old(metaTile) + EntryBytes(index)
    {
      hide Concat, PlaceOf, EntryBytes;
      var table := MeasureTiles(contents);
      var bytes;
      bytes, index := TableBytes(table);
      metaTile := metaTile + bytes;
    }

    // The loop over the tiles: where each starts and how long it is.
    method MeasureTiles(contents: seq<seq<Byte>>) returns (table: map<nat, Entry>)
      requires 1 <= size <= METATILE && |contents| == size * size
      requires 0 <= offset && offset + |Concat(contents)| < 0x8000_0000
      modifies this
      ensures metaTile == old(metaTile) && offset == old(offset) + |Concat(contents)|
      ensures Tabled(table, tile, size, contents, old(offset), |contents|)
    {
      hide PlaceOf, Concat, Tabled, Slot;
      table := map[];
      var r := 0;
      TableStart(tile, size, contents, offset);
      for y := 0 to size
        invariant r == size * y <= |contents| && metaTile == old(metaTile)
        invariant offset == old(offset) + |Concat(contents[..r])|
        invariant Tabled(table, tile, size, contents, old(offset), r)
      {
        RowFits(size, y);
        for x := 0 to size
          invariant r == size * y + x <= |contents| && metaTile == old(metaTile)
          invariant offset == old(offset) + |Concat(contents[..r])|
          invariant Tabled(table, tile, size, contents, old(offset), r)
        {
          PlaceAt(tile, size, y, x);
          TableNext(table, tile, size, contents, old(offset), r, offset);
          table := table[Slot(tile.x + x, tile.y + y) := Entry(offset, |contents[r]|)];
          offset := offset + |contents[r]|;
          r := r + 1;
        }
      }
      assert contents[..r] == contents;
    }

    method WriteContents(contents: seq<seq<Byte>>)
      modifies this
      ensures offset == old(offset)
      ensures metaTile == old(metaTile) + Concat(contents)
    {
      for r := 0 to |contents|
        invariant offset == old(offset) && metaTile == old(metaTile) + Concat(contents[..r])
      {
        assert contents[..r + 1][..r] == contents[..r];
        metaTile := metaTile + contents[r];
      }
      assert contents[..|contents|] == contents;
    }
  }

  // The loop over the slots: absent tiles get an empty entry.
  method TableBytes(table: map<nat, Entry>) returns (bytes: seq<Byte>, ghost index: seq<Entry>)
    requires forall i :: i in table ==> IsInt32(table[i].offset) && IsInt32(table[i].size)
    ensures |index| == SLOTS && EncodableEntries(index) && bytes == EntryBytes(index)
    ensures forall i :: 0 <= i < SLOTS ==> index[i] == if i in table then table[i] else Entry(0, 0)
  {
    hide EntryPair, IsInt32;
    index, bytes := [], [];
    for mt := 0 to SLOTS
      invariant |index| == mt && EncodableEntries(index) && bytes == EntryBytes(index)
      invariant forall i :: 0 <= i < mt ==> index[i] == if i in table then table[i] else Entry(0, 0)
    {
      EmptyEntryFits();
      var e := if mt in table then table[mt] else Entry(0, 0);
      EntryBytesSnoc(index, e);
      bytes := bytes + EntryPair(e);
      index := index + [e];
    }
  }

  // The entries of the first r tiles are in the table, and each fits.
  ghost predicate Tabled(table: map<nat, Entry>, job: Tile, size: int, contents: seq<seq<Byte>>, start: int, r: nat)
    requires 1 <= size <= METATILE && r <= |contents|
  {
    && (forall i :: i in table ==> IsInt32(table[i].offset) && IsInt32(table[i].size) && IsPlace(job, size, r, i))
    && forall s :: 0 <= s < r ==>
      PlaceOf(job, size, s) in table &&
      table[PlaceOf(job, size, s)] == Entry(start + |Concat(contents[..s])|, |contents[s]|)
  }

  lemma EmptyEntryFits()
    ensures IsInt32(0)
  {
  }

  lemma PlaceAt(job: Tile, size: int, y: nat, x: nat)
    requires 1 <= size <= METATILE && x < size
    ensures PlaceOf(job, size, size * y + x) == Slot(job.x + x, job.y + y)
  {
    DivModUnique(size * y + x, size, y, x);
  }

  lemma EntryBytesSnoc(es: seq<Entry>, e: Entry)
    requires EncodableEntries(es) && IsInt32(e.offset) && IsInt32(e.size)
    ensures EncodableEntries(es + [e]) && EntryBytes(es + [e]) == EntryBytes(es) + EntryPair(e)
  {
    assert (es + [e])[..|es|] == es;
  }

  lemma RowFits(size: int, y: nat)
    requires y < size
    ensures size * y + size == size * (y + 1) <= size * size
  {
  }

  lemma TableStart(job: Tile, size: int, contents: seq<seq<Byte>>, start: int)
    requires 1 <= size <= METATILE
    ensures Tabled(map[], job, size, contents, start, 0)
    ensures Concat(contents[..0]) == []
  {
  }

  lemma TableNext(table: map<nat, Entry>, job: Tile, size: int, contents: seq<seq<Byte>>, start: int, r: nat,
                  offset: int)
    requires 1 <= size <= METATILE && r < |contents| == size * size
    requires 0 <= start && start + |Concat(contents)| < 0x8000_0000 && offset == start + |Concat(contents[..r])|
    requires Tabled(table, job, size, contents, start, r)
    ensures Tabled(table[PlaceOf(job, size, r) := Entry(offset, |contents[r]|)], job, size, contents, start, r + 1)
    ensures |Concat(contents[..r + 1])| == |Concat(contents[..r])| + |contents[r]|
  {
    hide PlaceOf, IsPlace, Concat;
    ConcatUpTo(contents, r);
    ConcatAt(contents, r);
    forall s | 0 <= s < r ensures PlaceOf(job, size, s) != PlaceOf(job, size, r) { PlacesDiffer(job, size, s, r); }
    PlacesGrow(job, size, r);
  }

  lemma PlacesGrow(job: Tile, size: int, r: nat)
    requires 1 <= size <= METATILE
    ensures IsPlace(job, size, r + 1, PlaceOf(job, size, r))
    ensures forall i :: IsPlace(job, size, r, i) ==> IsPlace(job, size, r + 1, i)
  {
    hide PlaceOf;
  }

  function AllLayers(layers: seq<Layer>, metadata: Option<seq<seq<Byte>>>): seq<Layer> {
    if metadata.Some? then layers + [Layer(JSON, metadata.value)] else layers
  }

  // The tiles of all layers in the order in which they are written.
  function LayerTiles(layers: seq<Layer>): seq<seq<Byte>> {
    if layers == [] then [] else LayerTiles(layers[..|layers| - 1]) + layers[|layers| - 1].contents
  }

  // No earlier layer has the format of layer k.
  ghost predicate FirstOfFormat(all: seq<Layer>, k: nat)
    requires k < |all|
  {
    forall i :: 0 <= i < k ==> all[i].format != all[k].format
  }

  ghost predicate LayersReadBack(meta: seq<Byte>, job: Tile, all: seq<Layer>, size: int)
    requires size > 0
  {
    forall k, r :: 0 <= k < |all| && 0 <= r < |all[k].contents| && FirstOfFormat(all, k) ==>
      ReadTile(meta, Code(all[k].format), job.x + r % size, job.y + r / size) == all[k].contents[r]
  }

  // Header i is the header of layer i, and its entries point into the run of all layers' tiles.
  ghost predicate HeadsLayers(hs: seq<Header>, job: Tile, all: seq<Layer>, size: int)
    requires 1 <= size <= METATILE && |hs| <= |all|
  {
    forall i :: 0 <= i < |hs| ==> HeadsLayer(hs[i], job, all, size, i)
  }

  ghost predicate HeadsLayer(h: Header, job: Tile, all: seq<Layer>, size: int, i: nat)
    requires 1 <= size <= METATILE && i < |all|
  {
    && h.fmt == Code(all[i].format) && h.x == job.x && h.y == job.y && h.z == job.z
    && PlacesLayer(h.index, job, size, all[i].contents, HEADER_SIZE * |all| + |Concat(LayerTiles(all[..i]))|)
    && EmptyElsewhere(h.index, job, size, |all[i].contents|)
  }

  // The file is the layers' headers followed by their tiles.
  ghost predicate LaidOut(meta: seq<Byte>, hs: seq<Header>, job: Tile, all: seq<Layer>, size: int)
    requires 1 <= size <= METATILE
  {
    && |hs| == |all| && AllEncodable(hs) && HeadsLayers(hs, job, all, size)
    && meta == HeaderRun(hs) + Concat(LayerTiles(all))
  }

  lemma LayerTilesSnoc(all: seq<Layer>, k: nat)
    requires k < |all|
    ensures LayerTiles(all[..k + 1]) == LayerTiles(all[..k]) + all[k].contents
    ensures Concat(LayerTiles(all[..k + 1])) == Concat(LayerTiles(all[..k])) + Concat(all[k].contents)
  {
    assert all[..k + 1][..k] == all[..k];
    ConcatAppend(LayerTiles(all[..k]), all[k].contents);
  }

  lemma {:induction false} LayerTilesPrefix(all: seq<Layer>, k: nat)
    requires k <= |all|
    ensures LayerTiles(all[..k]) <= LayerTiles(all)
    ensures Concat(LayerTiles(all[..k])) <= Concat(LayerTiles(all))
    decreases |all| - k
  {
    if k == |all| {
      assert all[..k] == all;
    } else {
      LayerTilesSnoc(all, k);
      LayerTilesPrefix(all, k + 1);
    }
  }

  lemma {:induction false} LayerReadsBack(hs: seq<Header>, job: Tile, all: seq<Layer>, size: int, k: nat, r: nat)
    requires 1 <= size <= METATILE && |hs| == |all| && AllEncodable(hs) && HeadsLayers(hs, job, all, size)
    requires k < |all| && r < |all[k].contents| && forall i :: 0 <= i < k ==> all[i].format != all[k].format
    ensures ReadTile(HeaderRun(hs) + Concat(LayerTiles(all)), Code(all[k].format), job.x + r % size, job.y + r / size)
      == all[k].contents[r]
  {
    hide HeaderRun, Encodable, Concat, LayerTiles, ReadTile, Slot;
    var before, contents := LayerTiles(all[..k]), all[k].contents;
    var tiles := LayerTiles(all);
    LayerTilesSnoc(all, k);
    LayerTilesPrefix(all, k + 1);
    var at := |before| + r;
    assert tiles[..at] == before + contents[..r];
    ConcatAppend(before, contents[..r]);
    assert tiles[at] == contents[r];
    assert HeadsLayer(hs[k], job, all, size, k);
    assert forall i :: 0 <= i < k ==> HeadsLayer(hs[i], job, all, size, i);
    PlacedTileReadsBack(hs, tiles, k, at, job.x + r % size, job.y + r / size);
  }

  /* The renderer's metatile. Every tile of the first layer of each format reads back, also when the
     job's tile is not aligned to the grid. */
  method MakeMeta(job: Tile, layers: seq<Layer>, metadata: Option<seq<seq<Byte>>>, size: int)
    returns (meta: seq<Byte>, ghost hs: seq<Header>)
    requires 1 <= size <= METATILE && IsInt32(job.x) && IsInt32(job.y) && IsInt32(job.z)
    requires forall k :: 0 <= k < |AllLayers(layers, metadata)| ==>
      |AllLayers(layers, metadata)[k].contents| == size * size
    requires var all := AllLayers(layers, metadata);
      HEADER_SIZE * |all| + |Concat(LayerTiles(all))| < 0x8000_0000
    ensures LayersReadBack(meta, job, AllLayers(layers, metadata), size)
    ensures LaidOut(meta, hs, job, AllLayers(layers, metadata), size)
  {
    hide HeaderRun, Encodable, Concat, LayerTiles, ReadTile, Slot, AllLayers, PlacesLayer, EmptyElsewhere, HeaderBytes,
      FixedBytes;
    var all := AllLayers(layers, metadata);
    var builder := new MetatileBuilder(job, size);
    for k := 0 to |all|
      invariant builder.metaTile == [] && builder.offset == HEADER_SIZE * k
    {
      builder.OffsetHeader();
    }
    hs := [];
    NothingYet(all);
    for k := 0 to |all|
      invariant |hs| == k && AllEncodable(hs) && HeadsLayers(hs, job, all, size)
      invariant builder.metaTile == HeaderRun(hs)
      invariant builder.offset == HEADER_SIZE * |all| + |Concat(LayerTiles(all[..k]))|
    {
      LayerTilesSnoc(all, k);
      LayerTilesPrefix(all, k + 1);
      builder.WriteHeader(all[k].format);
      ghost var index := builder.WriteOffsets(all[k].contents);
      ghost var h := Header(job.x, job.y, job.z, Code(all[k].format), index);
      HeaderFits(h);
      HeaderRunSnoc(hs, h);
      hs := hs + [h];
    }
    for k := 0 to |all|
      invariant builder.metaTile == HeaderRun(hs) + Concat(LayerTiles(all[..k]))
    {
      LayerTilesSnoc(all, k);
      builder.WriteContents(all[k].contents);
    }
    assert all[..|all|] == all;
    meta := builder.metaTile;
    forall k, r | 0 <= k < |all| && 0 <= r < |all[k].contents| && FirstOfFormat(all, k)
      ensures ReadTile(meta, Code(all[k].format), job.x + r % size, job.y + r / size) == all[k].contents[r]
    {
      LayerReadsBack(hs, job, all, size, k, r);
    }
  }

  lemma NothingYet(all: seq<Layer>)
    ensures HeaderRun([]) == [] && Concat(LayerTiles(all[..0])) == []
  {
  }

  lemma HeaderFits(h: Header)
    requires IsInt32(h.x) && IsInt32(h.y) && IsInt32(h.z) && |h.index| == SLOTS && EncodableEntries(h.index)
    requires 1 <= h.fmt <= 8
    ensures Encodable(h)
    ensures HeaderBytes(h) == FixedBytes(h.x, h.y, h.z, h.fmt) + EntryBytes(h.index)
  {
  }
}
