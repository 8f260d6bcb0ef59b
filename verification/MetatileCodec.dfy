/**
 The metatile file: a run of 536-byte headers, one for each format, followed by the bytes of the
 tiles. Two writers (C++ and Python) and one reader.
 */
module MetatileCodec {
  import opened Tiles
  import opened Runs

  const SLOTS := 64
  const HEADER_SIZE := 536
  const MAGIC: seq<Byte> := [77, 69, 84, 65]

  /* ---- 32-bit little-endian integers ---- */

  predicate IsInt32(n: int) {
    -0x8000_0000 <= n < 0x8000_0000
  }

  function Int32(n: int): (b: seq<Byte>)
    requires IsInt32(n)
    ensures |b| == 4
  {
    var m := if n < 0 then n + 0x1_0000_0000 else n;
    [m % 256, m / 256 % 256, m / 65536 % 256, m / 16777216]
  }

  function ReadInt32(data: seq<Byte>, at: nat): int
    requires at + 4 <= |data|
  {
    Signed(data[at], data[at + 1], data[at + 2], data[at + 3])
  }

  function Signed(b0: int, b1: int, b2: int, b3: int): int {
    var m := b0 + 256 * b1 + 65536 * b2 + 16777216 * b3;
    if m >= 0x8000_0000 then m - 0x1_0000_0000 else m
  }

  lemma DigitsOf(m: int)
    requires 0 <= m < 0x1_0000_0000
    ensures m % 256 + 256 * (m / 256 % 256) + 65536 * (m / 65536 % 256) + 16777216 * (m / 16777216) == m
  {
    assert m / 65536 == m / 256 / 256 && m / 16777216 == m / 65536 / 256;
  }

  lemma ReadInt32At(data: seq<Byte>, at: nat, n: int)
    requires IsInt32(n) && at + 4 <= |data| && data[at..at + 4] == Int32(n)
    ensures ReadInt32(data, at) == n
  {
    DigitsOf(if n < 0 then n + 0x1_0000_0000 else n);
    var b := data[at..at + 4];
    assert b[0] == data[at] && b[1] == data[at + 1] && b[2] == data[at + 2] && b[3] == data[at + 3];
  }

  /* ---- headers ---- */

  datatype Entry = Entry(offset: int, size: int)

  datatype Header = Header(x: int, y: int, z: int, fmt: int, index: seq<Entry>)

  predicate Encodable(h: Header) {
    && IsInt32(h.x) && IsInt32(h.y) && IsInt32(h.z) && IsInt32(h.fmt)
    && |h.index| == SLOTS
    && EncodableEntries(h.index)
  }

  predicate EncodableEntries(es: seq<Entry>) {
    forall i :: 0 <= i < |es| ==> IsInt32(es[i].offset) && IsInt32(es[i].size)
  }

  function EntryPair(e: Entry): (b: seq<Byte>)
    requires IsInt32(e.offset) && IsInt32(e.size)
    ensures |b| == 8
  {
    Int32(e.offset) + Int32(e.size)
  }

  function EntryBytes(es: seq<Entry>): (b: seq<Byte>)
    requires EncodableEntries(es)
    ensures |b| == 8 * |es|
  {
    if es == [] then []
    else
      var n := |es| - 1;
      EntryBytes(es[..n]) + EntryPair(es[n])
  }

  function FixedBytes(x: int, y: int, z: int, fmt: int): (b: seq<Byte>)
    requires IsInt32(x) && IsInt32(y) && IsInt32(z) && IsInt32(fmt)
    ensures |b| == 24
  {
    MAGIC + Int32(SLOTS) + Int32(x) + Int32(y) + Int32(z) + Int32(fmt)
  }

  function HeaderBytes(h: Header): (b: seq<Byte>)
    requires Encodable(h)
    ensures |b| == HEADER_SIZE
  {
    FixedBytes(h.x, h.y, h.z, h.fmt) + EntryBytes(h.index)
  }

  predicate AllEncodable(hs: seq<Header>) {
    forall i :: 0 <= i < |hs| ==> Encodable(hs[i])
  }

  function HeaderChunks(hs: seq<Header>): (c: seq<seq<Byte>>)
    requires AllEncodable(hs)
    ensures |c| == |hs|
  {
    seq(|hs|, i requires 0 <= i < |hs| => HeaderBytes(hs[i]))
  }

  function HeaderRun(hs: seq<Header>): (b: seq<Byte>)
    requires AllEncodable(hs)
  {
    Concat(HeaderChunks(hs))
  }

  /* ---- reading a header back out of a file ---- */

  predicate HasHeader(data: seq<Byte>, k: nat) {
    HEADER_SIZE * (k + 1) <= |data|
  }

  predicate MagicAt(data: seq<Byte>, k: nat)
    requires HasHeader(data, k)
  {
    data[HEADER_SIZE * k..HEADER_SIZE * k + 4] == MAGIC
  }

  function CountAt(data: seq<Byte>, k: nat): int
    requires HasHeader(data, k)
  {
    ReadInt32(data, HEADER_SIZE * k + 4)
  }

  function FmtAt(data: seq<Byte>, k: nat): int
    requires HasHeader(data, k)
  {
    ReadInt32(data, HEADER_SIZE * k + 20)
  }

  // The coordinates in header k: column, row and zoom.
  function CoordsAt(data: seq<Byte>, k: nat): (int, int, int)
    requires HasHeader(data, k)
  {
    (ReadInt32(data, HEADER_SIZE * k + 8), ReadInt32(data, HEADER_SIZE * k + 12), ReadInt32(data, HEADER_SIZE * k + 16))
  }

  function EntryAt(data: seq<Byte>, k: nat, i: nat): Entry
    requires HasHeader(data, k) && i < SLOTS
  {
    Entry(ReadInt32(data, HEADER_SIZE * k + 24 + 8 * i), ReadInt32(data, HEADER_SIZE * k + 28 + 8 * i))
  }

  lemma PairParts(e: Entry)
    requires IsInt32(e.offset) && IsInt32(e.size)
    ensures EntryPair(e)[0..4] == Int32(e.offset) && EntryPair(e)[4..8] == Int32(e.size)
  {
    hide Int32;
  }

  lemma {:induction false} EntryBytesAt(es: seq<Entry>, i: nat)
    requires EncodableEntries(es) && i < |es|
    ensures EntryBytes(es)[8 * i..8 * i + 4] == Int32(es[i].offset)
    ensures EntryBytes(es)[8 * i + 4..8 * i + 8] == Int32(es[i].size)
  {
    hide EntryPair, Int32, IsInt32;
    var n := |es| - 1;
    var front := EntryBytes(es[..n]);
    if i < n {
      EntryBytesAt(es[..n], i);
      SliceOfFront(front, EntryPair(es[n]), 8 * i, 8 * i + 4);
      SliceOfFront(front, EntryPair(es[n]), 8 * i + 4, 8 * i + 8);
    } else {
      PairParts(es[n]);
      SliceOfBack(front, EntryPair(es[n]), 0, 4);
      SliceOfBack(front, EntryPair(es[n]), 4, 8);
    }
  }

  lemma HeaderRunAt(hs: seq<Header>, k: nat)
    requires AllEncodable(hs) && k < |hs|
    ensures |HeaderRun(hs)| == HEADER_SIZE * |hs|
    ensures HeaderRun(hs)[HEADER_SIZE * k..HEADER_SIZE * k + HEADER_SIZE] == HeaderBytes(hs[k])
  {
    var chunks := HeaderChunks(hs);
    ConcatAt(chunks, k);
    ConcatLength(chunks, HEADER_SIZE);
    ConcatLength(chunks[..k], HEADER_SIZE);
  }

  lemma HeaderRunLength(hs: seq<Header>)
    requires AllEncodable(hs)
    ensures |HeaderRun(hs)| == HEADER_SIZE * |hs|
  {
    ConcatLength(HeaderChunks(hs), HEADER_SIZE);
  }

  lemma HeaderFields(h: Header)
    requires Encodable(h)
    ensures HeaderBytes(h)[0..4] == MAGIC
    ensures HeaderBytes(h)[4..8] == Int32(SLOTS)
    ensures HeaderBytes(h)[20..24] == Int32(h.fmt)
    ensures HeaderBytes(h)[24..] == EntryBytes(h.index)
  {
  }

  // The part of a file that holds header k is the bytes of that header.
  ghost predicate HoldsHeader(data: seq<Byte>, k: nat, h: Header)
    requires Encodable(h)
  {
    HasHeader(data, k) && data[HEADER_SIZE * k..HEADER_SIZE * k + HEADER_SIZE] == HeaderBytes(h)
  }

  lemma FieldReadsBack(data: seq<Byte>, k: nat, h: Header, lo: nat, n: int)
    requires Encodable(h) && HoldsHeader(data, k, h) && lo + 4 <= HEADER_SIZE
    requires IsInt32(n) && HeaderBytes(h)[lo..lo + 4] == Int32(n)
    ensures ReadInt32(data, HEADER_SIZE * k + lo) == n
  {
    SliceOfSlice(data, HEADER_SIZE * k, HEADER_SIZE, lo, lo + 4);
    ReadInt32At(data, HEADER_SIZE * k + lo, n);
  }

  lemma FixedFieldsReadBack(data: seq<Byte>, k: nat, h: Header)
    requires Encodable(h) && HoldsHeader(data, k, h)
    ensures MagicAt(data, k) && CountAt(data, k) == SLOTS && FmtAt(data, k) == h.fmt
  {
    HeaderFields(h);
    SliceOfSlice(data, HEADER_SIZE * k, HEADER_SIZE, 0, 4);
    FieldReadsBack(data, k, h, 4, SLOTS);
    FieldReadsBack(data, k, h, 20, h.fmt);
  }

  lemma CoordsReadBack(data: seq<Byte>, k: nat, h: Header)
    requires Encodable(h) && HoldsHeader(data, k, h)
    ensures CoordsAt(data, k) == (h.x, h.y, h.z)
  {
    CoordFields(h);
    hide HeaderBytes, HoldsHeader, Int32, ReadInt32;
    FieldReadsBack(data, k, h, 8, h.x);
    FieldReadsBack(data, k, h, 12, h.y);
    FieldReadsBack(data, k, h, 16, h.z);
  }

  lemma CoordFields(h: Header)
    requires Encodable(h)
    ensures HeaderBytes(h)[8..12] == Int32(h.x) && HeaderBytes(h)[12..16] == Int32(h.y)
    ensures HeaderBytes(h)[16..20] == Int32(h.z)
  {
    hide Int32, EntryBytes;
  }

  lemma EntryReadsBack(data: seq<Byte>, k: nat, h: Header, i: nat)
    requires Encodable(h) && HoldsHeader(data, k, h) && i < SLOTS
    ensures EntryAt(data, k, i) == h.index[i]
  {
    EntryInHeader(h, i);
    hide HeaderBytes, EntryBytes, Int32, HoldsHeader, ReadInt32;
    FieldReadsBack(data, k, h, 24 + 8 * i, h.index[i].offset);
    FieldReadsBack(data, k, h, 28 + 8 * i, h.index[i].size);
  }

  // Where a header keeps entry i of its table.
  lemma EntryInHeader(h: Header, i: nat)
    requires Encodable(h) && i < SLOTS
    ensures HeaderBytes(h)[24 + 8 * i..24 + 8 * i + 4] == Int32(h.index[i].offset)
    ensures HeaderBytes(h)[28 + 8 * i..28 + 8 * i + 4] == Int32(h.index[i].size)
  {
    var b := HeaderBytes(h);
    assert b[24..24 + 8 * SLOTS] == EntryBytes(h.index) by { HeaderFields(h); }
    hide HeaderBytes, EntryBytes, Int32;
    EntryBytesAt(h.index, i);
    SliceOfSlice(b, 24, 8 * SLOTS, 8 * i, 8 * i + 4);
    SliceOfSlice(b, 24, 8 * SLOTS, 8 * i + 4, 8 * i + 8);
  }

  lemma HeadersReadBack(hs: seq<Header>, body: seq<Byte>, k: nat)
    requires AllEncodable(hs) && k < |hs|
    ensures HoldsHeader(HeaderRun(hs) + body, k, hs[k])
  {
    HeaderRunAt(hs, k);
    SliceOfFront(HeaderRun(hs), body, HEADER_SIZE * k, HEADER_SIZE * k + HEADER_SIZE);
  }

  /* ---- the reader ---- */

  // The header for a format: headers are searched while they carry the magic word.
  function Locate(data: seq<Byte>, fmt: int, k: nat): (r: Option<nat>)
    ensures r.Some? ==> k <= r.value && HasHeader(data, r.value)
    decreases |data| - HEADER_SIZE * k
  {
    if !HasHeader(data, k) then None
    else if FmtAt(data, k) == fmt then if MagicAt(data, k) then Some(k) else None
    else if MagicAt(data, k) then Locate(data, fmt, k + 1)
    else None
  }

  function Slot(x: int, y: int): (i: nat)
    ensures i < SLOTS
  {
    y % METATILE * METATILE + x % METATILE
  }

  // The bytes an entry points at, or nothing if it points past the end of the file.
  function Extract(data: seq<Byte>, e: Entry): seq<Byte> {
    if 0 <= e.offset && 0 <= e.size && e.offset + e.size <= |data| then data[e.offset..e.offset + e.size] else []
  }

  function ReadTile(data: seq<Byte>, fmt: int, x: int, y: int): seq<Byte> {
    var header := Locate(data, fmt, 0);
    if header.Some? then Extract(data, EntryAt(data, header.value, Slot(x, y))) else []
  }

  // The first header of a format is the one that is found.
  lemma {:induction false} LocateFirst(hs: seq<Header>, body: seq<Byte>, j: nat, k: nat)
    requires AllEncodable(hs) && j <= k < |hs|
    requires forall i :: j <= i < k ==> hs[i].fmt != hs[k].fmt
    ensures Locate(HeaderRun(hs) + body, hs[k].fmt, j) == Some(k)
    decreases k - j
  {
    HeadersReadBack(hs, body, j);
    FixedFieldsReadBack(HeaderRun(hs) + body, j, hs[j]);
    if j < k {
      LocateFirst(hs, body, j + 1, k);
    }
  }

  // What follows the headers does not start with the magic word in a block long enough for a header.
  predicate NoMagic(body: seq<Byte>) {
    |body| >= HEADER_SIZE ==> body[0..4] != MAGIC
  }

  lemma MagicAfterHeaders(hs: seq<Header>, body: seq<Byte>)
    requires AllEncodable(hs) && NoMagic(body) && HasHeader(HeaderRun(hs) + body, |hs|)
    ensures !MagicAt(HeaderRun(hs) + body, |hs|)
  {
    HeaderRunLength(hs);
    hide HeaderRun;
    SliceOfBack(HeaderRun(hs), body, 0, 4);
  }

  // A format that no header has is not found.
  lemma {:induction false} LocateAbsent(hs: seq<Header>, body: seq<Byte>, fmt: int, j: nat)
    requires AllEncodable(hs) && NoMagic(body) && j <= |hs|
    requires forall i :: j <= i < |hs| ==> hs[i].fmt != fmt
    ensures Locate(HeaderRun(hs) + body, fmt, j) == None
    decreases |hs| - j
  {
    hide HeaderRun, NoMagic, FmtAt, MagicAt, HasHeader;
    if j < |hs| {
      HeadersReadBack(hs, body, j);
      FixedFieldsReadBack(HeaderRun(hs) + body, j, hs[j]);
      LocateAbsent(hs, body, fmt, j + 1);
    } else if HasHeader(HeaderRun(hs) + body, j) {
      MagicAfterHeaders(hs, body);
    }
  }

  // Data that does not start with the magic word has no tiles.
  lemma NoMagicNoTile(data: seq<Byte>, fmt: int, x: int, y: int)
    requires NoMagic(data)
    ensures ReadTile(data, fmt, x, y) == []
  {
    assert HasHeader(data, 0) ==> !MagicAt(data, 0);
  }

  /* A file whose tiles follow its headers one after the other gives back tile r wherever the first
     header of a format points at it. Both writers produce such files. */
  lemma PlacedTileReadsBack(hs: seq<Header>, tiles: seq<seq<Byte>>, k: nat, r: nat, x: int, y: int)
    requires AllEncodable(hs) && k < |hs| && r < |tiles|
    requires forall i :: 0 <= i < k ==> hs[i].fmt != hs[k].fmt
    requires hs[k].index[Slot(x, y)] == Entry(HEADER_SIZE * |hs| + |Concat(tiles[..r])|, |tiles[r]|)
    ensures ReadTile(HeaderRun(hs) + Concat(tiles), hs[k].fmt, x, y) == tiles[r]
  {
    hide HeaderRun, Concat, ReadTile, Extract, Encodable, Slot;
    ReadTileOf(hs, Concat(tiles), k, x, y);
    HeaderRunAt(hs, k);
    ExtractPart(HeaderRun(hs), tiles, r);
  }

  lemma ReadTileOf(hs: seq<Header>, body: seq<Byte>, k: nat, x: int, y: int)
    requires AllEncodable(hs) && k < |hs|
    requires forall i :: 0 <= i < k ==> hs[i].fmt != hs[k].fmt
    ensures ReadTile(HeaderRun(hs) + body, hs[k].fmt, x, y) ==
      Extract(HeaderRun(hs) + body, hs[k].index[Slot(x, y)])
  {
    LocateFirst(hs, body, 0, k);
    HeadersReadBack(hs, body, k);
    EntryReadsBack(HeaderRun(hs) + body, k, hs[k], Slot(x, y));
  }

  lemma ExtractPart(front: seq<Byte>, tiles: seq<seq<Byte>>, r: nat)
    requires r < |tiles|
    ensures Extract(front + Concat(tiles), Entry(|front| + |Concat(tiles[..r])|, |tiles[r]|)) == tiles[r]
  {
    var at, body := |Concat(tiles[..r])|, Concat(tiles);
    ConcatAt(tiles, r);
    assert (front + body)[|front|..|front| + |body|] == body;
    SliceOfSlice(front + body, |front|, |body|, at, at + |tiles[r]|);
  }

  class MetatileReader {
    const data: seq<Byte>
    var offset: nat
    var initialized: bool

    constructor (data: seq<Byte>, fmt: int)
      ensures this.data == data
      ensures initialized ==> HasHeader(data, offset)
      ensures Locate(data, fmt, 0) == if initialized then Some(offset) else None
    {
      this.data := data;
      offset, initialized := 0, false;
      new;
      var magic := true;
      while magic && HasHeader(data, offset)
        invariant !initialized
        invariant Locate(data, fmt, 0) == if magic then Locate(data, fmt, offset) else None
        decreases magic, |data| - HEADER_SIZE * offset
      {
        magic := MagicAt(data, offset);
        if FmtAt(data, offset) == fmt {
          initialized := magic;
          break;
        }
        if magic { offset := offset + 1; }
      }
    }

    method Get(x: int, y: int, ghost fmt: int) returns (tile: seq<Byte>)
      requires initialized ==> HasHeader(data, offset)
      requires Locate(data, fmt, 0) == if initialized then Some(offset) else None
      ensures tile == ReadTile(data, fmt, x, y)
    {
      tile := [];
      if initialized {
        tile := Extract(data, EntryAt(data, offset, Slot(x, y)));
      }
    }
  }
}
