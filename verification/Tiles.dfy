/** The tile request that every process exchanges, and the metatile grid that tiles are grouped by. */
module Tiles {

  datatype Option<+T> = None | Some(value: T)

  type Byte = b: int | 0 <= b < 256

  // How wide and high a metatile is, in tiles.
  const METATILE := 8

  datatype Cmd = Ignore | Render | Dirty | Done | NotDone | RenderPrio | RenderBulk | Status

  datatype Format = PNG | JPEG | GIF | JSON

  // A format mask is the set of the formats whose bits are set in it.
  type Formats = set<Format>

  function Code(f: Format): int {
    match f
    case PNG => 1
    case JPEG => 2
    case JSON => 4
    case GIF => 8
  }

  function MaskCode(m: Formats): int {
    (if PNG in m then 1 else 0) + (if JPEG in m then 2 else 0) +
    (if JSON in m then 4 else 0) + (if GIF in m then 8 else 0)
  }

  predicate SingleFormat(m: Formats) {
    m == {PNG} || m == {JPEG} || m == {JSON} || m == {GIF}
  }

  // The formats of a mask, in the order in which the renderer lists them.
  function FormatList(m: Formats): seq<Format> {
    (if PNG in m then [PNG] else []) + (if JPEG in m then [JPEG] else []) +
    (if GIF in m then [GIF] else []) + (if JSON in m then [JSON] else [])
  }

  // It lists them all, and no others.
  lemma FormatListIs(m: Formats, f: Format)
    ensures f in FormatList(m) <==> f in m
  {
    var a := if PNG in m then [PNG] else [];
    var b := a + if JPEG in m then [JPEG] else [];
    var c := b + if GIF in m then [GIF] else [];
    assert FormatList(m) == c + if JSON in m then [JSON] else [];
  }

  // A mask is the sum of the codes of its formats.
  lemma MaskCodeSum(m: Formats, f: Format)
    requires f in m
    ensures MaskCode(m) == Code(f) + MaskCode(m - {f}) && MaskCode({}) == 0
  {
  }

  datatype Tile = Tile(
    status: Cmd,
    x: int,
    y: int,
    z: int,
    id: int,
    style: string,
    format: Formats,
    lastModified: int,
    requestLastModified: int,
    data: seq<Byte>)

  // Rounds a coordinate down to the metatile grid; the machine's `v & ~7`, also below zero.
  function Align(v: int): int {
    v - v % METATILE
  }

  // The fields by which two tasks are the same task.
  datatype Key = Key(x: int, y: int, z: int, style: string)

  function KeyOf(t: Tile): Key {
    Key(t.x, t.y, t.z, t.style)
  }

  function MetaKey(t: Tile): Key {
    Key(Align(t.x), Align(t.y), t.z, t.style)
  }

  predicate AlignedKey(k: Key) {
    k.x % METATILE == 0 && k.y % METATILE == 0
  }

  // What identifies a client's request; the status is left out because it changes on the way.
  datatype Request = Request(x: int, y: int, z: int, id: int, style: string, format: Formats)

  function RequestOf(t: Tile): Request {
    Request(t.x, t.y, t.z, t.id, t.style, t.format)
  }
}
