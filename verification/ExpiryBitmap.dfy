/** The expiry information server: one bitmap file per style, asked and changed over datagrams. */
module ExpiryBitmap {
  import opened Tiles
  import opened Morton
  import opened Powers

  type File = seq<bv8>

  /* ---- one file ---- */

  function Mask(k: nat): bv8
    requires k < 8
  {
    1 << k
  }

  predicate TestBit(b: bv8, k: nat)
    requires k < 8
  {
    (b >> k) & 1 == 1
  }

  lemma BitSet(b: bv8, k: nat, j: nat)
    requires k < 8 && j < 8
    ensures TestBit(b | Mask(k), j) <==> k == j || TestBit(b, j)
  {
  }

  lemma BitCleared(b: bv8, k: nat, j: nat)
    requires k < 8 && j < 8
    ensures TestBit(b & !Mask(k), j) <==> k != j && TestBit(b, j)
  {
  }

  function ByteWith(b: bv8, k: nat, on: bool): bv8
    requires k < 8
  {
    if on then b | Mask(k) else b & !Mask(k)
  }

  lemma ByteWithReads(b: bv8, k: nat, on: bool, j: nat)
    requires k < 8 && j < 8
    ensures TestBit(ByteWith(b, k, on), j) == if k == j then on else TestBit(b, j)
  {
    hide TestBit, Mask;
    BitSet(b, k, j);
    BitCleared(b, k, j);
  }

  predicate BitAt(file: File, i: nat)
    requires i < 8 * |file|
  {
    TestBit(file[i / 8], i % 8)
  }

  function WithBit(file: File, idx: nat, on: bool): File {
    if idx < 8 * |file| then file[idx / 8 := ByteWith(file[idx / 8], idx % 8, on)] else file
  }

  // One bit changes and no other; a place beyond the end changes nothing.
  lemma WithBitReads(file: File, idx: nat, on: bool, i: nat)
    requires i < 8 * |file|
    ensures |WithBit(file, idx, on)| == |file|
    ensures BitAt(WithBit(file, idx, on), i) == if i == idx then on else BitAt(file, i)
  {
    if idx < 8 * |file| {
      hide TestBit, ByteWith;
      ByteWithReads(file[idx / 8], idx % 8, on, i % 8);
      assert i / 8 == idx / 8 && i % 8 == idx % 8 <==> i == idx;
    }
  }

  function BitOf(file: File, idx: nat): Option<bool> {
    if idx < 8 * |file| then Some(BitAt(file, idx)) else None
  }

  // A file is never shortened; what is missing is filled up with zeros.
  function Expanded(file: File, maxZ: nat): File
    requires maxZ < MAX_Z
  {
    if SizeOf(maxZ) > |file| then file + seq(SizeOf(maxZ) - |file|, _ => 0) else file
  }

  lemma BlankBit(maxZ: nat, i: nat)
    requires maxZ < MAX_Z && i < 8 * SizeOf(maxZ)
    ensures |Expanded([], maxZ)| == SizeOf(maxZ) && !BitAt(Expanded([], maxZ), i)
  {
    BlankByte(i % 8);
  }

  lemma BlankByte(k: nat)
    requires k < 8
    ensures !TestBit(0, k)
  {
  }

  class Info {
    const mmap: array<bv8>

    constructor (file: File, maxZ: nat)
      requires maxZ < MAX_Z
      ensures mmap[..] == Expanded(file, maxZ) && fresh(mmap)
    {
      var expanded := Expanded(file, maxZ);
      mmap := new bv8[|expanded|](i requires 0 <= i < |expanded| => expanded[i]);
    }

    method SetBit(idx: nat, val: int)
      modifies mmap
      ensures mmap[..] == WithBit(old(mmap[..]), idx, val > 0)
    {
      if idx < mmap.Length * 8 {
        hide ByteWith;
        var byte := mmap[idx / 8];
        mmap[idx / 8] := ByteWith(byte, idx % 8, val > 0);
      }
    }

    method GetBit(idx: nat) returns (bit: Option<bool>)
      ensures bit == BitOf(mmap[..], idx)
    {
      if idx < mmap.Length * 8 {
        var byte := mmap[idx / 8];
        bit := Some(TestBit(byte, idx % 8));
      } else {
        bit := None;
      }
    }
  }

  /* ---- the server ---- */

  datatype Datagram = Datagram(idx: nat, val: int, cmd: char, style: string)

  datatype Reply = OK | ERR | Bit(on: bool)

  type Files = map<string, File>

  function Opened(files: Files, maxZ: nat, style: string): Files
    requires maxZ < MAX_Z
  {
    if style in files then files else files[style := Expanded([], maxZ)]
  }

  function Received(files: Files, maxZ: nat, d: Datagram): Files
    requires maxZ < MAX_Z
  {
    if '/' in d.style then files
    else
      var ready := Opened(files, maxZ, d.style);
      if d.cmd == 'S' then ready[d.style := WithBit(ready[d.style], d.idx, d.val > 0)] else ready
  }

  function ReplyTo(files: Files, maxZ: nat, d: Datagram): Reply
    requires maxZ < MAX_Z
  {
    if '/' in d.style then ERR
    else if d.cmd == 'S' then OK
    else if d.cmd == 'G' then
      match BitOf(Opened(files, maxZ, d.style)[d.style], d.idx)
      case Some(on) => Bit(on)
      case None => ERR
    else ERR
  }

  class Server {
    const maxZ: nat
    var infos: map<string, Info>

    ghost function Maps(): set<array<bv8>>
      reads this
    {
      set style | style in infos :: infos[style].mmap
    }

    ghost predicate Valid()
      reads this
    {
      && maxZ < MAX_Z
      && forall s, t | s in infos && t in infos && s != t :: infos[s].mmap != infos[t].mmap
    }

    ghost function Contents(): Files
      reads this, Maps()
    {
      map style | style in infos :: infos[style].mmap[..]
    }

    method Open(style: string) returns (info: Info)
      requires Valid()
      modifies this`infos
      ensures Valid() && style in infos && info == infos[style]
      ensures Contents() == Opened(old(Contents()), maxZ, style)
      ensures fresh(Maps() - old(Maps()))
    {
      if style in infos {
        info := infos[style];
      } else {
        info := new Info([], maxZ);
        infos := infos[style := info];
      }
    }

    method SetIn(style: string, idx: nat, val: int)
      requires Valid() && style in infos
      modifies infos[style].mmap
      ensures Valid()
      ensures Contents() == old(Contents())[style := WithBit(old(Contents())[style], idx, val > 0)]
    {
      hide WithBit;
      infos[style].SetBit(idx, val);
    }

    method Receive(d: Datagram) returns (reply: Reply)
      requires Valid()
      modifies this`infos, Maps()
      ensures Valid() && fresh(Maps() - old(Maps()))
      ensures Contents() == Received(old(Contents()), maxZ, d)
      ensures reply == ReplyTo(old(Contents()), maxZ, d)
    {
      hide WithBit, BitOf, Expanded, Opened;
      if '/' in d.style {
        reply := ERR;
      } else {
        var info := Open(d.style);
        if d.cmd == 'S' {
          SetIn(d.style, d.idx, d.val);
          reply := OK;
        } else if d.cmd == 'G' {
          var bit := info.GetBit(d.idx);
          reply := if bit.Some? then Bit(bit.value) else ERR;
        } else {
          reply := ERR;
        }
      }
    }
  }

  /* ---- the client ---- */

  // A datagram and its answer can each get lost.
  datatype Delivery = Answered | RequestLost | ReplyLost

  datatype Request =
    | SetTile(x: nat, y: nat, z: nat, style: string, val: bool)
    | GetTile(x: nat, y: nat, z: nat, style: string)

  // Style names travel in a field that holds 254 characters.
  function Wire(style: string): string {
    if |style| > 254 then style[..254] else style
  }

  function MetaOf(x: nat, y: nat, z: nat): Meta {
    Meta(x / METATILE, y / METATILE, z)
  }

  // The tiles that exist.
  predicate TileExists(r: Request) {
    r.z < MAX_Z && r.x < Pow(2, r.z) && r.y < Pow(2, r.z)
  }

  function DatagramOf(r: Request): Datagram
    requires r.z <= MAX_Z
  {
    var idx := MetaIdx(MetaOf(r.x, r.y, r.z));
    match r
    case SetTile(_, _, _, style, val) => Datagram(idx, if val then 1 else 0, 'S', Wire(style))
    case GetTile(_, _, _, style) => Datagram(idx, 0, 'G', Wire(style))
  }

  // What `get_tile` returns.
  function GetAnswer(files: Files, maxZ: nat, r: Request, delivery: Delivery): Option<bool>
    requires maxZ < MAX_Z && r.GetTile? && r.z <= MAX_Z
  {
    match ReplyTo(files, maxZ, DatagramOf(r))
    case Bit(on) => if delivery == Answered then Some(on) else None
    case _ => None
  }

  // What `set_tile` returns.
  predicate SetAnswer(files: Files, maxZ: nat, r: Request, delivery: Delivery)
    requires maxZ < MAX_Z && r.SetTile? && r.z <= MAX_Z
  {
    delivery == Answered && ReplyTo(files, maxZ, DatagramOf(r)) == OK
  }

  datatype Call = Call(request: Request, delivery: Delivery)

  function AfterCall(files: Files, maxZ: nat, c: Call): Files
    requires maxZ < MAX_Z && c.request.z <= MAX_Z
  {
    if c.delivery == RequestLost then files else Received(files, maxZ, DatagramOf(c.request))
  }

  function AfterCalls(files: Files, maxZ: nat, calls: seq<Call>): Files
    requires maxZ < MAX_Z && forall c <- calls :: TileExists(c.request)
  {
    if calls == [] then files
    else
      var n := |calls| - 1;
      assert TileExists(calls[n].request);
      AfterCall(AfterCalls(files, maxZ, calls[..n]), maxZ, calls[n])
  }

  // Style names that the datagrams do not tell apart.
  predicate SameStyle(a: string, b: string) {
    a == b || (|a| >= 254 && |b| >= 254 && a[..254] == b[..254])
  }

  lemma WireIs(a: string, b: string)
    ensures Wire(a) == Wire(b) <==> SameStyle(a, b)
  {
    if |a| > 254 && |b| > 254 {
    } else if |a| > 254 {
      assert b[..|b|] == b;
    } else if |b| > 254 {
      assert a[..|a|] == a;
    } else if |a| == 254 && |b| == 254 {
      assert a[..254] == a && b[..254] == b;
    }
  }

  // A style name with a slash is no file name.
  predicate HasSlash(style: string) {
    exists i :: 0 <= i < |style| && i < 254 && style[i] == '/'
  }

  lemma SlashOnWire(style: string)
    ensures '/' in Wire(style) <==> HasSlash(style)
  {
    if HasSlash(style) {
      var i :| 0 <= i < |style| && i < 254 && style[i] == '/';
      assert Wire(style)[i] == '/';
    }
    if '/' in Wire(style) {
      var i :| 0 <= i < |Wire(style)| && Wire(style)[i] == '/';
      assert style[i] == '/';
    }
  }

  // Whether a call sets the expiry of the metatile of tile (x, y): it does if it is about any tile of the same eight by
  // eight, at the same zoom.
  predicate Sets(c: Call, style: string, x: nat, y: nat, z: nat) {
    && c.request.SetTile? && c.delivery != RequestLost && SameStyle(c.request.style, style)
    && c.request.z == z && c.request.x / 8 == x / 8 && c.request.y / 8 == y / 8
  }

  // The value that the calls last set for the metatile of a tile in a style.
  function LastSet(calls: seq<Call>, style: string, x: nat, y: nat, z: nat): Option<bool> {
    if calls == [] then None
    else if Sets(calls[|calls| - 1], style, x, y, z) then Some(calls[|calls| - 1].request.val)
    else LastSet(calls[..|calls| - 1], style, x, y, z)
  }

  /* ---- the server remembers the last value set ---- */

  lemma ExistingTile(r: Request)
    requires TileExists(r)
    ensures InRange(MetaOf(r.x, r.y, r.z))
  {
    if r.z > 3 {
      PowTimes(2, 3, r.z - 3);
      assert Pow(2, 3) == 8;
    } else {
      PowMono(2, r.z, 3);
      assert Pow(2, 3) == 8;
    }
  }

  // The place of an existing tile's metatile fits the 64-bit field of the datagram.
  lemma IdxFitsDatagram(r: Request)
    requires TileExists(r)
    ensures DatagramOf(r).idx < 0x1_0000_0000_0000_0000
  {
    hide MetaIdx, MetaAt, InRange, Pow;
    ExistingTile(r);
    MetaIdxInjective(MetaOf(r.x, r.y, r.z));
    PlacesFit(r.z);
  }

  // What the server would answer about a place.
  function Holds(files: Files, maxZ: nat, style: string, idx: nat): Option<bool>
    requires maxZ < MAX_Z
  {
    BitOf(Opened(files, maxZ, style)[style], idx)
  }

  lemma ReceivedHolds(files: Files, maxZ: nat, d: Datagram, style: string, idx: nat)
    requires maxZ < MAX_Z
    ensures var now, was := Holds(Received(files, maxZ, d), maxZ, style, idx), Holds(files, maxZ, style, idx);
      now ==
        if d.cmd == 'S' && d.style == style && '/' !in style && d.idx == idx && was.Some? then Some(d.val > 0) else was
  {
    var file := Opened(files, maxZ, style)[style];
    hide WithBit, BitAt, Expanded;
    if d.cmd == 'S' && d.style == style {
      WithBitBits(file, d.idx, d.val > 0, idx);
    }
  }

  lemma WithBitBits(file: File, idx: nat, on: bool, i: nat)
    ensures BitOf(WithBit(file, idx, on), i) == if i == idx && i < 8 * |file| then Some(on) else BitOf(file, i)
  {
    if i < 8 * |file| {
      WithBitReads(file, idx, on, i);
    }
  }

  lemma SamePlace(r: Request, m: Meta)
    requires TileExists(r) && InRange(m)
    ensures MetaIdx(MetaOf(r.x, r.y, r.z)) == MetaIdx(m) <==> MetaOf(r.x, r.y, r.z) == m
  {
    hide TileExists, InRange, MetaIdx, MetaAt;
    ExistingTile(r);
    MetaIdxInjective(m);
    MetaIdxInjective(MetaOf(r.x, r.y, r.z));
  }

  lemma CallHolds(files: Files, maxZ: nat, c: Call, style: string, x: nat, y: nat, z: nat)
    requires maxZ < MAX_Z && TileExists(c.request) && InRange(MetaOf(x, y, z)) && '/' !in Wire(style)
    ensures var idx := MetaIdx(MetaOf(x, y, z));
      var now := Holds(AfterCall(files, maxZ, c), maxZ, Wire(style), idx);
      var was := Holds(files, maxZ, Wire(style), idx);
      now == if Sets(c, style, x, y, z) && was.Some? then Some(c.request.val) else was
  {
    var m := MetaOf(x, y, z);
    WireIs(c.request.style, style);
    SameMeta(c.request, x, y, z);
    hide Holds, Received, MetaIdx, Wire, MetaOf, SameStyle;
    SamePlace(c.request, m);
    ReceivedHolds(files, maxZ, DatagramOf(c.request), Wire(style), MetaIdx(m));
  }

  lemma SameMeta(r: Request, x: nat, y: nat, z: nat)
    ensures MetaOf(r.x, r.y, r.z) == MetaOf(x, y, z) <==> r.z == z && r.x / 8 == x / 8 && r.y / 8 == y / 8
  {
  }

  lemma {:induction false} CallsHold(files: Files, maxZ: nat, calls: seq<Call>, style: string, x: nat, y: nat, z: nat)
    requires maxZ < MAX_Z && InRange(MetaOf(x, y, z)) && '/' !in Wire(style)
    requires forall c <- calls :: TileExists(c.request)
    ensures var idx, last := MetaIdx(MetaOf(x, y, z)), LastSet(calls, style, x, y, z);
      var now := Holds(AfterCalls(files, maxZ, calls), maxZ, Wire(style), idx);
      var was := Holds(files, maxZ, Wire(style), idx);
      now == if was.Some? && last.Some? then last else was
  {
    if calls != [] {
      var n := |calls| - 1;
      hide Holds, AfterCall, MetaIdx, Wire, Sets, TileExists, MetaOf;
      CallsHold(files, maxZ, calls[..n], style, x, y, z);
      CallHolds(AfterCalls(files, maxZ, calls[..n]), maxZ, calls[n], style, x, y, z);
    }
  }

  // The files that a server starts with, each opened for `maxZ`.
  predicate Ready(files: Files, maxZ: nat)
    requires maxZ < MAX_Z
  {
    forall style <- files :: |files[style]| >= SizeOf(maxZ)
  }

  // The bit of a tile's metatile: after the levels of the smaller zooms, in Morton order.
  function Place(x: nat, y: nat, z: nat): nat {
    Offset(z) + ZOrder(x / 8, y / 8)
  }

  lemma PlaceOfTile(r: Request)
    requires TileExists(r)
    ensures DatagramOf(r).idx == Place(r.x, r.y, r.z)
  {
    ExistingTile(r);
    MetaIdxInLevel(MetaOf(r.x, r.y, r.z));
  }

  // Whether a tile's metatile was expired when the server started.
  predicate AtFirst(files: Files, style: string, x: nat, y: nat, z: nat) {
    style in files && Place(x, y, z) < 8 * |files[style]| && BitAt(files[style], Place(x, y, z))
  }

  // For every zoom the server was set up for, and for every history of calls about tiles of any zoom and style,
  // an answered `get_tile` returns the value last set for a tile of the same metatile, zoom and style.
  lemma GetReturnsLastSet(files: Files, maxZ: nat, calls: seq<Call>, r: Request)
    requires maxZ < MAX_Z && Ready(files, maxZ) && forall c <- calls :: TileExists(c.request)
    requires r.GetTile? && TileExists(r) && r.z <= maxZ
    ensures var last := LastSet(calls, r.style, r.x, r.y, r.z);
      GetAnswer(AfterCalls(files, maxZ, calls), maxZ, r, Answered) ==
        if HasSlash(r.style) then None
        else if last.Some? then last
        else Some(AtFirst(files, Wire(r.style), r.x, r.y, r.z))
  {
    var m, style := MetaOf(r.x, r.y, r.z), Wire(r.style);
    SlashOnWire(r.style);
    if '/' !in style {
      ExistingTile(r);
      PlaceOfTile(r);
      StartHolds(files, maxZ, style, m);
      hide AfterCalls, LastSet, MetaIdx, InRange, TileExists, Wire, Ready, Holds, GetAnswer, Place, HasSlash, BitAt;
      CallsHold(files, maxZ, calls, r.style, r.x, r.y, r.z);
      AnswerIsHeld(AfterCalls(files, maxZ, calls), maxZ, r);
    }
  }

  lemma AnswerIsHeld(files: Files, maxZ: nat, r: Request)
    requires maxZ < MAX_Z && r.GetTile? && r.z <= MAX_Z && '/' !in Wire(r.style)
    ensures GetAnswer(files, maxZ, r, Answered) == Holds(files, maxZ, Wire(r.style), MetaIdx(MetaOf(r.x, r.y, r.z)))
  {
    hide MetaIdx, Wire, BitOf, Opened;
  }

  lemma StartHolds(files: Files, maxZ: nat, style: string, m: Meta)
    requires maxZ < MAX_Z && Ready(files, maxZ) && InRange(m) && m.z <= maxZ
    ensures Holds(files, maxZ, style, MetaIdx(m)) ==
      Some(style in files && MetaIdx(m) < 8 * |files[style]| && BitAt(files[style], MetaIdx(m)))
  {
    hide MetaIdx, InRange, BitAt, MetaAt, SizeOf, Expanded;
    MetaIdxInjective(m);
    OffsetMono(m.z + 1, maxZ + 1);
    PlacesFit(maxZ);
    BlankBit(maxZ, MetaIdx(m));
  }

  // A style name with a slash is refused, and changes nothing.
  lemma SlashIsRefused(files: Files, maxZ: nat, r: Request, delivery: Delivery)
    requires maxZ < MAX_Z && r.z <= MAX_Z && HasSlash(r.style)
    ensures AfterCall(files, maxZ, Call(r, delivery)) == files
    ensures r.SetTile? ==> !SetAnswer(files, maxZ, r, delivery)
    ensures r.GetTile? ==> GetAnswer(files, maxZ, r, delivery) == None
  {
    SlashOnWire(r.style);
    hide HasSlash, Wire, MetaIdx, Opened, BitOf, WithBit;
  }

  // A call that is not answered tells its caller nothing good, and one that does not arrive changes nothing.
  lemma LostCall(files: Files, maxZ: nat, r: Request, delivery: Delivery)
    requires maxZ < MAX_Z && r.z <= MAX_Z && delivery != Answered
    ensures delivery == RequestLost ==> AfterCall(files, maxZ, Call(r, delivery)) == files
    ensures r.SetTile? ==> !SetAnswer(files, maxZ, r, delivery)
    ensures r.GetTile? ==> GetAnswer(files, maxZ, r, delivery) == None
  {
    hide MetaIdx, Wire, Opened, BitOf, WithBit;
  }

  // A command that the server does not know is an error, and sets nothing.
  lemma UnknownCommand(files: Files, maxZ: nat, d: Datagram, style: string, idx: nat)
    requires maxZ < MAX_Z && d.cmd != 'S' && d.cmd != 'G'
    ensures ReplyTo(files, maxZ, d) == ERR
    ensures Holds(Received(files, maxZ, d), maxZ, style, idx) == Holds(files, maxZ, style, idx)
  {
    hide Expanded, BitOf;
  }

  // What a file is expanded to: its own bits, and no others set; as long as is needed, and never shorter.
  lemma ExpandedKeeps(file: File, maxZ: nat, i: nat)
    requires maxZ < MAX_Z
    ensures |Expanded(file, maxZ)| == if |file| < SizeOf(maxZ) then SizeOf(maxZ) else |file|
    ensures i < 8 * |Expanded(file, maxZ)| ==> (BitAt(Expanded(file, maxZ), i) <==> i < 8 * |file| && BitAt(file, i))
  {
    hide SizeOf, TestBit;
    if 8 * |file| <= i < 8 * |Expanded(file, maxZ)| {
      BlankByte(i % 8);
    }
  }

  // Beyond the end of the file a set is acknowledged but lost.
  lemma SetBeyondEndIsLost(files: Files, maxZ: nat, r: Request)
    requires maxZ < MAX_Z && r.SetTile? && TileExists(r) && !HasSlash(r.style)
    ensures SetAnswer(files, maxZ, r, Answered)
    ensures var after := AfterCall(files, maxZ, Call(r, Answered));
      var get := GetTile(r.x, r.y, r.z, r.style);
      var file := Opened(files, maxZ, Wire(r.style))[Wire(r.style)];
      GetAnswer(after, maxZ, get, Answered) == if Place(r.x, r.y, r.z) < 8 * |file| then Some(r.val) else None
  {
    SlashOnWire(r.style);
    ExistingTile(r);
    PlaceOfTile(r);
    assert SameStyle(r.style, r.style);
    hide MetaIdx, InRange, TileExists, Wire, Received, BitAt, Place, HasSlash, SameStyle;
    CallHolds(files, maxZ, Call(r, Answered), r.style, r.x, r.y, r.z);
  }

  // A server set up for zoom 3 has a byte for each style; the first metatile of zoom 5 has the ninth bit.
  lemma SetTileLost(style: string)
    requires !HasSlash(style)
    ensures var set5, get5 := SetTile(0, 0, 5, style, true), GetTile(0, 0, 5, style);
      && TileExists(set5) && SetAnswer(map[], 3, set5, Answered)
      && GetAnswer(AfterCall(map[], 3, Call(set5, Answered)), 3, get5, Answered) == None
  {
    var set5 := SetTile(0, 0, 5, style, true);
    NinthBit();
    SetBeyondEndIsLost(map[], 3, set5);
  }

  lemma NinthBit()
    ensures SizeOf(3) == 1 && Place(0, 0, 5) == 8 && Pow(2, 5) > 0
  {
    assert Pow(4, 1) == 4;
    assert Offset(1) == 1 && Offset(2) == 2 && Offset(3) == 3 && Offset(4) == 4 && Offset(5) == 8;
  }
}
