/**
 The long-term store: a metatile is split into one object per tile and format, each kept on two hashed
 hosts, and is rebuilt from whichever copies can be fetched.
 */
module LtsStorage {
  import opened Tiles
  import opened Runs
  import opened Powers
  import opened MetatileCodec
  import opened MetatileWriters

  // Where a copy of a tile is kept: the host is a function of the replica number and the coordinates.
  datatype Url = Url(replica: nat, x: int, y: int, z: int, style: string, fmt: int)

  datatype Put = Put(url: Url, body: seq<Byte>)

  const INVALID_TIMESTAMP := 0

  datatype Response = Response(status: int, stamp: int, body: seq<Byte>)

  predicate Good(r: Response) {
    r.status == 200 && r.stamp != INVALID_TIMESTAMP
  }

  /* ---- read_headers ---- */

  // A block that has the magic word and a format among those known.
  predicate OkHeader(data: seq<Byte>, k: nat) {
    HasHeader(data, k) && FmtAt(data, k) % 16 != 0 && MagicAt(data, k)
  }

  // How many consecutive blocks, from block k on, are headers.
  function HeadersFrom(data: seq<Byte>, k: nat): nat
    decreases |data| - HEADER_SIZE * k
  {
    if OkHeader(data, k) then 1 + HeadersFrom(data, k + 1) else 0
  }

  function HeaderCount(data: seq<Byte>): nat {
    HeadersFrom(data, 0)
  }

  method ReadHeaders(data: seq<Byte>) returns (n: nat)
    ensures n == HeaderCount(data)
    ensures forall k :: 0 <= k < n ==> HasHeader(data, k) && FmtAt(data, k) % 16 != 0 && MagicAt(data, k)
    ensures HasHeader(data, n) ==> FmtAt(data, n) % 16 == 0 || !MagicAt(data, n)
  {
    n := 0;
    while |data| - HEADER_SIZE * n > HEADER_SIZE - 1
      invariant HeaderCount(data) == n + HeadersFrom(data, n)
      invariant forall k :: 0 <= k < n ==> HasHeader(data, k) && FmtAt(data, k) % 16 != 0 && MagicAt(data, k)
      decreases |data| - HEADER_SIZE * n
    {
      if FmtAt(data, n) % 16 != 0 && MagicAt(data, n) {
        n := n + 1;
      } else {
        break;
      }
    }
  }

  /* ---- put requests ---- */

  function TilesIn(data: seq<Byte>, k: nat): nat
    requires HasHeader(data, k)
  {
    if CountAt(data, k) > 0 then CountAt(data, k) else 0
  }

  predicate InFile(data: seq<Byte>, e: Entry) {
    0 <= e.offset && 0 <= e.size && e.offset + e.size <= |data|
  }

  predicate TilesInFile(data: seq<Byte>, k: nat)
    requires HasHeader(data, k) && CountAt(data, k) <= SLOTS
  {
    forall i :: 0 <= i < TilesIn(data, k) ==> InFile(data, EntryAt(data, k, i))
  }

  // No header of the first n has more tiles than slots, or a tile outside the file.
  predicate Bounded(data: seq<Byte>, n: nat) {
    forall k :: 0 <= k < n ==> HasHeader(data, k) && CountAt(data, k) <= SLOTS && TilesInFile(data, k)
  }

  // The slots that hold a tile: those of the headers before k, and the first i of header k.
  function TileSlots(data: seq<Byte>, k: nat, i: nat): seq<(nat, nat)>
    requires Bounded(data, k) && i <= SLOTS && (i > 0 ==> HasHeader(data, k))
    decreases k, i
  {
    if i == 0 then
      if k == 0 then [] else TileSlots(data, k - 1, TilesIn(data, k - 1))
    else
      TileSlots(data, k, i - 1) + if EntryAt(data, k, i - 1).size == 0 then [] else [(k, i - 1)]
  }

  predicate HoldsTile(data: seq<Byte>, slot: (nat, nat)) {
    HasHeader(data, slot.0) && slot.1 < SLOTS && EntryAt(data, slot.0, slot.1).size != 0
  }

  lemma {:induction false} TileSlotsAre(data: seq<Byte>, k: nat, i: nat, slot: (nat, nat))
    requires Bounded(data, k) && i <= SLOTS && (i > 0 ==> HasHeader(data, k))
    ensures slot in TileSlots(data, k, i) <==>
      HoldsTile(data, slot) && ((slot.0 == k && slot.1 < i) || (slot.0 < k && slot.1 < TilesIn(data, slot.0)))
    decreases k, i
  {
    hide HasHeader, CountAt, EntryAt, TilesInFile;
    if i > 0 {
      TileSlotsAre(data, k, i - 1, slot);
    } else if k > 0 {
      TileSlotsAre(data, k - 1, TilesIn(data, k - 1), slot);
    }
  }

  function UrlOf(tile: Tile, data: seq<Byte>, slot: (nat, nat), replica: nat): Url
    requires HasHeader(data, slot.0)
  {
    var x, y := Align(tile.x) + slot.1 % METATILE, Align(tile.y) + slot.1 / METATILE;
    Url(replica, x, y, tile.z, tile.style, FmtAt(data, slot.0))
  }

  function PutOf(tile: Tile, data: seq<Byte>, slot: (nat, nat), replica: nat): Put
    requires HoldsTile(data, slot)
  {
    Put(UrlOf(tile, data, slot, replica), Extract(data, EntryAt(data, slot.0, slot.1)))
  }

  // The puts for the tiles in the slots, in order.
  ghost predicate PutsFor(puts: seq<Put>, tile: Tile, data: seq<Byte>, slots: seq<(nat, nat)>, replica: nat) {
    && |puts| == |slots|
    && forall j :: 0 <= j < |slots| ==>
      HoldsTile(data, slots[j]) && puts[j] == PutOf(tile, data, slots[j], replica)
  }

  ghost predicate UrlsFor(urls: seq<Url>, tile: Tile, data: seq<Byte>, slots: seq<(nat, nat)>, replica: nat) {
    && |urls| == |slots|
    && forall j :: 0 <= j < |slots| ==>
      HasHeader(data, slots[j].0) && urls[j] == UrlOf(tile, data, slots[j], replica)
  }

  // The puts of the first copies, up to slot i of header k.
  function PutsUpTo(tile: Tile, data: seq<Byte>, k: nat, i: nat): seq<Put>
    requires Bounded(data, k) && i <= SLOTS && (i > 0 ==> HasHeader(data, k))
    decreases k, i
  {
    if i == 0 then
      if k == 0 then [] else PutsUpTo(tile, data, k - 1, TilesIn(data, k - 1))
    else
      PutsUpTo(tile, data, k, i - 1) +
      if EntryAt(data, k, i - 1).size == 0 then [] else [PutOf(tile, data, (k, i - 1), 0)]
  }

  lemma {:induction false} PutsUpToAre(tile: Tile, data: seq<Byte>, k: nat, i: nat)
    requires Bounded(data, k) && i <= SLOTS && (i > 0 ==> HasHeader(data, k))
    ensures PutsFor(PutsUpTo(tile, data, k, i), tile, data, TileSlots(data, k, i), 0)
    decreases k, i
  {
    hide HasHeader, CountAt, EntryAt, FmtAt, Extract, TilesInFile;
    if i > 0 {
      PutsUpToAre(tile, data, k, i - 1);
    } else if k > 0 {
      PutsUpToAre(tile, data, k - 1, TilesIn(data, k - 1));
    }
  }

  function AllPuts(tile: Tile, data: seq<Byte>): (puts: seq<Put>)
    requires Bounded(data, HeaderCount(data))
    ensures PutsFor(puts, tile, data, TileSlots(data, HeaderCount(data), 0), 0)
  {
    PutsUpToAre(tile, data, HeaderCount(data), 0);
    PutsUpTo(tile, data, HeaderCount(data), 0)
  }

  // Formats that have a mime type, and those that have a file type; the rest raise an exception.
  predicate HasMimeType(fmt: int) {
    fmt in {1, 2, 4, 8}
  }

  predicate HasFileType(fmt: int) {
    fmt in {0, 1, 2, 4, 8, 15}
  }

  // Exactly the single formats have a mime type; no format and all of them have a file type besides.
  lemma TypedFormats(fmt: int)
    ensures HasMimeType(fmt) <==> exists f :: Code(f) == fmt
    ensures HasFileType(fmt) <==> HasMimeType(fmt) || fmt == 0 || fmt == MaskCode({PNG, JPEG, JSON, GIF})
  {
    assert Code(PNG) == 1 && Code(JPEG) == 2 && Code(JSON) == 4 && Code(GIF) == 8;
  }

  // Every header has a single format.
  predicate SingleFormats(data: seq<Byte>, n: nat) {
    forall k :: 0 <= k < n ==> HasHeader(data, k) && HasMimeType(FmtAt(data, k))
  }

  predicate HaveFileTypes(data: seq<Byte>, slots: seq<(nat, nat)>) {
    forall j :: 0 <= j < |slots| ==> HasHeader(data, slots[j].0) && HasFileType(FmtAt(data, slots[j].0))
  }

  // The requests, or an exception for a header with an ambiguous format.
  method MakePutRequests(tile: Tile, data: seq<Byte>) returns (r: Option<seq<Put>>)
    requires Bounded(data, HeaderCount(data))
    ensures r == if SingleFormats(data, HeaderCount(data)) then Some(AllPuts(tile, data)) else None
  {
    hide HeaderCount, HasHeader, CountAt, EntryAt, FmtAt, Extract, TilesInFile;
    var n := ReadHeaders(data);
    var puts := [];
    for k := 0 to n
      invariant puts == PutsUpTo(tile, data, k, 0) && SingleFormats(data, k)
    {
      if !HasMimeType(FmtAt(data, k)) {
        return None;
      }
      for i := 0 to TilesIn(data, k)
        invariant puts == PutsUpTo(tile, data, k, i)
      {
        if EntryAt(data, k, i).size == 0 {
          continue;
        }
        var url :=
          Url(0, Align(tile.x) + i % METATILE, Align(tile.y) + i / METATILE, tile.z, tile.style, FmtAt(data, k));
        puts := puts + [Put(url, Extract(data, EntryAt(data, k, i)))];
      }
    }
    r := Some(puts);
  }

  // The addresses of the second copies, or an exception for a tile whose format has no file type.
  method MakeReplicaUrls(tile: Tile, data: seq<Byte>) returns (r: Option<seq<Url>>)
    requires Bounded(data, HeaderCount(data))
    ensures r.Some? <==> HaveFileTypes(data, TileSlots(data, HeaderCount(data), 0))
    ensures r.Some? ==> UrlsFor(r.value, tile, data, TileSlots(data, HeaderCount(data), 0), 1)
  {
    hide HeaderCount, HasHeader, CountAt, EntryAt, FmtAt, TilesInFile, HasFileType;
    var n := ReadHeaders(data);
    var urls := [];
    for k := 0 to n
      invariant UrlsFor(urls, tile, data, TileSlots(data, k, 0), 1) && HaveFileTypes(data, TileSlots(data, k, 0))
    {
      for i := 0 to TilesIn(data, k)
        invariant UrlsFor(urls, tile, data, TileSlots(data, k, i), 1) && HaveFileTypes(data, TileSlots(data, k, i))
      {
        if EntryAt(data, k, i).size != 0 {
          if !HasFileType(FmtAt(data, k)) {
            assert (k, i) in TileSlots(data, n, 0) by {
              TileSlotsAre(data, n, 0, (k, i));
            }
            return None;
          }
          var url :=
            Url(1, Align(tile.x) + i % METATILE, Align(tile.y) + i / METATILE, tile.z, tile.style, FmtAt(data, k));
          urls := urls + [url];
        }
      }
    }
    r := Some(urls);
  }

  /* ---- the hosts ---- */

  datatype Copy = Copy(body: seq<Byte>, stamp: int)

  type Store = map<Url, Copy>

  predicate AllAccepted(puts: seq<Put>, accepts: Url -> bool) {
    forall j :: 0 <= j < |puts| ==> accepts(puts[j].url)
  }

  // What the hosts hold after the puts they accept.
  function Posted(store: Store, puts: seq<Put>, now: int, accepts: Url -> bool): Store {
    if puts == [] then store
    else
      var n := |puts| - 1;
      var before := Posted(store, puts[..n], now, accepts);
      if accepts(puts[n].url) then before[puts[n].url := Copy(puts[n].body, now)] else before
  }

  lemma {:induction false} PostedHas(store: Store, puts: seq<Put>, now: int, accepts: Url -> bool, p: Put)
    requires p in puts && accepts(p.url) && forall q <- puts :: q.url == p.url ==> q == p
    ensures p.url in Posted(store, puts, now, accepts)
    ensures Posted(store, puts, now, accepts)[p.url] == Copy(p.body, now)
  {
    var n := |puts| - 1;
    if puts[n].url != p.url {
      assert p in puts[..n];
      PostedHas(store, puts[..n], now, accepts, p);
    } else {
      assert puts[n] in puts;
    }
  }

  lemma {:induction false} PostedKeeps(store: Store, puts: seq<Put>, now: int, accepts: Url -> bool, url: Url)
    requires forall p <- puts :: p.url == url ==> !accepts(url)
    ensures url in Posted(store, puts, now, accepts) <==> url in store
    ensures url in store ==> Posted(store, puts, now, accepts)[url] == store[url]
  {
    if puts != [] {
      PostedKeeps(store, puts[..|puts| - 1], now, accepts, url);
    }
  }

  // The same tiles, addressed to the other copy.
  function Mirrored(puts: seq<Put>): seq<Put> {
    seq(|puts|, j requires 0 <= j < |puts| => puts[j].(url := puts[j].url.(replica := 1)))
  }

  // In serial mode the puts end with the first that is refused.
  function Attempted(puts: seq<Put>, serial: bool, accepts: Url -> bool): seq<Put> {
    if !serial || puts == [] then puts
    else
      var n := |puts| - 1;
      var front := Attempted(puts[..n], serial, accepts);
      if front == puts[..n] && accepts(puts[n].url) then puts else front
  }

  // All of them in parallel; in serial mode all up to the first that is refused.
  lemma {:induction false} AttemptedIs(puts: seq<Put>, accepts: Url -> bool)
    ensures Attempted(puts, false, accepts) == puts
    ensures var sent := Attempted(puts, true, accepts);
      && sent <= puts && AllAccepted(sent, accepts)
      && (sent == puts || !accepts(puts[|sent|].url))
  {
    if puts != [] {
      AttemptedIs(puts[..|puts| - 1], accepts);
    }
  }

  lemma {:induction false} AllAttempted(puts: seq<Put>, serial: bool, accepts: Url -> bool)
    requires AllAccepted(puts, accepts)
    ensures Attempted(puts, serial, accepts) == puts
  {
    if serial && puts != [] {
      AllAttempted(puts[..|puts| - 1], serial, accepts);
    }
  }

  method PutParallel(puts: seq<Put>, store: Store, now: int, accepts: Url -> bool) returns (ok: bool, after: Store)
    ensures ok == AllAccepted(puts, accepts)
    ensures after == Posted(store, puts, now, accepts)
  {
    ok, after := true, store;
    for j := 0 to |puts|
      invariant ok == AllAccepted(puts[..j], accepts)
      invariant after == Posted(store, puts[..j], now, accepts)
    {
      assert puts[..j + 1][..j] == puts[..j];
      if accepts(puts[j].url) {
        after := after[puts[j].url := Copy(puts[j].body, now)];
      } else {
        ok := false;
      }
    }
    assert puts[..|puts|] == puts;
  }

  method PutSerial(puts: seq<Put>, store: Store, now: int, accepts: Url -> bool) returns (ok: bool, after: Store)
    ensures ok == AllAccepted(puts, accepts)
    ensures after == Posted(store, Attempted(puts, true, accepts), now, accepts)
  {
    ok, after := true, store;
    var j := 0;
    while j < |puts| && ok
      invariant j <= |puts| && ok == AllAccepted(puts[..j], accepts)
      invariant after == Posted(store, Attempted(puts[..j], true, accepts), now, accepts)
      invariant ok ==> Attempted(puts[..j], true, accepts) == puts[..j]
      invariant !ok ==> Attempted(puts[..j], true, accepts) != puts[..j]
    {
      assert puts[..j + 1][..j] == puts[..j];
      if accepts(puts[j].url) {
        after := after[puts[j].url := Copy(puts[j].body, now)];
      } else {
        ok := false;
      }
      j := j + 1;
    }
    if ok {
      assert puts[..j] == puts;
    } else {
      RefusedStops(puts, j, accepts);
    }
  }

  // Once a put has been refused the rest are not attempted.
  lemma {:induction false} RefusedStops(puts: seq<Put>, j: nat, accepts: Url -> bool)
    requires j <= |puts| && Attempted(puts[..j], true, accepts) != puts[..j]
    ensures Attempted(puts, true, accepts) == Attempted(puts[..j], true, accepts)
    ensures Attempted(puts, true, accepts) != puts
    decreases |puts|
  {
    if j == |puts| {
      assert puts[..j] == puts;
    } else {
      var n := |puts| - 1;
      assert puts[..n][..j] == puts[..j];
      RefusedStops(puts[..n], j, accepts);
      AttemptedIsShorter(puts[..n], accepts);
    }
  }

  lemma {:induction false} AttemptedIsShorter(puts: seq<Put>, accepts: Url -> bool)
    ensures |Attempted(puts, true, accepts)| <= |puts|
  {
    if puts != [] {
      AttemptedIsShorter(puts[..|puts| - 1], accepts);
    }
  }

  // One copy of everything. `raised` says whether the transport gives a parallel batch up with an exception.
  method PutCopy(puts: seq<Put>, store: Store, now: int, serial: bool, raised: bool, accepts: Url -> bool)
    returns (ok: bool, after: Store)
    ensures ok == CopyAccepted(puts, serial, raised, accepts)
    ensures after == Posted(store, Attempted(puts, serial, accepts), now, accepts)
  {
    if serial {
      ok, after := PutSerial(puts, store, now, accepts);
    } else {
      ok, after := PutParallel(puts, store, now, accepts);
      ok := ok && !raised;
    }
  }

  predicate CopyAccepted(puts: seq<Put>, serial: bool, raised: bool, accepts: Url -> bool) {
    AllAccepted(puts, accepts) && (serial || !raised)
  }

  // Marks a tile's copies as out of date on the hosts that can be reached.
  function Expired(store: Store, urls: set<Url>, reached: Url -> bool): Store {
    map url | url in store ::
      if url in urls && reached(url) then store[url].(stamp := INVALID_TIMESTAMP) else store[url]
  }

  // What the hosts hold after both copies have gone out.
  function BothPosted(store: Store, puts: seq<Put>, now: int, serial: bool, accepts: Url -> bool): Store {
    var first := Posted(store, Attempted(puts, serial, accepts), now, accepts);
    Posted(first, Attempted(Mirrored(puts), serial, accepts), now, accepts)
  }

  // How the transport behaves: serial or parallel, whether the first and the second batch raise, who accepts a put
  // and who can be reached to expire.
  datatype Transport =
    Transport(serial: bool, raised0: bool, raised1: bool, accepts: Url -> bool, reached: Url -> bool)

  predicate FirstAccepted(puts: seq<Put>, net: Transport) {
    CopyAccepted(puts, net.serial, net.raised0, net.accepts)
  }

  predicate SecondAccepted(puts: seq<Put>, net: Transport) {
    CopyAccepted(Mirrored(puts), net.serial, net.raised1, net.accepts)
  }

  // Puts both copies; the second goes out in the order of the first, with the addresses replaced one by one.
  method PutMeta(tile: Tile, data: seq<Byte>, store: Store, now: int, net: Transport)
    returns (r: Option<bool>, after: Store)
    requires tile.z >= 0 && Bounded(data, HeaderCount(data))
    ensures r.Some? <==> SingleFormats(data, HeaderCount(data))
    ensures r.None? ==> after == store
    ensures r.Some? ==>
      r.value == (FirstAccepted(AllPuts(tile, data), net) || SecondAccepted(AllPuts(tile, data), net))
    ensures r == Some(true) ==> after == BothPosted(store, AllPuts(tile, data), now, net.serial, net.accepts)
    ensures r == Some(false) ==>
      MarkedOut(BothPosted(store, AllPuts(tile, data), now, net.serial, net.accepts), after, tile, net)
  {
    hide HeaderCount, HasHeader, CountAt, EntryAt, FmtAt, Extract, Posted, Attempted, Expired, AllPuts, CopyAccepted;
    var made := MakePutRequests(tile, data);
    if made.None? {
      return None, store;
    }
    var requests := made.value;
    ghost var puts := requests;
    var ok0, ok1;
    ok0, after := PutCopy(requests, store, now, net.serial, net.raised0, net.accepts);
    SingleHaveFileTypes(data);
    var urls := MakeReplicaUrls(tile, data);
    for j := 0 to |requests|
      invariant |requests| == |puts|
      invariant forall i :: 0 <= i < j ==> requests[i] == Mirrored(puts)[i]
      invariant forall i :: j <= i < |puts| ==> requests[i] == puts[i]
    {
      assert urls.value[j] == puts[j].url.(replica := 1);
      requests := requests[j := requests[j].(url := urls.value[j])];
    }
    assert requests == Mirrored(puts);
    ok1, after := PutCopy(requests, after, now, net.serial, net.raised1, net.accepts);
    if !ok0 && !ok1 {
      ExpiredIsMarked(after, tile, net);
      after := Expired(after, GetUrlSet(tile, 0) + GetUrlSet(tile, 1), net.reached);
    }
    r := Some(ok0 || ok1);
  }

  /* The hosts hold what they held, except that every copy of the metatile's tiles, first or second, on a host that was
     reached is out of date. */
  ghost predicate MarkedOut(posted: Store, after: Store, tile: Tile, net: Transport)
    requires tile.z >= 0
  {
    && after.Keys == posted.Keys
    && forall url :: url in posted ==>
      && after[url].body == posted[url].body
      && after[url].stamp ==
        if (url in GetUrls(tile, 0) || url in GetUrls(tile, 1)) && net.reached(url) then INVALID_TIMESTAMP
        else posted[url].stamp
  }

  lemma ExpiredIsMarked(posted: Store, tile: Tile, net: Transport)
    requires tile.z >= 0
    ensures MarkedOut(posted, Expired(posted, GetUrlSet(tile, 0) + GetUrlSet(tile, 1), net.reached), tile, net)
  {
    hide GetUrls;
  }

  lemma SingleHaveFileTypes(data: seq<Byte>)
    requires Bounded(data, HeaderCount(data)) && SingleFormats(data, HeaderCount(data))
    ensures HaveFileTypes(data, TileSlots(data, HeaderCount(data), 0))
  {
    var slots := TileSlots(data, HeaderCount(data), 0);
    hide HeaderCount, HasHeader, FmtAt, CountAt, EntryAt, TileSlots;
    forall j | 0 <= j < |slots| ensures HasHeader(data, slots[j].0) && HasFileType(FmtAt(data, slots[j].0)) {
      TileSlotsAre(data, HeaderCount(data), 0, slots[j]);
    }
  }

  /* ---- the addresses of a metatile ---- */

  // The address of tile (x, y) of a metatile in a format.
  function TileUrl(tile: Tile, f: Format, y: int, x: int, replica: nat): Url {
    Url(replica, Align(tile.x) + x, Align(tile.y) + y, tile.z, tile.style, Code(f))
  }

  function Row(tile: Tile, f: Format, d: nat, y: int, replica: nat): seq<Url> {
    seq(d, x requires 0 <= x < d => TileUrl(tile, f, y, x, replica))
  }

  function Rows(tile: Tile, f: Format, d: nat, replica: nat): seq<seq<Url>> {
    seq(d, y requires 0 <= y < d => Row(tile, f, d, y, replica))
  }

  function Sheets(tile: Tile, fs: seq<Format>, d: nat, replica: nat): seq<seq<Url>> {
    seq(|fs|, n requires 0 <= n < |fs| => Concat(Rows(tile, fs[n], d, replica)))
  }

  // Format by format and row by row.
  function MaskUrls(tile: Tile, fs: seq<Format>, d: nat, replica: nat): seq<Url> {
    Concat(Sheets(tile, fs, d, replica))
  }

  function GetUrls(tile: Tile, replica: nat): seq<Url>
    requires tile.z >= 0
  {
    MaskUrls(tile, FormatList(tile.format), MetaDim(tile.z), replica)
  }

  function GetUrlSet(tile: Tile, replica: nat): set<Url>
    requires tile.z >= 0
  {
    set url | url in GetUrls(tile, replica)
  }

  method MakeGetUrls(tile: Tile, replica: nat) returns (urls: seq<Url>)
    requires tile.z >= 0
    ensures urls == GetUrls(tile, replica)
  {
    hide FormatList, MetaDim, TileUrl, Concat, Rows;
    urls := [];
    var fs, d := FormatList(tile.format), MetaDim(tile.z);
    ghost var sheets := Sheets(tile, fs, d, replica);
    ConcatNone<Url>();
    assert sheets[..0] == [];
    for n := 0 to |fs|
      invariant urls == Concat(sheets[..n])
    {
      ConcatUpTo(sheets, n);
      urls := AddSheet(urls, tile, fs[n], d, replica);
    }
    assert sheets[..|fs|] == sheets;
  }

  // The loops over the rows and the columns of one format.
  method AddSheet(before: seq<Url>, tile: Tile, f: Format, d: nat, replica: nat) returns (urls: seq<Url>)
    ensures urls == before + Concat(Rows(tile, f, d, replica))
  {
    hide TileUrl, Concat;
    urls := before;
    ghost var rows := Rows(tile, f, d, replica);
    ConcatNone<Url>();
    assert rows[..0] == [];
    for y := 0 to d
      invariant urls == before + Concat(rows[..y])
    {
      ConcatUpTo(rows, y);
      ghost var row := urls;
      for x := 0 to d
        invariant urls == row + rows[y][..x]
      {
        urls := urls + [TileUrl(tile, f, y, x, replica)];
      }
      assert rows[y][..d] == rows[y];
    }
    assert rows[..d] == rows;
  }

  lemma SheetLength(tile: Tile, f: Format, d: nat, replica: nat)
    ensures |Concat(Rows(tile, f, d, replica))| == d * d
  {
    ConcatLength(Rows(tile, f, d, replica), d);
  }

  lemma SheetUrlAt(tile: Tile, f: Format, d: nat, y: nat, x: nat, replica: nat)
    requires x < d && y < d
    ensures |Concat(Rows(tile, f, d, replica))| == d * d && d * y + x < d * d
    ensures Concat(Rows(tile, f, d, replica))[d * y + x] == TileUrl(tile, f, y, x, replica)
  {
    ConcatElement(Rows(tile, f, d, replica), d, y, x);
  }

  // The place of tile (x, y) of the nth format.
  function Rank(d: int, n: int, y: int, x: int): int {
    d * d * n + (d * y + x)
  }

  lemma MaskUrlAt(tile: Tile, fs: seq<Format>, d: nat, n: nat, y: nat, x: nat, replica: nat)
    requires x < d && y < d && n < |fs|
    ensures 0 <= Rank(d, n, y, x) < |MaskUrls(tile, fs, d, replica)|
    ensures MaskUrls(tile, fs, d, replica)[Rank(d, n, y, x)] == TileUrl(tile, fs[n], y, x, replica)
  {
    hide Concat, TileUrl, Rows;
    forall j | 0 <= j < |fs| ensures |Sheets(tile, fs, d, replica)[j]| == d * d {
      SheetLength(tile, fs[j], d, replica);
    }
    SheetUrlAt(tile, fs[n], d, y, x, replica);
    ConcatElement(Sheets(tile, fs, d, replica), d * d, n, d * y + x);
  }

  lemma Splits(j: int, len: int, n: int) returns (k: int, i: int)
    requires 0 <= j < len * n && (len == 1 || len == 2 || len == 4 || len == 8 || len == 16 || len == 64)
    ensures 0 <= k < n && 0 <= i < len && j == len * k + i
  {
    k, i := j / len, j % len;
  }

  // Every address is that of a tile.
  lemma MaskUrlIs(tile: Tile, fs: seq<Format>, d: nat, j: nat, replica: nat) returns (n: nat, y: nat, x: nat)
    requires d == 1 || d == 2 || d == 4 || d == 8
    requires j < d * d * |fs|
    ensures n < |fs| && x < d && y < d && j == Rank(d, n, y, x) < |MaskUrls(tile, fs, d, replica)|
    ensures MaskUrls(tile, fs, d, replica)[j] == TileUrl(tile, fs[n], y, x, replica)
  {
    var i;
    hide MaskUrls, TileUrl;
    n, i := Splits(j, d * d, |fs|);
    y, x := Splits(i, d, d);
    MaskUrlAt(tile, fs, d, n, y, x, replica);
  }

  /* ---- get_meta ---- */

  predicate AllGood(rs: seq<Response>) {
    forall j :: 0 <= j < |rs| ==> Good(rs[j])
  }

  method CheckResponses(rs: seq<Response>) returns (ok: bool)
    ensures ok <==> AllGood(rs)
  {
    ok := true;
    for j := 0 to |rs|
      invariant ok <==> AllGood(rs[..j])
    {
      if rs[j].status != 200 || rs[j].stamp == INVALID_TIMESTAMP {
        ok := false;
      }
    }
    assert rs[..|rs|] == rs;
  }

  function Bodies(rs: seq<Response>): seq<seq<Byte>> {
    seq(|rs|, j requires 0 <= j < |rs| => rs[j].body)
  }

  // The copy used for each tile: all first ones if they are all good, else all second ones if those are,
  // else for each tile the first good one.
  function Chosen(rs0: seq<Response>, rs1: seq<Response>): seq<Response>
    requires |rs0| == |rs1|
  {
    if AllGood(rs0) then rs0
    else if AllGood(rs1) then rs1
    else seq(|rs0|, j requires 0 <= j < |rs0| => if Good(rs0[j]) then rs0[j] else rs1[j])
  }

  ghost predicate Recoverable(rs0: seq<Response>, rs1: seq<Response>)
    requires |rs0| == |rs1|
  {
    forall j :: 0 <= j < |rs0| ==> Good(rs0[j]) || Good(rs1[j])
  }

  // Nothing bad is ever used, and every tile used is a copy of that tile.
  lemma ChosenAreGood(rs0: seq<Response>, rs1: seq<Response>, j: nat)
    requires |rs0| == |rs1| && j < |rs0|
    ensures |Chosen(rs0, rs1)| == |rs0| && Chosen(rs0, rs1)[j] in {rs0[j], rs1[j]}
    ensures Recoverable(rs0, rs1) ==> Good(Chosen(rs0, rs1)[j])
    ensures AllGood(rs0) || (!AllGood(rs1) && Good(rs0[j])) ==> Chosen(rs0, rs1)[j] == rs0[j]
    ensures !AllGood(rs0) && (AllGood(rs1) || !Good(rs0[j])) ==> Chosen(rs0, rs1)[j] == rs1[j]
  {
  }

  predicate Buildable(tile: Tile) {
    0 <= tile.z < 31 && IsInt32(tile.x) && IsInt32(tile.y)
  }

  method GetMeta(tile: Tile, rs0: seq<Response>, rs1: seq<Response>) returns (r: Option<seq<Byte>>)
    requires Buildable(tile) && |rs0| == |rs1| == MetaDim(tile.z) * MetaDim(tile.z) * |FormatList(tile.format)|
    requires HEADER_SIZE * |FormatList(tile.format)| + |Concat(Bodies(Chosen(rs0, rs1)))| < 0x8000_0000
    ensures r.Some? <==> Recoverable(rs0, rs1)
    ensures r.Some? ==> ReadsBack(r.value, tile, Bodies(Chosen(rs0, rs1)))
  {
    hide Concat, MetaDim, FormatList, ReadsBack, IsInt32;
    var metatile;
    ghost var hs;
    var ok0 := CheckResponses(rs0);
    if !ok0 {
      var ok1 := CheckResponses(rs1);
      if !ok1 {
        var combined: seq<Response> := [];
        for j := 0 to |rs0|
          invariant combined == Chosen(rs0, rs1)[..j]
          invariant forall i :: 0 <= i < j ==> Good(rs0[i]) || Good(rs1[i])
        {
          if rs0[j].status == 200 && rs0[j].stamp != INVALID_TIMESTAMP {
            combined := combined + [rs0[j]];
          } else if rs1[j].status == 200 && rs1[j].stamp != INVALID_TIMESTAMP {
            combined := combined + [rs1[j]];
          } else {
            return None;
          }
        }
        assert combined == Chosen(rs0, rs1);
        metatile, hs := MakeMetatile(tile, Bodies(combined));
      } else {
        metatile, hs := MakeMetatile(tile, Bodies(rs1));
      }
    } else {
      metatile, hs := MakeMetatile(tile, Bodies(rs0));
    }
    r := Some(metatile);
  }

  /* ---- put, then get ---- */

  // A header for each format, no format twice, and none that is really tile data.
  predicate ProperHeaders(data: seq<Byte>) {
    var n := HeaderCount(data);
    && Bounded(data, n)
    && (forall k :: 0 <= k < n ==> OkHeader(data, k) && FmtAt(data, k) in {1, 2, 4, 8})
    && (forall j, k :: 0 <= j < k < n ==> OkHeader(data, j) && OkHeader(data, k) && FmtAt(data, j) != FmtAt(data, k))
  }

  // Header k is the format's, and none of the format's d x d tiles is empty.
  predicate FullLayer(data: seq<Byte>, f: Format, d: nat, k: nat) {
    && HasHeader(data, k) && FmtAt(data, k) == Code(f) && CountAt(data, k) == SLOTS
    && forall y, x :: 0 <= y < d && 0 <= x < d ==> HoldsTile(data, (k, Slot(x, y)))
  }

  // A metatile that has every tile of the mask's formats.
  predicate Complete(tile: Tile, data: seq<Byte>)
    requires tile.z >= 0
  {
    ProperHeaders(data) &&
    forall f <- FormatList(tile.format) ::
      exists k: nat :: k < HeaderCount(data) && FullLayer(data, f, MetaDim(tile.z), k)
  }

  lemma {:induction false} LocateProper(data: seq<Byte>, j: nat, k: nat)
    requires ProperHeaders(data) && j <= k < HeaderCount(data) && HasHeader(data, k)
    ensures Locate(data, FmtAt(data, k), j) == Some(k)
    decreases k - j
  {
    hide HeaderCount, Bounded, HasHeader, FmtAt, MagicAt;
    assert OkHeader(data, j);
    if j < k {
      LocateProper(data, j + 1, k);
    }
  }

  // Two tiles of a metatile have different addresses.
  lemma SlotOfUrl(tile: Tile, data: seq<Byte>, s: (nat, nat), t: (nat, nat))
    requires ProperHeaders(data) && s.0 < HeaderCount(data) && t.0 < HeaderCount(data)
    requires HasHeader(data, s.0) && HasHeader(data, t.0) && s.1 < SLOTS && t.1 < SLOTS
    requires UrlOf(tile, data, s, 0) == UrlOf(tile, data, t, 0)
    ensures s == t
  {
    hide HeaderCount, Bounded, HasHeader, FmtAt, OkHeader;
    assert s.1 % METATILE == t.1 % METATILE && s.1 / METATILE == t.1 / METATILE;
  }

  // What the reader finds for a tile of the metatile that is put.
  function TileOf(tile: Tile, data: seq<Byte>, f: Format, y: int, x: int): seq<Byte> {
    ReadTile(data, Code(f), Align(tile.x) + x, Align(tile.y) + y)
  }

  lemma SlotParts8(tile: Tile, y: nat, x: nat)
    requires y < METATILE && x < METATILE
    ensures Slot(x, y) % METATILE == x && Slot(x, y) / METATILE == y
    ensures Slot(Align(tile.x) + x, Align(tile.y) + y) == Slot(x, y)
  {
    AlignedSlot(tile.x, tile.y, x, y);
  }

  lemma PutOfTile(tile: Tile, data: seq<Byte>, f: Format, d: nat, k: nat, y: nat, x: nat)
    requires ProperHeaders(data) && k < HeaderCount(data) && FullLayer(data, f, d, k) && y < d && x < d && d <= METATILE
    ensures HoldsTile(data, (k, Slot(x, y)))
    ensures PutOf(tile, data, (k, Slot(x, y)), 0) == Put(TileUrl(tile, f, y, x, 0), TileOf(tile, data, f, y, x))
  {
    hide HeaderCount, ProperHeaders, HasHeader, FmtAt, EntryAt, Extract, Slot, Locate, Align;
    LocateProper(data, 0, k);
    SlotParts8(tile, y, x);
    var slot := (k, Slot(x, y));
    assert HoldsTile(data, slot);
  }

  lemma PutListed(tile: Tile, data: seq<Byte>, puts: seq<Put>, k: nat, i: nat)
    requires ProperHeaders(data) && k < HeaderCount(data) && HoldsTile(data, (k, i)) && CountAt(data, k) == SLOTS
    requires PutsFor(puts, tile, data, TileSlots(data, HeaderCount(data), 0), 0)
    ensures PutOf(tile, data, (k, i), 0) in puts
  {
    var n := HeaderCount(data);
    hide HeaderCount, EntryAt, FmtAt, CountAt, Extract;
    TileSlotsAre(data, n, 0, (k, i));
    var j :| 0 <= j < |TileSlots(data, n, 0)| && TileSlots(data, n, 0)[j] == (k, i);
    assert puts[j] == PutOf(tile, data, (k, i), 0);
  }

  lemma PutsDiffer(tile: Tile, data: seq<Byte>, puts: seq<Put>, slot: (nat, nat))
    requires ProperHeaders(data) && slot.0 < HeaderCount(data) && HoldsTile(data, slot)
    requires PutsFor(puts, tile, data, TileSlots(data, HeaderCount(data), 0), 0)
    ensures forall q <- puts :: q.url == UrlOf(tile, data, slot, 0) ==> q == PutOf(tile, data, slot, 0)
  {
    var n := HeaderCount(data);
    var slots := TileSlots(data, n, 0);
    hide HeaderCount, EntryAt, FmtAt, CountAt, Extract, ProperHeaders, TileSlots;
    forall q | q in puts && q.url == UrlOf(tile, data, slot, 0)
      ensures q == PutOf(tile, data, slot, 0)
    {
      var j :| 0 <= j < |puts| && puts[j] == q;
      assert slots[j] in slots;
      ProperIsBounded(data);
      TileSlotsAre(data, n, 0, slots[j]);
      SlotOfUrl(tile, data, slots[j], slot);
    }
  }

  lemma ProperIsBounded(data: seq<Byte>)
    requires ProperHeaders(data)
    ensures Bounded(data, HeaderCount(data))
  {
  }

  lemma {:induction false} AttemptedFrom(puts: seq<Put>, serial: bool, accepts: Url -> bool, q: Put)
    requires q in Attempted(puts, serial, accepts)
    ensures q in puts
  {
    if serial && puts != [] {
      var n := |puts| - 1;
      if q in Attempted(puts[..n], serial, accepts) {
        AttemptedFrom(puts[..n], serial, accepts, q);
      }
    }
  }

  function Respond(store: Store, url: Url): Response {
    if url in store then Response(200, store[url].stamp, store[url].body) else Response(404, INVALID_TIMESTAMP, [])
  }

  function Fetched(store: Store, urls: seq<Url>): seq<Response> {
    seq(|urls|, j requires 0 <= j < |urls| => Respond(store, urls[j]))
  }

  // The tiles of a metatile, in the order in which they are fetched.
  function TilesOf(tile: Tile, data: seq<Byte>): seq<seq<Byte>>
    requires tile.z >= 0
  {
    var urls := GetUrls(tile, 0);
    seq(|urls|, j requires 0 <= j < |urls| => ReadTile(data, urls[j].fmt, urls[j].x, urls[j].y))
  }

  ghost predicate Holding(store: Store, tile: Tile, data: seq<Byte>, now: int)
    requires tile.z >= 0
  {
    forall f, y: nat, x: nat :: f in FormatList(tile.format) && y < MetaDim(tile.z) && x < MetaDim(tile.z) ==>
      Respond(store, TileUrl(tile, f, y, x, 0)) == Response(200, now, TileOf(tile, data, f, y, x))
  }

  lemma GetUrlIs(tile: Tile, j: nat) returns (f: Format, y: nat, x: nat)
    requires tile.z >= 0 && j < |GetUrls(tile, 0)|
    ensures f in FormatList(tile.format) && y < MetaDim(tile.z) && x < MetaDim(tile.z)
    ensures GetUrls(tile, 0)[j] == TileUrl(tile, f, y, x, 0)
  {
    var fs, d := FormatList(tile.format), MetaDim(tile.z);
    UrlCount(tile, 0);
    hide FormatList, MetaDim, MaskUrls, TileUrl;
    var n;
    n, y, x := MaskUrlIs(tile, fs, d, j, 0);
    f := fs[n];
  }

  lemma FetchedTile(tile: Tile, data: seq<Byte>, store: Store, now: int, j: nat)
    requires tile.z >= 0 && Holding(store, tile, data, now)
    requires j < |GetUrls(tile, 0)|
    ensures Respond(store, GetUrls(tile, 0)[j]) == Response(200, now, TilesOf(tile, data)[j])
  {
    hide FormatList, MetaDim, GetUrls, ReadTile, Respond, Align;
    var f, y, x := GetUrlIs(tile, j);
  }

  lemma UrlCount(tile: Tile, replica: nat)
    requires tile.z >= 0
    ensures |GetUrls(tile, replica)| == MetaDim(tile.z) * MetaDim(tile.z) * |FormatList(tile.format)|
  {
    var fs, d := FormatList(tile.format), MetaDim(tile.z);
    hide FormatList, MetaDim, Concat, Rows;
    forall j | 0 <= j < |fs| ensures |Sheets(tile, fs, d, replica)[j]| == d * d {
      SheetLength(tile, fs[j], d, replica);
    }
    ConcatLength(Sheets(tile, fs, d, replica), d * d);
  }

  lemma FetchedTiles(tile: Tile, data: seq<Byte>, store: Store, now: int)
    requires tile.z >= 0 && Holding(store, tile, data, now) && now != INVALID_TIMESTAMP
    ensures AllGood(Fetched(store, GetUrls(tile, 0)))
    ensures Bodies(Fetched(store, GetUrls(tile, 0))) == TilesOf(tile, data)
  {
    var rs := Fetched(store, GetUrls(tile, 0));
    hide GetUrls, Holding, Respond, ReadTile, MetaDim, FormatList;
    forall j | 0 <= j < |rs| ensures rs[j] == Response(200, now, TilesOf(tile, data)[j]) {
      FetchedTile(tile, data, store, now, j);
    }
  }

  // The rebuilt metatile would not leave 32-bit offsets.
  predicate FitsRebuilt(tile: Tile, rs: seq<Response>) {
    HEADER_SIZE * |FormatList(tile.format)| + |Concat(Bodies(rs))| < 0x8000_0000
  }

  // The tiles of a metatile; a zoom level is 2^z tiles wide.
  predicate OfMetatile(tile: Tile, x: int, y: int)
    requires tile.z >= 0
  {
    && Align(x) == Align(tile.x) && Align(y) == Align(tile.y)
    && x % METATILE < Pow(2, tile.z) && y % METATILE < Pow(2, tile.z)
  }

  // The reader finds the same bytes in both for every tile of the metatile in every format of the mask.
  ghost predicate SameTiles(tile: Tile, a: seq<Byte>, b: seq<Byte>)
    requires tile.z >= 0
  {
    forall f, x, y :: f in tile.format && OfMetatile(tile, x, y) ==>
      ReadTile(a, Code(f), x, y) == ReadTile(b, Code(f), x, y)
  }

  lemma OfMetatileIs(tile: Tile, x: int, y: int)
    requires tile.z >= 0 && Align(x) == Align(tile.x) && Align(y) == Align(tile.y)
    ensures OfMetatile(tile, x, y) <==> x % METATILE < MetaDim(tile.z) && y % METATILE < MetaDim(tile.z)
    ensures x == Align(tile.x) + x % METATILE && y == Align(tile.y) + y % METATILE
  {
    MetaDimIs(tile.z);
  }

  lemma PlaceOfMetatile(tile: Tile, dx: nat, dy: nat)
    requires dx < METATILE && dy < METATILE
    ensures Align(Align(tile.x) + dx) == Align(tile.x) && (Align(tile.x) + dx) % METATILE == dx
    ensures Align(Align(tile.y) + dy) == Align(tile.y) && (Align(tile.y) + dy) % METATILE == dy
  {
  }

  // The address of tile (x, y) itself, in a format of the mask.
  ghost predicate AddressOf(tile: Tile, replica: nat, url: Url)
    requires tile.z >= 0
  {
    && url.replica == replica && url.z == tile.z && url.style == tile.style
    && OfMetatile(tile, url.x, url.y)
    && exists f :: f in tile.format && Code(f) == url.fmt
  }

  // What is fetched are the metatile's own tiles, all of them, in all formats of the mask.
  lemma GetUrlsAre(tile: Tile, replica: nat, url: Url)
    requires tile.z >= 0
    ensures url in GetUrls(tile, replica) <==> AddressOf(tile, replica, url)
  {
    hide GetUrls, AddressOf;
    if url in GetUrls(tile, replica) {
      var j :| 0 <= j < |GetUrls(tile, replica)| && GetUrls(tile, replica)[j] == url;
      FetchedIsAddress(tile, replica, j);
    }
    if AddressOf(tile, replica, url) {
      AddressIsFetched(tile, replica, url);
    }
  }

  lemma FetchedIsAddress(tile: Tile, replica: nat, j: nat)
    requires tile.z >= 0 && j < |GetUrls(tile, replica)|
    ensures AddressOf(tile, replica, GetUrls(tile, replica)[j])
  {
    hide FormatList, MaskUrls, Align, OfMetatile, Code, Pow;
    var fs, d := FormatList(tile.format), MetaDim(tile.z);
    UrlCount(tile, replica);
    var n, y, x := MaskUrlIs(tile, fs, d, j, replica);
    FormatListIs(tile.format, fs[n]);
    PlaceOfMetatile(tile, x, y);
    OfMetatileIs(tile, Align(tile.x) + x, Align(tile.y) + y);
  }

  lemma AddressIsFetched(tile: Tile, replica: nat, url: Url)
    requires tile.z >= 0 && AddressOf(tile, replica, url)
    ensures url in GetUrls(tile, replica)
  {
    hide FormatList, MaskUrls, Align, OfMetatile, Code, Pow, MetaDim;
    var f :| f in tile.format && Code(f) == url.fmt;
    FormatListIs(tile.format, f);
    var n :| 0 <= n < |FormatList(tile.format)| && FormatList(tile.format)[n] == f;
    OfMetatileAligned(tile, url.x, url.y);
    OfMetatileIs(tile, url.x, url.y);
    MaskUrlAt(tile, FormatList(tile.format), MetaDim(tile.z), n, url.y % METATILE, url.x % METATILE, replica);
  }

  // After an accepted put each tile's bytes are at that tile's own address.
  lemma StoredAtOwnAddress(tile: Tile, data: seq<Byte>, store: Store, now: int, net: Transport,
                           f: Format, x: int, y: int)
    requires tile.z >= 0 && Complete(tile, data) && f in tile.format && OfMetatile(tile, x, y)
    requires FirstAccepted(AllPuts(tile, data), net)
    ensures Respond(BothPosted(store, AllPuts(tile, data), now, net.serial, net.accepts),
                    Url(0, x, y, tile.z, tile.style, Code(f))) == Response(200, now, ReadTile(data, Code(f), x, y))
  {
    hide FormatList, Align, OfMetatile, Code, MetaDim, Complete, FirstAccepted, AllPuts, BothPosted, Respond, ReadTile;
    FormatListIs(tile.format, f);
    OfMetatileAligned(tile, x, y);
    OfMetatileIs(tile, x, y);
    PrimaryHolds(tile, data, store, now, net, f, y % METATILE, x % METATILE);
  }

  /* A metatile is put, and then rebuilt from what the hosts hold and whatever the second copies' hosts answer. If the
     first copies were all acknowledged it has the tiles it had. */
  method PutThenGet(tile: Tile, data: seq<Byte>, store: Store, now: int, net: Transport, rs1: seq<Response>)
    returns (ok: Option<bool>, r: Option<seq<Byte>>)
    requires Buildable(tile) && Complete(tile, data) && now != INVALID_TIMESTAMP
    requires |rs1| == MetaDim(tile.z) * MetaDim(tile.z) * |FormatList(tile.format)|
    requires HEADER_SIZE * |FormatList(tile.format)| + |Concat(TilesOf(tile, data))| < 0x8000_0000
    ensures ok == Some(FirstAccepted(AllPuts(tile, data), net) || SecondAccepted(AllPuts(tile, data), net))
    ensures FirstAccepted(AllPuts(tile, data), net) ==> r.Some? && SameTiles(tile, r.value, data)
  {
    CompleteIsBounded(tile, data);
    hide Complete, MetaDim, FormatList, Concat, HeaderCount, AllPuts, BothPosted, Expired, TileOf, TilesOf, Fetched,
      ReadsBack, TileUrl, Respond, Recoverable, SingleFormats, FirstAccepted, SecondAccepted, SameTiles, Bodies, Chosen,
      Holding, AllGood;
    var after;
    ok, after := PutMeta(tile, data, store, now, net);
    UrlCount(tile, 0);
    var urls := MakeGetUrls(tile, 0);
    var rs0 := Fetched(after, urls);
    FetchedCount(after, urls);
    if FirstAccepted(AllPuts(tile, data), net) {
      PrimaryHolding(tile, data, store, now, net);
      FetchedTiles(tile, data, after, now);
      GoodIsRecoverable(rs0, rs1);
    }
    r := None;
    if FitsRebuilt(tile, Chosen(rs0, rs1)) {
      r := GetMeta(tile, rs0, rs1);
      if FirstAccepted(AllPuts(tile, data), net) {
        RebuiltIsSame(tile, data, r.value);
      }
    }
  }

  lemma PrimaryHolding(tile: Tile, data: seq<Byte>, store: Store, now: int, net: Transport)
    requires tile.z >= 0 && Complete(tile, data) && FirstAccepted(AllPuts(tile, data), net)
    ensures Holding(BothPosted(store, AllPuts(tile, data), now, net.serial, net.accepts), tile, data, now)
  {
    CompleteIsBounded(tile, data);
    hide Complete, MetaDim, FormatList, AllPuts, BothPosted, TileOf, TileUrl, Respond, FirstAccepted, HeaderCount;
    var after := BothPosted(store, AllPuts(tile, data), now, net.serial, net.accepts);
    forall f, y: nat, x: nat | f in FormatList(tile.format) && y < MetaDim(tile.z) && x < MetaDim(tile.z)
      ensures Respond(after, TileUrl(tile, f, y, x, 0)) == Response(200, now, TileOf(tile, data, f, y, x))
    {
      PrimaryHolds(tile, data, store, now, net, f, y, x);
    }
  }

  lemma RebuiltIsSame(tile: Tile, data: seq<Byte>, rebuilt: seq<Byte>)
    requires tile.z >= 0 && ReadsBack(rebuilt, tile, TilesOf(tile, data))
    ensures SameTiles(tile, rebuilt, data)
  {
    hide MetaDim, FormatList, ReadsBack, TilesOf, ReadTile, Align, OfMetatile;
    forall f, x, y | f in tile.format && OfMetatile(tile, x, y)
      ensures ReadTile(rebuilt, Code(f), x, y) == ReadTile(data, Code(f), x, y)
    {
      FormatListIs(tile.format, f);
      OfMetatileAligned(tile, x, y);
      OfMetatileIs(tile, x, y);
      RebuiltTile(tile, data, rebuilt, f, y % METATILE, x % METATILE);
    }
  }

  lemma OfMetatileAligned(tile: Tile, x: int, y: int)
    requires tile.z >= 0 && OfMetatile(tile, x, y)
    ensures Align(x) == Align(tile.x) && Align(y) == Align(tile.y)
  {
  }

  lemma SameTileAt(tile: Tile, a: seq<Byte>, b: seq<Byte>, f: Format, y: nat, x: nat)
    requires tile.z >= 0 && SameTiles(tile, a, b) && f in FormatList(tile.format)
    requires y < MetaDim(tile.z) && x < MetaDim(tile.z)
    ensures TileOf(tile, a, f, y, x) == TileOf(tile, b, f, y, x)
  {
    hide MetaDim, FormatList, ReadTile, Align, OfMetatile, Pow;
    FormatListIs(tile.format, f);
    MetaDimIs(tile.z);
    PlaceOfMetatile(tile, x, y);
    OfMetatileIs(tile, Align(tile.x) + x, Align(tile.y) + y);
  }

  lemma CompleteIsBounded(tile: Tile, data: seq<Byte>)
    requires tile.z >= 0 && Complete(tile, data)
    ensures Bounded(data, HeaderCount(data)) && SingleFormats(data, HeaderCount(data))
  {
  }

  lemma FetchedCount(store: Store, urls: seq<Url>)
    ensures |Fetched(store, urls)| == |urls|
  {
  }

  lemma GoodIsRecoverable(rs0: seq<Response>, rs1: seq<Response>)
    requires |rs0| == |rs1| && AllGood(rs0)
    ensures Recoverable(rs0, rs1) && Chosen(rs0, rs1) == rs0
  {
  }

  // After an accepted put of the first copies, every tile's address holds the tile's bytes.
  lemma PrimaryHolds(tile: Tile, data: seq<Byte>, store: Store, now: int, net: Transport, f: Format, y: nat, x: nat)
    requires tile.z >= 0 && Complete(tile, data) && f in FormatList(tile.format)
    requires y < MetaDim(tile.z) && x < MetaDim(tile.z) && FirstAccepted(AllPuts(tile, data), net)
    ensures Respond(BothPosted(store, AllPuts(tile, data), now, net.serial, net.accepts), TileUrl(tile, f, y, x, 0)) ==
      Response(200, now, TileOf(tile, data, f, y, x))
  {
    CompleteIsBounded(tile, data);
    hide HeaderCount, BothPosted, Complete, TileOf, TileUrl, AllPuts, MetaDim, FormatList, Attempted, Respond;
    PutOfFirstCopy(tile, data, f, y, x);
    FirstCopies(tile, data);
    AllAttempted(AllPuts(tile, data), net.serial, net.accepts);
    FirstAfter(store, AllPuts(tile, data), now, net.serial, net.accepts,
               Put(TileUrl(tile, f, y, x, 0), TileOf(tile, data, f, y, x)));
  }

  lemma TileInOrder(tile: Tile, data: seq<Byte>, n: nat, y: nat, x: nat)
    requires tile.z >= 0 && n < |FormatList(tile.format)| && y < MetaDim(tile.z) && x < MetaDim(tile.z)
    ensures Body(TilesOf(tile, data), MetaDim(tile.z), n, y, x) == TileOf(tile, data, FormatList(tile.format)[n], y, x)
  {
    var fs, d := FormatList(tile.format), MetaDim(tile.z);
    var j := Rank(d, n, y, x);
    hide FormatList, MetaDim, MaskUrls, ReadTile, Align, Body, TilesOf, Rank;
    MaskUrlAt(tile, fs, d, n, y, x, 0);
    TileAt(tile, data, j, fs[n], y, x);
    BodyAt(TilesOf(tile, data), d, n, y, x, j);
  }

  lemma TileAt(tile: Tile, data: seq<Byte>, j: nat, f: Format, y: nat, x: nat)
    requires tile.z >= 0 && j < |GetUrls(tile, 0)| && GetUrls(tile, 0)[j] == TileUrl(tile, f, y, x, 0)
    ensures j < |TilesOf(tile, data)| && TilesOf(tile, data)[j] == TileOf(tile, data, f, y, x)
  {
    hide GetUrls, ReadTile, Align;
  }

  lemma BodyAt(responses: seq<seq<Byte>>, d: nat, n: nat, y: nat, x: nat, j: nat)
    requires j == Rank(d, n, y, x) && j < |responses|
    ensures Body(responses, d, n, y, x) == responses[j]
  {
  }

  lemma RebuiltTile(tile: Tile, data: seq<Byte>, rebuilt: seq<Byte>, f: Format, y: nat, x: nat)
    requires tile.z >= 0 && f in FormatList(tile.format) && y < MetaDim(tile.z) && x < MetaDim(tile.z)
    requires ReadsBack(rebuilt, tile, TilesOf(tile, data))
    ensures TileOf(tile, rebuilt, f, y, x) == TileOf(tile, data, f, y, x)
  {
    hide FormatList, MetaDim, TilesOf, ReadTile, Align, Body;
    var n :| 0 <= n < |FormatList(tile.format)| && FormatList(tile.format)[n] == f;
    TileInOrder(tile, data, n, y, x);
  }

  /* ---- metatiles that can be stored ---- */

  // Written headers are all seen; tile data is taken for one more exactly when it mimics a header.
  lemma WrittenHeadersCount(hs: seq<Header>, body: seq<Byte>)
    requires AllEncodable(hs) && forall h <- hs :: h.fmt % 16 != 0
    ensures HeaderCount(HeaderRun(hs) + body) >= |hs|
    ensures HeaderCount(HeaderRun(hs) + body) == |hs| <==> !OkHeader(HeaderRun(hs) + body, |hs|)
  {
    WrittenHeadersFrom(hs, body, 0);
  }

  lemma {:induction false} WrittenHeadersFrom(hs: seq<Header>, body: seq<Byte>, k: nat)
    requires AllEncodable(hs) && k <= |hs| && forall h <- hs :: h.fmt % 16 != 0
    ensures HeadersFrom(HeaderRun(hs) + body, k) >= |hs| - k
    ensures HeadersFrom(HeaderRun(hs) + body, k) == |hs| - k <==> !OkHeader(HeaderRun(hs) + body, |hs|)
    decreases |hs| - k
  {
    hide HeaderRun, FmtAt, MagicAt, HoldsHeader;
    if k < |hs| {
      WrittenHeadersFrom(hs, body, k + 1);
      HeadersReadBack(hs, body, k);
      FixedFieldsReadBack(HeaderRun(hs) + body, k, hs[k]);
    }
  }

  /* ---- which puts read back ---- */

  // The put of a first copy went out and was accepted.
  predicate Written(tile: Tile, data: seq<Byte>, net: Transport, url: Url)
    requires Bounded(data, HeaderCount(data))
  {
    net.accepts(url) && exists p <- Attempted(AllPuts(tile, data), net.serial, net.accepts) :: p.url == url
  }

  // The put of a tile, and that no other goes to its address.
  lemma PutOfFirstCopy(tile: Tile, data: seq<Byte>, f: Format, y: nat, x: nat)
    requires tile.z >= 0 && Complete(tile, data) && f in FormatList(tile.format)
    requires y < MetaDim(tile.z) && x < MetaDim(tile.z) && Bounded(data, HeaderCount(data))
    ensures var p := Put(TileUrl(tile, f, y, x, 0), TileOf(tile, data, f, y, x));
      p in AllPuts(tile, data) && forall q <- AllPuts(tile, data) :: q.url == p.url ==> q == p
  {
    var d := MetaDim(tile.z);
    var k: nat :| k < HeaderCount(data) && FullLayer(data, f, d, k);
    assert ProperHeaders(data) && CountAt(data, k) == SLOTS;
    hide HeaderCount, TileSlots, TileOf, TileUrl, MetaDim, FormatList, FullLayer, ProperHeaders, Slot, HoldsTile,
      Complete, PutsFor, Bounded, CountAt, AllPuts;
    PutOfTile(tile, data, f, d, k, y, x);
    PutListed(tile, data, AllPuts(tile, data), k, Slot(x, y));
    PutsDiffer(tile, data, AllPuts(tile, data), (k, Slot(x, y)));
  }

  lemma FirstAfter(store: Store, puts: seq<Put>, now: int, serial: bool, accepts: Url -> bool, p: Put)
    requires p in puts && p.url.replica == 0 && forall q <- puts :: q.url == p.url ==> q == p
    ensures var after := BothPosted(store, puts, now, serial, accepts);
      var written := accepts(p.url) && exists q <- Attempted(puts, serial, accepts) :: q.url == p.url;
      Respond(after, p.url) == if written then Response(200, now, p.body) else Respond(store, p.url)
  {
    hide Posted, Attempted;
    var sent := Attempted(puts, serial, accepts);
    var first := Posted(store, sent, now, accepts);
    forall q | q in sent ensures q in puts {
      AttemptedFrom(puts, serial, accepts, q);
    }
    if accepts(p.url) && exists q <- sent :: q.url == p.url {
      PostedHas(store, sent, now, accepts, p);
    } else {
      PostedKeeps(store, sent, now, accepts, p.url);
    }
    var second := Attempted(Mirrored(puts), serial, accepts);
    forall q | q in second ensures q.url != p.url {
      AttemptedFrom(Mirrored(puts), serial, accepts, q);
    }
    PostedKeeps(first, second, now, accepts, p.url);
  }

  lemma SecondAfter(store: Store, puts: seq<Put>, now: int, serial: bool, accepts: Url -> bool, p: Put)
    requires p in puts && forall q <- puts :: q.url == p.url ==> q == p
    requires (forall q <- puts :: q.url.replica == 0) && AllAccepted(Mirrored(puts), accepts)
    ensures Respond(BothPosted(store, puts, now, serial, accepts), p.url.(replica := 1)) == Response(200, now, p.body)
  {
    hide Posted, Attempted;
    AllAttempted(Mirrored(puts), serial, accepts);
    var first := Posted(store, Attempted(puts, serial, accepts), now, accepts);
    var m := p.(url := p.url.(replica := 1));
    var i :| 0 <= i < |puts| && puts[i] == p;
    assert Mirrored(puts)[i] == m;
    forall q | q in Mirrored(puts) && q.url == m.url ensures q == m {
      var j :| 0 <= j < |puts| && Mirrored(puts)[j] == q;
      assert puts[j] in puts && puts[j].url == p.url;
    }
    PostedHas(first, Mirrored(puts), now, accepts, m);
  }

  lemma FirstCopies(tile: Tile, data: seq<Byte>)
    requires Bounded(data, HeaderCount(data))
    ensures forall q <- AllPuts(tile, data) :: q.url.replica == 0
  {
  }

  // What the hosts answer after a put: first copies that were written are new, the others are as before; second
  // copies are new if they were all accepted.
  lemma AfterPut(tile: Tile, data: seq<Byte>, store: Store, now: int, net: Transport, j: nat)
    requires tile.z >= 0 && Complete(tile, data) && Bounded(data, HeaderCount(data)) && j < |GetUrls(tile, 0)|
    ensures |GetUrls(tile, 1)| == |GetUrls(tile, 0)|
    ensures var after := BothPosted(store, AllPuts(tile, data), now, net.serial, net.accepts);
      && Respond(after, GetUrls(tile, 0)[j]) ==
        (if Written(tile, data, net, GetUrls(tile, 0)[j]) then Response(200, now, TilesOf(tile, data)[j])
         else Respond(store, GetUrls(tile, 0)[j]))
      && (SecondAccepted(AllPuts(tile, data), net) ==>
        Respond(after, GetUrls(tile, 1)[j]) == Response(200, now, TilesOf(tile, data)[j]))
  {
    var f, y, x := GetUrlIs(tile, j);
    GetUrlPair(tile, j);
    hide GetUrls, Complete, TilesOf, AllPuts, BothPosted, HeaderCount, Respond, Mirrored, FormatList, MetaDim,
      Attempted, TileOf;
    TileAt(tile, data, j, f, y, x);
    PutOfFirstCopy(tile, data, f, y, x);
    FirstCopies(tile, data);
    var p := Put(TileUrl(tile, f, y, x, 0), TileOf(tile, data, f, y, x));
    FirstAfter(store, AllPuts(tile, data), now, net.serial, net.accepts, p);
    if SecondAccepted(AllPuts(tile, data), net) {
      SecondAfter(store, AllPuts(tile, data), now, net.serial, net.accepts, p);
    }
  }

  // The addresses of the two copies of a tile differ in the replica number only.
  lemma GetUrlPair(tile: Tile, j: nat)
    requires tile.z >= 0 && j < |GetUrls(tile, 0)|
    ensures |GetUrls(tile, 1)| == |GetUrls(tile, 0)| && GetUrls(tile, 1)[j] == GetUrls(tile, 0)[j].(replica := 1)
  {
    var fs, d := FormatList(tile.format), MetaDim(tile.z);
    UrlCount(tile, 0);
    UrlCount(tile, 1);
    hide FormatList, MetaDim, MaskUrls;
    var n, y, x := MaskUrlIs(tile, fs, d, j, 0);
    MaskUrlAt(tile, fs, d, n, y, x, 1);
  }

  // Which first copies are written by a put, tile by tile, and what the hosts answered for them before.
  ghost function WrittenTiles(tile: Tile, data: seq<Byte>, net: Transport): seq<bool>
    requires tile.z >= 0 && Bounded(data, HeaderCount(data))
  {
    var urls := GetUrls(tile, 0);
    seq(|urls|, j requires 0 <= j < |urls| => Written(tile, data, net, urls[j]))
  }

  // Each first copy that is not written had the tile's bytes before, or one of them was missing or out of date.
  ghost predicate NothingHidden(written: seq<bool>, was: seq<Response>, tiles: seq<seq<Byte>>)
    requires |written| == |was| == |tiles|
  {
    || (forall j :: 0 <= j < |was| && !written[j] ==> was[j].body == tiles[j])
    || (exists j :: 0 <= j < |was| && !written[j] && !Good(was[j]))
  }

  // The answers for first copies after a put.
  ghost function Updated(written: seq<bool>, was: seq<Response>, tiles: seq<seq<Byte>>, now: int): seq<Response>
    requires |written| == |was| == |tiles|
  {
    seq(|was|, j requires 0 <= j < |was| => if written[j] then Response(200, now, tiles[j]) else was[j])
  }

  lemma ChosenIff(written: seq<bool>, was: seq<Response>, tiles: seq<seq<Byte>>, now: int, rs1: seq<Response>)
    requires |written| == |was| == |tiles| == |rs1| && now != INVALID_TIMESTAMP
    requires (forall j :: 0 <= j < |was| ==> written[j]) || (AllGood(rs1) && Bodies(rs1) == tiles)
    ensures var rs0 := Updated(written, was, tiles, now);
      Recoverable(rs0, rs1) && (Bodies(Chosen(rs0, rs1)) == tiles <==> NothingHidden(written, was, tiles))
  {
    var rs0 := Updated(written, was, tiles, now);
    assert forall j :: 0 <= j < |rs0| && !written[j] ==> rs0[j] == was[j];
    if AllGood(rs0) {
      assert forall j :: 0 <= j < |rs0| && !written[j] ==> Good(was[j]) && rs0[j].body == was[j].body;
      BodiesAre(rs0, tiles);
    } else {
      var j :| 0 <= j < |rs0| && !Good(rs0[j]);
      assert !written[j];
    }
  }

  lemma FirstAnswers(tile: Tile, data: seq<Byte>, store: Store, now: int, net: Transport)
    requires tile.z >= 0 && Complete(tile, data) && Bounded(data, HeaderCount(data))
    ensures var after := BothPosted(store, AllPuts(tile, data), now, net.serial, net.accepts);
      var urls := GetUrls(tile, 0);
      |TilesOf(tile, data)| == |urls| && Fetched(after, urls) ==
        Updated(WrittenTiles(tile, data, net), Fetched(store, urls), TilesOf(tile, data), now)
  {
    hide GetUrls, Complete, AllPuts, BothPosted, HeaderCount, Respond, Written, ReadTile, MetaDim, FormatList;
    forall j | 0 <= j < |GetUrls(tile, 0)|
      ensures var after := BothPosted(store, AllPuts(tile, data), now, net.serial, net.accepts);
        Respond(after, GetUrls(tile, 0)[j]) ==
          if Written(tile, data, net, GetUrls(tile, 0)[j]) then Response(200, now, TilesOf(tile, data)[j])
          else Respond(store, GetUrls(tile, 0)[j])
    {
      AfterPut(tile, data, store, now, net, j);
    }
  }

  lemma SecondAnswers(tile: Tile, data: seq<Byte>, store: Store, now: int, net: Transport)
    requires tile.z >= 0 && Complete(tile, data) && Bounded(data, HeaderCount(data)) && now != INVALID_TIMESTAMP
    ensures |GetUrls(tile, 1)| == |GetUrls(tile, 0)| == |TilesOf(tile, data)|
    ensures SecondAccepted(AllPuts(tile, data), net) ==>
      var rs := Fetched(BothPosted(store, AllPuts(tile, data), now, net.serial, net.accepts), GetUrls(tile, 1));
      AllGood(rs) && Bodies(rs) == TilesOf(tile, data)
  {
    UrlCount(tile, 0);
    UrlCount(tile, 1);
    var after := BothPosted(store, AllPuts(tile, data), now, net.serial, net.accepts);
    hide GetUrls, Complete, AllPuts, BothPosted, HeaderCount, Respond, SecondAccepted, ReadTile, MetaDim, FormatList;
    if SecondAccepted(AllPuts(tile, data), net) {
      forall j | 0 <= j < |GetUrls(tile, 0)|
        ensures Respond(after, GetUrls(tile, 1)[j]) == Response(200, now, TilesOf(tile, data)[j])
      {
        AfterPut(tile, data, store, now, net, j);
      }
    }
  }

  lemma FirstAcceptedIsWritten(tile: Tile, data: seq<Byte>, net: Transport, j: nat)
    requires tile.z >= 0 && Complete(tile, data) && Bounded(data, HeaderCount(data)) && j < |GetUrls(tile, 0)|
    requires FirstAccepted(AllPuts(tile, data), net)
    ensures Written(tile, data, net, GetUrls(tile, 0)[j])
  {
    var f, y, x := GetUrlIs(tile, j);
    hide GetUrls, Complete, AllPuts, HeaderCount, FormatList, MetaDim, Attempted, TileOf, TileUrl;
    PutOfFirstCopy(tile, data, f, y, x);
    AllAttempted(AllPuts(tile, data), net.serial, net.accepts);
  }

  /* After a put that reported success, when everything that is held can be fetched: the tiles used are the ones put
     exactly if each first copy that was not written held the same bytes before, or one of those was missing or out of
     date, so that the second copies are used. */
  lemma ReadsBackIff(tile: Tile, data: seq<Byte>, store: Store, now: int, net: Transport)
    requires tile.z >= 0 && Complete(tile, data) && Bounded(data, HeaderCount(data)) && now != INVALID_TIMESTAMP
    requires FirstAccepted(AllPuts(tile, data), net) || SecondAccepted(AllPuts(tile, data), net)
    ensures var after := BothPosted(store, AllPuts(tile, data), now, net.serial, net.accepts);
      var rs0, rs1 := Fetched(after, GetUrls(tile, 0)), Fetched(after, GetUrls(tile, 1));
      var was, tiles := Fetched(store, GetUrls(tile, 0)), TilesOf(tile, data);
      && |rs0| == |rs1| == |was| == |tiles| && Recoverable(rs0, rs1)
      && (Bodies(Chosen(rs0, rs1)) == tiles <==> NothingHidden(WrittenTiles(tile, data, net), was, tiles))
  {
    var after := BothPosted(store, AllPuts(tile, data), now, net.serial, net.accepts);
    FirstAnswers(tile, data, store, now, net);
    SecondAnswers(tile, data, store, now, net);
    FetchedCount(after, GetUrls(tile, 1));
    FetchedCount(store, GetUrls(tile, 0));
    hide GetUrls, Complete, AllPuts, BothPosted, HeaderCount, Written, FirstAccepted, SecondAccepted, TilesOf, Fetched,
      Updated, Bounded, NothingHidden, Chosen, Recoverable;
    if FirstAccepted(AllPuts(tile, data), net) {
      forall j | 0 <= j < |GetUrls(tile, 0)| ensures Written(tile, data, net, GetUrls(tile, 0)[j]) {
        FirstAcceptedIsWritten(tile, data, net, j);
      }
    }
    ChosenIff(WrittenTiles(tile, data, net), Fetched(store, GetUrls(tile, 0)), TilesOf(tile, data), now,
              Fetched(after, GetUrls(tile, 1)));
  }

  lemma BodiesAre(rs: seq<Response>, tiles: seq<seq<Byte>>)
    requires |rs| == |tiles|
    ensures Bodies(rs) == tiles <==> forall j :: 0 <= j < |rs| ==> rs[j].body == tiles[j]
  {
    if Bodies(rs) == tiles {
      forall j | 0 <= j < |rs| ensures rs[j].body == tiles[j] {
        assert Bodies(rs)[j] == tiles[j];
      }
    }
  }

  // Rebuilt from other bodies, it is the same metatile for the reader exactly if they are the same bodies.
  lemma SameTilesIff(tile: Tile, data: seq<Byte>, rebuilt: seq<Byte>, bodies: seq<seq<Byte>>)
    requires tile.z >= 0 && ReadsBack(rebuilt, tile, bodies) && |bodies| == |TilesOf(tile, data)|
    ensures SameTiles(tile, rebuilt, data) <==> bodies == TilesOf(tile, data)
  {
    hide ReadsBack, TilesOf, TileOf, MetaDim, FormatList, Body, GetUrls;
    if bodies == TilesOf(tile, data) {
      RebuiltIsSame(tile, data, rebuilt);
    } else if SameTiles(tile, rebuilt, data) {
      forall j | 0 <= j < |bodies| ensures bodies[j] == TilesOf(tile, data)[j] {
        SameBody(tile, data, rebuilt, bodies, j);
      }
    }
  }

  lemma SameBody(tile: Tile, data: seq<Byte>, rebuilt: seq<Byte>, bodies: seq<seq<Byte>>, j: nat)
    requires tile.z >= 0 && ReadsBack(rebuilt, tile, bodies) && |bodies| == |TilesOf(tile, data)| && j < |bodies|
    requires SameTiles(tile, rebuilt, data)
    ensures bodies[j] == TilesOf(tile, data)[j]
  {
    var fs, d := FormatList(tile.format), MetaDim(tile.z);
    UrlCount(tile, 0);
    hide FormatList, MetaDim, MaskUrls, ReadTile, Body, Align, TileOf;
    var n, y, x := MaskUrlIs(tile, fs, d, j, 0);
    BodyAt(bodies, d, n, y, x, j);
    TileAt(tile, data, j, fs[n], y, x);
    BodyReads(tile, rebuilt, bodies, n, y, x);
    SameTileAt(tile, rebuilt, data, fs[n], y, x);
  }

  lemma BodyReads(tile: Tile, rebuilt: seq<Byte>, bodies: seq<seq<Byte>>, n: nat, y: nat, x: nat)
    requires tile.z >= 0 && ReadsBack(rebuilt, tile, bodies) && n < |FormatList(tile.format)|
    requires y < MetaDim(tile.z) && x < MetaDim(tile.z)
    ensures Body(bodies, MetaDim(tile.z), n, y, x) == TileOf(tile, rebuilt, FormatList(tile.format)[n], y, x)
  {
    hide FormatList, MetaDim, ReadTile, Body, Align;
  }

  /* ---- what a failed put leaves ---- */

  // A good copy of tile j on a host that could not be reached to mark it.
  ghost predicate Survives(tile: Tile, posted: Store, net: Transport, j: nat, replica: nat)
    requires tile.z >= 0 && j < |GetUrls(tile, replica)|
  {
    Good(Respond(posted, GetUrls(tile, replica)[j])) && !net.reached(GetUrls(tile, replica)[j])
  }

  lemma MarkedAnswer(tile: Tile, posted: Store, after: Store, net: Transport, j: nat, replica: nat)
    requires tile.z >= 0 && MarkedOut(posted, after, tile, net) && replica < 2 && j < |GetUrls(tile, replica)|
    ensures Good(Respond(after, GetUrls(tile, replica)[j])) <==> Survives(tile, posted, net, j, replica)
  {
    hide GetUrls;
    assert GetUrls(tile, replica)[j] in GetUrls(tile, replica);
  }

  /* After a put that failed on both copies, when everything that is held can be fetched, the metatile can be rebuilt
     exactly if every tile has a good copy, new or old, on a host that could not be reached. So if all hosts are
     reached it cannot. Addresses of other metatiles are not touched. */
  lemma FailedPutRecoverableIff(tile: Tile, posted: Store, after: Store, net: Transport)
    requires tile.z >= 0 && MarkedOut(posted, after, tile, net)
    ensures |GetUrls(tile, 0)| == |GetUrls(tile, 1)|
    ensures Recoverable(Fetched(after, GetUrls(tile, 0)), Fetched(after, GetUrls(tile, 1))) <==>
      forall j :: 0 <= j < |GetUrls(tile, 0)| ==>
        Survives(tile, posted, net, j, 0) || Survives(tile, posted, net, j, 1)
    ensures tile.format != {} && (forall url :: net.reached(url)) ==>
      !Recoverable(Fetched(after, GetUrls(tile, 0)), Fetched(after, GetUrls(tile, 1)))
    ensures forall url :: url !in GetUrls(tile, 0) && url !in GetUrls(tile, 1) ==>
      Respond(after, url) == Respond(posted, url)
  {
    UrlCount(tile, 0);
    UrlCount(tile, 1);
    SomeUrl(tile);
    var rs0, rs1 := Fetched(after, GetUrls(tile, 0)), Fetched(after, GetUrls(tile, 1));
    hide GetUrls, MetaDim, FormatList, Good, Survives, MarkedOut;
    forall j | 0 <= j < |GetUrls(tile, 0)|
      ensures Good(rs0[j]) <==> Survives(tile, posted, net, j, 0)
      ensures Good(rs1[j]) <==> Survives(tile, posted, net, j, 1)
    {
      MarkedAnswer(tile, posted, after, net, j, 0);
      MarkedAnswer(tile, posted, after, net, j, 1);
    }
    if tile.format != {} && forall url :: net.reached(url) {
      NoneSurvives(tile, posted, net, 0);
    }
    forall url | url !in GetUrls(tile, 0) && url !in GetUrls(tile, 1)
      ensures Respond(after, url) == Respond(posted, url)
    {
      OtherAnswer(tile, posted, after, net, url);
    }
  }

  lemma OtherAnswer(tile: Tile, posted: Store, after: Store, net: Transport, url: Url)
    requires tile.z >= 0 && MarkedOut(posted, after, tile, net) && url !in GetUrls(tile, 0) && url !in GetUrls(tile, 1)
    ensures Respond(after, url) == Respond(posted, url)
  {
    hide GetUrls;
  }

  lemma NoneSurvives(tile: Tile, posted: Store, net: Transport, j: nat)
    requires tile.z >= 0 && j < |GetUrls(tile, 0)| && j < |GetUrls(tile, 1)| && forall url :: net.reached(url)
    ensures !Survives(tile, posted, net, j, 0) && !Survives(tile, posted, net, j, 1)
  {
    hide GetUrls;
  }

  lemma SomeUrl(tile: Tile)
    requires tile.z >= 0
    ensures tile.format != {} ==> |GetUrls(tile, 0)| > 0
  {
    UrlCount(tile, 0);
    hide GetUrls;
    if tile.format != {} {
      var f :| f in tile.format;
      FormatListIs(tile.format, f);
    }
  }

  // A put, and a get of everything that is then held.
  method PutThenFetch(tile: Tile, data: seq<Byte>, store: Store, now: int, net: Transport)
    returns (ok: Option<bool>, r: Option<seq<Byte>>)
    requires Buildable(tile) && Bounded(data, HeaderCount(data)) && tile.format != {}
    ensures ok.Some? <==> SingleFormats(data, HeaderCount(data))
    ensures ok == Some(false) && (forall url :: net.reached(url)) ==> r.None?
  {
    hide HeaderCount, Bounded, SingleFormats, AllPuts, BothPosted, FirstAccepted, SecondAccepted, GetUrls, Fetched,
      MarkedOut, Recoverable, Chosen, Bodies, Concat, MetaDim, FormatList;
    var after;
    ok, after := PutMeta(tile, data, store, now, net);
    if ok == Some(false) {
      FailedPutRecoverableIff(tile, BothPosted(store, AllPuts(tile, data), now, net.serial, net.accepts), after, net);
    }
    UrlCount(tile, 0);
    UrlCount(tile, 1);
    var urls0 := MakeGetUrls(tile, 0);
    var urls1 := MakeGetUrls(tile, 1);
    var rs0, rs1 := Fetched(after, urls0), Fetched(after, urls1);
    FetchedCount(after, urls0);
    FetchedCount(after, urls1);
    r := None;
    if FitsRebuilt(tile, Chosen(rs0, rs1)) {
      r := GetMeta(tile, rs0, rs1);
    }
  }
}
