/** The expiry server's memory: for each style and format, a hash set of metatiles packed into 32 bits each. */
module ExpirySets {
  import opened Tiles

  datatype Place = Place(x: bv32, y: bv32, z: bv32)

  // The packing is made for zooms 3 to 18.
  predicate InRange(p: Place) {
    3 <= p.z <= 18 && p.x >> p.z == 0 && p.y >> p.z == 0
  }

  // A metatile by its place in the grid of its zoom.
  datatype Cell = Cell(x: bv32, y: bv32, z: bv32)

  function CellOf(p: Place): Cell {
    Cell(p.x >> 3, p.y >> 3, p.z)
  }

  function Pack(m: Cell): bv32
    requires 3 <= m.z <= 18
  {
    var xy := (m.x << (m.z - 3)) | m.y;
    if m.z == 18 then xy
    else if m.z > 13 then ((4 | (17 - m.z)) << 28) | xy
    else ((32 | (13 - m.z)) << 26) | xy
  }

  function FragOf(p: Place): bv32
    requires InRange(p)
  {
    Pack(CellOf(p))
  }

  function ZoomIn(frag: bv32): bv32 {
    if frag >> 30 == 0 then 18
    else if frag >> 30 == 1 then 17 - ((frag >> 28) & 3)
    else 13 - ((frag >> 26) & 15)
  }

  const DELETED: bv32 := 0xffffffff

  /* ---- a packed metatile can be read back ---- */

  function YIn(frag: bv32, z: bv32): bv32
    requires 3 <= z <= 18
  {
    frag & ((1 << (z - 3)) - 1)
  }

  function XIn(frag: bv32, z: bv32): bv32
    requires 3 <= z <= 18
  {
    (frag >> (z - 3)) & ((1 << (z - 3)) - 1)
  }

  lemma PackZoom(p: Place)
    requires InRange(p)
    ensures ZoomIn(FragOf(p)) == p.z && FragOf(p) != DELETED
  {
  }

  lemma PackY(p: Place)
    requires InRange(p)
    ensures YIn(FragOf(p), p.z) == CellOf(p).y
  {
  }

  lemma PackX(p: Place)
    requires InRange(p)
    ensures XIn(FragOf(p), p.z) == CellOf(p).x
  {
  }

  // Two tiles pack to the same word exactly when they are in the same metatile.
  lemma PackInjective(p: Place, q: Place)
    requires InRange(p) && InRange(q)
    ensures FragOf(p) == FragOf(q) <==> CellOf(p) == CellOf(q)
    ensures FragOf(p) != DELETED
  {
    hide Pack, XIn, YIn, ZoomIn;
    PackZoom(p);
    PackZoom(q);
    PackX(p);
    PackX(q);
    PackY(p);
    PackY(q);
  }

  /* ---- the hash sets ---- */

  datatype Layer = Layer(style: string, format: int)

  type HashSets = map<Layer, set<bv32>>

  predicate Found(sets: HashSets, layer: Layer, frag: bv32) {
    layer in sets && frag in sets[layer]
  }

  function WithFrag(sets: HashSets, layer: Layer, frag: bv32): HashSets {
    if layer in sets then sets[layer := sets[layer] + {frag}] else sets[layer := {frag}]
  }

  function WithoutFrag(sets: HashSets, layer: Layer, frag: bv32): HashSets {
    if layer in sets then sets[layer := sets[layer] - {frag}] else sets
  }

  // The hash sets stand for a plain set of metatiles.
  ghost predicate Represents(sets: HashSets, keys: set<(Layer, Cell)>) {
    && (forall layer, p | InRange(p) :: Found(sets, layer, FragOf(p)) <==> (layer, CellOf(p)) in keys)
    && (forall layer <- sets :: DELETED !in sets[layer])
  }

  lemma EmptyRepresents()
    ensures Represents(map[], {})
  {
  }

  lemma InsertRepresents(sets: HashSets, keys: set<(Layer, Cell)>, layer: Layer, p: Place)
    requires Represents(sets, keys) && InRange(p)
    ensures Represents(WithFrag(sets, layer, FragOf(p)), keys + {(layer, CellOf(p))})
  {
    var after := WithFrag(sets, layer, FragOf(p));
    hide InRange, FragOf, CellOf;
    forall l, q | InRange(q)
      ensures Found(after, l, FragOf(q)) <==> (l, CellOf(q)) in keys + {(layer, CellOf(p))}
    {
      PackInjective(q, p);
      assert Found(sets, l, FragOf(q)) <==> (l, CellOf(q)) in keys;
    }
    PackInjective(p, p);
  }

  lemma EraseRepresents(sets: HashSets, keys: set<(Layer, Cell)>, layer: Layer, p: Place)
    requires Represents(sets, keys) && InRange(p)
    ensures Represents(WithoutFrag(sets, layer, FragOf(p)), keys - {(layer, CellOf(p))})
  {
    var after := WithoutFrag(sets, layer, FragOf(p));
    assert forall l <- after :: l in sets && after[l] <= sets[l];
    hide InRange, FragOf, CellOf;
    forall l, q | InRange(q)
      ensures Found(after, l, FragOf(q)) <==> (l, CellOf(q)) in keys - {(layer, CellOf(p))}
    {
      PackInjective(q, p);
      assert Found(sets, l, FragOf(q)) <==> (l, CellOf(q)) in keys;
    }
  }

  /* ---- the answers over a run ---- */

  // A client's request: with a value it sets the state of the tile's metatile, without one it asks for it.
  datatype Command = Command(layer: Layer, place: Place, value: Option<bv32>)

  function AfterOne(sets: HashSets, r: Command): HashSets
    requires InRange(r.place)
  {
    if r.value.None? then sets
    else if r.value.value != 0 then WithFrag(sets, r.layer, FragOf(r.place))
    else WithoutFrag(sets, r.layer, FragOf(r.place))
  }

  predicate AllInRange(rs: seq<Command>) {
    forall i :: 0 <= i < |rs| ==> InRange(rs[i].place)
  }

  function AfterAll(rs: seq<Command>): HashSets
    requires AllInRange(rs)
  {
    if rs == [] then map[] else AfterOne(AfterAll(rs[..|rs| - 1]), rs[|rs| - 1])
  }

  function Eighth(v: bv32): bv32 {
    v / 8
  }

  // The same square of 8 by 8 tiles of the same zoom.
  predicate SameSquare(p: Place, q: Place) {
    p.z == q.z && Eighth(p.x) == Eighth(q.x) && Eighth(p.y) == Eighth(q.y)
  }

  lemma CellsAgree(p: Place, q: Place)
    ensures CellOf(p) == CellOf(q) <==> SameSquare(p, q)
  {
    hide Eighth, CellOf;
    CellIs(p);
    CellIs(q);
  }

  lemma CellIs(p: Place)
    ensures CellOf(p).x == Eighth(p.x)
    ensures CellOf(p).y == Eighth(p.y)
    ensures CellOf(p).z == p.z
  {
    EighthIs(p.x);
    EighthIs(p.y);
  }

  lemma EighthIs(v: bv32)
    ensures v >> 3 == Eighth(v)
  {
  }

  lemma SameSquareIff(p: Place, q: Place)
    requires InRange(p) && InRange(q)
    ensures FragOf(p) == FragOf(q) <==> SameSquare(p, q)
  {
    hide FragOf, InRange, SameSquare;
    PackInjective(p, q);
    CellsAgree(p, q);
  }

  // The last value that a request gave for a tile's square.
  function LastValue(rs: seq<Command>, layer: Layer, p: Place): Option<bv32> {
    if rs == [] then None
    else
      var r := rs[|rs| - 1];
      if r.value.Some? && r.layer == layer && SameSquare(r.place, p) then r.value
      else LastValue(rs[..|rs| - 1], layer, p)
  }

  // Whatever was requested, a tile is found exactly if the last value given for its square was not 0.
  lemma {:induction false} FoundIffLastSet(rs: seq<Command>, layer: Layer, p: Place)
    requires AllInRange(rs) && InRange(p)
    ensures Found(AfterAll(rs), layer, FragOf(p)) <==>
      LastValue(rs, layer, p).Some? && LastValue(rs, layer, p) != Some(0)
  {
    hide FragOf, InRange, SameSquare;
    if rs != [] {
      SameSquareIff(rs[|rs| - 1].place, p);
      FoundIffLastSet(rs[..|rs| - 1], layer, p);
    }
  }

  class ExpiryData {
    var hashSets: HashSets
    ghost var Expired: set<(Layer, Cell)>

    ghost predicate Valid()
      reads this
    {
      Represents(hashSets, Expired)
    }

    constructor ()
      ensures Valid() && Expired == {} && hashSets == map[]
    {
      hashSets := map[];
      Expired := {};
      new;
      EmptyRepresents();
    }

    method Lookup(layer: Layer, p: Place) returns (found: bool)
      requires Valid() && InRange(p)
      ensures found == ((layer, CellOf(p)) in Expired) == Found(hashSets, layer, FragOf(p))
    {
      hide InRange, FragOf, CellOf;
      assert Found(hashSets, layer, FragOf(p)) <==> (layer, CellOf(p)) in Expired;
      if layer in hashSets {
        found := FragOf(p) in hashSets[layer];
      } else {
        found := false;
      }
    }

    method Insert(layer: Layer, p: Place) returns (ok: bool)
      requires Valid() && InRange(p)
      modifies this
      ensures Valid() && Expired == old(Expired) + {(layer, CellOf(p))} && ok
      ensures hashSets == WithFrag(old(hashSets), layer, FragOf(p))
    {
      InsertRepresents(hashSets, Expired, layer, p);
      hide Represents, InRange, FragOf, CellOf;
      Expired := Expired + {(layer, CellOf(p))};
      if layer !in hashSets {
        hashSets := hashSets[layer := {FragOf(p)}];
      } else {
        hashSets := hashSets[layer := hashSets[layer] + {FragOf(p)}];
      }
      ok := true;
    }

    method Erase(layer: Layer, p: Place) returns (ok: bool)
      requires Valid() && InRange(p)
      modifies this
      ensures Valid() && Expired == old(Expired) - {(layer, CellOf(p))} && ok
      ensures hashSets == WithoutFrag(old(hashSets), layer, FragOf(p))
    {
      EraseRepresents(hashSets, Expired, layer, p);
      hide Represents, InRange, FragOf, CellOf;
      Expired := Expired - {(layer, CellOf(p))};
      if layer in hashSets {
        if FragOf(p) in hashSets[layer] {
          hashSets := hashSets[layer := hashSets[layer] - {FragOf(p)}];
        } else {
          assert hashSets[layer] - {FragOf(p)} == hashSets[layer];
          assert hashSets[layer := hashSets[layer] - {FragOf(p)}] == hashSets;
        }
      }
      ok := true;
    }

    // What it answers over a run of requests is what `FoundIffLastSet` says.
    method OnRequest(layer: Layer, p: Place, value: Option<bv32>) returns (response: bv32)
      requires Valid() && InRange(p)
      modifies this
      ensures Valid()
      ensures hashSets == AfterOne(old(hashSets), Command(layer, p, value))
      ensures value == None ==> response == if Found(old(hashSets), layer, FragOf(p)) then 1 else 0
      ensures value == None ==> Expired == old(Expired) && response == if (layer, CellOf(p)) in Expired then 1 else 0
      ensures value == Some(0) ==> Expired == old(Expired) - {(layer, CellOf(p))} && response == 1
      ensures value.Some? && value != Some(0) ==> Expired == old(Expired) + {(layer, CellOf(p))} && response == 1
    {
      var answer: bool;
      if value.Some? {
        if value.value != 0 {
          answer := Insert(layer, p);
        } else {
          answer := Erase(layer, p);
        }
      } else {
        answer := Lookup(layer, p);
      }
      response := if answer then 1 else 0;
    }
  }
}
