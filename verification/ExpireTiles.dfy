/** The expiry tool: the metatiles above and below each input tile, shared out over threads. */
module ExpireTiles {
  import opened Tiles
  import opened Runs
  import opened Division
  import opened Powers

  datatype Xyz = Xyz(x: int, y: int, z: int)

  function MetaXyz(t: Xyz): Xyz {
    Xyz(Align(t.x), Align(t.y), t.z)
  }

  // The first tile of the square of tiles that t is in.
  lemma MetaXyzIs(t: Xyz, m: Xyz)
    ensures m == MetaXyz(t) <==>
      && m.z == t.z && m.x % METATILE == 0 && m.y % METATILE == 0
      && m.x <= t.x < m.x + METATILE && m.y <= t.y < m.y + METATILE
  {
  }

  /* ---- the pyramid of tiles ---- */

  function Parent(t: Xyz): Xyz {
    Xyz(t.x / 2, t.y / 2, t.z - 1)
  }

  // The tile k levels up.
  function Up(t: Xyz, k: nat): Xyz
    decreases k
  {
    if k == 0 then t else Up(Parent(t), k - 1)
  }

  lemma {:induction false} UpIs(t: Xyz, k: nat)
    ensures Pow(2, k) > 0 && Up(t, k) == Xyz(t.x / Pow(2, k), t.y / Pow(2, k), t.z - k)
    decreases k
  {
    if k > 0 {
      UpIs(Parent(t), k - 1);
      var p := Pow(2, k - 1);
      assert Pow(2, k) == 2 * p;
      hide Pow;
      HalfFirst(t.x, p);
      HalfFirst(t.y, p);
    }
  }

  lemma HalfFirst(v: int, p: int)
    requires p > 0
    ensures v / 2 / p == v / (2 * p)
  {
    var q := v / 2 / p;
    var r, s := v / 2 % p, v % 2;
    assert v == 2 * (p * q + r) + s;
    assert v == (2 * p) * q + (2 * r + s) && 0 <= 2 * r + s < 2 * p;
    Quotient(v, 2 * p, q, 2 * r + s);
  }

  lemma {:induction false} UpNext(t: Xyz, k: nat)
    ensures Up(t, k + 1) == Parent(Up(t, k)) && Up(t, k).z == t.z - k
    decreases k
  {
    if k > 0 {
      UpNext(Parent(t), k - 1);
    }
  }

  predicate Descendant(t: Xyz, d: Xyz) {
    d.z >= t.z && Up(d, d.z - t.z) == t
  }

  // The four tiles a level below, in the order in which they are visited.
  function Child(t: Xyz, i: nat): Xyz {
    Xyz(2 * t.x + (if i == 1 || i == 2 then 1 else 0), 2 * t.y + (if i >= 2 then 1 else 0), t.z + 1)
  }

  lemma ChildOfParent(t: Xyz, c: Xyz)
    ensures Parent(c) == t <==> ChildOf(t, c)
  {
    assert c.x == 2 * (c.x / 2) + c.x % 2 && c.y == 2 * (c.y / 2) + c.y % 2;
  }

  predicate ChildOf(t: Xyz, c: Xyz) {
    c == Child(t, 0) || c == Child(t, 1) || c == Child(t, 2) || c == Child(t, 3)
  }

  // A proper descendant descends from one of the four children.
  lemma DescendantSplits(t: Xyz, d: Xyz) returns (c: Xyz)
    requires Descendant(t, d) && d != t
    ensures ChildOf(t, c) && Descendant(c, d)
  {
    var k := d.z - t.z - 1;
    c := Up(d, k);
    UpNext(d, k);
    ChildOfParent(t, c);
  }

  lemma DescendantOfChild(t: Xyz, c: Xyz, d: Xyz)
    requires ChildOf(t, c) && Descendant(c, d)
    ensures Descendant(t, d)
  {
    UpNext(d, d.z - c.z);
  }

  /* ---- child_tiles ---- */

  // Metatile m is that of a descendant of t that is not below `maxZ`.
  ghost predicate MetaBelow(t: Xyz, maxZ: int, m: Xyz) {
    exists d :: Descendant(t, d) && (d == t || d.z <= maxZ) && MetaXyz(d) == m
  }

  // Metatile m is that of an ancestor of t that is not above `minZ`.
  ghost predicate MetaAbove(t: Xyz, minZ: int, m: Xyz) {
    exists a :: Descendant(a, t) && (a == t || a.z >= minZ) && MetaXyz(a) == m
  }

  // What visiting the children adds.
  ghost predicate MetaBelowChildren(t: Xyz, maxZ: int, m: Xyz) {
    && t.z < maxZ
    && (MetaBelow(Child(t, 0), maxZ, m) || MetaBelow(Child(t, 1), maxZ, m)
      || MetaBelow(Child(t, 2), maxZ, m) || MetaBelow(Child(t, 3), maxZ, m))
  }

  lemma MetaBelowSplits(t: Xyz, maxZ: int, m: Xyz)
    ensures MetaBelow(t, maxZ, m) <==> m == MetaXyz(t) || MetaBelowChildren(t, maxZ, m)
  {
    hide Child;
    if MetaBelow(t, maxZ, m) {
      var d :| Descendant(t, d) && (d == t || d.z <= maxZ) && MetaXyz(d) == m;
      if d != t {
        var c := DescendantSplits(t, d);
        assert MetaBelow(c, maxZ, m);
        assert c.z <= d.z;
        assert c.z == t.z + 1 by { ChildIsBelow(t, c); }
      }
    }
    if m == MetaXyz(t) {
      assert Descendant(t, t);
    }
    if MetaBelowChildren(t, maxZ, m) {
      var c :| ChildOf(t, c) && MetaBelow(c, maxZ, m);
      MetaBelowChild(t, maxZ, m, c);
    }
  }

  lemma ChildIsBelow(t: Xyz, c: Xyz)
    requires ChildOf(t, c)
    ensures c.z == t.z + 1
  {
  }

  lemma MetaBelowChild(t: Xyz, maxZ: int, m: Xyz, c: Xyz)
    requires ChildOf(t, c) && t.z < maxZ && MetaBelow(c, maxZ, m)
    ensures MetaBelow(t, maxZ, m)
  {
    var d :| Descendant(c, d) && (d == c || d.z <= maxZ) && MetaXyz(d) == m;
    DescendantOfChild(t, c, d);
  }

  lemma AncestorSplits(a: Xyz, t: Xyz)
    ensures Descendant(a, t) <==> a == t || (a.z < t.z && Descendant(a, Parent(t)))
  {
  }

  lemma MetaAboveSplits(t: Xyz, minZ: int, m: Xyz)
    ensures MetaAbove(t, minZ, m) <==> m == MetaXyz(t) || (t.z > minZ && MetaAbove(Parent(t), minZ, m))
  {
    hide Descendant, MetaXyz;
    if MetaAbove(t, minZ, m) {
      var a :| Descendant(a, t) && (a == t || a.z >= minZ) && MetaXyz(a) == m;
      AncestorSplits(a, t);
    }
    if m == MetaXyz(t) {
      AncestorSplits(t, t);
    }
    if t.z > minZ && MetaAbove(Parent(t), minZ, m) {
      var a :| Descendant(a, Parent(t)) && (a == Parent(t) || a.z >= minZ) && MetaXyz(a) == m;
      AncestorSplits(a, Parent(t));
      AncestorSplits(a, t);
    }
  }

  /* ---- what that amounts to for metatiles ---- */

  predicate Aligned(t: Xyz) {
    MetaXyz(t) == t
  }

  // Going up from a tile of the block between a tile and its metatile's corner leads to the same aligned tile.
  lemma {:induction false} UpToAligned(d: Xyz, u: Xyz, k: nat)
    requires Aligned(Up(d, k)) && u.z == d.z
    requires Align(d.x) <= u.x <= d.x && Align(d.y) <= u.y <= d.y
    ensures Up(u, k) == Up(d, k)
    decreases k
  {
    if k > 0 {
      BlockHalves(d.x, u.x);
      BlockHalves(d.y, u.y);
      hide Align;
      UpToAligned(Parent(d), Parent(u), k - 1);
    }
  }

  lemma BlockHalves(d: int, u: int)
    requires Align(d) <= u <= d
    ensures Align(d / 2) <= u / 2 <= d / 2
  {
  }

  // An aligned tile's `child_tiles` are the metatiles whose first tile descends from it, and no others.
  lemma AlignedMetaBelow(t: Xyz, maxZ: int, m: Xyz)
    requires Aligned(t)
    ensures MetaBelow(t, maxZ, m) <==> Aligned(m) && Descendant(t, m) && (m == t || m.z <= maxZ)
  {
    hide Up;
    if MetaBelow(t, maxZ, m) {
      var d :| Descendant(t, d) && (d == t || d.z <= maxZ) && MetaXyz(d) == m;
      UpToAligned(d, m, d.z - t.z);
    }
  }

  /* ---- is every metatile below an input metatile expired? ---- */

  // The tiles that exist.
  predicate OnMap(t: Xyz) {
    t.z >= 0 && 0 <= t.x < Pow(2, t.z) && 0 <= t.y < Pow(2, t.z)
  }

  // Metatile m lies below metatile t: its first tile descends from one of t's tiles.
  predicate InMetatile(t: Xyz, m: Xyz) {
    m.z >= t.z && MetaXyz(Up(m, m.z - t.z)) == t
  }

  // Every metatile of the map that lies below t, down to `top`, is among those that are added.
  ghost predicate CoversBelow(t: Xyz, top: int) {
    forall m :: Aligned(m) && OnMap(m) && m.z <= top && InMetatile(t, m) ==> MetaBelow(t, top, m)
  }

  lemma {:induction false} UpOnMap(t: Xyz, k: nat)
    requires OnMap(t) && k <= t.z
    ensures OnMap(Up(t, k))
    decreases k
  {
    if k > 0 {
      UpOnMap(Parent(t), k - 1);
    }
  }

  lemma SmallPowers()
    ensures Pow(2, 0) == 1 && Pow(2, 1) == 2 && Pow(2, 2) == 4 && Pow(2, 3) == 8 && Pow(2, 4) == 16
  {
  }

  // The map has one metatile at each of the zooms 0 to 3.
  lemma OneMetatile(t: Xyz)
    requires Aligned(t) && OnMap(t) && t.z <= 3
    ensures t == Xyz(0, 0, t.z)
  {
    SmallPowers();
    PowMono(2, t.z, 3);
    BelowEight(t.x);
    BelowEight(t.y);
  }

  lemma BelowEight(v: int)
    requires 0 <= v < METATILE && Align(v) == v
    ensures v == 0
  {
  }

  lemma {:induction false} UpOfCorner(z: int, k: nat)
    ensures Up(Xyz(0, 0, z), k) == Xyz(0, 0, z - k)
    decreases k
  {
    if k > 0 {
      UpOfCorner(z - 1, k - 1);
    }
  }

  // A metatile just below the input metatile that is missed; from zoom 3 on it is on the map.
  lemma ChildMetatileMissed(t: Xyz, maxZ: int)
    requires Aligned(t) && t.z < maxZ
    ensures var m := Xyz(2 * t.x + METATILE, 2 * t.y, t.z + 1);
      Aligned(m) && InMetatile(t, m) && !MetaBelow(t, maxZ, m) && (OnMap(t) && t.z >= 3 ==> OnMap(m))
  {
    var m := Xyz(2 * t.x + METATILE, 2 * t.y, t.z + 1);
    DoubledAligns(t.x);
    DoubledAligns(t.y);
    if OnMap(t) && t.z >= 3 {
      NextAligned(t.x, t.z);
    }
    hide Align;
    AlignedMetaBelow(t, maxZ, m);
    assert Up(m, 1) == Parent(m);
  }

  lemma DoubledAligns(v: int)
    requires Align(v) == v
    ensures Align(2 * v) == 2 * v && Align(2 * v + METATILE) == 2 * v + METATILE
    ensures Align(2 * v / 2) == v && Align((2 * v + METATILE) / 2) == v
  {
    assert (2 * v + METATILE) / 2 == v + 4;
  }

  // An aligned column has a whole metatile to its right edge.
  lemma NextAligned(v: int, z: nat)
    requires Align(v) == v && 0 <= v < Pow(2, z) && z >= 3
    ensures 2 * v + METATILE < Pow(2, z + 1)
  {
    SmallPowers();
    PowTimes(2, 3, z - 3);
    var p := Pow(2, z - 3);
    assert Pow(2, z) == 8 * p && Pow(2, z + 1) == 16 * p;
  }

  // Below the only metatile of zoom 1 or 2, the second metatile of zoom 4 is missed.
  lemma ShallowMetatileMissed(z: int, top: int)
    requires (z == 1 || z == 2) && top >= 4
    ensures var t, m := Xyz(0, 0, z), Xyz(8, 0, 4);
      Aligned(m) && OnMap(m) && InMetatile(t, m) && !MetaBelow(t, top, m)
  {
    var t, m := Xyz(0, 0, z), Xyz(8, 0, 4);
    SmallPowers();
    assert Up(m, 1) == Xyz(4, 0, 3);
    assert Up(m, 2) == Up(Xyz(4, 0, 3), 1) == Xyz(2, 0, 2);
    assert Up(m, 3) == Up(Xyz(4, 0, 3), 2) == Up(Xyz(2, 0, 2), 1) == Xyz(1, 0, 1);
    AlignedMetaBelow(t, top, m);
  }

  lemma ShallowIsCovered(t: Xyz, top: int, m: Xyz)
    requires Aligned(t) && OnMap(t) && (t.z == 0 || top <= 3 || top == t.z)
    requires Aligned(m) && OnMap(m) && m.z <= top && InMetatile(t, m)
    ensures MetaBelow(t, top, m)
  {
    hide MetaBelow, OnMap, Up, MetaXyz;
    AlignedMetaBelow(t, top, m);
    if t.z == 0 {
      UnderTheWorld(t, m);
    } else if top <= 3 {
      OneMetatile(m);
      OneMetatile(t);
      UpOfCorner(m.z, m.z - t.z);
    } else {
      UpNone(m);
    }
  }

  lemma UpNone(t: Xyz)
    ensures Up(t, 0) == t
  {
  }

  // Every tile of the map descends from the only one of zoom 0.
  lemma UnderTheWorld(t: Xyz, m: Xyz)
    requires OnMap(t) && OnMap(m) && t.z == 0
    ensures Descendant(t, m)
  {
    UpOnMap(m, m.z);
    UpNext(m, m.z);
    SmallPowers();
  }

  /* Expiring an input metatile expires every metatile of the map below it, down to the last zoom, exactly when
     it is the whole world, when no zoom that is reached has more than one metatile, or when there is no zoom
     below it to reach. */
  lemma CoversBelowIff(t: Xyz, maxZ: int)
    requires Aligned(t) && OnMap(t)
    ensures var top := if t.z > maxZ then t.z else maxZ;
      CoversBelow(t, top) <==> t.z == 0 || top <= 3 || top == t.z
  {
    var top := if t.z > maxZ then t.z else maxZ;
    if t.z == 0 || top <= 3 || top == t.z {
      forall m | Aligned(m) && OnMap(m) && m.z <= top && InMetatile(t, m) ensures MetaBelow(t, top, m) {
        ShallowIsCovered(t, top, m);
      }
    } else if t.z >= 3 {
      ChildMetatileMissed(t, top);
    } else {
      OneMetatile(t);
      ShallowMetatileMissed(t.z, top);
    }
  }

  class TileSet {
    var tiles: set<Xyz>

    constructor ()
      ensures tiles == {}
    {
      tiles := {};
    }

    method ChildTiles(tile: Xyz, maxZ: int)
      modifies this
      ensures forall m :: m in tiles <==> m in old(tiles) || MetaBelow(tile, maxZ, m)
      decreases maxZ - tile.z
    {
      hide MetaBelow;
      forall m ensures MetaBelow(tile, maxZ, m) <==> m == MetaXyz(tile) || MetaBelowChildren(tile, maxZ, m) {
        MetaBelowSplits(tile, maxZ, m);
      }
      var meta := MetaXyz(tile);
      if meta !in tiles {
        tiles := tiles + {meta};
      }
      if tile.z < maxZ {
        var child := Xyz(2 * tile.x, 2 * tile.y, tile.z + 1);
        ChildTiles(child, maxZ);
        child := child.(x := child.x + 1);
        ChildTiles(child, maxZ);
        child := child.(y := child.y + 1);
        ChildTiles(child, maxZ);
        child := child.(x := child.x - 1);
        ChildTiles(child, maxZ);
      }
    }

    method ParentTiles(tile: Xyz, minZ: int)
      modifies this
      ensures forall m :: m in tiles <==> m in old(tiles) || MetaAbove(tile, minZ, m)
      decreases tile.z - minZ
    {
      hide MetaAbove;
      forall m
        ensures MetaAbove(tile, minZ, m) <==> m == MetaXyz(tile) || (tile.z > minZ && MetaAbove(Parent(tile), minZ, m))
      {
        MetaAboveSplits(tile, minZ, m);
      }
      var meta := MetaXyz(tile);
      if meta !in tiles {
        tiles := tiles + {meta};
      }
      if tile.z > minZ {
        ParentTiles(Parent(tile), minZ);
      }
    }
  }

  // Metatile m must be expired on account of input tile t.
  ghost predicate Touched(t: Xyz, minZ: int, maxZ: int, m: Xyz) {
    || MetaBelow(MetaXyz(t), if t.z > maxZ then t.z else maxZ, m)
    || MetaAbove(MetaXyz(t), if t.z < minZ then t.z else minZ, m)
  }

  // Above and below an input metatile's first tile, within the zooms given, everything is touched; so is the input.
  lemma TouchedHas(t: Xyz, minZ: int, maxZ: int, d: Xyz)
    requires Descendant(MetaXyz(t), d) || Descendant(d, MetaXyz(t))
    requires minZ <= d.z <= maxZ || d == MetaXyz(t)
    ensures Touched(t, minZ, maxZ, MetaXyz(d))
  {
    hide Descendant;
  }

  method CollectTiles(inputs: seq<Xyz>, minZ: int, maxZ: int) returns (all: TileSet)
    ensures forall m :: m in all.tiles <==> exists t :: t in inputs && Touched(t, minZ, maxZ, m)
  {
    hide MetaBelow, MetaAbove, MetaXyz;
    all := new TileSet();
    for i := 0 to |inputs|
      invariant fresh(all)
      invariant forall m :: m in all.tiles <==> exists t :: t in inputs[..i] && Touched(t, minZ, maxZ, m)
    {
      var tile := inputs[i];
      var meta := MetaXyz(tile);
      ghost var before := all.tiles;
      all.ChildTiles(meta, if tile.z > maxZ then tile.z else maxZ);
      all.ParentTiles(meta, if tile.z < minZ then tile.z else minZ);
      assert forall m :: m in all.tiles <==> m in before || Touched(tile, minZ, maxZ, m);
      assert inputs[..i + 1] == inputs[..i] + [tile];
      hide Touched;
      assert forall t :: t in inputs[..i + 1] <==> t in inputs[..i] || t == tile;
    }
    assert inputs[..|inputs|] == inputs;
  }

  /* ---- sharing out ---- */

  function Share(total: nat, threads: nat): nat
    requires threads >= 1
  {
    total / threads + if total % threads > 0 then 1 else 0
  }

  lemma SharesSuffice(total: nat, threads: nat)
    requires threads >= 1
    ensures threads * Share(total, threads) >= total
  {
  }

  // It is the least that suffices.
  lemma ShareIsLeast(total: nat, threads: nat, share: nat)
    requires threads >= 1 && threads * share >= total
    ensures Share(total, threads) <= share
  {
    var q, r := total / threads, total % threads;
    if r > 0 {
      Quotient(total - 1, threads, q, r - 1);
    } else {
      Quotient(total - 1, threads, q - 1, threads - 1);
    }
    FloorBound(total - 1, threads, share);
  }

  // Every tile goes to one thread, and no thread has more than the rounded-up share.
  method ShareOut<T>(all: seq<T>, threads: nat) returns (lists: seq<seq<T>>)
    requires threads >= 1
    ensures |lists| == threads && Concat(lists) == all
    ensures forall i :: 0 <= i < threads ==> |lists[i]| <= Share(|all|, threads)
  {
    var share := Share(|all|, threads);
    SharesSuffice(|all|, threads);
    hide Share, Concat;
    lists := [];
    ConcatNone<T>();
    var next := 0;
    for i := 0 to threads
      invariant |lists| == i && next <= |all| && Concat(lists) == all[..next]
      invariant next == |all| || next == i * share
      invariant forall k :: 0 <= k < i ==> |lists[k]| <= share
    {
      var list: seq<T> := [];
      var count := 0;
      ghost var start := next;
      while count < share && next < |all|
        invariant count == |list| <= share && next == start + count <= |all| && list == all[start..next]
      {
        list := list + [all[next]];
        next := next + 1;
        count := count + 1;
      }
      ConcatOneMore(lists, list);
      lists := lists + [list];
      NextShare(i, share);
    }
    assert all[..|all|] == all;
  }

  lemma NextShare(i: nat, share: nat)
    ensures (i + 1) * share == i * share + share
  {
  }
}
