/** The consistent-hash ring that routes jobs to brokers. */
module ConsistentHashing {
  import opened Tiles

  const HASH_SPACE := 0x1_0000_0000_0000_0000

  type Hash = h: int | 0 <= h < HASH_SPACE

  /* ---- who owns a key ---- */

  // How far the ring has to be followed clockwise from h to reach p.
  function ClockwiseDistance(h: Hash, p: Hash): int {
    if p >= h then p - h else p - h + HASH_SPACE
  }

  // p is the first point of the ring met when going clockwise from h.
  ghost predicate Successor<V>(ring: map<Hash, V>, h: Hash, p: Hash) {
    p in ring && forall q :: q in ring ==> ClockwiseDistance(h, p) <= ClockwiseDistance(h, q)
  }

  lemma {:induction false} SuccessorExists<V>(ring: map<Hash, V>, h: Hash)
    requires ring != map[]
    ensures exists p :: Successor(ring, h, p)
    decreases ring
  {
    var p :| p in ring;
    var rest := ring - {p};
    if rest == map[] {
      assert forall q :: q in ring && q != p ==> q in rest;
      assert Successor(ring, h, p);
    } else {
      SuccessorExists(rest, h);
      var q :| Successor(rest, h, q);
      assert Successor(ring, h, if ClockwiseDistance(h, p) <= ClockwiseDistance(h, q) then p else q);
    }
  }

  ghost function Owner<V>(ring: map<Hash, V>, h: Hash): Option<V> {
    if ring == map[] then None
    else
      SuccessorExists(ring, h);
      var p :| Successor(ring, h, p);
      Some(ring[p])
  }

  lemma OwnerIs<V>(ring: map<Hash, V>, h: Hash, p: Hash)
    requires Successor(ring, h, p)
    ensures Owner(ring, h) == Some(ring[p])
  {
    SuccessorExists(ring, h);
  }

  // Point p is the next one at or above h; or there is none, and p is the lowest of all.
  ghost predicate NextPoint<V>(ring: map<Hash, V>, h: Hash, p: Hash) {
    && p in ring
    && ((h <= p && forall q :: q in ring && h <= q ==> p <= q) || forall q :: q in ring ==> q < h && p <= q)
  }

  lemma OwnerIsNext<V>(ring: map<Hash, V>, h: Hash, p: Hash)
    requires NextPoint(ring, h, p)
    ensures Owner(ring, h) == Some(ring[p])
  {
    OwnerIs(ring, h, p);
  }

  /* ---- the operations ---- */

  // A point that is taken already is left to its owner.
  function Inserted<V>(ring: map<Hash, V>, points: seq<Hash>, v: V): map<Hash, V> {
    map p | p in ring || p in points :: if p in ring then ring[p] else v
  }

  function Erased<V>(ring: map<Hash, V>, points: seq<Hash>): map<Hash, V> {
    ring - (set q | q in points)
  }

  class ConsistentHash<V(==,!new)> {
    // The points drawn from the generator seeded with a value's hash; the same on every call.
    const points: V -> seq<Hash>
    var ring: map<Hash, V>

    constructor (points: V -> seq<Hash>)
      ensures this.points == points && ring == map[]
    {
      this.points, ring := points, map[];
    }

    method Insert(v: V)
      modifies this
      ensures ring == Inserted(old(ring), points(v), v)
    {
      var pts := points(v);
      for i := 0 to |pts|
        invariant ring == Inserted(old(ring), pts[..i], v)
      {
        assert pts[..i + 1] == pts[..i] + [pts[i]];
        if pts[i] !in ring {
          ring := ring[pts[i] := v];
        }
      }
      assert pts[..|pts|] == pts;
    }

    method Erase(v: V)
      modifies this
      ensures ring == Erased(old(ring), points(v))
    {
      var pts := points(v);
      for i := 0 to |pts|
        invariant ring == Erased(old(ring), pts[..i])
      {
        assert pts[..i + 1] == pts[..i] + [pts[i]];
        ring := ring - {pts[i]};
      }
      assert pts[..|pts|] == pts;
    }

    // The least point at or above `from`.
    method LowerBound(from: int) returns (r: Option<Hash>)
      ensures r.None? ==> forall p :: p in ring ==> p < from
      ensures r.Some? ==> r.value in ring && from <= r.value && forall p :: p in ring && from <= p ==> r.value <= p
    {
      r := None;
      var rest := ring.Keys;
      while rest != {}
        invariant rest <= ring.Keys
        invariant r.None? ==> forall p :: p in ring && p !in rest ==> p < from
        invariant r.Some? ==> r.value in ring && from <= r.value
        invariant r.Some? ==> forall p :: p in ring && p !in rest && from <= p ==> r.value <= p
      {
        var p :| p in rest;
        if from <= p && (r.None? || p < r.value) {
          r := Some(p);
        }
        rest := rest - {p};
      }
    }

    // The owner of hash h: the next point, from the beginning again when there is none above h.
    method Lookup(h: Hash) returns (v: Option<V>)
      ensures v == Owner(ring, h)
      ensures v.None? <==> ring == map[]
    {
      var p := LowerBound(h);
      if p.None? {
        p := LowerBound(0);
      }
      if p.None? {
        assert ring == map[] by { assert forall q :: q !in ring; }
        return None;
      }
      OwnerIs(ring, h, p.value);
      return Some(ring[p.value]);
    }
  }

  /* ---- minimal disruption ---- */

  // Inserting v moves a key to v or not at all, whatever points collide.
  lemma InsertMovesOnlyToNew<V>(ring: map<Hash, V>, points: seq<Hash>, v: V, h: Hash)
    ensures Owner(Inserted(ring, points, v), h) == Owner(ring, h) || Owner(Inserted(ring, points, v), h) == Some(v)
  {
    var ring' := Inserted(ring, points, v);
    if ring' != map[] {
      SuccessorExists(ring', h);
      var p :| Successor(ring', h, p);
      OwnerIs(ring', h, p);
      if p in ring {
        assert Successor(ring, h, p);
        OwnerIs(ring, h, p);
      }
    }
  }

  // A key whose point stays keeps its owner, whatever points collide.
  lemma EraseKeepsPoint<V>(ring: map<Hash, V>, points: seq<Hash>, h: Hash, p: Hash)
    requires Successor(ring, h, p) && p !in points
    ensures Owner(Erased(ring, points), h) == Owner(ring, h) == Some(ring[p])
  {
    assert Successor(Erased(ring, points), h, p);
    OwnerIs(ring, h, p);
    OwnerIs(Erased(ring, points), h, p);
  }

  // When none of v's points belongs to another value, erasing v moves only the keys that v owned.
  lemma EraseMovesOnlyOwned<V>(ring: map<Hash, V>, points: seq<Hash>, v: V, h: Hash)
    requires forall p :: p in ring && p in points ==> ring[p] == v
    ensures Owner(ring, h) != Some(v) ==> Owner(Erased(ring, points), h) == Owner(ring, h)
    ensures (forall p :: p in ring && ring[p] == v ==> p in points) ==> Owner(Erased(ring, points), h) != Some(v)
  {
    var ring' := Erased(ring, points);
    if ring == map[] {
      assert ring' == map[];
    } else {
      SuccessorExists(ring, h);
      var p :| Successor(ring, h, p);
      OwnerIs(ring, h, p);
      if p !in points {
        EraseKeepsPoint(ring, points, h, p);
      }
      if ring' != map[] {
        SuccessorExists(ring', h);
        var q :| Successor(ring', h, q);
        OwnerIs(ring', h, q);
      }
    }
  }

  // Going from h to q through a point p that is met no later than q.
  lemma DistanceThrough(h: Hash, p: Hash, q: Hash)
    requires ClockwiseDistance(h, p) <= ClockwiseDistance(h, q)
    ensures ClockwiseDistance(h, q) == ClockwiseDistance(h, p) + ClockwiseDistance(p, q)
  {
  }

  // Where a successor is taken away, the next point after it is the new successor.
  lemma SuccessorAfterErase<V>(ring: map<Hash, V>, points: seq<Hash>, h: Hash, p: Hash, q: Hash)
    requires Successor(ring, h, p) && Successor(Erased(ring, points), p, q)
    ensures Successor(Erased(ring, points), h, q)
  {
    DistanceThrough(h, p, q);
    forall r | r in Erased(ring, points) ensures ClockwiseDistance(h, q) <= ClockwiseDistance(h, r) {
      DistanceThrough(h, p, r);
    }
  }

  // After each point that v takes away from another value comes a remaining point of the same value.
  ghost predicate Covered<V>(ring: map<Hash, V>, points: seq<Hash>, v: V) {
    forall p :: p in ring && p in points && ring[p] != v ==>
      exists q :: Successor(Erased(ring, points), p, q) && ring[q] == ring[p]
  }

  // Erasing v moves no key of any other value.
  ghost predicate OthersKeep<V>(ring: map<Hash, V>, points: seq<Hash>, v: V) {
    forall h :: Owner(ring, h) != Some(v) ==> Owner(Erased(ring, points), h) == Owner(ring, h)
  }

  lemma CoveredKeeps<V>(ring: map<Hash, V>, points: seq<Hash>, v: V, h: Hash)
    requires Covered(ring, points, v) && Owner(ring, h) != Some(v)
    ensures Owner(Erased(ring, points), h) == Owner(ring, h)
  {
    if ring == map[] {
      assert Erased(ring, points) == map[];
    } else {
      SuccessorExists(ring, h);
      var p :| Successor(ring, h, p);
      OwnerIs(ring, h, p);
      if p !in points {
        EraseKeepsPoint(ring, points, h, p);
      } else {
        var q :| Successor(Erased(ring, points), p, q) && ring[q] == ring[p];
        SuccessorAfterErase(ring, points, h, p, q);
        OwnerIs(Erased(ring, points), h, q);
      }
    }
  }

  lemma KeepsCovered<V>(ring: map<Hash, V>, points: seq<Hash>, v: V, p: Hash)
    requires OthersKeep(ring, points, v) && p in ring && p in points && ring[p] != v
    ensures exists q :: Successor(Erased(ring, points), p, q) && ring[q] == ring[p]
  {
    assert Successor(ring, p, p);
    OwnerIs(ring, p, p);
    SuccessorExists(Erased(ring, points), p);
    var q :| Successor(Erased(ring, points), p, q);
    OwnerIs(Erased(ring, points), p, q);
  }

  // Exactly when erasing v moves no key of another value, colliding points or not.
  lemma EraseMovesOnlyOwnedIff<V>(ring: map<Hash, V>, points: seq<Hash>, v: V)
    ensures OthersKeep(ring, points, v) <==> Covered(ring, points, v)
  {
    if Covered(ring, points, v) {
      forall h | Owner(ring, h) != Some(v) ensures Owner(Erased(ring, points), h) == Owner(ring, h) {
        CoveredKeeps(ring, points, v, h);
      }
    }
    if OthersKeep(ring, points, v) {
      forall p | p in ring && p in points && ring[p] != v
        ensures exists q :: Successor(Erased(ring, points), p, q) && ring[q] == ring[p]
      {
        KeepsCovered(ring, points, v, p);
      }
    }
  }

  // Erasing what was just inserted restores the ring exactly when none of its points was taken.
  lemma EraseUndoesInsert<V>(ring: map<Hash, V>, points: seq<Hash>, v: V)
    ensures Erased(Inserted(ring, points, v), points) == ring <==> forall p :: p in points ==> p !in ring
  {
    if p :| p in points && p in ring {
      assert p !in Erased(Inserted(ring, points, v), points);
    }
  }

  // Without that, erasing a value takes keys away from another one whose point it shares.
  lemma SharedPointIsLost<V>(u: V, v: V, w: V)
    requires u != w
    ensures Owner(map[5 := u, 9 := w], 3) == Some(u)
    ensures Owner(Erased(Inserted(map[5 := u, 9 := w], [5], v), [5]), 3) == Some(w)
  {
    var ring: map<Hash, V> := map[5 := u, 9 := w];
    assert Inserted(ring, [5], v) == ring;
    assert Erased(ring, [5]) == map[9 := w];
    OwnerIs(ring, 3, 5);
    OwnerIs(map[9 := w], 3, 9);
  }
}
