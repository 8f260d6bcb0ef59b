/**
 The broker's queue of render tasks: at most one task for each metatile and style, indexed by
 priority (highest first) and by timestamp (oldest first).
 */
module TaskQueues {
  import opened Tiles

  datatype Subscriber = Subscriber(tile: Tile, address: string)

  datatype Task = Task(
    tile: Tile,
    priority: int,
    timestamp: int,
    subscribers: seq<Subscriber>,
    processed: bool)

  /* ---- what the operations mean, as functions of the task map ---- */

  function FreshTask(tile: Tile, priority: int, now: int): Task {
    Task(tile.(x := Align(tile.x), y := Align(tile.y), status := Render), priority, now, [], false)
  }

  function Joined(t: Task, tile: Tile, address: string, priority: int): Task {
    t.(priority := if priority > t.priority then priority else t.priority,
       subscribers := t.subscribers + [Subscriber(tile, address)],
       tile := t.tile.(format := t.tile.format + tile.format))
  }

  function Merged(prior: Option<Task>, tile: Tile, address: string, priority: int, now: int): Task {
    var t := if prior.Some? then prior.value else FreshTask(tile, priority, now);
    Joined(t, tile, address, priority)
  }

  function Lookup<K, V>(m: map<K, V>, k: K): Option<V> {
    if k in m then Some(m[k]) else None
  }

  function Pushed(q: map<Key, Task>, tile: Tile, address: string, priority: int, now: int): map<Key, Task> {
    q[MetaKey(tile) := Merged(Lookup(q, MetaKey(tile)), tile, address, priority, now)]
  }

  function Marked(q: map<Key, Task>, k: Key): map<Key, Task> {
    if k in q then q[k := q[k].(processed := true)] else q
  }

  predicate Zombie(t: Task, timeout: int, now: int) {
    t.tile.status != RenderBulk && now - t.timestamp >= timeout && t.processed
  }

  ghost function Zombies(q: map<Key, Task>, timeout: int, now: int): set<Key> {
    set k | k in q && Zombie(q[k], timeout, now)
  }

  function Revived(t: Task, now: int): Task {
    t.(processed := false, timestamp := now)
  }

  ghost function Resubmitted(q: map<Key, Task>, freed: set<Key>, now: int): map<Key, Task> {
    map k | k in q :: if k in freed then Revived(q[k], now) else q[k]
  }

  /* A walk in timestamp order has come to k, the first zombie it meets; `ahead` are the keys that it has not
     reached then. */
  ghost predicate Meets(q: map<Key, Task>, zombies: set<Key>, k: Key, ahead: set<Key>) {
    && k in zombies && zombies <= q.Keys && k !in ahead && ahead <= q.Keys && zombies <= ahead + {k}
    && (forall j :: j in ahead ==> q[k].timestamp <= q[j].timestamp)
    && (forall j :: j in q && j !in ahead ==> q[j].timestamp <= q[k].timestamp)
  }

  // No key ahead has to be passed by one that is restamped.
  ghost predicate NoneOlder(q: map<Key, Task>, ahead: set<Key>, later: int)
    requires ahead <= q.Keys
  {
    forall j :: j in ahead ==> q[j].timestamp >= later
  }

  // The restamped zombie k moves to the end of the index and takes the walk there, unless it need not move.
  ghost function FreedBy(q: map<Key, Task>, zombies: set<Key>, k: Key, ahead: set<Key>, later: int): set<Key>
    requires ahead <= q.Keys
  {
    if NoneOlder(q, ahead, later) then zombies else {k}
  }

  // What one sweep frees; keys of equal timestamps may be walked in any order.
  ghost predicate SweepResult(q: map<Key, Task>, freed: set<Key>, timeout: int, now: int, later: int) {
    var zombies := Zombies(q, timeout, now);
    if zombies == {} then freed == {}
    else exists k, ahead :: Meets(q, zombies, k, ahead) && freed == FreedBy(q, zombies, k, ahead, later)
  }

  ghost function Unprocessed(q: map<Key, Task>): set<Key> {
    set k | k in q && !q[k].processed
  }

  ghost predicate BestUnprocessed(q: map<Key, Task>, k: Key) {
    && k in q && !q[k].processed
    && forall j :: j in q && !q[j].processed ==> q[j].priority <= q[k].priority
  }

  ghost predicate StampedBy(q: map<Key, Task>, now: int) {
    forall k :: k in q ==> q[k].timestamp <= now
  }

  // What `push` guarantees of every task, whatever the priorities it was called with.
  ghost predicate WellKeyed(q: map<Key, Task>) {
    forall k :: k in q ==>
      KeyOf(q[k].tile) == k && AlignedKey(k) && q[k].tile.status == Render && q[k].subscribers != []
  }

  lemma ResubmitOne(q: map<Key, Task>, freed: set<Key>, k: Key, now: int)
    requires k in q && k !in freed
    ensures Resubmitted(q, freed, now)[k] == q[k]
    ensures Resubmitted(q, freed + {k}, now) == Resubmitted(q, freed, now)[k := Revived(q[k], now)]
  {
  }

  // A task that a sweep has freed is a zombie again no sooner than `timeout` after it, though it be handed out at once.
  lemma FreedIsFresh(t: Task, timeout: int, later: int, next: int)
    ensures !Zombie(Revived(t, later), timeout, next)
    ensures Zombie(Revived(t, later).(processed := true), timeout, next) ==> next - later >= timeout
    ensures var r := Revived(t, later); r.tile == t.tile && r.priority == t.priority && r.subscribers == t.subscribers
  {
  }

  // A task that is handed out is not to be had by others, and nothing else about the queue changes.
  lemma HandedOutIsTaken(q: map<Key, Task>, k: Key)
    requires k in q
    ensures Unprocessed(Marked(q, k)) == Unprocessed(q) - {k} && Marked(q, k).Keys == q.Keys
    ensures forall j :: j in q ==> Marked(q, k)[j].(processed := q[j].processed) == q[j]
  {
  }

  // A new task is stamped with the time, and is to be had.
  lemma NewTaskIsFresh(tile: Tile, address: string, priority: int, now: int)
    ensures var t := Merged(None, tile, address, priority, now);
      !t.processed && t.timestamp == now && t.subscribers == [Subscriber(tile, address)] && t.priority == priority
  {
  }

  // One that is joined keeps its time and whether it is out.
  lemma JoinedKeeps(t: Task, tile: Tile, address: string, priority: int, now: int)
    ensures var u := Merged(Some(t), tile, address, priority, now);
      u.processed == t.processed && u.timestamp == t.timestamp && KeyOf(u.tile) == KeyOf(t.tile)
  {
  }

  // Its tile is the first one of the metatile that the request is in.
  lemma NewTaskIsAligned(tile: Tile, address: string, priority: int, now: int)
    ensures var t := Merged(None, tile, address, priority, now).tile;
      && t.z == tile.z && t.style == tile.style && t.x % METATILE == 0 && t.y % METATILE == 0
      && t.x <= tile.x < t.x + METATILE && t.y <= tile.y < t.y + METATILE
  {
  }

  // Two requests become one task exactly if they are for one style, one zoom and one square of 8 by 8 tiles.
  lemma SharesTaskIff(t: Tile, a: string, p: int, now: int, u: Tile, b: string, q: int, next: int)
    ensures |Pushed(Pushed(map[], t, a, p, now), u, b, q, next)| == 1 <==>
      t.style == u.style && t.z == u.z && t.x / METATILE == u.x / METATILE && t.y / METATILE == u.y / METATILE
  {
    var one := Pushed(map[], t, a, p, now);
    var two := Pushed(one, u, b, q, next);
    assert one.Keys == {MetaKey(t)} && two.Keys == {MetaKey(t), MetaKey(u)} && |two| == |two.Keys|;
    SameMetatileIff(t, u);
    if MetaKey(t) != MetaKey(u) {
      assert two.Keys - {MetaKey(t)} == {MetaKey(u)};
    }
  }

  lemma SameMetatileIff(t: Tile, u: Tile)
    ensures MetaKey(t) == MetaKey(u) <==>
      t.style == u.style && t.z == u.z && t.x / METATILE == u.x / METATILE && t.y / METATILE == u.y / METATILE
  {
  }

  lemma ResubmittedKeeps(q: map<Key, Task>, freed: set<Key>, now: int)
    requires WellKeyed(q) && StampedBy(q, now)
    ensures WellKeyed(Resubmitted(q, freed, now)) && StampedBy(Resubmitted(q, freed, now), now)
  {
  }

  // A sweep frees zombies only, among them an oldest if there is one and, for a positive timeout, no second one.
  lemma SweepFreesOldest(q: map<Key, Task>, freed: set<Key>, timeout: int, now: int, later: int)
    requires now <= later && SweepResult(q, freed, timeout, now, later)
    ensures forall k :: k in freed ==>
      k in q && q[k].processed && now - q[k].timestamp >= timeout && q[k].tile.status != RenderBulk
    ensures freed <= Zombies(q, timeout, now)
    ensures Zombies(q, timeout, now) != {} ==>
      exists k :: k in freed && forall j :: j in Zombies(q, timeout, now) ==> q[k].timestamp <= q[j].timestamp
    ensures timeout > 0 ==> |freed| <= 1
  {
    var zombies := Zombies(q, timeout, now);
    if zombies != {} {
      var k, ahead :| Meets(q, zombies, k, ahead) && freed == FreedBy(q, zombies, k, ahead, later);
      assert k in freed && forall j :: j in zombies ==> q[k].timestamp <= q[j].timestamp;
      if timeout > 0 {
        OnlyOneMet(q, k, ahead, timeout, now, later);
      }
    }
  }

  // For a positive timeout, where the first zombie need not move there is no other.
  lemma OnlyOneMet(q: map<Key, Task>, k: Key, ahead: set<Key>, timeout: int, now: int, later: int)
    requires timeout > 0 && now <= later && Meets(q, Zombies(q, timeout, now), k, ahead)
    ensures NoneOlder(q, ahead, later) ==> Zombies(q, timeout, now) == {k}
    ensures FreedBy(q, Zombies(q, timeout, now), k, ahead, later) == {k}
  {
  }

  /* One sweep frees every zombie exactly when the first one it meets is the only one, or every task behind that
     one in the index was stamped in the very moment of the sweep. With a positive timeout it is exactly when
     there is at most one, so not all that it is said to free. */
  lemma SweepFreesAllIff(q: map<Key, Task>, k: Key, ahead: set<Key>, timeout: int, now: int, later: int)
    requires now <= later && Meets(q, Zombies(q, timeout, now), k, ahead)
    ensures var zombies := Zombies(q, timeout, now);
      && (FreedBy(q, zombies, k, ahead, later) == zombies <==> |zombies| == 1 || NoneOlder(q, ahead, later))
      && (timeout > 0 ==> (FreedBy(q, zombies, k, ahead, later) == zombies <==> |zombies| == 1))
  {
    var zombies := Zombies(q, timeout, now);
    if |zombies| == 1 {
      assert |zombies - {k}| == 0;
      assert zombies == {k};
    }
    if timeout > 0 {
      OnlyOneMet(q, k, ahead, timeout, now, later);
    }
  }

  lemma SweepShrinks(q: map<Key, Task>, freed: set<Key>, timeout: int, now: int)
    requires SweepResult(q, freed, timeout, now, now)
    ensures Zombies(Resubmitted(q, freed, now), timeout, now) == Zombies(q, timeout, now) - freed
    ensures Zombies(q, timeout, now) != {} ==>
      |Zombies(Resubmitted(q, freed, now), timeout, now)| < |Zombies(q, timeout, now)|
  {
    var zombies := Zombies(q, timeout, now);
    SweepFreesOldest(q, freed, timeout, now, now);
    if zombies != {} {
      var k :| k in freed;
      assert |zombies - {k}| == |zombies| - 1;
      SubsetSize(zombies - freed, zombies - {k});
    }
  }

  lemma {:induction false} SubsetSize<K>(a: set<K>, b: set<K>)
    requires a <= b
    ensures |a| <= |b|
  {
    if a != {} {
      var x :| x in a;
      SubsetSize(a - {x}, b - {x});
    }
  }

  ghost predicate SweepsTo(q: map<Key, Task>, q': map<Key, Task>, timeout: int, now: int) {
    exists freed :: SweepResult(q, freed, timeout, now, now) && q' == Resubmitted(q, freed, now)
  }

  // Sweeping again and again at one moment frees every zombie, one sweep for each at the most.
  lemma {:induction false} RepeatedSweepsFreeAll(run: seq<map<Key, Task>>, timeout: int, now: int)
    requires run != [] && forall i :: 0 <= i < |run| - 1 ==> SweepsTo(run[i], run[i + 1], timeout, now)
    requires |run| > |Zombies(run[0], timeout, now)|
    ensures Zombies(run[|run| - 1], timeout, now) == {}
  {
    if |run| > 1 {
      SweepsToFewer(run[0], run[1], timeout, now);
      RepeatedSweepsFreeAll(run[1..], timeout, now);
    }
  }

  lemma SweepsToFewer(q: map<Key, Task>, q': map<Key, Task>, timeout: int, now: int)
    requires SweepsTo(q, q', timeout, now)
    ensures Zombies(q', timeout, now) <= Zombies(q, timeout, now)
    ensures |Zombies(q', timeout, now)| < |Zombies(q, timeout, now)| || Zombies(q', timeout, now) == {}
  {
    var freed :| SweepResult(q, freed, timeout, now, now) && q' == Resubmitted(q, freed, now);
    SweepShrinks(q, freed, timeout, now);
  }

  /* How far a sweep has come: it has met no zombie yet; or it has met one that moved, and is over; or it has
     freed all the zombies that it has passed. */
  ghost predicate Swept(q: map<Key, Task>, zombies: set<Key>, freed: set<Key>, ahead: set<Key>,
                        met: Option<(Key, set<Key>)>, later: int)
  {
    match met
    case None =>
      && freed == {} && zombies <= ahead <= q.Keys
      && forall i, j :: i in q && i !in ahead && j in ahead ==> q[i].timestamp <= q[j].timestamp
    case Some((k, rest)) =>
      && Meets(q, zombies, k, rest) && ahead <= rest
      && if NoneOlder(q, rest, later) then freed == zombies - ahead else ahead == {} && freed == {k}
  }

  // The walk takes k, of least timestamp among those left, off the keys ahead; it is not a zombie.
  lemma SweepPasses(q: map<Key, Task>, zombies: set<Key>, freed: set<Key>, ahead: set<Key>,
                    met: Option<(Key, set<Key>)>, k: Key, later: int)
    requires k in q && k !in zombies && k !in ahead && Swept(q, zombies, freed, ahead + {k}, met, later)
    requires forall j :: j in ahead && j in q ==> q[k].timestamp <= q[j].timestamp
    ensures Swept(q, zombies, freed, ahead, met, later)
  {
  }

  // Or it is one, and ends the walk if it has to move.
  lemma SweepNext(q: map<Key, Task>, zombies: set<Key>, freed: set<Key>, ahead: set<Key>,
                  met: Option<(Key, set<Key>)>, k: Key, later: int)
    requires k in zombies && k !in ahead && zombies <= q.Keys && ahead <= q.Keys
    requires Swept(q, zombies, freed, ahead + {k}, met, later)
    requires forall j :: j in ahead ==> q[k].timestamp <= q[j].timestamp
    ensures var met' := if met.None? then Some((k, ahead)) else met;
      Swept(q, zombies, freed + {k}, if NoneOlder(q, ahead, later) then ahead else {}, met', later)
  {
    if met.None? {
      assert zombies - ahead == {k} == freed + {k};
    } else {
      assert zombies - ahead == freed + {k};
    }
  }

  lemma SweepEnds(q: map<Key, Task>, freed: set<Key>, met: Option<(Key, set<Key>)>, timeout: int, now: int, later: int)
    requires Swept(q, Zombies(q, timeout, now), freed, {}, met, later)
    ensures SweepResult(q, freed, timeout, now, later)
  {
    var zombies := Zombies(q, timeout, now);
    assert zombies - {} == zombies;
  }

  /* ---- the container ---- */

  /**
   The multi-index container holds one task for each key. An iterator over an ordered index is
   modelled by the set of keys still ahead of it: the next key is one of least rank among them, and
   keys of equal rank may come in any order.
   */
  class TaskQueue {
    var tasks: map<Key, Task>

    ghost predicate Valid()
      reads this
    {
      WellKeyed(tasks)
    }

    constructor ()
      ensures Valid() && tasks == map[]
    {
      tasks := map[];
    }

    // Adds a request, merging it with the task for the same metatile and style if there is one.
    method Push(tile: Tile, address: string, priority: int, now: int) returns (added: bool)
      requires Valid()
      modifies this
      ensures Valid()
      ensures tasks == Pushed(old(tasks), tile, address, priority, now)
      ensures added <==> MetaKey(tile) !in old(tasks)
    {
      var k := MetaKey(tile);
      added := k !in tasks;
      if added {
        tasks := tasks[k := FreshTask(tile, priority, now)];
      }
      tasks := tasks[k := Joined(tasks[k], tile, address, priority)];
    }

    // Marks the task with exactly this tile's coordinates and style as handed out.
    method SetProcessed(tile: Tile)
      requires Valid()
      modifies this
      ensures Valid()
      ensures tasks == Marked(old(tasks), KeyOf(tile))
    {
      var k := KeyOf(tile);
      if k in tasks {
        tasks := tasks[k := tasks[k].(processed := true)];
      }
    }

    // Removes the whole task with exactly this tile's coordinates and style.
    method Erase(tile: Tile) returns (found: bool)
      requires Valid()
      modifies this
      ensures Valid()
      ensures found <==> KeyOf(tile) in old(tasks)
      ensures tasks == old(tasks) - {KeyOf(tile)}
    {
      found := KeyOf(tile) in tasks;
      if found {
        tasks := tasks - {KeyOf(tile)};
      }
    }

    method Clear()
      modifies this
      ensures Valid() && tasks == map[]
    {
      tasks := map[];
    }

    // The next key of the priority index.
    method NextByPriority(ahead: set<Key>) returns (k: Key)
      requires ahead != {} && ahead <= tasks.Keys
      ensures k in ahead && forall j :: j in ahead ==> tasks[j].priority <= tasks[k].priority
    {
      k :| k in ahead;
      var rest := ahead - {k};
      while rest != {}
        invariant k in ahead && rest <= ahead
        invariant forall j :: j in ahead && j !in rest ==> tasks[j].priority <= tasks[k].priority
      {
        var j :| j in rest;
        if tasks[j].priority > tasks[k].priority {
          k := j;
        }
        rest := rest - {j};
      }
    }

    // The next key of the timestamp index.
    method NextByTime(ahead: set<Key>) returns (k: Key)
      requires ahead != {} && ahead <= tasks.Keys
      ensures k in ahead && forall j :: j in ahead ==> tasks[k].timestamp <= tasks[j].timestamp
    {
      k :| k in ahead;
      var rest := ahead - {k};
      while rest != {}
        invariant k in ahead && rest <= ahead
        invariant forall j :: j in ahead && j !in rest ==> tasks[k].timestamp <= tasks[j].timestamp
      {
        var j :| j in rest;
        if tasks[j].timestamp < tasks[k].timestamp {
          k := j;
        }
        rest := rest - {j};
      }
    }

    // The first unprocessed task in priority order.
    method Front() returns (front: Option<Task>)
      requires Valid()
      ensures front.None? <==> Unprocessed(tasks) == {}
      ensures front.Some? ==>
        BestUnprocessed(tasks, KeyOf(front.value.tile)) && front.value == tasks[KeyOf(front.value.tile)]
    {
      var ahead := tasks.Keys;
      while ahead != {}
        invariant ahead <= tasks.Keys
        invariant forall k :: k in tasks && k !in ahead ==> tasks[k].processed
      {
        var k := NextByPriority(ahead);
        if !tasks[k].processed {
          assert k in Unprocessed(tasks);
          return Some(tasks[k]);
        }
        ahead := ahead - {k};
      }
      return None;
    }

    method CountUnprocessed() returns (count: nat)
      requires Valid()
      ensures count == |Unprocessed(tasks)|
    {
      count := 0;
      var ahead := tasks.Keys;
      while ahead != {}
        invariant ahead <= tasks.Keys
        invariant count == |set k | k in tasks && k !in ahead && !tasks[k].processed|
      {
        ghost var before := set k | k in tasks && k !in ahead && !tasks[k].processed;
        var k := NextByPriority(ahead);
        ahead := ahead - {k};
        ghost var after := set j | j in tasks && j !in ahead && !tasks[j].processed;
        if tasks[k].processed {
          assert after == before;
        } else {
          assert after == before + {k};
          count := count + 1;
        }
      }
      assert Unprocessed(tasks) == set k | k in tasks && k !in ahead && !tasks[k].processed;
    }

    /* Makes tasks that have been out for at least `timeout` available again. `now` is the time read
       when the sweep starts, `later` the time read when a task is restamped. Restamping a task moves
       it in the index that is being walked: unless its neighbours allow it to stay, it goes behind
       every task stamped at or before `later`, and the walk goes on from there. */
    method ResubmitOlderThan(timeout: nat, now: int, later: int) returns (ghost freed: set<Key>)
      requires Valid() && now <= later && StampedBy(tasks, now)
      modifies this
      ensures Valid() && StampedBy(tasks, later)
      ensures tasks == Resubmitted(old(tasks), freed, later)
      ensures SweepResult(old(tasks), freed, timeout, now, later)
    {
      ghost var q, zombies := tasks, Zombies(tasks, timeout, now);
      ghost var met: Option<(Key, set<Key>)> := None;
      freed := {};
      var ahead := tasks.Keys;
      while ahead != {}
        invariant ahead <= q.Keys && freed !! ahead
        invariant tasks == Resubmitted(q, freed, later)
        invariant Swept(q, zombies, freed, ahead, met, later)
        decreases ahead
      {
        hide Swept;
        var k := NextByTime(ahead);
        ghost var before := ahead;
        ahead := ahead - {k};
        assert before == ahead + {k} && tasks[k] == q[k] && forall j :: j in ahead ==> tasks[j] == q[j];
        if Zombie(tasks[k], timeout, now) {
          var stays := forall j :: j in ahead ==> later <= tasks[j].timestamp;
          SweepNext(q, zombies, freed, ahead, met, k, later);
          ResubmitOne(q, freed, k, later);
          met := if met.None? then Some((k, ahead)) else met;
          tasks := tasks[k := Revived(tasks[k], later)];
          freed := freed + {k};
          if !stays {
            ahead := set j | j in ahead && tasks[j].timestamp > later;
            assert ahead == {};
          }
        } else {
          SweepPasses(q, zombies, freed, ahead, met, k, later);
        }
      }
      SweepEnds(q, freed, met, timeout, now, later);
      ResubmittedKeeps(q, freed, later);
    }
  }
}
