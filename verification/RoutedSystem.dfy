/** The render system with its routing: handlers that see the same brokers alive never split a metatile. */
module RoutedSystem {
  import opened Tiles
  import opened Counting
  import opened TaskQueues
  import opened TileHandlers
  import opened Brokers
  import opened ConsistentHashing
  import opened Routing
  import opened RenderSystem

  // Each handler's ring, whatever its history, is one of the brokers that are alive.
  ghost predicate SameLive(rings: string -> map<Hash, string>, known: set<string>, live: set<string>, points: Points) {
    SeparatePoints(known, points) && live <= known && forall h :: RingOf(rings(h), live, points)
  }

  // A handler sends a job to the broker that owns its metatile on the handler's own ring, or nowhere.
  ghost predicate Routed(c: Config, s: System, e: Event, rings: string -> map<Hash, string>, hash: Key -> Hash)
    requires Enabled(s, e)
  {
    e.StorageResponse? ==>
      var a := Decide(c, s.nodes[e.h].fromStorage[e.i], e.q0, e.q1);
      a.job.Some? ==> e.route == Owner(rings(e.h), hash(MetaKey(a.job.value)))
  }

  // Jobs and tasks are with the broker that owns them.
  ghost predicate AtOwner(s: System, ring: map<Hash, string>, hash: Key -> Hash) {
    && (forall i :: 0 <= i < |s.toBroker| ==>
      Owner(ring, hash(MetaKey(s.toBroker[i].tile))) == Some(s.toBroker[i].broker))
    && (forall id :: id in s.tasks ==> Owner(ring, hash(id.key)) == Some(id.broker))
  }

  lemma StepAtOwner(c: Config, s: System, e: Event, rings: string -> map<Hash, string>, hash: Key -> Hash,
                    ring: map<Hash, string>)
    requires Enabled(s, e) && Routed(c, s, e, rings, hash) && AtOwner(s, ring, hash) && forall h :: rings(h) == ring
    ensures AtOwner(Next(c, s, e), ring, hash)
  {
    hide Owner, Decide, Merged, Revived, FanOut, Responded, JustTile;
  }

  lemma {:induction false} RunAtOwner(c: Config, states: seq<System>, events: seq<Event>, i: nat,
                                      rings: string -> map<Hash, string>, hash: Key -> Hash, ring: map<Hash, string>)
    requires IsRun(c, states, events) && i < |states| && forall h :: rings(h) == ring
    requires forall j :: 0 <= j < |events| ==> Routed(c, states[j], events[j], rings, hash)
    ensures AtOwner(states[i], ring, hash)
  {
    hide Next, Routed;
    if i > 0 {
      RunAtOwner(c, states, events, i - 1, rings, hash, ring);
      StepAtOwner(c, states[i - 1], events[i - 1], rings, hash, ring);
    }
  }

  /* In every state of every run in which all handlers see the same brokers alive, a metatile and style has at most one
     task over all brokers, and it is with a live one: the one that every handler sends its jobs to. */
  lemma OneTaskPerMetatile(c: Config, states: seq<System>, events: seq<Event>, i: nat,
                           rings: string -> map<Hash, string>, hash: Key -> Hash,
                           known: set<string>, live: set<string>, points: Points)
    requires IsRun(c, states, events) && i < |states| && SameLive(rings, known, live, points)
    requires forall j :: 0 <= j < |events| ==> Routed(c, states[j], events[j], rings, hash)
    ensures forall a, b :: a in states[i].tasks && b in states[i].tasks && a.key == b.key ==> a == b
    ensures forall h, id :: id in states[i].tasks ==>
      id.broker in live && Owner(rings(h), hash(id.key)) == Some(id.broker)
  {
    var ring := rings("");
    forall h ensures rings(h) == ring {
      RingUnique(rings(h), ring, known, live, points);
    }
    hide Routed, IsRun, Owner;
    RunAtOwner(c, states, events, i, rings, hash, ring);
    forall id | id in states[i].tasks ensures id.broker in live {
      OwnerInRing(ring, hash(id.key));
    }
  }
}
