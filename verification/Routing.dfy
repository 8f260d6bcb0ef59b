/** The handler's side of the queue: which brokers are alive, where a job goes, and waiting for brokers to report in. */
module Routing {
  import opened Tiles
  import opened ConsistentHashing
  import opened Counting

  const MAX_SIZE := 0xffff_ffff_ffff_ffff

  // `isLive` records whether the ring considers the broker alive.
  datatype Heartbeat = Heartbeat(time: int, queueSize: nat, isLive: bool)

  function LiveSet(hbs: map<string, Heartbeat>): set<string> {
    set b | b in hbs && hbs[b].isLive
  }

  predicate Recent(hb: Heartbeat, now: int, liveness: int) {
    now - hb.time < liveness
  }

  function Judged(hbs: map<string, Heartbeat>, now: int, liveness: int): map<string, Heartbeat> {
    map b | b in hbs :: hbs[b].(isLive := Recent(hbs[b], now, liveness))
  }

  lemma JudgedLive(hbs: map<string, Heartbeat>, now: int, liveness: int)
    ensures LiveSet(Judged(hbs, now, liveness)) == {} <==> forall b :: b in hbs ==> !Recent(hbs[b], now, liveness)
  {
    var live := LiveSet(Judged(hbs, now, liveness));
    assert forall b :: b in live <==> b in hbs && Recent(hbs[b], now, liveness);
  }

  // Only the last judgement counts.
  lemma JudgedAgain(hbs: map<string, Heartbeat>, before: int, now: int, liveness: int)
    ensures Judged(Judged(hbs, before, liveness), now, liveness) == Judged(hbs, now, liveness)
  {
  }

  // The const and the mutating check of the settling period.
  predicate Settling(settle: Option<int>, now: int) {
    settle.Some? && settle.value >= now
  }

  /* ---- the ring of a set of brokers ---- */

  type Points = string -> seq<Hash>

  // No two of the known brokers share a point, and each has one.
  ghost predicate SeparatePoints(known: set<string>, points: Points) {
    && (forall b :: b in known ==> points(b) != [])
    && (forall a, b, p :: a in known && b in known && p in points(a) && p in points(b) ==> a == b)
  }

  // The ring built from exactly these brokers.
  ghost predicate RingOf(ring: map<Hash, string>, live: set<string>, points: Points) {
    && (forall p :: p in ring ==> ring[p] in live && p in points(ring[p]))
    && (forall b, p :: b in live && p in points(b) ==> p in ring)
  }

  lemma RingUnique(r1: map<Hash, string>, r2: map<Hash, string>, known: set<string>, live: set<string>, points: Points)
    requires SeparatePoints(known, points) && live <= known && RingOf(r1, live, points) && RingOf(r2, live, points)
    ensures r1 == r2
  {
  }

  lemma RingInsert(ring: map<Hash, string>, known: set<string>, live: set<string>, points: Points, b: string)
    requires SeparatePoints(known, points) && live <= known && b in known && b !in live && RingOf(ring, live, points)
    ensures RingOf(Inserted(ring, points(b), b), live + {b}, points)
  {
  }

  lemma RingErase(ring: map<Hash, string>, known: set<string>, live: set<string>, points: Points, b: string)
    requires SeparatePoints(known, points) && live <= known && b in live && RingOf(ring, live, points)
    ensures RingOf(Erased(ring, points(b)), live - {b}, points)
  {
  }

  lemma RingEmptyIff(ring: map<Hash, string>, known: set<string>, live: set<string>, points: Points)
    requires SeparatePoints(known, points) && live <= known && RingOf(ring, live, points)
    ensures ring == map[] <==> live == {}
  {
    if live != {} {
      var b :| b in live;
      assert points(b)[0] in ring;
    }
  }

  /* Handlers that see the same brokers alive send every job of one metatile and style to one broker,
     however they came to see them. */
  lemma SameMetatileSameBroker(r1: map<Hash, string>, r2: map<Hash, string>, known: set<string>, live: set<string>,
                               points: Points, hash: Key -> Hash, s: Tile, t: Tile)
    requires SeparatePoints(known, points) && live <= known && RingOf(r1, live, points) && RingOf(r2, live, points)
    requires s.style == t.style && s.z == t.z && Align(s.x) == Align(t.x) && Align(s.y) == Align(t.y)
    ensures Owner(r1, hash(MetaKey(s))) == Owner(r2, hash(MetaKey(t)))
    ensures Owner(r1, hash(MetaKey(s))).Some? <==> live != {}
    ensures Owner(r1, hash(MetaKey(s))).Some? ==> Owner(r1, hash(MetaKey(s))).value in live
  {
    RingUnique(r1, r2, known, live, points);
    RingEmptyIff(r1, known, live, points);
    OwnerInRing(r1, hash(MetaKey(s)));
  }

  lemma OwnerInRing(ring: map<Hash, string>, h: Hash)
    ensures Owner(ring, h).Some? ==> exists p :: p in ring && ring[p] == Owner(ring, h).value
  {
    if ring != map[] {
      SuccessorExists(ring, h);
      var p :| Successor(ring, h, p);
      OwnerIs(ring, h, p);
    }
  }

  /* ---- queue length ---- */

  function LiveSize(hb: Heartbeat): nat {
    if hb.isLive then hb.queueSize else 0
  }

  // What a sum is in 64 bits.
  function Wrapped(n: nat): (r: nat)
    ensures r <= MAX_SIZE
  {
    n % (MAX_SIZE + 1)
  }

  lemma WrappedZero()
    ensures Wrapped(0) == 0
  {
  }

  // The mean advertised queue length of the live brokers, in 64-bit arithmetic.
  ghost function QueueLengthAt(hbs: map<string, Heartbeat>, settle: Option<int>, now: int): (n: nat)
    ensures n <= MAX_SIZE
    ensures Settling(settle, now) ==> n == MAX_SIZE
  {
    if Settling(settle, now) then MAX_SIZE
    else if LiveSet(hbs) == {} then 0
    else
      var total := Wrapped(Total(hbs, LiveSize));
      QuotientAtMost(total, |LiveSet(hbs)|);
      total / |LiveSet(hbs)|
  }

  lemma QuotientAtMost(a: nat, b: nat)
    requires b > 0
    ensures a / b <= a
  {
    FactorAtMost(a / b, b);
  }

  lemma {:induction false} FactorAtMost(q: nat, b: nat)
    requires b > 0
    ensures q <= b * q
  {
    if b > 1 { FactorAtMost(q, b - 1); }
  }

  /* After settling it is the mean of the queue lengths that the live brokers have told, rounded down, as long as their
     sum is a 64-bit number; and 0 when none is alive. */
  lemma QueueLengthIsMean(hbs: map<string, Heartbeat>, settle: Option<int>, now: int)
    requires settle.None? || settle.value < now
    ensures var n, live, sum := QueueLengthAt(hbs, settle, now), |LiveSet(hbs)|, Total(hbs, LiveSize);
      && (live == 0 ==> n == 0)
      && (live > 0 && sum <= MAX_SIZE ==> n * live <= sum < (n + 1) * live)
  {
    var live, sum := |LiveSet(hbs)|, Total(hbs, LiveSize);
    if live > 0 && sum <= MAX_SIZE {
      MeanBounds(sum, live);
    }
  }

  // The sum counts each live broker's length once, and nothing else.
  lemma LiveTotalSplits(hbs: map<string, Heartbeat>, b: string)
    requires b in hbs
    ensures Total(hbs, LiveSize) == Total(hbs - {b}, LiveSize) + if hbs[b].isLive then hbs[b].queueSize else 0
    ensures Total<string, Heartbeat>(map[], LiveSize) == 0
  {
    TotalRemove(hbs, LiveSize, b);
  }

  lemma MeanBounds(sum: nat, count: nat)
    requires count > 0
    ensures sum / count * count <= sum < (sum / count + 1) * count
  {
  }

  lemma AddWraps(total: nat, n: nat)
    ensures Wrapped(Wrapped(total) + n) == Wrapped(total + n)
  {
  }

  /* ---- the backend ---- */

  datatype SendResult = Sent(broker: string) | StillSettling | NoBrokers

  // The live brokers that are no longer to be counted.
  ghost function Counted(hbs: map<string, Heartbeat>, rest: map<string, Heartbeat>): set<string> {
    set b | b in LiveSet(hbs) && b !in rest
  }

  lemma CountedNext(hbs: map<string, Heartbeat>, rest: map<string, Heartbeat>, b: string)
    requires b in rest && b in hbs
    ensures |Counted(hbs, rest - {b})| == |Counted(hbs, rest)| + if hbs[b].isLive then 1 else 0
  {
    if hbs[b].isLive {
      assert Counted(hbs, rest - {b}) == Counted(hbs, rest) + {b};
    } else {
      assert Counted(hbs, rest - {b}) == Counted(hbs, rest);
    }
  }

  lemma CountedAll(hbs: map<string, Heartbeat>)
    ensures Counted(hbs, hbs) == {} && Counted(hbs, map[]) == LiveSet(hbs)
  {
  }

  // The loop over the heartbeats; the sum is kept in 64 bits.
  method LiveTotals(hbs: map<string, Heartbeat>) returns (count: nat, size: nat)
    ensures count == |LiveSet(hbs)| && size == Wrapped(Total(hbs, LiveSize))
  {
    WrappedZero();
    CountedAll(hbs);
    TotalOfNone(LiveSize);
    hide Total, Wrapped, Counted;
    count, size := 0, 0;
    ghost var total: nat := 0;
    var rest := hbs;
    while rest != map[]
      invariant forall b :: b in rest ==> b in hbs && rest[b] == hbs[b]
      invariant count == |Counted(hbs, rest)|
      invariant total + Total(rest, LiveSize) == Total(hbs, LiveSize) && size == Wrapped(total)
      decreases rest
    {
      var b :| b in rest;
      TotalRemove(rest, LiveSize, b);
      CountedNext(hbs, rest, b);
      rest := rest - {b};
      if hbs[b].isLive {
        count := count + 1;
        AddWraps(total, hbs[b].queueSize);
        total := total + hbs[b].queueSize;
        size := Wrapped(size + hbs[b].queueSize);
      }
    }
  }

  lemma TotalOfNone(size: Heartbeat -> nat)
    ensures Total<string, Heartbeat>(map[], size) == 0
  {
  }

  class Backend {
    ghost const known: set<string>
    const hash: Key -> Hash
    const livenessTime: int
    const router: ConsistentHash<string>
    var heartbeats: map<string, Heartbeat>
    var settleTime: Option<int>
    var outbox: seq<(string, Tile)>

    // The ring agrees with the liveness table.
    ghost predicate Valid()
      reads this, router
    {
      && SeparatePoints(known, router.points)
      && heartbeats.Keys <= known
      && RingOf(router.ring, LiveSet(heartbeats), router.points)
    }

    constructor (ghost known: set<string>, points: Points, hash: Key -> Hash, livenessTime: int,
                 settleTime: Option<int>)
      requires SeparatePoints(known, points)
      ensures Valid() && fresh(router) && this.known == known && router.points == points && this.hash == hash
      ensures this.livenessTime == livenessTime && heartbeats == map[] && this.settleTime == settleTime && outbox == []
    {
      this.known, this.hash, this.livenessTime := known, hash, livenessTime;
      router := new ConsistentHash<string>(points);
      heartbeats, outbox := map[], [];
      this.settleTime := settleTime;
    }

    // A heartbeat does not change who the ring considers alive.
    method UpdateHeartbeat(b: string, queueSize: nat, now: int)
      requires Valid() && b in known
      modifies this`heartbeats
      ensures Valid()
      ensures heartbeats == old(heartbeats)[b := Heartbeat(now, queueSize, b in LiveSet(old(heartbeats)))]
      ensures LiveSet(heartbeats) == LiveSet(old(heartbeats))
    {
      var live := b in heartbeats && heartbeats[b].isLive;
      heartbeats := heartbeats[b := Heartbeat(now, queueSize, live)];
      assert LiveSet(heartbeats) == LiveSet(old(heartbeats));
    }

    method UpdateLiveBrokers(now: int)
      requires Valid()
      modifies this`heartbeats, router
      ensures Valid() && heartbeats == Judged(old(heartbeats), now, livenessTime)
      ensures forall b :: b in heartbeats ==> (heartbeats[b].isLive <==> now - heartbeats[b].time < livenessTime)
    {
      ghost var before := heartbeats;
      var rest := heartbeats.Keys;
      while rest != {}
        invariant rest <= before.Keys && heartbeats.Keys == before.Keys
        invariant Valid()
        invariant forall b :: b in before ==>
          heartbeats[b] == if b in rest then before[b] else before[b].(isLive := Recent(before[b], now, livenessTime))
      {
        var b :| b in rest;
        rest := rest - {b};
        JudgeBroker(b, now);
      }
    }

    method JudgeBroker(b: string, now: int)
      requires Valid() && b in heartbeats
      modifies this`heartbeats, router
      ensures Valid()
      ensures var hb := old(heartbeats)[b];
        heartbeats == old(heartbeats)[b := hb.(isLive := Recent(hb, now, livenessTime))]
    {
      var hb := heartbeats[b];
      var isLive := now - hb.time < livenessTime;
      ghost var live := LiveSet(heartbeats);
      if isLive && !hb.isLive {
        RingInsert(router.ring, known, live, router.points, b);
        router.Insert(b);
        heartbeats := heartbeats[b := hb.(isLive := true)];
        assert LiveSet(heartbeats) == live + {b};
      }
      if !isLive && hb.isLive {
        RingErase(router.ring, known, live, router.points, b);
        router.Erase(b);
        heartbeats := heartbeats[b := hb.(isLive := false)];
        assert LiveSet(heartbeats) == live - {b};
      }
    }

    // The mutating check agrees with the const one, and the end of settling is remembered. The clock is read once
    // more, as `next`, to see who is alive then.
    method SettleCheck(now: int, next: int) returns (settling: bool)
      requires Valid()
      modifies this`heartbeats, this`settleTime, router
      ensures Valid() && (settling <==> old(settleTime).Some? && now <= old(settleTime).value)
      ensures settling ==> settleTime == old(settleTime) && heartbeats == old(heartbeats)
      ensures !settling ==> settleTime == None
      ensures !settling && old(settleTime).Some? ==> heartbeats == Judged(old(heartbeats), next, livenessTime)
      ensures old(settleTime).None? ==> heartbeats == old(heartbeats)
    {
      settling := false;
      if settleTime.Some? {
        if settleTime.value < now {
          UpdateLiveBrokers(next);
          settleTime := None;
        } else {
          settling := true;
        }
      }
    }

    /* Sends a job to the broker that owns its metatile: one whose heartbeat is recent. It fails exactly
       when the handler is still settling or no broker's heartbeat is recent. The clock is read when settling is
       checked, when it is found to have ended, and when the brokers are judged. */
    method Send(job: Tile, now: int, next: int, last: int) returns (r: SendResult)
      requires Valid()
      modifies this, router
      ensures Valid()
      ensures r.StillSettling? <==> old(settleTime).Some? && now <= old(settleTime).value
      ensures r.NoBrokers? <==>
        && !(old(settleTime).Some? && now <= old(settleTime).value)
        && forall b :: b in old(heartbeats) ==> last - old(heartbeats)[b].time >= livenessTime
      ensures r.Sent? ==> r.broker in old(heartbeats) && last - old(heartbeats)[r.broker].time < livenessTime
      ensures r.Sent? ==> Owner(router.ring, hash(MetaKey(job))) == Some(r.broker)
      ensures !r.StillSettling? ==> heartbeats == Judged(old(heartbeats), last, livenessTime) && settleTime == None
      ensures outbox == old(outbox) + if r.Sent? then [(r.broker, job)] else []
    {
      var settling := SettleCheck(now, next);
      if settling {
        return StillSettling;
      }
      UpdateLiveBrokers(last);
      JudgedAgain(old(heartbeats), next, last, livenessTime);
      ghost var live := LiveSet(heartbeats);
      JudgedLive(old(heartbeats), last, livenessTime);
      var b := router.Lookup(hash(MetaKey(job)));
      RingEmptyIff(router.ring, known, live, router.points);
      OwnerInRing(router.ring, hash(MetaKey(job)));
      if b.Some? {
        outbox := outbox + [(b.value, job)];
        r := Sent(b.value);
      } else {
        r := NoBrokers;
      }
    }

    method QueueLength(now: int) returns (n: nat)
      ensures n == QueueLengthAt(heartbeats, settleTime, now)
      ensures settleTime.Some? && now <= settleTime.value ==> n == MAX_SIZE
    {
      if settleTime.Some? && settleTime.value >= now {
        return MAX_SIZE;
      }
      var count, size := LiveTotals(heartbeats);
      n := if count == 0 then 0 else size / count;
    }
  }
}
