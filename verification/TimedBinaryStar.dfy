/**
 The redundant pair with its clocks. A server's silence timer is set by the heartbeats it receives, so it cannot
 run out on a live master whose heartbeats get through often and soon enough.
 */
module TimedBinaryStar {
  import opened BinaryStar

  // A server's times: when it started, when it last sent a heartbeat (or started), when the last one that it
  // received had been sent, and when its silence timer runs out.
  datatype Clock = Clock(started: int, sent: int, heard: int, peerExpiry: int)

  // `pbTimes` and `bpTimes` hold the times at which the heartbeats under way were sent.
  datatype Timed = Timed(pair: Pair, now: int, p: Clock, b: Clock, pbTimes: seq<int>, bpTimes: seq<int>)

  function ClockOf(s: Timed, side: Side): Clock {
    if side == PrimarySide then s.p else s.b
  }

  function PutClock(s: Timed, side: Side, c: Clock): Timed {
    if side == PrimarySide then s.(p := c) else s.(b := c)
  }

  // The times of the heartbeats under way to a server.
  function InTimes(s: Timed, side: Side): seq<int> {
    if side == PrimarySide then s.bpTimes else s.pbTimes
  }

  function PutInTimes(s: Timed, side: Side, times: seq<int>): Timed {
    if side == PrimarySide then s.(bpTimes := times) else s.(pbTimes := times)
  }

  /* At time t a step is taken. A heartbeat that gets lost is not sent as far as this system is concerned, and
     whether a client's request finds the timer run out is not a choice. */
  predicate CanStep(s: Timed, t: int, a: Action) {
    && t >= s.now && CanDo(s.pair, a) && !a.Lose?
    && (a.Receive? ==> InTimes(s, a.side) != [])
    && (a.Client? ==> a.expired == (t >= ClockOf(s, a.side).peerExpiry))
  }

  function Step(s: Timed, t: int, a: Action): Timed
    requires CanStep(s, t, a)
  {
    var pair := Do(s.pair, a);
    var s' := s.(pair := pair, now := t);
    if At(pair, a.side).Down? then s'.(pbTimes := [], bpTimes := [])
    else
      var c := ClockOf(s, a.side);
      match a
      case Publish(side) => PutInTimes(PutClock(s', side, c.(sent := t)), Other(side), InTimes(s, Other(side)) + [t])
      case Receive(side) =>
        var c' := c.(heard := InTimes(s, side)[0], peerExpiry := t + 2 * HEARTBEAT);
        PutInTimes(PutClock(s', side, c'), side, InTimes(s, side)[1..])
      case Restart(side) => PutClock(s', side, c.(started := t, sent := t))
      case _ => s'
  }

  // The oldest heartbeat under way to a running server is no older than `delay`, counted from when it was sent or,
  // if that is later, from when the server started.
  predicate Delivered(times: seq<int>, receiver: Clock, t: int, delay: nat) {
    times != [] ==> t <= (if times[0] < receiver.started then receiver.started else times[0]) + delay
  }

  /* The environment's part, at every step: a running server's heartbeats get through at least every `period`, and
     a heartbeat under way to a running server has arrived within `delay`. */
  predicate Timely(s: Timed, t: int, period: nat, delay: nat) {
    && (s.pair.p.Up? ==> t <= s.p.sent + period && Delivered(s.bpTimes, s.p, t, delay))
    && (s.pair.b.Up? ==> t <= s.b.sent + period && Delivered(s.pbTimes, s.b, t, delay))
  }

  /* ---- the invariant ---- */

  // The heartbeats under way from a running server were sent at most `period` apart, the last one last.
  ghost predicate Steady(times: seq<int>, sent: int, now: int, period: nat) {
    && (forall i :: 0 <= i < |times| - 1 ==> times[i] <= times[i + 1] <= times[i] + period)
    && (times != [] ==> times[|times| - 1] == sent) && sent <= now
  }

  // A slave's timer runs from a heartbeat that is followed closely by the one to arrive next.
  ghost predicate Followed(slave: Clock, times: seq<int>, masterSent: int, period: nat) {
    && slave.peerExpiry >= slave.heard + 2 * HEARTBEAT && slave.peerExpiry >= slave.started + 2 * HEARTBEAT
    && if times == [] then masterSent == slave.heard else times[0] <= slave.heard + period
  }

  ghost predicate Watched(s: Timed, side: Side, period: nat) {
    At(s.pair, side) == Up(Passive) && At(s.pair, Other(side)) == Up(Active) ==>
      Followed(ClockOf(s, side), InTimes(s, side), ClockOf(s, Other(side)).sent, period)
  }

  ghost predicate TimedInv(s: Timed, period: nat) {
    && Inv(s.pair) && |s.pbTimes| == |s.pair.pb| && |s.bpTimes| == |s.pair.bp|
    && (s.pair.p.Up? ==> s.p.started <= s.now && Steady(s.pbTimes, s.p.sent, s.now, period))
    && (s.pair.b.Up? ==> s.b.started <= s.now && Steady(s.bpTimes, s.b.sent, s.now, period))
    && Watched(s, PrimarySide, period) && Watched(s, BackupSide, period)
  }

  // A slave's timer does not run out on a live master.
  lemma NoSplit(s: Timed, t: int, a: Action, period: nat, delay: nat)
    requires TimedInv(s, period) && CanStep(s, t, a) && Timely(s, t, period, delay)
    requires period + delay < 2 * HEARTBEAT
    ensures !SplitBrain(s.pair, a)
  {
    hide Inv, Steady;
  }

  // While one server is a slave the other does not become the master.
  lemma NoNewMaster(s: Pair, a: Action, side: Side)
    requires Inv(s) && CanDo(s, a) && At(s, side) == Up(Passive) && At(s, Other(side)) != Up(Active)
    requires At(Do(s, a), side) == Up(Passive)
    ensures At(Do(s, a), Other(side)) != Up(Active)
  {
    if a.Receive? && a.side == Other(side) {
      var ch := Inbox(s, a.side);
      assert ch[0] in ch;
    }
  }

  /* ---- every step keeps it ---- */

  lemma SteadyNext(times: seq<int>, sent: int, now: int, t: int, period: nat)
    requires Steady(times, sent, now, period) && now <= t <= sent + period
    ensures Steady(times + [t], t, t, period)
  {
  }

  lemma SteadyRest(times: seq<int>, sent: int, now: int, period: nat)
    requires Steady(times, sent, now, period) && times != []
    ensures Steady(times[1..], sent, now, period) && times[0] <= sent
    ensures if times[1..] == [] then sent == times[0] else times[1..][0] <= times[0] + period
  {
    SteadyFirst(times, sent, now, period);
  }

  lemma {:induction false} SteadyFirst(times: seq<int>, sent: int, now: int, period: nat)
    requires Steady(times, sent, now, period) && times != []
    ensures times[0] <= sent
  {
    if |times| > 1 {
      var rest := times[1..];
      assert forall i :: 0 <= i < |rest| ==> rest[i] == times[i + 1];
      SteadyFirst(rest, sent, now, period);
    }
  }

  // The pair's own invariant, and who can be a slave of whom.
  lemma PairKeeps(s: Timed, t: int, a: Action, period: nat, delay: nat)
    requires TimedInv(s, period) && CanStep(s, t, a) && Timely(s, t, period, delay)
    requires period + delay < 2 * HEARTBEAT
    ensures Inv(Do(s.pair, a)) && !BothActive(Do(s.pair, a)) && !FatalReceive(s.pair, a)
  {
    hide Inv, Steady, Watched, Do;
    NoSplit(s, t, a, period, delay);
    StepKeeps(s.pair, a);
  }

  // A server that stops leaves the other one with nothing under way and without a slave.
  lemma StopKeeps(s: Timed, t: int, a: Action, period: nat)
    requires TimedInv(s, period) && CanStep(s, t, a) && Inv(Do(s.pair, a)) && At(Do(s.pair, a), a.side).Down?
    ensures TimedInv(Step(s, t, a), period)
  {
  }

  lemma PublishKeeps(s: Timed, t: int, side: Side, period: nat, delay: nat)
    requires TimedInv(s, period) && CanStep(s, t, Publish(side)) && Timely(s, t, period, delay)
    requires Inv(Do(s.pair, Publish(side)))
    ensures TimedInv(Step(s, t, Publish(side)), period)
  {
    var times, c := InTimes(s, Other(side)), ClockOf(s, side);
    SteadyNext(times, c.sent, s.now, t, period);
    SteadyLater(InTimes(s, side), ClockOf(s, Other(side)).sent, s.now, t, period);
    hide Inv, Steady;
  }

  lemma SteadyLater(times: seq<int>, sent: int, now: int, t: int, period: nat)
    requires now <= t
    ensures Steady(times, sent, now, period) ==> Steady(times, sent, t, period)
  {
  }

  lemma ReceiveKeeps(s: Timed, t: int, side: Side, period: nat)
    requires TimedInv(s, period) && CanStep(s, t, Receive(side)) && Inv(Do(s.pair, Receive(side)))
    requires At(Do(s.pair, Receive(side)), side).Up?
    ensures TimedInv(Step(s, t, Receive(side)), period)
  {
    var a := Receive(side);
    var times, peer := InTimes(s, side), ClockOf(s, Other(side));
    hide Inv, Steady;
    SenderIsUp(s.pair, side);
    SteadyRest(times, peer.sent, s.now, period);
    SteadyLater(times[1..], peer.sent, s.now, t, period);
    SteadyLater(InTimes(s, Other(side)), ClockOf(s, side).sent, s.now, t, period);
    if At(s.pair, Other(side)) == Up(Passive) && At(s.pair, side) != Up(Active) {
      NoNewMaster(s.pair, a, Other(side));
    }
  }

  lemma SenderIsUp(s: Pair, side: Side)
    requires Inv(s) && Inbox(s, side) != []
    ensures At(s, Other(side)).Up?
  {
  }

  lemma RestartKeeps(s: Timed, t: int, side: Side, period: nat)
    requires TimedInv(s, period) && CanStep(s, t, Restart(side)) && Inv(Do(s.pair, Restart(side)))
    ensures TimedInv(Step(s, t, Restart(side)), period)
  {
    SteadyLater(InTimes(s, side), ClockOf(s, Other(side)).sent, s.now, t, period);
    assert InTimes(s, Other(side)) == [];
  }

  lemma ClientKeeps(s: Timed, t: int, side: Side, expired: bool, period: nat)
    requires var a := Client(side, expired);
      TimedInv(s, period) && CanStep(s, t, a) && Inv(Do(s.pair, a)) && At(Do(s.pair, a), side).Up?
    ensures TimedInv(Step(s, t, Client(side, expired)), period)
  {
    hide Inv, Steady;
    SteadyLater(s.pbTimes, s.p.sent, s.now, t, period);
    SteadyLater(s.bpTimes, s.b.sent, s.now, t, period);
    if At(s.pair, Other(side)) == Up(Passive) && At(s.pair, side) != Up(Active) {
      NoNewMaster(s.pair, Client(side, expired), Other(side));
    }
  }

  lemma TimedStepKeeps(s: Timed, t: int, a: Action, period: nat, delay: nat)
    requires TimedInv(s, period) && CanStep(s, t, a) && Timely(s, t, period, delay)
    requires period + delay < 2 * HEARTBEAT
    ensures TimedInv(Step(s, t, a), period) && !SplitBrain(s.pair, a) && !FatalReceive(s.pair, a)
  {
    NoSplit(s, t, a, period, delay);
    PairKeeps(s, t, a, period, delay);
    hide TimedInv, Step, Inv, Timely;
    if At(Do(s.pair, a), a.side).Down? {
      StopKeeps(s, t, a, period);
    } else {
      match a
      case Publish(side) => PublishKeeps(s, t, side, period, delay);
      case Receive(side) => ReceiveKeeps(s, t, side, period);
      case Client(side, expired) => ClientKeeps(s, t, side, expired, period);
      case Restart(side) => RestartKeeps(s, t, side, period);
      case _ =>
    }
  }

  /* ---- runs ---- */

  datatype Event = Event(time: int, action: Action)

  predicate TimelyRun(s: Timed, run: seq<Event>, period: nat, delay: nat)
    decreases |run|
  {
    run == [] ||
    (CanStep(s, run[0].time, run[0].action) && Timely(s, run[0].time, period, delay)
    && TimelyRun(Step(s, run[0].time, run[0].action), run[1..], period, delay))
  }

  function TimedAfter(s: Timed, run: seq<Event>, period: nat, delay: nat): Timed
    requires TimelyRun(s, run, period, delay)
    decreases |run|
  {
    if run == [] then s else TimedAfter(Step(s, run[0].time, run[0].action), run[1..], period, delay)
  }

  // Both servers have just started, at time `t`.
  function TimedStart(t: int, heard: int, expiry: int): Timed {
    Timed(Start(), t, Clock(t, t, heard, expiry), Clock(t, t, heard, expiry), [], [])
  }

  lemma {:induction false} TimedRunKeeps(s: Timed, run: seq<Event>, period: nat, delay: nat)
    requires TimedInv(s, period) && TimelyRun(s, run, period, delay) && period + delay < 2 * HEARTBEAT
    ensures TimedInv(TimedAfter(s, run, period, delay), period)
    decreases |run|
  {
    if run != [] {
      hide TimedInv, CanStep, Step, Timely;
      TimedStepKeeps(s, run[0].time, run[0].action, period, delay);
      TimedRunKeeps(Step(s, run[0].time, run[0].action), run[1..], period, delay);
    }
  }

  /* If a running server's heartbeats get through at least every `period` and within `delay`, which together are
     less than two heartbeat intervals, then over every run of crashes, restarts and client requests, with whatever
     the timers are at first, the two servers are never both masters or both slaves. */
  lemma TimedMutualExclusion(t: int, heard: int, expiry: int, run: seq<Event>, period: nat, delay: nat)
    requires TimelyRun(TimedStart(t, heard, expiry), run, period, delay) && period + delay < 2 * HEARTBEAT
    ensures var end := TimedAfter(TimedStart(t, heard, expiry), run, period, delay).pair;
      !BothActive(end) && !BothPassive(end)
  {
    TimedRunKeeps(TimedStart(t, heard, expiry), run, period, delay);
  }

  /* ---- taking over ---- */

  /* A slave answers clients exactly from two heartbeat intervals after the last heartbeat that it took, and then as
     the master. */
  lemma SlaveTakesOver(s: Timed, t0: int, side: Side, s': Timed, t: int, expired: bool)
    requires CanStep(s, t0, Receive(side)) && At(Do(s.pair, Receive(side)), side) == Up(Passive)
    requires ClockOf(s', side) == ClockOf(Step(s, t0, Receive(side)), side) && At(s'.pair, side) == Up(Passive)
    requires CanStep(s', t, Client(side, expired))
    ensures expired <==> t >= t0 + 2 * HEARTBEAT
    ensures At(Step(s', t, Client(side, expired)).pair, side) == if t >= t0 + 2 * HEARTBEAT then Up(Active) else Down
  {
  }
}
