/** The worker's communicator thread: gets jobs from brokers for a worker and returns their results. */
module Communicators {
  import opened Tiles

  const INT_MIN := -0x8000_0000

  // The conversion of an unsigned wire value to a signed 32-bit integer.
  function ToInt32(n: nat): int {
    var m := n % 0x1_0000_0000;
    if m >= 0x8000_0000 then m - 0x1_0000_0000 else m
  }

  lemma ToInt32Is(n: nat)
    ensures -0x8000_0000 <= ToInt32(n) < 0x8000_0000 && (n - ToInt32(n)) % 0x1_0000_0000 == 0
  {
  }

  datatype BrokerStatus = BrokerStatus(maxPriority: int, queueLength: int)

  // By priority first, then by queue length.
  predicate Better(a: BrokerStatus, b: BrokerStatus) {
    a.maxPriority > b.maxPriority || (a.maxPriority == b.maxPriority && a.queueLength > b.queueLength)
  }

  const WORST := BrokerStatus(INT_MIN, INT_MIN)

  type Brokers = map<string, BrokerStatus>

  // A best broker, or none when none is better than the worst possible status.
  ghost predicate Picks(brokers: Brokers, pick: Option<string>) {
    if pick.Some? then
      && pick.value in brokers && Better(brokers[pick.value], WORST)
      && forall b :: b in brokers ==> !Better(brokers[b], brokers[pick.value])
    else forall b :: b in brokers ==> !Better(brokers[b], WORST)
  }

  /* ---- what each event does ---- */

  datatype State = Idle | Waiting | Trying | Processing

  datatype Comm = Comm(state: State, current: Option<string>, brokers: Brokers)

  datatype Out = GetJob(broker: string) | Result(broker: string, tile: Tile)

  // `impossible` marks the branches that the code comments as impossible.
  datatype Effect = Effect(comm: Comm, out: seq<Out>, job: Option<Tile>, impossible: bool)

  function Quiet(c: Comm): Effect {
    Effect(c, [], None, false)
  }

  function Try(c: Comm, pick: Option<string>): Effect {
    if pick.Some? then Effect(c.(current := pick, state := Trying), [GetJob(pick.value)], None, false)
    else Quiet(c.(current := None, state := Waiting))
  }

  // The table from which the next broker is picked after each event.
  function Without(c: Comm, b: Option<string>): Comm {
    if b.Some? then c.(brokers := c.brokers - {b.value}) else c
  }

  function OnTimeout(c: Comm, pick: Option<string>): Effect {
    if c.state == Trying then Try(Without(c, c.current), pick) else Quiet(c)
  }

  function OnJob(c: Comm, b: string, tile: Tile): Effect {
    if c.state == Trying && c.current == Some(b) then Effect(c.(state := Processing), [], Some(tile), false)
    else Quiet(c)
  }

  function OnNoJobs(c: Comm, b: string, pick: Option<string>): Effect {
    var c' := Without(c, Some(b));
    if c.state == Trying then Try(c', pick) else Quiet(c')
  }

  function OnAnnounce(c: Comm, b: string, status: BrokerStatus, pick: Option<string>): Effect {
    var c' := c.(brokers := c.brokers[b := status]);
    if c.state == Waiting then Try(c', pick) else Quiet(c')
  }

  function OnNotify(c: Comm, tile: Tile): Effect {
    if c.state == Processing && c.current.Some? then
      Effect(c.(current := None, state := Idle), [Result(c.current.value, tile)], None, false)
    else Effect(c, [], None, true)
  }

  function OnAsk(c: Comm, pick: Option<string>): Effect {
    if c.state == Idle then Try(c, pick) else Effect(c, [], None, true)
  }

  class TaskCommunicator {
    var state: State
    var currentBroker: Option<string>
    var brokersWithJobs: Brokers
    var toBrokers: seq<Out>
    var toWorker: seq<Tile>
    var impossible: bool

    ghost function View(): Comm
      reads this
    {
      Comm(state, currentBroker, brokersWithJobs)
    }

    // The object has changed as an effect says.
    twostate predicate Did(e: Effect)
      reads this
    {
      && View() == e.comm
      && toBrokers == old(toBrokers) + e.out
      && toWorker == old(toWorker) + (if e.job.Some? then [e.job.value] else [])
      && impossible == (old(impossible) || e.impossible)
    }

    constructor ()
      ensures View() == Comm(Idle, None, map[]) && toBrokers == [] && toWorker == [] && !impossible
    {
      state, currentBroker, brokersWithJobs, toBrokers, toWorker, impossible := Idle, None, map[], [], [], false;
    }

    method HighestPriorityBroker() returns (pick: Option<string>)
      ensures Picks(brokersWithJobs, pick)
    {
      pick := None;
      var best := WORST;
      var rest := brokersWithJobs.Keys;
      while rest != {}
        invariant rest <= brokersWithJobs.Keys
        invariant best == if pick.Some? && pick.value in brokersWithJobs then brokersWithJobs[pick.value] else WORST
        invariant pick.Some? ==> pick.value in brokersWithJobs && Better(best, WORST)
        invariant forall b :: b in brokersWithJobs && b !in rest ==> !Better(brokersWithJobs[b], best)
      {
        var b :| b in rest;
        rest := rest - {b};
        if Better(brokersWithJobs[b], best) {
          best := brokersWithJobs[b];
          pick := Some(b);
        }
      }
    }

    method TryToGetJob() returns (ghost pick: Option<string>)
      modifies this
      ensures Picks(brokersWithJobs, pick) && Did(Try(old(View()), pick))
    {
      currentBroker := HighestPriorityBroker();
      pick := currentBroker;
      if currentBroker.Some? {
        toBrokers := toBrokers + [GetJob(currentBroker.value)];
        state := Trying;
      } else {
        state := Waiting;
      }
    }

    method HandleTimeout() returns (ghost pick: Option<string>)
      modifies this
      ensures Did(OnTimeout(old(View()), pick)) && (old(state) == Trying ==> Picks(brokersWithJobs, pick))
    {
      pick := None;
      if state == Trying {
        if currentBroker.Some? {
          brokersWithJobs := brokersWithJobs - {currentBroker.value};
        }
        pick := TryToGetJob();
      }
    }

    method HandleJob(b: string, tile: Tile)
      modifies this
      ensures Did(OnJob(old(View()), b, tile))
    {
      if state == Trying && currentBroker == Some(b) {
        toWorker := toWorker + [tile];
        currentBroker := Some(b);
        state := Processing;
      }
    }

    method HandleNoJobs(b: string) returns (ghost pick: Option<string>)
      modifies this
      ensures Did(OnNoJobs(old(View()), b, pick)) && (old(state) == Trying ==> Picks(brokersWithJobs, pick))
    {
      pick := None;
      brokersWithJobs := brokersWithJobs - {b};
      if state == Trying {
        pick := TryToGetJob();
      }
    }

    method HandleAnnounce(b: string, maxPriority: nat, queueSize: nat) returns (ghost pick: Option<string>)
      modifies this
      ensures Did(OnAnnounce(old(View()), b, BrokerStatus(ToInt32(maxPriority), ToInt32(queueSize)), pick))
      ensures old(state) == Waiting ==> Picks(brokersWithJobs, pick)
    {
      pick := None;
      brokersWithJobs := brokersWithJobs[b := BrokerStatus(ToInt32(maxPriority), ToInt32(queueSize))];
      if state == Waiting {
        pick := TryToGetJob();
      }
    }

    method HandleNotify(tile: Tile)
      modifies this
      ensures Did(OnNotify(old(View()), tile))
    {
      if state == Processing && currentBroker.Some? {
        toBrokers := toBrokers + [Result(currentBroker.value, tile)];
        currentBroker := None;
        state := Idle;
      } else {
        impossible := true;
      }
    }

    method HandleAsk() returns (ghost pick: Option<string>)
      modifies this
      ensures Did(OnAsk(old(View()), pick)) && (old(state) == Idle ==> Picks(brokersWithJobs, pick))
    {
      pick := None;
      if state == Idle {
        pick := TryToGetJob();
      } else {
        impossible := true;
      }
    }
  }

  /* ---- which broker is asked ---- */

  // The broker whose announced priority is highest, or its queue longest among equals, is asked next.
  ghost predicate AsksBest(e: Effect) {
    if e.out == [] then e.comm.state == Waiting && forall b :: b in e.comm.brokers ==> !Better(e.comm.brokers[b], WORST)
    else
      && |e.out| == 1 && e.out[0].GetJob? && e.out[0].broker in e.comm.brokers
      && e.comm.state == Trying && e.comm.current == Some(e.out[0].broker)
      && forall b :: b in e.comm.brokers ==>
        var best, other := e.comm.brokers[e.out[0].broker], e.comm.brokers[b];
        && other.maxPriority <= best.maxPriority
        && (other.maxPriority == best.maxPriority ==> other.queueLength <= best.queueLength)
  }

  // An announcement replaces what was known of its broker; a waiting worker's request then goes to the best.
  lemma AnnouncementIsTried(c: Comm, b: string, status: BrokerStatus, pick: Option<string>)
    requires Picks(c.brokers[b := status], pick)
    ensures OnAnnounce(c, b, status, pick).comm.brokers == c.brokers[b := status]
    ensures c.state == Waiting ==> AsksBest(OnAnnounce(c, b, status, pick))
    ensures c.state == Waiting && status.maxPriority > INT_MIN ==> OnAnnounce(c, b, status, pick).out != []
    ensures c.state != Waiting ==> OnAnnounce(c, b, status, pick) == Quiet(c.(brokers := c.brokers[b := status]))
  {
    assert b in c.brokers[b := status] && c.brokers[b := status][b] == status;
  }

  // A broker that does not answer in time is not asked again until it announces itself.
  lemma TimeoutTriesAnother(c: Comm, b: string, pick: Option<string>)
    requires c.state == Trying && c.current == Some(b) && Picks(c.brokers - {b}, pick)
    ensures OnTimeout(c, pick).comm.brokers == c.brokers - {b} && AsksBest(OnTimeout(c, pick))
    ensures OnTimeout(c, pick).comm.current != Some(b)
  {
  }

  // Nor is one that says that it has no jobs.
  lemma RefusalTriesAnother(c: Comm, b: string, pick: Option<string>)
    requires Picks(c.brokers - {b}, pick)
    ensures OnNoJobs(c, b, pick).comm.brokers == c.brokers - {b}
    ensures c.state == Trying ==> AsksBest(OnNoJobs(c, b, pick)) && OnNoJobs(c, b, pick).comm.current != Some(b)
    ensures c.state != Trying ==> OnNoJobs(c, b, pick) == Quiet(c.(brokers := c.brokers - {b}))
  {
  }

  // A worker's request goes to the best broker known.
  lemma AskTriesBest(c: Comm, pick: Option<string>)
    requires c.state == Idle && Picks(c.brokers, pick)
    ensures OnAsk(c, pick).comm.brokers == c.brokers && AsksBest(OnAsk(c, pick))
  {
  }

  // A job from the broker that is tried goes to the worker as it is; any other job is ignored.
  lemma TriedJobIsTaken(c: Comm, b: string, tile: Tile)
    ensures c.state == Trying && c.current == Some(b) ==>
      OnJob(c, b, tile) == Effect(Comm(Processing, Some(b), c.brokers), [], Some(tile), false)
    ensures !(c.state == Trying && c.current == Some(b)) ==> OnJob(c, b, tile) == Effect(c, [], None, false)
  {
  }

  // The worker's tile goes back as it is to the broker that is being worked for, and the worker may ask again.
  lemma ResultIsReturned(c: Comm, b: string, tile: Tile)
    requires c.state == Processing && c.current == Some(b)
    ensures OnNotify(c, tile) == Effect(Comm(Idle, None, c.brokers), [Result(b, tile)], None, false)
  {
  }

  /* ---- the communicator with its worker ---- */

  // A job, and the broker that sent it.
  datatype Supplied = Supplied(tile: Tile, source: string)

  datatype FromWorker = Ask | Notify(tile: Tile)

  // A worker alternates get_job and notify.
  datatype Worker = Ready | Asked | Working(job: Supplied)

  // A RESULT that was sent: where it went, and the tile in it.
  datatype Returned = Returned(sentTo: string, tile: Tile)

  /* `arrived` lists the job messages that have come in from brokers, `delivered` the numbers of those that were passed
     on to the worker, `worked` the jobs that the worker has taken and `notified` the tiles it has given back. */
  datatype Pair = Pair(
    comm: Comm,
    worker: Worker,
    inbox: seq<FromWorker>,
    jobs: seq<Supplied>,
    arrived: seq<Supplied>,
    delivered: seq<nat>,
    worked: seq<Supplied>,
    notified: seq<Tile>,
    returned: seq<Returned>,
    asks: nat,
    impossible: bool)

  function Start(brokers: Brokers): Pair {
    Pair(Comm(Idle, None, brokers), Ready, [], [], [], [], [], [], [], 0, false)
  }

  /* Brokers may send anything at any time: late jobs, stale refusals, announcements. A timeout may come
     at any time. */
  datatype Event =
    | WorkerAsks
    | WorkerTakes
    | WorkerNotifies(tile: Tile)
    | Timeout(pick: Option<string>)
    | JobArrives(broker: string, tile: Tile)
    | NoJobsArrives(broker: string, pick: Option<string>)
    | AnnouncementArrives(broker: string, status: BrokerStatus, pick: Option<string>)
    | WorkerMessage(pick: Option<string>)

  ghost predicate Enabled(s: Pair, e: Event) {
    match e
    case WorkerAsks => s.worker == Ready
    case WorkerTakes => s.worker == Asked && s.jobs != []
    case WorkerNotifies(_) => s.worker.Working?
    case WorkerMessage(_) => s.inbox != []
    case _ => true
  }

  function Applied(s: Pair, e: Effect): Pair {
    s.(comm := e.comm, impossible := s.impossible || e.impossible)
  }

  function Logged(s: Pair, out: seq<Out>): Pair {
    if |out| == 1 && out[0].Result? then s.(returned := s.returned + [Returned(out[0].broker, out[0].tile)]) else s
  }

  function Next(s: Pair, e: Event): Pair
    requires Enabled(s, e)
  {
    match e
    case WorkerAsks => s.(worker := Asked, inbox := s.inbox + [Ask], asks := s.asks + 1)
    case WorkerTakes => s.(worker := Working(s.jobs[0]), jobs := s.jobs[1..], worked := s.worked + [s.jobs[0]])
    case WorkerNotifies(t) => s.(worker := Ready, inbox := s.inbox + [Notify(t)], notified := s.notified + [t])
    case Timeout(pick) => Applied(s, OnTimeout(s.comm, pick))
    case JobArrives(b, t) =>
      var effect := OnJob(s.comm, b, t);
      var s' := Applied(s.(arrived := s.arrived + [Supplied(t, b)]), effect);
      if effect.job.Some? then
        s'.(jobs := s.jobs + [Supplied(effect.job.value, b)], delivered := s.delivered + [|s.arrived|])
      else s'
    case NoJobsArrives(b, pick) => Applied(s, OnNoJobs(s.comm, b, pick))
    case AnnouncementArrives(b, status, pick) => Applied(s, OnAnnounce(s.comm, b, status, pick))
    case WorkerMessage(pick) =>
      var m := s.inbox[0];
      var effect := if m.Ask? then OnAsk(s.comm, pick) else OnNotify(s.comm, m.tile);
      Logged(Applied(s.(inbox := s.inbox[1..]), effect), effect.out)
  }

  // The job message that was passed on as number i.
  ghost predicate WasDelivered(s: Pair, i: nat, j: Supplied) {
    i < |s.delivered| && s.delivered[i] < |s.arrived| && s.arrived[s.delivered[i]] == j
  }

  // Messages are passed on in the order of their arrival, none of them twice.
  ghost predicate InOrder(s: Pair) {
    && (forall i :: 0 <= i < |s.delivered| ==> s.delivered[i] < |s.arrived|)
    && (forall i, j :: 0 <= i < j < |s.delivered| ==> s.delivered[i] < s.delivered[j])
  }

  // What the worker has taken, and what is on its way to it, are the messages that were passed on.
  ghost predicate Delivers(s: Pair) {
    && |s.worked| + |s.jobs| == |s.delivered|
    && (forall i :: 0 <= i < |s.worked| ==> WasDelivered(s, i, s.worked[i]))
    && (forall i :: 0 <= i < |s.jobs| ==> WasDelivered(s, |s.worked| + i, s.jobs[i]))
    && (s.worker.Working? ==> s.worked != [] && s.worker.job == s.worked[|s.worked| - 1])
  }

  // Each result went to the broker that had sent the job, with the tile that the worker gave back for it.
  ghost predicate Returns(s: Pair) {
    && |s.returned| <= |s.notified| <= |s.worked|
    && forall i :: 0 <= i < |s.returned| ==>
      s.returned[i].sentTo == s.worked[i].source && s.returned[i].tile == s.notified[i]
  }

  // The worker has asked, and nobody has a job for it yet.
  ghost predicate WaitsForJob(s: Pair) {
    var n := |s.delivered|;
    s.worker == Asked && s.inbox == [] && s.jobs == [] && |s.returned| == |s.notified| == n && s.asks == n + 1
  }

  // Who has the job, if there is one.
  ghost predicate InStep(s: Pair) {
    var n := |s.delivered|;
    match s.comm.state
    case Idle =>
      && s.jobs == [] && |s.returned| == |s.notified| == n
      && if s.worker == Ready then s.inbox == [] && s.asks == n
         else s.worker == Asked && s.inbox == [Ask] && s.asks == n + 1
    case Waiting => WaitsForJob(s)
    case Trying => WaitsForJob(s)
    case Processing =>
      && n == |s.returned| + 1
      && s.comm.current.Some? && s.delivered[n - 1] < |s.arrived|
      && s.comm.current.value == s.arrived[s.delivered[n - 1]].source
      && match s.worker
         case Working(j) => s.inbox == [] && s.jobs == [] && |s.notified| == n - 1 && s.asks == n
         case Ready => s.jobs == [] && |s.notified| == n && s.inbox == [Notify(s.notified[n - 1])] && s.asks == n
         case Asked =>
           || (s.inbox == [] && |s.jobs| == 1 && |s.notified| == n - 1 && s.asks == n)
           || (s.jobs == [] && |s.notified| == n && s.inbox == [Notify(s.notified[n - 1]), Ask] && s.asks == n + 1)
  }

  ghost predicate Safe(s: Pair) {
    && (s.comm.current.Some? <==> s.comm.state == Trying || s.comm.state == Processing)
    && !s.impossible
    && InOrder(s) && Delivers(s) && Returns(s) && InStep(s)
  }

  lemma WorkerStepSafe(s: Pair, e: Event)
    requires Safe(s) && Enabled(s, e) && (e.WorkerAsks? || e.WorkerTakes? || e.WorkerNotifies?)
    ensures Safe(Next(s, e))
  {
  }

  lemma JobStepSafe(s: Pair, e: Event)
    requires Safe(s) && Enabled(s, e) && e.JobArrives?
    ensures Safe(Next(s, e))
  {
    hide Safe, InOrder, Delivers, Returns, InStep;
    var j := Supplied(e.tile, e.broker);
    ArrivalSafe(s, j);
    if s.comm.state == Trying && s.comm.current == Some(e.broker) {
      SafeTrying(s);
      DeliverySafe(s, j);
      assert s.jobs + [j] == [j];
    }
  }

  // A message that comes in is only logged at first.
  lemma ArrivalSafe(s: Pair, j: Supplied)
    requires Safe(s)
    ensures Safe(s.(arrived := s.arrived + [j]))
  {
    var s' := s.(arrived := s.arrived + [j]);
    assert forall i, k :: WasDelivered(s, i, k) ==> WasDelivered(s', i, k);
  }

  lemma SafeTrying(s: Pair)
    requires Safe(s) && s.comm.state == Trying
    ensures s.jobs == []
  {
  }

  // Then it is passed on.
  lemma DeliverySafe(s: Pair, j: Supplied)
    requires Safe(s) && s.comm.state == Trying && s.comm.current == Some(j.source)
    ensures Safe(s.(comm := s.comm.(state := Processing), arrived := s.arrived + [j], jobs := [j],
                    delivered := s.delivered + [|s.arrived|]))
  {
    var s' := s.(comm := s.comm.(state := Processing), arrived := s.arrived + [j], jobs := [j],
                 delivered := s.delivered + [|s.arrived|]);
    assert forall i, k :: WasDelivered(s, i, k) ==> WasDelivered(s', i, k);
  }

  lemma BrokerStepSafe(s: Pair, e: Event)
    requires Safe(s) && Enabled(s, e) && (e.Timeout? || e.NoJobsArrives? || e.AnnouncementArrives?)
    ensures Safe(Next(s, e))
  {
    hide InOrder, Delivers, Returns, InStep;
    if Next(s, e).comm.state == s.comm.state && Next(s, e).comm.current == s.comm.current {
      TableSafe(s, Next(s, e).comm.brokers);
    } else {
      RetrySafe(s, Next(s, e).comm);
    }
  }

  // What is known of the brokers does not matter for safety.
  lemma TableSafe(s: Pair, brokers: Brokers)
    requires Safe(s)
    ensures Safe(s.(comm := s.comm.(brokers := brokers)))
  {
  }

  // Nor does which broker is being tried, or whether one is.
  lemma RetrySafe(s: Pair, comm: Comm)
    requires Safe(s) && (s.comm.state == Waiting || s.comm.state == Trying)
    requires (comm.state == Trying && comm.current.Some?) || (comm.state == Waiting && comm.current.None?)
    ensures Safe(s.(comm := comm))
  {
  }

  lemma MessageStepSafe(s: Pair, e: Event)
    requires Safe(s) && Enabled(s, e) && e.WorkerMessage?
    ensures Safe(Next(s, e))
  {
  }

  lemma StepSafe(s: Pair, e: Event)
    requires Safe(s) && Enabled(s, e)
    ensures Safe(Next(s, e))
  {
    hide Safe, Next;
    match e
    case WorkerAsks => WorkerStepSafe(s, e);
    case WorkerTakes => WorkerStepSafe(s, e);
    case WorkerNotifies(_) => WorkerStepSafe(s, e);
    case WorkerMessage(_) => MessageStepSafe(s, e);
    case JobArrives(_, _) => JobStepSafe(s, e);
    case _ => BrokerStepSafe(s, e);
  }

  ghost predicate IsRun(states: seq<Pair>, events: seq<Event>, brokers: Brokers) {
    && |states| == |events| + 1 && states[0] == Start(brokers)
    && forall j :: 0 <= j < |events| ==> Enabled(states[j], events[j]) && states[j + 1] == Next(states[j], events[j])
  }

  predicate Brings(e: Event, j: Supplied) {
    e.JobArrives? && j == Supplied(e.tile, e.broker)
  }

  // The log of arrivals is the run's: each entry is a job message that came in at some step.
  lemma {:induction false} ArrivalsOfRun(states: seq<Pair>, events: seq<Event>, brokers: Brokers, i: nat, j: nat)
    requires IsRun(states, events, brokers) && i < |states| && j < |states[i].arrived|
    ensures exists n :: 0 <= n < i && Brings(events[n], states[i].arrived[j])
  {
    hide OnTimeout, OnJob, OnNoJobs, OnAnnounce, OnNotify, OnAsk;
    if i > 0 {
      if j < |states[i - 1].arrived| {
        ArrivalsOfRun(states, events, brokers, i - 1, j);
      } else {
        assert Brings(events[i - 1], states[i].arrived[j]);
      }
    }
  }

  /* In every run: a current broker is known exactly while trying or processing; the branches called
     impossible are never taken; every job that the worker has or gets is, tile and broker, one of the job messages
     that came in, in the order of their arrival and none twice; each request of the worker gets exactly one; and each
     result carries the tile that the worker gave back and goes to the broker that had sent the job. */
  lemma {:induction false} RunSafe(states: seq<Pair>, events: seq<Event>, brokers: Brokers, i: nat)
    requires IsRun(states, events, brokers) && i < |states|
    ensures Safe(states[i])
    ensures |states[i].worked| + |states[i].jobs| <= states[i].asks <= |states[i].returned| + 2
  {
    if i > 0 {
      hide Safe, Next;
      RunSafe(states, events, brokers, i - 1);
      StepSafe(states[i - 1], events[i - 1]);
    }
    SafeCounts(states[i]);
  }

  lemma SafeCounts(s: Pair)
    requires Safe(s) || s == Start(s.comm.brokers)
    ensures Safe(s) && |s.worked| + |s.jobs| <= s.asks <= |s.returned| + 2
  {
  }
}
