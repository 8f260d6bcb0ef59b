/**
 Handlers, their storage pools and brokers together, as one system of steps; jobs are handed out and results come
 at any time. Every accepted request is answered exactly once, in every interleaving.
 */
module RenderSystem {
  import opened Tiles
  import opened Counting
  import opened TaskQueues
  import opened StoragePools
  import opened TileHandlers
  import opened Brokers

  /* ---- states ---- */

  // A handler with its storage pool and the bags of messages between the two.
  datatype Node = Node(
    accepted: seq<Request>,
    toStorage: seq<Tile>,
    pool: Pool,
    fromStorage: seq<Tile>,
    replies: seq<Reply>,
    crashed: bool)

  datatype Post = Post(broker: string, handler: string, tile: Tile)

  datatype TaskId = TaskId(broker: string, key: Key)

  // `lost` records the subscribers of tasks that were dropped by clearing a broker's queue.
  datatype System = System(
    nodes: map<string, Node>,
    toBroker: seq<Post>,
    tasks: map<TaskId, Task>,
    toHandler: seq<Message>,
    lost: seq<Subscriber>)

  datatype Event =
    | Accept(h: string, tile: Tile)
    | PoolRequest(h: string, i: nat)
    | PoolThread(h: string, i: nat, stored: Stored)
    | PoolResult(h: string, i: nat)
    | StorageResponse(h: string, i: nat, q0: nat, q1: nat, route: Option<string>)
    | BrokerRequest(i: nat, now: int)
    | BrokerGetJob(id: TaskId)
    | BrokerResult(broker: string, result: Tile)
    | BrokerResubmit(id: TaskId, now: int)
    | BrokerDrop(id: TaskId)
    | HandlerReply(i: nat)

  predicate Enabled(s: System, e: Event) {
    match e
    case Accept(h, t) => h in s.nodes && t.id > 0 && SingleFormat(t.format)
    case PoolRequest(h, i) => h in s.nodes && i < |s.nodes[h].toStorage|
    case PoolThread(h, i, _) => h in s.nodes && i < |s.nodes[h].pool.sent|
    case PoolResult(h, i) => h in s.nodes && i < |s.nodes[h].pool.done| && s.nodes[h].pool.cur > 0
    case StorageResponse(h, i, _, _, _) => h in s.nodes && i < |s.nodes[h].fromStorage|
    case BrokerRequest(i, _) => i < |s.toBroker|
    case BrokerGetJob(id) => id in s.tasks
    case BrokerResult(_, _) => true
    case BrokerResubmit(id, _) => id in s.tasks
    case BrokerDrop(id) => id in s.tasks
    case HandlerReply(i) => i < |s.toHandler| && s.toHandler[i].address in s.nodes
  }

  /* A handler's decision, and where its job goes: to a broker, or nowhere when the queue refuses it.
     The queue lengths and the route are whatever the environment makes them. */
  function Responded(c: Config, n: Node, t: Tile, q0: nat, q1: nat, route: Option<string>): Node {
    n.(replies := n.replies + NewReplies(c, t, q0, q1, route), crashed := n.crashed || Decide(c, t, q0, q1).throws)
  }

  function NewReplies(c: Config, t: Tile, q0: nat, q1: nat, route: Option<string>): seq<Reply> {
    var a := Decide(c, t, q0, q1);
    a.replies + if a.job.Some? && route.None? then OnSendError(a.job.value) else []
  }

  function JobSent(c: Config, h: string, t: Tile, q0: nat, q1: nat, route: Option<string>): seq<Post> {
    var a := Decide(c, t, q0, q1);
    if a.job.Some? && route.Some? then [Post(route.value, h, a.job.value)] else []
  }

  function Next(c: Config, s: System, e: Event): System
    requires Enabled(s, e)
  {
    match e
    case Accept(h, t) =>
      var n := s.nodes[h];
      s.(nodes := s.nodes[h := n.(accepted := n.accepted + [RequestOf(t)], toStorage := n.toStorage + [t])])
    case PoolRequest(h, i) =>
      var n := s.nodes[h];
      s.(nodes := s.nodes[h := n.(toStorage := Take(n.toStorage, i), pool := Received(n.pool, n.toStorage[i]))])
    case PoolThread(h, i, stored) =>
      var n := s.nodes[h];
      s.(nodes := s.nodes[h := n.(pool := Worked(n.pool, i, stored))])
    case PoolResult(h, i) =>
      var n := s.nodes[h];
      s.(nodes := s.nodes[h := n.(pool := Collected(n.pool, i), fromStorage := n.fromStorage + [n.pool.done[i]])])
    case StorageResponse(h, i, q0, q1, route) =>
      var n := s.nodes[h];
      var t := n.fromStorage[i];
      s.(nodes := s.nodes[h := Responded(c, n.(fromStorage := Take(n.fromStorage, i)), t, q0, q1, route)],
         toBroker := s.toBroker + JobSent(c, h, t, q0, q1, route))
    case BrokerRequest(i, now) =>
      var j := s.toBroker[i];
      var id := TaskId(j.broker, MetaKey(j.tile));
      var t := Merged(Lookup(s.tasks, id), j.tile, j.handler, PriorityFor(j.tile.status), now);
      s.(toBroker := Take(s.toBroker, i), tasks := s.tasks[id := t])
    case BrokerGetJob(id) => s.(tasks := s.tasks[id := s.tasks[id].(processed := true)])
    case BrokerResult(b, result) =>
      var id := TaskId(b, KeyOf(result));
      if id in s.tasks then
        s.(tasks := s.tasks - {id}, toHandler := s.toHandler + FanOut(s.tasks[id].subscribers, result))
      else s
    case BrokerResubmit(id, now) => s.(tasks := s.tasks[id := Revived(s.tasks[id], now)])
    case BrokerDrop(id) => s.(tasks := s.tasks - {id}, lost := s.lost + s.tasks[id].subscribers)
    case HandlerReply(i) =>
      var m := s.toHandler[i];
      var n, a := s.nodes[m.address], JustTile(m.tile);
      s.(toHandler := Take(s.toHandler, i),
         nodes := s.nodes[m.address := n.(replies := n.replies + a.replies, crashed := n.crashed || a.throws)])
  }

  /* ---- what every reachable state satisfies ---- */

  predicate SoundRequest(t: Tile) {
    t.id > 0 && SingleFormat(t.format)
  }

  ghost predicate AllSound(s: seq<Tile>) {
    forall i :: 0 <= i < |s| ==> SoundRequest(s[i])
  }

  ghost predicate SoundNode(n: Node) {
    && AllSound(n.toStorage) && AllSound(n.fromStorage)
    && AllSound(n.pool.backlog) && AllSound(n.pool.sent) && AllSound(n.pool.done)
    && !n.crashed
  }

  ghost predicate SoundTask(t: Task) {
    forall i :: 0 <= i < |t.subscribers| ==> SoundJob(t.subscribers[i].tile)
  }

  ghost predicate Sound(s: System) {
    && (forall h :: h in s.nodes ==> SoundNode(s.nodes[h]))
    && (forall i :: 0 <= i < |s.toBroker| ==> SoundJob(s.toBroker[i].tile))
    && (forall id :: id in s.tasks ==> SoundTask(s.tasks[id]))
    && (forall i :: 0 <= i < |s.toHandler| ==> SoundRequest(s.toHandler[i].tile))
  }

  /* ---- counting a request wherever it is ---- */

  function TileIs(r: Request): Tile -> bool {
    (t: Tile) => RequestOf(t) == r
  }

  function RequestIs(r: Request): Request -> bool {
    (q: Request) => q == r
  }

  function ReplyTo(r: Request): Reply -> bool {
    (p: Reply) => p.request == r
  }

  function PostIs(h: string, r: Request): Post -> bool {
    (j: Post) => j.handler == h && RequestOf(j.tile) == r
  }

  function SubscriberIs(h: string, r: Request): Subscriber -> bool {
    (s: Subscriber) => s.address == h && RequestOf(s.tile) == r
  }

  function MessageIs(h: string, r: Request): Message -> bool {
    (m: Message) => m.address == h && RequestOf(m.tile) == r
  }

  function WaitersIn(h: string, r: Request): Task -> nat {
    (t: Task) => Count(t.subscribers, SubscriberIs(h, r))
  }

  function InPool(p: Pool, r: Request): nat {
    Count(p.backlog, TileIs(r)) + Count(p.sent, TileIs(r)) + Count(p.done, TileIs(r))
  }

  // Where the request is inside its handler: waiting for storage, in the pool, or answered by storage.
  function InNode(n: Node, r: Request): nat {
    Count(n.toStorage, TileIs(r)) + InPool(n.pool, r) + Count(n.fromStorage, TileIs(r))
  }

  // The request outside its handler: on the way to a broker, subscribed to a task, or on the way back.
  ghost function InBrokers(s: System, h: string, r: Request): nat {
    Count(s.toBroker, PostIs(h, r)) + Total(s.tasks, WaitersIn(h, r)) + Count(s.toHandler, MessageIs(h, r))
  }

  ghost predicate Conserved(s: System, h: string, r: Request)
    requires h in s.nodes
  {
    Count(s.nodes[h].accepted, RequestIs(r)) ==
      Count(s.nodes[h].replies, ReplyTo(r)) + InNode(s.nodes[h], r) + InBrokers(s, h, r) +
      Count(s.lost, SubscriberIs(h, r))
  }

  /* ---- soundness of every step ---- */

  lemma TakeSound(s: seq<Tile>, i: nat)
    requires AllSound(s) && i < |s|
    ensures AllSound(Take(s, i)) && SoundRequest(s[i])
  {
  }

  lemma PoolSound(n: Node, p: Pool, e: PoolEvent)
    requires SoundNode(n) && PoolStep(n.pool, e, p) && (e.Request? ==> SoundRequest(e.tile))
    ensures SoundNode(n.(pool := p))
    ensures e.Result? ==> SoundRequest(n.pool.done[e.i])
  {
    match e {
      case Request(t) =>
      case Thread(i, stored) =>
        TakeSound(n.pool.sent, i);
        HandleTileKeepsRequest(n.pool.sent[i], stored);
      case Result(i) =>
        TakeSound(n.pool.done, i);
    }
  }

  lemma {:induction false} FanOutSound(subs: seq<Subscriber>, result: Tile)
    requires forall i :: 0 <= i < |subs| ==> SoundJob(subs[i].tile)
    ensures forall i :: 0 <= i < |FanOut(subs, result)| ==> SoundRequest(FanOut(subs, result)[i].tile)
  {
    if subs != [] {
      FanOutSound(subs[..|subs| - 1], result);
    }
  }

  lemma ReplySound(t: Tile)
    requires SoundRequest(t)
    ensures !JustTile(t).throws && |JustTile(t).replies| == 1 && JustTile(t).replies[0].request == RequestOf(t)
  {
  }

  lemma NodeStepSound(c: Config, s: System, e: Event)
    requires Sound(s) && Enabled(s, e)
    requires e.Accept? || e.PoolRequest? || e.PoolThread? || e.PoolResult? || e.StorageResponse?
    ensures Sound(Next(c, s, e))
  {
    hide HandleTile, Received, Worked, Collected, Decide, SoundJob, Take;
    var n := s.nodes[e.h];
    match e {
      case Accept(h, t) =>
      case PoolRequest(h, i) =>
        TakeSound(n.toStorage, i);
        PoolSound(n, Received(n.pool, n.toStorage[i]), PoolEvent.Request(n.toStorage[i]));
      case PoolThread(h, i, stored) =>
        PoolSound(n, Worked(n.pool, i, stored), Thread(i, stored));
      case PoolResult(h, i) =>
        PoolSound(n, Collected(n.pool, i), PoolEvent.Result(i));
      case StorageResponse(h, i, q0, q1, route) =>
        TakeSound(n.fromStorage, i);
        DecideAnswersOnce(c, n.fromStorage[i], q0, q1);
    }
  }

  lemma BrokerStepSound(c: Config, s: System, e: Event)
    requires Sound(s) && Enabled(s, e)
    requires !(e.Accept? || e.PoolRequest? || e.PoolThread? || e.PoolResult? || e.StorageResponse?)
    ensures Sound(Next(c, s, e))
  {
    hide FanOut, SoundJob, JustTile, SoundNode;
    match e {
      case BrokerRequest(i, now) =>
      case BrokerGetJob(id) =>
      case BrokerResult(b, result) =>
        var id := TaskId(b, KeyOf(result));
        if id in s.tasks { FanOutSound(s.tasks[id].subscribers, result); }
      case BrokerResubmit(id, now) =>
      case BrokerDrop(id) =>
      case HandlerReply(i) =>
        var m := s.toHandler[i];
        ReplySound(m.tile);
        RepliesSound(s.nodes[m.address], JustTile(m.tile).replies);
    }
  }

  lemma RepliesSound(n: Node, replies: seq<Reply>)
    requires SoundNode(n)
    ensures SoundNode(n.(replies := n.replies + replies)) && !n.crashed
  {
  }

  /* ---- every step conserves every request ---- */

  lemma PoolConserves(p: Pool, e: PoolEvent, p': Pool, r: Request)
    requires PoolStep(p, e, p')
    ensures InPool(p', r) == InPool(p, r)
      + (if e.Request? && RequestOf(e.tile) == r then 1 else 0)
      - (if e.Result? && RequestOf(p.done[e.i]) == r then 1 else 0)
  {
    var mine := TileIs(r);
    match e {
      case Request(t) =>
        CountSnoc(p.sent, t, mine);
        CountSnoc(p.backlog, t, mine);
      case Thread(i, stored) =>
        HandleTileKeepsRequest(p.sent[i], stored);
        CountTake(p.sent, i, mine);
        CountSnoc(p.done, HandleTile(p.sent[i], stored), mine);
      case Result(i) =>
        CountTake(p.done, i, mine);
        if p.backlog != [] {
          CountTake(p.backlog, 0, mine);
          assert Take(p.backlog, 0) == p.backlog[1..];
          CountSnoc(p.sent, p.backlog[0], mine);
        }
    }
  }

  // What a storage response adds to the replies and to the jobs on their way: together, exactly one.
  lemma ResponseConserves(c: Config, h: string, t: Tile, q0: nat, q1: nat, route: Option<string>, h': string,
                          r: Request)
    requires SoundRequest(t) && r.id > 0
    ensures Count(NewReplies(c, t, q0, q1, route), ReplyTo(r)) + Count(JobSent(c, h, t, q0, q1, route), PostIs(h, r))
      == if RequestOf(t) == r then 1 else 0
    ensures h' != h ==> Count(JobSent(c, h, t, q0, q1, route), PostIs(h', r)) == 0
  {
    hide Decide;
    DecideAnswersOnce(c, t, q0, q1);
    CountAtMost(NewReplies(c, t, q0, q1, route), ReplyTo(r));
    CountAtMost(JobSent(c, h, t, q0, q1, route), PostIs(h, r));
    CountAtMost(JobSent(c, h, t, q0, q1, route), PostIs(h', r));
  }

  lemma NodeStepConserves(c: Config, s: System, e: Event, h: string, r: Request)
    requires Sound(s) && Enabled(s, e) && h in s.nodes && r.id > 0 && Conserved(s, h, r)
    requires e.Accept? || e.PoolRequest? || e.PoolThread? || e.PoolResult?
    ensures h in Next(c, s, e).nodes && Conserved(Next(c, s, e), h, r)
  {
    hide Count, InPool, Received, Worked, Collected, Take, Total;
    if e.h == h {
      var n := s.nodes[h];
      match e {
        case Accept(_, t) =>
          CountSnoc(n.accepted, RequestOf(t), RequestIs(r));
          CountSnoc(n.toStorage, t, TileIs(r));
        case PoolRequest(_, i) =>
          CountTake(n.toStorage, i, TileIs(r));
          PoolConserves(n.pool, PoolEvent.Request(n.toStorage[i]), Received(n.pool, n.toStorage[i]), r);
        case PoolThread(_, i, stored) =>
          PoolConserves(n.pool, Thread(i, stored), Worked(n.pool, i, stored), r);
        case PoolResult(_, i) =>
          PoolConserves(n.pool, PoolEvent.Result(i), Collected(n.pool, i), r);
          CountSnoc(n.fromStorage, n.pool.done[i], TileIs(r));
      }
    }
  }

  lemma ResponseStepConserves(c: Config, s: System, e: Event, h: string, r: Request)
    requires Sound(s) && Enabled(s, e) && h in s.nodes && r.id > 0 && Conserved(s, h, r) && e.StorageResponse?
    ensures h in Next(c, s, e).nodes && Conserved(Next(c, s, e), h, r)
  {
    var t := s.nodes[e.h].fromStorage[e.i];
    assert SoundRequest(t) by { TakeSound(s.nodes[e.h].fromStorage, e.i); }
    hide Count, InNode, Take, Total, JobSent, Responded, SoundRequest, Sound;
    ResponseConserves(c, e.h, t, e.q0, e.q1, e.route, h, r);
    CountAppend(s.toBroker, JobSent(c, e.h, t, e.q0, e.q1, e.route), PostIs(h, r));
    if e.h == h {
      ResponseInNode(c, s.nodes[h], e.i, e.q0, e.q1, e.route, r);
    }
  }

  // What a storage response takes out of the handler and adds to its replies.
  lemma ResponseInNode(c: Config, n: Node, i: nat, q0: nat, q1: nat, route: Option<string>, r: Request)
    requires i < |n.fromStorage|
    ensures var t := n.fromStorage[i];
      var n' := Responded(c, n.(fromStorage := Take(n.fromStorage, i)), t, q0, q1, route);
      && n'.accepted == n.accepted
      && InNode(n', r) + (if RequestOf(t) == r then 1 else 0) == InNode(n, r)
      && Count(n'.replies, ReplyTo(r)) ==
        Count(n.replies, ReplyTo(r)) + Count(NewReplies(c, t, q0, q1, route), ReplyTo(r))
  {
    hide Count, InPool, Take, Decide;
    var t := n.fromStorage[i];
    CountTake(n.fromStorage, i, TileIs(r));
    CountAppend(n.replies, NewReplies(c, t, q0, q1, route), ReplyTo(r));
  }

  lemma AnswerKeepsRequest(t: Tile, result: Tile)
    ensures RequestOf(Answer(t, result)) == RequestOf(t)
  {
  }

  lemma {:induction false} FanOutCounts(subs: seq<Subscriber>, result: Tile, h: string, r: Request)
    requires r.id > 0 && forall i :: 0 <= i < |subs| ==> SoundJob(subs[i].tile)
    ensures Count(FanOut(subs, result), MessageIs(h, r)) == Count(subs, SubscriberIs(h, r))
  {
    if subs != [] {
      var n := |subs| - 1;
      FanOutCounts(subs[..n], result, h, r);
      FanOutLast(subs, result);
      hide Answer, FanOut;
      AnswerCounts(subs[n], result, h, r);
      CountAppend(FanOut(subs[..n], result), LastAnswer(subs[n], result), MessageIs(h, r));
    }
  }

  function LastAnswer(sub: Subscriber, result: Tile): seq<Message> {
    if Waits(sub.tile) then [Message(sub.address, Answer(sub.tile, result))] else []
  }

  lemma FanOutLast(subs: seq<Subscriber>, result: Tile)
    requires subs != []
    ensures FanOut(subs, result) == FanOut(subs[..|subs| - 1], result) + LastAnswer(subs[|subs| - 1], result)
  {
    hide Answer;
  }

  // One who waits for a client gets one answer; nobody else counts.
  lemma AnswerCounts(sub: Subscriber, result: Tile, h: string, r: Request)
    requires r.id > 0 && SoundJob(sub.tile)
    ensures Count(LastAnswer(sub, result), MessageIs(h, r)) == if SubscriberIs(h, r)(sub) then 1 else 0
  {
    AnswerKeepsRequest(sub.tile, result);
    hide Answer;
    if Waits(sub.tile) {
      var m := Message(sub.address, Answer(sub.tile, result));
      CountSnoc([], m, MessageIs(h, r));
      assert [] + [m] == [m];
    }
  }

  lemma BrokerStepConserves(c: Config, s: System, e: Event, h: string, r: Request)
    requires Sound(s) && Enabled(s, e) && h in s.nodes && r.id > 0 && Conserved(s, h, r)
    requires e.BrokerRequest? || e.BrokerGetJob? || e.BrokerResult? || e.BrokerResubmit? || e.BrokerDrop?
    ensures h in Next(c, s, e).nodes && Conserved(Next(c, s, e), h, r)
  {
    hide Count, InNode, Take, Total, FanOut, SoundNode;
    var waiters, mine := WaitersIn(h, r), SubscriberIs(h, r);
    match e {
      case BrokerRequest(i, now) =>
        var j := s.toBroker[i];
        var id := TaskId(j.broker, MetaKey(j.tile));
        var t := Merged(Lookup(s.tasks, id), j.tile, j.handler, PriorityFor(j.tile.status), now);
        CountTake(s.toBroker, i, PostIs(h, r));
        TotalPut(s.tasks, waiters, id, t);
        var before := if id in s.tasks then s.tasks[id].subscribers else [];
        assert t.subscribers == before + [Subscriber(j.tile, j.handler)];
        CountSnoc(before, Subscriber(j.tile, j.handler), mine);
        CountAtMost([], mine);
      case BrokerGetJob(id) =>
        TotalPut(s.tasks, waiters, id, s.tasks[id].(processed := true));
      case BrokerResult(b, result) =>
        var id := TaskId(b, KeyOf(result));
        if id in s.tasks {
          TotalRemove(s.tasks, waiters, id);
          FanOutCounts(s.tasks[id].subscribers, result, h, r);
          CountAppend(s.toHandler, FanOut(s.tasks[id].subscribers, result), MessageIs(h, r));
        }
      case BrokerResubmit(id, now) =>
        TotalPut(s.tasks, waiters, id, Revived(s.tasks[id], now));
      case BrokerDrop(id) =>
        TotalRemove(s.tasks, waiters, id);
        CountAppend(s.lost, s.tasks[id].subscribers, mine);
    }
  }

  lemma ReplyStepConserves(c: Config, s: System, e: Event, h: string, r: Request)
    requires Sound(s) && Enabled(s, e) && h in s.nodes && r.id > 0 && Conserved(s, h, r) && e.HandlerReply?
    ensures h in Next(c, s, e).nodes && Conserved(Next(c, s, e), h, r)
  {
    hide Count, InPool, Take, Total, JustTile;
    var m := s.toHandler[e.i];
    CountTake(s.toHandler, e.i, MessageIs(h, r));
    ReplySound(m.tile);
    if m.address == h {
      var replies := JustTile(m.tile).replies;
      assert replies == [replies[0]];
      CountSnoc(s.nodes[h].replies, replies[0], ReplyTo(r));
    }
  }

  /* ---- runs ---- */

  ghost predicate Initial(s: System) {
    && (forall h :: h in s.nodes ==> exists max :: s.nodes[h] == Node([], [], Pool(max, 0, [], [], []), [], [], false))
    && s.toBroker == [] && s.tasks == map[] && s.toHandler == [] && s.lost == []
  }

  ghost predicate IsRun(c: Config, states: seq<System>, events: seq<Event>) {
    && |states| == |events| + 1 && Initial(states[0])
    && forall i :: 0 <= i < |events| ==> Enabled(states[i], events[i]) && states[i + 1] == Next(c, states[i], events[i])
  }

  lemma StepKeeps(c: Config, s: System, e: Event)
    requires Sound(s) && Enabled(s, e)
    ensures Sound(Next(c, s, e)) && Next(c, s, e).nodes.Keys == s.nodes.Keys
    ensures !e.BrokerDrop? ==> Next(c, s, e).lost == s.lost
  {
    hide Sound, Decide, FanOut, JustTile;
    if e.Accept? || e.PoolRequest? || e.PoolThread? || e.PoolResult? || e.StorageResponse? {
      NodeStepSound(c, s, e);
    } else {
      BrokerStepSound(c, s, e);
    }
  }

  lemma StepConserves(c: Config, s: System, e: Event, h: string, r: Request)
    requires Sound(s) && Enabled(s, e) && h in s.nodes && r.id > 0 && Conserved(s, h, r)
    ensures h in Next(c, s, e).nodes && Conserved(Next(c, s, e), h, r)
  {
    hide Sound, Conserved, Next;
    if e.Accept? || e.PoolRequest? || e.PoolThread? || e.PoolResult? {
      NodeStepConserves(c, s, e, h, r);
    } else if e.StorageResponse? {
      ResponseStepConserves(c, s, e, h, r);
    } else if e.HandlerReply? {
      ReplyStepConserves(c, s, e, h, r);
    } else {
      BrokerStepConserves(c, s, e, h, r);
    }
  }

  /* In every state of every run, the accepted copies of a client's request are exactly its replies, its
     copies inside the handler and its storage pool, its copies on the way to, in or on the way from the
     brokers, and those lost by clearing a queue. No handler has thrown. */
  lemma {:induction false} ExactlyOnce(c: Config, states: seq<System>, events: seq<Event>, i: nat, h: string,
                                       r: Request)
    requires IsRun(c, states, events) && i < |states| && h in states[0].nodes && r.id > 0
    ensures h in states[i].nodes && Conserved(states[i], h, r) && Sound(states[i])
    ensures !states[i].nodes[h].crashed
    ensures (forall j :: 0 <= j < i ==> !events[j].BrokerDrop?) ==> states[i].lost == []
  {
    hide Conserved, Next, InNode, InBrokers;
    if i == 0 {
      InitialConserved(states[0], h, r);
    } else {
      ExactlyOnce(c, states, events, i - 1, h, r);
      StepKeeps(c, states[i - 1], events[i - 1]);
      StepConserves(c, states[i - 1], events[i - 1], h, r);
    }
  }

  lemma InitialConserved(s: System, h: string, r: Request)
    requires Initial(s) && h in s.nodes
    ensures Conserved(s, h, r) && Sound(s)
  {
  }

  // So nobody is answered twice, and once nothing is under way and no queue was cleared, everybody has been answered.
  lemma AnsweredAtMostOnceAndInTheEnd(c: Config, states: seq<System>, events: seq<Event>, i: nat, h: string, r: Request)
    requires IsRun(c, states, events) && i < |states| && h in states[0].nodes && r.id > 0
    ensures h in states[i].nodes
    ensures Count(states[i].nodes[h].replies, ReplyTo(r)) <= Count(states[i].nodes[h].accepted, RequestIs(r))
    ensures (forall j :: 0 <= j < i ==> !events[j].BrokerDrop?)
      && InNode(states[i].nodes[h], r) == 0 && InBrokers(states[i], h, r) == 0
      ==> Count(states[i].nodes[h].replies, ReplyTo(r)) == Count(states[i].nodes[h].accepted, RequestIs(r))
  {
    hide InNode, InBrokers;
    ExactlyOnce(c, states, events, i, h, r);
    CountAtMost(states[i].lost, SubscriberIs(h, r));
  }

  /* ---- one broker's part of the system ---- */

  function TasksAt(tasks: map<TaskId, Task>, b: string): map<Key, Task> {
    map id | id in tasks && id.broker == b :: id.key := tasks[id]
  }

  function QueueOf(s: System, b: string): map<Key, Task> {
    TasksAt(s.tasks, b)
  }

  lemma TasksAtHas(tasks: map<TaskId, Task>, id: TaskId)
    ensures id in tasks <==> id.key in TasksAt(tasks, id.broker)
    ensures id in tasks ==> TasksAt(tasks, id.broker)[id.key] == tasks[id]
  {
    assert TaskId(id.broker, id.key) == id;
  }

  lemma TasksAtPut(tasks: map<TaskId, Task>, id: TaskId, t: Task, b: string)
    ensures TasksAt(tasks[id := t], b) == if id.broker == b then TasksAt(tasks, b)[id.key := t] else TasksAt(tasks, b)
  {
    assert TaskId(id.broker, id.key) == id;
  }

  lemma TasksAtDrop(tasks: map<TaskId, Task>, id: TaskId, b: string)
    ensures TasksAt(tasks - {id}, b) == if id.broker == b then TasksAt(tasks, b) - {id.key} else TasksAt(tasks, b)
  {
    assert TaskId(id.broker, id.key) == id;
  }

  // What an event does to one broker's queue, in the broker's own terms.
  ghost function QueueAfter(s: System, e: Event, b: string): map<Key, Task>
    requires Enabled(s, e)
  {
    var q := QueueOf(s, b);
    match e
    case BrokerRequest(i, now) =>
      var j := s.toBroker[i];
      if j.broker == b then Pushed(q, j.tile, j.handler, PriorityFor(j.tile.status), now) else q
    case BrokerGetJob(id) => if id.broker == b then Marked(q, id.key) else q
    case BrokerResult(broker, result) => if broker == b then q - {KeyOf(result)} else q
    case BrokerResubmit(id, now) => if id.broker == b then Resubmitted(q, {id.key}, now) else q
    case BrokerDrop(id) => if id.broker == b then q - {id.key} else q
    case _ => q
  }

  // The brokers of the system do what brokers do, and do not disturb each other.
  lemma QueueFollows(c: Config, s: System, e: Event, b: string)
    requires Enabled(s, e)
    ensures QueueOf(Next(c, s, e), b) == QueueAfter(s, e, b)
  {
    hide TasksAt, Merged, FanOut, Received, Worked, Collected, JobSent, Responded, Take, Revived, JustTile;
    match e
    case BrokerRequest(i, now) =>
      var j := s.toBroker[i];
      var id := TaskId(j.broker, MetaKey(j.tile));
      TasksAtHas(s.tasks, id);
      TasksAtPut(s.tasks, id, Merged(Lookup(s.tasks, id), j.tile, j.handler, PriorityFor(j.tile.status), now), b);
    case BrokerGetJob(id) =>
      TasksAtHas(s.tasks, id);
      TasksAtPut(s.tasks, id, s.tasks[id].(processed := true), b);
    case BrokerResult(broker, result) =>
      var id := TaskId(broker, KeyOf(result));
      TasksAtHas(s.tasks, id);
      TasksAtDrop(s.tasks, id, b);
    case BrokerResubmit(id, now) =>
      TasksAtHas(s.tasks, id);
      TasksAtPut(s.tasks, id, Revived(s.tasks[id], now), b);
    case BrokerDrop(id) =>
      TasksAtDrop(s.tasks, id, b);
    case _ =>
  }

  lemma QueueStepMerges(s: System, e: Event, b: string)
    requires Enabled(s, e) && QueueMerges(QueueOf(s, b))
    ensures QueueMerges(QueueAfter(s, e, b))
  {
    hide TaskMerges, QueueOf, Merged, Joined;
    var q := QueueOf(s, b);
    match e
    case BrokerRequest(i, now) =>
      var j := s.toBroker[i];
      StepMerges(q, Op.Request(j.tile, j.handler, now), Pushed(q, j.tile, j.handler, PriorityFor(j.tile.status), now));
    case BrokerGetJob(id) =>
      if id.key in q { MarkMerges(id.key, q[id.key]); }
    case BrokerResubmit(id, now) =>
      if id.key in q { ReviveMerges(id.key, q[id.key], now); }
    case _ =>
  }

  // In every state of every run, every task of every broker is the merge of exactly the requests waiting for it.
  lemma {:induction false} QueuesMerge(c: Config, states: seq<System>, events: seq<Event>, i: nat, b: string)
    requires IsRun(c, states, events) && i < |states|
    ensures QueueMerges(QueueOf(states[i], b))
  {
    hide Next, QueueAfter, TaskMerges;
    if i > 0 {
      QueuesMerge(c, states, events, i - 1, b);
      QueueFollows(c, states[i - 1], events[i - 1], b);
      QueueStepMerges(states[i - 1], events[i - 1], b);
    }
  }
}
