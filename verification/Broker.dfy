/** The broker: merges requests into tasks, hands tasks to workers and fans each result out to those who wait for it. */
module Brokers {
  import opened Tiles
  import opened TaskQueues
  import opened MetatileCodec
  import Writers = MetatileWriters

  function PriorityFor(status: Cmd): int {
    match status
    case RenderBulk => 0
    case Dirty => 50
    case RenderPrio => 150
    case _ => 100
  }

  function TopPriority(subs: seq<Subscriber>): (p: int)
    requires subs != []
    ensures forall i :: 0 <= i < |subs| ==> PriorityFor(subs[i].tile.status) <= p
    ensures exists i :: 0 <= i < |subs| && PriorityFor(subs[i].tile.status) == p
  {
    var n := |subs| - 1;
    var last := PriorityFor(subs[n].tile.status);
    if n == 0 then last
    else
      var p := TopPriority(subs[..n]);
      if last > p then last else p
  }

  function AllFormats(subs: seq<Subscriber>): (m: Formats)
    ensures forall f :: f in m <==> exists i :: 0 <= i < |subs| && f in subs[i].tile.format
  {
    if subs == [] then {} else AllFormats(subs[..|subs| - 1]) + subs[|subs| - 1].tile.format
  }

  // What a broker keeps true of a task: it is the merge of exactly the requests that subscribed to it.
  ghost predicate TaskMerges(k: Key, t: Task) {
    && KeyOf(t.tile) == k && AlignedKey(k) && t.tile.status == Render
    && t.subscribers != []
    && (forall i :: 0 <= i < |t.subscribers| ==> MetaKey(t.subscribers[i].tile) == k)
    && t.priority == TopPriority(t.subscribers)
    && t.tile.format == AllFormats(t.subscribers)
  }

  ghost predicate QueueMerges(q: map<Key, Task>) {
    forall k :: k in q ==> TaskMerges(k, q[k])
  }

  /* ---- the broker's operations on its queue ---- */

  datatype Op =
    | Request(tile: Tile, address: string, now: int)
    | GetJob(key: Key)
    | Result(tile: Tile)
    | Resubmit(freed: set<Key>, timeout: int, now: int, later: int)
    | Clear

  ghost predicate Step(q: map<Key, Task>, op: Op, q': map<Key, Task>) {
    match op
    case Request(tile, address, now) => q' == Pushed(q, tile, address, PriorityFor(tile.status), now)
    case GetJob(k) => BestUnprocessed(q, k) && q' == Marked(q, k)
    case Result(tile) => q' == q - {KeyOf(tile)}
    case Resubmit(freed, timeout, now, later) =>
      SweepResult(q, freed, timeout, now, later) && q' == Resubmitted(q, freed, later)
    case Clear => q' == map[]
  }

  ghost predicate Run(states: seq<map<Key, Task>>, ops: seq<Op>) {
    && |states| == |ops| + 1 && states[0] == map[]
    && forall i :: 0 <= i < |ops| ==> Step(states[i], ops[i], states[i + 1])
  }

  lemma JoinMerges(k: Key, t: Task, tile: Tile, address: string)
    requires MetaKey(tile) == k && TaskMerges(k, t)
    ensures TaskMerges(k, Joined(t, tile, address, PriorityFor(tile.status)))
  {
    var t' := Joined(t, tile, address, PriorityFor(tile.status));
    assert t'.subscribers[..|t.subscribers|] == t.subscribers;
  }

  lemma FreshMerges(tile: Tile, address: string, now: int)
    ensures TaskMerges(MetaKey(tile), Merged(None, tile, address, PriorityFor(tile.status), now))
  {
    var t := Merged(None, tile, address, PriorityFor(tile.status), now);
    assert t.subscribers == [Subscriber(tile, address)];
    assert t.subscribers[..0] == [];
  }

  lemma StepMerges(q: map<Key, Task>, op: Op, q': map<Key, Task>)
    requires QueueMerges(q) && Step(q, op, q')
    ensures QueueMerges(q')
  {
    hide TopPriority, AllFormats, TaskMerges;
    match op {
      case Request(tile, address, now) =>
        FreshMerges(tile, address, now);
        if MetaKey(tile) in q {
          JoinMerges(MetaKey(tile), q[MetaKey(tile)], tile, address);
        }
      case GetJob(k) => MarkMerges(k, q[k]);
      case Result(tile) =>
      case Resubmit(freed, timeout, now, later) =>
        forall k | k in q' ensures TaskMerges(k, q'[k]) { ReviveMerges(k, q[k], later); }
      case Clear =>
    }
  }

  lemma MarkMerges(k: Key, t: Task)
    requires TaskMerges(k, t)
    ensures TaskMerges(k, t.(processed := true))
  {
  }

  lemma ReviveMerges(k: Key, t: Task, now: int)
    requires TaskMerges(k, t)
    ensures TaskMerges(k, Revived(t, now))
  {
  }

  // In every run every task is the merge of its subscribers, and two tasks never share a metatile and style.
  lemma {:induction false} RunMerges(states: seq<map<Key, Task>>, ops: seq<Op>, i: nat)
    requires Run(states, ops) && i < |states|
    ensures QueueMerges(states[i])
    ensures forall k, j :: k in states[i] && j in states[i] && k != j ==>
      KeyOf(states[i][k].tile) != KeyOf(states[i][j].tile)
  {
    if i > 0 {
      RunMerges(states, ops, i - 1);
      StepMerges(states[i - 1], ops[i - 1], states[i]);
    }
  }

  // An operation that ends task k: its result, or clearing the queue.
  predicate Ends(op: Op, k: Key) {
    op.Clear? || (op.Result? && KeyOf(op.tile) == k)
  }

  lemma StepKeepsSubscribers(q: map<Key, Task>, op: Op, q': map<Key, Task>, k: Key)
    requires Step(q, op, q') && k in q && !Ends(op, k)
    ensures k in q' && q[k].subscribers <= q'[k].subscribers
    ensures q[k].priority <= q'[k].priority && q[k].tile.format <= q'[k].tile.format
    ensures op.Request? && MetaKey(op.tile) == k ==>
      q'[k].subscribers == q[k].subscribers + [Subscriber(op.tile, op.address)]
    ensures !(op.Request? && MetaKey(op.tile) == k) ==> q'[k].subscribers == q[k].subscribers
  {
  }

  // A subscriber stays with its task, in its place, until the task's result arrives or the queue is cleared.
  lemma {:induction false} RunKeepsSubscribers(states: seq<map<Key, Task>>, ops: seq<Op>, i: nat, j: nat, k: Key)
    requires Run(states, ops) && i <= j < |states| && k in states[i]
    requires forall n :: i <= n < j ==> !Ends(ops[n], k)
    ensures k in states[j] && states[i][k].subscribers <= states[j][k].subscribers
  {
    if i < j {
      RunKeepsSubscribers(states, ops, i, j - 1, k);
      StepKeepsSubscribers(states[j - 1], ops[j - 1], states[j], k);
    }
  }

  /* ---- whose task goes first ---- */

  // Commands in the order in which they are served.
  function Urgency(status: Cmd): int {
    match status
    case RenderPrio => 3
    case RenderBulk => 0
    case Dirty => 1
    case _ => 2
  }

  lemma PriorityFollowsUrgency(a: Cmd, b: Cmd)
    ensures PriorityFor(a) < PriorityFor(b) <==> Urgency(a) < Urgency(b)
    ensures PriorityFor(RenderBulk) == 0 && PriorityFor(Dirty) == 50 && PriorityFor(Render) == 100
    ensures PriorityFor(RenderPrio) == 150
  {
  }

  predicate NoMoreUrgent(a: Subscriber, b: Subscriber) {
    Urgency(a.tile.status) <= Urgency(b.tile.status)
  }

  /* No request that waits for an unprocessed task is more urgent than the most urgent one of the task that is handed
     out. */
  lemma MostUrgentFirst(q: map<Key, Task>, k: Key, j: Key, i: nat)
    requires QueueMerges(q) && BestUnprocessed(q, k) && j in q && !q[j].processed && i < |q[j].subscribers|
    ensures exists n :: 0 <= n < |q[k].subscribers| && NoMoreUrgent(q[j].subscribers[i], q[k].subscribers[n])
  {
    assert TaskMerges(j, q[j]) && TaskMerges(k, q[k]);
    var subs := q[k].subscribers;
    var n :| 0 <= n < |subs| && PriorityFor(subs[n].tile.status) == TopPriority(subs);
    hide PriorityFor, Urgency, TopPriority;
    PriorityFollowsUrgency(subs[n].tile.status, q[j].subscribers[i].tile.status);
    TopIsTop(q[j].subscribers, i);
    assert NoMoreUrgent(q[j].subscribers[i], subs[n]);
  }

  lemma TopIsTop(subs: seq<Subscriber>, i: nat)
    requires i < |subs|
    ensures PriorityFor(subs[i].tile.status) <= TopPriority(subs)
  {
  }

  /* ---- announcements ---- */

  // What workers are told: the highest priority of the tasks to be had, and how many there are.
  datatype Announcement = Announcement(priority: int, unprocessed: nat)

  ghost function BestPriority(q: map<Key, Task>): Option<int> {
    if k :| BestUnprocessed(q, k) then Some(q[k].priority) else None
  }

  lemma BestPriorityIs(q: map<Key, Task>, k: Key)
    requires BestUnprocessed(q, k)
    ensures BestPriority(q) == Some(q[k].priority)
  {
  }

  lemma NoBestPriority(q: map<Key, Task>)
    requires Unprocessed(q) == {}
    ensures BestPriority(q) == None
  {
    assert forall k :: k in q && !q[k].processed ==> k in Unprocessed(q);
  }

  ghost function Availability(q: map<Key, Task>): seq<Announcement> {
    match BestPriority(q)
    case Some(p) => [Announcement(p, |Unprocessed(q)|)]
    case None => []
  }

  // Nothing is announced of an empty queue; else the priority of a task that would be handed out next, and how many
  // tasks are to be had.
  lemma AvailabilityIs(q: map<Key, Task>, k: Key)
    ensures Unprocessed(q) == {} ==> Availability(q) == []
    ensures BestUnprocessed(q, k) ==> Availability(q) == [Announcement(q[k].priority, |Unprocessed(q)|)]
  {
    if Unprocessed(q) == {} {
      NoBestPriority(q);
    } else if BestUnprocessed(q, k) {
      BestPriorityIs(q, k);
    }
  }

  // The broker has looked up the front task before the push, and looks at its priority after it.
  predicate Announces(q': map<Key, Task>, front: Option<Key>, priority: int)
    requires front.Some? ==> front.value in q'
  {
    front.None? || q'[front.value].priority < priority
  }

  ghost predicate IsFront(q: map<Key, Task>, front: Option<Key>) {
    if front.Some? then BestUnprocessed(q, front.value) else Unprocessed(q) == {}
  }

  /* A rise of the highest priority is announced exactly when the request was not merged into the front task
     itself, whose priority the merge has raised before it is looked at. */
  lemma RiseAnnouncedIff(q: map<Key, Task>, tile: Tile, address: string, now: int, front: Option<Key>)
    requires IsFront(q, front)
    requires BestPriority(Pushed(q, tile, address, PriorityFor(tile.status), now)) != BestPriority(q)
    ensures var q' := Pushed(q, tile, address, PriorityFor(tile.status), now);
      && (front.Some? ==> front.value in q')
      && (Announces(q', front, PriorityFor(tile.status)) <==> front != Some(MetaKey(tile)))
      && Availability(q') != []
  {
    var priority := PriorityFor(tile.status);
    var q', k := Pushed(q, tile, address, priority, now), MetaKey(tile);
    if front.None? {
      NoBestPriority(q);
    } else {
      BestPriorityIs(q, front.value);
      if q'[k].processed || q'[k].priority <= q[front.value].priority {
        assert BestUnprocessed(q', front.value);
        BestPriorityIs(q', front.value);
      } else {
        assert BestUnprocessed(q', k);
        BestPriorityIs(q', k);
      }
    }
  }

  // A bulk task that a waiting client's request joins: the highest priority rises and nobody is told.
  lemma RiseNotAnnounced(t: Tile, u: Tile, a: string, b: string)
    requires t.status == RenderBulk && u.status == Render && MetaKey(t) == MetaKey(u)
    ensures var q := Pushed(map[], t, a, 0, 0);
      var q' := Pushed(q, u, b, 100, 1);
      && Run([map[], q, q'], [Op.Request(t, a, 0), Op.Request(u, b, 1)]) && IsFront(q, Some(MetaKey(t)))
      && BestPriority(q) == Some(0) && BestPriority(q') == Some(100) && !Announces(q', Some(MetaKey(t)), 100)
  {
    var k := MetaKey(t);
    var q := Pushed(map[], t, a, 0, 0);
    var q' := Pushed(q, u, b, 100, 1);
    assert q.Keys == {k} && q'.Keys == {k};
    assert BestUnprocessed(q, k) && BestUnprocessed(q', k);
    BestPriorityIs(q, k);
    BestPriorityIs(q', k);
  }

  /* ---- a sweep that leaves a zombie ---- */

  // The queue after two requests, a second apart, have been handed to workers.
  ghost function TwoOut(t: Tile, u: Tile, a: string, b: string): map<Key, Task> {
    var pushed := Pushed(Pushed(map[], t, a, 100, 0), u, b, 100, 1);
    Marked(Marked(pushed, MetaKey(t)), MetaKey(u))
  }

  lemma TwoOutIs(t: Tile, u: Tile, a: string, b: string)
    requires MetaKey(t) != MetaKey(u)
    ensures var q := TwoOut(t, u, a, b);
      && q.Keys == {MetaKey(t), MetaKey(u)} && q[MetaKey(t)].timestamp == 0 && q[MetaKey(u)].timestamp == 1
      && Zombies(q, 300, 301) == {MetaKey(t), MetaKey(u)}
  {
  }

  // The state before the sweep is reached by requests and hand-outs alone.
  lemma TwoOutRun(t: Tile, u: Tile, a: string, b: string)
    requires MetaKey(t) != MetaKey(u) && t.status == u.status == Render
    ensures exists states, ops :: Run(states, ops) && states[|ops|] == TwoOut(t, u, a, b)
  {
    var q1 := Pushed(map[], t, a, 100, 0);
    var q2 := Pushed(q1, u, b, 100, 1);
    var q3 := Marked(q2, MetaKey(t));
    var ops := [Op.Request(t, a, 0), Op.Request(u, b, 1), GetJob(MetaKey(t)), GetJob(MetaKey(u))];
    var states := [map[], q1, q2, q3, TwoOut(t, u, a, b)];
    hide Run;
    assert Step(states[0], ops[0], states[1]) && Step(states[1], ops[1], states[2]);
    assert Step(states[2], ops[2], states[3]) && Step(states[3], ops[3], states[4]);
    RunOfFour(states, ops);
  }

  lemma RunOfFour(states: seq<map<Key, Task>>, ops: seq<Op>)
    requires |states| == 5 && |ops| == 4 && states[0] == map[]
    requires Step(states[0], ops[0], states[1]) && Step(states[1], ops[1], states[2])
    requires Step(states[2], ops[2], states[3]) && Step(states[3], ops[3], states[4])
    ensures Run(states, ops)
  {
  }

  // Two tasks of a run that have both been out for the five minutes: a sweep frees the older one alone.
  lemma SweepLeavesSecondZombie(t: Tile, u: Tile, a: string, b: string, freed: set<Key>, later: int)
    requires MetaKey(t) != MetaKey(u) && t.status == u.status == Render && 301 <= later
    requires SweepResult(TwoOut(t, u, a, b), freed, 300, 301, later)
    ensures exists states, ops :: Run(states, ops) && states[|ops|] == TwoOut(t, u, a, b)
    ensures freed == {MetaKey(t)} && Zombie(Resubmitted(TwoOut(t, u, a, b), freed, later)[MetaKey(u)], 300, 301)
  {
    var q := TwoOut(t, u, a, b);
    TwoOutRun(t, u, a, b);
    TwoOutIs(t, u, a, b);
    hide TwoOut, Run, SweepResult;
    SweepFreesOldest(q, freed, 300, 301, later);
    var k :| k in freed && forall j :: j in Zombies(q, 300, 301) ==> q[k].timestamp <= q[j].timestamp;
    assert |freed - {k}| == |freed| - 1;
    assert MetaKey(t) in Zombies(q, 300, 301) && MetaKey(u) in Zombies(q, 300, 301);
  }

  /* ---- fanning a result out ---- */

  datatype Message = Message(address: string, tile: Tile)

  predicate Waits(t: Tile) {
    t.status != Dirty && t.status != RenderBulk
  }

  // The reply to one subscriber: its own request, with its own tile cut out of the metatile.
  function Answer(t: Tile, result: Tile): Tile {
    var reply := t.(status := result.status, lastModified := result.lastModified);
    if result.status == NotDone then reply
    else reply.(data := ReadTile(result.data, MaskCode(t.format), t.x, t.y))
  }

  function FanOut(subs: seq<Subscriber>, result: Tile): seq<Message> {
    if subs == [] then []
    else
      var n := |subs| - 1;
      FanOut(subs[..n], result) +
      if Waits(subs[n].tile) then [Message(subs[n].address, Answer(subs[n].tile, result))] else []
  }

  datatype ToWorker = Job(worker: string, tile: Tile) | NoJobs(worker: string)

  class Broker {
    const queue: TaskQueue
    var toHandlers: seq<Message>
    var toWorkers: seq<ToWorker>
    var announcements: seq<Announcement>

    ghost predicate Valid()
      reads this, queue
    {
      queue.Valid() && QueueMerges(queue.tasks)
    }

    constructor ()
      ensures Valid() && fresh(queue) && queue.tasks == map[]
      ensures toHandlers == [] && toWorkers == [] && announcements == []
    {
      queue := new TaskQueue();
      toHandlers, toWorkers, announcements := [], [], [];
    }

    // A worker's result: only the first one for a task finds it.
    method OnResult(result: Tile)
      requires Valid()
      modifies this, queue
      ensures Valid() && Step(old(queue.tasks), Result(result), queue.tasks)
      ensures toWorkers == old(toWorkers) && announcements == old(announcements)
      ensures toHandlers == old(toHandlers) +
        if KeyOf(result) in old(queue.tasks) then FanOut(old(queue.tasks)[KeyOf(result)].subscribers, result) else []
    {
      StepMerges(queue.tasks, Result(result), queue.tasks - {KeyOf(result)});
      if KeyOf(result) in queue.tasks {
        var subs := queue.tasks[KeyOf(result)].subscribers;
        var messages := Answers(subs, result);
        toHandlers := toHandlers + messages;
        var _ := queue.Erase(result);
      }
    }

    method OnGetJob(worker: string) returns (ghost k: Option<Key>)
      requires Valid()
      modifies this, queue
      ensures Valid() && toHandlers == old(toHandlers) && announcements == old(announcements)
      ensures k.None? <==> Unprocessed(old(queue.tasks)) == {}
      ensures k.None? ==> queue.tasks == old(queue.tasks) && toWorkers == old(toWorkers) + [NoJobs(worker)]
      ensures k.Some? ==> Step(old(queue.tasks), GetJob(k.value), queue.tasks)
      ensures k.Some? ==> toWorkers == old(toWorkers) + [Job(worker, old(queue.tasks)[k.value].tile)]
    {
      var front := queue.Front();
      if front.Some? {
        k := Some(KeyOf(front.value.tile));
        StepMerges(queue.tasks, GetJob(k.value), Marked(queue.tasks, k.value));
        toWorkers := toWorkers + [Job(worker, front.value.tile)];
        queue.SetProcessed(front.value.tile);
      } else {
        k := None;
        toWorkers := toWorkers + [NoJobs(worker)];
      }
    }

    method PublishAvailability()
      requires Valid()
      modifies this`announcements
      ensures announcements == old(announcements) + Availability(queue.tasks)
    {
      hide QueueMerges;
      var t := queue.Front();
      if t.Some? {
        BestPriorityIs(queue.tasks, KeyOf(t.value.tile));
        var unprocessed := queue.CountUnprocessed();
        announcements := announcements + [Announcement(t.value.priority, unprocessed)];
      } else {
        NoBestPriority(queue.tasks);
      }
    }

    // A request: it is pushed, and the queue is announced if the front task's priority is then below the request's.
    method OnRequest(tile: Tile, address: string, now: int) returns (ghost front: Option<Key>)
      requires Valid()
      modifies this, queue
      ensures Valid() && toHandlers == old(toHandlers) && toWorkers == old(toWorkers)
      ensures Step(old(queue.tasks), Op.Request(tile, address, now), queue.tasks)
      ensures IsFront(old(queue.tasks), front) && (front.Some? ==> front.value in queue.tasks)
      ensures announcements == old(announcements) +
        if Announces(queue.tasks, front, PriorityFor(tile.status)) then Availability(queue.tasks) else []
    {
      var priority := PriorityFor(tile.status);
      hide TaskMerges;
      StepMerges(queue.tasks, Op.Request(tile, address, now), Pushed(queue.tasks, tile, address, priority, now));
      var frontTask := queue.Front();
      front := if frontTask.Some? then Some(KeyOf(frontTask.value.tile)) else None;
      var _ := queue.Push(tile, address, priority, now);
      hide Pushed, Availability;
      if frontTask.None? || queue.tasks[KeyOf(frontTask.value.tile)].priority < priority {
        PublishAvailability();
      }
    }

    method OnResubmit(zombieTime: nat, now: int, later: int)
      requires Valid() && now <= later && StampedBy(queue.tasks, now)
      modifies this, queue
      ensures Valid() && toHandlers == old(toHandlers) && toWorkers == old(toWorkers)
      ensures announcements == old(announcements)
      ensures exists freed :: Step(old(queue.tasks), Resubmit(freed, zombieTime, now, later), queue.tasks)
    {
      ghost var freed := queue.ResubmitOlderThan(zombieTime, now, later);
      StepMerges(old(queue.tasks), Resubmit(freed, zombieTime, now, later), queue.tasks);
    }
  }

  method Answers(subs: seq<Subscriber>, result: Tile) returns (messages: seq<Message>)
    ensures messages == FanOut(subs, result)
  {
    messages := [];
    for i := 0 to |subs|
      invariant messages == FanOut(subs[..i], result)
    {
      var reply := subs[i].tile;
      if reply.status != Dirty && reply.status != RenderBulk {
        reply := reply.(status := result.status, lastModified := result.lastModified);
        if result.status != NotDone {
          var fmt := MaskCode(subs[i].tile.format);
          var reader := new MetatileReader(result.data, fmt);
          var body := reader.Get(reply.x, reply.y, fmt);
          reply := reply.(data := body);
        }
        messages := messages + [Message(subs[i].address, reply)];
      }
      assert subs[..i + 1][..i] == subs[..i];
    }
    assert subs[..|subs|] == subs;
  }

  // The numbers of the subscribers that get an answer: all but those of bulk and dirty commands, in order.
  function Answered(subs: seq<Subscriber>): seq<nat> {
    if subs == [] then []
    else
      var n := |subs| - 1;
      Answered(subs[..n]) + if subs[n].tile.status in {RenderBulk, Dirty} then [] else [n]
  }

  // Each of them gets one message, to its own address and about its own request.
  lemma {:induction false} FanOutIs(subs: seq<Subscriber>, result: Tile)
    ensures |FanOut(subs, result)| == |Answered(subs)|
    ensures forall i :: 0 <= i < |Answered(subs)| ==> Answered(subs)[i] < |subs|
    ensures forall i :: 0 <= i < |Answered(subs)| ==>
      var m, s := FanOut(subs, result)[i], subs[Answered(subs)[i]];
      && m.address == s.address && RequestOf(m.tile) == RequestOf(s.tile)
      && m.tile.status == result.status && m.tile.lastModified == result.lastModified
  {
    if subs != [] {
      FanOutIs(subs[..|subs| - 1], result);
      hide ReadTile;
    }
  }

  lemma MaskCodeSingle(f: Format)
    ensures MaskCode({f}) == Code(f)
  {
  }

  /* End to end: a worker that answers a task with the metatile its renderer built gives every waiting
     subscriber exactly the tile it asked for. */
  lemma {:induction false} AnswerDelivers(t: Tile, result: Tile, all: seq<Writers.Layer>, size: int, k: nat)
    requires 1 <= size <= METATILE && result.status != NotDone
    requires Writers.LayersReadBack(result.data, result, all, size)
    requires k < |all| && |all[k].contents| == size * size && t.format == {all[k].format}
    requires forall i :: 0 <= i < k ==> all[i].format != all[k].format
    requires MetaKey(t) == KeyOf(result) && t.x % METATILE < size && t.y % METATILE < size
    ensures 0 <= size * (t.y % METATILE) + t.x % METATILE < size * size
    ensures Answer(t, result).data == all[k].contents[size * (t.y % METATILE) + t.x % METATILE]
    ensures RequestOf(Answer(t, result)) == RequestOf(t) && Answer(t, result).status == result.status
  {
    hide ReadTile, MaskCode, Code;
    var y, x := t.y % METATILE, t.x % METATILE;
    var r := size * y + x;
    Writers.RowFits(size, y);
    Writers.DivModUnique(r, size, y, x);
    MaskCodeSingle(all[k].format);
    assert result.x + r % size == t.x && result.y + r / size == t.y;
    assert ReadTile(result.data, Code(all[k].format), result.x + r % size, result.y + r / size) == all[k].contents[r];
  }
}
