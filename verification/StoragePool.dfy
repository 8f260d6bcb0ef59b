/** The handler's bounded pool of storage threads. */
module StoragePools {
  import opened Tiles
  import opened Counting

  /* ---- one thread's work on one request ---- */

  // What the storage layer does when it is asked about a tile.
  datatype Stored = Missing | Present(expired: bool, data: seq<Byte>, lastModified: int) | Raises(data: seq<Byte>)

  // The thread's answer; a storage error turns into "not done".
  function HandleTile(t: Tile, stored: Stored): Tile {
    if stored.Raises? then t.(status := NotDone, data := stored.data)
    else if t.status == Dirty then t
    else
      match stored
      case Present(expired, data, lastModified) =>
        var status := if t.status == Status then Status else if expired then Ignore else Done;
        t.(status := status, data := data, lastModified := lastModified)
      case _ =>
        if t.status == Status then t else t.(status := NotDone)
  }

  // The answer is always to the same request.
  lemma HandleTileKeepsRequest(t: Tile, stored: Stored)
    ensures RequestOf(HandleTile(t, stored)) == RequestOf(t)
    ensures HandleTile(t, stored).status in {Dirty, Status, Done, Ignore, NotDone}
    ensures HandleTile(t, stored).status == Dirty ==> t.status == Dirty
  {
  }

  // The tiles that a dirty command has expired: the tile itself, and it in each style that depends on its own.
  function Expiries(t: Tile, dependents: map<string, seq<string>>): seq<Tile> {
    if t.status != Dirty then []
    else [t] + if t.style in dependents then InStyles(t, dependents[t.style]) else []
  }

  function InStyles(t: Tile, styles: seq<string>): seq<Tile> {
    seq(|styles|, i requires 0 <= i < |styles| => t.(style := styles[i]))
  }

  // Nothing is expired but the tile asked for, in its own style first and then in the styles that depend on it.
  lemma ExpiriesAre(t: Tile, dependents: map<string, seq<string>>, i: nat)
    ensures t.status != Dirty ==> Expiries(t, dependents) == []
    ensures t.status == Dirty ==>
      |Expiries(t, dependents)| == 1 + if t.style in dependents then |dependents[t.style]| else 0
    ensures i < |Expiries(t, dependents)| ==>
      var e := Expiries(t, dependents)[i];
      && Key(e.x, e.y, e.z, t.style) == KeyOf(t) && e.format == t.format
      && (i == 0 ==> e.style == t.style)
      && (i > 0 ==> t.style in dependents && i - 1 < |dependents[t.style]| && e.style == dependents[t.style][i - 1])
  {
  }

  /* The thread's call on one request. `calls` is how many calls to storage succeed before one that raises; without an
     exception everything that should be is expired, and with one a first part of it. */
  method HandleOne(t: Tile, stored: Stored, dependents: map<string, seq<string>>, calls: nat)
    returns (answer: Tile, expired: seq<Tile>)
    ensures answer == HandleTile(t, stored)
    ensures if stored.Raises? then expired <= Expiries(t, dependents) else expired == Expiries(t, dependents)
  {
    expired := [];
    if t.status == Dirty && (!stored.Raises? || calls > 0) {
      expired := [t];
      if t.style in dependents {
        var styles := dependents[t.style];
        for i := 0 to |styles|
          invariant expired == [t] + InStyles(t, styles)[..i]
        {
          if stored.Raises? && |expired| >= calls {
            break;
          }
          expired := expired + [t.(style := styles[i])];
        }
      }
    }
    answer := HandleTile(t, stored);
  }

  /* ---- the pool ---- */

  /* `sent` holds the requests that threads have been given and not yet answered, `done` the answers
     that have not been collected yet. */
  datatype Pool = Pool(max: nat, cur: nat, backlog: seq<Tile>, sent: seq<Tile>, done: seq<Tile>)

  ghost predicate PoolInv(p: Pool) {
    && p.cur == |p.sent| + |p.done| <= p.max
    && (p.backlog != [] ==> p.cur == p.max)
  }

  function Received(p: Pool, t: Tile): Pool {
    if p.cur < p.max then p.(cur := p.cur + 1, sent := p.sent + [t]) else p.(backlog := p.backlog + [t])
  }

  function Worked(p: Pool, i: nat, stored: Stored): Pool
    requires i < |p.sent|
  {
    p.(sent := Take(p.sent, i), done := p.done + [HandleTile(p.sent[i], stored)])
  }

  function Collected(p: Pool, i: nat): Pool
    requires i < |p.done| && p.cur > 0
  {
    var q := p.(done := Take(p.done, i));
    if p.backlog != [] then q.(sent := q.sent + [p.backlog[0]], backlog := p.backlog[1..]) else q.(cur := p.cur - 1)
  }

  class StorageWorker {
    const maxConcurrency: nat
    var curConcurrency: nat
    var queuedRequests: seq<Tile>
    var threadsOut: seq<Tile>
    var threadsIn: seq<Tile>
    var resultsOut: seq<Tile>
    ghost var received: seq<Tile>
    ghost var dispatched: seq<Tile>

    ghost function View(): Pool
      reads this
    {
      Pool(maxConcurrency, curConcurrency, queuedRequests, threadsOut, threadsIn)
    }

    ghost predicate Valid()
      reads this
    {
      && PoolInv(View())
      && dispatched + queuedRequests == received
      && |received| == |resultsOut| + |queuedRequests| + |threadsOut| + |threadsIn|
    }

    constructor (maxConcurrency: nat)
      ensures Valid() && View() == Pool(maxConcurrency, 0, [], [], []) && received == [] && resultsOut == []
    {
      this.maxConcurrency := maxConcurrency;
      curConcurrency, queuedRequests, threadsOut, threadsIn, resultsOut := 0, [], [], [], [];
      received, dispatched := [], [];
    }

    method OnRequest(t: Tile)
      requires Valid()
      modifies this
      ensures Valid() && View() == Received(old(View()), t)
      ensures received == old(received) + [t] && resultsOut == old(resultsOut)
    {
      if curConcurrency < maxConcurrency {
        threadsOut := threadsOut + [t];
        dispatched := dispatched + [t];
        curConcurrency := curConcurrency + 1;
      } else {
        queuedRequests := queuedRequests + [t];
      }
      received := received + [t];
    }

    // Some thread answers request i of those it and the others hold.
    method OnThread(i: nat, stored: Stored)
      requires Valid() && i < |threadsOut|
      modifies this
      ensures Valid() && View() == Worked(old(View()), i, stored)
      ensures received == old(received) && resultsOut == old(resultsOut)
    {
      threadsIn := threadsIn + [HandleTile(threadsOut[i], stored)];
      threadsOut := Take(threadsOut, i);
    }

    method OnResult(i: nat)
      requires Valid() && i < |threadsIn|
      modifies this
      ensures Valid() && View() == Collected(old(View()), i)
      ensures received == old(received) && resultsOut == old(resultsOut) + [old(threadsIn)[i]]
    {
      resultsOut := resultsOut + [threadsIn[i]];
      threadsIn := Take(threadsIn, i);
      if queuedRequests != [] {
        threadsOut := threadsOut + [queuedRequests[0]];
        dispatched := dispatched + [queuedRequests[0]];
        queuedRequests := queuedRequests[1..];
      } else {
        curConcurrency := curConcurrency - 1;
      }
    }
  }

  /* ---- runs of the pool ---- */

  datatype PoolEvent = Request(tile: Tile) | Thread(i: nat, stored: Stored) | Result(i: nat)

  ghost predicate PoolStep(p: Pool, e: PoolEvent, p': Pool) {
    match e
    case Request(t) => p' == Received(p, t)
    case Thread(i, stored) => i < |p.sent| && p' == Worked(p, i, stored)
    case Result(i) => i < |p.done| && p.cur > 0 && p' == Collected(p, i)
  }

  lemma PoolStepKeeps(p: Pool, e: PoolEvent, p': Pool)
    requires PoolInv(p) && PoolStep(p, e, p')
    ensures PoolInv(p') && p'.max == p.max
  {
  }

  // The request that a step hands to a thread, if it does.
  function Dispatch(p: Pool, e: PoolEvent): seq<Tile> {
    match e
    case Request(t) => if p.cur < p.max then [t] else []
    case Thread(_, _) => []
    case Result(_) => if p.backlog != [] then [p.backlog[0]] else []
  }

  function Arrival(e: PoolEvent): seq<Tile> {
    if e.Request? then [e.tile] else []
  }

  // The first in the backlog goes first, and the step loses nothing.
  lemma PoolStepInOrder(p: Pool, e: PoolEvent, p': Pool)
    requires PoolInv(p) && PoolStep(p, e, p')
    ensures Dispatch(p, e) + p'.backlog == p.backlog + Arrival(e)
    ensures |p'.backlog| + |p'.sent| + |p'.done| + (if e.Result? then 1 else 0)
      == |p.backlog| + |p.sent| + |p.done| + |Arrival(e)|
  {
  }

  // The requests that a run hands to the threads, in the order in which it does.
  function Dispatches(run: seq<Pool>, events: seq<PoolEvent>): seq<Tile>
    requires |run| == |events| + 1
  {
    if events == [] then []
    else
      var n := |events| - 1;
      Dispatches(run[..n + 1], events[..n]) + Dispatch(run[n], events[n])
  }

  function Arrivals(events: seq<PoolEvent>): seq<Tile> {
    if events == [] then [] else Arrivals(events[..|events| - 1]) + Arrival(events[|events| - 1])
  }

  function ResultCount(events: seq<PoolEvent>): nat {
    Count(events, (e: PoolEvent) => e.Result?)
  }

  /* Over every run: the counter is exactly the number of requests out with the threads and never passes
     the limit; nothing waits while a thread is free; requests are dispatched in the order in which they
     arrived; none is lost. */
  lemma {:induction false} PoolRun(run: seq<Pool>, events: seq<PoolEvent>, max: nat)
    requires |run| == |events| + 1 && run[0] == Pool(max, 0, [], [], [])
    requires forall i :: 0 <= i < |events| ==> PoolStep(run[i], events[i], run[i + 1])
    ensures PoolInv(run[|events|]) && run[|events|].max == max
    ensures Dispatches(run, events) + run[|events|].backlog == Arrivals(events)
    ensures |Arrivals(events)| ==
      ResultCount(events) + |run[|events|].backlog| + |run[|events|].sent| + |run[|events|].done|
  {
    if events != [] {
      var n := |events| - 1;
      var p, p' := run[n], run[n + 1];
      PoolRun(run[..n + 1], events[..n], max);
      PoolStepKeeps(p, events[n], p');
      PoolStepInOrder(p, events[n], p');
      hide PoolInv, PoolStep, Dispatch, Arrival;
      Regroup(Dispatches(run[..n + 1], events[..n]), Dispatch(p, events[n]), p'.backlog, p.backlog, Arrival(events[n]));
    }
  }

  lemma Regroup<T>(a: seq<T>, b: seq<T>, c: seq<T>, d: seq<T>, e: seq<T>)
    requires b + c == d + e
    ensures (a + b) + c == (a + d) + e
  {
    assert (a + b) + c == a + (b + c);
    assert (a + d) + e == a + (d + e);
  }
}
