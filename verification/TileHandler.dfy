/** The HTTP handler: what it does with an answer from storage and with a tile that comes back from a broker. */
module TileHandlers {
  import opened Tiles
  import opened Routing
  import Storage = StoragePools

  datatype ReplyKind =
    | TileBody(data: seq<Byte>)
    | NotModified
    | Text
    | Accepted
    | NotFound
    | ServerError
    | Busy

  // An HTTP reply. `request` is what the reply answers; only its client id goes out.
  datatype Reply = Reply(request: Request, kind: ReplyKind)

  datatype Config = Config(stale: nat, satisfy: nat, max: nat, staleRenderBackground: bool)

  // Thresholds are 64-bit sizes.
  predicate ValidConfig(c: Config) {
    c.stale <= MAX_SIZE && c.satisfy <= MAX_SIZE && c.max <= MAX_SIZE
  }

  datatype ReplyOutcome = Replied(reply: Reply) | Silent | Throws

  function ReplyWithTile(t: Tile): ReplyOutcome {
    if t.id < 0 then Silent
    else if (t.status == Done || t.status == Ignore) && |t.data| > 0 then
      if !SingleFormat(t.format) then Throws
      else if t.requestLastModified == 0 || t.lastModified < t.requestLastModified then
        Replied(Reply(RequestOf(t), TileBody(t.data)))
      else Replied(Reply(RequestOf(t), NotModified))
    else Replied(Reply(RequestOf(t), ServerError))
  }

  // What an answer from storage leads to: HTTP replies, then a job for the queue.
  datatype Action = Action(replies: seq<Reply>, job: Option<Tile>, throws: bool)

  function Just(t: Tile, kind: ReplyKind): Action {
    Action([Reply(RequestOf(t), kind)], None, false)
  }

  // The same tile as a background job that nobody waits for.
  function Background(t: Tile): Tile {
    t.(status := RenderBulk, data := [], id := -1)
  }

  function JustTile(t: Tile): Action {
    match ReplyWithTile(t)
    case Replied(r) => Action([r], None, false)
    case Silent => Action([], None, false)
    case Throws => Action([], None, true)
  }

  // `q0` and `q1` are what the first and the second call of `queue_length` return.
  function Decide(c: Config, t: Tile, q0: nat, q1: nat): Action {
    match t.status
    case Status =>
      if t.lastModified > 0 || |t.data| > 0 then Just(t, Text) else Just(t, NotFound)
    case Dirty =>
      if q0 >= c.max then Just(t, Busy) else Just(t, Text).(job := Some(Background(t)))
    case NotDone =>
      if q0 >= c.max then Just(t, Busy)
      else if q1 >= c.satisfy then Just(t, Accepted).(job := Some(Background(t)))
      else Action([], Some(t.(status := Render)), false)
    case _ =>
      if t.status == Done || q0 >= c.stale then JustTile(t)
      else if c.staleRenderBackground then
        var reply := JustTile(t);
        if reply.throws || q1 >= c.stale then reply else reply.(job := Some(Background(t)))
      else Action([], Some(t.(status := Render)), false)
  }

  // A job that could not be sent is answered with an error if a client waits for it.
  function OnSendError(job: Tile): seq<Reply> {
    if job.id > 0 then [Reply(RequestOf(job), NotFound)] else []
  }

  // A job on the way to or in a broker: either a client's, to be rendered, or nobody's, in bulk.
  predicate SoundJob(t: Tile) {
    || (t.id > 0 && t.status == Render && SingleFormat(t.format))
    || (t.id == -1 && t.status == RenderBulk)
  }

  /* A client's single-format answer from storage is either answered at once, by exactly one reply, or
     becomes a job that keeps the client's request; never both, never neither. */
  lemma DecideAnswersOnce(c: Config, t: Tile, q0: nat, q1: nat)
    requires t.id > 0 && SingleFormat(t.format)
    ensures var a := Decide(c, t, q0, q1);
      && !a.throws
      && (forall i :: 0 <= i < |a.replies| ==> a.replies[i].request == RequestOf(t))
      && (a.job.Some? ==> SoundJob(a.job.value))
      && (a.job.Some? && a.job.value.id > 0 ==> a.replies == [] && RequestOf(a.job.value) == RequestOf(t))
      && (a.job.None? || a.job.value.id < 0 ==> |a.replies| == 1)
  {
  }

  // It throws exactly for a client's tile that is found, about to be served, and has no single format.
  lemma DecideThrowsIff(c: Config, t: Tile, q0: nat, q1: nat)
    ensures Decide(c, t, q0, q1).throws <==>
      && t.id >= 0 && |t.data| > 0 && !SingleFormat(t.format)
      && (t.status == Done || (t.status == Ignore && (q0 >= c.stale || c.staleRenderBackground)))
  {
  }

  /* ---- storage and handler together ---- */

  // A tile served at once is the one in storage, and it is an old one only where old ones may be served.
  lemma ServedIsStored(c: Config, t: Tile, stored: Storage.Stored, q0: nat, q1: nat, i: nat)
    requires t.status != Dirty && i < |Decide(c, Storage.HandleTile(t, stored), q0, q1).replies|
    requires Decide(c, Storage.HandleTile(t, stored), q0, q1).replies[i].kind.TileBody?
    ensures stored.Present? && Decide(c, Storage.HandleTile(t, stored), q0, q1).replies[i].kind.data == stored.data
    ensures stored.expired ==> q0 >= c.stale || c.staleRenderBackground
  {
  }

  // What is rendered: what was asked for, what storage could not give, and what it gave but is old; never a tile
  // that is in storage and up to date, and nothing while the queue is over its limits.
  lemma RenderedIsNeeded(c: Config, t: Tile, stored: Storage.Stored, q0: nat, q1: nat)
    ensures Decide(c, Storage.HandleTile(t, stored), q0, q1).job.Some? ==>
      t.status == Dirty || stored.Raises? || (t.status != Status && (stored.Missing? || stored.expired))
    ensures Decide(c, Storage.HandleTile(t, stored), q0, q1).job.Some? ==> q0 < c.max || q0 < c.stale
    ensures t.status != Dirty && t.status != Status && stored.Missing? && q0 < c.max && q1 < c.satisfy ==>
      Decide(c, Storage.HandleTile(t, stored), q0, q1) == Action([], Some(t.(status := Render)), false)
  {
  }

  // What the handler does about a request, given what storage holds for it.
  function Handled(c: Config, t: Tile, stored: Storage.Stored, q0: nat, q1: nat): Action {
    Decide(c, Storage.HandleTile(t, stored), q0, q1)
  }

  // A request for a tile, as opposed to one for its status or to have it rendered anew.
  predicate Wanted(t: Tile) {
    t.status != Dirty && t.status != Status
  }

  // The reply that carries a tile with the time at which it was last modified.
  function TileReply(t: Tile, data: seq<Byte>, lastModified: int): Reply {
    Reply(RequestOf(t),
      if t.requestLastModified == 0 || lastModified < t.requestLastModified then TileBody(data) else NotModified)
  }

  // The job that renders the request's tile for nobody, whatever else its tile says.
  predicate BulkJob(job: Tile, t: Tile) {
    job.id == -1 && job.status == RenderBulk && job.data == [] && KeyOf(job) == KeyOf(t) && job.format == t.format
  }

  // The job that renders it for the client.
  predicate ClientJob(job: Tile, t: Tile) {
    job.status == Render && RequestOf(job) == RequestOf(t) && job.requestLastModified == t.requestLastModified
  }

  // A tile that is in storage and up to date is served, or said not to have changed, and nothing is rendered.
  lemma FreshTileIsServed(c: Config, t: Tile, stored: Storage.Stored, q0: nat, q1: nat)
    requires t.id >= 0 && SingleFormat(t.format) && Wanted(t)
    requires stored.Present? && !stored.expired && stored.data != []
    ensures Handled(c, t, stored, q0, q1) == Action([TileReply(t, stored.data, stored.lastModified)], None, false)
  {
  }

  // An old tile is served alone while the queue is long; with background rendering it is served and rendered for
  // nobody while the queue is short; otherwise the client waits for a new one.
  lemma StaleTileIsServed(c: Config, t: Tile, stored: Storage.Stored, q0: nat, q1: nat)
    requires t.id >= 0 && SingleFormat(t.format) && Wanted(t)
    requires stored.Present? && stored.expired && stored.data != []
    ensures var a, reply := Handled(c, t, stored, q0, q1), TileReply(t, stored.data, stored.lastModified);
      && !a.throws
      && (q0 >= c.stale ==> a.replies == [reply] && a.job == None)
      && (q0 < c.stale && c.staleRenderBackground ==>
        a.replies == [reply] && (a.job.Some? <==> q1 < c.stale) && (a.job.Some? ==> BulkJob(a.job.value, t)))
      && (q0 < c.stale && !c.staleRenderBackground ==>
        a.replies == [] && a.job.Some? && ClientJob(a.job.value, t))
  {
  }

  // A tile of no bytes is an error to its client, unless it is to be rendered.
  lemma EmptyTileIsAnError(c: Config, t: Tile, stored: Storage.Stored, q0: nat, q1: nat)
    requires t.id >= 0 && Wanted(t) && stored.Present? && stored.data == []
    requires !stored.expired || q0 >= c.stale || c.staleRenderBackground
    ensures Handled(c, t, stored, q0, q1).replies == [Reply(RequestOf(t), ServerError)]
  {
  }

  // A tile that storage does not have, or fails to give: refused while the queue is over its limit, rendered for
  // nobody while it is long, and otherwise rendered for the client, who waits.
  lemma MissingTileIsRendered(c: Config, t: Tile, stored: Storage.Stored, q0: nat, q1: nat)
    requires stored.Raises? || (stored.Missing? && Wanted(t))
    ensures var a := Handled(c, t, stored, q0, q1);
      && !a.throws
      && (q0 >= c.max ==> a == Action([Reply(RequestOf(t), Busy)], None, false))
      && (q0 < c.max && q1 >= c.satisfy ==>
        a.replies == [Reply(RequestOf(t), Accepted)] && a.job.Some? && BulkJob(a.job.value, t))
      && (q0 < c.max && q1 < c.satisfy ==> a.replies == [] && a.job.Some? && ClientJob(a.job.value, t))
  {
  }

  // A command to render anew is refused while the queue is over its limit, and otherwise confirmed and queued.
  lemma DirtyTileIsQueued(c: Config, t: Tile, stored: Storage.Stored, q0: nat, q1: nat)
    requires t.status == Dirty && !stored.Raises?
    ensures var a := Handled(c, t, stored, q0, q1);
      && !a.throws
      && (q0 >= c.max ==> a == Action([Reply(RequestOf(t), Busy)], None, false))
      && (q0 < c.max ==> a.replies == [Reply(RequestOf(t), Text)] && a.job.Some? && BulkJob(a.job.value, t))
  {
  }

  // A question about a tile's status is answered from storage: it is there if it has a time or bytes.
  lemma StatusIsTold(c: Config, t: Tile, stored: Storage.Stored, q0: nat, q1: nat)
    requires t.status == Status && !stored.Raises?
    ensures var there := if stored.Present? then stored.lastModified > 0 || stored.data != []
                         else t.lastModified > 0 || t.data != [];
      Handled(c, t, stored, q0, q1) == Action([Reply(RequestOf(t), if there then Text else NotFound)], None, false)
  {
  }

  /* ---- the settling gate ---- */

  /* While the handler settles, nothing is enqueued; and a job that is enqueued is never refused for
     settling. The queue length is read at t0 and t1 and the job is sent at t2, on one clock. */
  lemma SettlingGate(c: Config, t: Tile, hbs: map<string, Heartbeat>, settle: Option<int>, t0: int, t1: int, t2: int)
    requires ValidConfig(c) && t0 <= t1 <= t2
    ensures settle.Some? && t0 <= settle.value ==>
      Decide(c, t, QueueLengthAt(hbs, settle, t0), QueueLengthAt(hbs, settle, t1)).job.None?
    ensures Decide(c, t, QueueLengthAt(hbs, settle, t0), QueueLengthAt(hbs, settle, t1)).job.Some? ==>
      settle.None? || settle.value < t2
  {
  }

  class TileHandler {
    const config: Config
    const backend: Backend
    var replies: seq<Reply>
    var crashed: bool

    ghost predicate Valid()
      reads this, backend, backend.router
    {
      ValidConfig(config) && backend.Valid()
    }

    constructor (config: Config, backend: Backend)
      requires ValidConfig(config) && backend.Valid()
      ensures Valid() && this.config == config && this.backend == backend && replies == [] && !crashed
    {
      this.config, this.backend, replies, crashed := config, backend, [], false;
    }

    method ReplyTo(t: Tile)
      modifies this`replies, this`crashed
      ensures replies == old(replies) + JustTile(t).replies && crashed == (old(crashed) || JustTile(t).throws)
    {
      if t.id < 0 {
        return;
      }
      if (t.status == Done || t.status == Ignore) && |t.data| > 0 {
        if !SingleFormat(t.format) {
          crashed := true;
          return;
        }
        if t.requestLastModified == 0 || t.lastModified < t.requestLastModified {
          replies := replies + [Reply(RequestOf(t), TileBody(t.data))];
        } else {
          replies := replies + [Reply(RequestOf(t), NotModified)];
        }
      } else {
        replies := replies + [Reply(RequestOf(t), ServerError)];
      }
    }

    method SendToQueue(job: Tile, now: int, next: int, last: int) returns (r: SendResult)
      requires Valid()
      modifies this`replies, backend, backend.router
      ensures Valid()
      ensures r.StillSettling? <==> old(backend.settleTime).Some? && now <= old(backend.settleTime).value
      ensures r.Sent? ==> r.broker in old(backend.heartbeats)
      ensures r.Sent? ==> last - old(backend.heartbeats)[r.broker].time < backend.livenessTime
      ensures backend.outbox == old(backend.outbox) + if r.Sent? then [(r.broker, job)] else []
      ensures replies == old(replies) + if r.Sent? || job.id <= 0 then [] else [Reply(RequestOf(job), NotFound)]
    {
      r := backend.Send(job, now, next, last);
      if !r.Sent? && job.id > 0 {
        replies := replies + [Reply(RequestOf(job), NotFound)];
      }
    }

    // Replies as the tile and the two queue lengths call for, and gives the job that is then to be queued.
    method Answer(tile: Tile, q0: nat, q1: nat) returns (job: Option<Tile>)
      modifies this`replies, this`crashed
      ensures var a := Decide(config, tile, q0, q1);
        job == a.job && replies == old(replies) + a.replies && crashed == (old(crashed) || a.throws)
    {
      job := None;
      if tile.status == Status {
        if tile.lastModified > 0 {
          replies := replies + [Reply(RequestOf(tile), Text)];
        } else if |tile.data| > 0 {
          replies := replies + [Reply(RequestOf(tile), Text)];
        } else {
          replies := replies + [Reply(RequestOf(tile), NotFound)];
        }
      } else if tile.status == Dirty {
        if q0 >= config.max {
          replies := replies + [Reply(RequestOf(tile), Busy)];
        } else {
          replies := replies + [Reply(RequestOf(tile), Text)];
          job := Some(tile.(status := RenderBulk, data := [], id := -1));
        }
      } else if tile.status == NotDone {
        if q0 >= config.max {
          replies := replies + [Reply(RequestOf(tile), Busy)];
        } else if q1 >= config.satisfy {
          replies := replies + [Reply(RequestOf(tile), Accepted)];
          job := Some(tile.(status := RenderBulk, data := [], id := -1));
        } else {
          job := Some(tile.(status := Render));
        }
      } else if tile.status == Done || q0 >= config.stale {
        ReplyTo(tile);
      } else if config.staleRenderBackground {
        ReplyTo(tile);
        if q1 < config.stale && !JustTile(tile).throws {
          job := Some(tile.(status := RenderBulk, data := [], id := -1));
        }
      } else {
        job := Some(tile.(status := Render));
      }
    }

    /* Handles one answer from storage, reading the clock in the order t0, t1, t2, t3, t4. What it does is what
       `Decide` says, and the queue never refuses its job for settling. */
    method OnStorageResponse(tile: Tile, t0: int, t1: int, t2: int, t3: int, t4: int)
      returns (ghost a: Action, r: Option<SendResult>)
      requires Valid() && t0 <= t1 <= t2
      modifies this`replies, this`crashed, backend, backend.router
      ensures Valid()
      ensures a == Decide(config, tile, QueueLengthAt(old(backend.heartbeats), old(backend.settleTime), t0),
                          QueueLengthAt(old(backend.heartbeats), old(backend.settleTime), t1))
      ensures r.Some? <==> a.job.Some?
      ensures r.Some? ==> !r.value.StillSettling?
      ensures crashed == (old(crashed) || a.throws)
      ensures backend.outbox == old(backend.outbox) +
        if r.Some? && r.value.Sent? then [(r.value.broker, a.job.value)] else []
      ensures replies == old(replies) + a.replies + if r.Some? && !r.value.Sent? then OnSendError(a.job.value) else []
    {
      var q0 := backend.QueueLength(t0);
      var q1 := backend.QueueLength(t1);
      SettlingGate(config, tile, backend.heartbeats, backend.settleTime, t0, t1, t2);
      a := Decide(config, tile, q0, q1);
      var job := Answer(tile, q0, q1);
      r := None;
      if job.Some? {
        var sent := SendToQueue(job.value, t2, t3, t4);
        r := Some(sent);
      }
    }
  }
}
