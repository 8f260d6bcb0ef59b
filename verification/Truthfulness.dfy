/** What clients are sent: over every run, a tile that is served is a picture of the tile that was asked for. */
module Truthfulness {
  import opened Tiles
  import opened Runs
  import opened Counting
  import opened TaskQueues
  import opened StoragePools
  import opened TileHandlers
  import opened Brokers
  import opened MetatileCodec
  import opened MetatileReads
  import opened RenderSystem
  import Writers = MetatileWriters

  // Which bytes show a tile in a format: an old and a new rendering may differ.
  type Picture = (Key, Format, seq<Byte>) -> bool

  function FormatOf(m: Formats): Format
    requires SingleFormat(m)
  {
    if PNG in m then PNG else if JPEG in m then JPEG else if JSON in m then JSON else GIF
  }

  lemma SingleMaskCode(m: Formats)
    requires SingleFormat(m)
    ensures m == {FormatOf(m)} && MaskCode(m) == Code(FormatOf(m))
  {
  }

  // Bytes that show a tile, or none.
  predicate Shows(data: seq<Byte>, k: Key, m: Formats, pic: Picture) {
    SingleFormat(m) && data != [] ==> pic(k, FormatOf(m), data)
  }

  /* ---- what is assumed of storage and of the workers ---- */

  predicate EmptyOr(data: seq<Byte>, k: Key, f: Format, pic: Picture) {
    data == [] || pic(k, f, data)
  }

  // The layers hold pictures of the tiles from the job's tile on.
  ghost predicate Depicts(job: Tile, all: seq<Writers.Layer>, size: int, pic: Picture)
    requires size > 0
  {
    forall k, r :: 0 <= k < |all| && 0 <= r < |all[k].contents| ==>
      EmptyOr(all[k].contents[r], Key(job.x + r % size, job.y + r / size, job.z, job.style), all[k].format, pic)
  }

  // A metatile that the renderer has built for the job.
  ghost predicate MadeByRenderer(result: Tile, hs: seq<Header>, all: seq<Writers.Layer>, size: int) {
    && 1 <= size <= METATILE && Writers.LaidOut(result.data, hs, result, all, size)
    && Square(all, size) && NoMagic(Concat(Writers.LayerTiles(all)))
  }

  // The responses hold pictures of the tiles of the job's formats.
  ghost predicate DepictsResponses(job: Tile, responses: seq<seq<Byte>>, pic: Picture)
    requires job.z >= 0
  {
    forall f, y: nat, x: nat :: y < METATILE && x < METATILE ==>
      EmptyOr(ResponseIn(job, responses, f, y, x), Key(job.x + x, job.y + y, job.z, job.style), f, pic)
  }

  // A metatile that the worker has found in storage, rebuilt for the formats of the job it was handed.
  ghost predicate MadeByStore(result: Tile, hs: seq<Header>, responses: seq<seq<Byte>>) {
    && result.z >= 0 && Writers.RebuiltFrom(result.data, hs, result, responses)
    && Writers.ReadsBack(result.data, result, responses) && NoMagic(Concat(responses))
  }

  // What a worker returns: no metatile at all, one that was rendered, or one that was in storage.
  ghost predicate Made(result: Tile, pic: Picture) {
    || NoMagic(result.data)
    || (exists hs, all, size :: MadeByRenderer(result, hs, all, size) && Depicts(result, all, size, pic))
    || (exists hs, responses :: MadeByStore(result, hs, responses) && DepictsResponses(result, responses, pic))
  }

  // Storage holds pictures, and workers return what they make.
  ghost predicate Faithful(s: System, e: Event, pic: Picture)
    requires Enabled(s, e)
  {
    match e
    case PoolThread(h, i, stored) =>
      var t := s.nodes[h].pool.sent[i];
      stored.Present? ==> Shows(stored.data, KeyOf(t), t.format, pic)
    case BrokerResult(b, result) => Good(result) && TaskId(b, KeyOf(result)) in s.tasks ==> Made(result, pic)
    case _ => true
  }

  /* ---- everything that can be read from what a worker returns is a picture ---- */

  ghost predicate TrueFile(result: Tile, pic: Picture) {
    forall f, x, y :: Align(x) == result.x && Align(y) == result.y ==>
      EmptyOr(ReadTile(result.data, Code(f), x, y), Key(x, y, result.z, result.style), f, pic)
  }

  lemma NoMetatileIsTrue(result: Tile, pic: Picture)
    requires NoMagic(result.data)
    ensures TrueFile(result, pic)
  {
    hide NoMagic, Code;
    forall f, x, y | Align(x) == result.x && Align(y) == result.y
      ensures EmptyOr(ReadTile(result.data, Code(f), x, y), Key(x, y, result.z, result.style), f, pic)
    {
      NoMagicNoTile(result.data, Code(f), x, y);
    }
  }

  lemma TileInDepicts(job: Tile, all: seq<Writers.Layer>, size: int, pic: Picture, f: Format, x: int, y: int)
    requires 1 <= size <= METATILE && Square(all, size) && Depicts(job, all, size, pic)
    requires Align(x) == job.x && Align(y) == job.y
    ensures EmptyOr(TileIn(all, size, f, y % METATILE, x % METATILE), Key(x, y, job.z, job.style), f, pic)
  {
    var k := FindLayer(all, f, 0);
    AlignedPlace(job, x, y);
    hide Align, FindLayer, EmptyOr;
    if k.Some? && y % METATILE < size && x % METATILE < size {
      SquarePlace(size, y % METATILE, x % METATILE);
    } else {
      NothingIsTrue(Key(x, y, job.z, job.style), f, pic);
    }
  }

  lemma NothingIsTrue(k: Key, f: Format, pic: Picture)
    ensures EmptyOr([], k, f, pic)
  {
  }

  lemma RenderedIsTrue(result: Tile, hs: seq<Header>, all: seq<Writers.Layer>, size: int, pic: Picture)
    requires MadeByRenderer(result, hs, all, size) && Depicts(result, all, size, pic)
    ensures TrueFile(result, pic)
  {
    hide Writers.LaidOut, NoMagic, Concat, Writers.LayerTiles, Depicts, ReadTile, TileIn, EmptyOr, Align, Code;
    forall f, x, y | Align(x) == result.x && Align(y) == result.y
      ensures EmptyOr(ReadTile(result.data, Code(f), x, y), Key(x, y, result.z, result.style), f, pic)
    {
      RenderedReads(result.data, hs, result, all, size, f, x, y);
      TileInDepicts(result, all, size, pic, f, x, y);
    }
  }

  lemma RebuiltIsTrue(result: Tile, hs: seq<Header>, responses: seq<seq<Byte>>, pic: Picture)
    requires MadeByStore(result, hs, responses) && DepictsResponses(result, responses, pic)
    ensures TrueFile(result, pic)
  {
    hide Writers.RebuiltFrom, Writers.ReadsBack, NoMagic, Concat, ReadTile, ResponseIn, EmptyOr, Code;
    forall f, x, y | Align(x) == result.x && Align(y) == result.y
      ensures EmptyOr(ReadTile(result.data, Code(f), x, y), Key(x, y, result.z, result.style), f, pic)
    {
      RebuiltReads(result.data, hs, result, responses, f, x, y);
      AlignedPlace(result, x, y);
    }
  }

  lemma MadeIsTrue(result: Tile, pic: Picture)
    requires Made(result, pic)
    ensures TrueFile(result, pic)
  {
    hide Writers.LaidOut, Square, Writers.RebuiltFrom, Writers.ReadsBack, Depicts, DepictsResponses, NoMagic, TrueFile;
    if NoMagic(result.data) {
      NoMetatileIsTrue(result, pic);
    } else if hs, all, size :| MadeByRenderer(result, hs, all, size) && Depicts(result, all, size, pic) {
      RenderedIsTrue(result, hs, all, size, pic);
    } else {
      var hs, responses :| MadeByStore(result, hs, responses) && DepictsResponses(result, responses, pic);
      RebuiltIsTrue(result, hs, responses, pic);
    }
  }

  /* ---- what every state then satisfies ---- */

  predicate Good(t: Tile) {
    t.status == Done || t.status == Ignore
  }

  predicate TrueTile(t: Tile, pic: Picture) {
    Good(t) ==> Shows(t.data, KeyOf(t), t.format, pic)
  }

  predicate TrueReply(r: Reply, pic: Picture) {
    r.kind.TileBody? ==>
      && SingleFormat(r.request.format)
      && pic(Key(r.request.x, r.request.y, r.request.z, r.request.style), FormatOf(r.request.format), r.kind.data)
  }

  ghost predicate TrueTiles(ts: seq<Tile>, pic: Picture) {
    forall i :: 0 <= i < |ts| ==> TrueTile(ts[i], pic)
  }

  ghost predicate TrueReplies(rs: seq<Reply>, pic: Picture) {
    forall i :: 0 <= i < |rs| ==> TrueReply(rs[i], pic)
  }

  ghost predicate TrueMessages(ms: seq<Message>, pic: Picture) {
    forall i :: 0 <= i < |ms| ==> TrueTile(ms[i].tile, pic)
  }

  ghost predicate TrueNode(n: Node, pic: Picture) {
    TrueTiles(n.pool.done, pic) && TrueTiles(n.fromStorage, pic) && TrueReplies(n.replies, pic)
  }

  ghost predicate Truthful(s: System, pic: Picture) {
    (forall h :: h in s.nodes ==> TrueNode(s.nodes[h], pic)) && TrueMessages(s.toHandler, pic)
  }

  /* ---- every step keeps it ---- */

  lemma HandledIsTrue(t: Tile, stored: Stored, pic: Picture)
    requires stored.Present? ==> Shows(stored.data, KeyOf(t), t.format, pic)
    ensures TrueTile(HandleTile(t, stored), pic)
  {
  }

  lemma JustTileIsTrue(t: Tile, pic: Picture)
    requires TrueTile(t, pic)
    ensures TrueReplies(JustTile(t).replies, pic)
  {
  }

  lemma NewRepliesAreTrue(c: Config, t: Tile, q0: nat, q1: nat, route: Option<string>, pic: Picture)
    requires TrueTile(t, pic)
    ensures TrueReplies(NewReplies(c, t, q0, q1, route), pic)
  {
    JustTileIsTrue(t, pic);
    hide JustTile, TrueTile;
  }

  lemma NodeStepTrue(c: Config, s: System, e: Event, pic: Picture)
    requires Truthful(s, pic) && Enabled(s, e) && Faithful(s, e, pic)
    requires e.Accept? || e.PoolRequest? || e.PoolThread? || e.PoolResult? || e.StorageResponse?
    ensures Truthful(Next(c, s, e), pic)
  {
    var n := s.nodes[e.h];
    hide TrueTile, TrueReply, HandleTile, NewReplies, Decide, JobSent, Shows, TrueMessages, Merged, Revived, FanOut,
      JustTile;
    match e {
      case PoolThread(h, i, stored) => HandledIsTrue(n.pool.sent[i], stored, pic);
      case StorageResponse(h, i, q0, q1, route) =>
        NewRepliesAreTrue(c, n.fromStorage[i], q0, q1, route, pic);
      case _ =>
    }
  }

  lemma ReplyStepTrue(c: Config, s: System, e: Event, pic: Picture)
    requires Truthful(s, pic) && Enabled(s, e) && e.HandlerReply?
    ensures Truthful(Next(c, s, e), pic)
  {
    hide TrueTile, TrueReply, JustTile;
    JustTileIsTrue(s.toHandler[e.i].tile, pic);
  }

  // The answer to one who waits shows the tile it asked for, or nothing.
  lemma AnswerIsTrue(t: Tile, result: Tile, pic: Picture)
    requires TrueFile(result, pic) && MetaKey(t) == KeyOf(result)
    ensures TrueTile(Answer(t, result), pic)
  {
    if SingleFormat(t.format) {
      SingleMaskCode(t.format);
      hide Align, ReadTile, Code, MaskCode, FormatOf;
      assert EmptyOr(ReadTile(result.data, Code(FormatOf(t.format)), t.x, t.y), KeyOf(t), FormatOf(t.format), pic);
    }
  }

  lemma {:induction false} FanOutIsTrue(subs: seq<Subscriber>, result: Tile, pic: Picture)
    requires Good(result) ==> TrueFile(result, pic)
    requires forall i :: 0 <= i < |subs| ==> MetaKey(subs[i].tile) == KeyOf(result)
    ensures TrueMessages(FanOut(subs, result), pic)
  {
    if subs != [] {
      var n := |subs| - 1;
      hide TrueFile, TrueTile, Answer;
      FanOutIsTrue(subs[..n], result, pic);
      if Good(result) {
        AnswerIsTrue(subs[n].tile, result, pic);
      } else {
        BadAnswerIsTrue(subs[n].tile, result, pic);
      }
    }
  }

  lemma BadAnswerIsTrue(t: Tile, result: Tile, pic: Picture)
    requires !Good(result)
    ensures TrueTile(Answer(t, result), pic)
  {
  }

  lemma ResultMessagesTrue(q: map<Key, Task>, result: Tile, pic: Picture)
    requires QueueMerges(q) && KeyOf(result) in q && (Good(result) ==> Made(result, pic))
    ensures TrueMessages(FanOut(q[KeyOf(result)].subscribers, result), pic)
  {
    SubscribersOfTask(q, KeyOf(result));
    hide Made, TrueFile, QueueMerges, FanOut, TrueMessages;
    if Good(result) {
      MadeIsTrue(result, pic);
    }
    FanOutIsTrue(q[KeyOf(result)].subscribers, result, pic);
  }

  lemma ResultStepTrue(c: Config, s: System, e: Event, pic: Picture)
    requires Truthful(s, pic) && Enabled(s, e) && Faithful(s, e, pic) && e.BrokerResult?
    requires QueueMerges(QueueOf(s, e.broker))
    ensures Truthful(Next(c, s, e), pic)
  {
    var id := TaskId(e.broker, KeyOf(e.result));
    ResultNext(c, s, e);
    hide Next, Faithful, Made, TrueNode, TrueMessages, FanOut, QueueMerges, TasksAt, Good;
    if id in s.tasks {
      TasksAtHas(s.tasks, id);
      if Good(e.result) {
        ResultMade(s, e, pic);
      }
      ResultMessagesTrue(QueueOf(s, e.broker), e.result, pic);
      AllTrue(s.toHandler, FanOut(s.tasks[id].subscribers, e.result), pic);
    }
  }

  lemma ResultNext(c: Config, s: System, e: Event)
    requires Enabled(s, e) && e.BrokerResult?
    ensures var id := TaskId(e.broker, KeyOf(e.result));
      && Next(c, s, e).nodes == s.nodes
      && Next(c, s, e).toHandler ==
        if id in s.tasks then s.toHandler + FanOut(s.tasks[id].subscribers, e.result) else s.toHandler
  {
    hide FanOut;
  }

  lemma ResultMade(s: System, e: Event, pic: Picture)
    requires Enabled(s, e) && e.BrokerResult? && Faithful(s, e, pic) && Good(e.result)
    requires TaskId(e.broker, KeyOf(e.result)) in s.tasks
    ensures Made(e.result, pic)
  {
    hide Made;
  }

  lemma AllTrue(a: seq<Message>, b: seq<Message>, pic: Picture)
    requires TrueMessages(a, pic) && TrueMessages(b, pic)
    ensures TrueMessages(a + b, pic)
  {
  }

  lemma SubscribersOfTask(q: map<Key, Task>, k: Key)
    requires QueueMerges(q) && k in q
    ensures forall i :: 0 <= i < |q[k].subscribers| ==> MetaKey(q[k].subscribers[i].tile) == k
  {
    assert TaskMerges(k, q[k]);
  }

  lemma StepTrue(c: Config, s: System, e: Event, pic: Picture)
    requires Truthful(s, pic) && Enabled(s, e) && Faithful(s, e, pic)
    requires e.BrokerResult? ==> QueueMerges(QueueOf(s, e.broker))
    ensures Truthful(Next(c, s, e), pic)
  {
    if e.Accept? || e.PoolRequest? || e.PoolThread? || e.PoolResult? || e.StorageResponse? {
      NodeStepTrue(c, s, e, pic);
    } else if e.HandlerReply? {
      ReplyStepTrue(c, s, e, pic);
    } else if e.BrokerResult? {
      ResultStepTrue(c, s, e, pic);
    } else {
      hide TrueNode, TrueMessages;
    }
  }

  /* In every run in which storage holds pictures of its tiles, old or new, and workers return what they make
     (nothing, a rendered metatile, or one from storage that may lack a format somebody waits for), every tile that
     any handler sends to a client is a picture of the tile that the client asked for, in the format it asked for. */
  lemma {:induction false} ServedTilesAreTrue(c: Config, states: seq<System>, events: seq<Event>, pic: Picture, i: nat)
    requires IsRun(c, states, events) && i < |states|
    requires forall j :: 0 <= j < |events| ==> Faithful(states[j], events[j], pic)
    ensures Truthful(states[i], pic)
    ensures forall h, j :: h in states[i].nodes && 0 <= j < |states[i].nodes[h].replies| ==>
      TrueReply(states[i].nodes[h].replies[j], pic)
  {
    if i == 0 {
      InitiallyTrue(states[0], pic);
    } else {
      hide Next, Faithful, Truthful, TrueReply, QueueMerges, Initial;
      ServedTilesAreTrue(c, states, events, pic, i - 1);
      var e := events[i - 1];
      if e.BrokerResult? {
        QueuesMerge(c, states, events, i - 1, e.broker);
      }
      StepTrue(c, states[i - 1], e, pic);
    }
    TrueStateTrueReplies(states[i], pic);
  }

  lemma InitiallyTrue(s: System, pic: Picture)
    requires Initial(s)
    ensures Truthful(s, pic)
  {
  }

  lemma TrueStateTrueReplies(s: System, pic: Picture)
    requires Truthful(s, pic)
    ensures forall h, j :: h in s.nodes && 0 <= j < |s.nodes[h].replies| ==> TrueReply(s.nodes[h].replies[j], pic)
  {
    hide TrueReply;
    forall h, j | h in s.nodes && 0 <= j < |s.nodes[h].replies| ensures TrueReply(s.nodes[h].replies[j], pic) {
      assert TrueNode(s.nodes[h], pic);
    }
  }

  /* ---- who gets a body ---- */

  function ReplyKindFor(t: Tile, result: Tile, body: seq<Byte>): ReplyKind {
    if body == [] then ServerError
    else if t.requestLastModified == 0 || result.lastModified < t.requestLastModified then TileBody(body)
    else NotModified
  }

  // What the handler does with the answer to one of its clients' requests.
  lemma AnsweredWithRead(t: Tile, result: Tile)
    requires t.id >= 0 && SingleFormat(t.format) && Good(result)
    ensures var body := ReadTile(result.data, Code(FormatOf(t.format)), t.x, t.y);
      JustTile(Answer(t, result)) == Action([Reply(RequestOf(t), ReplyKindFor(t, result, body))], None, false)
  {
    SingleMaskCode(t.format);
    hide ReadTile, Code, MaskCode, FormatOf;
  }

  // From a result that the renderer has made, a client that waits gets its tile (or that it has not changed) exactly
  // if the result has it and it is not empty; otherwise an error.
  lemma AnsweredFromRendererIff(t: Tile, result: Tile, hs: seq<Header>, all: seq<Writers.Layer>, size: int)
    requires t.id >= 0 && SingleFormat(t.format) && MetaKey(t) == KeyOf(result) && Good(result)
    requires MadeByRenderer(result, hs, all, size)
    ensures var body := TileIn(all, size, FormatOf(t.format), t.y % METATILE, t.x % METATILE);
      JustTile(Answer(t, result)) == Action([Reply(RequestOf(t), ReplyKindFor(t, result, body))], None, false)
  {
    hide Writers.LaidOut, NoMagic, Concat, Writers.LayerTiles, ReadTile, TileIn, Align, Code, FormatOf, JustTile,
      Answer;
    AnsweredWithRead(t, result);
    RenderedReads(result.data, hs, result, all, size, FormatOf(t.format), t.x, t.y);
  }

  // From one that was in storage, exactly if its format is among those of the job that was handed out, and the
  // response for the tile is not empty. So a client that joins with another format after the hand-out gets an error.
  lemma AnsweredFromStoreIff(t: Tile, result: Tile, hs: seq<Header>, responses: seq<seq<Byte>>)
    requires t.id >= 0 && SingleFormat(t.format) && MetaKey(t) == KeyOf(result) && Good(result)
    requires MadeByStore(result, hs, responses)
    ensures var body := ResponseIn(result, responses, FormatOf(t.format), t.y % METATILE, t.x % METATILE);
      JustTile(Answer(t, result)) == Action([Reply(RequestOf(t), ReplyKindFor(t, result, body))], None, false)
    ensures FormatOf(t.format) !in result.format ==>
      JustTile(Answer(t, result)).replies == [Reply(RequestOf(t), ServerError)]
  {
    AlignTwice(t.x);
    AlignTwice(t.y);
    AbsentFormat(result, responses, FormatOf(t.format), t.y % METATILE, t.x % METATILE);
    hide Writers.RebuiltFrom, Writers.ReadsBack, NoMagic, Concat, ReadTile, ResponseIn, Align, Code, FormatOf, JustTile,
      Answer;
    AnsweredWithRead(t, result);
    RebuiltReads(result.data, hs, result, responses, FormatOf(t.format), t.x, t.y);
  }

  lemma AlignTwice(v: int)
    ensures Align(Align(v)) == Align(v)
  {
  }

  lemma AbsentFormat(job: Tile, responses: seq<seq<Byte>>, f: Format, y: nat, x: nat)
    requires job.z >= 0
    ensures f !in job.format ==> ResponseIn(job, responses, f, y, x) == []
  {
  }
}
