# Verified model of the MapQuest render stack

The render stack answers HTTP requests for map tiles. A handler looks a tile up in storage; a tile that
has to be rendered becomes a job that a consistent-hash ring of live brokers routes to one of them. The
broker merges all requests for an 8x8 metatile into one task, hands it to a pulling worker, and sends the
result to everybody who waits for it. Metatiles are kept in a byte format written by C++ and Python,
split over hashed hosts, and expired through two compact indexes.

The project models the parts where this is intricate and proves what they are for:

* **The render queue** (`Tiles`, `Counting`, `TaskQueue`, `Broker`, `StoragePool`, `TileHandler`,
  `ConsistentHash`, `Routing`, `Communicator`, `RenderSystem`, `RoutedSystem`, `Truthfulness`). Each class is proved against
  functions of its state. `RenderSystem` puts handlers, storage pools and brokers together as one system of
  steps and proves that in every interleaving every accepted request is accounted for exactly once;
  `RoutedSystem` adds the routing, and `Truthfulness` proves that every tile that is served is a picture of the
  tile that was asked for, also with stale tiles, results without a metatile, and formats that a result lacks.
* **The metatile codec and the sharded store** (`Runs`, `MetatileCodec`, `MetatileWriters`, `MetatileReads`,
  `LtsStorage`, `RoundTrip`). Bytes written by either writer read back; a metatile that is rendered, stored tile by tile and
  rebuilt has the rendered tiles.
* **The expiry indexes** (`Powers`, `Morton`, `ExpiryBitmap`, `ExpirySet`, `BinaryStar`, `TimedBinaryStar`). The
  Morton-ordered bitmap and the 32-bit packing behave as plain sets; the two redundant servers are never both
  masters unless a silence timer runs out on a live master, which timely heartbeats exclude.
* **Three smaller algorithms** (`Clipping`, `ExpireTiles`, `StatsCollector`, with `Division` for the rounding).

Sockets are bags or queues of messages, the clock is a parameter, a broker's hash points and the key hash
are fixed but arbitrary functions, URLs are tuples and tile bytes are opaque. Integers are unbounded;
where the width matters it is written out (32-bit file fields, 64-bit bitmap places, 32-bit packed
metatiles, the wrap of the summed queue lengths, the conversion of announced priorities to `int`).

Seven promises turned out not to hold of the code as it is. The model keeps the code, shows an input and
gives the exact condition:

* `resubmit_older_than` is said to reset all old tasks. Restamping moves the element to the end of the
  index that is being walked, so one sweep frees only an oldest one: with a positive timeout it frees all exactly
  when there is at most one (`SweepFreesAllIff`, `SweepLeavesSecondZombie`). Repeated sweeps do free all
  (`RepeatedSweepsFreeAll`).
* Workers are said to be notified when the highest priority in the queue changes. A rise is announced exactly
  when the request was not merged into the front task itself (`RiseAnnouncedIff`, `RiseNotAnnounced`).
* Removing a broker from the ring should move only its own keys. With shared points it moves others' keys,
  except exactly where each point it takes away is followed by another of the same owner
  (`SharedPointIsLost`, `EraseMovesOnlyOwnedIff`).
* A put to the store that reports success should be what is read. With only the second copies accepted it is hidden
  behind older good first copies, exactly unless each first copy that was not written held the same bytes or one
  of them was missing or out of date (`StalePut`, `ReadsBackIff`).
* The pair of expiry servers has two masters at some moment exactly when a client's request meets an
  expired silence timer while the peer is a live master (`MutualExclusion`, `LostHeartbeatsSplit`). Heartbeats
  that get through often and soon enough exclude it (`TimedMutualExclusion`).
* Expiring a metatile does not expire every metatile below it, only those that lie under its corner tile. It
  does exactly for the metatile of zoom 0, down to zoom 3, or with no zoom below to reach
  (`CoversBelowIff`, `ChildMetatileMissed`).
* `set_tile` reports success for a place beyond the end of the bitmap although nothing is kept
  (`SetBeyondEndIsLost`, `SetTileLost`).

`dafny verify dfyconfig.toml` checks everything.

## Model

| member | source | states |
|---|---|---|
| `TaskQueues.TaskQueue.Push` | task_queue.hpp:284-304 | one aligned task per metatile and style, status render; a request for a known one joins it: priority raised to the maximum, formats united, subscriber appended; says whether the task is new |
| `TaskQueues.SharesTaskIff` | task_queue.hpp:284-304 | two requests become one task exactly if style and zoom agree and so do both coordinates after division by 8 |
| `TaskQueues.NewTaskIsAligned` | task_queue.hpp:284-304 | the tile of a new task is the first of the 8x8 square that the request lies in, in its style and zoom |
| `TaskQueues.NewTaskIsFresh` | task_queue.hpp:284-304 | a new task has the time and priority of its request, its one subscriber, and is to be had |
| `TaskQueues.JoinedKeeps` | task_queue.hpp:284-304 | joining changes neither a task's time nor whether it is handed out, nor its coordinates |
| `TaskQueues.TaskQueue.SetProcessed` | task_queue.hpp:231-241 | marks exactly the task with the tile's coordinates and style, if there is one |
| `TaskQueues.HandedOutIsTaken` | task_queue.hpp:224-241 | the marked task is no longer among those to be had, and nothing else in the queue changes |
| `TaskQueues.TaskQueue.Erase` | task_queue.hpp:330-341 | removes exactly that task and says whether it existed |
| `TaskQueues.TaskQueue.Clear` | task_queue.hpp:417 | removes all tasks |
| `TaskQueues.TaskQueue.Front` | task_queue.hpp:374-387 | an unprocessed task of maximal priority; absent exactly when no task is unprocessed |
| `TaskQueues.TaskQueue.CountUnprocessed` | task_queue.hpp:401-413 | the number of unprocessed tasks, which is 0 exactly when `Front` finds none |
| `TaskQueues.TaskQueue.ResubmitOlderThan` | task_queue.hpp:254-271 | with the restamped element moving in the index that is walked: frees the first zombie the walk meets and ends there, unless that one need not move, when it frees all; nothing else changes |
| `TaskQueues.SweepFreesOldest` | task_queue.hpp:254-271 | a sweep frees only tasks that are handed out, not bulk, and at least `timeout` old, among them an oldest if there is one and, for a positive timeout, no second one |
| `TaskQueues.FreedIsFresh` | task_queue.hpp:213-221 | a freed task is a zombie again no sooner than `timeout` after the sweep, though it be handed out at once; its tile, priority and subscribers are kept |
| `TaskQueues.SweepFreesAllIff` | task_queue.hpp:243-271 | a sweep frees all that its documentation says exactly when the first zombie is the only one or every task behind it in the index was stamped in the moment of the sweep; for a positive timeout exactly when it is the only one |
| `TaskQueues.SweepShrinks` | task_queue.hpp:213-271 | after a sweep the zombies are those before it minus the freed ones, strictly fewer if there were any |
| `TaskQueues.RepeatedSweepsFreeAll` | task_queue.hpp:213-271 | as many sweeps at one time as there are zombies leave none |
| `Brokers.StepMerges` | tile_broker_impl.cpp:310-371 | every broker operation keeps: each task's key is aligned, its status is render, its priority is the maximum and its format the union over its subscribers, all of which asked for its metatile |
| `Brokers.RunMerges` | task_queue.hpp:181-200 | that holds in every state of every run, and two tasks never share a metatile and style |
| `Brokers.StepKeepsSubscribers` | tile_broker_impl.cpp:127-163 | an operation that does not end a task keeps its subscribers in order, adds at most the new request, and lowers neither priority nor formats |
| `Brokers.RunKeepsSubscribers` | task_queue.hpp:181-200 | over any part of a run a subscriber is dropped only by its task's result or by clearing the queue |
| `Brokers.Broker.OnResult` | tile_broker_impl.cpp:127-163 | the first result for a task is fanned out to all its waiting subscribers and ends it; a duplicate finds no task and does nothing |
| `Brokers.Broker.OnGetJob` | tile_broker_impl.cpp:316-328 | a worker gets a best unprocessed task, which is then marked, or NO JOBS exactly when there is none |
| `Brokers.Broker.OnRequest` | tile_broker_impl.cpp:332-356 | a request is pushed with the priority of its command, keeping the merge invariant; the queue is announced if there was no front task or its priority, looked at after the push, is below the request's |
| `Brokers.PriorityFollowsUrgency` | tile_broker_impl.cpp:339-342 | priorities order the commands: bulk 0, dirty 50, clients 100, priority rendering 150 |
| `Brokers.MostUrgentFirst` | tile_broker_impl.cpp:316-342 | no request waiting for an unprocessed task is more urgent than the most urgent subscriber of the task that is handed out |
| `Brokers.Broker.PublishAvailability` | tile_broker_impl.cpp:184-200 | announces the highest priority of the unprocessed tasks and their number, if there are any |
| `Brokers.AvailabilityIs` | tile_broker_impl.cpp:184-200 | nothing is announced exactly of a queue without unprocessed tasks; else the priority of any task that may be handed out next |
| `Brokers.RiseAnnouncedIff` | tile_broker_impl.cpp:346-355 | when a request raises the highest priority, it is announced exactly if it was not merged into the front task |
| `Brokers.RiseNotAnnounced` | tile_broker_impl.cpp:346-355 | a run in which a client's request joins a bulk task: the highest priority rises from 0 to 100 and nothing is announced |
| `Brokers.Broker.OnResubmit` | tile_broker_impl.cpp:367-369 | a zombie sweep, keeping the merge invariant |
| `Brokers.SweepLeavesSecondZombie` | task_queue.hpp:243-271 | a run of two requests and two hand-outs after which both tasks are zombies and any sweep leaves the younger one |
| `Brokers.Answers` | tile_broker_impl.cpp:137-159 | one message per subscriber that waits (not bulk, not dirty), in order, each with its own tile cut out of the metatile |
| `Brokers.FanOutIs` | tile_broker_impl.cpp:137-159 | each waiting subscriber gets one message, at its own address, about its own request, with the status and time of the result |
| `Brokers.AnswerDelivers` | tile_broker_impl.cpp:144-157 | if the worker's data is what the renderer's writer builds for the job, a subscriber's answer holds exactly the tile it asked for, under its own request |
| `StoragePools.HandleTileKeepsRequest` | storage_worker.cpp:186-212 | a storage answer, also after an exception, is to the same client, coordinates, style and format, with one of five statuses |
| `StoragePools.HandleOne` | storage_worker.cpp:61-122 | the answer, and what a dirty command expires: the tile and it in every dependent style, or a first part of that if storage raises |
| `StoragePools.ExpiriesAre` | storage_worker.cpp:61-122 | only a dirty command expires anything: the tile asked for, first in its own style and then in each dependent style in order |
| `StoragePools.StorageWorker.OnRequest` | storage_worker.cpp:306-319 | dispatches while below the limit, else queues; keeps the pool invariant, arrival order and the count of requests |
| `StoragePools.StorageWorker.OnThread` | storage_worker.cpp:174-213 | a thread answers a request it holds exactly once |
| `StoragePools.StorageWorker.OnResult` | storage_worker.cpp:321-337 | forwards a result, hands out the oldest queued request or frees a thread |
| `StoragePools.PoolStepInOrder` | storage_worker.cpp:305-337 | a step dispatches the front of backlog plus arrivals and loses nothing |
| `StoragePools.PoolRun` | storage_worker.cpp:289-337 | over every run: the counter is the number of requests out with threads and at most the limit; a backlog implies a full pool; dispatch is in arrival order; received equals results plus backlog plus in flight |
| `TileHandlers.DecideAnswersOnce` | tile_handler.cpp:343-454 | for a client's single-format tile: exactly one reply and at most a background job, or no reply and one job that carries the request; never an exception |
| `TileHandlers.DecideThrowsIff` | tile_handler.cpp:255-293 | an exception escapes exactly for a found tile with data, about to be served to a client, whose format is not a single one |
| `TileHandlers.FreshTileIsServed` | tile_handler.cpp:420-426 | over the request and what storage holds: an up-to-date stored tile is sent as it is stored, or said not to have changed if the client's copy is as new, and nothing is rendered |
| `TileHandlers.StaleTileIsServed` | tile_handler.cpp:420-453 | an expired tile is sent alone while the queue is long; with background rendering it is sent and queued for nobody while the queue is short; otherwise the client waits for a new one and gets no reply yet |
| `TileHandlers.EmptyTileIsAnError` | tile_handler.cpp:255-293 | a stored tile without bytes is a server error to its client unless it is to be rendered |
| `TileHandlers.MissingTileIsRendered` | tile_handler.cpp:390-419 | a tile that storage lacks or fails to give: 503 over the limit, 202 and a bulk job while the queue is long, else the client's own job and no reply yet |
| `TileHandlers.DirtyTileIsQueued` | tile_handler.cpp:372-389 | a dirty command: 503 over the limit, else confirmed and queued as a bulk job for nobody |
| `TileHandlers.StatusIsTold` | tile_handler.cpp:348-371 | a status request is answered 200 exactly if the tile has a time or bytes, else 404, with no job |
| `TileHandlers.ServedIsStored` | tile_handler.cpp:420-453 | a body served at once is what storage holds, and an expired one only when the queue is long or background rendering is set |
| `TileHandlers.RenderedIsNeeded` | tile_handler.cpp:372-453 | a job is made only for a tile marked dirty, missing, expired or failed in storage, and not when the queue is over its limits; a missing tile with room in the queue becomes the client's own job |
| `TileHandlers.SettlingGate` | tile_handler.cpp:372-453 | for any thresholds and a non-decreasing clock: nothing is enqueued while settling, and a job that is enqueued is sent after settling has ended |
| `TileHandlers.TileHandler.ReplyTo` | tile_handler.cpp:255-293 | sends the tile, not-modified or a server error; nothing for an invalid id |
| `TileHandlers.TileHandler.SendToQueue` | tile_handler.cpp:567-597 | the job goes to a broker whose heartbeat is younger than the liveness time, or a 404 goes to the client if there is one; refused for settling exactly while the settle time is not past |
| `TileHandlers.TileHandler.Answer` | tile_handler.cpp:343-454 | the branch-by-branch code replies, and picks the job to queue, as the decision function says |
| `TileHandlers.TileHandler.OnStorageResponse` | tile_handler.cpp:343-454 | with the queue lengths and the sending: replies, job and exception are those of the decision function, an error reply follows a job that cannot be sent, and `put_job` never raises "still settling" |
| `ConsistentHashing.ConsistentHash.Insert` | dqueue/consistent_hash.hpp:67-74 | adds the value at its points, leaving taken points to their owners |
| `ConsistentHashing.ConsistentHash.Erase` | dqueue/consistent_hash.hpp:77-84 | removes the value's points whoever owns them |
| `ConsistentHashing.ConsistentHash.Lookup` | dqueue/consistent_hash.hpp:87-102 | the owner of the clockwise successor, around the end; none exactly when the ring is empty |
| `ConsistentHashing.OwnerIsNext` | dqueue/consistent_hash.hpp:87-102 | the owner is that of the least point at or above the key's hash, or of the least point of all if there is none |
| `ConsistentHashing.InsertMovesOnlyToNew` | dqueue/consistent_hash.hpp:67-102 | after an insert every key keeps its owner or moves to the new value, whatever points collide |
| `ConsistentHashing.EraseMovesOnlyOwned` | dqueue/consistent_hash.hpp:77-102 | when no point of the value belongs to another, an erase moves only its own keys, and leaves it none |
| `ConsistentHashing.EraseMovesOnlyOwnedIff` | dqueue/consistent_hash.hpp:77-102 | an erase moves no key of another value exactly when each point it takes from another is followed clockwise by a remaining point of the same owner |
| `ConsistentHashing.EraseUndoesInsert` | dqueue/consistent_hash.hpp:67-84 | erasing a value just inserted restores the ring exactly when none of its points was taken |
| `ConsistentHashing.SharedPointIsLost` | dqueue/consistent_hash.hpp:77-84 | with a shared point, erasing one value moves a key of another |
| `Routing.RingUnique` | dqueue/zmq_backend.cpp:575-618 | a set of live brokers has one ring, independent of history |
| `Routing.SameMetatileSameBroker` | tile_protocol.hpp:143-156 | handlers with equal live sets send all jobs of a metatile and style to one live broker; there is none exactly when no broker is live |
| `Routing.Backend.UpdateHeartbeat` | dqueue/zmq_backend.cpp:669-675 | records time and size and changes neither the live set nor the ring |
| `Routing.Backend.UpdateLiveBrokers` | dqueue/zmq_backend.cpp:575-618 | a broker is flagged exactly if its heartbeat is younger than the liveness time, and the ring stays equal to that of the flagged ones |
| `Routing.Backend.SettleCheck` | dqueue/zmq_backend.cpp:739-776 | agrees with the const check, and remembers that settling has ended |
| `Routing.Backend.Send` | dqueue/zmq_backend.cpp:620-646 | sends to the owner of the job's metatile, whose heartbeat is recent; fails exactly when settling or when no heartbeat is recent; each of its clock readings is a value of its own |
| `Routing.Backend.QueueLength` | dqueue/zmq_backend.cpp:705-728 | the largest size while the settle time is not past, else what `QueueLengthIsMean` says |
| `Routing.QueueLengthIsMean` | dqueue/zmq_backend.cpp:705-728 | after settling: n with n * live <= sum < (n + 1) * live over the live brokers as long as the sum is a 64-bit number, and 0 when none is live |
| `Routing.LiveTotalSplits` | dqueue/zmq_backend.cpp:716-725 | that sum counts the length of each live broker once and of no other |
| `Communicators.TaskCommunicator.HighestPriorityBroker` | dqueue/zmq_backend.cpp:381-397 | a broker that none beats in priority, then queue length, if any beats the worst status |
| `Communicators.TaskCommunicator.TryToGetJob` | dqueue/zmq_backend.cpp:404-420 | asks such a broker and is trying, or is waiting |
| `Communicators.TaskCommunicator.HandleTimeout` | dqueue/zmq_backend.cpp:261-277 | gives up the current broker and tries another, only while trying |
| `Communicators.TaskCommunicator.HandleJob` | dqueue/zmq_backend.cpp:288-309 | passes the job on unchanged exactly if it is from the broker being tried; ignores any other |
| `Communicators.TaskCommunicator.HandleNoJobs` | dqueue/zmq_backend.cpp:311-318 | forgets the broker, and tries again only while trying |
| `Communicators.TaskCommunicator.HandleAnnounce` | dqueue/zmq_backend.cpp:321-332 | records the announced status as signed 32-bit numbers, and tries if waiting |
| `Communicators.TaskCommunicator.HandleNotify` | dqueue/zmq_backend.cpp:338-363 | returns the result to the current broker and is idle; other cases are marked impossible |
| `Communicators.TaskCommunicator.HandleAsk` | dqueue/zmq_backend.cpp:364-376 | tries to get a job when idle; other cases are marked impossible |
| `Communicators.AnnouncementIsTried` | dqueue/zmq_backend.cpp:321-332 | an announcement replaces what was known of its broker; a waiting worker then asks the broker with the highest announced priority, and surely asks one if the announcement is better than the worst status |
| `Communicators.TimeoutTriesAnother` | dqueue/zmq_backend.cpp:261-277 | a broker that does not answer in time is forgotten and the best of the others is asked |
| `Communicators.RefusalTriesAnother` | dqueue/zmq_backend.cpp:311-318 | a broker without jobs is forgotten; while trying, the best of the others is asked, otherwise nothing is sent |
| `Communicators.AskTriesBest` | dqueue/zmq_backend.cpp:364-376 | a worker's request goes to the best broker known, or the worker waits if none is |
| `Communicators.TriedJobIsTaken` | dqueue/zmq_backend.cpp:288-309 | a job from the broker being tried goes to the worker as it is; any other changes nothing |
| `Communicators.ResultIsReturned` | dqueue/zmq_backend.cpp:338-351 | the worker's tile goes back as it is to the broker that is being worked for, and the worker is idle |
| `Communicators.ToInt32Is` | dqueue/zmq_backend.cpp:447-456 | the conversion to `int` is the 32-bit number congruent to what was announced |
| `Communicators.StepSafe` | dqueue/zmq_backend.cpp:240-379 | every event, with late jobs, stale refusals and timeouts at any time, keeps the invariant that says who has the job |
| `Communicators.RunSafe` | dqueue/zmq_backend.cpp:240-420 | in every run: a broker is current exactly while trying or processing and no branch called impossible is taken; what the worker gets are job messages that came in, tile and source unchanged, in order of arrival and none twice; each request gets at most one and none comes unasked; each result carries the tile that the worker gave back and goes to the broker that sent the job |
| `Communicators.ArrivalsOfRun` | dqueue/zmq_backend.cpp:280-309 | each logged arrival is a job message of the run, so every job a worker holds or has done was brought by one |
| `RenderSystem.StepConserves` | tile_handler.cpp:343-454 | every step of the composed system keeps the balance of every client's request |
| `RenderSystem.ExactlyOnce` | tile_broker_impl.cpp:127-163 | in every state of every run, with duplicate results and resubmission: accepted copies equal replies plus copies in the handler and its pool plus copies on the way to, in and from the brokers plus those lost by clearing; no handler has thrown; nothing is lost without clearing |
| `RenderSystem.AnsweredAtMostOnceAndInTheEnd` | storage_worker.cpp:289-337 | nobody is answered twice; once nothing is under way and no queue was cleared, everybody has been answered |
| `RenderSystem.QueueFollows` | tile_broker_impl.cpp:310-371 | each event of the system does to each broker's queue what the broker's own operation does, and nothing to the others |
| `RenderSystem.QueuesMerge` | task_queue.hpp:284-304 | in every state of every run of the system every task is the merge of exactly its subscribers |
| `Truthfulness.StepTrue` | tile_broker_impl.cpp:127-163 | if storage holds pictures of its tiles, old or new, and a worker's good result is no metatile, a rendered one, or one from storage with the formats of its job, every step keeps all answers under way and all replies true |
| `Truthfulness.ServedTilesAreTrue` | tile_handler.cpp:255-293 | in every such run, whoever joined a task after its hand-out, every tile body that any handler sends is a picture of the tile, style and format that its client asked for |
| `Truthfulness.MadeIsTrue` | py/worker.py:183-246 | everything that can be read from what a worker returns, in any format and place, is empty or a picture of that tile |
| `Truthfulness.AnsweredFromRendererIff` | tile_broker_impl.cpp:144-157 | from a rendered result a waiting client gets its tile, or that it has not changed, exactly if the result has it and it is not empty; else an error |
| `Truthfulness.AnsweredFromStoreIff` | py/worker.py:201-218 | from a result found in storage exactly if its format is among those of the job that was handed out and the tile is not empty; a client that joined later with another format gets an error |
| `RoutedSystem.StepAtOwner` | dqueue/zmq_backend.cpp:632-639 | with one ring, every step keeps jobs and tasks with the broker that owns their metatile |
| `RoutedSystem.OneTaskPerMetatile` | tile_protocol.hpp:143-156 | in every run in which all handlers see the same brokers alive, a metatile and style has at most one task over all brokers, with the live one that every handler sends it to |
| `MetatileCodec.PlacedTileReadsBack` | storage/meta_tile.cpp:335-377 | a file of headers followed by tiles gives back a tile wherever the first header of its format points at it |
| `MetatileCodec.LocateFirst` | storage/meta_tile.cpp:335-360 | the first header of a format is found among headers with other formats |
| `MetatileCodec.LocateAbsent` | storage/meta_tile.cpp:335-360 | a format that no header has is not found, unless the data after the headers starts with the magic word |
| `MetatileCodec.EntryReadsBack` | storage/meta_tile.hpp:47-58 | the table of a written header reads back entry by entry, as signed 32-bit numbers |
| `MetatileCodec.CoordsReadBack` | storage/meta_tile.hpp:47-58 | column, row and zoom of a written header read back from their own fields |
| `MetatileCodec.MetatileReader.constructor` | storage/meta_tile.cpp:335-360 | finds the header that the search function finds, also in truncated or foreign data |
| `MetatileCodec.MetatileReader.Get` | storage/meta_tile.cpp:362-377 | the bytes of the slot of (x, y), or none without a header or past the end |
| `MetatileWriters.WriteHeaders` | storage/meta_tile.cpp:108-156 | fails exactly for a wrong number of sizes; else one header per format whose entries point after all headers and all earlier tiles |
| `MetatileWriters.MetaDimIs` | storage/meta_tile.cpp:77-80 | a metatile is as many tiles wide as the zoom has, 2^z, and at most eight |
| `Tiles.FormatListIs` | tile_utils.cpp:70-79 | the formats taken out of a mask are exactly those in it |
| `Tiles.MaskCodeSum` | tile_utils.hpp:37-46 | a mask is the sum of the codes of its formats |
| `MetatileWriters.MakeMetatile` | storage/http_storage.cpp:267-322 | for every zoom, also those with fewer than 8x8 tiles, the reader gets back exactly the body supplied for each format and tile |
| `MetatileWriters.PlacesDiffer` | py/metatile.py:47-50 | the tiles of a job have different slots wherever the job lies on the grid |
| `MetatileWriters.MetatileBuilder.OffsetHeader` | py/metatile.py:93-95 | a header is 536 bytes |
| `MetatileWriters.MetatileBuilder.WriteHeader` | py/metatile.py:89-91 | the fixed part that the C++ reader expects |
| `MetatileWriters.MetatileBuilder.WriteOffsets` | py/metatile.py:61-78 | a 64-entry table that points each tile's slot at where it will be written; absent tiles are empty |
| `MetatileWriters.MetatileBuilder.WriteContents` | py/metatile.py:80-87 | the tiles row by row |
| `MetatileWriters.MakeMeta` | py/metatile.py:97-119 | the C++ reader recovers every tile of the first layer of each format, for any job of up to 8x8 tiles, aligned or not |
| `MetatileReads.RenderedReads` | storage/meta_tile.cpp:335-377 | for any format and any place of the grid the reader finds in a rendered metatile the tile it holds there, and nothing if it holds none |
| `MetatileReads.RebuiltReads` | storage/meta_tile.cpp:335-377 | for any format and any place of the grid the reader finds in a rebuilt metatile the body it was rebuilt from, and nothing if there was none |
| `LtsStorage.ReadHeaders` | storage/meta_tile.cpp:88-106 | exactly the maximal run of blocks with the magic word and a known format |
| `LtsStorage.WrittenHeadersCount` | storage/meta_tile.cpp:88-106 | all written headers are seen, and one too many exactly when the tile data mimics a header |
| `LtsStorage.TileSlotsAre` | storage/lts_storage.cpp:366-396 | the slots that are put are exactly those that headers count and that are not empty |
| `LtsStorage.MakePutRequests` | storage/lts_storage.cpp:357-400 | one put per such slot, in order, with the slot's bytes and address; an exception exactly if a header's format is not a single one |
| `LtsStorage.MakeReplicaUrls` | storage/lts_storage.cpp:431-455 | the replica addresses of the same slots in the same order; an exception exactly if a tile's format has no file type |
| `LtsStorage.TypedFormats` | tile_utils.cpp:46-68 | exactly the single formats have a mime type; no format and all formats have a file type besides |
| `LtsStorage.PutParallel` | storage/http_storage.cpp:111-141 | every put is attempted; success exactly if all are accepted |
| `LtsStorage.PutSerial` | storage/http_storage.cpp:143-169 | the puts end with the first that is refused; success exactly if all are accepted |
| `LtsStorage.AttemptedIs` | storage/http_storage.cpp:111-169 | in parallel all puts go out; in serial mode those before the first refused one |
| `LtsStorage.PutMeta` | storage/lts_storage.cpp:323-355 | serial or parallel, with batches that may raise: both copies get the same tiles in lock-step; success exactly if one copy is fully accepted, else every copy of the metatile on a host that can be reached is marked out of date, bytes and all other copies kept; an ambiguous format raises before anything is put |
| `LtsStorage.FailedPutRecoverableIff` | storage/lts_storage.cpp:349-351 | after a put that failed on both copies the metatile can be rebuilt exactly if every tile has a good copy on a host that could not be reached; not at all if all hosts are reached; all other addresses answer as before |
| `LtsStorage.PutThenFetch` | storage/lts_storage.cpp:270-355 | a put and then a get: after a failed put with all hosts reached the get finds nothing |
| `LtsStorage.MakeGetUrls` | storage/lts_storage.cpp:407-429 | the addresses format by format and row by row |
| `LtsStorage.MaskUrlAt` | storage/lts_storage.cpp:407-429 | where in that list a tile's address is, matching the order in which a metatile is rebuilt |
| `LtsStorage.GetUrlsAre` | storage/lts_storage.cpp:407-429 | an address is in the list exactly if it is that of a tile (x, y) of the metatile itself, in its style and zoom and a format of the mask |
| `LtsStorage.CheckResponses` | storage/http_storage.cpp:219-233 | whether all responses are good |
| `LtsStorage.ChosenAreGood` | storage/lts_storage.cpp:295-306 | every tile used is one of that tile's two copies, and a good one; the first copies if all are good, else the second if all are, else tile by tile the first where it is good |
| `LtsStorage.GetMeta` | storage/lts_storage.cpp:270-321 | succeeds exactly if every tile is good on at least one replica, and then reads back the chosen copies |
| `LtsStorage.PrimaryHolds` | storage/lts_storage.cpp:323-400 | after an accepted primary put every tile's address holds that tile's bytes, whatever happens to the replica put |
| `LtsStorage.StoredAtOwnAddress` | storage/lts_storage.cpp:357-400 | in coordinates: the address of tile (x, y) holds the bytes that the reader finds for (x, y) in the metatile put |
| `LtsStorage.PutThenGet` | storage/lts_storage.cpp:270-355 | a complete metatile is put and rebuilt; if its first copies are acknowledged, whatever other hosts do, it reads the same bytes for every format and tile |
| `LtsStorage.ReadsBackIff` | storage/lts_storage.cpp:270-355 | after a put that reported success the tiles chosen are the ones put exactly if each first copy that was not written held the same bytes, or one of those was missing or out of date |
| `LtsStorage.SameTilesIff` | storage/http_storage.cpp:267-322 | a metatile rebuilt from other bodies reads the same exactly if they are the same bodies |
| `RoundTrip.StalePut` | storage/lts_storage.cpp:349-354 | a put of a one-byte tile whose second copy alone is accepted, over an older first copy: it reports success and the old byte is chosen |
| `RoundTrip.RenderedIsComplete` | storage/meta_tile.cpp:88-106 | a metatile of the renderer for a whole metatile of the grid, without empty tiles and without tile data that mimics a header, is complete for every mask of its formats |
| `RoundTrip.FetchedFits` | storage/lts_storage.cpp:308-317 | the tiles fetched for a mask are those of the layers it asks for and together no longer than all that was rendered |
| `RoundTrip.RenderPutGet` | py/metatile.py:121-124 | render, put, get and read: the put reports success exactly if a copy is accepted, and if it is the first the rebuilt metatile gives every tile of every format asked for as it was rendered |
| `Morton.UninterleaveInterleave` | storage/node/storage_node_pylons/storage_node_pylons/lib/mqExpiry.py:36-59 | uninterleaving undoes interleaving for all 32-bit numbers |
| `Morton.CodeComesApart` | storage/node/storage_node_pylons/storage_node_pylons/lib/mqExpiry.py:33-59 | both coordinates can be read off a code |
| `Morton.CodeIsZOrder` | storage/node/storage_node_pylons/storage_node_pylons/lib/mqExpiry.py:32-47 | the masks and shifts compute the number whose binary digits alternate between the coordinates |
| `Morton.ZOrderInverse` | storage/node/storage_node_pylons/storage_node_pylons/lib/mqExpiry.py:32-34 | that number determines the coordinates |
| `Morton.ZOrderOnto` | storage/node/storage_node_pylons/storage_node_pylons/lib/mqExpiry.py:32-34 | every number is the code of a pair |
| `Morton.MetaIdxInjective` | storage/node/storage_node_pylons/storage_node_pylons/lib/mqExpiry.py:24-34 | a metatile's place is in the level of its zoom and determines it |
| `Morton.MetaIdxOnto` | storage/node/storage_node_pylons/storage_node_pylons/lib/mqExpiry.py:24-34 | every place below the offset after the last zoom belongs to a metatile of a zoom up to it |
| `Morton.PlacesFit` | storage/node/storage_node_pylons/expiry_info/server.py:39-45 | for every maximal zoom up to 34 all places are 64-bit numbers, fit the file, and the file has no spare byte |
| `ExpiryBitmap.WithBitReads` | storage/node/storage_node_pylons/expiry_info/server.py:80-101 | setting or clearing one bit changes no other |
| `ExpiryBitmap.Info.constructor` | storage/node/storage_node_pylons/expiry_info/server.py:54-78 | a file is filled up with zeros to the size for its zooms and never shortened |
| `ExpiryBitmap.ExpandedKeeps` | storage/node/storage_node_pylons/expiry_info/server.py:54-78 | every bit of a file is kept, every bit added is clear |
| `ExpiryBitmap.Info.SetBit` | storage/node/storage_node_pylons/expiry_info/server.py:80-90 | the byte update is that bit change; nothing beyond the end |
| `ExpiryBitmap.Info.GetBit` | storage/node/storage_node_pylons/expiry_info/server.py:92-101 | the bit, or none beyond the end |
| `ExpiryBitmap.Server.Receive` | storage/node/storage_node_pylons/expiry_info/server.py:134-190 | one datagram changes at most its own style's file, opening it if new, and is answered OK, ERR or the bit |
| `ExpiryBitmap.IdxFitsDatagram` | storage/node/storage_node_pylons/storage_node_pylons/lib/mqExpiry.py:152-156 | the place of an existing tile fits the 64-bit field |
| `ExpiryBitmap.PlaceOfTile` | storage/node/storage_node_pylons/storage_node_pylons/lib/mqExpiry.py:111-132 | the place sent for tile (x, y) of zoom z is the number of metatiles of lower zooms plus the Morton order of (x / 8, y / 8) |
| `ExpiryBitmap.WireIs` | storage/node/storage_node_pylons/storage_node_pylons/lib/mqExpiry.py:152-156 | two style names are one to the server exactly if they agree in the 254 characters that are sent |
| `ExpiryBitmap.GetReturnsLastSet` | storage/node/storage_node_pylons/storage_node_pylons/lib/mqExpiry.py:111-132 | after any history of calls about tiles of any zoom and style, some lost, an answered `get_tile` returns the value of the last set whose zoom is the same and whose coordinates agree after division by 8, in the same style, or what the file held at first |
| `ExpiryBitmap.SetBeyondEndIsLost` | storage/node/storage_node_pylons/storage_node_pylons/lib/mqExpiry.py:123-132 | `set_tile` reports success for every style name without a slash; a following `get_tile` returns the value exactly if the place is in the file |
| `ExpiryBitmap.SetTileLost` | storage/node/storage_node_pylons/storage_node_pylons/lib/mqExpiry.py:123-132 | on a server set up for zoom 3, `set_tile` of tile (0, 0) of zoom 5 reports success and the next `get_tile` finds nothing |
| `ExpiryBitmap.SlashIsRefused` | storage/node/storage_node_pylons/expiry_info/server.py:134-190 | a style name with a slash is refused, set or get, and changes nothing |
| `ExpiryBitmap.LostCall` | storage/node/storage_node_pylons/storage_node_pylons/lib/mqExpiry.py:134-150 | a call without an answer tells its caller nothing good; one that does not arrive changes nothing |
| `ExpiryBitmap.UnknownCommand` | storage/node/storage_node_pylons/expiry_info/server.py:141-158 | any other command is an error and sets no bit of any style |
| `ExpirySets.PackZoom` | storage/expiry_server.cpp:57-79 | for zooms 3 to 18 the prefix gives the zoom back, and the packed word is never the deleted key |
| `ExpirySets.PackX` | storage/expiry_server.cpp:66-78 | the column can be read off the packed word |
| `ExpirySets.PackY` | storage/expiry_server.cpp:66-78 | the row can be read off the packed word |
| `ExpirySets.PackInjective` | storage/expiry_server.cpp:57-79 | two tiles pack alike exactly when they are in the same metatile of the same zoom, across all three prefix classes |
| `ExpirySets.SameSquareIff` | storage/expiry_server.cpp:57-79 | two tiles pack alike exactly if their zooms are equal and their coordinates agree after division by 8 |
| `ExpirySets.InsertRepresents` | storage/expiry_server.cpp:232-256 | if the hash sets stand for a set of metatiles, after an insert they stand for it with one added |
| `ExpirySets.EraseRepresents` | storage/expiry_server.cpp:258-273 | and after an erase for it with one removed |
| `ExpirySets.ExpiryData.Lookup` | storage/expiry_server.cpp:221-230 | membership of (style, format, metatile) in that set |
| `ExpirySets.ExpiryData.Insert` | storage/expiry_server.cpp:232-256 | adds exactly that element |
| `ExpirySets.ExpiryData.Erase` | storage/expiry_server.cpp:258-273 | removes exactly that element |
| `ExpirySets.ExpiryData.OnRequest` | storage/expiry_server.cpp:344-366 | a non-zero value inserts, zero erases, none asks |
| `ExpirySets.FoundIffLastSet` | storage/expiry_server.cpp:344-366 | after any history of requests a tile is found exactly if the last value given for its style, format, zoom and 8x8 square was not 0 |
| `BinaryStar.Fsm.HandleEvent` | storage/expiry_server.cpp:113-187 | case by case: a starting server that hears a master is its slave, a primary that hears a backup is master, a slave that hears a starting peer is master, a master stays one; which events are errors; and the silence timer restarts exactly on good heartbeats |
| `BinaryStar.StepKeeps` | storage/expiry_server.cpp:330-386 | every step, with lossy in-order heartbeats, crashes and restarts, keeps the channel invariant except a failover against a live master, which is exactly the step that makes two masters; no heartbeat is a fatal error |
| `BinaryStar.MutualExclusion` | storage/expiry_server.cpp:113-187 | over every run both are masters at some moment exactly when such a failover happens; otherwise they do not end both as slaves and no heartbeat is a fatal error |
| `BinaryStar.OneMaster` | storage/expiry_server.cpp:330-386 | with failover only when the peer is down there are never two masters or two slaves |
| `BinaryStar.LostHeartbeatsSplit` | storage/expiry_server.cpp:166-177 | a run without any crash, in which a heartbeat is lost and a client's request finds the timer run out, that ends with two masters |
| `BinaryStar.StarterFollowsMaster` | storage/expiry_server.cpp:123-135 | in the pair: a server in its starting role that takes a master's heartbeat is a slave and refuses clients until its timer has run out |
| `BinaryStar.SlaveRefuses` | storage/expiry_server.cpp:150-178 | over every run in which it hears nothing but masters, a slave stays one and refuses a client whose request comes before its timer has run out |
| `BinaryStar.QuietKeepsUp` | storage/expiry_server.cpp:113-187 | heartbeats alone stop neither server, and leave a master and a slave what they are |
| `BinaryStar.TwoExchanges` | storage/expiry_server.cpp:113-187 | two heartbeats each way make exactly one master and one slave of any two servers that are up |
| `BinaryStar.PairSettles` | storage/expiry_server.cpp:330-386 | from every state reached without a split with both servers up, however the heartbeats under way arrive or get lost, two more each way leave one master and one slave, and no heartbeats change that |
| `TimedBinaryStar.NoSplit` | storage/expiry_server.cpp:166-183 | with the timers as the heartbeats set them, a slave's timer has not run out on a live master whose heartbeats are timely |
| `TimedBinaryStar.TimedStepKeeps` | storage/expiry_server.cpp:304-386 | every timely step keeps the timed invariant, is no split and no fatal heartbeat |
| `TimedBinaryStar.TimedMutualExclusion` | storage/expiry_server.cpp:113-187 | if surviving heartbeats are at most `period` apart and take at most `delay`, together less than two heartbeat intervals, then over every run of crashes, restarts and requests the servers are never both masters or both slaves |
| `TimedBinaryStar.SlaveTakesOver` | storage/expiry_server.cpp:166-183 | a slave answers clients exactly from two heartbeat intervals after the last heartbeat that it took, and then as master |
| `Clipping.ClipStaysInside` | py/metacutter.py:138-145 | 0 <= x0 <= x1 <= width - 1 and 0 <= y0 <= y1 <= height - 1 |
| `Clipping.ClipIsExact` | py/metacutter.py:132-145 | a pixel of a cell is covered by the clipped rectangle exactly when the rectangle covers it in the master tile |
| `Clipping.PixelHasOneCell` | py/metacutter.py:133-139 | a pixel lies in one cell, at one place of it |
| `Clipping.ClipGeometry` | py/metacutter.py:114-156 | per cell exactly the clipped parts of the rectangles in order; only cells of the grid, none empty; single points skipped |
| `Clipping.CoverIsKept` | py/metacutter.py:114-156 | each pixel is covered in its cell as many times as the geometry covers it |
| `Clipping.CutFeatures` | py/metacutter.py:161-198 | nothing for an impossible grid; else every cell, with the features that touch it in order, each with its part |
| `Clipping.CellFeaturesAre` | py/metacutter.py:182-198 | each feature that touches a cell is there once, with its own id, properties and clipped part, which is not empty |
| `ExpireTiles.TileSet.ChildTiles` | expire_tiles.cpp:414-442 | adds exactly the metatiles of the tile's descendants down to the maximal zoom, and terminates |
| `ExpireTiles.TileSet.ParentTiles` | expire_tiles.cpp:447-467 | adds exactly the metatiles of the tile's ancestors up to the minimal zoom, and terminates |
| `ExpireTiles.UpIs` | expire_tiles.cpp:460-463 | the tile k levels up has the coordinates divided by 2^k |
| `ExpireTiles.MetaXyzIs` | expire_tiles.cpp:414-467 | a tile's metatile is the first tile of the 8x8 square of its zoom that it lies in |
| `ExpireTiles.AlignedMetaBelow` | expire_tiles.cpp:414-442 | for an aligned tile these are exactly the metatiles whose first tile descends from it |
| `ExpireTiles.ChildMetatileMissed` | expire_tiles.cpp:699-708 | a metatile just below the input metatile that is not added; from zoom 3 on it is on the map |
| `ExpireTiles.CoversBelowIff` | expire_tiles.cpp:699-708 | every metatile of the map below an input metatile is added exactly if it is that of zoom 0, no zoom deeper than 3 is reached, or there is none below it to reach |
| `ExpireTiles.CollectTiles` | expire_tiles.cpp:688-713 | over all input tiles, exactly the metatiles above and below |
| `ExpireTiles.TouchedHas` | expire_tiles.cpp:688-713 | every ancestor and descendant of an input's metatile within the zooms given has its metatile expired, and so has the input |
| `ExpireTiles.ShareOut` | expire_tiles.cpp:717-732 | for any number of threads the lists concatenate to the whole, each at most the rounded-up share |
| `ExpireTiles.ShareIsLeast` | expire_tiles.cpp:717-732 | no smaller share for each thread would cover all tiles |
| `StatsCollector.SpreadShifts` | storage/node/storage_node_pylons/stats_collector/server.py:53-56 | how the sum of squared deviations depends on the point it is measured from |
| `StatsCollector.OnePassStep` | storage/node/storage_node_pylons/stats_collector/server.py:50-56 | one step keeps the mean and the sum of squared deviations exact |
| `StatsCollector.Stats.Make` | storage/node/storage_node_pylons/stats_collector/server.py:46-60 | count, mean and sample variance of the samples in the window |
| `StatsCollector.WindowIs` | storage/node/storage_node_pylons/stats_collector/server.py:46-60 | the window has the timings of exactly the samples later than its start |
| `StatsCollector.Stats.Add` | storage/node/storage_node_pylons/stats_collector/server.py:32-35 | appends to a known table only |
| `StatsCollector.Stats.Flush` | storage/node/storage_node_pylons/stats_collector/server.py:37-44 | keeps exactly the samples of the keep period, in every table |
| `StatsCollector.KeptAre` | storage/node/storage_node_pylons/stats_collector/server.py:37-44 | a sample is kept exactly if it is not older than the keep period |
| `StatsCollector.FlushIsInvisible` | storage/node/storage_node_pylons/stats_collector/server.py:37-44 | after any history of additions and flushes no window within the keep period differs from one without flushes |
| `StatsCollector.ServedWindowsAreWhole` | storage/node/storage_node_pylons/stats_collector/server.py:94-102 | with a non-decreasing clock that holds of all three windows that are served |

## Left out

- 0MQ, curl, protobuf, databases, image libraries, renderers, memcached, configuration, logging, Python bindings and `main` functions: foreign code or plumbing.
- Storage-thread death and its accounting, and requests or broker replies lost by the transport: the conservation result is about live processes.
- The broker's monitor statistics and heartbeats, `pop`, and reconnecting subscriptions: they change no queue.
- `RenderSystem.ExactlyOnce`: broker steps hand out, resubmit and drop any task at any time rather than only the best or the oldest, so the result covers more runs than the brokers have; clearing drops the tasks one by one and is counted as lost.
- `RenderSystem.QueueFollows`: the system's hand-out and resubmission act on any task of the queue, where the broker's act on the best and on the first old one.
- `TaskQueues.TaskQueue.ResubmitOlderThan`: one clock reading stands for those of all tasks that a sweep with a timeout of 0 restamps; the timestamp index compares times as 32-bit integers in the source and as numbers here; the exemption of bulk tasks never applies because every task's status is render.
- `Routing.Backend.Send`: assumes that the points of the known brokers are pairwise different and that heartbeats come from known brokers.
- `Truthfulness.ServedTilesAreTrue`: tile data that starts with the magic word of a header is assumed away, because the reader would take it for one; that storage and workers return pictures is the assumption, not a result.
- `MetatileCodec.MetatileReader.Get`: an entry with a negative offset or size reads as empty; the source would convert it to a huge unsigned number.
- `MetatileWriters.MakeMetatile`: takes at least the expected number of responses; with fewer the source logs an error and reads past the end. Zooms are 0 to 30, where the source's shift is defined, and all offsets are below 2^31.
- `LtsStorage.GetMeta`: takes the two full-length response lists of parallel mode; serial mode, and lists cut short by a transport exception, are not modelled for getting, nor is the table of hosts that are down.
- `LtsStorage.MakePutRequests`: requires that the headers count at most 64 tiles that lie in the file; beyond that the source reads foreign memory.
- `ExpirySets.ExpiryData.Insert`: zooms 0 to 2 and above 18 are outside the packing, whose shift would be negative or overlap the prefix.
- `ExpiryBitmap.Server.Receive`: style names that the file system refuses, and malformed datagrams, which the server answers with ERR.
- `TimedBinaryStar.TimedMutualExclusion`: that heartbeats get through in time is the assumption, not a result; a heartbeat that is lost counts as not sent. A stopping server takes both connections down with it.
- `Clipping.ClipIsExact`: for rectangles with ordered integer corners; float coordinates and unordered corners are not covered.
- `StatsCollector.Stats.Make`: real arithmetic instead of floating point, and the variance instead of its square root.
- `frag_to_tile`, which nothing uses, `metaTile::save`, `simple_http_storage`, `can_generate_formats`, HTTP date and path parsing, the Mercator projection, `pgq_backend`.
