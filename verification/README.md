# Flames control plane: a verified model

Flames is a control plane for microVMs. This project models its in-memory parts and proves what
they promise: the leased work queue (`memqueue`), the TTL cache with compare-and-set (`memcache`),
the VM and event store (`memstate`), the service layer on top of it, and the HTTP layer's
idempotency middleware with its response recorder.

`dafny verify dfyconfig.toml` checks the whole project.

## How it is built

Each locked region of the Go code is one atomic step, and steps interleave exactly where the code
drops its locks. The clock is an integer, with 0 for Go's zero time, and every step is given the
readings and the generated ids it samples. Each component exists twice: as a class with the fields the
Go code has, whose methods follow the Go code, and as functions on values that say what one step
does; the methods' contracts tie the first to the second, and the theorems about whole runs are about
the second.
Lemmas are marked `{:induction false}`: each is proved by its own body, without Dafny's automatic induction.

| files | component |
|---|---|
| `FlatQueue`, `QueueRuns`, `QueueAnswers`, `QueueProgress` | the queue as one list of jobs in enqueue order, and what it means over runs |
| `Slices`, `MemQueue`, `MemQueueRuns` | slices edited in place, one per topic, with an id index, refining that list |
| `CacheSteps`, `MemCache` | the cache, lazy and eager, whole and interleaved |
| `Model`, `StateSteps`, `StateRuns`, `StateHistory`, `EventListing`, `MemState` | the VM and event store |
| `Recorder` | the response recorder and the client's connection |
| `ControlPlane` | the API server as one state machine: requests interleave at every point where a lock is dropped |
| `RetryErasure`, `IdempotencyRuns`, `EventRuns`, `SerialRuns` | theorems about every run of that machine |
| `Service`, `WholeRequests`, `HttpApi` | the service and the HTTP handler as objects; each request they serve is a run of the machine |
| `ApiRuns`, `HttpClients` | what clients are sent, told by the earlier requests of a session |

## What is proved

- **Queue.** The per-topic slices and the index answer exactly like the flat list. What every call answers is told by
  the earlier calls alone: a `Dequeue` delivers the first job in enqueue order that was enqueued on the topic, not acked,
  and whose latest lease is over or was never set, as it was enqueued, and answers no jobs exactly when there is
  none (`DequeueAnswersExactly`); an `Ack` or `Nack` succeeds exactly on a job enqueued and not acked. In every reachable state
  the list is the clients' own record of the run: jobs enqueued and not acked, in order, with their latest
  lease and their delivery count. Leases are exclusive over whole runs, nothing is lost or duplicated,
  draining delivers the waiting jobs in order, and a job with r waiting jobs ahead is served within r + 1
  dequeues through any harmless interleaving. An ack is not checked against the lease holder, and works on a
  job that was never delivered.
- **Cache.** With whole calls, a read or swap meets exactly what the last `Set` or successful swap wrote, until its TTL
  is over, and lazy expiry cannot be told from eager expiry. With `Get` split into its read and
  its late eviction, an entry is still always the latest effective write, a hit is current, and no update is
  lost. What does fail then is the exclusivity of a nil `CompareAndSet`: there is a run in which two creators win.
  `SecondCreatorWinsExactly` says exactly when the second does: an eviction dropped the first one's entry, or it
  expired, or it was empty; with whole calls the first of these cannot happen.
- **Retries.** In every interleaving, deleting the requests that the idempotency store answered leaves the same VMs,
  controllers, log, store and responses. More: the whole server behaves like a server without the
  middleware that is sent only the remaining requests. This needs no assumption that requests do not overlap.
- **Idempotency.** What follows holds in every interleaving. A replay is the very response that a handler returned
  under the same key and body hash, stored at most 24 hours before. A keyed request is answered by the store if and
  only if the store had a recording of its key when it arrived, at most 24 hours old at the expiry check; otherwise its
  handler runs (`AnsweredExactly`). So the middleware does not execute each key once: of two overlapping requests
  both can execute (`OverlapMayExecuteTwice`), and a late eviction can drop a fresh recording, so that even a
  request that arrives after it executes again (`LateEvictionRepeats`). But a handler can run within 24
  hours of a recording only if another request with the key was under way when that recording was stored
  (`RepeatNeedsOverlap`); a recording stored with no such request answers every retry in its window. When requests on
  one key never overlap, executions under it are more than 24 hours apart.
  The key is the header value and the body hash only, so routes and methods share it.
- **Clients.** When requests are served one after another, `ApiRuns` tells every response from the earlier requests
  alone, in literal statuses, bodies and times: which requests run their handler, what `GET` returns for a VM after any
  history, when a request is a 404 or a 409, which events a listing draws from. `HttpClients.Session` proves that the
  handler, service, recorder and stores send exactly that, and `HttpClients.Retry` that a second request with a
  key sends the first response again, byte for byte, and changes nothing.
- **Recording.** A replay repeats what the first client saw unless the handler began its body and then set a final
  status other than 200; the condition is exact.
- **Event log.** Logged events plus events still owed equal the successful updates, in every interleaving, and each
  stored VM has exactly one creation among them. The log projects to exactly the desired states in the store if and only
  if for each VM the latest update is logged last (`LogDeterminesExactly`). That is so once nothing is owed, when the
  updates of each VM are serial; `OverlapMisordersLog` shows the log disagreeing for good when they overlap.
- **Listing.** The API requirements (`.contextpin/notes/Specs/API Server/Requirements.md`, FR-011 in line 41 and AC-007
  in line 87) ask for events by creation time, newest first. The code lists in log order, and the model follows the
  code. On any log, the listing is as required exactly when no listed event is followed by a newer match
  (`NewestFirstExactly`); on a log in time order, exactly when all matches have one creation time
  (`NewestFirstOnOrderedLog`). Events are dated before the log is locked, so a log can also be out of time order, and
  then a listing of several events can be as required (`OutOfOrderLogIsListedInOrder`).
- **Assignment.** A claim of a VM wins exactly when the creation, report or claim that last named its controller named
  none. So a VM is won once, plus at most once for each report that clears its controller.
- **Store.** After any run of operations every field of a VM or controller record, every logged event and every error is
  told by the operations alone (`StateHistory`).

## Model

| member | source | states |
|---|---|---|
| MemQueue.Queue.Enqueue | provider/queue/memqueue/memqueue.go:43-61 | appending to the topic's slice and indexing the id appends to the flat list |
| MemQueue.Queue.Dequeue | provider/queue/memqueue/memqueue.go:65-83 | the scan of one topic leases and delivers the first deliverable job of the flat list, or answers that there are none and changes nothing; `QueueAnswers.DequeueAnswersExactly` says which job that is |
| MemQueue.Queue.Ack | provider/queue/memqueue/memqueue.go:86-105 | removes exactly the job with the id, or answers not found; an indexed id is always found in its slice |
| MemQueue.Queue.Nack | provider/queue/memqueue/memqueue.go:108-127 | sets the lease of exactly the job with the id, or answers not found |
| MemQueue.Queue.FindId | provider/queue/memqueue/memqueue.go:96-102 | finds the first entry with the id, or reports that there is none |
| MemQueue.Queue.NoSharing | provider/queue/memqueue/memqueue.go:56 | no two topics ever share a backing array |
| MemQueue.MirrorRemove | provider/queue/memqueue/memqueue.go:95-100 | taking an entry out of its topic and its id out of the index keeps both in step with the flat list |
| MemQueue.FirstIs | provider/queue/memqueue/memqueue.go:72-80 | the first available entry of a topic is what the flat list would deliver |
| MemQueue.IndexedJob | provider/queue/memqueue/memqueue.go:90-104 | every indexed id is in the slice the index names, so the trailing not-found returns are never reached |
| Slices.Append | provider/queue/memqueue/memqueue.go:56 | append keeps the visible contents and adds the element; in place it overwrites only the first invisible cell |
| Slices.RemoveAt | provider/queue/memqueue/memqueue.go:98 | the shift leaves the old contents without element i, in order, in the same array |
| MemQueueRuns.Replay | provider/queue/memqueue/memqueue.go:43-127 | any sequence of calls on a new queue gets exactly the answers of the flat list |
| MemQueueRuns.TopicHistory | provider/queue/memqueue/memqueue.go:24-28 | after any run a topic's slice is its enqueue history without the acked jobs |
| QueueRuns.History | provider/queue/memqueue/memqueue.go:43-127 | the queue is the clients' record: jobs enqueued and not acked, in order, unchanged but for latest lease and delivery count |
| QueueRuns.DeliveryIsGenuine | provider/queue/memqueue/memqueue.go:72-79 | a delivered job comes from an earlier Enqueue call on that topic with that payload and time, is not acked, and reports its number of deliveries |
| QueueRuns.LeaseExclusivity | provider/queue/memqueue/memqueue.go:72-80 | without a Nack in between, a job is delivered again only strictly after the first lease ran out |
| QueueRuns.Conservation | provider/queue/memqueue/memqueue.go:43-105 | each job enqueued is queued exactly once or acked exactly once, and no other id is ever either |
| QueueAnswers.DequeueAnswersExactly | provider/queue/memqueue/memqueue.go:65-83 | over any run a Dequeue answers no jobs exactly when every unacked job of its topic is still leased, and otherwise delivers the first that is not, as enqueued, with the new lease and one more delivery |
| QueueAnswers.LatestLeaseIs | provider/queue/memqueue/memqueue.go:75-124 | the latest lease is the last delivery's time plus timeout, or the retry time of a later Nack |
| QueueAnswers.EnqueuedIsQueuedOnce | provider/queue/memqueue/memqueue.go:43-61 | from its Enqueue until it is acked exactly one queued job has the id, with the call's topic, payload and time |
| QueueAnswers.AckAnswersExactly | provider/queue/memqueue/memqueue.go:86-105 | an Ack succeeds exactly when its id was enqueued and no Ack came since |
| QueueAnswers.NackAnswersExactly | provider/queue/memqueue/memqueue.go:108-127 | so does a Nack |
| QueueProgress.Drain | provider/queue/memqueue/memqueue.go:69-82 | dequeues in a steady period deliver the waiting jobs in order and once each, and then no jobs |
| QueueProgress.BoundedWait | provider/queue/memqueue/memqueue.go:65-83 | a waiting job with r waiting jobs ahead is delivered within r + 1 dequeues on its topic, through other harmless calls |
| CacheSteps.PresentIsLatest | provider/cache/memcache/memcache.go:39-110 | in every interleaving the map holds exactly the latest effective write of a key, unless an eviction dropped it |
| CacheSteps.ReadIsCurrent | provider/cache/memcache/memcache.go:39-54 | a read hits exactly on the latest write when it is undropped and unexpired; evictions can only add misses |
| CacheSteps.SwapWinsExactly | provider/cache/memcache/memcache.go:82-111 | in every interleaving a CompareAndSet succeeds exactly when it expects the very bytes of the latest write, undropped and unexpired, nil standing for no bytes, or nil when there is none such |
| CacheSteps.NoLostUpdates | provider/cache/memcache/memcache.go:57-110 | after any write, a successful swap from a non-nil value replaces exactly the latest write, late evictions included, so swaps form a chain |
| CacheSteps.SecondCreatorWinsExactly | provider/cache/memcache/memcache.go:82-110 | in every interleaving the second of two nil swaps wins exactly when the first one's entry was dropped by an eviction, expired or empty |
| CacheSteps.SecondCreatorOfWholeCalls | provider/cache/memcache/memcache.go:82-110 | with whole calls, exactly when it expired or was empty |
| CacheSteps.WholeCallsMeetLatest | provider/cache/memcache/memcache.go:39-111 | on any run of whole calls a read returns, and a swap is measured against, exactly what the last write put there until its TTL is over, or nothing after a Delete |
| CacheSteps.WholeCallsMeetNothing | provider/cache/memcache/memcache.go:39-111 | on a key never written reads miss and only swaps from nil succeed |
| CacheSteps.NilSwapCanWinTwice | provider/cache/memcache/memcache.go:47-52 | a run in which a late eviction lets two nil swaps win |
| CacheSteps.LazyEqualsEager | provider/cache/memcache/memcache.go:39-111 | whole calls answer as a cache that drops entries the moment they expire |
| CacheSteps.SetLivesExactly | provider/cache/memcache/memcache.go:57-70 | a value is readable up to and including its expiry time, and always without a TTL |
| CacheSteps.UnsuccessfulCallsAreInvisible | provider/cache/memcache/memcache.go:87-99 | a miss or a failed swap changes nothing visible, then or later |
| MemCache.Store.Get | provider/cache/memcache/memcache.go:39-54 | the two steps together are the whole call of the model |
| MemCache.Store.Set | provider/cache/memcache/memcache.go:57-71 | the whole call of the model |
| MemCache.Store.Delete | provider/cache/memcache/memcache.go:74-79 | removes the key, and is also the late eviction of Get |
| MemCache.Store.CompareAndSet | provider/cache/memcache/memcache.go:82-111 | the whole call of the model, branch by branch |
| MemState.Store.CreateVM | provider/state/memstate/memstate.go:35-53 | the new state in full |
| MemState.Store.UpdateVMDesiredState | provider/state/memstate/memstate.go:68-80 | the new state in full, or not found |
| MemState.Store.UpdateVMObservedState | provider/state/memstate/memstate.go:83-96 | the new state in full, or not found |
| MemState.Store.AssignVM | provider/state/memstate/memstate.go:99-114 | the new state in full, or not found, or a conflict |
| MemState.Store.AppendEvent | provider/state/memstate/memstate.go:131-144 | the event goes to the end of the log, a missing id or time filled in |
| MemState.Store.RegisterController | provider/state/memstate/memstate.go:174-183 | the new state in full, or already exists |
| MemState.Store.UpdateControllerHeartbeat | provider/state/memstate/memstate.go:186-199 | the new state in full, or not found |
| StateRuns.WinnersBounded | provider/state/memstate/memstate.go:83-114 | a VM has at most one more winning assignment than reports that cleared its controller |
| StateRuns.SingleWinner | provider/state/memstate/memstate.go:99-114 | without such reports at most one assignment ever succeeds |
| StateRuns.StaysOwned | provider/state/memstate/memstate.go:83-114 | once a VM has a controller it keeps one |
| StateRuns.ClearingLetsAnotherWin | provider/state/memstate/memstate.go:91-92 | a report with an empty controller id does let a second controller win |
| StateRuns.ClaimWinsExactly | provider/state/memstate/memstate.go:83-114 | on any run a claim wins exactly when the VM exists and the creation, report or claim that last named its controller named none |
| StateRuns.RecordsLast | provider/state/memstate/memstate.go:35-114 | VMs are never forgotten and keep id, spec, image and creation time |
| StateRuns.LogOnlyGrows | provider/state/memstate/memstate.go:131-144 | the log is append-only |
| StateHistory.RecordIs | provider/state/memstate/memstate.go:35-114 | after any run a VM record is its creation's id, spec and time, the last desired state, observed state and controller set, and the time of the last change |
| StateHistory.VMAnswersExactly | provider/state/memstate/memstate.go:68-114 | an operation on a VM is not found exactly when the id was never created, and a claim conflicts exactly when a controller is named |
| StateHistory.ControllerIs | provider/state/memstate/memstate.go:174-199 | a controller is as it first registered, but for the status, capacity and time of its last heartbeat |
| StateHistory.ControllerAnswersExactly | provider/state/memstate/memstate.go:174-199 | registering fails exactly the second time, a heartbeat exactly before registration |
| StateHistory.EventIsLogged | provider/state/memstate/memstate.go:131-144 | the log holds every appended event in its turn, unchanged but for a missing id or time |
| StateHistory.Replay | provider/state/memstate/memstate.go:35-199 | any calls on a new store answer and leave what those histories say |
| EventListing.ListEvents | provider/state/memstate/memstate.go:147-171 | the loop with its early exit returns the first Limit matches in log order, or all of them |
| EventListing.MatchingIsFilter | provider/state/memstate/memstate.go:153-164 | every match is listed in its place and nothing else is |
| EventListing.ListedExactly | provider/state/memstate/memstate.go:147-171 | listed events agree with every field the filter sets and come in log order, and an event that does so is passed over only after a full listing |
| EventListing.SmallerLimitIsPrefix | provider/state/memstate/memstate.go:166-168 | smaller limits give prefixes of larger ones |
| EventListing.ListingIsStable | provider/state/memstate/memstate.go:147-171 | as the log grows a listing only grows at its end, and a full one never changes |
| EventListing.ServiceLimits | api/service.go:95-108 | the service lists the first matches: up to 100 without a limit, up to the limit from 1 to 1000, and up to 1000 above that |
| EventListing.NewestFirstExactly | provider/state/memstate/memstate.go:147-171 | on any log the listing meets FR-011 (by creation time, newest first, no newer match left out) exactly when no listed event is followed by a newer match |
| EventListing.NewestFirstOnOrderedLog | api/service.go:94-98 | on a log in time order the service meets FR-011 exactly when all matches have the same creation time |
| EventListing.OldestComesFirst | provider/state/memstate/memstate.go:152-168 | two events of one VM in time order for which limit one lists the older, against the documented order |
| EventListing.OutOfOrderLogIsListedInOrder | provider/state/memstate/memstate.go:147-171 | a log out of time order whose two matches are listed as documented, with a limit of ten |
| Recorder.ResponseRecorder.WriteHeader | transport/httpapi/idempotency.go:98-104 | records and passes on the first header only |
| Recorder.ResponseRecorder.Write | transport/httpapi/idempotency.go:106-109 | records and passes on every chunk |
| Recorder.ServedByFirstHeader | transport/httpapi/idempotency.go:76-84 | recorded body and sent body are equal; recorded and sent status are given by the first header alone |
| Recorder.RecordingFaithfulExactly | transport/httpapi/idempotency.go:76-84 | exactly which handlers are recorded as their client saw them |
| Recorder.ReplayFaithfulExactly | transport/httpapi/idempotency.go:68-72 | exactly which handlers are replayed as their first client saw them |
| Recorder.BodyFirstIsMisrecorded | transport/httpapi/idempotency.go:98-109 | a handler that writes its body first and then fails with 500 is replayed as 500 after a 200 |
| RetryErasure.RetriesAreErasable | transport/httpapi/idempotency.go:33-88 | deleting the requests the store answered leaves the same state, store and responses, in every interleaving |
| RetryErasure.MiddlewareOnlyFilters | transport/httpapi/handler.go:30-41 | every run has the effect and responses of a run without the middleware that gets each unanswered request once |
| IdempotencyRuns.ReplayIsAuthentic | transport/httpapi/idempotency.go:49-72 | a replayed response is what a handler returned when it was executed for a request with the same key and hash, stored at most 24 hours before the check |
| IdempotencyRuns.StoredIsHeld | transport/httpapi/idempotency.go:49-86 | in every interleaving the store holds under a key the latest recording that no eviction dropped since |
| IdempotencyRuns.AnsweredExactly | transport/httpapi/idempotency.go:49-77 | in every interleaving a keyed request is replayed or refused, and never executed, exactly when a recording of its key was stored on its arrival and is at most 24 hours old at its check; otherwise it goes on to execute |
| IdempotencyRuns.ExecutionsAreSpaced | transport/httpapi/idempotency.go:53-86 | without overlap on a key, the next execution starts more than 24 hours after the previous one was stored |
| IdempotencyRuns.RetryWithinWindow | transport/httpapi/idempotency.go:63-73 | a retry in the window of a recording stored with no other request on its key under way gets the recorded response, or a 409 for another body, and its handler never runs |
| IdempotencyRuns.SavedIsRemembered | transport/httpapi/idempotency.go:55-61 | a recording stored with no other request on its key under way stays the store's entry until 24 hours are over |
| IdempotencyRuns.RepeatNeedsOverlap | transport/httpapi/idempotency.go:49-86 | in every interleaving a handler runs under a key within 24 hours of a recording only if another request with that key was under way when it was stored |
| IdempotencyRuns.OverlapMayExecuteTwice | transport/httpapi/idempotency.go:49-77 | two overlapping requests with one key can both create a VM |
| IdempotencyRuns.LateEvictionRepeats | transport/httpapi/idempotency.go:53-61 | a run in which a late eviction drops a fresh recording, so a request that arrives after it executes again |
| EventRuns.EventsMatchUpdates | api/service.go:26-71 | events logged plus events owed equal successful updates, for each VM and kind, in every interleaving |
| EventRuns.CreationLoggedOnce | api/service.go:26-38 | in every interleaving a stored VM has exactly one creation logged or owed, and no other VM has any |
| EventRuns.EventsAlwaysHaveVMs | api/service.go:26-71 | every VM in the log is in the store |
| EventRuns.LogDeterminesExactly | api/service.go:26-71 | in every interleaving the log projects to exactly the desired states if and only if for each VM the latest update is logged last |
| EventRuns.DesiredIsLast | provider/state/memstate/memstate.go:68-80 | in every interleaving a VM is stored exactly when some update of it succeeded, in the desired state that the latest one means |
| EventRuns.LogDeterminesDesired | api/service.go:26-71 | with serial updates per VM and nothing owed, the log projects to the desired states and starts each history with its one creation |
| EventRuns.OverlapMisordersLog | api/service.go:46-71 | a run after which the log says stopped and the store says deleted |
| EventRuns.TimesCanReachLogOutOfOrder | provider/state/memstate/memstate.go:131-144 | a run whose log is not in the order of its times, as they are sampled before the lock |
| SerialRuns.OneAtATimeIsSerial | api/service.go:26-71 | a server that finishes each request first never overlaps a key or a VM |
| SerialRuns.SerialLogDeterminesDesired | api/service.go:26-71 | after any whole requests, retries included, the log determines the desired states |
| SerialRuns.ServingStaysSerial | transport/httpapi/idempotency.go:33-88 | serving one more whole request keeps a run serial and leaves nothing under way |
| ServiceLayer.Service.CreateVM | api/service.go:26-38 | the created VM and then its event |
| ServiceLayer.Service.StopVM | api/service.go:46-57 | the update and then its event, or the error and no event |
| ServiceLayer.Service.DeleteVM | api/service.go:60-71 | the update and then its event, or the error and no event |
| ServiceLayer.Service.ListEvents | api/service.go:95-108 | the clamped listing |
| HttpApi.Handler.Dispatch | transport/httpapi/handler.go:68-150 | each route's effect on the store and its response |
| HttpApi.Handler.ServeAndRecord | transport/httpapi/idempotency.go:75-86 | runs the handler, sends its response to the client and stores the same status and body with the body hash under the key |
| HttpApi.Handler.ServeFound | transport/httpapi/idempotency.go:53-77 | replays, refuses, or evicts and executes, with the resulting state, recordings and bytes sent |
| HttpApi.Handler.Serve | transport/httpapi/idempotency.go:33-88 | a whole request extends any run of the machine by its own steps, and leaves the state, the recordings and the bytes sent of `WholeRequests.Whole` |
| HttpClients.Retry | transport/httpapi/idempotency.go:33-88 | a second request with a key, up to 24 hours after the first was stored, is sent what the first was, or a 409 for another body, and changes nothing; later it takes effect as well |
| HttpClients.Session | transport/httpapi/handler.go:30-41 | any requests on a new server are sent exactly the answers that the following rows tell |
| ApiRuns.AnsweredFromRecording | transport/httpapi/idempotency.go:49-73 | a request that does not run its handler gets the answer of the last one under its key that did, at most 24 hours before, or a 409, and changes nothing |
| ApiRuns.VMRoutesAnswer | transport/httpapi/handler.go:68-118 | creation answers 202 with the new id, stop and delete 202 or 404, and GET the record that the earlier requests made, or 404 |
| ApiRuns.ControllerRoutesAnswer | transport/httpapi/handler.go:120-150 | registering answers 201 once and 409 after that, a heartbeat 200 or 404 |
| ApiRuns.OtherRoutesAnswer | transport/httpapi/handler.go:169-194 | a listing draws from the events of the earlier requests; an undecodable body is a 400 |
| ApiRuns.LogAlwaysTold | api/service.go:26-71 | the log is one event, by literal type, for each VM created, stopped or deleted, in request order |

## Left out

- Routing, JSON encoding, logging and shutdown: bodies are documents, and an undecodable body is a request kind of its own. Error messages are not modelled, only codes and the resource they name.
- Hashes, random ids and clock readings are given to each step. Generated ids are assumed new; hashes matter only by equality.
- Mutexes and goroutines: each locked region is one step.
- Byte slices shared with callers: `Get` and `Dequeue` return internal slices uncopied, and values here are immutable.
- Panics in handlers, body read errors and short writes in the middleware; body-less statuses, for which the HTTP server drops what is written.
- Blob store, ingress, the tier-specific error types, `ListControllers` and `ListPendingVMs`: lookups over maps, in no promised order.
- The blob of a VM spec is never interpreted, so it is a byte string.
- MemQueue.Queue.Enqueue: the amount by which Go's runtime grows a slice is an argument, as it is not specified.
- Integer widths: a delivery count does not wrap around at 64 bits, and neither do times.
- The enqueue time is sampled before the lock, so slices are in lock order; no order by enqueue time is claimed.
- HttpApi.Handler.Dispatch: does not model the routes that list controllers and answer health probes, nor the error messages.
- QueueProgress.BoundedWait: a Nack on the job's own topic is excluded, since it may put a job back ahead.
