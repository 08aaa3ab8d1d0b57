/**
 The whole API server as one state machine. Every region that runs under a lock is one step, so
 requests interleave wherever the locks are dropped: between the idempotency store's lookup, its
 expiry check, its eviction, the handler and the final store, and inside the service between
 updating a VM and appending its event.
 */
module ControlPlane {
  import opened Values
  import opened Model
  import opened StateSteps
  import EventListing

  /** `Malformed` is a body that does not decode, on a route with or without idempotency. */
  datatype Call =
    | CreateVM(spec: VMSpec)
    | StopVM(id: string)
    | DeleteVM(id: string)
    | RegisterController(controller: Controller)
    | Heartbeat(controllerId: string, heartbeat: Model.Heartbeat)
    | GetVM(id: string)
    | ListEvents(filter: EventFilter)
    | Malformed(wrapped: bool)

  /** `key` is the Idempotency-Key header and `hash` the digest of the request body. */
  datatype Request = Request(key: string, hash: Bytes, call: Call)

  /** The JSON documents that handlers write. */
  datatype Document =
    | IdDocument(id: string)
    | VMDocument(vm: VM)
    | ControllerDocument(controller: Controller)
    | EventsDocument(events: seq<Event>)
    | StatusDocument
    | ErrorDocument(code: string, resource: string, id: string)

  datatype Response = Response(status: int, body: seq<Document>)

  datatype Entry = Entry(hash: Bytes, response: Response, createdAt: int)

  /** Twenty-four hours, in nanoseconds. */
  const TTL: int := 24 * 60 * 60 * 1_000_000_000

  const CREATED := "vm.created"
  const STOP_REQUESTED := "vm.stop_requested"
  const DELETE_REQUESTED := "vm.delete_requested"

  /** Where a request has got to. */
  datatype Phase =
    | Found(entry: Entry)                          // looked up an entry, not yet checked its age
    | Evicting                                     // found it expired
    | Executing                                    // about to run the handler
    | Logging(event: Event, response: Response)    // updated the VM, event not yet appended
    | Responded(response: Response)                // answered the client, recording not yet stored
    | Finished(response: Response)
    | Replayed(response: Response)
    | Refused

  datatype Thread = Thread(req: Request, phase: Phase)

  datatype Plane = Plane(
    state: State,
    entries: map<string, Entry>,
    threads: map<nat, Thread>,
    clock: int)

  const START: Plane := Plane(EMPTY, map[], map[], ZERO_TIME)

  /** Steps carry the ids and times they sample; a `stamp` may have been sampled before the lock. */
  datatype Action =
    | Arrive(req: Request)
    | Check
    | Evict
    | Execute(id: string, stamp: int)
    | Log(id: string, stamp: int)
    | Save

  datatype Label = Label(thread: nat, now: int, action: Action)

  /** The routes behind the idempotency middleware. */
  predicate Wrapped(call: Call) {
    match call
    case CreateVM(_) => true
    case StopVM(_) => true
    case DeleteVM(_) => true
    case RegisterController(_) => true
    case Malformed(wrapped) => wrapped
    case _ => false
  }

  predicate Keyed(req: Request) {
    Wrapped(req.call) && req.key != ""
  }

  function ErrorResponse(err: Error): Response {
    match err
    case NotFound(resource, id) => Response(404, [ErrorDocument("not_found", resource, id)])
    case AlreadyExists(resource, id) => Response(409, [ErrorDocument("already_exists", resource, id)])
    case Conflict(resource, id) => Response(409, [ErrorDocument("conflict", resource, id)])
  }

  const REUSED: Response := Response(409, [ErrorDocument("conflict", "", "")])
  const BAD_REQUEST: Response := Response(400, [ErrorDocument("bad_request", "", "")])

  function EventOf(vm: string, kind: string): Event {
    Event("", vm, "", kind, [], ZERO_TIME)
  }

  /** Reply with the error, or with this response once the event is logged. */
  function Outcome(err: Option<Error>, event: Option<Event>, response: Response): (Option<Event>, Response) {
    match err
    case Some(e) => (None, ErrorResponse(e))
    case None => (event, response)
  }

  /** The locked store operation of a handler, the event it has to log, and its response. */
  function Handle(s: State, call: Call, id: string, stamp: int): (State, (Option<Event>, Response)) {
    match call
    case CreateVM(spec) =>
      (StateSteps.CreateVM(s, id, spec, stamp), (Some(EventOf(id, CREATED)), Response(202, [IdDocument(id)])))
    case StopVM(vm) =>
      var (s', err) := SetDesired(s, vm, Stopped, stamp);
      (s', Outcome(err, Some(EventOf(vm, STOP_REQUESTED)), Response(202, [IdDocument(vm)])))
    case DeleteVM(vm) =>
      var (s', err) := SetDesired(s, vm, Deleted, stamp);
      (s', Outcome(err, Some(EventOf(vm, DELETE_REQUESTED)), Response(202, [IdDocument(vm)])))
    case RegisterController(c) =>
      var (s', err) := StateSteps.RegisterController(s, c);
      (s', Outcome(err, None, Response(201, [ControllerDocument(c)])))
    case Heartbeat(c, hb) =>
      var (s', err) := RecordHeartbeat(s, c, hb, stamp);
      (s', Outcome(err, None, Response(200, [StatusDocument])))
    case GetVM(vm) =>
      (s, (None, if vm in s.vms then Response(200, [VMDocument(s.vms[vm])]) else ErrorResponse(NotFound("vm", vm))))
    case ListEvents(filter) =>
      (s, (None, Response(200, [EventsDocument(EventListing.ServiceListed(s.events, filter))])))
    case Malformed(_) =>
      (s, (None, BAD_REQUEST))
  }

  /** Only keyed requests still have a recording to store. */
  function Done(req: Request, response: Response): Phase {
    if Keyed(req) then Responded(response) else Finished(response)
  }

  function AfterHandle(req: Request, outcome: (Option<Event>, Response)): Phase {
    match outcome.0
    case Some(event) => Logging(event, outcome.1)
    case None => Done(req, outcome.1)
  }

  function AfterArrive(entries: map<string, Entry>, req: Request): Phase {
    if Keyed(req) && req.key in entries then Found(entries[req.key]) else Executing
  }

  function AfterCheck(req: Request, entry: Entry, now: int): Phase {
    if now - entry.createdAt > TTL then Evicting
    else if entry.hash != req.hash then Refused
    else Replayed(entry.response)
  }

  /** Labels come in clock order, and each belongs to a request that has got that far. */
  predicate Enabled(p: Plane, l: Label) {
    && l.now >= p.clock
    && (l.action.Arrive? <==> l.thread !in p.threads)
    && (l.thread in p.threads ==> Ready(p, p.threads[l.thread], l.action))
  }

  predicate Ready(p: Plane, th: Thread, action: Action) {
    match action
    case Arrive(_) => false
    case Check => th.phase.Found?
    case Evict => th.phase.Evicting?
    case Execute(id, _) => th.phase.Executing? && (th.req.call.CreateVM? ==> id != "" && id !in p.state.vms)
    case Log(id, _) => th.phase.Logging? && id != ""
    case Save => th.phase.Responded?
  }

  function Next(p: Plane, l: Label): Plane {
    if l.action.Arrive? then
      var th := Thread(l.action.req, AfterArrive(p.entries, l.action.req));
      p.(threads := p.threads[l.thread := th], clock := l.now)
    else if l.thread in p.threads then
      var th := p.threads[l.thread];
      var (state, entries, phase) := Advance(p, th, l.action, l.now);
      Plane(state, entries, p.threads[l.thread := th.(phase := phase)], l.now)
    else p
  }

  function Advance(p: Plane, th: Thread, action: Action, now: int): (State, map<string, Entry>, Phase) {
    match (action, th.phase)
    case (Check, Found(entry)) =>
      (p.state, p.entries, AfterCheck(th.req, entry, now))
    case (Evict, Evicting) =>
      (p.state, p.entries - {th.req.key}, Executing)
    case (Execute(id, stamp), Executing) =>
      var (s, outcome) := Handle(p.state, th.req.call, id, stamp);
      (s, p.entries, AfterHandle(th.req, outcome))
    case (Log(id, stamp), Logging(event, response)) =>
      (AppendEvent(p.state, event, id, stamp), p.entries, Done(th.req, response))
    case (Save, Responded(response)) =>
      (p.state, p.entries[th.req.key := Entry(th.req.hash, response, now)], Finished(response))
    case _ =>
      (p.state, p.entries, th.phase)
  }

  function At(run: seq<Label>): Plane {
    if |run| == 0 then START else Next(At(run[..|run| - 1]), run[|run| - 1])
  }

  predicate Over(phase: Phase) {
    phase.Finished? || phase.Replayed? || phase.Refused?
  }

  /** A run continued by steps of one request, up to its end. */
  ghost predicate Extends(run: seq<Label>, longer: seq<Label>, t: nat, req: Request) {
    && run <= longer && (forall k :: |run| <= k < |longer| ==> longer[k].thread == t)
    && t in At(longer).threads && At(longer).threads[t].req == req && Over(At(longer).threads[t].phase)
  }

  predicate EnabledAt(run: seq<Label>, k: nat)
    requires k < |run|
  {
    Enabled(At(run[..k]), run[k])
  }

  /** A run the server can make from empty. */
  ghost predicate Possible(run: seq<Label>) {
    forall k :: 0 <= k < |run| ==> EnabledAt(run, k)
  }

  lemma {:induction false} PrefixPossible(run: seq<Label>, k: nat)
    requires Possible(run) && k <= |run|
    ensures Possible(run[..k])
  {
    forall i | 0 <= i < k ensures EnabledAt(run[..k], i) {
      assert run[..k][..i] == run[..i];
      assert EnabledAt(run, i);
    }
  }

  /** The last step of a run. */
  lemma {:induction false} LastStep(run: seq<Label>) returns (prior: seq<Label>, l: Label)
    requires Possible(run) && |run| > 0
    ensures prior == run[..|run| - 1] && l == run[|run| - 1] && run == prior + [l]
    ensures Possible(prior) && Enabled(At(prior), l) && At(run) == Next(At(prior), l)
  {
    prior, l := run[..|run| - 1], run[|run| - 1];
    PrefixPossible(run, |run| - 1);
    assert EnabledAt(run, |run| - 1);
  }

  lemma {:induction false} StepAt(run: seq<Label>, k: nat)
    requires k < |run|
    ensures At(run[..k + 1]) == Next(At(run[..k]), run[k])
  {
    assert run[..k + 1][..k] == run[..k];
  }

  lemma {:induction false} PossibleExtend(run: seq<Label>, l: Label)
    requires Possible(run) && Enabled(At(run), l)
    ensures Possible(run + [l]) && At(run + [l]) == Next(At(run), l)
  {
    var longer := run + [l];
    assert longer[..|run|] == run;
    forall k | 0 <= k < |longer| ensures EnabledAt(longer, k) {
      assert k < |run| ==> longer[..k] == run[..k] && EnabledAt(run, k);
    }
  }

  /** One more step. */
  lemma {:induction false} Extend(run: seq<Label>, l: Label) returns (longer: seq<Label>, p: Plane)
    requires Possible(run) && Enabled(At(run), l)
    ensures longer == run + [l] && Possible(longer) && p == At(longer) == Next(At(run), l)
  {
    PossibleExtend(run, l);
    longer := run + [l];
    p := At(longer);
  }

  /** A request never leaves. */
  lemma {:induction false} NeverLeaves(run: seq<Label>, t: nat, from: nat, end: nat)
    requires from <= end <= |run| && t in At(run[..from]).threads
    ensures t in At(run[..end]).threads
    decreases end
  {
    if from < end {
      NeverLeaves(run, t, from, end - 1);
      StepAt(run, end - 1);
    }
  }

  lemma {:induction false} ClockRises(run: seq<Label>, from: nat, end: nat)
    requires Possible(run) && from <= end <= |run|
    ensures At(run[..from]).clock <= At(run[..end]).clock
    decreases end
  {
    if from < end {
      ClockRises(run, from, end - 1);
      StepAt(run, end - 1);
      assert EnabledAt(run, end - 1);
    }
  }
}
