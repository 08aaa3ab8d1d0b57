/** The HTTP layer as its own objects, served one request at a time. */
module HttpApi {
  import opened Values
  import opened Model
  import opened Recorder
  import opened ControlPlane
  import opened ServiceLayer
  import opened WholeRequests

  /** What a client is sent for a response. */
  function Sent(r: Response): Wire<Document> {
    Send(Send(Wire(None, []), Recorder.Header(r.status)), Recorder.Body(r.body))
  }

  class IdempotencyStore {
    var entries: map<string, Entry>

    constructor ()
      ensures entries == map[]
    {
      entries := map[];
    }

    method Lookup(key: string) returns (r: Option<Entry>)
      ensures r == if key in entries then Some(entries[key]) else None
    {
      if key in entries {
        return Some(entries[key]);
      }
      return None;
    }

    method Evict(key: string)
      modifies this
      ensures entries == old(entries) - {key}
    {
      entries := entries - {key};
    }

    method Save(key: string, entry: Entry)
      modifies this
      ensures entries == old(entries)[key := entry]
    {
      entries := entries[key := entry];
    }
  }

  class Handler {
    const svc: Service
    const idem: IdempotencyStore

    constructor (svc: Service, idem: IdempotencyStore)
      ensures this.svc == svc && this.idem == idem
    {
      this.svc, this.idem := svc, idem;
    }

    /** The handlers: what each route does with the service, and what it answers. */
    method Dispatch(call: Call, x: Samples) returns (r: Response)
      modifies svc.state
      ensures (svc.state.Now(), r) == Perform(old(svc.state.Now()), call, x)
    {
      match call {
        case CreateVM(spec) =>
          var id := svc.CreateVM(spec, x);
          r := Response(202, [IdDocument(id)]);
        case StopVM(id) =>
          var err := svc.StopVM(id, x);
          r := if err.Some? then ErrorResponse(err.value) else Response(202, [IdDocument(id)]);
        case DeleteVM(id) =>
          var err := svc.DeleteVM(id, x);
          r := if err.Some? then ErrorResponse(err.value) else Response(202, [IdDocument(id)]);
        case RegisterController(c) =>
          var err := svc.state.RegisterController(c);
          r := if err.Some? then ErrorResponse(err.value) else Response(201, [ControllerDocument(c)]);
        case Heartbeat(id, hb) =>
          var err := svc.state.UpdateControllerHeartbeat(id, hb, x.stamp);
          r := if err.Some? then ErrorResponse(err.value) else Response(200, [StatusDocument]);
        case GetVM(id) =>
          var vm := svc.state.GetVM(id);
          r := if vm.Some? then Response(200, [VMDocument(vm.value)]) else ErrorResponse(NotFound("vm", id));
        case ListEvents(filter) =>
          var events := svc.ListEvents(filter);
          r := Response(200, [EventsDocument(events)]);
        case Malformed(_) =>
          r := BAD_REQUEST;
      }
    }

    /** The objects hold what the machine says after this run. */
    ghost predicate Holds(run: seq<Label>)
      reads svc.state, idem
    {
      Possible(run) && svc.state.Now() == At(run).state && idem.entries == At(run).entries
    }

    /** An unkeyed request: the handler writes straight to the client. */
    method ServeDirectly(w: ClientConnection<Document>, req: Request, x: Samples)
      requires !Keyed(req) && w.sent == Wire(None, [])
      modifies svc.state, w
      ensures
        var (s, _, r) := Whole(old(svc.state.Now()), old(idem.entries), req, x);
        svc.state.Now() == s && w.sent == Sent(r)
    {
      var r := Dispatch(req.call, x);
      w.WriteHeader(r.status);
      w.Write(r.body);
    }

    /** The rest of a keyed request with no usable entry: execute, record and store. */
    method ServeAndRecord(w: ClientConnection<Document>, req: Request, x: Samples)
      requires Keyed(req) && w.sent == Wire(None, [])
      modifies svc.state, idem, w
      ensures
        var (s, r) := Perform(old(svc.state.Now()), req.call, x);
        && svc.state.Now() == s && w.sent == Sent(r)
        && idem.entries == old(idem.entries)[req.key := Entry(req.hash, r, x.saved)]
    {
      var rec := new ResponseRecorder<Document>(w);
      var r := Dispatch(req.call, x);
      rec.WriteHeader(r.status);
      rec.Write(r.body);
      var recorded := Response(rec.statusCode, rec.body);
      assert recorded == r;
      idem.Save(req.key, Entry(req.hash, recorded, x.saved));
    }

    /** A keyed request that found an entry: replay, refuse, or evict and execute. */
    method ServeFound(w: ClientConnection<Document>, req: Request, entry: Entry, x: Samples)
      requires Keyed(req) && req.key in idem.entries && idem.entries[req.key] == entry && w.sent == Wire(None, [])
      modifies svc.state, idem, w
      ensures
        var (s, entries, r) := Whole(old(svc.state.Now()), old(idem.entries), req, x);
        svc.state.Now() == s && idem.entries == entries && w.sent == Sent(r)
    {
      if x.checked - entry.createdAt > TTL {
        idem.Evict(req.key);
        ServeAndRecord(w, req, x);
        StoredAnew(old(idem.entries), req.key, idem.entries[req.key]);
      } else {
        var r := if entry.hash != req.hash then REUSED else entry.response;
        w.WriteHeader(r.status);
        w.Write(r.body);
      }
    }

    /**
     One request from arrival to its end. Whatever run of the machine led to the present state,
     the request extends it by steps of its own alone, and the client is sent the machine's reply.
     */
    method Serve(w: ClientConnection<Document>, req: Request, x: Samples, ghost run: seq<Label>, ghost t: nat)
        returns (ghost longer: seq<Label>)
      requires Holds(run) && t !in At(run).threads && At(run).clock <= x.arrived && x.InOrder()
      requires x.vmId != "" && x.vmId !in svc.state.vms && x.eventId != ""
      requires w.sent == Wire(None, [])
      modifies svc.state, idem, w
      ensures Holds(longer) && Extends(run, longer, t, req) && w.sent == Sent(Reply(At(longer).threads[t].phase))
      ensures At(longer).clock <= x.saved
      ensures
        var (s, entries, r) := Whole(old(svc.state.Now()), old(idem.entries), req, x);
        svc.state.Now() == s && idem.entries == entries && w.sent == Sent(r)
    {
      longer := WholeIsRun(run, t, req, x);
      if !Keyed(req) {
        ServeDirectly(w, req, x);
        return;
      }
      var found := idem.Lookup(req.key);
      if found.None? {
        ServeAndRecord(w, req, x);
        return;
      }
      ServeFound(w, req, found.value, x);
    }
  }
}
