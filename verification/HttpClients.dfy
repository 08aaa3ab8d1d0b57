/** The HTTP handler as clients see it: what is sent on their connections. */
module HttpClients {
  import opened Values
  import opened Model
  import opened StateSteps
  import opened Recorder
  import opened ControlPlane
  import MemState
  import opened ServiceLayer
  import opened WholeRequests
  import opened HttpApi
  import ApiRuns
  import SerialRuns

  // ----- One request and its retry --------------------------------------------------------------

  /** The four routes behind the idempotency middleware. */
  predicate Mutates(call: Call) {
    call.CreateVM? || call.StopVM? || call.DeleteVM? || call.RegisterController?
  }

  /** Setting the desired state of a VM once, with its event and its answer; or a 404 and nothing done. */
  ghost predicate RedirectedOnce(s: State, s': State, id: string, desired: DesiredState, kind: string, x: Samples, sent: Wire<Document>) {
    s'.controllers == s.controllers &&
    if id in s.vms then
      && s'.vms == s.vms[id := s.vms[id].(desired := desired, updatedAt := x.stamp)]
      && s'.events == s.events + [Event(x.eventId, id, "", kind, [], x.eventStamp)]
      && sent == Wire(Some(202), [IdDocument(id)])
    else
      && s'.vms == s.vms && s'.events == s.events
      && sent == Wire(Some(404), [ErrorDocument("not_found", "vm", id)])
  }

  /** The request took effect once between two states, and that is what its client was sent. */
  ghost predicate Once(s: State, s': State, call: Call, x: Samples, sent: Wire<Document>)
    requires Mutates(call)
  {
    match call
    case CreateVM(spec) =>
      && s'.vms == s.vms[x.vmId := VM(x.vmId, Running, ObsPending, "", "", spec, x.stamp, x.stamp)]
      && s'.events == s.events + [Event(x.eventId, x.vmId, "", "vm.created", [], x.eventStamp)]
      && s'.controllers == s.controllers && sent == Wire(Some(202), [IdDocument(x.vmId)])
    case StopVM(id) => RedirectedOnce(s, s', id, Stopped, "vm.stop_requested", x, sent)
    case DeleteVM(id) => RedirectedOnce(s, s', id, Deleted, "vm.delete_requested", x, sent)
    case RegisterController(c) =>
      && s'.vms == s.vms && s'.events == s.events
      && if c.id in s.controllers then
           s'.controllers == s.controllers && sent == Wire(Some(409), [ErrorDocument("already_exists", "controller", c.id)])
         else
           s'.controllers == s.controllers[c.id := c] && sent == Wire(Some(201), [ControllerDocument(c)])
  }

  lemma {:induction false} PerformedOnce(s: State, call: Call, x: Samples)
    requires Mutates(call)
    ensures Once(s, Perform(s, call, x).0, call, x, Sent(Perform(s, call, x).1))
  {
  }

  /** The key has no recording that is at most 24 hours old. */
  predicate Unused(entries: map<string, Entry>, key: string, now: int) {
    key in entries ==> now - entries[key].createdAt > 24 * 60 * 60 * 1_000_000_000
  }

  /** The same on states and recordings. */
  lemma {:induction false} RetriedOnce(s: State, entries: map<string, Entry>, first: Request, x1: Samples, second: Request, x2: Samples)
    requires Mutates(first.call) && Mutates(second.call) && first.key != "" && second.key == first.key
    requires Unused(entries, first.key, x1.checked)
    ensures
      var (s1, entries1, r1) := Whole(s, entries, first, x1);
      var (s2, _, r2) := Whole(s1, entries1, second, x2);
      && Once(s, s1, first.call, x1, Sent(r1))
      && if x2.checked - x1.saved <= 24 * 60 * 60 * 1_000_000_000 then
           s2 == s1 && r2 == if second.hash == first.hash then r1 else Response(409, [ErrorDocument("conflict", "", "")])
         else Once(s1, s2, second.call, x2, Sent(r2))
  {
    var (s1, entries1, _) := Whole(s, entries, first, x1);
    PerformedOnce(s, first.call, x1);
    PerformedOnce(s1, second.call, x2);
  }

  lemma {:induction false} CreatesOnly(s: State, entries: map<string, Entry>, req: Request, x: Samples)
    ensures Whole(s, entries, req, x).0.vms.Keys <= s.vms.Keys + {x.vmId}
  {
  }

  /** A whole request brings no other into the machine. */
  lemma {:induction false} OnlyNewcomer(run: seq<Label>, longer: seq<Label>, t: nat, req: Request, u: nat)
    requires Extends(run, longer, t, req) && u != t
    ensures u in At(longer).threads <==> u in At(run).threads
  {
    assert longer[..|run|] == run && longer[..|longer|] == longer;
    SerialRuns.OthersUntouched(longer, |run|, |longer|, t, u);
  }

  /** Two requests, one after the other, each on its own connection. */
  method ServeTwice(h: Handler, first: Request, x1: Samples, second: Request, x2: Samples,
                    ghost run: seq<Label>, ghost t1: nat, ghost t2: nat)
      returns (w1: ClientConnection<Document>, w2: ClientConnection<Document>)
    requires h.Holds(run) && t1 !in At(run).threads && t2 !in At(run).threads && t1 != t2
    requires At(run).clock <= x1.arrived && x1.InOrder() && x1.saved <= x2.arrived && x2.InOrder()
    requires x1.vmId != "" && x2.vmId != "" && x1.vmId != x2.vmId && x1.eventId != "" && x2.eventId != ""
    requires x1.vmId !in h.svc.state.vms && x2.vmId !in h.svc.state.vms
    modifies h.svc.state, h.idem
    ensures fresh(w1) && fresh(w2) && w1 != w2
    ensures
      var (s1, entries1, r1) := Whole(old(h.svc.state.Now()), old(h.idem.entries), first, x1);
      var (s2, entries2, r2) := Whole(s1, entries1, second, x2);
      h.svc.state.Now() == s2 && h.idem.entries == entries2 && w1.sent == Sent(r1) && w2.sent == Sent(r2)
  {
    w1 := new ClientConnection<Document>();
    w2 := new ClientConnection<Document>();
    CreatesOnly(h.svc.state.Now(), h.idem.entries, first, x1);
    ghost var longer := h.Serve(w1, first, x1, run, t1);
    OnlyNewcomer(run, longer, t1, first, t2);
    longer := h.Serve(w2, second, x2, longer, t2);
  }

  /**
   A client makes a request with a new idempotency key and then another with the same key, on any
   of the four routes. Up to 24 hours later the second changes nothing, and is sent byte for byte
   what the first was if its body hashes alike, and a 409 if not. After that it takes effect as well.
   */
  method Retry(h: Handler, first: Request, x1: Samples, second: Request, x2: Samples,
               ghost run: seq<Label>, ghost t1: nat, ghost t2: nat)
      returns (w1: ClientConnection<Document>, w2: ClientConnection<Document>)
    requires h.Holds(run) && t1 !in At(run).threads && t2 !in At(run).threads && t1 != t2
    requires At(run).clock <= x1.arrived && x1.InOrder() && x1.saved <= x2.arrived && x2.InOrder()
    requires x1.vmId != "" && x2.vmId != "" && x1.vmId != x2.vmId && x1.eventId != "" && x2.eventId != ""
    requires x1.vmId !in h.svc.state.vms && x2.vmId !in h.svc.state.vms
    requires Mutates(first.call) && Mutates(second.call) && first.key != "" && second.key == first.key
    requires Unused(h.idem.entries, first.key, x1.checked)
    modifies h.svc.state, h.idem
    ensures fresh(w1) && fresh(w2) && w1 != w2
    ensures x2.checked - x1.saved <= 24 * 60 * 60 * 1_000_000_000 ==>
      && Once(old(h.svc.state.Now()), h.svc.state.Now(), first.call, x1, w1.sent)
      && (second.hash == first.hash ==> w2.sent == w1.sent)
      && (second.hash != first.hash ==> w2.sent == Wire(Some(409), [ErrorDocument("conflict", "", "")]))
    ensures x2.checked - x1.saved > 24 * 60 * 60 * 1_000_000_000 ==> exists between ::
      && Once(old(h.svc.state.Now()), between, first.call, x1, w1.sent)
      && Once(between, h.svc.state.Now(), second.call, x2, w2.sent)
  {
    RetriedOnce(h.svc.state.Now(), h.idem.entries, first, x1, second, x2);
    w1, w2 := ServeTwice(h, first, x1, second, x2, run, t1, t2);
  }

  // ----- Whole sessions -------------------------------------------------------------------------

  /** The handler has served the first k requests, as run's requests 0 to k - 1. */
  ghost predicate Served(h: Handler, vs: seq<ApiRuns.Visit>, k: nat, run: seq<Label>)
    requires k <= |vs|
    reads h.svc.state, h.idem
  {
    && h.Holds(run) && (h.svc.state.Now(), h.idem.entries) == ApiRuns.After(vs[..k])
    && (forall u :: u in At(run).threads ==> u < k)
    && At(run).clock <= if k == 0 then ZERO_TIME else vs[k - 1].x.saved
  }

  /** The requests of a session sample what the server can: new ids, and clocks that do not run backwards. */
  ghost predicate CanServe(vs: seq<ApiRuns.Visit>) {
    && ApiRuns.Orderly(vs)
    && forall k :: 0 <= k < |vs| ==> vs[k].x.arrived >= ZERO_TIME && vs[k].x.vmId != "" && vs[k].x.eventId != ""
  }

  lemma {:induction false} IdIsNew(vs: seq<ApiRuns.Visit>, k: nat)
    requires ApiRuns.Orderly(vs) && k < |vs|
    ensures vs[k].x.vmId !in ApiRuns.After(vs[..k]).0.vms
  {
    ApiRuns.VMsAlwaysTold(vs, k, vs[k].x.vmId);
  }

  lemma {:induction false} SentAsAnswered(vs: seq<ApiRuns.Visit>, k: nat)
    requires ApiRuns.Orderly(vs) && k < |vs|
    ensures Sent(ApiRuns.AnswerAt(vs, k)) == Wire(Some(ApiRuns.AnswerAt(vs, k).status), ApiRuns.AnswerAt(vs, k).body)
  {
    ApiRuns.AnswersAreFinal(vs, k);
  }

  lemma {:induction false} OneMore(run: seq<Label>, longer: seq<Label>, k: nat, req: Request)
    requires Extends(run, longer, k, req) && forall u :: u in At(run).threads ==> u < k
    ensures forall u :: u in At(longer).threads ==> u < k + 1
  {
    forall u | u in At(longer).threads && u != k ensures u < k {
      OnlyNewcomer(run, longer, k, req, u);
    }
  }

  /** The k-th request of a session. */
  method ServeNext(h: Handler, vs: seq<ApiRuns.Visit>, k: nat, ghost run: seq<Label>)
      returns (sent: Wire<Document>, ghost longer: seq<Label>)
    requires CanServe(vs) && k < |vs| && Served(h, vs, k, run)
    modifies h.svc.state, h.idem
    ensures Served(h, vs, k + 1, longer)
    ensures sent == Wire(Some(ApiRuns.AnswerAt(vs, k).status), ApiRuns.AnswerAt(vs, k).body)
  {
    var w := new ClientConnection<Document>();
    IdIsNew(vs, k);
    SentAsAnswered(vs, k);
    ApiRuns.AfterStep(vs, k);
    longer := h.Serve(w, vs[k].req, vs[k].x, run, k);
    OneMore(run, longer, k, vs[k].req);
    sent := w.sent;
  }

  /** Any requests, made one after another on a new server, are sent what `ApiRuns` tells from the earlier ones. */
  method Session(vs: seq<ApiRuns.Visit>) returns (h: Handler, answers: seq<Wire<Document>>)
    requires CanServe(vs)
    ensures |answers| == |vs|
    ensures forall k :: 0 <= k < |vs| ==>
      answers[k] == Wire(Some(ApiRuns.AnswerAt(vs, k).status), ApiRuns.AnswerAt(vs, k).body)
    ensures (h.svc.state.Now(), h.idem.entries) == ApiRuns.After(vs)
  {
    var state := new MemState.Store();
    var svc := new Service(state);
    var idem := new IdempotencyStore();
    h := new Handler(svc, idem);
    answers := [];
    ghost var run: seq<Label> := [];
    assert vs[..0] == [];
    for k := 0 to |vs|
      invariant fresh(h.svc.state) && fresh(h.idem) && Served(h, vs, k, run)
      invariant |answers| == k
      invariant forall i :: 0 <= i < k ==>
        answers[i] == Wire(Some(ApiRuns.AnswerAt(vs, i).status), ApiRuns.AnswerAt(vs, i).body)
    {
      var sent;
      sent, run := ServeNext(h, vs, k, run);
      answers := answers + [sent];
    }
    assert vs[..|vs|] == vs;
  }
}
