/**
 What clients are answered when requests are served one after another, told by the earlier requests
 alone: neither the store's state nor the idempotency store is mentioned in a result.
 */
module ApiRuns {
  import opened Values
  import opened Model
  import opened StateSteps
  import EventListing
  import opened ControlPlane
  import opened ServiceLayer
  import opened WholeRequests

  /** A request together with what it samples. */
  datatype Visit = Visit(req: Request, x: Samples)

  function After(vs: seq<Visit>): (State, map<string, Entry>) {
    if |vs| == 0 then (EMPTY, map[])
    else
      var n := |vs| - 1;
      var (s, entries) := After(vs[..n]);
      var (s', entries', _) := Whole(s, entries, vs[n].req, vs[n].x);
      (s', entries')
  }

  function StateAfter(vs: seq<Visit>, k: nat): State
    requires k <= |vs|
  {
    After(vs[..k]).0
  }

  function AnswerAt(vs: seq<Visit>, k: nat): Response
    requires k < |vs|
  {
    Whole(After(vs[..k]).0, After(vs[..k]).1, vs[k].req, vs[k].x).2
  }

  lemma {:induction false} AfterStep(vs: seq<Visit>, k: nat)
    requires k < |vs|
    ensures
      var (s, entries) := After(vs[..k]);
      After(vs[..k + 1]) == (Whole(s, entries, vs[k].req, vs[k].x).0, Whole(s, entries, vs[k].req, vs[k].x).1)
  {
    assert vs[..k + 1][..k] == vs[..k];
  }

  /** Clocks do not run backwards, and generated VM ids are new. */
  ghost predicate Orderly(vs: seq<Visit>) {
    && (forall k :: 0 <= k < |vs| ==> vs[k].x.InOrder())
    && (forall i, k :: 0 <= i < k < |vs| ==> vs[i].x.saved <= vs[k].x.arrived)
    && forall i, k :: 0 <= i < k < |vs| ==> vs[i].x.vmId != vs[k].x.vmId
  }

  // ----- Which requests run their handler ---------------------------------------------------

  /** Request k is on a route behind the middleware, with this idempotency key. */
  predicate KeyedBy(vs: seq<Visit>, k: nat, key: string)
    requires k < |vs|
  {
    var call := vs[k].req.call;
    && key != "" && vs[k].req.key == key
    && (call.CreateVM? || call.StopVM? || call.DeleteVM? || call.RegisterController? || call == Malformed(true))
  }

  /** Request k runs its handler: no request that did so under its key stored its response within the last 24 hours. */
  ghost predicate Runs(vs: seq<Visit>, k: nat)
    requires k < |vs|
    decreases k
  {
    forall i: nat :: i < k && KeyedBy(vs, k, vs[k].req.key) && KeyedBy(vs, i, vs[k].req.key) && Runs(vs, i) ==>
      vs[k].x.checked - vs[i].x.saved > 24 * 60 * 60 * 1_000_000_000
  }

  /** Request i is the last before k that ran its handler under this key. */
  ghost predicate LastUnder(vs: seq<Visit>, i: nat, k: nat, key: string)
    requires k <= |vs|
  {
    && i < k && KeyedBy(vs, i, key) && Runs(vs, i)
    && forall j: nat :: i < j < k && KeyedBy(vs, j, key) ==> !Runs(vs, j)
  }

  /** The recording under a key is that of the last request that ran its handler under it. */
  ghost predicate Recorded(vs: seq<Visit>, k: nat, key: string)
    requires k <= |vs|
  {
    var entries := After(vs[..k]).1;
    && (key !in entries ==> forall i: nat :: i < k && KeyedBy(vs, i, key) ==> !Runs(vs, i))
    && (key in entries ==> exists i: nat ::
          LastUnder(vs, i, k, key) && entries[key] == Entry(vs[i].req.hash, AnswerAt(vs, i), vs[i].x.saved))
  }

  lemma {:induction false} KeyedByRoute(vs: seq<Visit>, k: nat)
    requires k < |vs|
    ensures KeyedBy(vs, k, vs[k].req.key) <==> Keyed(vs[k].req)
  {
  }

  lemma {:induction false} RunsUnlessAnswered(vs: seq<Visit>, k: nat)
    requires Orderly(vs) && k < |vs| && Recorded(vs, k, vs[k].req.key)
    ensures Runs(vs, k) <==> !Answerable(After(vs[..k]).1, vs[k].req, vs[k].x)
  {
    var entries, key := After(vs[..k]).1, vs[k].req.key;
    KeyedByRoute(vs, k);
    if key in entries {
      var i: nat :| LastUnder(vs, i, k, key) && entries[key] == Entry(vs[i].req.hash, AnswerAt(vs, i), vs[i].x.saved);
      forall j: nat | j < k && KeyedBy(vs, j, key) && Runs(vs, j) ensures vs[j].x.saved <= vs[i].x.saved {
        assert j <= i;
      }
    }
  }

  lemma {:induction false} EntriesStep(vs: seq<Visit>, k: nat)
    requires Orderly(vs) && k < |vs| && Recorded(vs, k, vs[k].req.key)
    ensures
      var req := vs[k].req;
      After(vs[..k + 1]).1 ==
      if Runs(vs, k) && KeyedBy(vs, k, req.key) then After(vs[..k]).1[req.key := Entry(req.hash, AnswerAt(vs, k), vs[k].x.saved)]
      else After(vs[..k]).1
  {
    AfterStep(vs, k);
    RunsUnlessAnswered(vs, k);
    KeyedByRoute(vs, k);
  }

  lemma {:induction false} RecordedWhenKept(vs: seq<Visit>, k: nat, key: string)
    requires k < |vs| && Recorded(vs, k, key) && !(Runs(vs, k) && KeyedBy(vs, k, key))
    requires key in After(vs[..k + 1]).1 <==> key in After(vs[..k]).1
    requires key in After(vs[..k]).1 ==> After(vs[..k + 1]).1[key] == After(vs[..k]).1[key]
    ensures Recorded(vs, k + 1, key)
  {
    var entries := After(vs[..k]).1;
    if key in entries {
      var i: nat :| LastUnder(vs, i, k, key) && entries[key] == Entry(vs[i].req.hash, AnswerAt(vs, i), vs[i].x.saved);
      assert LastUnder(vs, i, k + 1, key);
    }
  }

  lemma {:induction false} RecordedStep(vs: seq<Visit>, k: nat, key: string)
    requires Orderly(vs) && k < |vs| && Recorded(vs, k, key) && Recorded(vs, k, vs[k].req.key)
    ensures Recorded(vs, k + 1, key)
  {
    EntriesStep(vs, k);
    if Runs(vs, k) && KeyedBy(vs, k, key) {
      assert LastUnder(vs, k, k + 1, key);
    } else {
      RecordedWhenKept(vs, k, key);
    }
  }

  lemma {:induction false} AlwaysRecorded(vs: seq<Visit>, k: nat, key: string)
    requires Orderly(vs) && k <= |vs|
    ensures Recorded(vs, k, key)
    decreases k
  {
    if k == 0 {
      assert vs[..0] == [];
    } else {
      AlwaysRecorded(vs, k - 1, key);
      AlwaysRecorded(vs, k - 1, vs[k - 1].req.key);
      RecordedStep(vs, k - 1, key);
    }
  }

  /**
   A request that does not run its handler is answered from the last request that did under its key,
   at most 24 hours before: with the same response when the bodies hash alike, and with a 409 when
   they do not. It changes nothing.
   */
  lemma {:induction false} AnsweredFromRecording(vs: seq<Visit>, k: nat)
    requires Orderly(vs) && k < |vs| && !Runs(vs, k)
    ensures StateAfter(vs, k + 1) == StateAfter(vs, k)
    ensures exists i: nat ::
      && LastUnder(vs, i, k, vs[k].req.key)
      && vs[k].x.checked - vs[i].x.saved <= 24 * 60 * 60 * 1_000_000_000
      && AnswerAt(vs, k) == if vs[i].req.hash == vs[k].req.hash then AnswerAt(vs, i)
                            else Response(409, [ErrorDocument("conflict", "", "")])
  {
    AlwaysRecorded(vs, k, vs[k].req.key);
    RunsUnlessAnswered(vs, k);
    AfterStep(vs, k);
  }

  /** A request that runs its handler does what it would do without the middleware. */
  lemma {:induction false} RunsItsHandler(vs: seq<Visit>, k: nat)
    requires Orderly(vs) && k < |vs| && Runs(vs, k)
    ensures (StateAfter(vs, k + 1), AnswerAt(vs, k)) == Perform(StateAfter(vs, k), vs[k].req.call, vs[k].x)
  {
    AlwaysRecorded(vs, k, vs[k].req.key);
    RunsUnlessAnswered(vs, k);
    AfterStep(vs, k);
  }

  // ----- What the earlier requests made of the store ------------------------------------------

  /** Request c created the VM. */
  ghost predicate Creates(vs: seq<Visit>, c: nat, vm: string)
    requires c < |vs|
  {
    Runs(vs, c) && vs[c].req.call.CreateVM? && vs[c].x.vmId == vm
  }

  ghost predicate Created(vs: seq<Visit>, k: nat, vm: string)
    requires k <= |vs|
  {
    exists c: nat :: c < k && Creates(vs, c, vm)
  }

  /** Request u asked to stop or delete the VM. */
  ghost predicate Redirects(vs: seq<Visit>, u: nat, vm: string)
    requires u < |vs|
  {
    Runs(vs, u) && (vs[u].req.call == StopVM(vm) || vs[u].req.call == DeleteVM(vm))
  }

  /** Request u is the last before k to set the desired state of the VM that c created. */
  ghost predicate SetsDesired(vs: seq<Visit>, c: nat, u: nat, k: nat, vm: string)
    requires k <= |vs|
  {
    && c <= u < k && Creates(vs, c, vm)
    && (u != c ==> Redirects(vs, u, vm))
    && forall m: nat :: u < m < k ==> !Redirects(vs, m, vm)
  }

  /** The record of a VM created by c whose desired state u set last. */
  ghost predicate IsRecord(vs: seq<Visit>, c: nat, u: nat, vm: VM)
    requires c < |vs| && u < |vs| && vs[c].req.call.CreateVM?
  {
    && vm.id == vs[c].x.vmId && vm.spec == vs[c].req.call.spec
    && vm.createdAt == vs[c].x.stamp && vm.updatedAt == vs[u].x.stamp
    && vm.desired == (if vs[u].req.call.StopVM? then Stopped else if vs[u].req.call.DeleteVM? then Deleted else Running)
    && vm.observed == ObsPending && vm.controllerId == "" && vm.imageId == ""
  }

  /** The store holds exactly the VMs that were created, each as the requests left it. */
  ghost predicate VMsTold(vs: seq<Visit>, k: nat, vm: string)
    requires k <= |vs|
  {
    var vms := StateAfter(vs, k).vms;
    && (vm in vms <==> Created(vs, k, vm))
    && (vm in vms ==> exists c: nat, u: nat :: SetsDesired(vs, c, u, k, vm) && IsRecord(vs, c, u, vms[vm]))
  }

  /** How one request changes one VM's record. */
  lemma {:induction false} VMStep(s: State, call: Call, x: Samples, vm: string)
    requires call.CreateVM? ==> x.vmId !in s.vms
    ensures
      var s' := Perform(s, call, x).0;
      if call.CreateVM? && x.vmId == vm then
        vm in s'.vms && s'.vms[vm] == VM(vm, Running, ObsPending, "", "", call.spec, x.stamp, x.stamp)
      else
        && (vm in s'.vms <==> vm in s.vms)
        && (vm in s.vms && call == StopVM(vm) ==> s'.vms[vm] == s.vms[vm].(desired := Stopped, updatedAt := x.stamp))
        && (vm in s.vms && call == DeleteVM(vm) ==> s'.vms[vm] == s.vms[vm].(desired := Deleted, updatedAt := x.stamp))
        && (vm in s.vms && call != StopVM(vm) && call != DeleteVM(vm) ==> s'.vms[vm] == s.vms[vm])
  {
  }

  /** The same for one request of a run. */
  lemma {:induction false} VMChange(vs: seq<Visit>, k: nat, vm: string)
    requires Orderly(vs) && k < |vs| && vs[k].x.vmId !in StateAfter(vs, k).vms
    ensures
      var vms, vms', stamp := StateAfter(vs, k).vms, StateAfter(vs, k + 1).vms, vs[k].x.stamp;
      if Creates(vs, k, vm) then
        vm in vms' && vms'[vm] == VM(vm, Running, ObsPending, "", "", vs[k].req.call.spec, stamp, stamp)
      else
        && (vm in vms' <==> vm in vms)
        && (vm in vms ==> vms'[vm] == if !Redirects(vs, k, vm) then vms[vm]
              else vms[vm].(desired := if vs[k].req.call.StopVM? then Stopped else Deleted, updatedAt := stamp))
  {
    if Runs(vs, k) {
      RunsItsHandler(vs, k);
      VMStep(StateAfter(vs, k), vs[k].req.call, vs[k].x, vm);
    } else {
      AnsweredFromRecording(vs, k);
    }
  }

  lemma {:induction false} CreatedStep(vs: seq<Visit>, k: nat, vm: string)
    requires k < |vs|
    ensures Created(vs, k + 1, vm) <==> Created(vs, k, vm) || Creates(vs, k, vm)
  {
    assert Creates(vs, k, vm) ==> k < k + 1;
  }

  lemma {:induction false} RecordStep(vs: seq<Visit>, c: nat, u: nat, k: nat, vm: string) returns (last: nat)
    requires Orderly(vs) && k < |vs| && vs[k].x.vmId !in StateAfter(vs, k).vms && !Creates(vs, k, vm)
    requires SetsDesired(vs, c, u, k, vm) && vm in StateAfter(vs, k).vms && IsRecord(vs, c, u, StateAfter(vs, k).vms[vm])
    ensures vm in StateAfter(vs, k + 1).vms
    ensures SetsDesired(vs, c, last, k + 1, vm) && IsRecord(vs, c, last, StateAfter(vs, k + 1).vms[vm])
  {
    VMChange(vs, k, vm);
    last := if Redirects(vs, k, vm) then k else u;
  }

  lemma {:induction false} VMsToldStep(vs: seq<Visit>, k: nat, vm: string)
    requires Orderly(vs) && k < |vs| && VMsTold(vs, k, vm) && VMsTold(vs, k, vs[k].x.vmId)
    ensures VMsTold(vs, k + 1, vm)
  {
    CreatedStep(vs, k, vm);
    assert !Created(vs, k, vs[k].x.vmId);
    VMChange(vs, k, vm);
    if Creates(vs, k, vm) {
      assert SetsDesired(vs, k, k, k + 1, vm) && IsRecord(vs, k, k, StateAfter(vs, k + 1).vms[vm]);
    } else if vm in StateAfter(vs, k).vms {
      var c: nat, u: nat :| SetsDesired(vs, c, u, k, vm) && IsRecord(vs, c, u, StateAfter(vs, k).vms[vm]);
      var _ := RecordStep(vs, c, u, k, vm);
    }
  }

  lemma {:induction false} VMsAlwaysTold(vs: seq<Visit>, k: nat, vm: string)
    requires Orderly(vs) && k <= |vs|
    ensures VMsTold(vs, k, vm)
    decreases k
  {
    if k == 0 {
      assert vs[..0] == [];
    } else {
      VMsAlwaysTold(vs, k - 1, vm);
      VMsAlwaysTold(vs, k - 1, vs[k - 1].x.vmId);
      VMsToldStep(vs, k - 1, vm);
    }
  }

  /** Request c registered the controller; only the first to do so counts. */
  ghost predicate Registers(vs: seq<Visit>, c: nat, id: string)
    requires c < |vs|
  {
    Runs(vs, c) && vs[c].req.call.RegisterController? && vs[c].req.call.controller.id == id
  }

  ghost predicate Registered(vs: seq<Visit>, k: nat, id: string)
    requires k <= |vs|
  {
    exists c: nat :: c < k && Registers(vs, c, id)
  }

  ghost predicate Beats(vs: seq<Visit>, u: nat, id: string)
    requires u < |vs|
  {
    Runs(vs, u) && vs[u].req.call.Heartbeat? && vs[u].req.call.controllerId == id
  }

  /** Request u is the registration c, the first of the controller, or the last heartbeat since. */
  ghost predicate LastHeard(vs: seq<Visit>, c: nat, u: nat, k: nat, id: string)
    requires k <= |vs|
  {
    && c <= u < k && Registers(vs, c, id) && !Registered(vs, c, id)
    && (u != c ==> Beats(vs, u, id))
    && forall m: nat :: u < m < k ==> !Beats(vs, m, id)
  }

  /** A controller as c registered it and u last reported on it. */
  ghost predicate IsController(vs: seq<Visit>, c: nat, u: nat, ctrl: Controller)
    requires c < |vs| && u < |vs| && vs[c].req.call.RegisterController?
  {
    match vs[u].req.call
    case Heartbeat(_, hb) =>
      ctrl == Controller(ctrl.id, hb.status, vs[c].req.call.controller.labels, hb.capacity, vs[u].x.stamp)
      && ctrl.id == vs[c].req.call.controller.id
    case _ => ctrl == vs[c].req.call.controller
  }

  /** The store holds exactly the controllers that registered, each with its last heartbeat. */
  ghost predicate ControllersTold(vs: seq<Visit>, k: nat, id: string)
    requires k <= |vs|
  {
    var controllers := StateAfter(vs, k).controllers;
    && (id in controllers <==> Registered(vs, k, id))
    && (id in controllers ==> exists c: nat, u: nat :: LastHeard(vs, c, u, k, id) && IsController(vs, c, u, controllers[id]))
  }

  /** How one request changes one controller's record. */
  lemma {:induction false} ControllerStep(s: State, call: Call, x: Samples, id: string)
    ensures
      var controllers, controllers' := s.controllers, Perform(s, call, x).0.controllers;
      if call.RegisterController? && call.controller.id == id && id !in controllers then
        id in controllers' && controllers'[id] == call.controller
      else
        && (id in controllers' <==> id in controllers)
        && (id in controllers ==> controllers'[id] == if !(call.Heartbeat? && call.controllerId == id) then controllers[id]
              else controllers[id].(status := call.heartbeat.status, capacity := call.heartbeat.capacity, lastHeartbeatAt := x.stamp))
  {
  }

  lemma {:induction false} ControllerChange(vs: seq<Visit>, k: nat, id: string)
    requires Orderly(vs) && k < |vs|
    ensures
      var controllers, controllers' := StateAfter(vs, k).controllers, StateAfter(vs, k + 1).controllers;
      if Registers(vs, k, id) && id !in controllers then
        id in controllers' && controllers'[id] == vs[k].req.call.controller
      else
        && (id in controllers' <==> id in controllers)
        && (id in controllers ==> controllers'[id] == if !Beats(vs, k, id) then controllers[id]
              else controllers[id].(status := vs[k].req.call.heartbeat.status,
                                    capacity := vs[k].req.call.heartbeat.capacity,
                                    lastHeartbeatAt := vs[k].x.stamp))
  {
    if Runs(vs, k) {
      RunsItsHandler(vs, k);
      ControllerStep(StateAfter(vs, k), vs[k].req.call, vs[k].x, id);
    } else {
      AnsweredFromRecording(vs, k);
    }
  }

  lemma {:induction false} RegisteredStep(vs: seq<Visit>, k: nat, id: string)
    requires k < |vs|
    ensures Registered(vs, k + 1, id) <==> Registered(vs, k, id) || Registers(vs, k, id)
  {
    assert Registers(vs, k, id) ==> k < k + 1;
  }

  lemma {:induction false} HeardStep(vs: seq<Visit>, c: nat, u: nat, k: nat, id: string) returns (last: nat)
    requires Orderly(vs) && k < |vs| && LastHeard(vs, c, u, k, id)
    requires id in StateAfter(vs, k).controllers && IsController(vs, c, u, StateAfter(vs, k).controllers[id])
    ensures id in StateAfter(vs, k + 1).controllers
    ensures LastHeard(vs, c, last, k + 1, id) && IsController(vs, c, last, StateAfter(vs, k + 1).controllers[id])
  {
    ControllerChange(vs, k, id);
    last := if Beats(vs, k, id) then k else u;
  }

  lemma {:induction false} ControllersToldStep(vs: seq<Visit>, k: nat, id: string)
    requires Orderly(vs) && k < |vs| && ControllersTold(vs, k, id)
    ensures ControllersTold(vs, k + 1, id)
  {
    RegisteredStep(vs, k, id);
    if id in StateAfter(vs, k).controllers {
      var c: nat, u: nat :| LastHeard(vs, c, u, k, id) && IsController(vs, c, u, StateAfter(vs, k).controllers[id]);
      var _ := HeardStep(vs, c, u, k, id);
    } else {
      ControllerChange(vs, k, id);
      if Registers(vs, k, id) {
        assert LastHeard(vs, k, k, k + 1, id) && IsController(vs, k, k, StateAfter(vs, k + 1).controllers[id]);
      }
    }
  }

  lemma {:induction false} ControllersAlwaysTold(vs: seq<Visit>, k: nat, id: string)
    requires Orderly(vs) && k <= |vs|
    ensures ControllersTold(vs, k, id)
    decreases k
  {
    if k == 0 {
      assert vs[..0] == [];
    } else {
      ControllersAlwaysTold(vs, k - 1, id);
      ControllersToldStep(vs, k - 1, id);
    }
  }

  /** The event that request k logs: one for each VM it creates, stops or deletes. */
  ghost function EventsOf(vs: seq<Visit>, k: nat): seq<Event>
    requires k < |vs|
  {
    var x := vs[k].x;
    if !Runs(vs, k) then []
    else
      match vs[k].req.call
      case CreateVM(_) => [Event(x.eventId, x.vmId, "", "vm.created", [], x.eventStamp)]
      case StopVM(vm) => if Created(vs, k, vm) then [Event(x.eventId, vm, "", "vm.stop_requested", [], x.eventStamp)] else []
      case DeleteVM(vm) => if Created(vs, k, vm) then [Event(x.eventId, vm, "", "vm.delete_requested", [], x.eventStamp)] else []
      case _ => []
  }

  ghost function LogOf(vs: seq<Visit>, k: nat): seq<Event>
    requires k <= |vs|
  {
    if k == 0 then [] else LogOf(vs, k - 1) + EventsOf(vs, k - 1)
  }

  lemma {:induction false} EventStep(s: State, call: Call, x: Samples)
    ensures
      var events, events' := s.events, Perform(s, call, x).0.events;
      && (call.CreateVM? ==> events' == events + [Event(x.eventId, x.vmId, "", "vm.created", [], x.eventStamp)])
      && (call.StopVM? && call.id in s.vms ==>
            events' == events + [Event(x.eventId, call.id, "", "vm.stop_requested", [], x.eventStamp)])
      && (call.DeleteVM? && call.id in s.vms ==>
            events' == events + [Event(x.eventId, call.id, "", "vm.delete_requested", [], x.eventStamp)])
      && (!call.CreateVM? && !((call.StopVM? || call.DeleteVM?) && call.id in s.vms) ==> events' == events)
  {
  }

  lemma {:induction false} EventsStep(vs: seq<Visit>, k: nat)
    requires Orderly(vs) && k < |vs|
    ensures StateAfter(vs, k + 1).events == StateAfter(vs, k).events + EventsOf(vs, k)
  {
    if Runs(vs, k) {
      var call := vs[k].req.call;
      RunsItsHandler(vs, k);
      EventStep(StateAfter(vs, k), call, vs[k].x);
      if call.StopVM? || call.DeleteVM? {
        VMsAlwaysTold(vs, k, call.id);
      }
    } else {
      AnsweredFromRecording(vs, k);
    }
  }

  /** The log holds the events of the requests so far, in their order. */
  ghost predicate LogTold(vs: seq<Visit>, k: nat)
    requires k <= |vs|
  {
    StateAfter(vs, k).events == LogOf(vs, k)
  }

  lemma {:induction false} NothingLogged(vs: seq<Visit>)
    ensures LogTold(vs, 0)
  {
    assert vs[..0] == [];
  }

  lemma {:induction false} LogStep(vs: seq<Visit>, k: nat)
    requires Orderly(vs) && k < |vs| && LogTold(vs, k)
    ensures LogTold(vs, k + 1)
  {
    EventsStep(vs, k);
  }

  lemma {:induction false} LogAlwaysTold(vs: seq<Visit>, k: nat)
    requires Orderly(vs) && k <= |vs|
    ensures LogTold(vs, k)
    decreases k
  {
    if k == 0 {
      NothingLogged(vs);
    } else {
      LogAlwaysTold(vs, k - 1);
      LogStep(vs, k - 1);
    }
  }

  // ----- What clients are answered --------------------------------------------------------------

  /** Requests about VMs: 404 unless an earlier request created the VM. */
  lemma {:induction false} VMRoutesAnswer(vs: seq<Visit>, k: nat)
    requires Orderly(vs) && k < |vs| && Runs(vs, k)
    ensures
      var call, r := vs[k].req.call, AnswerAt(vs, k);
      && (call.CreateVM? ==> r == Response(202, [IdDocument(vs[k].x.vmId)]))
      && (call.StopVM? || call.DeleteVM? ==>
            r == if Created(vs, k, call.id) then Response(202, [IdDocument(call.id)])
                 else Response(404, [ErrorDocument("not_found", "vm", call.id)]))
      && (call.GetVM? && !Created(vs, k, call.id) ==> r == Response(404, [ErrorDocument("not_found", "vm", call.id)]))
      && (call.GetVM? && Created(vs, k, call.id) ==>
            && r.status == 200 && |r.body| == 1 && r.body[0].VMDocument?
            && exists c: nat, u: nat :: SetsDesired(vs, c, u, k, call.id) && IsRecord(vs, c, u, r.body[0].vm))
  {
    RunsItsHandler(vs, k);
    var call := vs[k].req.call;
    if call.StopVM? || call.DeleteVM? || call.GetVM? {
      VMsAlwaysTold(vs, k, call.id);
    }
  }

  /** Requests about controllers: one registers once, and only then reports. */
  lemma {:induction false} ControllerRoutesAnswer(vs: seq<Visit>, k: nat)
    requires Orderly(vs) && k < |vs| && Runs(vs, k)
    ensures
      var call, r := vs[k].req.call, AnswerAt(vs, k);
      && (call.RegisterController? ==>
            r == if Registered(vs, k, call.controller.id)
                 then Response(409, [ErrorDocument("already_exists", "controller", call.controller.id)])
                 else Response(201, [ControllerDocument(call.controller)]))
      && (call.Heartbeat? ==>
            r == if Registered(vs, k, call.controllerId) then Response(200, [StatusDocument])
                 else Response(404, [ErrorDocument("not_found", "controller", call.controllerId)]))
  {
    RunsItsHandler(vs, k);
    var call := vs[k].req.call;
    if call.RegisterController? {
      ControllersAlwaysTold(vs, k, call.controller.id);
    } else if call.Heartbeat? {
      ControllersAlwaysTold(vs, k, call.controllerId);
    }
  }

  lemma {:induction false} OthersOnState(s: State, call: Call, x: Samples)
    ensures call.ListEvents? ==>
      Perform(s, call, x).1 == Response(200, [EventsDocument(EventListing.ServiceListed(s.events, call.filter))])
    ensures call.Malformed? ==> Perform(s, call, x).1 == Response(400, [ErrorDocument("bad_request", "", "")])
  {
  }

  /** Listing events lists from the events of the earlier requests; a body that does not decode is refused. */
  lemma {:induction false} OtherRoutesAnswer(vs: seq<Visit>, k: nat)
    requires Orderly(vs) && k < |vs| && Runs(vs, k)
    ensures
      var call, r := vs[k].req.call, AnswerAt(vs, k);
      && (call.ListEvents? ==> r == Response(200, [EventsDocument(EventListing.ServiceListed(LogOf(vs, k), call.filter))]))
      && (call.Malformed? ==> r == Response(400, [ErrorDocument("bad_request", "", "")]))
  {
    RunsItsHandler(vs, k);
    LogAlwaysTold(vs, k);
    OthersOnState(StateAfter(vs, k), vs[k].req.call, vs[k].x);
  }

  /** Every answer has a final status. */
  lemma {:induction false} AnswersAreFinal(vs: seq<Visit>, k: nat)
    requires Orderly(vs) && k < |vs|
    ensures AnswerAt(vs, k).status in {200, 201, 202, 400, 404, 409}
    decreases k
  {
    if Runs(vs, k) {
      VMRoutesAnswer(vs, k);
      ControllerRoutesAnswer(vs, k);
      OtherRoutesAnswer(vs, k);
    } else {
      AnsweredFromRecording(vs, k);
      var i: nat :| LastUnder(vs, i, k, vs[k].req.key) && vs[k].x.checked - vs[i].x.saved <= 24 * 60 * 60 * 1_000_000_000
        && AnswerAt(vs, k) == if vs[i].req.hash == vs[k].req.hash then AnswerAt(vs, i) else Response(409, [ErrorDocument("conflict", "", "")]);
      AnswersAreFinal(vs, i);
    }
  }
}
