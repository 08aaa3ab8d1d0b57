/** What the state store holds and answers after any run of operations, told by the operations alone. */
module StateHistory {
  import opened Values
  import opened Model
  import opened StateSteps
  import opened StateRuns
  import MemState

  // ----- VMs ------------------------------------------------------------------------------------

  /** Call c created the VM, and it was not created again before call n. */
  ghost predicate Creation(run: seq<Op>, c: nat, n: nat, vm: string)
    requires n <= |run|
  {
    && c < n && run[c].Create? && run[c].id == vm
    && forall m :: c < m < n && run[m].Create? ==> run[m].id != vm
  }

  ghost predicate WasCreated(run: seq<Op>, n: nat, vm: string)
    requires n <= |run|
  {
    exists c :: 0 <= c < n && run[c].Create? && run[c].id == vm
  }

  /** The last desired state asked for since call c, or running. */
  function DesiredSince(run: seq<Op>, c: nat, n: nat, vm: string): DesiredState
    requires c < n <= |run|
  {
    if n == c + 1 then Running
    else if run[n - 1].Desire? && run[n - 1].id == vm then run[n - 1].desired
    else DesiredSince(run, c, n - 1, vm)
  }

  /** The last state reported since call c, or pending. */
  function ObservedSince(run: seq<Op>, c: nat, n: nat, vm: string): ObservedState
    requires c < n <= |run|
  {
    if n == c + 1 then ObsPending
    else if run[n - 1].Observe? && run[n - 1].id == vm then run[n - 1].observed
    else ObservedSince(run, c, n - 1, vm)
  }

  /** The time of the last call since c that changed the VM: any but a claim that failed. */
  function ChangedSince(run: seq<Op>, c: nat, n: nat, vm: string): int
    requires c < n <= |run| && run[c].Create?
  {
    if n == c + 1 then run[c].now
    else if (run[n - 1].Desire? || run[n - 1].Observe?) && run[n - 1].id == vm then run[n - 1].now
    else if run[n - 1].Claim? && run[n - 1].id == vm && Succeeds(run, n - 1) then run[n - 1].now
    else ChangedSince(run, c, n - 1, vm)
  }

  lemma {:induction false} LastCreation(run: seq<Op>, n: nat, vm: string) returns (c: nat)
    requires n <= |run| && WasCreated(run, n, vm)
    ensures Creation(run, c, n, vm)
  {
    if run[n - 1].Create? && run[n - 1].id == vm {
      c := n - 1;
    } else {
      c := LastCreation(run, n - 1, vm);
    }
  }

  lemma {:induction false} RecordStep(s: State, op: Op, vm: string)
    requires vm in s.vms && !(op.Create? && op.id == vm)
    ensures
      var was, now := s.vms[vm], Step(s, op).0.vms;
      vm in now && now[vm] ==
        if op.Desire? && op.id == vm then was.(desired := op.desired, updatedAt := op.now)
        else if op.Observe? && op.id == vm then was.(observed := op.observed, controllerId := op.controllerId, updatedAt := op.now)
        else if op.Claim? && op.id == vm && was.controllerId == "" then was.(controllerId := op.controllerId, updatedAt := op.now)
        else was
  {
  }

  /**
   The record that GetVM returns after any run: the id, spec and creation time of its creation, the
   last desired state asked for, the last state reported, the controller last named, and the
   time of the last change.
   */
  lemma {:induction false} RecordIs(run: seq<Op>, c: nat, n: nat, vm: string)
    requires n <= |run| && Creation(run, c, n, vm)
    ensures vm in After(run[..n]).vms && LastOwner(run[..n], vm).Some?
    ensures After(run[..n]).vms[vm] == VM(
      vm, DesiredSince(run, c, n, vm), ObservedSince(run, c, n, vm), "", LastOwner(run[..n], vm).value,
      run[c].spec, run[c].now, ChangedSince(run, c, n, vm))
    decreases n
  {
    AfterStep(run, n);
    OwnerIsLast(run[..n], vm);
    if c < n - 1 {
      RecordIs(run, c, n - 1, vm);
      RecordStep(After(run[..n - 1]), run[n - 1], vm);
    }
  }

  lemma {:induction false} HeldVMs(run: seq<Op>, n: nat, vm: string)
    requires n <= |run|
    ensures vm in After(run[..n]).vms <==> WasCreated(run, n, vm)
    decreases n
  {
    if n == 0 {
      assert run[..0] == [];
    } else {
      HeldVMs(run, n - 1, vm);
      AfterStep(run, n);
      assert WasCreated(run, n, vm) <==> WasCreated(run, n - 1, vm) || (run[n - 1].Create? && run[n - 1].id == vm);
    }
  }

  /** Exactly when an operation on a VM fails, and with which error. */
  lemma {:induction false} VMAnswersExactly(run: seq<Op>, k: nat)
    requires k < |run|
    ensures
      var op, err := run[k], Step(After(run[..k]), run[k]).1;
      && (op.Create? || op.Log? ==> err == None)
      && (op.Desire? || op.Observe? || op.Claim? ==>
            err == if !WasCreated(run, k, op.id) then Some(NotFound("vm", op.id))
                   else if op.Claim? && LastOwner(run[..k], op.id) != Some("") then Some(Conflict("vm", op.id))
                   else None)
  {
    if run[k].Desire? || run[k].Observe? || run[k].Claim? {
      HeldVMs(run, k, run[k].id);
      OwnerIsLast(run[..k], run[k].id);
    }
  }

  // ----- Controllers ----------------------------------------------------------------------------

  ghost predicate WasRegistered(run: seq<Op>, n: nat, id: string)
    requires n <= |run|
  {
    exists c :: 0 <= c < n && run[c].Register? && run[c].controller.id == id
  }

  /** Call c was the first to register the controller. */
  ghost predicate Registration(run: seq<Op>, c: nat, n: nat, id: string)
    requires n <= |run|
  {
    c < n && run[c].Register? && run[c].controller.id == id && !WasRegistered(run, c, id)
  }

  /** The last heartbeat since call c. */
  function LastBeat(run: seq<Op>, c: nat, n: nat, id: string): Option<(Heartbeat, int)>
    requires c < n <= |run|
  {
    if n == c + 1 then None
    else if run[n - 1].Beat? && run[n - 1].controllerId == id then Some((run[n - 1].heartbeat, run[n - 1].now))
    else LastBeat(run, c, n - 1, id)
  }

  lemma {:induction false} ControllerStep(s: State, op: Op, id: string)
    ensures
      var was, now := s.controllers, Step(s, op).0.controllers;
      if op.Register? && op.controller.id == id && id !in was then id in now && now[id] == op.controller
      else
        && (id in now <==> id in was)
        && (id in was ==> now[id] == if !(op.Beat? && op.controllerId == id) then was[id]
              else was[id].(status := op.heartbeat.status, capacity := op.heartbeat.capacity, lastHeartbeatAt := op.now))
  {
  }

  lemma {:induction false} HeldControllers(run: seq<Op>, n: nat, id: string)
    requires n <= |run|
    ensures id in After(run[..n]).controllers <==> WasRegistered(run, n, id)
    decreases n
  {
    if n == 0 {
      assert run[..0] == [];
    } else {
      HeldControllers(run, n - 1, id);
      AfterStep(run, n);
      ControllerStep(After(run[..n - 1]), run[n - 1], id);
      assert WasRegistered(run, n, id) <==>
        WasRegistered(run, n - 1, id) || (run[n - 1].Register? && run[n - 1].controller.id == id);
    }
  }

  /** A controller stays as it first registered, but for the status, capacity and time of its last heartbeat. */
  lemma {:induction false} ControllerIs(run: seq<Op>, c: nat, n: nat, id: string)
    requires n <= |run| && Registration(run, c, n, id)
    ensures id in After(run[..n]).controllers
    ensures After(run[..n]).controllers[id] ==
      match LastBeat(run, c, n, id)
      case None => run[c].controller
      case Some((hb, now)) => Controller(id, hb.status, run[c].controller.labels, hb.capacity, now)
    decreases n
  {
    AfterStep(run, n);
    ControllerStep(After(run[..n - 1]), run[n - 1], id);
    if c < n - 1 {
      ControllerIs(run, c, n - 1, id);
    } else {
      HeldControllers(run, c, id);
    }
  }

  /** Exactly when an operation on a controller fails, and with which error. */
  lemma {:induction false} ControllerAnswersExactly(run: seq<Op>, k: nat)
    requires k < |run|
    ensures
      var op, err := run[k], Step(After(run[..k]), run[k]).1;
      && (op.Register? ==>
            err == if WasRegistered(run, k, op.controller.id) then Some(AlreadyExists("controller", op.controller.id)) else None)
      && (op.Beat? ==>
            err == if WasRegistered(run, k, op.controllerId) then None else Some(NotFound("controller", op.controllerId)))
  {
    if run[k].Register? {
      HeldControllers(run, k, run[k].controller.id);
    } else if run[k].Beat? {
      HeldControllers(run, k, run[k].controllerId);
    }
  }

  // ----- Events ---------------------------------------------------------------------------------

  function Logs(run: seq<Op>): nat {
    if |run| == 0 then 0 else Logs(run[..|run| - 1]) + if run[|run| - 1].Log? then 1 else 0
  }

  lemma {:induction false} LogCounts(run: seq<Op>)
    ensures |After(run).events| == Logs(run)
  {
    if |run| > 0 {
      LogCounts(run[..|run| - 1]);
    }
  }

  /** The event as appended: unchanged but for a missing id or time. */
  ghost predicate AsGiven(e: Event, given: Event, freshId: string, now: int) {
    && e.vmId == given.vmId && e.controllerId == given.controllerId && e.kind == given.kind && e.payload == given.payload
    && e.id == (if given.id == "" then freshId else given.id)
    && e.createdAt == (if given.createdAt == ZERO_TIME then now else given.createdAt)
  }

  lemma {:induction false} LoggedNow(run: seq<Op>, k: nat)
    requires k < |run| && run[k].Log?
    ensures
      var before, after := After(run[..k]).events, After(run[..k + 1]).events;
      |after| == |before| + 1 && AsGiven(after[|before|], run[k].event, run[k].freshId, run[k].now)
  {
    AfterStep(run, k + 1);
  }

  /** The log holds each appended event in its turn. */
  lemma {:induction false} EventIsLogged(run: seq<Op>, k: nat)
    requires k < |run| && run[k].Log?
    ensures |After(run).events| == Logs(run) && Logs(run[..k]) < Logs(run)
    ensures AsGiven(After(run).events[Logs(run[..k])], run[k].event, run[k].freshId, run[k].now)
  {
    LoggedNow(run, k);
    LogCounts(run);
    LogCounts(run[..k]);
    LogOnlyGrows(run, k + 1, |run|);
    assert run[..|run|] == run;
  }

  // ----- The store object -----------------------------------------------------------------------

  method Perform(store: MemState.Store, op: Op) returns (err: Option<Error>)
    modifies store
    ensures (store.Now(), err) == Step(old(store.Now()), op)
  {
    err := None;
    match op {
      case Create(id, spec, now) => store.CreateVM(id, spec, now);
      case Desire(id, desired, now) => err := store.UpdateVMDesiredState(id, desired, now);
      case Observe(id, observed, controllerId, now) => err := store.UpdateVMObservedState(id, observed, controllerId, now);
      case Claim(id, controllerId, now) => err := store.AssignVM(id, controllerId, now);
      case Log(event, freshId, now) => store.AppendEvent(event, freshId, now);
      case Register(controller) => err := store.RegisterController(controller);
      case Beat(controllerId, heartbeat, now) => err := store.UpdateControllerHeartbeat(controllerId, heartbeat, now);
    }
  }

  /** Any client's calls, made one after another on a new store. */
  method Replay(run: seq<Op>) returns (store: MemState.Store, errors: seq<Option<Error>>)
    ensures store.Now() == After(run) && |errors| == |run|
    ensures forall k :: 0 <= k < |run| ==> errors[k] == Step(After(run[..k]), run[k]).1
  {
    store := new MemState.Store();
    errors := [];
    assert run[..0] == [];
    for k := 0 to |run|
      invariant fresh(store) && store.Now() == After(run[..k]) && |errors| == k
      invariant forall i :: 0 <= i < k ==> errors[i] == Step(After(run[..i]), run[i]).1
    {
      AfterStep(run, k + 1);
      var err := Perform(store, run[k]);
      errors := errors + [err];
    }
    assert run[..|run|] == run;
  }
}
