/** The in-memory state store: VM and controller records and the append-only event log. */
module MemState {
  import opened Values
  import opened Model
  import opened StateSteps
  import EventListing

  class Store {
    var vms: map<string, VM>
    var controllers: map<string, Controller>
    var events: seq<Event>

    ghost function Now(): State
      reads this
    {
      State(vms, controllers, events)
    }

    constructor ()
      ensures Now() == EMPTY
    {
      vms, controllers, events := map[], map[], [];
    }

    /** The generated id and the time of the call are sampled before the lock is taken. */
    method CreateVM(id: string, spec: VMSpec, now: int)
      modifies this
      ensures Now() == StateSteps.CreateVM(old(Now()), id, spec, now)
    {
      var vm := VM(id, Running, ObsPending, "", "", spec, now, now);
      vms := vms[id := vm];
    }

    method GetVM(id: string) returns (r: Option<VM>)
      ensures r == if id in vms then Some(vms[id]) else None
    {
      if id !in vms {
        return None;
      }
      return Some(vms[id]);
    }

    method UpdateVMDesiredState(id: string, desired: DesiredState, now: int) returns (err: Option<Error>)
      modifies this
      ensures (Now(), err) == SetDesired(old(Now()), id, desired, now)
    {
      if id !in vms {
        return Some(NotFound("vm", id));
      }
      var vm := vms[id];
      vm := vm.(desired := desired);
      vm := vm.(updatedAt := now);
      vms := vms[id := vm];
      return None;
    }

    method UpdateVMObservedState(id: string, observed: ObservedState, controllerId: string, now: int) returns (err: Option<Error>)
      modifies this
      ensures (Now(), err) == SetObserved(old(Now()), id, observed, controllerId, now)
    {
      if id !in vms {
        return Some(NotFound("vm", id));
      }
      var vm := vms[id];
      vm := vm.(observed := observed);
      vm := vm.(controllerId := controllerId);
      vm := vm.(updatedAt := now);
      vms := vms[id := vm];
      return None;
    }

    method AssignVM(id: string, controllerId: string, now: int) returns (err: Option<Error>)
      modifies this
      ensures (Now(), err) == Assign(old(Now()), id, controllerId, now)
    {
      if id !in vms {
        return Some(NotFound("vm", id));
      }
      var vm := vms[id];
      if vm.controllerId != "" {
        return Some(Conflict("vm", id));
      }
      vm := vm.(controllerId := controllerId);
      vm := vm.(updatedAt := now);
      vms := vms[id := vm];
      return None;
    }

    method AppendEvent(event: Event, freshId: string, now: int)
      modifies this
      ensures Now() == StateSteps.AppendEvent(old(Now()), event, freshId, now)
    {
      var e := event;
      if e.id == "" {
        e := e.(id := freshId);
      }
      if e.createdAt == ZERO_TIME {
        e := e.(createdAt := now);
      }
      events := events + [e];
    }

    method ListEvents(filter: EventFilter) returns (result: seq<Event>)
      ensures result == EventListing.Listed(events, filter)
    {
      result := EventListing.ListEvents(events, filter);
    }

    method RegisterController(controller: Controller) returns (err: Option<Error>)
      modifies this
      ensures (Now(), err) == StateSteps.RegisterController(old(Now()), controller)
    {
      if controller.id in controllers {
        return Some(AlreadyExists("controller", controller.id));
      }
      controllers := controllers[controller.id := controller];
      return None;
    }

    method UpdateControllerHeartbeat(id: string, heartbeat: Heartbeat, now: int) returns (err: Option<Error>)
      modifies this
      ensures (Now(), err) == RecordHeartbeat(old(Now()), id, heartbeat, now)
    {
      if id !in controllers {
        return Some(NotFound("controller", id));
      }
      var c := controllers[id];
      c := c.(status := heartbeat.status);
      c := c.(capacity := heartbeat.capacity);
      c := c.(lastHeartbeatAt := now);
      controllers := controllers[id := c];
      return None;
    }
  }
}
