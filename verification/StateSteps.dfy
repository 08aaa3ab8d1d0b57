/** The locked operations of the state store, as functions on its state. */
module StateSteps {
  import opened Values
  import opened Model

  datatype State = State(vms: map<string, VM>, controllers: map<string, Controller>, events: seq<Event>)

  const EMPTY: State := State(map[], map[], [])

  function CreateVM(s: State, id: string, spec: VMSpec, now: int): State {
    s.(vms := s.vms[id := VM(id, Running, ObsPending, "", "", spec, now, now)])
  }

  function SetDesired(s: State, id: string, desired: DesiredState, now: int): (State, Option<Error>) {
    if id !in s.vms then (s, Some(NotFound("vm", id)))
    else (s.(vms := s.vms[id := s.vms[id].(desired := desired, updatedAt := now)]), None)
  }

  function SetObserved(s: State, id: string, observed: ObservedState, controllerId: string, now: int): (State, Option<Error>) {
    if id !in s.vms then (s, Some(NotFound("vm", id)))
    else
      var vm := s.vms[id].(observed := observed, controllerId := controllerId, updatedAt := now);
      (s.(vms := s.vms[id := vm]), None)
  }

  function Assign(s: State, id: string, controllerId: string, now: int): (State, Option<Error>) {
    if id !in s.vms then (s, Some(NotFound("vm", id)))
    else if s.vms[id].controllerId != "" then (s, Some(Conflict("vm", id)))
    else (s.(vms := s.vms[id := s.vms[id].(controllerId := controllerId, updatedAt := now)]), None)
  }

  /** The event that is logged: a missing id or time is filled in. */
  function Stamped(e: Event, freshId: string, now: int): Event {
    e.(id := if e.id == "" then freshId else e.id,
       createdAt := if e.createdAt == ZERO_TIME then now else e.createdAt)
  }

  function AppendEvent(s: State, e: Event, freshId: string, now: int): State {
    s.(events := s.events + [Stamped(e, freshId, now)])
  }

  function RegisterController(s: State, c: Controller): (State, Option<Error>) {
    if c.id in s.controllers then (s, Some(AlreadyExists("controller", c.id)))
    else (s.(controllers := s.controllers[c.id := c]), None)
  }

  function RecordHeartbeat(s: State, id: string, hb: Heartbeat, now: int): (State, Option<Error>) {
    if id !in s.controllers then (s, Some(NotFound("controller", id)))
    else
      var c := s.controllers[id].(status := hb.status, capacity := hb.capacity, lastHeartbeatAt := now);
      (s.(controllers := s.controllers[id := c]), None)
  }
}
