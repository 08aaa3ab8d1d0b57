/** The service layer: every VM mutation is an update of the store followed by an event. */
module ServiceLayer {
  import opened Values
  import opened Model
  import opened StateSteps
  import MemState
  import EventListing
  import opened ControlPlane

  /** The ids and times that one request samples on its way; its own clock does not run backwards. */
  datatype Samples = Samples(
    vmId: string, stamp: int,
    eventId: string, eventStamp: int,
    arrived: int, checked: int, evicted: int, executed: int, logged: int, saved: int)
  {
    predicate InOrder() {
      arrived <= checked <= evicted <= executed <= logged <= saved
    }
  }

  /** A handler with nothing in between its update and its event. */
  function Perform(s: State, call: Call, x: Samples): (State, Response) {
    var (s', outcome) := Handle(s, call, x.vmId, x.stamp);
    match outcome.0
    case Some(event) => (AppendEvent(s', event, x.eventId, x.eventStamp), outcome.1)
    case None => (s', outcome.1)
  }

  class Service {
    const state: MemState.Store

    constructor (state: MemState.Store)
      ensures this.state == state
    {
      this.state := state;
    }

    method CreateVM(spec: VMSpec, x: Samples) returns (id: string)
      modifies state
      ensures id == x.vmId
      ensures state.Now() == Perform(old(state.Now()), Call.CreateVM(spec), x).0
    {
      id := x.vmId;
      state.CreateVM(id, spec, x.stamp);
      state.AppendEvent(EventOf(id, CREATED), x.eventId, x.eventStamp);
    }

    method StopVM(id: string, x: Samples) returns (err: Option<Error>)
      modifies state
      ensures err == SetDesired(old(state.Now()), id, Stopped, x.stamp).1
      ensures state.Now() == Perform(old(state.Now()), Call.StopVM(id), x).0
    {
      err := state.UpdateVMDesiredState(id, Stopped, x.stamp);
      if err == None {
        state.AppendEvent(EventOf(id, STOP_REQUESTED), x.eventId, x.eventStamp);
      }
    }

    method DeleteVM(id: string, x: Samples) returns (err: Option<Error>)
      modifies state
      ensures err == SetDesired(old(state.Now()), id, Deleted, x.stamp).1
      ensures state.Now() == Perform(old(state.Now()), Call.DeleteVM(id), x).0
    {
      err := state.UpdateVMDesiredState(id, Deleted, x.stamp);
      if err == None {
        state.AppendEvent(EventOf(id, DELETE_REQUESTED), x.eventId, x.eventStamp);
      }
    }

    method ListEvents(filter: EventFilter) returns (result: seq<Event>)
      ensures result == EventListing.ServiceListed(state.events, filter)
    {
      result := state.ListEvents(filter.(limit := EventListing.ClampLimit(filter.limit)));
    }
  }
}
