/** The domain types of the control plane. */
module Model {
  import opened Values

  datatype DesiredState = Running | Stopped | Deleted

  datatype ObservedState =
    ObsPending | ObsScheduled | ObsPreparing | ObsStarting | ObsRunning | ObsStopping | ObsStopped | ObsFailed | ObsDeleted

  /** The store never looks inside a spec, so any bytes will do. */
  datatype VMSpec = VMSpec(document: Bytes)

  datatype VM = VM(
    id: string,
    desired: DesiredState,
    observed: ObservedState,
    imageId: string,
    controllerId: string,
    spec: VMSpec,
    createdAt: int,
    updatedAt: int)

  datatype Capacity = Capacity(totalVCPUs: int, totalMemoryMB: int, usedVCPUs: int, usedMemoryMB: int)

  datatype Controller = Controller(
    id: string,
    status: string,
    labels: map<string, string>,
    capacity: Capacity,
    lastHeartbeatAt: int)

  datatype Heartbeat = Heartbeat(status: string, capacity: Capacity)

  datatype Event = Event(
    id: string,
    vmId: string,
    controllerId: string,
    kind: string,
    payload: Bytes,
    createdAt: int)

  /** Zero-valued fields are ignored. */
  datatype EventFilter = EventFilter(vmId: string, controllerId: string, kind: string, since: int, limit: int)

  datatype Error =
    | NotFound(resource: string, id: string)
    | AlreadyExists(resource: string, id: string)
    | Conflict(resource: string, id: string)
}
