/**
 The work queue as its users see it: one flat list of jobs in enqueue order.
 `MemQueue` proves that the per-topic slices and the id index behave like this list;
 the `QueueRuns` module proves what it means over whole runs.
 */
module FlatQueue {
  import opened Values

  datatype Job = Job(
    id: string,
    topic: string,
    payload: Bytes,
    leaseExpiresAt: int,
    enqueuedAt: int,
    dequeueCount: nat)

  /** One public call, together with the clock readings and the generated id it used. */
  datatype Op =
    | Enqueue(id: string, topic: string, payload: Bytes, at: int)
    | Dequeue(topic: string, now: int, leaseTimeout: int)
    | Ack(id: string)
    | Nack(id: string, retryAt: int)

  datatype Outcome =
    | Enqueued(id: string)
    | Delivered(job: Job)
    | NoJobs
    | Done
    | NotFound

  predicate Available(j: Job, now: int) {
    j.leaseExpiresAt == ZERO_TIME || now > j.leaseExpiresAt
  }

  predicate Deliverable(j: Job, topic: string, now: int) {
    j.topic == topic && Available(j, now)
  }

  ghost predicate UniqueIds(s: seq<Job>) {
    forall i, j :: 0 <= i < j < |s| ==> s[i].id != s[j].id
  }

  /** The position of the first deliverable job of the topic, or `|s|`. */
  function FirstAvailable(s: seq<Job>, topic: string, now: int): (i: nat)
    ensures i <= |s|
    ensures i < |s| ==> Deliverable(s[i], topic, now)
    ensures forall k :: 0 <= k < i ==> !Deliverable(s[k], topic, now)
  {
    if |s| == 0 || Deliverable(s[0], topic, now) then 0 else 1 + FirstAvailable(s[1..], topic, now)
  }

  /** The position of the job with this id, or `|s|`. */
  function Position(s: seq<Job>, id: string): (i: nat)
    ensures i <= |s|
    ensures i < |s| ==> s[i].id == id
    ensures forall k :: 0 <= k < i ==> s[k].id != id
  {
    if |s| == 0 || s[0].id == id then 0 else 1 + Position(s[1..], id)
  }

  function NewJob(op: Op): Job
    requires op.Enqueue?
  {
    Job(op.id, op.topic, op.payload, ZERO_TIME, op.at, 0)
  }

  function Lease(j: Job, until: int): Job {
    j.(leaseExpiresAt := until, dequeueCount := j.dequeueCount + 1)
  }

  function Without(s: seq<Job>, i: nat): seq<Job>
    requires i < |s|
  {
    s[..i] + s[i + 1..]
  }

  function Step(s: seq<Job>, op: Op): (seq<Job>, Outcome) {
    match op
    case Enqueue(id, _, _, _) =>
      (s + [NewJob(op)], Enqueued(id))
    case Dequeue(topic, now, leaseTimeout) =>
      var i := FirstAvailable(s, topic, now);
      if i == |s| then (s, NoJobs)
      else
        var j := Lease(s[i], now + leaseTimeout);
        (s[i := j], Delivered(j))
    case Ack(id) =>
      var i := Position(s, id);
      if i == |s| then (s, NotFound) else (Without(s, i), Done)
    case Nack(id, retryAt) =>
      var i := Position(s, id);
      if i == |s| then (s, NotFound)
      else (s[i := s[i].(leaseExpiresAt := retryAt)], Done)
  }

  /** The list after a run of calls. */
  function After(s: seq<Job>, ops: seq<Op>): seq<Job> {
    if |ops| == 0 then s
    else Step(After(s, ops[..|ops| - 1]), ops[|ops| - 1]).0
  }

  /** What the k-th call of a run answered. */
  function OutcomeAt(s: seq<Job>, ops: seq<Op>, k: nat): Outcome
    requires k < |ops|
  {
    Step(After(s, ops[..k]), ops[k]).1
  }

  function Outcomes(s: seq<Job>, ops: seq<Op>): (r: seq<Outcome>)
    ensures |r| == |ops|
  {
    seq(|ops|, k requires 0 <= k < |ops| => OutcomeAt(s, ops, k))
  }

  /** The jobs of one topic, in order. */
  function OnTopic(s: seq<Job>, topic: string): seq<Job> {
    if |s| == 0 then []
    else
      var rest := OnTopic(s[..|s| - 1], topic);
      var last := s[|s| - 1];
      if last.topic == topic then rest + [last] else rest
  }
}
