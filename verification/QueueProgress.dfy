/** How soon the work queue delivers: draining a topic, and the wait of one job. */
module QueueProgress {
  import opened Values
  import opened FlatQueue

  /** The jobs a consumer of the topic could be given at this time, in delivery order. */
  function Waiting(s: seq<Job>, topic: string, now: int): seq<Job> {
    if |s| == 0 then []
    else (if Deliverable(s[0], topic, now) then [s[0]] else []) + Waiting(s[1..], topic, now)
  }

  /** No outstanding lease or retry time on the topic runs out between two times. */
  ghost predicate Steady(s: seq<Job>, topic: string, from: int, until: int) {
    forall i :: 0 <= i < |s| && s[i].topic == topic ==> Available(s[i], from) || !Available(s[i], until)
  }

  /** A dequeue inside the period whose lease lasts to the end of it. */
  predicate Reaches(op: Op, from: int, until: int) {
    op.Dequeue? && ZERO_TIME < from <= op.now <= until <= op.now + op.leaseTimeout
  }

  lemma {:induction false} WaitingConcat(x: seq<Job>, y: seq<Job>, topic: string, now: int)
    ensures Waiting(x + y, topic, now) == Waiting(x, topic, now) + Waiting(y, topic, now)
  {
    if |x| == 0 {
      assert x + y == y;
    } else {
      assert (x + y)[1..] == x[1..] + y;
      WaitingConcat(x[1..], y, topic, now);
    }
  }

  lemma {:induction false} NoneWaiting(s: seq<Job>, topic: string, now: int)
    requires forall i :: 0 <= i < |s| ==> !Deliverable(s[i], topic, now)
    ensures Waiting(s, topic, now) == []
  {
    if |s| > 0 {
      NoneWaiting(s[1..], topic, now);
    }
  }

  lemma {:induction false} WaitingSplit(s: seq<Job>, i: nat, topic: string, now: int)
    requires i < |s|
    ensures Waiting(s, topic, now) ==
            Waiting(s[..i], topic, now) + Waiting([s[i]], topic, now) + Waiting(s[i + 1..], topic, now)
  {
    assert s == s[..i] + [s[i]] + s[i + 1..];
    WaitingConcat(s[..i] + [s[i]], s[i + 1..], topic, now);
    WaitingConcat(s[..i], [s[i]], topic, now);
  }

  /** A dequeue in a steady period takes the first waiting job out of the waiting list. */
  lemma {:induction false} DequeueTakesFirst(s: seq<Job>, op: Op, from: int, until: int)
    requires Reaches(op, from, until) && Steady(s, op.topic, from, until)
    ensures
      var w := Waiting(s, op.topic, from);
      var (s', r) := Step(s, op);
      && Steady(s', op.topic, from, until)
      && (w == [] ==> r == NoJobs && s' == s)
      && (w != [] ==>
            && r == Delivered(Lease(w[0], op.now + op.leaseTimeout))
            && Waiting(s', op.topic, from) == w[1..])
  {
    var i := FirstAvailable(s, op.topic, op.now);
    forall k | 0 <= k < |s| ensures Deliverable(s[k], op.topic, from) == Deliverable(s[k], op.topic, op.now) {
      SteadyJob(s[k], op.topic, from, op.now, until);
    }
    NoneWaiting(s[..i], op.topic, from);
    if i == |s| {
      assert s[..i] == s;
    } else {
      var s' := s[i := Lease(s[i], op.now + op.leaseTimeout)];
      assert Step(s, op) == (s', Delivered(s'[i]));
      LeasedAt(s, i, op.now + op.leaseTimeout, op.topic, from, until);
    }
  }

  lemma {:induction false} SteadyJob(j: Job, topic: string, from: int, now: int, until: int)
    requires j.topic == topic ==> Available(j, from) || !Available(j, until)
    requires from <= now <= until
    ensures Deliverable(j, topic, from) == Deliverable(j, topic, now)
  {
  }

  /** Leasing the first waiting job to the end of the period takes it out of the list. */
  lemma {:induction false} LeasedAt(s: seq<Job>, i: nat, lease: int, topic: string, from: int, until: int)
    requires i < |s| && Deliverable(s[i], topic, from) && Waiting(s[..i], topic, from) == []
    requires ZERO_TIME < from <= until <= lease && Steady(s, topic, from, until)
    ensures
      var s' := s[i := Lease(s[i], lease)];
      && Steady(s', topic, from, until)
      && Waiting(s, topic, from) != [] && Waiting(s, topic, from)[0] == s[i]
      && Waiting(s', topic, from) == Waiting(s, topic, from)[1..]
  {
    var s' := s[i := Lease(s[i], lease)];
    WaitingSplit(s, i, topic, from);
    WaitingSplit(s', i, topic, from);
    assert s'[..i] == s[..i] && s'[i + 1..] == s[i + 1..];
    assert [s[i]][1..] == [] && [s'[i]][1..] == [];
  }

  /** The state of a topic while it is being drained. */
  lemma {:induction false} Draining(s: seq<Job>, ops: seq<Op>, topic: string, from: int, until: int)
    requires Steady(s, topic, from, until)
    requires forall k :: 0 <= k < |ops| ==> Reaches(ops[k], from, until) && ops[k].topic == topic
    ensures
      var w := Waiting(s, topic, from);
      && Steady(After(s, ops), topic, from, until)
      && Waiting(After(s, ops), topic, from) == if |ops| <= |w| then w[|ops|..] else []
  {
    if |ops| > 0 {
      Draining(s, ops[..|ops| - 1], topic, from, until);
      DequeueTakesFirst(After(s, ops[..|ops| - 1]), ops[|ops| - 1], from, until);
    }
  }

  /**
   Draining a topic while no lease runs out delivers exactly the waiting jobs, in order and
   once each, and then answers that there are no jobs.
   */
  lemma {:induction false} Drain(s: seq<Job>, ops: seq<Op>, topic: string, from: int, until: int, k: nat)
    requires Steady(s, topic, from, until)
    requires forall i :: 0 <= i < |ops| ==> Reaches(ops[i], from, until) && ops[i].topic == topic
    requires k < |ops|
    ensures ops[k].Dequeue?
    ensures OutcomeAt(s, ops, k) ==
            var w := Waiting(s, topic, from);
            if k < |w| then Delivered(Lease(w[k], ops[k].now + ops[k].leaseTimeout)) else NoJobs
  {
    Draining(s, ops[..k], topic, from, until);
    DequeueTakesFirst(After(s, ops[..k]), ops[k], from, until);
  }

  // ----- Bounded wait -----------------------------------------------------------------

  function DequeuesOn(ops: seq<Op>, topic: string): nat {
    if |ops| == 0 then 0
    else
      var last := ops[|ops| - 1];
      DequeuesOn(ops[..|ops| - 1], topic) + if last.Dequeue? && last.topic == topic then 1 else 0
  }

  /**
   What may happen while a job waits: anything on other topics, any enqueue, acks of other
   jobs, and dequeues on its topic whose leases last to the end of the period.
   */
  predicate Harmless(s: seq<Job>, op: Op, id: string, topic: string, from: int, until: int) {
    match op
    case Enqueue(_, _, _, _) => true
    case Dequeue(t, _, _) => t == topic ==> Reaches(op, from, until)
    case Ack(other) => other != id
    case Nack(other, _) => var i := Position(s, other); i < |s| ==> s[i].topic != topic
  }

  /** The job waits at position p with `ahead` waiting jobs of its topic before it. */
  ghost predicate Waits(s: seq<Job>, p: nat, id: string, topic: string, ahead: nat, from: int, until: int) {
    && p < |s| && s[p].id == id && Deliverable(s[p], topic, from)
    && Steady(s[..p], topic, from, until)
    && |Waiting(s[..p], topic, from)| <= ahead
  }

  ghost predicate Served(s: seq<Job>, ops: seq<Op>, k: nat, id: string, topic: string)
    requires k < |ops|
  {
    var r := OutcomeAt(s, ops, k);
    ops[k].Dequeue? && ops[k].topic == topic && r.Delivered? && r.job.id == id
  }

  /** A dequeue on the topic either delivers the job or shortens the line ahead of it. */
  lemma {:induction false} DequeueMovesLine(s: seq<Job>, p: nat, op: Op, id: string, ahead: nat, from: int, until: int)
    requires Reaches(op, from, until) && Waits(s, p, id, op.topic, ahead, from, until)
    ensures
      var (s', r) := Step(s, op);
      || (r.Delivered? && r.job.id == id)
      || (ahead > 0 && Waits(s', p, id, op.topic, ahead - 1, from, until))
  {
    var i := FirstAvailable(s, op.topic, op.now);
    assert Deliverable(s[p], op.topic, op.now);
    if i < p {
      var front := s[..p];
      assert FirstAvailable(front, op.topic, op.now) == i;
      DequeueTakesFirst(front, op, from, until);
      assert Step(s, op).0[..p] == Step(front, op).0;
    }
  }

  /** Anything else harmless leaves the job waiting with no longer a line. */
  lemma {:induction false} OthersKeepLine(s: seq<Job>, p: nat, op: Op, id: string, topic: string, ahead: nat, from: int, until: int)
      returns (p': nat)
    requires Harmless(s, op, id, topic, from, until) && !(op.Dequeue? && op.topic == topic)
    requires Waits(s, p, id, topic, ahead, from, until)
    ensures Waits(Step(s, op).0, p', id, topic, ahead, from, until)
  {
    p' := p;
    var s' := Step(s, op).0;
    if op.Enqueue? {
      assert s'[..p] == s[..p];
    } else {
      var i := match op
        case Dequeue(t, now, _) => FirstAvailable(s, t, now)
        case Ack(x) => Position(s, x)
        case Nack(x, _) => Position(s, x);
      if i > p {
        assert s'[..p] == s[..p];
      } else if i < p {
        if op.Ack? {
          p' := p - 1;
          FrontRemoved(s, p, i, topic, from);
          assert s'[..p'] == s[..i] + s[i + 1..p];
        } else {
          FrontUpdated(s, p, i, s'[i], topic, from);
        }
      }
    }
  }

  lemma {:induction false} FrontRemoved(s: seq<Job>, p: nat, i: nat, topic: string, from: int)
    requires i < p <= |s|
    ensures |Waiting(s[..i] + s[i + 1..p], topic, from)| <= |Waiting(s[..p], topic, from)|
  {
    WaitingSplit(s[..p], i, topic, from);
    assert s[..p][..i] == s[..i] && s[..p][i + 1..] == s[i + 1..p];
    WaitingConcat(s[..i], s[i + 1..p], topic, from);
  }

  lemma {:induction false} FrontUpdated(s: seq<Job>, p: nat, i: nat, j: Job, topic: string, from: int)
    requires i < p <= |s| && s[i].topic != topic && j.topic != topic
    ensures Waiting(s[i := j][..p], topic, from) == Waiting(s[..p], topic, from)
  {
    WaitingSplit(s[..p], i, topic, from);
    WaitingSplit(s[i := j][..p], i, topic, from);
    assert s[i := j][..p][..i] == s[..p][..i] && s[i := j][..p][i + 1..] == s[..p][i + 1..];
    assert Waiting([j], topic, from) == Waiting([s[i]], topic, from) == [];
  }

  /** Until it is served by call k, a waiting job moves up with every dequeue on its topic. */
  lemma {:induction false} LineMoves(s: seq<Job>, p: nat, ops: seq<Op>, id: string, topic: string, ahead: nat, from: int, until: int)
      returns (k: nat, q: nat)
    requires Waits(s, p, id, topic, ahead, from, until)
    requires forall m :: 0 <= m < |ops| ==> Harmless(After(s, ops[..m]), ops[m], id, topic, from, until)
    ensures
      || (k < |ops| && Served(s, ops, k, id, topic) && DequeuesOn(ops[..k], topic) <= ahead)
      || (DequeuesOn(ops, topic) <= ahead &&
          Waits(After(s, ops), q, id, topic, ahead - DequeuesOn(ops, topic), from, until))
  {
    k, q := 0, p;
    if |ops| > 0 {
      var n := |ops| - 1;
      var prior := ops[..n];
      forall m | 0 <= m < n ensures prior[..m] == ops[..m] {}
      k, q := LineMoves(s, p, prior, id, topic, ahead, from, until);
      if k < n && Served(s, prior, k, id, topic) && DequeuesOn(prior[..k], topic) <= ahead {
        assert prior[..k] == ops[..k];
      } else {
        k, q := LineStep(s, ops, q, id, topic, ahead, from, until);
      }
    }
  }

  lemma {:induction false} LineStep(s: seq<Job>, ops: seq<Op>, q: nat, id: string, topic: string, ahead: nat, from: int, until: int)
      returns (k: nat, q': nat)
    requires |ops| > 0
    requires
      var prior := ops[..|ops| - 1];
      && Harmless(After(s, prior), ops[|ops| - 1], id, topic, from, until)
      && DequeuesOn(prior, topic) <= ahead
      && Waits(After(s, prior), q, id, topic, ahead - DequeuesOn(prior, topic), from, until)
    ensures
      || (k < |ops| && Served(s, ops, k, id, topic) && DequeuesOn(ops[..k], topic) <= ahead)
      || (DequeuesOn(ops, topic) <= ahead &&
          Waits(After(s, ops), q', id, topic, ahead - DequeuesOn(ops, topic), from, until))
  {
    var prior, op := ops[..|ops| - 1], ops[|ops| - 1];
    k, q' := |ops| - 1, q;
    if op.Dequeue? && op.topic == topic {
      DequeueMovesLine(After(s, prior), q, op, id, ahead - DequeuesOn(prior, topic), from, until);
    } else {
      q' := OthersKeepLine(After(s, prior), q, op, id, topic, ahead - DequeuesOn(prior, topic), from, until);
    }
  }

  /**
   A waiting job with `ahead` waiting jobs before it is delivered by one of the next
   `ahead + 1` dequeues on its topic, however other harmless calls are interleaved.
   */
  lemma {:induction false} BoundedWait(s: seq<Job>, p: nat, ops: seq<Op>, topic: string, from: int, until: int)
    requires p < |s| && Deliverable(s[p], topic, from) && Steady(s[..p], topic, from, until)
    requires forall m :: 0 <= m < |ops| ==> Harmless(After(s, ops[..m]), ops[m], s[p].id, topic, from, until)
    requires DequeuesOn(ops, topic) > |Waiting(s[..p], topic, from)|
    ensures exists k ::
      && 0 <= k < |ops| && Served(s, ops, k, s[p].id, topic)
      && DequeuesOn(ops[..k], topic) <= |Waiting(s[..p], topic, from)|
  {
    var k, _ := LineMoves(s, p, ops, s[p].id, topic, |Waiting(s[..p], topic, from)|, from, until);
  }
}
