/** What each call on the work queue answers, told by the calls made before it. */
module QueueAnswers {
  import opened Values
  import opened FlatQueue
  import opened QueueRuns

  /** Call b enqueued a job, and no call between b and k acked it. */
  ghost predicate Pending(ops: seq<Op>, b: nat, k: nat)
    requires k <= |ops|
  {
    b < k && ops[b].Enqueue? && forall m :: b < m < k ==> ops[m] != Ack(ops[b].id)
  }

  lemma {:induction false} PendingPrefix(ops: seq<Op>, b: nat, k: nat)
    requires k <= |ops|
    ensures Pending(ops[..k], b, k) <==> Pending(ops, b, k)
  {
    if b < k {
      assert forall m :: 0 <= m < k ==> ops[..k][m] == ops[m];
    }
  }

  // ----- Births, acks and places in the queue -----------------------------------------

  lemma {:induction false} MentionedWasEnqueued(ops: seq<Op>, id: string)
    ensures Mentions(Born(ops), id) <==> exists b :: 0 <= b < |ops| && ops[b].Enqueue? && ops[b].id == id
  {
    if |ops| > 0 {
      var prior := ops[..|ops| - 1];
      MentionedWasEnqueued(prior, id);
      MentionsStep(ops, id);
      assert forall b :: 0 <= b < |prior| ==> prior[b] == ops[b];
      assert ops[|prior|].Enqueue? && ops[|prior|].id == id ==> exists b :: 0 <= b < |ops| && ops[b].Enqueue? && ops[b].id == id;
    }
  }

  lemma {:induction false} CountedIsQueued(s: seq<Job>, id: string)
    ensures Queued(s, id) > 0 <==> Position(s, id) < |s|
  {
    if |s| > 0 {
      var front := s[..|s| - 1];
      CountedIsQueued(front, id);
      assert forall i :: 0 <= i < |front| ==> front[i] == s[i];
    }
  }

  /** An id is queued exactly when it was enqueued and not acked. */
  lemma {:induction false} QueuedUnlessAcked(ops: seq<Op>, id: string)
    requires FreshIds(ops)
    ensures Position(After([], ops), id) < |After([], ops)| <==> Mentions(Born(ops), id) && Acks(ops, id) == 0
  {
    Conservation(ops, id);
    CountedIsQueued(After([], ops), id);
  }

  lemma {:induction false} LastAck(ops: seq<Op>, id: string)
    requires FreshIds(ops) && |ops| > 0 && ops[|ops| - 1] == Ack(id) && Mentions(Born(ops[..|ops| - 1]), id)
    ensures Acks(ops, id) > 0
  {
    FreshPrefix(ops);
    QueuedUnlessAcked(ops[..|ops| - 1], id);
  }

  lemma {:induction false} EnqueuedIsMentioned(ops: seq<Op>, b: nat)
    requires b < |ops| && ops[b].Enqueue?
    ensures Mentions(Born(ops), ops[b].id)
  {
    MentionedWasEnqueued(ops, ops[b].id);
  }

  /** The first ack after its enqueue takes a job out. */
  lemma {:induction false} UnackedIsPending(ops: seq<Op>, b: nat)
    requires FreshIds(ops) && b < |ops| && ops[b].Enqueue?
    ensures Acks(ops, ops[b].id) == 0 <==> Pending(ops, b, |ops|)
  {
    var prior, op, id := ops[..|ops| - 1], ops[|ops| - 1], ops[b].id;
    FreshPrefix(ops);
    if b == |prior| {
      NothingBeforeBirth(prior, id);
    } else {
      UnackedIsPending(prior, b);
      PendingPrefix(ops, b, |prior|);
      if op == Ack(id) {
        EnqueuedIsMentioned(prior, b);
        LastAck(ops, id);
        assert !Pending(ops, b, |ops|);
      } else {
        assert Pending(ops, b, |ops|) <==> Pending(ops, b, |prior|);
      }
    }
  }

  /** Where in the queue the job enqueued by call b stands. */
  ghost function Place(ops: seq<Op>, b: nat): nat
    requires b <= |ops|
  {
    |Survivors(Born(ops[..b]), id => FateOf(ops, id))|
  }

  lemma {:induction false} BornAt(ops: seq<Op>, b: nat)
    requires b < |ops| && ops[b].Enqueue?
    ensures Born(ops[..b + 1]) == Born(ops[..b]) + [Job(ops[b].id, ops[b].topic, ops[b].payload, ZERO_TIME, ops[b].at, 0)]
    ensures Born(ops[..b + 1]) <= Born(ops)
  {
    assert ops[..b + 1][..b] == ops[..b];
    BornPrefix(ops, b + 1);
  }

  /** A pending job is queued, with everything its enqueue gave it. */
  lemma {:induction false} PendingIsQueued(ops: seq<Op>, b: nat)
    requires FreshIds(ops) && Pending(ops, b, |ops|)
    ensures
      var s, id := After([], ops), ops[b].id;
      && Place(ops, b) < |s|
      && s[Place(ops, b)] == Job(id, ops[b].topic, ops[b].payload, LatestLease(ops, id), ops[b].at, Deliveries(ops, id))
  {
    var f := id => FateOf(ops, id);
    var k := |Born(ops[..b])|;
    History(ops);
    UnackedIsPending(ops, b);
    BornAt(ops, b);
    assert Born(ops)[k] == Born(ops[..b + 1])[k];
    assert Born(ops)[..k] == Born(ops[..b]);
    SurvivorsSplit(Born(ops), k, f);
  }

  /** Every queued job is pending. */
  lemma {:induction false} QueuedIsPending(ops: seq<Op>, q: nat) returns (b: nat)
    requires FreshIds(ops) && q < |After([], ops)|
    ensures Pending(ops, b, |ops|) && Place(ops, b) == q
  {
    var f := id => FateOf(ops, id);
    History(ops);
    var k := BirthOf(Born(ops), f, q);
    b := EnqueuedBy(ops, k);
    UnackedIsPending(ops, b);
  }

  lemma {:induction false} MoreBornMoreSurvive(fewer: seq<Job>, more: seq<Job>, f: string -> Fate)
    requires fewer <= more
    ensures |Survivors(fewer, f)| <= |Survivors(more, f)|
  {
    assert more == fewer + more[|fewer|..];
    SurvivorsConcat(fewer, more[|fewer|..], f);
  }

  lemma {:induction false} PlaceAfter(ops: seq<Op>, a: nat)
    requires FreshIds(ops) && Pending(ops, a, |ops|)
    ensures Place(ops, a + 1) == Place(ops, a) + 1
  {
    UnackedIsPending(ops, a);
    BornAt(ops, a);
    var first := Born(ops[..a + 1]);
    SurvivorsSnoc(Born(ops[..a]), first[|first| - 1], id => FateOf(ops, id));
  }

  /** Pending jobs stand in the order of their enqueues. */
  lemma {:induction false} PlacesRise(ops: seq<Op>, a: nat, b: nat)
    requires FreshIds(ops) && Pending(ops, a, |ops|) && a < b <= |ops|
    ensures Place(ops, a) < Place(ops, b)
  {
    PlaceAfter(ops, a);
    BornPrefix(ops[..b], a + 1);
    assert ops[..b][..a + 1] == ops[..a + 1];
    MoreBornMoreSurvive(Born(ops[..a + 1]), Born(ops[..b]), id => FateOf(ops, id));
  }

  // ----- Enqueue, Ack and Nack ----------------------------------------------------------

  /**
   From its enqueue until it is acked, exactly one queued job has the id, and it has the topic,
   the payload and the time of that call.
   */
  lemma {:induction false} EnqueuedIsQueuedOnce(ops: seq<Op>, b: nat)
    requires FreshIds(ops) && Pending(ops, b, |ops|)
    ensures OutcomeAt([], ops, b) == Enqueued(ops[b].id)
    ensures exists q ::
      var s := After([], ops);
      && 0 <= q < |s|
      && (forall other :: 0 <= other < |s| ==> (s[other].id == ops[b].id <==> other == q))
      && s[q].topic == ops[b].topic && s[q].payload == ops[b].payload && s[q].enqueuedAt == ops[b].at
  {
    var s, q := After([], ops), Place(ops, b);
    PendingIsQueued(ops, b);
    forall other | 0 <= other < |s| && s[other].id == ops[b].id ensures other == q {
      var a := QueuedIsPending(ops, other);
      PendingIsQueued(ops, a);
      SameEnqueue(ops, a, b);
    }
  }

  /** No two calls enqueue the same id. */
  lemma {:induction false} SameEnqueue(ops: seq<Op>, a: nat, b: nat)
    requires FreshIds(ops) && a < |ops| && b < |ops| && ops[a].Enqueue? && ops[b].Enqueue? && ops[a].id == ops[b].id
    ensures a == b
  {
    if a > b {
      SameEnqueue(ops, b, a);
    } else if a < b {
      var upto := ops[..b + 1];
      BornPrefix(ops, b + 1);
      FreshPrefix(upto);
      assert upto[..b] == ops[..b] && ops[..b][a] == ops[a];
      EnqueuedIsMentioned(ops[..b], a);
    }
  }

  /** The call k names a job that was enqueued and not acked. */
  ghost predicate NamesPending(ops: seq<Op>, k: nat, id: string)
    requires k <= |ops|
  {
    exists b: nat :: Pending(ops, b, k) && ops[b].id == id
  }

  lemma {:induction false} PendingIsFound(ops: seq<Op>, k: nat, id: string)
    requires FreshIds(ops) && k <= |ops|
    ensures Position(After([], ops[..k]), id) < |After([], ops[..k])| <==> NamesPending(ops, k, id)
  {
    var prior := ops[..k];
    BornPrefix(ops, k);
    QueuedUnlessAcked(prior, id);
    MentionedWasEnqueued(prior, id);
    forall b | 0 <= b < k && prior[b].Enqueue? && prior[b].id == id
      ensures Acks(prior, id) == 0 <==> Pending(ops, b, k)
      ensures prior[b] == ops[b]
    {
      UnackedIsPending(prior, b);
      PendingPrefix(ops, b, k);
    }
    if b: nat :| Pending(ops, b, k) && ops[b].id == id {
      assert prior[b] == ops[b];
    }
  }

  /** An Ack is done exactly when its job was enqueued and not acked before; leased or not. */
  lemma {:induction false} AckAnswersExactly(ops: seq<Op>, k: nat)
    requires FreshIds(ops) && k < |ops| && ops[k].Ack?
    ensures OutcomeAt([], ops, k) == if NamesPending(ops, k, ops[k].id) then Done else NotFound
  {
    PendingIsFound(ops, k, ops[k].id);
  }

  /** So is a Nack. */
  lemma {:induction false} NackAnswersExactly(ops: seq<Op>, k: nat)
    requires FreshIds(ops) && k < |ops| && ops[k].Nack?
    ensures OutcomeAt([], ops, k) == if NamesPending(ops, k, ops[k].id) then Done else NotFound
  {
    PendingIsFound(ops, k, ops[k].id);
  }

  // ----- Dequeue ------------------------------------------------------------------------

  /** Call i gives the job a new lease: it delivers the job or nacks it. */
  predicate Leases(ops: seq<Op>, i: nat, id: string)
    requires i < |ops|
  {
    Delivers(ops, i, id) || Nacks(ops, i, id)
  }

  lemma {:induction false} NeverLeased(ops: seq<Op>, k: nat, id: string)
    requires k <= |ops| && forall m :: 0 <= m < k ==> !Leases(ops, m, id)
    ensures LatestLease(ops[..k], id) == ZERO_TIME
    decreases k
  {
    if k > 0 {
      LeaseStep(ops, k, id);
      assert !Leases(ops, k - 1, id);
      NeverLeased(ops, k - 1, id);
    }
  }

  /** The latest lease is what the last delivery or Nack of the job said. */
  lemma {:induction false} LatestLeaseIs(ops: seq<Op>, i: nat, k: nat, id: string)
    requires i < k <= |ops| && Leases(ops, i, id) && forall m :: i < m < k ==> !Leases(ops, m, id)
    ensures LatestLease(ops[..k], id) == if ops[i].Dequeue? then ops[i].now + ops[i].leaseTimeout else ops[i].retryAt
    decreases k
  {
    LeaseStep(ops, k, id);
    if i < k - 1 {
      assert !Leases(ops, k - 1, id);
      LatestLeaseIs(ops, i, k - 1, id);
    }
  }

  /** The job that call b enqueued is there for the dequeue k: on its topic, not acked, its latest lease over or never set. */
  ghost predicate Free(ops: seq<Op>, b: nat, k: nat)
    requires k < |ops| && ops[k].Dequeue?
  {
    && Pending(ops, b, k) && ops[b].topic == ops[k].topic
    && var lease := LatestLease(ops[..k], ops[b].id);
    !(lease != ZERO_TIME && ops[k].now <= lease)
  }

  lemma {:induction false} FreeIsDeliverable(ops: seq<Op>, b: nat, k: nat)
    requires FreshIds(ops) && k < |ops| && ops[k].Dequeue? && Pending(ops, b, k)
    ensures
      var s, p := After([], ops[..k]), Place(ops[..k], b);
      && p < |s|
      && (Free(ops, b, k) <==> Deliverable(s[p], ops[k].topic, ops[k].now))
      && s[p] == Job(ops[b].id, ops[b].topic, ops[b].payload, LatestLease(ops[..k], ops[b].id), ops[b].at,
                     Deliveries(ops[..k], ops[b].id))
  {
    BornPrefix(ops, k);
    PendingPrefix(ops, b, k);
    PendingIsQueued(ops[..k], b);
  }

  lemma {:induction false} FirstFreeIsFirst(ops: seq<Op>, b: nat, k: nat)
    requires FreshIds(ops) && k < |ops| && ops[k].Dequeue? && Free(ops, b, k)
    requires forall a: nat :: a < b ==> !Free(ops, a, k)
    ensures FirstAvailable(After([], ops[..k]), ops[k].topic, ops[k].now) == Place(ops[..k], b)
  {
    var prior := ops[..k];
    var p := FirstAvailable(After([], prior), ops[k].topic, ops[k].now);
    FreeIsDeliverable(ops, b, k);
    BornPrefix(ops, k);
    var a := QueuedIsPending(prior, p);
    PendingPrefix(ops, a, k);
    PendingPrefix(ops, b, k);
    FreeIsDeliverable(ops, a, k);
    if b < a {
      PlacesRise(prior, b, a);
    }
  }

  lemma {:induction false} NoJobsExactly(ops: seq<Op>, k: nat)
    requires FreshIds(ops) && k < |ops| && ops[k].Dequeue?
    ensures OutcomeAt([], ops, k) == NoJobs <==> forall b: nat :: !Free(ops, b, k)
  {
    var s := After([], ops[..k]);
    var p := FirstAvailable(s, ops[k].topic, ops[k].now);
    if b: nat :| Free(ops, b, k) {
      FreeIsDeliverable(ops, b, k);
    }
    if p < |s| {
      BornPrefix(ops, k);
      var b := QueuedIsPending(ops[..k], p);
      PendingPrefix(ops, b, k);
      FreeIsDeliverable(ops, b, k);
      assert Free(ops, b, k);
    }
  }

  lemma {:induction false} FirstFreeIsDelivered(ops: seq<Op>, b: nat, k: nat)
    requires FreshIds(ops) && k < |ops| && ops[k].Dequeue? && Free(ops, b, k)
    requires forall a: nat :: a < b ==> !Free(ops, a, k)
    ensures OutcomeAt([], ops, k) == Delivered(Job(
      ops[b].id, ops[b].topic, ops[b].payload,
      ops[k].now + ops[k].leaseTimeout, ops[b].at, Deliveries(ops[..k], ops[b].id) + 1))
  {
    FreeIsDeliverable(ops, b, k);
    FirstFreeIsFirst(ops, b, k);
  }

  /**
   On any run, a Dequeue answers that there are no jobs exactly when every unacked job of its topic
   is still leased; otherwise it delivers the first in enqueue order that is not, as it was
   enqueued, with the new lease and one more delivery.
   */
  lemma {:induction false} DequeueAnswersExactly(ops: seq<Op>, k: nat)
    requires FreshIds(ops) && k < |ops| && ops[k].Dequeue?
    ensures OutcomeAt([], ops, k) == NoJobs <==> forall b: nat :: !Free(ops, b, k)
    ensures forall b: nat :: Free(ops, b, k) && (forall a: nat :: a < b ==> !Free(ops, a, k)) ==>
      OutcomeAt([], ops, k) == Delivered(Job(
        ops[b].id, ops[b].topic, ops[b].payload,
        ops[k].now + ops[k].leaseTimeout, ops[b].at, Deliveries(ops[..k], ops[b].id) + 1))
  {
    NoJobsExactly(ops, k);
    forall b: nat | Free(ops, b, k) && forall a: nat :: a < b ==> !Free(ops, a, k)
      ensures OutcomeAt([], ops, k) == Delivered(Job(
        ops[b].id, ops[b].topic, ops[b].payload,
        ops[k].now + ops[k].leaseTimeout, ops[b].at, Deliveries(ops[..k], ops[b].id) + 1))
    {
      FirstFreeIsDelivered(ops, b, k);
    }
  }
}
