/** What the work queue promises over whole runs of calls. */
module QueueRuns {
  import opened Values
  import opened FlatQueue

  // ----- The client's own record of a run ---------------------------------------------

  /** Every job ever enqueued, as it was first stored, in enqueue order. */
  function Born(ops: seq<Op>): seq<Job> {
    if |ops| == 0 then []
    else
      var last := ops[|ops| - 1];
      Born(ops[..|ops| - 1]) + if last.Enqueue? then [NewJob(last)] else []
  }

  /** How many Acks of this id succeeded. */
  function Acks(ops: seq<Op>, id: string): nat {
    if |ops| == 0 then 0
    else
      var n := |ops| - 1;
      Acks(ops[..n], id) + if ops[n] == Ack(id) && OutcomeAt([], ops, n) == Done then 1 else 0
  }

  predicate Delivers(ops: seq<Op>, k: nat, id: string)
    requires k < |ops|
  {
    var r := OutcomeAt([], ops, k);
    ops[k].Dequeue? && r.Delivered? && r.job.id == id
  }

  predicate Nacks(ops: seq<Op>, k: nat, id: string)
    requires k < |ops|
  {
    ops[k].Nack? && ops[k].id == id && OutcomeAt([], ops, k) == Done
  }

  /** How many times this id was delivered. */
  function Deliveries(ops: seq<Op>, id: string): nat {
    if |ops| == 0 then 0
    else
      var n := |ops| - 1;
      Deliveries(ops[..n], id) + if Delivers(ops, n, id) then 1 else 0
  }

  /** The lease set by the latest delivery or Nack of this id. */
  function LatestLease(ops: seq<Op>, id: string): int {
    if |ops| == 0 then ZERO_TIME
    else
      var n := |ops| - 1;
      if Delivers(ops, n, id) then ops[n].now + ops[n].leaseTimeout
      else if Nacks(ops, n, id) then ops[n].retryAt
      else LatestLease(ops[..n], id)
  }

  /** What a run has done to one id. */
  datatype Fate = Fate(acks: nat, deliveries: nat, lease: int)

  function FateOf(ops: seq<Op>, id: string): Fate {
    Fate(Acks(ops, id), Deliveries(ops, id), LatestLease(ops, id))
  }

  /** A job as it stands after its fate: gone once acked. */
  function Standing(j: Job, fate: Fate): seq<Job> {
    if fate.acks > 0 then []
    else [j.(leaseExpiresAt := fate.lease, dequeueCount := fate.deliveries)]
  }

  function Survivors(born: seq<Job>, fates: string -> Fate): seq<Job> {
    if |born| == 0 then []
    else
      var n := |born| - 1;
      Survivors(born[..n], fates) + Standing(born[n], fates(born[n].id))
  }

  /** What the record says must still be queued: each job not yet acked, in enqueue order. */
  function Remaining(ops: seq<Op>): seq<Job> {
    Survivors(Born(ops), id => FateOf(ops, id))
  }

  /** Generated ids are never repeated. */
  ghost predicate FreshIds(ops: seq<Op>) {
    UniqueIds(Born(ops))
  }

  ghost predicate Mentions(s: seq<Job>, id: string) {
    exists i :: 0 <= i < |s| && s[i].id == id
  }

  // ----- History ----------------------------------------------------------------------

  lemma {:induction false} SurvivorsAgree(born: seq<Job>, f: string -> Fate, g: string -> Fate)
    requires forall i :: 0 <= i < |born| ==> f(born[i].id) == g(born[i].id)
    ensures Survivors(born, f) == Survivors(born, g)
  {
    if |born| > 0 {
      SurvivorsAgree(born[..|born| - 1], f, g);
    }
  }

  lemma {:induction false} SurvivorsConcat(x: seq<Job>, y: seq<Job>, f: string -> Fate)
    ensures Survivors(x + y, f) == Survivors(x, f) + Survivors(y, f)
  {
    if |y| == 0 {
      assert x + y == x;
    } else {
      var y' := y[..|y| - 1];
      assert (x + y)[..|x + y| - 1] == x + y';
      SurvivorsConcat(x, y', f);
    }
  }

  lemma {:induction false} SurvivorsSplit(born: seq<Job>, k: nat, f: string -> Fate)
    requires k < |born|
    ensures Survivors(born, f) ==
            Survivors(born[..k], f) + Standing(born[k], f(born[k].id)) + Survivors(born[k + 1..], f)
  {
    assert born == born[..k] + [born[k]] + born[k + 1..];
    SurvivorsThree(born[..k], born[k], born[k + 1..], f);
  }

  lemma {:induction false} SurvivorsThree(a: seq<Job>, j: Job, c: seq<Job>, f: string -> Fate)
    ensures Survivors(a + [j] + c, f) == Survivors(a, f) + Standing(j, f(j.id)) + Survivors(c, f)
  {
    SurvivorsConcat(a + [j], c, f);
    SurvivorsSnoc(a, j, f);
  }

  lemma {:induction false} SurvivorsSnoc(born: seq<Job>, j: Job, f: string -> Fate)
    ensures Survivors(born + [j], f) == Survivors(born, f) + Standing(j, f(j.id))
  {
    assert (born + [j])[..|born + [j]| - 1] == born;
  }

  /** Every survivor has a birth. */
  lemma {:induction false} BirthOf(born: seq<Job>, f: string -> Fate, i: nat) returns (k: nat)
    requires i < |Survivors(born, f)|
    ensures k < |born|
    ensures Standing(born[k], f(born[k].id)) == [Survivors(born, f)[i]]
    ensures |Survivors(born[..k], f)| == i
  {
    var n := |born| - 1;
    if i < |Survivors(born[..n], f)| {
      k := BirthOf(born[..n], f, i);
      assert born[..n][..k] == born[..k];
    } else {
      k := n;
    }
  }

  /** Changing the fate of one id rewrites exactly one survivor. */
  lemma {:induction false} SurvivorsAround(born: seq<Job>, i: nat, f: string -> Fate, g: string -> Fate) returns (j: Job)
    requires UniqueIds(born) && i < |Survivors(born, f)|
    requires forall other :: other != Survivors(born, f)[i].id ==> f(other) == g(other)
    ensures Standing(j, f(j.id)) == [Survivors(born, f)[i]]
    ensures Survivors(born, g) == Survivors(born, f)[..i] + Standing(j, g(j.id)) + Survivors(born, f)[i + 1..]
  {
    var k := BirthOf(born, f, i);
    j := born[k];
    var all, mid := Survivors(born, f), Standing(j, f(j.id));
    var left, right := Survivors(born[..k], f), Survivors(born[k + 1..], f);
    assert all == left + mid + right by { SurvivorsSplit(born, k, f); }
    assert mid[0].id == j.id;
    assert Survivors(born[..k], g) == left by { SurvivorsAgree(born[..k], f, g); }
    assert Survivors(born[k + 1..], g) == right by { SurvivorsAgree(born[k + 1..], f, g); }
    assert Survivors(born, g) == left + Standing(j, g(j.id)) + right by { SurvivorsSplit(born, k, g); }
    assert all[..i] == left && all[i + 1..] == right;
  }

  /** A call that does not touch an id leaves its fate alone. */
  lemma {:induction false} FateUntouched(ops: seq<Op>, id: string)
    requires |ops| > 0
    requires !Touches(ops, id)
    ensures FateOf(ops, id) == FateOf(ops[..|ops| - 1], id)
  {
  }

  /** The last call of the run acked, delivered or nacked this id. */
  predicate Touches(ops: seq<Op>, id: string)
    requires |ops| > 0
  {
    var n := |ops| - 1;
    Delivers(ops, n, id) || Nacks(ops, n, id) || (ops[n] == Ack(id) && OutcomeAt([], ops, n) == Done)
  }

  /** Whatever a call touches was queued. */
  lemma {:induction false} TouchedWasQueued(ops: seq<Op>, id: string)
    requires |ops| > 0 && Touches(ops, id)
    ensures Mentions(After([], ops[..|ops| - 1]), id)
  {
  }

  lemma {:induction false} FreshPrefix(ops: seq<Op>)
    requires |ops| > 0 && FreshIds(ops)
    ensures FreshIds(ops[..|ops| - 1])
    ensures ops[|ops| - 1].Enqueue? ==> !Mentions(Born(ops[..|ops| - 1]), ops[|ops| - 1].id)
  {
    var born := Born(ops[..|ops| - 1]);
    assert forall i :: 0 <= i < |born| ==> Born(ops)[i] == born[i];
    if ops[|ops| - 1].Enqueue? {
      assert Born(ops)[|born|].id == ops[|ops| - 1].id;
    }
  }

  lemma {:induction false} SurvivorsWereBorn(born: seq<Job>, f: string -> Fate, id: string)
    requires Mentions(Survivors(born, f), id)
    ensures Mentions(born, id)
  {
    var i :| 0 <= i < |Survivors(born, f)| && Survivors(born, f)[i].id == id;
    var k := BirthOf(born, f, i);
    assert Standing(born[k], f(born[k].id))[0].id == id;
  }

  /** Nothing ever happens to an id that was never enqueued. */
  lemma {:induction false} NothingBeforeBirth(ops: seq<Op>, id: string)
    requires FreshIds(ops) && !Mentions(Born(ops), id)
    ensures FateOf(ops, id) == Fate(0, 0, ZERO_TIME)
    decreases |ops|, 0
  {
    if |ops| > 0 {
      var prior := ops[..|ops| - 1];
      FreshPrefix(ops);
      assert !Mentions(Born(prior), id) by {
        assert forall i :: 0 <= i < |Born(prior)| ==> Born(ops)[i] == Born(prior)[i];
      }
      NothingBeforeBirth(prior, id);
      History(prior);
      if Touches(ops, id) {
        TouchedWasQueued(ops, id);
        SurvivorsWereBorn(Born(prior), x => FateOf(prior, x), id);
      }
      FateUntouched(ops, id);
    }
  }

  /**
   In every reachable state the queue is exactly what the clients' record says: the jobs
   enqueued and not yet acked, in enqueue order, each with its original id, topic, payload and
   enqueue time, with the lease of its latest delivery or Nack, and counting its deliveries.
   */
  lemma {:induction false} History(ops: seq<Op>)
    requires FreshIds(ops)
    ensures After([], ops) == Remaining(ops)
    decreases |ops|, 1
  {
    if |ops| > 0 {
      FreshPrefix(ops);
      History(ops[..|ops| - 1]);
      if ops[|ops| - 1].Enqueue? {
        HistoryEnqueue(ops);
      } else {
        HistoryTouch(ops);
      }
    }
  }

  lemma {:induction false} HistoryEnqueue(ops: seq<Op>)
    requires |ops| > 0 && FreshIds(ops) && ops[|ops| - 1].Enqueue?
    requires After([], ops[..|ops| - 1]) == Remaining(ops[..|ops| - 1])
    ensures After([], ops) == Remaining(ops)
    decreases |ops| - 1, 2
  {
    var prior, op := ops[..|ops| - 1], ops[|ops| - 1];
    var f, g := id => FateOf(prior, id), id => FateOf(ops, id);
    FreshPrefix(ops);
    NothingBeforeBirth(prior, op.id);
    forall id ensures f(id) == g(id) { FateUntouched(ops, id); }
    SurvivorsAgree(Born(prior), f, g);
    assert Born(ops)[..|Born(ops)| - 1] == Born(prior);
    assert Standing(NewJob(op), g(op.id)) == [NewJob(op)];
  }

  /** The position of the job that a call touches, or `|s|`. */
  function TouchedAt(s: seq<Job>, op: Op): (i: nat)
    requires !op.Enqueue?
    ensures i <= |s|
  {
    match op
    case Dequeue(topic, now, _) => FirstAvailable(s, topic, now)
    case Ack(id) => Position(s, id)
    case Nack(id, _) => Position(s, id)
  }

  /** What a call makes of the fate of the job it touches. */
  function FateAfter(f: Fate, op: Op): Fate
    requires !op.Enqueue?
  {
    match op
    case Dequeue(_, now, leaseTimeout) => f.(lease := now + leaseTimeout, deliveries := f.deliveries + 1)
    case Ack(_) => f.(acks := f.acks + 1)
    case Nack(_, retryAt) => f.(lease := retryAt)
  }

  lemma {:induction false} FateTouched(ops: seq<Op>)
    requires |ops| > 0 && !ops[|ops| - 1].Enqueue?
    ensures
      var prior, op := ops[..|ops| - 1], ops[|ops| - 1];
      var s := After([], prior);
      var i := TouchedAt(s, op);
      i < |s| ==> FateOf(ops, s[i].id) == FateAfter(FateOf(prior, s[i].id), op)
  {
  }

  lemma {:induction false} FateElsewhere(ops: seq<Op>, id: string)
    requires |ops| > 0 && !ops[|ops| - 1].Enqueue?
    requires
      var s := After([], ops[..|ops| - 1]);
      var i := TouchedAt(s, ops[|ops| - 1]);
      i < |s| ==> s[i].id != id
    ensures FateOf(ops, id) == FateOf(ops[..|ops| - 1], id)
  {
    FateUntouched(ops, id);
  }

  /** A call rewrites the job it touches and nothing else. */
  lemma {:induction false} StepTouches(s: seq<Job>, op: Op, j: Job, f: Fate)
    requires !op.Enqueue? && TouchedAt(s, op) < |s|
    requires Standing(j, f) == [s[TouchedAt(s, op)]]
    ensures
      var i := TouchedAt(s, op);
      Step(s, op).0 == s[..i] + Standing(j, FateAfter(f, op)) + s[i + 1..]
  {
    var i := TouchedAt(s, op);
    assert Standing(j, f)[0] == s[i];
    if op.Ack? {
      assert Standing(j, FateAfter(f, op)) == [];
    } else {
      var j' := Standing(j, FateAfter(f, op))[0];
      assert Step(s, op).0 == s[i := j'];
    }
  }

  lemma {:induction false} HistoryTouch(ops: seq<Op>)
    requires |ops| > 0 && FreshIds(ops) && !ops[|ops| - 1].Enqueue?
    requires After([], ops[..|ops| - 1]) == Remaining(ops[..|ops| - 1])
    ensures After([], ops) == Remaining(ops)
  {
    var prior, op := ops[..|ops| - 1], ops[|ops| - 1];
    var s, born := After([], prior), Born(prior);
    var f, g := id => FateOf(prior, id), id => FateOf(ops, id);
    var i := TouchedAt(s, op);
    assert Born(ops) == born;
    assert forall id :: (i < |s| ==> id != s[i].id) ==> f(id) == g(id) by {
      forall id | i < |s| ==> id != s[i].id ensures f(id) == g(id) { FateElsewhere(ops, id); }
    }
    if i == |s| {
      SurvivorsAgree(born, f, g);
      assert Remaining(ops) == Survivors(born, g);
    } else {
      assert UniqueIds(born) by { FreshPrefix(ops); }
      assert g(s[i].id) == FateAfter(f(s[i].id), op) by { FateTouched(ops); }
      TouchSurvivor(s, born, op, f, g);
    }
  }

  /** Survivors follow a call when only the fate of the job it touches does. */
  lemma {:induction false} TouchSurvivor(s: seq<Job>, born: seq<Job>, op: Op, f: string -> Fate, g: string -> Fate)
    requires UniqueIds(born) && s == Survivors(born, f)
    requires !op.Enqueue? && TouchedAt(s, op) < |s|
    requires
      var id := s[TouchedAt(s, op)].id;
      g(id) == FateAfter(f(id), op) && forall other :: other != id ==> f(other) == g(other)
    ensures Step(s, op).0 == Survivors(born, g)
  {
    var i := TouchedAt(s, op);
    var j := SurvivorsAround(born, i, f, g);
    assert j.id == s[i].id by { assert Standing(j, f(j.id))[0] == s[i]; }
    StepTouches(s, op, j, f(j.id));
  }

  // ----- Consequences of the history --------------------------------------------------

  lemma {:induction false} BornPrefix(ops: seq<Op>, n: nat)
    requires n <= |ops|
    ensures Born(ops[..n]) <= Born(ops)
    ensures FreshIds(ops) ==> FreshIds(ops[..n])
    decreases |ops|
  {
    if n < |ops| {
      assert ops[..|ops| - 1][..n] == ops[..n];
      BornPrefix(ops[..|ops| - 1], n);
      assert forall i :: 0 <= i < |Born(ops[..n])| ==> Born(ops)[i] == Born(ops[..n])[i];
    } else {
      assert ops[..n] == ops;
    }
  }

  /** A queued job is its birth record with the lease and count the run gave it. */
  lemma {:induction false} QueuedJob(ops: seq<Op>, p: nat) returns (k: nat)
    requires FreshIds(ops) && p < |After([], ops)|
    ensures k < |Born(ops)|
    ensures
      var b := Born(ops)[k];
      && After([], ops)[p] == b.(leaseExpiresAt := LatestLease(ops, b.id), dequeueCount := Deliveries(ops, b.id))
      && Acks(ops, b.id) == 0
  {
    History(ops);
    var f := id => FateOf(ops, id);
    k := BirthOf(Born(ops), f, p);
    assert Standing(Born(ops)[k], f(Born(ops)[k].id))[0] == After([], ops)[p];
  }

  /** The call that enqueued the k-th job. */
  lemma {:induction false} EnqueuedBy(ops: seq<Op>, k: nat) returns (b: nat)
    requires k < |Born(ops)|
    ensures b < |ops| && ops[b].Enqueue? && |Born(ops[..b])| == k && Born(ops)[..k] == Born(ops[..b])
    ensures Born(ops)[k] == Job(ops[b].id, ops[b].topic, ops[b].payload, ZERO_TIME, ops[b].at, 0)
  {
    var prior := ops[..|ops| - 1];
    if k < |Born(prior)| {
      b := EnqueuedBy(prior, k);
      assert prior[..b] == ops[..b];
      assert Born(ops)[..k] == Born(prior)[..k];
    } else {
      b := |prior|;
    }
  }

  /**
   Every delivery is of a job that some earlier call enqueued, on that topic, with that payload and
   at that time, and that has not been acked; it reports how many deliveries that job has had.
   */
  lemma {:induction false} DeliveryIsGenuine(ops: seq<Op>, k: nat, id: string)
    requires FreshIds(ops) && k < |ops| && Delivers(ops, k, id)
    ensures Acks(ops[..k], id) == 0
    ensures
      var j := OutcomeAt([], ops, k).job;
      && j.topic == ops[k].topic
      && j.dequeueCount == Deliveries(ops[..k], id) + 1
      && j.leaseExpiresAt == ops[k].now + ops[k].leaseTimeout
      && exists b :: 0 <= b < k && ops[b] == Enqueue(id, ops[k].topic, j.payload, j.enqueuedAt)
  {
    BornPrefix(ops, k);
    var s := After([], ops[..k]);
    var p := FirstAvailable(s, ops[k].topic, ops[k].now);
    var born := QueuedJob(ops[..k], p);
    var b := EnqueuedBy(ops[..k], born);
    assert ops[b] == ops[..k][b];
  }

  /** The clock never runs backwards and is always past the zero time. */
  ghost predicate ClockRuns(ops: seq<Op>) {
    && (forall k :: 0 <= k < |ops| && ops[k].Dequeue? ==> ops[k].now > ZERO_TIME)
    && forall i, k :: 0 <= i < k < |ops| && ops[i].Dequeue? && ops[k].Dequeue? ==> ops[i].now <= ops[k].now
  }

  lemma {:induction false} LeaseKept(ops: seq<Op>, i: nat, k: nat, id: string)
    requires i < k <= |ops| && Delivers(ops, i, id)
    requires forall m :: i < m < k ==> !Delivers(ops, m, id) && !Nacks(ops, m, id)
    ensures LatestLease(ops[..k], id) == ops[i].now + ops[i].leaseTimeout
    decreases k
  {
    LeaseStep(ops, k, id);
    if i < k - 1 {
      assert !Delivers(ops, k - 1, id) && !Nacks(ops, k - 1, id);
      LeaseKept(ops, i, k - 1, id);
    }
  }

  lemma {:induction false} LeaseStep(ops: seq<Op>, k: nat, id: string)
    requires 0 < k <= |ops|
    ensures LatestLease(ops[..k], id) ==
            if Delivers(ops, k - 1, id) then ops[k - 1].now + ops[k - 1].leaseTimeout
            else if Nacks(ops, k - 1, id) then ops[k - 1].retryAt
            else LatestLease(ops[..k - 1], id)
  {
    assert ops[..k][..k - 1] == ops[..k - 1];
  }

  /**
   Leases are exclusive: between two deliveries of a job with no Nack of it in between, the
   lease granted by the first has run out, whatever else happens on the queue.
   */
  lemma {:induction false} LeaseExclusivity(ops: seq<Op>, i: nat, k: nat, id: string)
    requires FreshIds(ops) && ClockRuns(ops)
    requires i < k < |ops| && Delivers(ops, i, id) && Delivers(ops, k, id)
    requires forall m :: i < m < k ==> !Nacks(ops, m, id)
    ensures ops[k].now > ops[i].now + ops[i].leaseTimeout
    decreases k
  {
    if m :| i < m < k && Delivers(ops, m, id) {
      LeaseExclusivity(ops, i, m, id);
    } else {
      LeaseKept(ops, i, k, id);
      BornPrefix(ops, k);
      var s := After([], ops[..k]);
      var b := QueuedJob(ops[..k], FirstAvailable(s, ops[k].topic, ops[k].now));
    }
  }

  function Queued(s: seq<Job>, id: string): nat {
    if |s| == 0 then 0
    else Queued(s[..|s| - 1], id) + if s[|s| - 1].id == id then 1 else 0
  }

  lemma {:induction false} QueuedConcat(x: seq<Job>, y: seq<Job>, id: string)
    ensures Queued(x + y, id) == Queued(x, id) + Queued(y, id)
  {
    if |y| == 0 {
      assert x + y == x;
    } else {
      assert (x + y)[..|x + y| - 1] == x + y[..|y| - 1];
      QueuedConcat(x, y[..|y| - 1], id);
    }
  }

  lemma {:induction false} QueuedAround(s: seq<Job>, i: nat, mid: seq<Job>, id: string)
    requires i < |s|
    ensures Queued(s[..i] + mid + s[i + 1..], id) ==
            Queued(s, id) + Queued(mid, id) - if s[i].id == id then 1 else 0
  {
    assert s == s[..i + 1] + s[i + 1..] && s[..i + 1][..i] == s[..i];
    QueuedConcat(s[..i + 1], s[i + 1..], id);
    QueuedConcat(s[..i] + mid, s[i + 1..], id);
    QueuedConcat(s[..i], mid, id);
  }

  /** How a call changes the number of queued jobs with an id. */
  lemma {:induction false} QueuedStep(s: seq<Job>, op: Op, id: string)
    ensures
      var (s', r) := Step(s, op);
      Queued(s', id) + (if op == Ack(id) && r == Done then 1 else 0) ==
      Queued(s, id) + if op.Enqueue? && op.id == id then 1 else 0
  {
    if op.Enqueue? {
      QueuedConcat(s, [NewJob(op)], id);
      assert [NewJob(op)][..0] == [];
    } else {
      var s', i := Step(s, op).0, TouchedAt(s, op);
      if i < |s| {
        var mid := if op.Ack? then [] else [s'[i]];
        assert s' == s[..i] + mid + s[i + 1..];
        QueuedAround(s, i, mid, id);
        assert op.Ack? || mid[..0] == [];
      }
    }
  }

  /** No job is lost or duplicated: each one enqueued is queued once until it is acked once. */
  lemma {:induction false} Conservation(ops: seq<Op>, id: string)
    requires FreshIds(ops)
    ensures Queued(After([], ops), id) + Acks(ops, id) == if Mentions(Born(ops), id) then 1 else 0
  {
    if |ops| > 0 {
      var prior, op := ops[..|ops| - 1], ops[|ops| - 1];
      FreshPrefix(ops);
      Conservation(prior, id);
      QueuedStep(After([], prior), op, id);
      MentionsStep(ops, id);
    }
  }

  lemma {:induction false} MentionsStep(ops: seq<Op>, id: string)
    requires |ops| > 0
    ensures
      var op := ops[|ops| - 1];
      Mentions(Born(ops), id) <==> Mentions(Born(ops[..|ops| - 1]), id) || (op.Enqueue? && op.id == id)
  {
    var born := Born(ops[..|ops| - 1]);
    assert forall i :: 0 <= i < |born| ==> Born(ops)[i] == born[i];
    if ops[|ops| - 1].Enqueue? {
      assert Born(ops)[|born|].id == ops[|ops| - 1].id;
    }
  }
}
