/** Whole runs of the in-memory queue: it answers exactly as the flat list does. */
module MemQueueRuns {
  import opened FlatQueue
  import opened MemQueue
  import opened QueueRuns

  /** A generated id is not in the queue when it is enqueued. */
  lemma {:induction false} FreshNotQueued(ops: seq<Op>, k: nat)
    requires FreshIds(ops) && k < |ops| && ops[k].Enqueue?
    ensures !Mentions(After([], ops[..k]), ops[k].id)
  {
    BornPrefix(ops, k + 1);
    var now := ops[..k + 1];
    assert now[..k] == ops[..k];
    FreshPrefix(now);
    History(ops[..k]);
    if Mentions(After([], ops[..k]), ops[k].id) {
      SurvivorsWereBorn(Born(ops[..k]), id => FateOf(ops[..k], id), ops[k].id);
    }
  }

  /** The k-th call of a run, on the queue that the calls before it left. */
  method Perform(q: Queue, ops: seq<Op>, k: nat, spare: nat) returns (r: Outcome)
    requires FreshIds(ops) && k < |ops| && q.Valid() && q.flat == After([], ops[..k])
    modifies q, q.owners.Keys
    ensures q.Valid() && fresh(q.owners.Keys - old(q.owners.Keys))
    ensures q.flat == After([], ops[..k + 1]) && r == OutcomeAt([], ops, k)
  {
    assert ops[..k + 1][..k] == ops[..k];
    match ops[k] {
      case Enqueue(id, topic, payload, at) =>
        FreshNotQueued(ops, k);
        r := q.Enqueue(id, topic, payload, at, spare);
      case Dequeue(topic, now, leaseTimeout) => r := q.Dequeue(topic, leaseTimeout, now);
      case Ack(id) => r := q.Ack(id);
      case Nack(id, retryAt) => r := q.Nack(id, retryAt);
    }
  }

  /** Any client's calls, made one after another on a new queue, with `spares(k)` new cells should call k grow a slice. */
  method Replay(ops: seq<Op>, spares: nat -> nat) returns (q: Queue, answers: seq<Outcome>)
    requires FreshIds(ops)
    ensures q.Valid() && q.flat == After([], ops)
    ensures answers == Outcomes([], ops)
  {
    q := new Queue();
    answers := [];
    assert ops[..0] == [];
    for k := 0 to |ops|
      invariant fresh(q) && fresh(q.owners.Keys) && q.Valid() && q.flat == After([], ops[..k])
      invariant |answers| == k && forall i :: 0 <= i < k ==> answers[i] == OutcomeAt([], ops, i)
    {
      var r := Perform(q, ops, k, spares(k));
      answers := answers + [r];
    }
    assert ops[..|ops|] == ops;
  }

  /**
   A topic's slice after a run: the jobs enqueued on it and not acked, in enqueue order, each
   with its latest lease and its number of deliveries.
   */
  lemma {:induction false} TopicHistory(ops: seq<Op>, contents: map<string, seq<Job>>, index: map<string, string>, topic: string)
    requires FreshIds(ops) && Mirrors(contents, index, After([], ops))
    ensures EntriesOf(contents, topic) == OnTopic(Remaining(ops), topic)
  {
    History(ops);
  }
}
