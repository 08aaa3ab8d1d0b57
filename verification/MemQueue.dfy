/** The in-memory work queue: a slice of jobs per topic, edited in place, and an id index. */
module MemQueue {
  import opened Values
  import opened FlatQueue
  import opened Slices

  // ----- A topic inside the flat list -------------------------------------------------

  lemma {:induction false} OnTopicConcat(x: seq<Job>, y: seq<Job>, topic: string)
    ensures OnTopic(x + y, topic) == OnTopic(x, topic) + OnTopic(y, topic)
  {
    if |y| == 0 {
      assert x + y == x;
    } else {
      assert (x + y)[..|x + y| - 1] == x + y[..|y| - 1];
      OnTopicConcat(x, y[..|y| - 1], topic);
    }
  }

  lemma {:induction false} OnTopicSplit(s: seq<Job>, p: nat, topic: string)
    requires p < |s|
    ensures OnTopic(s, topic) ==
            OnTopic(s[..p], topic) + (if s[p].topic == topic then [s[p]] else []) + OnTopic(s[p + 1..], topic)
  {
    assert s == s[..p + 1] + s[p + 1..] && s[..p + 1][..p] == s[..p];
    OnTopicConcat(s[..p + 1], s[p + 1..], topic);
  }

  /** Where the i-th job of a topic sits in the flat list. */
  lemma {:induction false} Locate(s: seq<Job>, topic: string, i: nat) returns (p: nat)
    requires i < |OnTopic(s, topic)|
    ensures p < |s| && s[p] == OnTopic(s, topic)[i] && s[p].topic == topic
    ensures |OnTopic(s[..p], topic)| == i
  {
    var n := |s| - 1;
    if i < |OnTopic(s[..n], topic)| {
      p := Locate(s[..n], topic, i);
      assert s[..n][..p] == s[..p];
    } else {
      p := n;
    }
  }

  /** An earlier job of the topic has an earlier topic index. */
  lemma {:induction false} Earlier(s: seq<Job>, p: nat, q: nat) returns (r: nat)
    requires q < p < |s| && s[q].topic == s[p].topic
    ensures r < |OnTopic(s[..p], s[p].topic)| <= |OnTopic(s, s[p].topic)|
    ensures OnTopic(s, s[p].topic)[r] == s[q]
  {
    var topic := s[p].topic;
    OnTopicSplit(s, p, topic);
    OnTopicSplit(s[..p], q, topic);
    r := |OnTopic(s[..p][..q], topic)|;
    assert OnTopic(s[..p], topic)[r] == s[q];
  }

  lemma {:induction false} RemoveFromTopic(s: seq<Job>, p: nat, topic: string)
    requires p < |s|
    ensures
      var i := |OnTopic(s[..p], topic)|;
      if s[p].topic == topic
      then i < |OnTopic(s, topic)| && OnTopic(Without(s, p), topic) == Without(OnTopic(s, topic), i)
      else OnTopic(Without(s, p), topic) == OnTopic(s, topic)
  {
    OnTopicSplit(s, p, topic);
    OnTopicConcat(s[..p], s[p + 1..], topic);
  }

  lemma {:induction false} UpdateOnTopic(s: seq<Job>, p: nat, j: Job, topic: string)
    requires p < |s| && j.topic == s[p].topic
    ensures
      var i := |OnTopic(s[..p], topic)|;
      if j.topic == topic
      then i < |OnTopic(s, topic)| && OnTopic(s[p := j], topic) == OnTopic(s, topic)[i := j]
      else OnTopic(s[p := j], topic) == OnTopic(s, topic)
  {
    OnTopicSplit(s, p, topic);
    OnTopicSplit(s[p := j], p, topic);
    assert s[p := j][..p] == s[..p] && s[p := j][p + 1..] == s[p + 1..];
  }

  // ----- What the topics and the index say about the flat list ------------------------

  ghost function EntriesOf(contents: map<string, seq<Job>>, topic: string): seq<Job> {
    if topic in contents then contents[topic] else []
  }

  /** The index maps exactly the live ids to their topics. */
  ghost predicate Indexes(index: map<string, string>, flat: seq<Job>) {
    && (forall i :: 0 <= i < |flat| ==> flat[i].id in index && index[flat[i].id] == flat[i].topic)
    && forall id :: id in index ==> exists i :: 0 <= i < |flat| && flat[i].id == id
  }

  /** Each topic holds the flat list filtered by that topic. */
  ghost predicate Mirrors(contents: map<string, seq<Job>>, index: map<string, string>, flat: seq<Job>) {
    && UniqueIds(flat)
    && Indexes(index, flat)
    && forall t :: EntriesOf(contents, t) == OnTopic(flat, t)
  }

  lemma {:induction false} MirrorEnqueue(contents: map<string, seq<Job>>, index: map<string, string>, flat: seq<Job>, job: Job)
    requires Mirrors(contents, index, flat) && job.id !in index
    ensures Mirrors(contents[job.topic := EntriesOf(contents, job.topic) + [job]], index[job.id := job.topic], flat + [job])
  {
    var contents', index', flat' := contents[job.topic := EntriesOf(contents, job.topic) + [job]], index[job.id := job.topic], flat + [job];
    assert flat'[..|flat'| - 1] == flat;
    forall t ensures EntriesOf(contents', t) == OnTopic(flat', t) {}
    forall id | id in index' ensures exists i :: 0 <= i < |flat'| && flat'[i].id == id {
      if id == job.id {
        assert flat'[|flat|].id == id;
      } else {
        var i :| 0 <= i < |flat| && flat[i].id == id;
        assert flat'[i].id == id;
      }
    }
  }

  lemma {:induction false} MirrorUpdate(contents: map<string, seq<Job>>, index: map<string, string>, flat: seq<Job>, topic: string, i: nat, p: nat, j: Job)
    requires Mirrors(contents, index, flat) && topic in contents && i < |contents[topic]|
    requires p < |flat| && flat[p].topic == topic && |OnTopic(flat[..p], topic)| == i
    requires j.id == flat[p].id && j.topic == topic
    ensures Mirrors(contents[topic := contents[topic][i := j]], index, flat[p := j])
  {
    var contents', flat' := contents[topic := contents[topic][i := j]], flat[p := j];
    IndexUpdate(index, flat, p, j);
    forall t ensures EntriesOf(contents', t) == OnTopic(flat', t) {
      UpdateOnTopic(flat, p, j, t);
    }
  }

  lemma {:induction false} IndexUpdate(index: map<string, string>, flat: seq<Job>, p: nat, j: Job)
    requires UniqueIds(flat) && Indexes(index, flat) && p < |flat| && j.id == flat[p].id && j.topic == flat[p].topic
    ensures UniqueIds(flat[p := j]) && Indexes(index, flat[p := j])
  {
    var flat' := flat[p := j];
    forall id | id in index ensures exists k :: 0 <= k < |flat'| && flat'[k].id == id {
      var k :| 0 <= k < |flat| && flat[k].id == id;
      assert flat'[k].id == id;
    }
  }

  lemma {:induction false} MirrorRemove(contents: map<string, seq<Job>>, index: map<string, string>, flat: seq<Job>, topic: string, i: nat, p: nat)
    requires Mirrors(contents, index, flat) && topic in contents && i < |contents[topic]|
    requires p < |flat| && flat[p].topic == topic && |OnTopic(flat[..p], topic)| == i
    ensures Mirrors(contents[topic := Without(contents[topic], i)], index - {flat[p].id}, Without(flat, p))
  {
    var contents', flat' := contents[topic := Without(contents[topic], i)], Without(flat, p);
    forall t ensures EntriesOf(contents', t) == OnTopic(flat', t) {
      RemoveFromTopic(flat, p, t);
    }
    IndexRemove(index, flat, p);
  }

  lemma {:induction false} IndexRemove(index: map<string, string>, flat: seq<Job>, p: nat)
    requires UniqueIds(flat) && Indexes(index, flat) && p < |flat|
    ensures UniqueIds(Without(flat, p)) && Indexes(index - {flat[p].id}, Without(flat, p))
  {
    var flat' := Without(flat, p);
    forall k | 0 <= k < |flat'| ensures flat'[k] == flat[Before(k, p)] {}
    forall i, k | 0 <= i < k < |flat'| ensures flat'[i].id != flat'[k].id {
      assert flat[Before(i, p)].id != flat[Before(k, p)].id;
    }
    forall k | 0 <= k < |flat'| ensures flat'[k].id != flat[p].id && flat'[k].id in index && index[flat'[k].id] == flat'[k].topic {
      assert Before(k, p) != p;
    }
    forall id | id in index && id != flat[p].id ensures exists k :: 0 <= k < |flat'| && flat'[k].id == id {
      StillThere(flat, p, id);
    }
  }

  lemma {:induction false} StillThere(flat: seq<Job>, p: nat, id: string)
    requires p < |flat| && flat[p].id != id && exists k :: 0 <= k < |flat| && flat[k].id == id
    ensures exists k :: 0 <= k < |Without(flat, p)| && Without(flat, p)[k].id == id
  {
    var k :| 0 <= k < |flat| && flat[k].id == id;
    assert Without(flat, p)[if k < p then k else k - 1].id == id;
  }

  /** Where the k-th job was before the one at p was removed. */
  function Before(k: nat, p: nat): nat {
    if k < p then k else k + 1
  }

  /** The first available entry of a topic is what the flat list delivers. */
  lemma {:induction false} FirstIs(flat: seq<Job>, topic: string, i: nat, now: int, leaseTimeout: int) returns (p: nat)
    requires i < |OnTopic(flat, topic)| && Available(OnTopic(flat, topic)[i], now)
    requires forall k :: 0 <= k < i ==> !Available(OnTopic(flat, topic)[k], now)
    ensures p < |flat| && flat[p] == OnTopic(flat, topic)[i] && |OnTopic(flat[..p], topic)| == i && flat[p].topic == topic
    ensures
      var job := Lease(flat[p], now + leaseTimeout);
      Step(flat, Dequeue(topic, now, leaseTimeout)) == (flat[p := job], Delivered(job))
  {
    p := Locate(flat, topic, i);
    forall q | 0 <= q < p ensures !Deliverable(flat[q], topic, now) {
      if flat[q].topic == topic {
        var r := Earlier(flat, p, q);
      }
    }
    var first := FirstAvailable(flat, topic, now);
    assert first == p;
  }

  lemma {:induction false} IndexOnTopic(flat: seq<Job>, p: nat)
    requires p < |flat|
    ensures |OnTopic(flat[..p], flat[p].topic)| < |OnTopic(flat, flat[p].topic)|
    ensures OnTopic(flat, flat[p].topic)[|OnTopic(flat[..p], flat[p].topic)|] == flat[p]
  {
    OnTopicSplit(flat, p, flat[p].topic);
  }

  lemma {:induction false} NoneAvailable(flat: seq<Job>, topic: string, now: int, leaseTimeout: int)
    requires forall k :: 0 <= k < |OnTopic(flat, topic)| ==> !Available(OnTopic(flat, topic)[k], now)
    ensures Step(flat, Dequeue(topic, now, leaseTimeout)) == (flat, NoJobs)
  {
    var p := FirstAvailable(flat, topic, now);
    if p < |flat| {
      IndexOnTopic(flat, p);
    }
  }

  /** The entry with an id is the job that the flat list acks and nacks. */
  lemma {:induction false} IdIs(flat: seq<Job>, topic: string, i: nat, id: string) returns (p: nat)
    requires UniqueIds(flat) && i < |OnTopic(flat, topic)| && OnTopic(flat, topic)[i].id == id
    ensures p < |flat| && flat[p] == OnTopic(flat, topic)[i] && |OnTopic(flat[..p], topic)| == i && flat[p].topic == topic
    ensures Step(flat, Ack(id)) == (Without(flat, p), Done)
    ensures forall retryAt :: Step(flat, Nack(id, retryAt)) == (flat[p := flat[p].(leaseExpiresAt := retryAt)], Done)
  {
    p := Locate(flat, topic, i);
    var q := Position(flat, id);
    assert q == p;
  }

  lemma {:induction false} UnknownId(index: map<string, string>, flat: seq<Job>, id: string)
    requires Indexes(index, flat) && id !in index
    ensures Step(flat, Ack(id)) == (flat, NotFound)
    ensures forall retryAt :: Step(flat, Nack(id, retryAt)) == (flat, NotFound)
  {
    var q := Position(flat, id);
  }

  /** An indexed id is found in the slice the index points at. */
  lemma {:induction false} IndexedJob(contents: map<string, seq<Job>>, index: map<string, string>, flat: seq<Job>, id: string)
    requires Mirrors(contents, index, flat) && id in index
    ensures index[id] in contents
    ensures exists i :: 0 <= i < |contents[index[id]]| && contents[index[id]][i].id == id
  {
    var p :| 0 <= p < |flat| && flat[p].id == id;
    IndexOnTopic(flat, p);
    assert EntriesOf(contents, flat[p].topic)[|OnTopic(flat[..p], flat[p].topic)|].id == id;
  }

  // ----- The queue --------------------------------------------------------------------

  class Queue {
    var topics: map<string, Slice<Job>>
    var index: map<string, string>

    /** The flat list this queue stands for, and what each topic's slice shows of it. */
    ghost var flat: seq<Job>
    ghost var contents: map<string, seq<Job>>
    /** The backing arrays in use, each of them by one topic. */
    ghost var owners: map<array<Job>, string>

    /** Each slice has a backing array of its own and shows its topic's contents. */
    ghost predicate Separate()
      reads this`topics, this`contents, this`owners, owners.Keys
    {
      && topics.Keys == contents.Keys
      && forall t :: t in topics ==> Owned(t) && Fits(topics[t]) && View(topics[t]) == contents[t]
    }

    ghost predicate Owned(topic: string)
      requires topic in topics
      reads this`topics, this`owners
    {
      topics[topic].buf in owners && owners[topics[topic].buf] == topic
    }

    ghost predicate Valid()
      reads this, owners.Keys
    {
      Separate() && Mirrors(contents, index, flat)
    }

    constructor ()
      ensures Valid() && flat == [] && owners == map[]
    {
      topics, index, flat, contents, owners := map[], map[], [], map[], map[];
    }

    /** So no two topics share a backing array. */
    lemma {:induction false} NoSharing(t: string, u: string)
      requires Separate() && t in topics && u in topics && t != u
      ensures topics[t].buf != topics[u].buf
    {
      assert Owned(t) && Owned(u);
    }

    // The three ways a topic's slice is edited; each leaves every other topic as it was.

    /** The slice of a topic; a missing one is Go's nil slice. */
    method SliceOf(topic: string) returns (entries: Slice<Job>)
      requires Separate()
      ensures if topic in topics then entries == topics[topic] else entries.len == 0 && fresh(entries.buf)
    {
      if topic in topics {
        entries := topics[topic];
      } else {
        var none := new Job[0];
        entries := Slice(none, 0);
      }
    }

    method AppendEntry(topic: string, job: Job, spare: nat)
      requires Separate()
      modifies this`topics, this`contents, this`owners, owners.Keys
      ensures Separate() && fresh(owners.Keys - old(owners.Keys))
      ensures contents == old(contents)[topic := EntriesOf(old(contents), topic) + [job]]
    {
      var entries := SliceOf(topic);
      entries := Append(entries, job, spare);
      topics := topics[topic := entries];
      contents := contents[topic := EntriesOf(contents, topic) + [job]];
      owners := owners[entries.buf := topic];
      assert View(entries) == contents[topic];
      forall t | t in topics && t != topic ensures Owned(t) && Fits(topics[t]) && View(topics[t]) == contents[t] {
        assert old(Owned(t) && Fits(topics[t]) && View(topics[t]) == contents[t]);
      }
    }

    method WriteEntry(topic: string, i: nat, job: Job)
      requires Separate() && topic in topics && i < topics[topic].len
      modifies this`contents, topics[topic].buf
      ensures Separate() && contents == old(contents)[topic := old(contents)[topic][i := job]]
    {
      topics[topic].buf[i] := job;
      contents := contents[topic := contents[topic][i := job]];
      assert View(topics[topic]) == contents[topic];
      forall t | t in topics && t != topic ensures Owned(t) && Fits(topics[t]) && View(topics[t]) == contents[t] {
        assert old(Owned(t) && Fits(topics[t]) && View(topics[t]) == contents[t] && Owned(topic));
      }
    }

    method RemoveEntry(topic: string, i: nat)
      requires Separate() && topic in topics && i < topics[topic].len
      modifies this`topics, this`contents, topics[topic].buf
      ensures Separate() && contents == old(contents)[topic := Without(old(contents)[topic], i)]
    {
      var entries := RemoveAt(topics[topic], i);
      topics := topics[topic := entries];
      contents := contents[topic := Without(contents[topic], i)];
    }

    // The same edits, together with the flat list they stand for.

    method AddJob(job: Job, spare: nat)
      requires Valid() && job.id !in index
      modifies this, owners.Keys
      ensures Valid() && fresh(owners.Keys - old(owners.Keys))
      ensures flat == old(flat) + [job]
    {
      MirrorEnqueue(contents, index, flat, job);
      AppendEntry(job.topic, job, spare);
      index := index[job.id := job.topic];
      flat := flat + [job];
    }

    method WriteJob(topic: string, i: nat, job: Job, ghost p: nat)
      requires Valid() && topic in topics && i < topics[topic].len
      requires p < |flat| && flat[p].topic == topic && |OnTopic(flat[..p], topic)| == i
      requires job.id == flat[p].id && job.topic == topic
      modifies this, owners.Keys
      ensures Valid() && owners == old(owners)
      ensures flat == old(flat)[p := job]
    {
      MirrorUpdate(contents, index, flat, topic, i, p, job);
      WriteEntry(topic, i, job);
      flat := flat[p := job];
    }

    method RemoveJob(topic: string, i: nat, id: string, ghost p: nat)
      requires Valid() && topic in topics && i < topics[topic].len
      requires p < |flat| && flat[p].topic == topic && |OnTopic(flat[..p], topic)| == i && flat[p].id == id
      modifies this, owners.Keys
      ensures Valid() && owners == old(owners)
      ensures flat == Without(old(flat), p)
    {
      MirrorRemove(contents, index, flat, topic, i, p);
      RemoveEntry(topic, i);
      index := index - {id};
      flat := Without(flat, p);
    }

    /** `spare` is the extra room Go's runtime leaves when it has to grow the slice. */
    method Enqueue(id: string, topic: string, payload: Bytes, now: int, spare: nat) returns (r: Outcome)
      requires Valid() && id !in index
      modifies this, owners.Keys
      ensures Valid() && fresh(owners.Keys - old(owners.Keys))
      ensures (flat, r) == Step(old(flat), FlatQueue.Enqueue(id, topic, payload, now))
    {
      var job := Job(id, topic, payload, ZERO_TIME, now, 0);
      AddJob(job, spare);
      r := Enqueued(id);
    }

    method Dequeue(topic: string, leaseTimeout: int, now: int) returns (r: Outcome)
      requires Valid()
      modifies this, owners.Keys
      ensures Valid() && owners == old(owners)
      ensures (flat, r) == Step(old(flat), FlatQueue.Dequeue(topic, now, leaseTimeout))
    {
      assert EntriesOf(contents, topic) == OnTopic(flat, topic);
      if topic in topics {
        var entries := topics[topic];
        var i := 0;
        while i < entries.len && !Available(entries.buf[i], now)
          invariant i <= entries.len
          invariant forall k :: 0 <= k < i ==> !Available(contents[topic][k], now)
        {
          i := i + 1;
        }
        if i < entries.len {
          ghost var p := FirstIs(flat, topic, i, now, leaseTimeout);
          var job := Lease(entries.buf[i], now + leaseTimeout);
          WriteJob(topic, i, job, p);
          r := Delivered(job);
          return;
        }
      }
      NoneAvailable(flat, topic, now, leaseTimeout);
      r := NoJobs;
    }

    method Ack(jobID: string) returns (r: Outcome)
      requires Valid()
      modifies this, owners.Keys
      ensures Valid() && owners == old(owners)
      ensures (flat, r) == Step(old(flat), FlatQueue.Ack(jobID))
    {
      r := NotFound;
      if jobID in index {
        IndexedJob(contents, index, flat, jobID);
        var topic := index[jobID];
        var i := FindId(topics[topic], jobID);
        assert i < topics[topic].len;  // so the search never falls through to "not found"
        ghost var p := IdIs(flat, topic, i, jobID);
        RemoveJob(topic, i, jobID, p);
        r := Done;
      } else {
        UnknownId(index, flat, jobID);
      }
    }

    method Nack(jobID: string, retryAt: int) returns (r: Outcome)
      requires Valid()
      modifies this, owners.Keys
      ensures Valid() && owners == old(owners)
      ensures (flat, r) == Step(old(flat), FlatQueue.Nack(jobID, retryAt))
    {
      r := NotFound;
      if jobID in index {
        IndexedJob(contents, index, flat, jobID);
        var topic := index[jobID];
        var i := FindId(topics[topic], jobID);
        assert i < topics[topic].len;  // so the search never falls through to "not found"
        ghost var p := IdIs(flat, topic, i, jobID);
        WriteJob(topic, i, topics[topic].buf[i].(leaseExpiresAt := retryAt), p);
        r := Done;
      } else {
        UnknownId(index, flat, jobID);
      }
    }

    /** The search loop of Ack and Nack: the first entry with the id, or the length. */
    method FindId(entries: Slice<Job>, id: string) returns (i: nat)
      requires Fits(entries)
      ensures i <= entries.len
      ensures i < entries.len ==> entries.buf[i].id == id
      ensures forall k :: 0 <= k < i ==> entries.buf[k].id != id
    {
      i := 0;
      while i < entries.len && entries.buf[i].id != id
        invariant i <= entries.len
        invariant forall k :: 0 <= k < i ==> entries.buf[k].id != id
      {
        i := i + 1;
      }
    }
  }
}
