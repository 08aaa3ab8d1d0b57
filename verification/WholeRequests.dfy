/** What one request does when nothing overtakes it, and that this is a run of the machine. */
module WholeRequests {
  import opened Model
  import opened StateSteps
  import opened ControlPlane
  import opened ServiceLayer

  /** What the client of a request that is over was answered. */
  function Reply(phase: Phase): Response
    requires Over(phase)
  {
    match phase
    case Finished(r) => r
    case Replayed(r) => r
    case Refused => REUSED
  }

  /** The store's answer to a keyed request, if it has one. */
  predicate Answerable(entries: map<string, Entry>, req: Request, x: Samples) {
    Keyed(req) && req.key in entries && x.checked - entries[req.key].createdAt <= TTL
  }

  /** The state, the recordings and the response after a whole request. */
  function Whole(s: State, entries: map<string, Entry>, req: Request, x: Samples): (State, map<string, Entry>, Response) {
    if Answerable(entries, req, x) then
      var entry := entries[req.key];
      (s, entries, if entry.hash == req.hash then entry.response else REUSED)
    else
      var (s', r) := Perform(s, req.call, x);
      (s', if Keyed(req) then entries[req.key := Entry(req.hash, r, x.saved)] else entries, r)
  }

  /** The request is about to run its handler. */
  ghost predicate Awaits(run: seq<Label>, t: nat, req: Request, x: Samples) {
    && t in At(run).threads && At(run).threads[t] == Thread(req, Executing)
    && At(run).clock <= x.executed <= x.logged <= x.saved
    && x.vmId != "" && x.vmId !in At(run).state.vms && x.eventId != ""
  }

  /** A run continued by steps of one request. */
  ghost predicate Continues(run: seq<Label>, longer: seq<Label>, t: nat) {
    Possible(longer) && run <= longer && forall k :: |run| <= k < |longer| ==> longer[k].thread == t
  }

  /** The machine's steps of a handler that nothing overtakes. */
  lemma {:induction false} Handled(run: seq<Label>, t: nat, req: Request, x: Samples) returns (longer: seq<Label>)
    requires Possible(run) && Awaits(run, t, req, x)
    ensures Continues(run, longer, t)
    ensures
      var p, q := At(run), At(longer);
      var (s, r) := Perform(p.state, req.call, x);
      && q.state == s && q.entries == p.entries && q.clock <= x.logged
      && t in q.threads && q.threads[t] == Thread(req, Done(req, r))
  {
    var p;
    longer, p := Extend(run, Label(t, x.executed, Execute(x.vmId, x.stamp)));
    if p.threads[t].phase.Logging? {
      longer, p := Extend(longer, Label(t, x.logged, Log(x.eventId, x.eventStamp)));
    }
  }

  /** Then, if it is keyed, it stores its recording. */
  lemma {:induction false} HandledAndSaved(run: seq<Label>, t: nat, req: Request, x: Samples) returns (longer: seq<Label>)
    requires Possible(run) && Awaits(run, t, req, x)
    ensures Continues(run, longer, t)
    ensures
      var p, q := At(run), At(longer);
      var (s, r) := Perform(p.state, req.call, x);
      && q.state == s && q.clock <= x.saved
      && q.entries == (if Keyed(req) then p.entries[req.key := Entry(req.hash, r, x.saved)] else p.entries)
      && t in q.threads && q.threads[t] == Thread(req, Finished(r))
  {
    var p;
    longer := Handled(run, t, req, x);
    if Keyed(req) {
      longer, p := Extend(longer, Label(t, x.saved, Save));
    }
  }

  lemma {:induction false} StoredAnew(entries: map<string, Entry>, key: string, e: Entry)
    ensures (entries - {key})[key := e] == entries[key := e]
  {
  }

  /** What a keyed request does that found an entry. */
  lemma {:induction false} FoundThenServed(run: seq<Label>, t: nat, req: Request, entry: Entry, x: Samples) returns (longer: seq<Label>)
    requires Possible(run) && t in At(run).threads && At(run).threads[t] == Thread(req, Found(entry))
    requires Keyed(req) && req.key in At(run).entries && At(run).entries[req.key] == entry
    requires At(run).clock <= x.checked && x.InOrder()
    requires x.vmId != "" && x.vmId !in At(run).state.vms && x.eventId != ""
    ensures Continues(run, longer, t) && At(longer).clock <= x.saved
    ensures t in At(longer).threads && At(longer).threads[t].req == req && Over(At(longer).threads[t].phase)
    ensures (At(longer).state, At(longer).entries, Reply(At(longer).threads[t].phase)) ==
            Whole(At(run).state, At(run).entries, req, x)
  {
    var p;
    longer, p := Extend(run, Label(t, x.checked, Check));
    if x.checked - entry.createdAt > TTL {
      longer, p := Extend(longer, Label(t, x.evicted, Evict));
      longer := HandledAndSaved(longer, t, req, x);
      StoredAnew(At(run).entries, req.key, At(longer).entries[req.key]);
    }
  }

  /**
   Whatever run of the machine comes before, a request that nothing overtakes can extend it by steps
   of its own alone, and they end in just that state, those recordings and that reply.
   */
  lemma {:induction false} WholeIsRun(run: seq<Label>, t: nat, req: Request, x: Samples) returns (longer: seq<Label>)
    requires Possible(run) && t !in At(run).threads && At(run).clock <= x.arrived && x.InOrder()
    requires x.vmId != "" && x.vmId !in At(run).state.vms && x.eventId != ""
    ensures Possible(longer) && Extends(run, longer, t, req) && At(longer).clock <= x.saved
    ensures (At(longer).state, At(longer).entries, Reply(At(longer).threads[t].phase)) ==
            Whole(At(run).state, At(run).entries, req, x)
  {
    var p;
    longer, p := Extend(run, Label(t, x.arrived, Arrive(req)));
    if Keyed(req) && req.key in At(run).entries {
      longer := FoundThenServed(longer, t, req, At(run).entries[req.key], x);
    } else {
      longer := HandledAndSaved(longer, t, req, x);
    }
  }
}
