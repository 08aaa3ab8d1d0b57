/** What the idempotency store promises over whole runs of the server. */
module IdempotencyRuns {
  import opened Values
  import opened Model
  import opened ControlPlane

  /** The thread of step k, just before it. */
  function ThreadAt(run: seq<Label>, k: nat): Thread
    requires k < |run| && run[k].thread in At(run[..k]).threads
  {
    At(run[..k]).threads[run[k].thread]
  }

  /** Step m stores this recording under this key, for a request whose handler gave that response. */
  ghost predicate SavedAt(run: seq<Label>, m: nat, key: string, e: Entry)
    requires m < |run|
  {
    && run[m].action.Save? && run[m].thread in At(run[..m]).threads
    && var th := ThreadAt(run, m);
    && th.phase.Responded? && th.req.key == key
    && e == Entry(th.req.hash, th.phase.response, run[m].now)
  }

  ghost predicate Saved(run: seq<Label>, key: string, e: Entry) {
    exists m :: 0 <= m < |run| && SavedAt(run, m, key, e)
  }

  lemma {:induction false} SavedLater(run: seq<Label>, key: string, e: Entry)
    requires |run| > 0 && Saved(run[..|run| - 1], key, e)
    ensures Saved(run, key, e)
  {
    var prior := run[..|run| - 1];
    var m :| 0 <= m < |prior| && SavedAt(prior, m, key, e);
    assert prior[..m] == run[..m];
    assert SavedAt(run, m, key, e);
  }

  // ----- Replays are authentic ----------------------------------------------------------

  /** Step x runs the handler of this request, and the handler gives this response. */
  ghost predicate GaveAt(run: seq<Label>, x: nat, t: nat, req: Request, response: Response)
    requires x < |run|
  {
    && run[x].thread == t && run[x].action.Execute?
    && t in At(run[..x]).threads && At(run[..x]).threads[t].req == req
    && Handle(At(run[..x]).state, req.call, run[x].action.id, run[x].action.stamp).1.1 == response
  }

  ghost predicate Gave(run: seq<Label>, t: nat, req: Request, response: Response) {
    exists x :: 0 <= x < |run| && GaveAt(run, x, t, req, response)
  }

  predicate HandlerRan(phase: Phase) {
    phase.Logging? || phase.Responded? || phase.Finished?
  }

  /** A handler's response is kept as it is by the steps that follow. */
  lemma {:induction false} RanStep(p: Plane, l: Label, t: nat)
    requires Enabled(p, l) && t in Next(p, l).threads && HandlerRan(Next(p, l).threads[t].phase)
    requires !(l.thread == t && l.action.Execute?)
    ensures t in p.threads && HandlerRan(p.threads[t].phase)
    ensures p.threads[t].req == Next(p, l).threads[t].req
    ensures p.threads[t].phase.response == Next(p, l).threads[t].phase.response
  {
  }

  lemma {:induction false} ExecuteStep(p: Plane, l: Label)
    requires Enabled(p, l) && l.action.Execute?
    ensures
      var before, after := p.threads[l.thread], Next(p, l).threads[l.thread];
      && HandlerRan(after.phase) && after.req == before.req
      && after.phase.response == Handle(p.state, before.req.call, l.action.id, l.action.stamp).1.1
  {
  }

  /** A request past its handler carries the response that the handler gave. */
  lemma {:induction false} RanMeansGave(run: seq<Label>, t: nat)
    requires Possible(run) && t in At(run).threads && HandlerRan(At(run).threads[t].phase)
    ensures Gave(run, t, At(run).threads[t].req, At(run).threads[t].phase.response)
  {
    if |run| > 0 {
      var prior, l := LastStep(run);
      var th := At(run).threads[t];
      if l.thread == t && l.action.Execute? {
        ExecuteStep(At(prior), l);
        assert GaveAt(run, |run| - 1, t, th.req, th.phase.response);
      } else {
        RanStep(At(prior), l, t);
        RanMeansGave(prior, t);
        var x :| 0 <= x < |prior| && GaveAt(prior, x, t, th.req, th.phase.response);
        assert prior[..x] == run[..x];
        assert GaveAt(run, x, t, th.req, th.phase.response);
      }
    }
  }

  /** The entries of a plane, and those its requests have looked up, are all in some set. */
  ghost predicate KnownBy(p: Plane, known: (string, Entry) -> bool) {
    && (forall key :: key in p.entries ==> known(key, p.entries[key]))
    && forall t :: t in p.threads && p.threads[t].phase.Found? ==> known(p.threads[t].req.key, p.threads[t].phase.entry)
  }

  /** Only a save brings in an entry. */
  lemma {:induction false} KnownStep(p: Plane, l: Label, known: (string, Entry) -> bool)
    requires Enabled(p, l) && KnownBy(p, known)
    requires l.action.Save? ==>
      var th := p.threads[l.thread];
      known(th.req.key, Entry(th.req.hash, th.phase.response, l.now))
    ensures KnownBy(Next(p, l), known)
  {
  }

  /** Every entry of the store, and every entry a request has looked up, was saved by some step. */
  lemma {:induction false} EntriesWereSaved(run: seq<Label>)
    requires Possible(run)
    ensures KnownBy(At(run), (key, e) => Saved(run, key, e))
  {
    if |run| > 0 {
      var prior, l := LastStep(run);
      EntriesWereSaved(prior);
      var known := (key, e) => Saved(run, key, e);
      assert KnownBy(At(prior), known) by {
        forall key, e | Saved(prior, key, e) ensures known(key, e) { SavedLater(run, key, e); }
      }
      if l.action.Save? {
        var th := At(prior).threads[l.thread];
        assert SavedAt(run, |run| - 1, th.req.key, Entry(th.req.hash, th.phase.response, l.now));
      }
      KnownStep(At(prior), l, known);
    }
  }

  /** What a step stored, an earlier step of that request got from its handler. */
  lemma {:induction false} SavedWasGiven(run: seq<Label>, m: nat, key: string, e: Entry) returns (x: nat)
    requires Possible(run) && m < |run| && SavedAt(run, m, key, e)
    ensures x < m && GaveAt(run, x, run[m].thread, ThreadAt(run, m).req, e.response)
  {
    var prior, th := run[..m], ThreadAt(run, m);
    PrefixPossible(run, m);
    RanMeansGave(prior, run[m].thread);
    x :| 0 <= x < m && GaveAt(prior, x, run[m].thread, th.req, e.response);
    assert prior[..x] == run[..x];
  }

  /**
   In every interleaving, overlapping requests on one key included, a replayed response is what
   the handler of a request with the same key and body hash returned when it was executed, and it
   was stored at most 24 hours before the replay's expiry check.
   */
  lemma {:induction false} ReplayIsAuthentic(run: seq<Label>, k: nat)
    requires Possible(run) && k < |run| && run[k].action.Check?
    requires run[k].thread in At(run[..k + 1]).threads && At(run[..k + 1]).threads[run[k].thread].phase.Replayed?
    ensures
      var th := At(run[..k + 1]).threads[run[k].thread];
      exists x, m :: 0 <= x < m < k && run[k].now - run[m].now <= TTL
        && SavedAt(run, m, th.req.key, Entry(th.req.hash, th.phase.response, run[m].now))
        && GaveAt(run, x, run[m].thread, ThreadAt(run, m).req, th.phase.response)
  {
    StepAt(run, k);
    PrefixPossible(run, k);
    var prior, l := run[..k], run[k];
    assert EnabledAt(run, k);
    EntriesWereSaved(prior);
    var before := At(prior).threads[l.thread];
    var m :| 0 <= m < |prior| && SavedAt(prior, m, before.req.key, before.phase.entry);
    assert prior[..m] == run[..m];
    assert SavedAt(run, m, before.req.key, before.phase.entry);
    var x := SavedWasGiven(run, m, before.req.key, before.phase.entry);
  }

  // ----- Which requests the store answers --------------------------------------------------

  /** The latest recording under the key that no eviction has dropped. */
  function Stored(run: seq<Label>, key: string): Option<Entry> {
    if |run| == 0 then None
    else
      var prior, l := run[..|run| - 1], run[|run| - 1];
      if l.thread !in At(prior).threads || At(prior).threads[l.thread].req.key != key then Stored(prior, key)
      else
        var th := At(prior).threads[l.thread];
        if l.action.Save? && th.phase.Responded? then Some(Entry(th.req.hash, th.phase.response, l.now))
        else if l.action.Evict? then None
        else Stored(prior, key)
  }

  function HeldUnder(entries: map<string, Entry>, key: string): Option<Entry> {
    if key in entries then Some(entries[key]) else None
  }

  lemma {:induction false} EntryStep(p: Plane, l: Label, key: string)
    requires Enabled(p, l)
    ensures HeldUnder(Next(p, l).entries, key) ==
            if l.action.Save? && p.threads[l.thread].req.key == key then
              Some(Entry(p.threads[l.thread].req.hash, p.threads[l.thread].phase.response, l.now))
            else if l.action.Evict? && p.threads[l.thread].req.key == key then None
            else HeldUnder(p.entries, key)
  {
  }

  /** In every interleaving, that is what the store holds. */
  lemma {:induction false} StoredIsHeld(run: seq<Label>, key: string)
    requires Possible(run)
    ensures Stored(run, key) == HeldUnder(At(run).entries, key)
  {
    if |run| > 0 {
      var prior, l := LastStep(run);
      StoredIsHeld(prior, key);
      EntryStep(At(prior), l, key);
    }
  }

  /** A request waits as long as it takes no step. */
  lemma {:induction false} Waits(run: seq<Label>, t: nat, from: nat, end: nat)
    requires Possible(run) && from <= end <= |run| && t in At(run[..from]).threads
    requires forall x :: from <= x < end ==> run[x].thread != t
    ensures t in At(run[..end]).threads && At(run[..end]).threads[t] == At(run[..from]).threads[t]
    decreases end
  {
    if from < end {
      Waits(run, t, from, end - 1);
      StepAt(run, end - 1);
      assert EnabledAt(run, end - 1);
      assert run[end - 1].thread != t;
    }
  }

  lemma {:induction false} OverStays(run: seq<Label>, t: nat, k: nat)
    requires Possible(run) && k < |run| && t in At(run[..k]).threads && Over(At(run[..k]).threads[t].phase)
    ensures t in At(run[..k + 1]).threads && Over(At(run[..k + 1]).threads[t].phase) && run[k].thread != t
  {
    assert EnabledAt(run, k);
    StepAt(run, k);
  }

  /** A request that is over takes no step. */
  lemma {:induction false} OverForGood(run: seq<Label>, t: nat, from: nat, end: nat)
    requires Possible(run) && from <= end <= |run|
    requires t in At(run[..from]).threads && Over(At(run[..from]).threads[t].phase)
    ensures t in At(run[..end]).threads && Over(At(run[..end]).threads[t].phase)
    ensures forall x :: from <= x < end ==> run[x].thread != t
    decreases end
  {
    if from < end {
      OverForGood(run, t, from, end - 1);
      OverStays(run, t, end - 1);
    }
  }

  /** The handler of this request runs at some step. */
  ghost predicate Executed(run: seq<Label>, t: nat) {
    exists x :: 0 <= x < |run| && run[x].thread == t && run[x].action.Execute?
  }

  /** A request takes no step before it arrives. */
  lemma {:induction false} ArrivesFirst(run: seq<Label>, a: nat, x: nat)
    requires Possible(run) && x < a < |run| && run[a].action.Arrive?
    ensures run[x].thread != run[a].thread
  {
    assert EnabledAt(run, a) && EnabledAt(run, x);
    if run[x].thread == run[a].thread {
      StepAt(run, x);
      NeverLeaves(run, run[a].thread, x + 1, a);
    }
  }

  /** What a keyed request meets when it arrives at a, still so when it moves on at c. */
  lemma {:induction false} FoundOnArrival(run: seq<Label>, a: nat, c: nat)
    requires Possible(run) && a < c < |run| && run[a].action.Arrive? && Keyed(run[a].action.req)
    requires run[c].thread == run[a].thread && forall x :: a < x < c ==> run[x].thread != run[a].thread
    ensures EnabledAt(run, c) && run[c].thread in At(run[..c]).threads
    ensures
      var req := run[a].action.req;
      ThreadAt(run, c) == Thread(req, match Stored(run[..a], req.key) case Some(e) => Found(e) case None => Executing)
  {
    assert EnabledAt(run, a) && EnabledAt(run, c);
    PrefixPossible(run, a);
    StoredIsHeld(run[..a], run[a].action.req.key);
    StepAt(run, a);
    Waits(run, run[a].thread, a + 1, c);
  }

  /** The recording under its key is not too old for a request that arrives at a and moves on at c. */
  predicate InTime(run: seq<Label>, a: nat, c: nat)
    requires a < |run| && c < |run| && run[a].action.Arrive?
  {
    var stored := Stored(run[..a], run[a].action.req.key);
    stored.Some? && run[c].now - stored.value.createdAt <= TTL
  }

  /**
   In every interleaving: a keyed request that arrives at a, and takes its next step at c, is
   answered by the store if and only if the store had a recording under its key at a, no more than
   24 hours old at c. Then the body hash decides between the recorded response and a 409, and the
   request's handler never runs. If not, it goes on to run it: at c, or after evicting.
   */
  lemma {:induction false} AnsweredExactly(run: seq<Label>, a: nat, c: nat)
    requires Possible(run) && a < c < |run| && run[a].action.Arrive? && Keyed(run[a].action.req)
    requires run[c].thread == run[a].thread && forall x :: a < x < c ==> run[x].thread != run[a].thread
    ensures run[c].thread in At(run[..c + 1]).threads
    ensures
      var req, stored := run[a].action.req, Stored(run[..a], run[a].action.req.key);
      var phase := At(run[..c + 1]).threads[run[c].thread].phase;
      && (phase.Replayed? || phase.Refused? <==> InTime(run, a, c))
      && (InTime(run, a, c) ==>
            phase == if req.hash == stored.value.hash then Replayed(stored.value.response) else Refused)
      && (InTime(run, a, c) ==> !Executed(run, run[c].thread))
      && (!InTime(run, a, c) ==> if stored.None? then run[c].action.Execute? else phase.Evicting?)
  {
    FoundOnArrival(run, a, c);
    StepAt(run, c);
    if InTime(run, a, c) {
      AnsweredNeverExecutes(run, a, c);
    }
  }

  lemma {:induction false} AnsweredNeverExecutes(run: seq<Label>, a: nat, c: nat)
    requires Possible(run) && a < c < |run| && run[a].action.Arrive? && run[c].action.Check?
    requires run[c].thread == run[a].thread && forall x :: a < x < c ==> run[x].thread != run[a].thread
    requires run[c].thread in At(run[..c + 1]).threads && Over(At(run[..c + 1]).threads[run[c].thread].phase)
    ensures !Executed(run, run[c].thread)
  {
    forall x | 0 <= x < |run| && run[x].thread == run[c].thread ensures !run[x].action.Execute? {
      if x < a {
        ArrivesFirst(run, a, x);
      } else if x > c {
        OverForGood(run, run[c].thread, c + 1, |run|);
      }
    }
  }

  // ----- The window of a recording ---------------------------------------------------------

  predicate InFlight(th: Thread) {
    Keyed(th.req) && !Over(th.phase)
  }

  /** Another request with this key is under way at step k. */
  ghost predicate Overlaps(run: seq<Label>, k: nat, key: string, t: nat)
    requires k < |run|
  {
    var threads := At(run[..k]).threads;
    t != run[k].thread && t in threads && InFlight(threads[t]) && threads[t].req.key == key
  }

  ghost predicate Alone(run: seq<Label>, k: nat, key: string)
    requires k < |run|
  {
    forall t :: !Overlaps(run, k, key, t)
  }

  /** Until its window is over, the store holds this recording, and all who are under way on the key have found it. */
  ghost predicate Guarded(p: Plane, key: string, e: Entry) {
    p.clock <= e.createdAt + TTL ==>
      && key in p.entries && p.entries[key] == e
      && forall t :: t in p.threads && InFlight(p.threads[t]) && p.threads[t].req.key == key ==> p.threads[t].phase == Found(e)
  }

  /** Only keyed requests get into the phases that touch the store. */
  ghost predicate UnkeyedStayOut(p: Plane) {
    forall t :: t in p.threads && (p.threads[t].phase.Found? || p.threads[t].phase.Evicting? || p.threads[t].phase.Responded?)
      ==> Keyed(p.threads[t].req)
  }

  lemma {:induction false} UnkeyedAlwaysStayOut(run: seq<Label>)
    requires Possible(run)
    ensures UnkeyedStayOut(At(run))
  {
    if |run| > 0 {
      var prior, l := LastStep(run);
      UnkeyedAlwaysStayOut(prior);
    }
  }

  lemma {:induction false} GuardedStep(p: Plane, l: Label, key: string, e: Entry)
    requires Enabled(p, l) && UnkeyedStayOut(p) && Guarded(p, key, e)
    ensures Guarded(Next(p, l), key, e)
  {
    if l.now <= e.createdAt + TTL && l.thread in p.threads && InFlight(p.threads[l.thread]) && p.threads[l.thread].req.key == key {
      assert p.threads[l.thread].phase == Found(e);
    }
  }

  lemma {:induction false} GuardedOnceSaved(run: seq<Label>, m: nat, key: string, e: Entry)
    requires Possible(run) && m < |run| && SavedAt(run, m, key, e) && Alone(run, m, key)
    ensures Guarded(At(run[..m + 1]), key, e)
  {
    StepAt(run, m);
    var p := At(run[..m + 1]);
    forall t | t in p.threads && InFlight(p.threads[t]) ensures p.threads[t].req.key != key {
      assert !Overlaps(run, m, key, t);
    }
  }

  lemma {:induction false} GuardedNext(run: seq<Label>, k: nat, key: string, e: Entry)
    requires Possible(run) && k < |run| && Guarded(At(run[..k]), key, e)
    ensures Guarded(At(run[..k + 1]), key, e)
  {
    PrefixPossible(run, k);
    UnkeyedAlwaysStayOut(run[..k]);
    assert EnabledAt(run, k);
    StepAt(run, k);
    GuardedStep(At(run[..k]), run[k], key, e);
  }

  lemma {:induction false} SavedIsGuarded(run: seq<Label>, m: nat, key: string, e: Entry, n: nat)
    requires Possible(run) && m < n <= |run| && SavedAt(run, m, key, e) && Alone(run, m, key)
    ensures Guarded(At(run[..n]), key, e)
    decreases n
  {
    if n == m + 1 {
      GuardedOnceSaved(run, m, key, e);
    } else {
      SavedIsGuarded(run, m, key, e, n - 1);
      GuardedNext(run, n - 1, key, e);
    }
  }

  /**
   A recording that is stored while no other request with its key is under way stays the store's
   entry until more than 24 hours have passed, however requests interleave after that.
   */
  lemma {:induction false} SavedIsRemembered(run: seq<Label>, m: nat, key: string, e: Entry, n: nat)
    requires Possible(run) && m < n <= |run| && SavedAt(run, m, key, e) && Alone(run, m, key)
    ensures At(run[..n]).clock > e.createdAt + TTL || (key in At(run[..n]).entries && At(run[..n]).entries[key] == e)
  {
    SavedIsGuarded(run, m, key, e, n);
  }

  /**
   A handler runs under a key within 24 hours of a recording under it only if some other request
   with that key was under way when the recording was stored.
   */
  lemma {:induction false} RepeatNeedsOverlap(run: seq<Label>, m: nat, key: string, e: Entry, k: nat)
    requires Possible(run) && m < k < |run| && SavedAt(run, m, key, e)
    requires run[k].action.Execute? && run[k].thread in At(run[..k]).threads
    requires Keyed(ThreadAt(run, k).req) && ThreadAt(run, k).req.key == key
    requires run[k].now <= e.createdAt + TTL
    ensures exists t :: Overlaps(run, m, key, t)
  {
    assert EnabledAt(run, k);
    if Alone(run, m, key) {
      SavedIsGuarded(run, m, key, e, k);
    }
  }

  /**
   A retry within the window of a recording that was stored with no other request on its key under
   way is answered by the store: with the recorded status and body when its body hash is the same,
   and with a 409 when it is not. Its handler never runs.
   */
  lemma {:induction false} RetryWithinWindow(run: seq<Label>, m: nat, a: nat, c: nat, key: string, e: Entry)
    requires Possible(run) && m < a < c < |run| && SavedAt(run, m, key, e) && Alone(run, m, key)
    requires run[a].action.Arrive? && Keyed(run[a].action.req) && run[a].action.req.key == key
    requires run[c].thread == run[a].thread && forall x :: a < x < c ==> run[x].thread != run[a].thread
    requires run[c].now <= e.createdAt + TTL
    ensures run[a].thread in At(run[..c + 1]).threads
    ensures At(run[..c + 1]).threads[run[a].thread].phase ==
            if run[a].action.req.hash == e.hash then Replayed(e.response) else Refused
    ensures !Executed(run, run[a].thread)
  {
    assert EnabledAt(run, c);
    ClockRises(run, a, c);
    SavedIsRemembered(run, m, key, e, a);
    PrefixPossible(run, a);
    StoredIsHeld(run[..a], key);
    AnsweredExactly(run, a, c);
  }

  // ----- Keys that never overlap ------------------------------------------------------------

  /** No other request with this key is under way. */
  ghost predicate KeyIdle(p: Plane, key: string) {
    forall t :: t in p.threads && InFlight(p.threads[t]) ==> p.threads[t].req.key != key
  }

  ghost predicate ArrivesAlone(run: seq<Label>, k: nat)
    requires k < |run|
  {
    run[k].action.Arrive? && Keyed(run[k].action.req) ==> KeyIdle(At(run[..k]), run[k].action.req.key)
  }

  /** Requests with the same key never overlap. */
  ghost predicate SameKeySerial(run: seq<Label>) {
    forall k :: 0 <= k < |run| ==> ArrivesAlone(run, k)
  }

  lemma {:induction false} SerialPrefix(run: seq<Label>, n: nat)
    requires SameKeySerial(run) && n <= |run|
    ensures SameKeySerial(run[..n])
  {
    forall k | 0 <= k < n ensures ArrivesAlone(run[..n], k) {
      assert run[..n][..k] == run[..k];
      assert ArrivesAlone(run, k);
    }
  }

  ghost predicate KeysDiffer(p: Plane) {
    forall t, u :: t in p.threads && u in p.threads && t != u && InFlight(p.threads[t]) && InFlight(p.threads[u]) ==>
      p.threads[t].req.key != p.threads[u].req.key
  }

  /** A step brings no second request of a key into flight. */
  lemma {:induction false} StillInFlight(p: Plane, l: Label)
    requires Enabled(p, l)
    ensures forall u :: u != l.thread ==>
      (u in Next(p, l).threads <==> u in p.threads) && (u in p.threads ==> Next(p, l).threads[u] == p.threads[u])
    ensures l.action.Arrive? ==> Next(p, l).threads[l.thread].req == l.action.req
    ensures !l.action.Arrive? && InFlight(Next(p, l).threads[l.thread]) ==>
      InFlight(p.threads[l.thread]) && Next(p, l).threads[l.thread].req == p.threads[l.thread].req
  {
  }

  lemma {:induction false} KeysAlwaysDiffer(run: seq<Label>)
    requires Possible(run) && SameKeySerial(run)
    ensures KeysDiffer(At(run))
  {
    if |run| > 0 {
      var prior, l := LastStep(run);
      SerialPrefix(run, |prior|);
      KeysAlwaysDiffer(prior);
      assert ArrivesAlone(run, |prior|);
      StillInFlight(At(prior), l);
    }
  }

  /** In such a run a request is always alone on its key. */
  lemma {:induction false} AloneThroughout(run: seq<Label>, k: nat)
    requires Possible(run) && SameKeySerial(run) && k < |run|
    requires run[k].thread in At(run[..k]).threads && InFlight(ThreadAt(run, k))
    ensures Alone(run, k, ThreadAt(run, k).req.key)
  {
    PrefixPossible(run, k);
    SerialPrefix(run, k);
    KeysAlwaysDiffer(run[..k]);
  }

  /** Phases of a request whose handler ran but whose recording is not stored yet. */
  predicate Unsaved(th: Thread) {
    th.phase.Logging? || th.phase.Responded?
  }

  /** A keyed request leaves these phases only by saving. */
  lemma {:induction false} SaveBetween(run: seq<Label>, t: nat, from: nat, end: nat) returns (m: nat)
    requires Possible(run) && from <= end <= |run|
    requires t in At(run[..from]).threads && Unsaved(At(run[..from]).threads[t]) && Keyed(At(run[..from]).threads[t].req)
    requires t in At(run[..end]).threads ==> !Unsaved(At(run[..end]).threads[t])
    ensures from <= m < end && run[m].thread == t
    ensures exists e :: SavedAt(run, m, At(run[..from]).threads[t].req.key, e) && e.createdAt == run[m].now
    decreases end - from
  {
    assert from < end;
    StepAt(run, from);
    var p, l := At(run[..from]), run[from];
    assert EnabledAt(run, from);
    if l.thread == t && l.action.Save? {
      m := from;
      assert SavedAt(run, m, p.threads[t].req.key, Entry(p.threads[t].req.hash, p.threads[t].phase.response, l.now));
    } else {
      m := SaveBetween(run, t, from + 1, end);
    }
  }

  lemma {:induction false} RanKept(p: Plane, l: Label, t: nat)
    requires Enabled(p, l) && t in p.threads && HandlerRan(p.threads[t].phase)
    ensures t in Next(p, l).threads && HandlerRan(Next(p, l).threads[t].phase)
    ensures Next(p, l).threads[t].req == p.threads[t].req
  {
  }

  lemma {:induction false} RanNext(run: seq<Label>, t: nat, k: nat)
    requires Possible(run) && k < |run| && t in At(run[..k]).threads && HandlerRan(At(run[..k]).threads[t].phase)
    ensures t in At(run[..k + 1]).threads && HandlerRan(At(run[..k + 1]).threads[t].phase)
    ensures At(run[..k + 1]).threads[t].req == At(run[..k]).threads[t].req
  {
    assert EnabledAt(run, k);
    RanKept(At(run[..k]), run[k], t);
    StepAt(run, k);
  }

  /** Once its handler has run, a request never executes again. */
  lemma {:induction false} RanStays(run: seq<Label>, t: nat, from: nat, end: nat)
    requires Possible(run) && from <= end <= |run|
    requires t in At(run[..from]).threads && HandlerRan(At(run[..from]).threads[t].phase)
    ensures t in At(run[..end]).threads && HandlerRan(At(run[..end]).threads[t].phase)
    ensures At(run[..end]).threads[t].req == At(run[..from]).threads[t].req
    decreases end
  {
    if from < end {
      RanStays(run, t, from, end - 1);
      RanNext(run, t, end - 1);
    }
  }

  /** A keyed handler leaves its request with a recording still to store. */
  lemma {:induction false} HandlerRunsAt(run: seq<Label>, i: nat)
    requires Possible(run) && i < |run| && run[i].action.Execute?
    requires run[i].thread in At(run[..i]).threads && Keyed(ThreadAt(run, i).req)
    ensures
      var threads := At(run[..i + 1]).threads;
      && run[i].thread in threads
      && threads[run[i].thread].req == ThreadAt(run, i).req
      && Unsaved(threads[run[i].thread])
  {
    StepAt(run, i);
    assert EnabledAt(run, i);
  }

  /**
   When requests with the same key do not overlap, any two executions of handlers under one key
   are more than 24 hours apart: the first stored its recording, and the second started more
   than 24 hours after that.
   */
  lemma {:induction false} ExecutionsAreSpaced(run: seq<Label>, i: nat, k: nat)
    requires Possible(run) && SameKeySerial(run) && i < k < |run|
    requires run[i].action.Execute? && run[k].action.Execute?
    requires run[i].thread in At(run[..i]).threads && run[k].thread in At(run[..k]).threads
    requires Keyed(ThreadAt(run, i).req) && Keyed(ThreadAt(run, k).req)
    requires ThreadAt(run, i).req.key == ThreadAt(run, k).req.key
    ensures exists m :: i < m < k && run[m].thread == run[i].thread && run[m].action.Save?
                        && run[k].now > run[m].now + TTL
  {
    var t, key := run[i].thread, ThreadAt(run, i).req.key;
    HandlerRunsAt(run, i);
    RanStays(run, t, i + 1, k);
    assert EnabledAt(run, k);
    AloneThroughout(run, k);
    assert !Overlaps(run, k, key, t);
    var m := SaveBetween(run, t, i + 1, k);
    var e :| SavedAt(run, m, key, e) && e.createdAt == run[m].now;
    RanStays(run, t, i + 1, m);
    AloneThroughout(run, m);
    if run[k].now <= e.createdAt + TTL {
      RepeatNeedsOverlap(run, m, key, e, k);
    }
  }

  // ----- Overlapping requests on one key ------------------------------------------------------

  /** Overlapping requests on one key may both execute: each looks up before the other stores. */
  lemma OverlapMayExecuteTwice()
    ensures
      var req := Request("key", [], CreateVM(VMSpec([])));
      var run := [
        Label(1, 1, Arrive(req)),
        Label(2, 1, Arrive(req)),
        Label(1, 1, Execute("a", 1)),
        Label(2, 1, Execute("b", 1))];
      Possible(run) && At(run).state.vms.Keys == {"a", "b"}
  {
    var req := Request("key", [], CreateVM(VMSpec([])));
    var p0: seq<Label> := [];
    var l1, l2, l3, l4 := Label(1, 1, Arrive(req)), Label(2, 1, Arrive(req)), Label(1, 1, Execute("a", 1)), Label(2, 1, Execute("b", 1));
    PossibleExtend(p0, l1);
    assert At(p0 + [l1]).threads == map[1 := Thread(req, Executing)];
    PossibleExtend(p0 + [l1], l2);
    assert At(p0 + [l1] + [l2]).threads == map[1 := Thread(req, Executing), 2 := Thread(req, Executing)];
    PossibleExtend(p0 + [l1] + [l2], l3);
    assert At(p0 + [l1] + [l2] + [l3]).state.vms.Keys == {"a"};
    PossibleExtend(p0 + [l1] + [l2] + [l3], l4);
    assert p0 + [l1] + [l2] + [l3] + [l4] == [l1, l2, l3, l4];
  }

  function Creation(): Request {
    Request("key", [], CreateVM(VMSpec([])))
  }

  /** When the first recording has just expired. */
  const LATE: int := TTL + 2

  /** The first request of the key is served whole, at time 1. */
  lemma FirstIsServed() returns (run: seq<Label>)
    ensures Possible(run) && At(run).clock == 1 && At(run).state.vms.Keys == {"a"}
    ensures At(run).entries.Keys == {"key"} && At(run).entries["key"].createdAt == 1
    ensures At(run).threads.Keys == {1}
  {
    var p;
    run := [];
    run, p := Extend(run, Label(1, 1, Arrive(Creation())));
    run, p := Extend(run, Label(1, 1, Execute("a", 1)));
    run, p := Extend(run, Label(1, 1, Log("e1", 1)));
    run, p := Extend(run, Label(1, 1, Save));
  }

  /** More than 24 hours later two more both find that recording expired. */
  lemma TwoFindItExpired() returns (run: seq<Label>)
    ensures Possible(run) && At(run).clock == LATE && At(run).state.vms.Keys == {"a"}
    ensures At(run).threads.Keys == {1, 2, 3}
    ensures At(run).threads[2] == Thread(Creation(), Evicting) && At(run).threads[3] == Thread(Creation(), Evicting)
  {
    var p;
    run := FirstIsServed();
    run, p := Extend(run, Label(2, LATE, Arrive(Creation())));
    run, p := Extend(run, Label(3, LATE, Arrive(Creation())));
    run, p := Extend(run, Label(2, LATE, Check));
    run, p := Extend(run, Label(3, LATE, Check));
  }

  /** One of them evicts it, executes and stores a new recording. */
  lemma OneRecordsAgain() returns (run: seq<Label>, e: Entry)
    ensures Possible(run) && At(run).clock == LATE && At(run).state.vms.Keys == {"a", "b"}
    ensures Saved(run, "key", e) && e.createdAt == LATE
    ensures At(run).threads.Keys == {1, 2, 3} && At(run).threads[3] == Thread(Creation(), Evicting)
  {
    var p;
    run := TwoFindItExpired();
    run, p := Extend(run, Label(2, LATE, Evict));
    run, p := Extend(run, Label(2, LATE, Execute("b", LATE)));
    run, p := Extend(run, Label(2, LATE, Log("e2", LATE)));
    var m, th := |run|, p.threads[2];
    var longer := run;
    longer, p := Extend(run, Label(2, LATE, Save));
    e := Entry(th.req.hash, th.phase.response, LATE);
    assert longer[..m] == run;
    assert SavedAt(longer, m, "key", e);
    run := longer;
  }

  /** The other's late eviction then drops the new recording. */
  lemma NewRecordingIsDropped() returns (run: seq<Label>, e: Entry)
    ensures Possible(run) && At(run).clock == LATE && At(run).state.vms.Keys == {"a", "b"}
    ensures Saved(run, "key", e) && e.createdAt == LATE
    ensures At(run).threads.Keys == {1, 2, 3} && "key" !in At(run).entries
  {
    var p;
    var recorded;
    recorded, e := OneRecordsAgain();
    run, p := Extend(recorded, Label(3, LATE, Evict));
    assert run[..|run| - 1] == recorded;
    SavedLater(run, "key", e);
  }

  /** So a request that arrives after a recording was stored, and at its very time, can execute again. */
  lemma LateEvictionRepeats()
    ensures exists run, a, e ::
      && Possible(run) && 0 <= a < |run| && run[a] == Label(4, LATE, Arrive(Creation()))
      && Saved(run[..a], "key", e) && e.createdAt == LATE
      && Executed(run, 4) && At(run).state.vms.Keys == {"a", "b", "c"}
  {
    var p;
    var dropped, e := NewRecordingIsDropped();
    var arrived, run;
    arrived, p := Extend(dropped, Label(4, LATE, Arrive(Creation())));
    run, p := Extend(arrived, Label(4, LATE, Execute("c", LATE)));
    assert run[..|dropped|] == dropped && run[|dropped|] == Label(4, LATE, Arrive(Creation()));
    assert run[|arrived|].thread == 4;
  }
}
