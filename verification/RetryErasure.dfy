/** Retries answered by the idempotency store leave no trace on the control plane. */
module RetryErasure {
  import opened ControlPlane

  /** Phases reached by reading only. */
  predicate ReadOnly(phase: Phase) {
    phase.Found? || phase.Replayed? || phase.Refused?
  }

  /** The requests that the store answered itself. */
  function Answered(p: Plane): set<nat> {
    set t | t in p.threads && (p.threads[t].phase.Replayed? || p.threads[t].phase.Refused?)
  }

  /** The run without the steps of some requests. */
  function Erase(run: seq<Label>, gone: set<nat>): seq<Label> {
    if |run| == 0 then []
    else
      var last := run[|run| - 1];
      Erase(run[..|run| - 1], gone) + if last.thread in gone then [] else [last]
  }

  ghost predicate OnlyRead(p: Plane, gone: set<nat>) {
    forall t :: t in gone && t in p.threads ==> ReadOnly(p.threads[t].phase)
  }

  /** The same server, not knowing about some requests. */
  ghost predicate Unaware(q: Plane, p: Plane, gone: set<nat>) {
    q.state == p.state && q.entries == p.entries && q.threads == p.threads - gone && q.clock <= p.clock
  }

  lemma {:induction false} OnlyReadBefore(p: Plane, l: Label, gone: set<nat>)
    requires Enabled(p, l) && OnlyRead(Next(p, l), gone)
    ensures OnlyRead(p, gone)
    ensures l.thread in gone ==> l.action.Arrive? || l.action.Check?
  {
    forall t | t in gone && t in p.threads ensures ReadOnly(p.threads[t].phase) {
      assert ReadOnly(Next(p, l).threads[t].phase);
    }
    if l.thread in gone {
      assert ReadOnly(Next(p, l).threads[l.thread].phase);
    }
  }

  lemma {:induction false} UnawareStep(q: Plane, p: Plane, l: Label, gone: set<nat>)
    requires Enabled(p, l) && Unaware(q, p, gone) && l.thread !in gone
    ensures Enabled(q, l) && Unaware(Next(q, l), Next(p, l), gone)
  {
    if !l.action.Arrive? {
      assert q.threads[l.thread] == p.threads[l.thread];
    }
    assert Next(q, l).threads == Next(p, l).threads - gone;
  }

  lemma {:induction false} UnawareSkip(q: Plane, p: Plane, l: Label, gone: set<nat>)
    requires Enabled(p, l) && Unaware(q, p, gone) && l.thread in gone && OnlyRead(Next(p, l), gone)
    ensures Unaware(q, Next(p, l), gone)
  {
    OnlyReadBefore(p, l, gone);
    assert Next(p, l).threads - gone == p.threads - gone;
  }

  lemma {:induction false} EraseReaders(run: seq<Label>, gone: set<nat>)
    requires Possible(run) && OnlyRead(At(run), gone)
    ensures Possible(Erase(run, gone)) && Unaware(At(Erase(run, gone)), At(run), gone)
  {
    if |run| > 0 {
      var prior, l := LastStep(run);
      OnlyReadBefore(At(prior), l, gone);
      EraseReaders(prior, gone);
      var kept := Erase(prior, gone);
      if l.thread in gone {
        UnawareSkip(At(kept), At(prior), l, gone);
        assert Erase(run, gone) == kept;
      } else {
        UnawareStep(At(kept), At(prior), l, gone);
        PossibleExtend(kept, l);
      }
    }
  }

  /**
   In every interleaving, deleting the requests that the store answered itself, by a replay or
   a 409, is again a possible run. It ends with the same VMs, controllers and event log, the same
   store, and every other request exactly as far along and with the same response.
   */
  lemma {:induction false} RetriesAreErasable(run: seq<Label>)
    requires Possible(run)
    ensures
      var gone := Answered(At(run));
      var kept := Erase(run, gone);
      && Possible(kept)
      && At(kept).state == At(run).state
      && At(kept).entries == At(run).entries
      && At(kept).threads == At(run).threads - gone
  {
    EraseReaders(run, Answered(At(run)));
  }

  // ----- The same server with no idempotency store at all -------------------------------

  function WithoutKey(req: Request): Request {
    req.(key := "")
  }

  /** What a label is to a server without the middleware: at most one step of the same request. */
  function Plain(l: Label): seq<Label> {
    match l.action
    case Arrive(req) => [l.(action := Arrive(WithoutKey(req)))]
    case Execute(_, _) => [l]
    case Log(_, _) => [l]
    case _ => []
  }

  function Strip(run: seq<Label>, gone: set<nat>): seq<Label> {
    if |run| == 0 then []
    else
      var last := run[|run| - 1];
      Strip(run[..|run| - 1], gone) + if last.thread in gone then [] else Plain(last)
  }

  function PlainPhase(phase: Phase): Phase {
    match phase
    case Found(_) => Executing
    case Evicting => Executing
    case Responded(r) => Finished(r)
    case _ => phase
  }

  function PlainThread(th: Thread): Thread {
    Thread(WithoutKey(th.req), PlainPhase(th.phase))
  }

  /** The requests not gone, as a server without the middleware sees them. */
  function View(p: Plane, gone: set<nat>): map<nat, Thread> {
    map t | t in p.threads && t !in gone :: PlainThread(p.threads[t])
  }

  ghost predicate Simulates(q: Plane, p: Plane, gone: set<nat>) {
    && q.state == p.state && q.entries == map[] && q.clock <= p.clock
    && q.threads == View(p, gone)
  }

  /** Once a request is answered by the store it never acts, so only readers may be dropped. */
  ghost predicate NotYetAnswered(p: Plane, gone: set<nat>) {
    forall t :: t in p.threads && t !in gone ==> !p.threads[t].phase.Replayed? && !p.threads[t].phase.Refused?
  }

  /** Only the stepping request can change its view. */
  lemma {:induction false} ViewStep(p: Plane, l: Label, gone: set<nat>)
    requires Enabled(p, l) && l.thread !in gone
    ensures View(Next(p, l), gone) == View(p, gone)[l.thread := PlainThread(Next(p, l).threads[l.thread])]
  {
  }

  /** Looking up, checking, evicting and storing are invisible without the middleware. */
  lemma {:induction false} SilentStep(p: Plane, l: Label, gone: set<nat>)
    requires Enabled(p, l) && l.thread !in gone && Plain(l) == []
    requires NotYetAnswered(Next(p, l), gone)
    ensures Next(p, l).state == p.state && View(Next(p, l), gone) == View(p, gone)
  {
    ViewStep(p, l, gone);
    var phase := Next(p, l).threads[l.thread].phase;
    assert !phase.Replayed? && !phase.Refused?;
  }

  lemma {:induction false} ArriveStep(q: Plane, p: Plane, l: Label, gone: set<nat>)
    requires Enabled(p, l) && Simulates(q, p, gone) && l.thread !in gone && l.action.Arrive?
    ensures Enabled(q, Plain(l)[0]) && Simulates(Next(q, Plain(l)[0]), Next(p, l), gone)
  {
    ViewStep(p, l, gone);
  }

  /** The handler's own steps are the same on both servers. */
  lemma {:induction false} HandlerStep(q: Plane, p: Plane, l: Label, gone: set<nat>)
    requires Enabled(p, l) && Simulates(q, p, gone) && l.thread !in gone
    requires l.action.Execute? || l.action.Log?
    ensures Enabled(q, l) && Simulates(Next(q, l), Next(p, l), gone)
  {
    assert q.threads[l.thread] == PlainThread(p.threads[l.thread]);
    ViewStep(p, l, gone);
    assert Next(q, l).threads[l.thread] == PlainThread(Next(p, l).threads[l.thread]);
  }

  lemma {:induction false} SimulateStep(q: Plane, p: Plane, l: Label, gone: set<nat>)
    requires Enabled(p, l) && Simulates(q, p, gone) && l.thread !in gone
    requires NotYetAnswered(Next(p, l), gone)
    ensures
      var steps := Plain(l);
      if steps == [] then Simulates(q, Next(p, l), gone)
      else steps == [steps[0]] && Enabled(q, steps[0]) && Simulates(Next(q, steps[0]), Next(p, l), gone)
  {
    match l.action {
      case Arrive(_) => ArriveStep(q, p, l, gone);
      case Execute(_, _) => HandlerStep(q, p, l, gone);
      case Log(_, _) => HandlerStep(q, p, l, gone);
      case _ => SilentStep(p, l, gone);
    }
  }

  lemma {:induction false} NotAnsweredBefore(p: Plane, l: Label, gone: set<nat>)
    requires Enabled(p, l) && NotYetAnswered(Next(p, l), gone)
    ensures NotYetAnswered(p, gone)
  {
    forall t | t in p.threads && t !in gone ensures !p.threads[t].phase.Replayed? && !p.threads[t].phase.Refused? {
      assert !Next(p, l).threads[t].phase.Replayed? && !Next(p, l).threads[t].phase.Refused?;
    }
  }

  lemma {:induction false} StripSimulates(run: seq<Label>, gone: set<nat>)
    requires Possible(run) && OnlyRead(At(run), gone) && NotYetAnswered(At(run), gone)
    ensures Possible(Strip(run, gone)) && Simulates(At(Strip(run, gone)), At(run), gone)
  {
    if |run| > 0 {
      var prior, l := LastStep(run);
      OnlyReadBefore(At(prior), l, gone);
      NotAnsweredBefore(At(prior), l, gone);
      StripSimulates(prior, gone);
      var plain := Strip(prior, gone);
      if l.thread in gone {
        assert Strip(run, gone) == plain;
        assert forall t :: t !in gone ==> (t in At(run).threads <==> t in At(prior).threads);
      } else {
        SimulateStep(At(plain), At(prior), l, gone);
        if Plain(l) == [] {
          assert Strip(run, gone) == plain;
        } else {
          PossibleExtend(plain, Plain(l)[0]);
        }
      }
    }
  }

  /**
   The middleware only filters: every run of the server, retries and all, has exactly the effect
   and the responses of a run without any idempotency store in which each request that the
   store did not answer is made once, and the answered ones are not made at all.
   */
  lemma {:induction false} MiddlewareOnlyFilters(run: seq<Label>)
    requires Possible(run)
    ensures
      var gone := Answered(At(run));
      var plain := Strip(run, gone);
      && Possible(plain)
      && At(plain).state == At(run).state
      && At(plain).entries == map[]
      && At(plain).threads == View(At(run), gone)
  {
    StripSimulates(run, Answered(At(run)));
  }
}
