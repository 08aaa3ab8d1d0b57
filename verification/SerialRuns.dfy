/** A server that finishes each request before it takes the next. */
module SerialRuns {
  import opened ControlPlane
  import IdempotencyRuns
  import EventRuns

  /** No request is under way. */
  ghost predicate Quiet(p: Plane) {
    forall t :: t in p.threads ==> Over(p.threads[t].phase)
  }

  ghost predicate ArrivesQuietly(run: seq<Label>, k: nat)
    requires k < |run|
  {
    run[k].action.Arrive? ==> Quiet(At(run[..k]))
  }

  ghost predicate OneAtATime(run: seq<Label>) {
    forall k :: 0 <= k < |run| ==> ArrivesQuietly(run, k)
  }

  ghost predicate AtMostOneActive(p: Plane) {
    forall t, u :: t in p.threads && u in p.threads && !Over(p.threads[t].phase) && !Over(p.threads[u].phase) ==> t == u
  }

  lemma {:induction false} ActiveStep(p: Plane, l: Label)
    requires Enabled(p, l) && AtMostOneActive(p) && (l.action.Arrive? ==> Quiet(p))
    ensures AtMostOneActive(Next(p, l))
  {
    assert l.thread in p.threads ==> !Over(p.threads[l.thread].phase);
    assert forall t :: t in Next(p, l).threads && t != l.thread ==> t in p.threads && Next(p, l).threads[t] == p.threads[t];
  }

  lemma {:induction false} OneActive(run: seq<Label>)
    requires Possible(run) && OneAtATime(run)
    ensures AtMostOneActive(At(run))
  {
    if |run| > 0 {
      var prior, l := LastStep(run);
      QuietPrefix(run, |prior|);
      OneActive(prior);
      assert ArrivesQuietly(run, |prior|);
      ActiveStep(At(prior), l);
    }
  }

  lemma {:induction false} QuietPrefix(run: seq<Label>, n: nat)
    requires OneAtATime(run) && n <= |run|
    ensures OneAtATime(run[..n])
  {
    forall k | 0 <= k < n ensures ArrivesQuietly(run[..n], k) {
      assert run[..n][..k] == run[..k];
      assert ArrivesQuietly(run, k);
    }
  }

  /** Such a server never overlaps requests on a key, nor updates of a VM. */
  lemma {:induction false} OneAtATimeIsSerial(run: seq<Label>)
    requires Possible(run) && OneAtATime(run)
    ensures IdempotencyRuns.SameKeySerial(run) && EventRuns.SerialPerVM(run)
  {
    forall k | 0 <= k < |run|
      ensures IdempotencyRuns.ArrivesAlone(run, k) && EventRuns.UpdatesAlone(run, k)
    {
      PrefixPossible(run, k);
      QuietPrefix(run, k);
      OneActive(run[..k]);
      assert EnabledAt(run, k) && ArrivesQuietly(run, k);
    }
  }

  /**
   Event sourcing: after any number of whole requests, retries included, the log projects to
   exactly the desired states in the store, and starts each VM's history with its one creation.
   */
  lemma {:induction false} SerialLogDeterminesDesired(run: seq<Label>)
    requires Possible(run) && OneAtATime(run) && Quiet(At(run))
    ensures
      var s := At(run).state;
      && EventRuns.Projected(s.events) == (map vm | vm in s.vms :: s.vms[vm].desired)
      && forall vm :: vm in s.vms ==> EventRuns.CreatedOnceFirst(EventRuns.History(s.events, vm))
  {
    OneAtATimeIsSerial(run);
    EventRuns.LogDeterminesDesired(run);
  }

  /** A request arrives once. */
  lemma {:induction false} ArrivesOnce(run: seq<Label>, from: nat, k: nat)
    requires Possible(run) && from < k < |run| && run[k].thread == run[from].thread
    ensures !run[k].action.Arrive?
  {
    assert EnabledAt(run, from) && EnabledAt(run, k);
    StepAt(run, from);
    NeverLeaves(run, run[from].thread, from + 1, k);
  }

  lemma {:induction false} OthersOver(run: seq<Label>, n: nat, t: nat)
    requires n <= |run| && Quiet(At(run[..n])) && forall k :: n <= k < |run| ==> run[k].thread == t
    ensures forall u :: u in At(run).threads && u != t ==> Over(At(run).threads[u].phase)
  {
    assert run[..|run|] == run;
    forall u | u in At(run).threads && u != t ensures Over(At(run).threads[u].phase) {
      OthersUntouched(run, n, |run|, t, u);
    }
  }

  /** Serving one whole request after another keeps the run serial and ends quiet. */
  lemma {:induction false} ServingStaysSerial(run: seq<Label>, longer: seq<Label>, t: nat, req: Request)
    requires Possible(longer) && Extends(run, longer, t, req)
    requires OneAtATime(run) && Quiet(At(run))
    ensures OneAtATime(longer) && Quiet(At(longer))
  {
    assert longer[..|run|] == run;
    forall k | 0 <= k < |longer| ensures ArrivesQuietly(longer, k) {
      if k < |run| {
        assert longer[..k] == run[..k] && ArrivesQuietly(run, k);
      } else if k > |run| {
        ArrivesOnce(longer, |run|, k);
      }
    }
    OthersOver(longer, |run|, t);
  }

  lemma {:induction false} OthersUntouched(run: seq<Label>, from: nat, end: nat, t: nat, u: nat)
    requires from <= end <= |run| && u != t
    requires forall k :: from <= k < end ==> run[k].thread == t
    ensures u in At(run[..end]).threads <==> u in At(run[..from]).threads
    ensures u in At(run[..end]).threads ==> At(run[..end]).threads[u] == At(run[..from]).threads[u]
    decreases end
  {
    if from < end {
      OthersUntouched(run, from, end - 1, t, u);
      StepAt(run, end - 1);
    }
  }
}
