/** How the event log follows the VMs, when updates and their events are separate steps. */
module EventRuns {
  import opened Values
  import opened Model
  import opened StateSteps
  import opened ControlPlane

  // ----- Counting ---------------------------------------------------------------------

  /** The VM that a step updates, and the kind of event it owes for that. */
  function Change(p: Plane, l: Label): Option<(string, string)> {
    if l.action.Execute? && l.thread in p.threads then
      match p.threads[l.thread].req.call
      case CreateVM(_) => Some((l.action.id, CREATED))
      case StopVM(vm) => if vm in p.state.vms then Some((vm, STOP_REQUESTED)) else None
      case DeleteVM(vm) => if vm in p.state.vms then Some((vm, DELETE_REQUESTED)) else None
      case _ => None
    else None
  }

  /** Successful updates of a VM that owe an event of this kind. */
  function Updates(run: seq<Label>, vm: string, kind: string): nat {
    if |run| == 0 then 0
    else
      var n := |run| - 1;
      Updates(run[..n], vm, kind) + if Change(At(run[..n]), run[n]) == Some((vm, kind)) then 1 else 0
  }

  function Logged(events: seq<Event>, vm: string, kind: string): nat {
    if |events| == 0 then 0
    else
      var e := events[|events| - 1];
      Logged(events[..|events| - 1], vm, kind) + if e.vmId == vm && e.kind == kind then 1 else 0
  }

  predicate OwesFor(th: Thread, vm: string) {
    th.phase.Logging? && th.phase.event.vmId == vm
  }

  predicate Owes(th: Thread, vm: string, kind: string) {
    OwesFor(th, vm) && th.phase.event.kind == kind
  }

  /** The requests that have updated the VM but not yet appended the event. */
  function Owing(p: Plane, vm: string, kind: string): set<nat> {
    set t | t in p.threads && Owes(p.threads[t], vm, kind)
  }

  lemma {:induction false} OwingStep(p: Plane, l: Label, vm: string, kind: string)
    requires Enabled(p, l)
    ensures
      var now := l.thread in Next(p, l).threads && Owes(Next(p, l).threads[l.thread], vm, kind);
      Owing(Next(p, l), vm, kind) == if now then Owing(p, vm, kind) + {l.thread} else Owing(p, vm, kind) - {l.thread}
  {
  }

  lemma {:induction false} LoggedAppend(events: seq<Event>, e: Event, vm: string, kind: string)
    ensures Logged(events + [e], vm, kind) == Logged(events, vm, kind) + if e.vmId == vm && e.kind == kind then 1 else 0
  {
    assert (events + [e])[..|events + [e]| - 1] == events;
  }

  /** Only a log step appends, and it appends the event its request owes. */
  lemma {:induction false} EventsStep(p: Plane, l: Label)
    requires Enabled(p, l)
    ensures Next(p, l).state.events ==
            if l.action.Log? then p.state.events + [LoggedBy(p, l)] else p.state.events
  {
  }

  function LoggedBy(p: Plane, l: Label): Event
    requires l.action.Log? && Enabled(p, l)
  {
    Stamped(p.threads[l.thread].phase.event, l.action.id, l.action.stamp)
  }

  /** Whether the stepping request owes an event, before and after. */
  lemma {:induction false} OwesStep(p: Plane, l: Label, vm: string, kind: string)
    requires Enabled(p, l)
    ensures l.thread in Next(p, l).threads
    ensures Owes(Next(p, l).threads[l.thread], vm, kind) <==> Change(p, l) == Some((vm, kind))
    ensures (l.thread in p.threads && Owes(p.threads[l.thread], vm, kind)) <==>
            (l.action.Log? && LoggedBy(p, l).vmId == vm && LoggedBy(p, l).kind == kind)
  {
  }

  /** One step: what is logged and what is owed together grow by the update it makes. */
  lemma {:induction false} CountStep(p: Plane, l: Label, vm: string, kind: string)
    requires Enabled(p, l)
    ensures
      Logged(Next(p, l).state.events, vm, kind) + |Owing(Next(p, l), vm, kind)| ==
      Logged(p.state.events, vm, kind) + |Owing(p, vm, kind)| + if Change(p, l) == Some((vm, kind)) then 1 else 0
  {
    OwingStep(p, l, vm, kind);
    OwesStep(p, l, vm, kind);
    EventsStep(p, l);
    if l.action.Log? {
      LoggedAppend(p.state.events, LoggedBy(p, l), vm, kind);
    }
    assert l.thread in Owing(p, vm, kind) <==> l.thread in p.threads && Owes(p.threads[l.thread], vm, kind);
  }

  /**
   In every interleaving, for each VM and kind of event, the events logged and those still owed by
   requests under way add up to the successful updates; when nothing is owed the log is complete.
   */
  lemma {:induction false} EventsMatchUpdates(run: seq<Label>, vm: string, kind: string)
    requires Possible(run)
    ensures Logged(At(run).state.events, vm, kind) + |Owing(At(run), vm, kind)| == Updates(run, vm, kind)
  {
    if |run| > 0 {
      var prior, l := LastStep(run);
      EventsMatchUpdates(prior, vm, kind);
      CountStep(At(prior), l, vm, kind);
    }
  }

  /** Ids are new, so a VM is created by one step only. */
  lemma {:induction false} CreationStep(p: Plane, l: Label, vm: string)
    requires Enabled(p, l)
    ensures
      var created := Change(p, l) == Some((vm, CREATED));
      && (created ==> vm !in p.state.vms)
      && (vm in Next(p, l).state.vms <==> vm in p.state.vms || created)
  {
  }

  /** In every interleaving, a VM in the store has exactly one creation, logged or still owed, and no other has any. */
  lemma {:induction false} CreationLoggedOnce(run: seq<Label>, vm: string)
    requires Possible(run)
    ensures Logged(At(run).state.events, vm, CREATED) + |Owing(At(run), vm, CREATED)| ==
            if vm in At(run).state.vms then 1 else 0
  {
    if |run| > 0 {
      var prior, l := LastStep(run);
      CreationLoggedOnce(prior, vm);
      CreationStep(At(prior), l, vm);
      CountStep(At(prior), l, vm, CREATED);
    }
  }

  /** The VM of every event, logged or owed, is in the store. */
  ghost predicate EventsHaveVMs(p: Plane) {
    && (forall i :: 0 <= i < |p.state.events| ==> p.state.events[i].vmId in p.state.vms)
    && forall t :: t in p.threads && p.threads[t].phase.Logging? ==> p.threads[t].phase.event.vmId in p.state.vms
  }

  lemma {:induction false} EventsHaveVMsStep(p: Plane, l: Label)
    requires Enabled(p, l) && EventsHaveVMs(p)
    ensures EventsHaveVMs(Next(p, l))
  {
    EventsStep(p, l);
    VMsStay(p, l);
    forall t | t in Next(p, l).threads && Next(p, l).threads[t].phase.Logging?
      ensures Next(p, l).threads[t].phase.event.vmId in Next(p, l).state.vms
    {
      OwedVMStored(p, l, t);
    }
  }

  lemma {:induction false} VMsStay(p: Plane, l: Label)
    requires Enabled(p, l)
    ensures p.state.vms.Keys <= Next(p, l).state.vms.Keys
  {
  }

  lemma {:induction false} OwedVMStored(p: Plane, l: Label, t: nat)
    requires Enabled(p, l) && EventsHaveVMs(p)
    requires t in Next(p, l).threads && Next(p, l).threads[t].phase.Logging?
    ensures Next(p, l).threads[t].phase.event.vmId in Next(p, l).state.vms
  {
    VMsStay(p, l);
    if t == l.thread {
      OwesStep(p, l, Next(p, l).threads[t].phase.event.vmId, Next(p, l).threads[t].phase.event.kind);
    }
  }

  lemma {:induction false} EventsAlwaysHaveVMs(run: seq<Label>)
    requires Possible(run)
    ensures EventsHaveVMs(At(run))
  {
    if |run| > 0 {
      var prior, l := LastStep(run);
      EventsAlwaysHaveVMs(prior);
      EventsHaveVMsStep(At(prior), l);
    }
  }

  // ----- The log determines the desired states ----------------------------------------------

  function Meaning(kind: string): Option<DesiredState> {
    if kind == CREATED then Some(Running)
    else if kind == STOP_REQUESTED then Some(Stopped)
    else if kind == DELETE_REQUESTED then Some(Deleted)
    else None
  }

  /** The desired states that a reader of the log would reconstruct. */
  function Projected(events: seq<Event>): map<string, DesiredState> {
    if |events| == 0 then map[]
    else
      var e := events[|events| - 1];
      var before := Projected(events[..|events| - 1]);
      match Meaning(e.kind)
      case Some(desired) => before[e.vmId := desired]
      case None => before
  }

  /** The kinds of event logged for one VM. */
  function History(events: seq<Event>, vm: string): seq<string> {
    if |events| == 0 then []
    else
      var e := events[|events| - 1];
      History(events[..|events| - 1], vm) + if e.vmId == vm then [e.kind] else []
  }

  /** The kind of the latest successful update of the VM. */
  function LastKind(run: seq<Label>, vm: string): Option<string> {
    if |run| == 0 then None
    else
      var n := |run| - 1;
      match Change(At(run[..n]), run[n])
      case Some(update) => if update.0 == vm then Some(update.1) else LastKind(run[..n], vm)
      case None => LastKind(run[..n], vm)
  }

  predicate Changes(p: Plane, l: Label, vm: string) {
    Change(p, l).Some? && Change(p, l).value.0 == vm
  }

  lemma {:induction false} LastKindStep(prior: seq<Label>, l: Label, vm: string)
    ensures LastKind(prior + [l], vm) ==
            if Changes(At(prior), l, vm) then Some(Change(At(prior), l).value.1) else LastKind(prior, vm)
  {
    assert (prior + [l])[..|prior|] == prior;
  }

  /** An update leaves the desired state that its event means. */
  lemma {:induction false} ChangeMeans(p: Plane, l: Label, vm: string)
    requires Enabled(p, l) && Changes(p, l, vm)
    ensures vm in Next(p, l).state.vms && Meaning(Change(p, l).value.1) == Some(Next(p, l).state.vms[vm].desired)
  {
  }

  /** A step that does not update the VM leaves its record alone. */
  lemma {:induction false} RecordKept(p: Plane, l: Label, vm: string)
    requires Enabled(p, l) && !Changes(p, l, vm)
    ensures vm in Next(p, l).state.vms <==> vm in p.state.vms
    ensures vm in p.state.vms ==> Next(p, l).state.vms[vm] == p.state.vms[vm]
  {
  }

  /** A VM is in the store once it has been updated, in the desired state that the latest update means. */
  lemma {:induction false} DesiredIsLast(run: seq<Label>, vm: string)
    requires Possible(run)
    ensures vm in At(run).state.vms <==> LastKind(run, vm).Some?
    ensures vm in At(run).state.vms ==> Meaning(LastKind(run, vm).value) == Some(At(run).state.vms[vm].desired)
  {
    if |run| > 0 {
      var prior, l := LastStep(run);
      DesiredIsLast(prior, vm);
      LastKindStep(prior, l, vm);
      if Changes(At(prior), l, vm) {
        ChangeMeans(At(prior), l, vm);
      } else {
        RecordKept(At(prior), l, vm);
      }
    }
  }

  /** Every event, logged or owed, has a meaning. */
  ghost predicate EventsMean(p: Plane) {
    && (forall i :: 0 <= i < |p.state.events| ==> Meaning(p.state.events[i].kind).Some?)
    && forall t :: t in p.threads && p.threads[t].phase.Logging? ==> Meaning(p.threads[t].phase.event.kind).Some?
  }

  lemma {:induction false} EventsMeanStep(p: Plane, l: Label)
    requires Enabled(p, l) && EventsMean(p)
    ensures EventsMean(Next(p, l))
  {
    EventsStep(p, l);
  }

  lemma {:induction false} EventsAlwaysMean(run: seq<Label>)
    requires Possible(run)
    ensures EventsMean(At(run))
  {
    if |run| > 0 {
      var prior, l := LastStep(run);
      EventsAlwaysMean(prior);
      EventsMeanStep(At(prior), l);
    }
  }

  lemma {:induction false} HistoryAppend(events: seq<Event>, e: Event, vm: string)
    ensures History(events + [e], vm) == History(events, vm) + if e.vmId == vm then [e.kind] else []
    ensures Projected(events + [e]) ==
            match Meaning(e.kind) case Some(d) => Projected(events)[e.vmId := d] case None => Projected(events)
  {
    assert (events + [e])[..|events + [e]| - 1] == events;
  }

  /** A reader of the log ends up with what the last event of each VM means. */
  lemma {:induction false} ProjectedIsLast(events: seq<Event>, vm: string)
    requires forall i :: 0 <= i < |events| ==> Meaning(events[i].kind).Some?
    ensures
      var history := History(events, vm);
      && (vm in Projected(events) <==> history != [])
      && (history != [] ==> Meaning(history[|history| - 1]) == Some(Projected(events)[vm]))
  {
    if |events| > 0 {
      ProjectedIsLast(events[..|events| - 1], vm);
    }
  }

  /** The last event logged for the VM is that of its latest update. */
  predicate LatestLoggedLast(run: seq<Label>, vm: string) {
    var history := History(At(run).state.events, vm);
    history != [] && LastKind(run, vm) == Some(history[|history| - 1])
  }

  /** At any point of any run, the log tells a VM's desired state exactly when its latest update is logged last. */
  lemma {:induction false} LogTellsDesired(run: seq<Label>, vm: string)
    requires Possible(run) && vm in At(run).state.vms
    ensures
      var s := At(run).state;
      vm in Projected(s.events) && Projected(s.events)[vm] == s.vms[vm].desired <==> LatestLoggedLast(run, vm)
  {
    DesiredIsLast(run, vm);
    EventsAlwaysMean(run);
    ProjectedIsLast(At(run).state.events, vm);
  }

  lemma {:induction false} ProjectedIsStored(run: seq<Label>, vm: string)
    requires Possible(run) && vm in Projected(At(run).state.events)
    ensures vm in At(run).state.vms
  {
    EventsAlwaysHaveVMs(run);
    ProjectedNamed(At(run).state.events, vm);
  }

  lemma {:induction false} ProjectedNamed(events: seq<Event>, vm: string)
    requires vm in Projected(events)
    ensures exists i :: 0 <= i < |events| && events[i].vmId == vm
  {
    var front, e := events[..|events| - 1], events[|events| - 1];
    if e.vmId == vm {
    } else {
      ProjectedNamed(front, vm);
      var i :| 0 <= i < |front| && front[i].vmId == vm;
      assert events[i].vmId == vm;
    }
  }

  /**
   In every interleaving, and whether or not events are still owed, the log projects to exactly
   the desired states in the store if and only if for every VM the latest update is logged last.
   */
  lemma {:induction false} LogDeterminesExactly(run: seq<Label>)
    requires Possible(run)
    ensures
      var s := At(run).state;
      Projected(s.events) == (map vm | vm in s.vms :: s.vms[vm].desired) <==>
      forall vm :: vm in s.vms ==> LatestLoggedLast(run, vm)
  {
    var s := At(run).state;
    var desired := map vm | vm in s.vms :: s.vms[vm].desired;
    forall vm
      ensures vm in Projected(s.events) ==> vm in s.vms
      ensures vm in s.vms ==> (vm in Projected(s.events) && Projected(s.events)[vm] == desired[vm] <==> LatestLoggedLast(run, vm))
    {
      if vm in Projected(s.events) {
        ProjectedIsStored(run, vm);
      }
      if vm in s.vms {
        LogTellsDesired(run, vm);
      }
    }
  }

  // ----- Serial updates -------------------------------------------------------------------

  ghost predicate CreatedOnceFirst(history: seq<string>) {
    |history| > 0 && history[0] == CREATED && forall i :: 0 < i < |history| ==> history[i] != CREATED
  }

  /** The log agrees with the latest update of this VM, up to an event that one request still owes. */
  ghost predicate Agree(p: Plane, vm: string, last: Option<string>) {
    var history := History(p.state.events, vm);
    if last.None? then
      history == [] && NobodyOwes(p, vm)
    else
      && (forall t, u :: t in p.threads && u in p.threads && OwesFor(p.threads[t], vm) && OwesFor(p.threads[u], vm) ==> t == u)
      && (forall t :: t in p.threads && OwesFor(p.threads[t], vm) ==> OwedAgrees(history, p.threads[t].phase.event.kind, last.value))
      && (NobodyOwes(p, vm) ==> CreatedOnceFirst(history) && history[|history| - 1] == last.value)
  }

  /** The event still owed is that of the latest update. */
  ghost predicate OwedAgrees(history: seq<string>, owed: string, last: string) {
    owed == last && if owed == CREATED then history == [] else CreatedOnceFirst(history)
  }

  ghost predicate NobodyOwes(p: Plane, vm: string) {
    forall t :: t in p.threads ==> !OwesFor(p.threads[t], vm)
  }

  /** Step k does not update a VM for which another request still owes an event. */
  ghost predicate UpdatesAlone(run: seq<Label>, k: nat)
    requires k < |run|
  {
    Change(At(run[..k]), run[k]).Some? ==> NobodyOwes(At(run[..k]), Change(At(run[..k]), run[k]).value.0)
  }

  /** Updates of one VM are serial: each is logged before the next is made. */
  ghost predicate SerialPerVM(run: seq<Label>) {
    forall k :: 0 <= k < |run| ==> UpdatesAlone(run, k)
  }

  /** A step that updates the VM. */
  lemma {:induction false} AgreeUpdate(p: Plane, l: Label, vm: string, last: Option<string>)
    requires Enabled(p, l) && Agree(p, vm, last) && (vm in p.state.vms <==> last.Some?)
    requires Changes(p, l, vm) && NobodyOwes(p, vm)
    ensures Agree(Next(p, l), vm, Some(Change(p, l).value.1))
  {
    var p' := Next(p, l);
    var kind := Change(p, l).value.1;
    CreationStep(p, l, vm);
    assert p'.state.events == p.state.events;
    assert OwesFor(p'.threads[l.thread], vm) && p'.threads[l.thread].phase.event.kind == kind;
    forall t | t in p'.threads && OwesFor(p'.threads[t], vm) ensures t == l.thread {
      assert t in p.threads ==> !OwesFor(p.threads[t], vm);
    }
  }

  /** The step that logs the event owed for the VM. */
  lemma {:induction false} AgreeLog(p: Plane, l: Label, vm: string, last: Option<string>)
    requires Enabled(p, l) && Agree(p, vm, last) && l.action.Log? && OwesFor(p.threads[l.thread], vm)
    ensures Agree(Next(p, l), vm, last)
  {
    var p' := Next(p, l);
    EventsStep(p, l);
    HistoryAppend(p.state.events, LoggedBy(p, l), vm);
    assert OwedAgrees(History(p.state.events, vm), LoggedBy(p, l).kind, last.value);
    forall t | t in p'.threads ensures !OwesFor(p'.threads[t], vm) {
      assert t != l.thread ==> p'.threads[t] == p.threads[t];
    }
  }

  /** A step that neither updates the VM nor logs its event leaves who owes for it alone. */
  lemma {:induction false} OwersKept(p: Plane, l: Label, vm: string, t: nat)
    requires Enabled(p, l) && !Changes(p, l, vm)
    requires !(l.action.Log? && OwesFor(p.threads[l.thread], vm))
    ensures (t in Next(p, l).threads && OwesFor(Next(p, l).threads[t], vm)) <==> (t in p.threads && OwesFor(p.threads[t], vm))
    ensures t in p.threads && OwesFor(p.threads[t], vm) ==> Next(p, l).threads[t] == p.threads[t]
  {
  }

  lemma {:induction false} HistoryKept(p: Plane, l: Label, vm: string)
    requires Enabled(p, l) && !(l.action.Log? && OwesFor(p.threads[l.thread], vm))
    ensures History(Next(p, l).state.events, vm) == History(p.state.events, vm)
  {
    EventsStep(p, l);
    if l.action.Log? {
      HistoryAppend(p.state.events, LoggedBy(p, l), vm);
    }
  }

  /** Agreement depends only on the history and the owed events of the VM. */
  lemma {:induction false} SameAgree(p: Plane, q: Plane, vm: string, last: Option<string>)
    requires Agree(p, vm, last)
    requires History(q.state.events, vm) == History(p.state.events, vm)
    requires forall t :: (t in q.threads && OwesFor(q.threads[t], vm)) <==> (t in p.threads && OwesFor(p.threads[t], vm))
    requires forall t :: t in p.threads && OwesFor(p.threads[t], vm) ==> q.threads[t] == p.threads[t]
    ensures Agree(q, vm, last)
  {
  }

  /** Any other step leaves what is said about the VM alone. */
  lemma {:induction false} AgreeOther(p: Plane, l: Label, vm: string, last: Option<string>)
    requires Enabled(p, l) && Agree(p, vm, last)
    requires !(l.action.Log? && OwesFor(p.threads[l.thread], vm)) && !Changes(p, l, vm)
    ensures Agree(Next(p, l), vm, last)
  {
    HistoryKept(p, l, vm);
    forall t
      ensures (t in Next(p, l).threads && OwesFor(Next(p, l).threads[t], vm)) <==> (t in p.threads && OwesFor(p.threads[t], vm))
      ensures t in p.threads && OwesFor(p.threads[t], vm) ==> Next(p, l).threads[t] == p.threads[t]
    {
      OwersKept(p, l, vm, t);
    }
    SameAgree(p, Next(p, l), vm, last);
  }

  lemma {:induction false} AlwaysAgree(run: seq<Label>, vm: string)
    requires Possible(run) && SerialPerVM(run)
    ensures Agree(At(run), vm, LastKind(run, vm))
  {
    if |run| > 0 {
      var prior, l := LastStep(run);
      forall k | 0 <= k < |prior| ensures UpdatesAlone(prior, k) {
        assert prior[..k] == run[..k] && UpdatesAlone(run, k);
      }
      AlwaysAgree(prior, vm);
      DesiredIsLast(prior, vm);
      LastKindStep(prior, l, vm);
      assert UpdatesAlone(run, |prior|);
      if Changes(At(prior), l, vm) {
        AgreeUpdate(At(prior), l, vm, LastKind(prior, vm));
      } else if l.action.Log? && OwesFor(At(prior).threads[l.thread], vm) {
        AgreeLog(At(prior), l, vm, LastKind(prior, vm));
      } else {
        AgreeOther(At(prior), l, vm, LastKind(prior, vm));
      }
    }
  }

  /**
   When updates of each VM are serial and no event is owed, the latest update of every VM is
   logged last, so the log projects to exactly the desired states; and each VM's history starts
   with its one creation.
   */
  lemma {:induction false} LogDeterminesDesired(run: seq<Label>)
    requires Possible(run) && SerialPerVM(run)
    requires forall vm :: NobodyOwes(At(run), vm)
    ensures Projected(At(run).state.events) == map vm | vm in At(run).state.vms :: At(run).state.vms[vm].desired
    ensures forall vm :: vm in At(run).state.vms ==> CreatedOnceFirst(History(At(run).state.events, vm))
  {
    forall vm | vm in At(run).state.vms
      ensures LatestLoggedLast(run, vm) && CreatedOnceFirst(History(At(run).state.events, vm))
    {
      DesiredIsLast(run, vm);
      AlwaysAgree(run, vm);
      assert NobodyOwes(At(run), vm);
    }
    LogDeterminesExactly(run);
  }

  // ----- Overlapping updates --------------------------------------------------------------

  function Ask(call: Call): Request {
    Request("", [], call)
  }

  /** A run that creates the VM "a" and logs it. */
  lemma CreateOne() returns (run: seq<Label>)
    ensures Possible(run) && At(run).clock == 1 && "a" in At(run).state.vms
    ensures At(run).threads.Keys == {1} && At(run).threads[1].phase.Finished?
    ensures At(run).state.events == [Event("e1", "a", "", CREATED, [], 1)]
  {
    var p;
    run := [];
    run, p := Extend(run, Label(1, 1, Arrive(Ask(CreateVM(VMSpec([]))))));
    run, p := Extend(run, Label(1, 1, Execute("a", 1)));
    run, p := Extend(run, Label(1, 1, Log("e1", 1)));
  }

  /** Then it is stopped and deleted, in that order, with neither logged yet. */
  lemma StopThenDelete() returns (run: seq<Label>)
    ensures Possible(run) && At(run).clock == 2 && "a" in At(run).state.vms && At(run).state.vms["a"].desired == Deleted
    ensures At(run).threads.Keys == {1, 2, 3} && At(run).threads[1].phase.Finished?
    ensures At(run).threads[2] == Thread(Ask(StopVM("a")), Logging(EventOf("a", STOP_REQUESTED), Response(202, [IdDocument("a")])))
    ensures At(run).threads[3] == Thread(Ask(DeleteVM("a")), Logging(EventOf("a", DELETE_REQUESTED), Response(202, [IdDocument("a")])))
    ensures At(run).state.events == [Event("e1", "a", "", CREATED, [], 1)]
  {
    var p;
    run := CreateOne();
    run, p := Extend(run, Label(2, 2, Arrive(Ask(StopVM("a")))));
    run, p := Extend(run, Label(3, 2, Arrive(Ask(DeleteVM("a")))));
    run, p := Extend(run, Label(2, 2, Execute("", 2)));
    run, p := Extend(run, Label(3, 2, Execute("", 2)));
  }

  /** The delete gets to the log first. */
  lemma DeleteLoggedFirst() returns (run: seq<Label>)
    ensures Possible(run) && At(run).clock == 2 && "a" in At(run).state.vms && At(run).state.vms["a"].desired == Deleted
    ensures At(run).threads.Keys == {1, 2, 3} && At(run).threads[1].phase.Finished? && At(run).threads[3].phase.Finished?
    ensures At(run).threads[2] == Thread(Ask(StopVM("a")), Logging(EventOf("a", STOP_REQUESTED), Response(202, [IdDocument("a")])))
  {
    var p;
    run := StopThenDelete();
    run, p := Extend(run, Label(3, 2, Log("e2", 2)));
  }

  /** Without that, two updates of one VM can be logged in the other order, for good. */
  lemma OverlapMisordersLog()
    ensures exists run ::
      && Possible(run) && (forall vm :: NobodyOwes(At(run), vm))
      && "a" in At(run).state.vms && At(run).state.vms["a"].desired == Deleted
      && "a" in Projected(At(run).state.events) && Projected(At(run).state.events)["a"] == Stopped
  {
    var prior := DeleteLoggedFirst();
    var last := Label(2, 2, Log("e3", 2));
    var run, p := Extend(prior, last);
    EventsStep(At(prior), last);
    HistoryAppend(At(prior).state.events, LoggedBy(At(prior), last), "a");
    assert p.threads.Keys == {1, 2, 3};
  }

  /** Event times are sampled before the lock, so two events can reach the log against the order of their times. */
  lemma TimesCanReachLogOutOfOrder()
    ensures exists run :: Possible(run) && At(run).state.events == [
      Event("e1", "a", "", CREATED, [], 1),
      Event("e2", "a", "", STOP_REQUESTED, [], 20),
      Event("e3", "a", "", DELETE_REQUESTED, [], 10)]
  {
    var p;
    var run := StopThenDelete();
    run, p := Extend(run, Label(2, 20, Log("e2", 20)));
    run, p := Extend(run, Label(3, 20, Log("e3", 10)));
    assert p.state.events == [
      Event("e1", "a", "", CREATED, [], 1),
      Event("e2", "a", "", STOP_REQUESTED, [], 20),
      Event("e3", "a", "", DELETE_REQUESTED, [], 10)];
  }
}
