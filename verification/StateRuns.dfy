/** Runs of state store operations: who gets to own a VM. */
module StateRuns {
  import opened Values
  import opened Model
  import opened StateSteps

  datatype Op =
    | Create(id: string, spec: VMSpec, now: int)
    | Desire(id: string, desired: DesiredState, now: int)
    | Observe(id: string, observed: ObservedState, controllerId: string, now: int)
    | Claim(id: string, controllerId: string, now: int)
    | Log(event: Event, freshId: string, now: int)
    | Register(controller: Controller)
    | Beat(controllerId: string, heartbeat: Heartbeat, now: int)

  function Step(s: State, op: Op): (State, Option<Error>) {
    match op
    case Create(id, spec, now) => (CreateVM(s, id, spec, now), None)
    case Desire(id, desired, now) => SetDesired(s, id, desired, now)
    case Observe(id, observed, controllerId, now) => SetObserved(s, id, observed, controllerId, now)
    case Claim(id, controllerId, now) => Assign(s, id, controllerId, now)
    case Log(event, freshId, now) => (AppendEvent(s, event, freshId, now), None)
    case Register(controller) => RegisterController(s, controller)
    case Beat(controllerId, heartbeat, now) => RecordHeartbeat(s, controllerId, heartbeat, now)
  }

  function After(run: seq<Op>): State {
    if |run| == 0 then EMPTY else Step(After(run[..|run| - 1]), run[|run| - 1]).0
  }

  predicate Succeeds(run: seq<Op>, k: nat)
    requires k < |run|
  {
    Step(After(run[..k]), run[k]).1 == None
  }

  /** Generated VM ids are new. */
  ghost predicate FreshIds(run: seq<Op>) {
    forall k :: 0 <= k < |run| && run[k].Create? ==> run[k].id !in After(run[..k]).vms
  }

  /** The k-th call makes a controller the owner of the VM. */
  predicate Wins(run: seq<Op>, k: nat, vm: string)
    requires k < |run|
  {
    run[k].Claim? && run[k].id == vm && run[k].controllerId != "" && Succeeds(run, k)
  }

  /** The k-th call reports the VM with an empty controller id. */
  predicate Clears(run: seq<Op>, k: nat, vm: string)
    requires k < |run|
  {
    run[k].Observe? && run[k].id == vm && run[k].controllerId == "" && Succeeds(run, k)
  }

  function Winners(run: seq<Op>, vm: string): nat {
    if |run| == 0 then 0
    else Winners(run[..|run| - 1], vm) + if Wins(run, |run| - 1, vm) then 1 else 0
  }

  function Clearings(run: seq<Op>, vm: string): nat {
    if |run| == 0 then 0
    else Clearings(run[..|run| - 1], vm) + if Clears(run, |run| - 1, vm) then 1 else 0
  }

  predicate Owned(s: State, vm: string) {
    vm in s.vms && s.vms[vm].controllerId != ""
  }

  lemma {:induction false} FreshPrefix(run: seq<Op>)
    requires |run| > 0 && FreshIds(run)
    ensures FreshIds(run[..|run| - 1])
  {
    var prior := run[..|run| - 1];
    forall k | 0 <= k < |prior| && prior[k].Create? ensures prior[k].id !in After(prior[..k]).vms {
      assert prior[..k] == run[..k];
    }
  }

  /** What a VM record keeps for good. */
  predicate SameIdentity(a: VM, b: VM) {
    a.id == b.id && a.spec == b.spec && a.imageId == b.imageId && a.createdAt == b.createdAt
  }

  lemma {:induction false} IdentityStep(s: State, op: Op, vm: string)
    requires vm in s.vms && (op.Create? ==> op.id !in s.vms)
    ensures vm in Step(s, op).0.vms && SameIdentity(Step(s, op).0.vms[vm], s.vms[vm])
  {
  }

  /** VMs are never forgotten, and keep the id, spec and creation time they were born with. */
  lemma {:induction false} RecordsLast(run: seq<Op>, k: nat, n: nat, vm: string)
    requires FreshIds(run) && k <= n <= |run| && vm in After(run[..k]).vms
    ensures vm in After(run[..n]).vms && SameIdentity(After(run[..n]).vms[vm], After(run[..k]).vms[vm])
    decreases n
  {
    if k < n {
      RecordsLast(run, k, n - 1, vm);
      IdentityStep(After(run[..n - 1]), run[n - 1], vm);
      AfterStep(run, n);
    }
  }

  lemma {:induction false} AfterStep(run: seq<Op>, n: nat)
    requires 0 < n <= |run|
    ensures After(run[..n]) == Step(After(run[..n - 1]), run[n - 1]).0
  {
    assert run[..n][..n - 1] == run[..n - 1];
  }

  /** The event log only grows, and only at its end. */
  lemma {:induction false} LogOnlyGrows(run: seq<Op>, k: nat, n: nat)
    requires k <= n <= |run|
    ensures After(run[..k]).events <= After(run[..n]).events
    decreases n
  {
    if k < n {
      LogOnlyGrows(run, k, n - 1);
      AfterStep(run, n);
    }
  }

  /**
   Each time a VM changes hands by assignment it must have been reported without a controller
   in between: there is at most one more winner than there are such reports, and none to spare
   while the VM is free.
   */
  lemma {:induction false} WinnersBounded(run: seq<Op>, vm: string)
    requires FreshIds(run)
    ensures Winners(run, vm) <= Clearings(run, vm) + if Owned(After(run), vm) then 1 else 0
    ensures vm !in After(run).vms ==> Winners(run, vm) == Clearings(run, vm) == 0
  {
    if |run| > 0 {
      FreshPrefix(run);
      WinnersBounded(run[..|run| - 1], vm);
    }
  }

  /** Only a report with an empty controller id frees a VM. */
  lemma {:induction false} OwnedStep(s: State, op: Op, vm: string)
    requires Owned(s, vm)
    requires op.Create? ==> op.id !in s.vms
    requires !(op.Observe? && op.id == vm && op.controllerId == "")
    ensures Owned(Step(s, op).0, vm)
  {
  }

  /** Once owned, always owned, unless a report clears the owner. */
  lemma {:induction false} StaysOwned(run: seq<Op>, k: nat, n: nat, vm: string)
    requires FreshIds(run) && k <= n <= |run| && Owned(After(run[..k]), vm)
    requires forall m :: k <= m < n ==> !Clears(run, m, vm)
    ensures Owned(After(run[..n]), vm)
    decreases n
  {
    if k < n {
      StaysOwned(run, k, n - 1, vm);
      assert !Clears(run, n - 1, vm);
      OwnedStep(After(run[..n - 1]), run[n - 1], vm);
      AfterStep(run, n);
    }
  }

  /** With no report of an empty controller id, at most one assignment of a VM ever succeeds. */
  lemma {:induction false} SingleWinner(run: seq<Op>, i: nat, k: nat, vm: string)
    requires FreshIds(run) && i < |run| && k < |run| && Wins(run, i, vm) && Wins(run, k, vm)
    requires forall m :: 0 <= m < |run| ==> !Clears(run, m, vm)
    ensures i == k
  {
    if i < k {
      SecondWinner(run, i, k, vm);
    } else if k < i {
      SecondWinner(run, k, i, vm);
    }
  }

  lemma {:induction false} SecondWinner(run: seq<Op>, i: nat, k: nat, vm: string)
    requires FreshIds(run) && i < k < |run| && Wins(run, i, vm) && Wins(run, k, vm)
    ensures exists m :: i < m < k && Clears(run, m, vm)
  {
    assert run[..i + 1][..i] == run[..i];
    if forall m :: i < m < k ==> !Clears(run, m, vm) {
      StaysOwned(run, i + 1, k, vm);
    }
  }

  /** The controller last named for the VM: by its creation, which names none, or a report or claim that succeeded. */
  function LastOwner(run: seq<Op>, vm: string): Option<string> {
    if |run| == 0 then None
    else
      var n := |run| - 1;
      match run[n]
      case Create(id, _, _) => if id == vm then Some("") else LastOwner(run[..n], vm)
      case Observe(id, _, owner, _) => if id == vm && Succeeds(run, n) then Some(owner) else LastOwner(run[..n], vm)
      case Claim(id, owner, _) => if id == vm && Succeeds(run, n) then Some(owner) else LastOwner(run[..n], vm)
      case _ => LastOwner(run[..n], vm)
  }

  lemma {:induction false} OwnerIsLast(run: seq<Op>, vm: string)
    ensures LastOwner(run, vm) == if vm in After(run).vms then Some(After(run).vms[vm].controllerId) else None
  {
    if |run| > 0 {
      OwnerIsLast(run[..|run| - 1], vm);
    }
  }

  /**
   On any run, a controller's claim of a VM wins exactly when the VM exists and whatever last named
   its controller, its creation or a successful report or claim, named none.
   */
  lemma {:induction false} ClaimWinsExactly(run: seq<Op>, k: nat, vm: string)
    requires k < |run| && run[k].Claim? && run[k].id == vm && run[k].controllerId != ""
    ensures Wins(run, k, vm) <==> LastOwner(run[..k], vm) == Some("")
  {
    OwnerIsLast(run[..k], vm);
  }

  /** A report with an empty controller id does let a second controller win. */
  lemma ClearingLetsAnotherWin()
    ensures
      var run := [
        Create("vm", VMSpec([]), 1),
        Claim("vm", "a", 2),
        Observe("vm", ObsFailed, "", 3),
        Claim("vm", "b", 4)];
      FreshIds(run) && Wins(run, 1, "vm") && Clears(run, 2, "vm") && Wins(run, 3, "vm")
  {
  }
}
