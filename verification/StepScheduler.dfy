/** The agent workflow's sequential scheduler. */
module StepScheduler {
  import opened Graphs
  import opened Options

  datatype StepStatus = Pending | InProgress | Completed | Failed | Skipped | RequiresApproval

  datatype Step = Step(id: string, dependsOn: seq<string>, status: StepStatus, retryCount: nat, maxRetries: nat)

  datatype WorkflowStatus = Executing | Observing | AwaitingApproval | WorkflowCompleted | WorkflowFailed

  // What running a step's tool comes to; an exception anywhere on the way counts as Raised.
  datatype Reply = ToolCompleted | NeedsConfirmation | ToolFailed | Raised

  datatype Route = Execute | Continue | Observe | Retry | Replan | Approval | Finalize

  predicate IsPending(steps: seq<Step>, i: nat) {
    i < |steps| && steps[i].status == Pending
  }

  function CompletedIds(steps: seq<Step>): set<string> {
    set s | s in steps && s.status == Completed :: s.id
  }

  predicate Ready(steps: seq<Step>, i: nat) {
    IsPending(steps, i) && forall d :: d in steps[i].dependsOn ==> d in CompletedIds(steps)
  }

  predicate HasPending(steps: seq<Step>) {
    exists i :: 0 <= i < |steps| && IsPending(steps, i)
  }

  predicate HasFailed(steps: seq<Step>) {
    exists s :: s in steps && s.status == Failed
  }

  // The first ready step; failing that the first pending one, ready or not.
  predicate IsNextStep(steps: seq<Step>, next: Option<nat>) {
    match next
    case None => forall i :: 0 <= i < |steps| ==> !IsPending(steps, i)
    case Some(n) =>
      && IsPending(steps, n)
      && (forall i :: 0 <= i < n ==> !Ready(steps, i))
      && (!Ready(steps, n) ==>
            (forall i :: 0 <= i < |steps| ==> !Ready(steps, i)) && (forall i :: 0 <= i < n ==> !IsPending(steps, i)))
  }

  // A step is ready exactly if it is pending and each of its dependencies names a completed step.
  lemma ReadyExactlyWhen(steps: seq<Step>, i: nat)
    requires i < |steps|
    ensures Ready(steps, i) <==>
              steps[i].status == Pending &&
              forall d :: d in steps[i].dependsOn ==> exists j :: 0 <= j < |steps| && steps[j].id == d && steps[j].status == Completed
  {
    forall d
      ensures d in CompletedIds(steps) <==> exists j :: 0 <= j < |steps| && steps[j].id == d && steps[j].status == Completed
    {
      if j :| 0 <= j < |steps| && steps[j].id == d && steps[j].status == Completed {
        assert steps[j] in steps;
      }
    }
  }

  lemma PendingSomewhere(steps: seq<Step>)
    ensures HasPending(steps) <==> exists i :: 0 <= i < |steps| && steps[i].status == Pending
  {
    if i :| 0 <= i < |steps| && steps[i].status == Pending {
      assert IsPending(steps, i);
    }
  }

  class Workflow {
    var steps: seq<Step>
    var current: int
    var status: WorkflowStatus

    constructor (steps: seq<Step>)
      ensures this.steps == steps && current == -1 && status == Executing
    {
      this.steps := steps;
      current := -1;
      status := Executing;
    }

    // The first ready step; if none is ready the first pending one; none if nothing is pending.
    method FindNextStep() returns (next: Option<nat>)
      ensures next.None? <==> forall i :: 0 <= i < |steps| ==> steps[i].status != Pending
      ensures next.Some? ==>
                && next.value < |steps| && steps[next.value].status == Pending
                && (forall i: nat :: i < next.value ==> !Ready(steps, i))
                && (Ready(steps, next.value) ||
                    ((forall i: nat :: i < |steps| ==> !Ready(steps, i)) &&
                     (forall i :: 0 <= i < next.value ==> steps[i].status != Pending)))
      ensures IsNextStep(steps, next)
    {
      var completed := set s | s in steps && s.status == Completed :: s.id;
      for i := 0 to |steps|
        invariant forall j: nat :: j < i ==> !Ready(steps, j)
      {
        if steps[i].status == Pending && forall d :: d in steps[i].dependsOn ==> d in completed {
          return Some(i);
        }
      }
      for i := 0 to |steps|
        invariant forall j :: 0 <= j < i ==> steps[j].status != Pending
      {
        if steps[i].status == Pending {
          return Some(i);
        }
      }
      return None;
    }

    // The chosen step takes the status its tool's reply stands for and no other step is touched. Only a tool that
    // reports failure itself counts as a try.
    method ToolExecutor(reply: Reply) returns (executed: Option<nat>)
      modifies this
      ensures IsNextStep(old(steps), executed)
      ensures executed.None? ==> steps == old(steps) && current == old(current) && status == WorkflowCompleted
      ensures executed.Some? ==>
                && current == executed.value < |steps| == |old(steps)|
                && status == (if reply == NeedsConfirmation then AwaitingApproval else Executing)
                && steps == old(steps)[current := steps[current]]
                && steps[current] == old(steps)[current].(status := steps[current].status,
                                                         retryCount := steps[current].retryCount)
                && (steps[current].status == Completed <==> reply == ToolCompleted)
                && (steps[current].status == RequiresApproval <==> reply == NeedsConfirmation)
                && (steps[current].status == Failed <==> reply in {ToolFailed, Raised})
                && steps[current].retryCount
                     == old(steps)[current].retryCount + if reply == ToolFailed then 1 else 0
    {
      executed := FindNextStep();
      if executed.None? {
        status := WorkflowCompleted;
        return;
      }
      current := executed.value;
      status := Executing;
      var step := steps[current];
      match reply {
        case ToolCompleted =>
          step := step.(status := Completed);
        case NeedsConfirmation =>
          step := step.(status := RequiresApproval);
          status := AwaitingApproval;
        case ToolFailed =>
          step := step.(status := Failed, retryCount := step.retryCount + 1);
        case Raised =>
          step := step.(status := Failed);
      }
      steps := steps[current := step];
    }

    // The observer leaves the steps alone.
    method ObserverNode(confirmationSeen: bool)
      modifies this`status
      ensures status == if confirmationSeen then AwaitingApproval else Observing
    {
      status := if confirmationSeen then AwaitingApproval else Observing;
    }

    method RouteAfterTool() returns (route: Route)
      modifies this`current
      ensures status == AwaitingApproval ==> route == Approval
      ensures status == WorkflowFailed ==> route == Finalize
      ensures status !in {AwaitingApproval, WorkflowFailed} && 0 <= old(current) < |steps| ==>
                match steps[old(current)].status
                case Failed => route == Retry
                case RequiresApproval => route == Approval
                case Completed => route == Observe
                case _ => route == if exists i :: 0 <= i < |steps| && steps[i].status == Pending then Continue
                                   else Finalize
      ensures status !in {AwaitingApproval, WorkflowFailed} && !(0 <= old(current) < |steps|) ==>
                route == if exists i :: 0 <= i < |steps| && steps[i].status == Pending then Continue else Finalize
      ensures route == Continue ==> 0 <= current < |steps| && IsNextStep(steps, Some(current))
      ensures route != Continue ==> current == old(current)
      ensures route == Finalize && status != WorkflowFailed ==> IsNextStep(steps, None)
    {
      if status == AwaitingApproval { return Approval; }
      if status == WorkflowFailed { return Finalize; }
      if 0 <= current < |steps| {
        match steps[current].status {
          case Failed => return Retry;
          case RequiresApproval => return Approval;
          case Completed => return Observe;
          case _ =>
        }
      }
      var next := FindNextStep();
      if next.Some? {
        current := next.value;
        return Continue;
      }
      return Finalize;
    }

    method RouteAfterObservation() returns (route: Route)
      ensures route in {Execute, Retry, Replan, Finalize}
      ensures status in {WorkflowFailed, AwaitingApproval} ==> route == Finalize
      ensures status !in {WorkflowFailed, AwaitingApproval} ==>
                && (route == Execute <==>
                     (exists i :: 0 <= i < |steps| && steps[i].status == Pending) &&
                     (forall s :: s in steps ==> s.status != Failed))
                && (route in {Retry, Replan} <==> exists s :: s in steps && s.status == Failed)
                && (route == Retry <==> 0 <= current < |steps| && steps[current].status == Failed &&
                                        steps[current].retryCount < steps[current].maxRetries)
    {
      if status == WorkflowFailed || status == AwaitingApproval {
        return Finalize;
      }
      if steps != [] && forall s :: s in steps ==> s.status in {Completed, Skipped} {
        return Finalize;
      }
      if exists s :: s in steps && s.status == Failed {
        if 0 <= current < |steps| && steps[current].status == Failed &&
           steps[current].retryCount < steps[current].maxRetries {
          return Retry;
        }
        return Replan;
      }
      var next := FindNextStep();
      if next.Some? {
        return Execute;
      }
      return Finalize;
    }

    // One turn of the graph whose step completes: executor, router, observer, router.
    method CompleteOneStep() returns (n: nat, route: Route)
      requires HasPending(steps) && !HasFailed(steps)
      modifies this
      ensures status == Observing && !HasFailed(steps) && IsNextStep(old(steps), Some(n))
      ensures steps == old(steps)[n := old(steps)[n].(status := Completed)]
      ensures route == if HasPending(steps) then Execute else Finalize
    {
      assert !IsNextStep(steps, None);
      var next := ToolExecutor(ToolCompleted);
      n := next.value;
      route := RouteAfterTool();
      assert route == Observe;
      ObserverNode(false);
      forall s | s in steps
        ensures s.status != Failed
      {
        assert s == steps[n] || s in old(steps);
      }
      route := RouteAfterObservation();
      PendingSomewhere(steps);
    }

    // A run in which every executed step completes. It executes what is pending, each step once, and it respects
    // the dependencies if and only if the plan can be worked off.
    method RunToCompletion() returns (executed: seq<nat>)
      requires HasPending(steps) && !HasFailed(steps)
      modifies this
      ensures CompleteRun(old(steps), executed) && steps == AfterExecuting(old(steps), executed)
      ensures forall i, j :: 0 <= i < j < |executed| ==> executed[i] != executed[j]
      ensures forall i :: 0 <= i < |old(steps)| ==> (i in executed <==> IsPending(old(steps), i))
      ensures CanBeWorkedOff(old(steps)) ==> TopologicalOrder(old(steps), executed)
      ensures DistinctIds(old(steps)) && TopologicalOrder(old(steps), executed) ==> CanBeWorkedOff(old(steps))
    {
      executed := [];
      ghost var initial := steps;
      AfterNothing(steps);
      var route := Execute;
      while route == Execute
        invariant !HasFailed(steps) && InTurn(initial, executed) && steps == AfterExecuting(initial, executed)
        invariant route == if HasPending(steps) then Execute else Finalize
        decreases |PendingIndices(steps)|
      {
        ghost var before := steps;
        var n;
        n, route := CompleteOneStep();
        OneMoreInTurn(initial, executed, n);
        AfterOneMore(initial, executed, n);
        PendingShrinks(before, n);
        executed := executed + [n];
      }
      RunCoversPending(initial, executed);
      if CanBeWorkedOff(initial) {
        WorkableRunIsTopological(initial, executed);
      }
      if DistinctIds(initial) && TopologicalOrder(initial, executed) {
        TopologicalRunIsWorkable(initial, executed);
      }
    }
  }

  // ---------------------------------------------------------------- plans

  predicate DistinctIds(steps: seq<Step>) {
    forall i, j :: 0 <= i < j < |steps| ==> steps[i].id != steps[j].id
  }

  function PendingIds(steps: seq<Step>): set<string> {
    set s | s in steps && s.status == Pending :: s.id
  }

  function PendingDependencies(steps: seq<Step>, id: string): seq<string> {
    if steps == [] then [] else
      (if steps[0].id == id && steps[0].status == Pending then steps[0].dependsOn else []) +
      PendingDependencies(steps[1..], id)
  }

  // What the pending steps wait for, by id; several steps may share an id.
  function PendingGraph(steps: seq<Step>): Graph {
    map id | id in PendingIds(steps) :: PendingDependencies(steps, id)
  }

  // Every dependency of a pending step names a COMPLETED or PENDING one, and the pending ones do not wait for each
  // other in a circle.
  ghost predicate CanBeWorkedOff(steps: seq<Step>) {
    && (forall i: nat, d :: IsPending(steps, i) && d in steps[i].dependsOn ==> d in CompletedIds(steps) + PendingIds(steps))
    && Acyclic(PendingGraph(steps))
  }

  lemma {:induction false} InPendingDependencies(steps: seq<Step>, id: string, d: string)
    ensures d in PendingDependencies(steps, id)
       <==> exists i :: 0 <= i < |steps| && IsPending(steps, i) && steps[i].id == id && d in steps[i].dependsOn
  {
    if steps != [] {
      InPendingDependencies(steps[1..], id, d);
      if i :| 0 <= i < |steps[1..]| && IsPending(steps[1..], i) && steps[1..][i].id == id && d in steps[1..][i].dependsOn {
        assert IsPending(steps, i + 1) && d in steps[i + 1].dependsOn;
      }
      if i :| 0 <= i < |steps| && IsPending(steps, i) && steps[i].id == id && d in steps[i].dependsOn {
        if i > 0 {
          assert IsPending(steps[1..], i - 1) && d in steps[1..][i - 1].dependsOn;
        } else {
          assert IsPending(steps, 0) && d in steps[0].dependsOn;
        }
      }
    }
  }

  lemma PendingEdge(steps: seq<Step>, i: nat, d: string)
    requires IsPending(steps, i) && d in steps[i].dependsOn
    ensures d in Successors(PendingGraph(steps), steps[i].id)
  {
    InPendingDependencies(steps, steps[i].id, d);
    assert steps[i] in steps;
  }

  // On such a plan the fallback to an unready step does not fire.
  lemma PendingImpliesReady(steps: seq<Step>)
    requires CanBeWorkedOff(steps) && HasPending(steps)
    ensures exists i :: 0 <= i < |steps| && Ready(steps, i)
    ensures forall n :: IsNextStep(steps, Some(n)) ==> Ready(steps, n)
  {
    var pending := PendingIds(steps);
    var i0 :| 0 <= i0 < |steps| && IsPending(steps, i0);
    assert steps[i0] in steps && steps[i0].id in pending;
    var id := AcyclicHasSink(PendingGraph(steps), pending);
    var s :| s in steps && s.status == Pending && s.id == id;
    var i :| 0 <= i < |steps| && steps[i] == s;
    forall d | d in s.dependsOn
      ensures d in CompletedIds(steps)
    {
      assert IsPending(steps, i) && d in steps[i].dependsOn;
      PendingEdge(steps, i, d);
      assert d in CompletedIds(steps) + pending && d !in pending;
    }
    assert Ready(steps, i);
  }

  // Where a step waits for a skipped one, it is run all the same.
  lemma SkippedDependencyIsRunOver(steps: seq<Step>)
    requires |steps| == 2 && steps[0].status == Skipped && steps[1].status == Pending
    requires steps[0].id in steps[1].dependsOn && steps[0].id != steps[1].id
    ensures IsNextStep(steps, Some(1)) && !Ready(steps, 1)
  {
    assert CompletedIds(steps) == {};
  }

  // ---------------------------------------------------------------- a failure-free run, step by step

  function AfterExecuting(steps: seq<Step>, executed: seq<nat>): (r: seq<Step>)
    ensures |r| == |steps|
    ensures forall i :: 0 <= i < |steps| ==>
              r[i] == if i in executed then steps[i].(status := Completed) else steps[i]
  {
    seq(|steps|, i requires 0 <= i < |steps| =>
      if i in executed then steps[i].(status := Completed) else steps[i])
  }

  predicate ChosenAt(steps: seq<Step>, executed: seq<nat>, k: nat)
    requires k < |executed|
  {
    IsNextStep(AfterExecuting(steps, executed[..k]), Some(executed[k]))
  }

  // Every step executed is the one the scheduler picks after those before it.
  predicate InTurn(steps: seq<Step>, executed: seq<nat>) {
    forall k :: 0 <= k < |executed| ==> ChosenAt(steps, executed, k)
  }

  predicate ExecutesPending(steps: seq<Step>, executed: seq<nat>) {
    forall k :: 0 <= k < |executed| ==> IsPending(steps, executed[k])
  }

  predicate CompleteRun(steps: seq<Step>, executed: seq<nat>) {
    InTurn(steps, executed) && !HasPending(AfterExecuting(steps, executed))
  }

  predicate ReadyAt(steps: seq<Step>, executed: seq<nat>, k: nat)
    requires k < |executed|
  {
    Ready(AfterExecuting(steps, executed[..k]), executed[k])
  }

  predicate NeverFallsBack(steps: seq<Step>, executed: seq<nat>) {
    forall k :: 0 <= k < |executed| ==> ReadyAt(steps, executed, k)
  }

  // Some step of that id was COMPLETED at the start or has been executed by now.
  predicate Satisfied(steps: seq<Step>, executed: seq<nat>, d: string) {
    exists j :: 0 <= j < |steps| && steps[j].id == d && (steps[j].status == Completed || j in executed)
  }

  predicate InOrderAt(steps: seq<Step>, executed: seq<nat>, k: nat)
    requires k < |executed|
  {
    executed[k] < |steps| && forall d :: d in steps[executed[k]].dependsOn ==> Satisfied(steps, executed[..k], d)
  }

  predicate TopologicalOrder(steps: seq<Step>, executed: seq<nat>) {
    forall k :: 0 <= k < |executed| ==> InOrderAt(steps, executed, k)
  }

  function PendingIndices(steps: seq<Step>): set<nat> {
    set i | 0 <= i < |steps| && IsPending(steps, i)
  }

  lemma AfterNothing(steps: seq<Step>)
    ensures AfterExecuting(steps, []) == steps
  {
  }

  lemma AfterOneMore(steps: seq<Step>, executed: seq<nat>, n: nat)
    requires n < |steps|
    ensures var mid := AfterExecuting(steps, executed);
            AfterExecuting(steps, executed + [n]) == mid[n := mid[n].(status := Completed)]
  {
  }

  lemma OneMoreInTurn(steps: seq<Step>, executed: seq<nat>, n: nat)
    requires InTurn(steps, executed) && IsNextStep(AfterExecuting(steps, executed), Some(n))
    ensures InTurn(steps, executed + [n])
  {
    var longer := executed + [n];
    forall k | 0 <= k < |longer|
      ensures ChosenAt(steps, longer, k)
    {
      assert longer[..k] == executed[..k];
      if k < |executed| {
        assert ChosenAt(steps, executed, k);
      } else {
        assert executed[..k] == executed;
      }
    }
  }

  lemma PendingShrinks(steps: seq<Step>, n: nat)
    requires IsPending(steps, n)
    ensures |PendingIndices(steps[n := steps[n].(status := Completed)])| < |PendingIndices(steps)|
  {
    assert PendingIndices(steps[n := steps[n].(status := Completed)]) == PendingIndices(steps) - {n};
  }

  lemma ChosenIsPending(steps: seq<Step>, executed: seq<nat>, k: nat)
    requires k < |executed| && ChosenAt(steps, executed, k)
    ensures IsPending(steps, executed[k]) && executed[k] !in executed[..k]
  {
  }

  // A complete run executes what is pending, each step once.
  lemma RunCoversPending(steps: seq<Step>, executed: seq<nat>)
    requires CompleteRun(steps, executed)
    ensures forall i, j :: 0 <= i < j < |executed| ==> executed[i] != executed[j]
    ensures forall i :: 0 <= i < |steps| ==> (i in executed <==> IsPending(steps, i))
    ensures ExecutesPending(steps, executed)
  {
    forall k | 0 <= k < |executed|
      ensures IsPending(steps, executed[k]) && executed[k] !in executed[..k]
    {
      assert ChosenAt(steps, executed, k);
      ChosenIsPending(steps, executed, k);
    }
    forall i, j | 0 <= i < j < |executed|
      ensures executed[i] != executed[j]
    {
      assert executed[..j][i] == executed[i];
    }
    forall i | 0 <= i < |steps| && i !in executed
      ensures !IsPending(steps, i)
    {
      assert !IsPending(AfterExecuting(steps, executed), i);
    }
  }

  // ---------------------------------------------------------------- when dependencies are respected

  lemma CompletedAfter(steps: seq<Step>, executed: seq<nat>, d: string)
    ensures d in CompletedIds(AfterExecuting(steps, executed)) <==> Satisfied(steps, executed, d)
  {
    var after := AfterExecuting(steps, executed);
    if d in CompletedIds(after) {
      var s :| s in after && s.status == Completed && s.id == d;
      var j :| 0 <= j < |after| && after[j] == s;
    }
    if j :| 0 <= j < |steps| && steps[j].id == d && (steps[j].status == Completed || j in executed) {
      assert after[j] in after;
    }
  }

  // A run never falls back to an unready step exactly when its order is topological.
  lemma ReadyMeansInOrder(steps: seq<Step>, executed: seq<nat>, k: nat)
    requires k < |executed| && ChosenAt(steps, executed, k)
    ensures ReadyAt(steps, executed, k) <==> InOrderAt(steps, executed, k)
  {
    forall d | d in steps[executed[k]].dependsOn
      ensures d in CompletedIds(AfterExecuting(steps, executed[..k])) <==> Satisfied(steps, executed[..k], d)
    {
      CompletedAfter(steps, executed[..k], d);
    }
  }

  lemma StillKnown(steps: seq<Step>, executed: seq<nat>, d: string)
    requires d in CompletedIds(steps) + PendingIds(steps)
    ensures var after := AfterExecuting(steps, executed);
            d in CompletedIds(after) + PendingIds(after)
  {
    var after := AfterExecuting(steps, executed);
    var s :| s in steps && s.status in {Completed, Pending} && s.id == d;
    var i :| 0 <= i < |steps| && steps[i] == s;
    assert after[i] in after;
  }

  lemma EdgeOfAfter(steps: seq<Step>, executed: seq<nat>, id: string, d: string)
    requires d in Successors(PendingGraph(AfterExecuting(steps, executed)), id)
    ensures d in Successors(PendingGraph(steps), id)
  {
    var after := AfterExecuting(steps, executed);
    InPendingDependencies(after, id, d);
    var i :| 0 <= i < |after| && IsPending(after, i) && after[i].id == id && d in after[i].dependsOn;
    PendingEdge(steps, i, d);
  }

  lemma StillWorkable(steps: seq<Step>, executed: seq<nat>)
    requires CanBeWorkedOff(steps)
    ensures CanBeWorkedOff(AfterExecuting(steps, executed))
  {
    var after := AfterExecuting(steps, executed);
    forall i: nat, d | IsPending(after, i) && d in after[i].dependsOn
      ensures d in CompletedIds(after) + PendingIds(after)
    {
      assert IsPending(steps, i) && d in steps[i].dependsOn;
      StillKnown(steps, executed, d);
    }
    forall p | IsCycle(PendingGraph(after), p)
      ensures false
    {
      forall i | 0 <= i < |p| - 1
        ensures p[i + 1] in Successors(PendingGraph(steps), p[i])
      {
        EdgeOfAfter(steps, executed, p[i], p[i + 1]);
      }
      assert IsCycle(PendingGraph(steps), p);
    }
  }

  lemma WorkableRunIsTopological(steps: seq<Step>, executed: seq<nat>)
    requires CanBeWorkedOff(steps) && InTurn(steps, executed)
    ensures TopologicalOrder(steps, executed) && NeverFallsBack(steps, executed)
  {
    forall k | 0 <= k < |executed|
      ensures ReadyAt(steps, executed, k) && InOrderAt(steps, executed, k)
    {
      assert ChosenAt(steps, executed, k);
      StillWorkable(steps, executed[..k]);
      PendingImpliesReady(AfterExecuting(steps, executed[..k]));
      ReadyMeansInOrder(steps, executed, k);
    }
  }

  lemma SameIdSameStep(steps: seq<Step>, i: nat, j: nat)
    requires DistinctIds(steps) && i < |steps| && j < |steps| && steps[i].id == steps[j].id
    ensures i == j
  {
    assert !(i < j) && !(j < i);
  }

  // In such a run every dependency of an executed step was done before: by an earlier one if it was pending.
  lemma DependencyComesFirst(steps: seq<Step>, executed: seq<nat>, k: nat, d: string)
    requires DistinctIds(steps) && TopologicalOrder(steps, executed)
    requires ExecutesPending(steps, executed)
    requires k < |executed| && d in steps[executed[k]].dependsOn
    ensures d in CompletedIds(steps) + PendingIds(steps)
    ensures d in PendingIds(steps) ==> exists m :: 0 <= m < k && steps[executed[m]].id == d
  {
    assert InOrderAt(steps, executed, k);
    var j :| 0 <= j < |steps| && steps[j].id == d && (steps[j].status == Completed || j in executed[..k]);
    assert steps[j] in steps;
    if d in PendingIds(steps) {
      var s :| s in steps && s.status == Pending && s.id == d;
      var i :| 0 <= i < |steps| && steps[i] == s;
      SameIdSameStep(steps, i, j);
      var m :| 0 <= m < k && executed[m] == j;
    }
  }

  // So along the edges of the pending graph the run goes backwards.
  lemma {:induction false} PathGoesBack(steps: seq<Step>, executed: seq<nat>, p: seq<Node>, k: nat) returns (m: nat)
    requires DistinctIds(steps) && TopologicalOrder(steps, executed)
    requires ExecutesPending(steps, executed)
    requires IsPath(PendingGraph(steps), p) && forall i :: 0 <= i < |p| ==> p[i] in PendingIds(steps)
    requires k < |executed| && steps[executed[k]].id == p[0]
    ensures m <= k - (|p| - 1) && m < |executed| && steps[executed[m]].id == p[|p| - 1]
  {
    if |p| == 1 {
      m := k;
    } else {
      var edge := p[0 + 1];
      InPendingDependencies(steps, p[0], edge);
      var i :| 0 <= i < |steps| && IsPending(steps, i) && steps[i].id == p[0] && edge in steps[i].dependsOn;
      assert IsPending(steps, executed[k]);
      SameIdSameStep(steps, i, executed[k]);
      DependencyComesFirst(steps, executed, k, edge);
      var next :| 0 <= next < k && steps[executed[next]].id == edge;
      m := PathGoesBack(steps, executed, p[1..], next);
    }
  }

  lemma CycleIsPending(steps: seq<Step>, p: seq<Node>)
    requires IsCycle(PendingGraph(steps), p)
    ensures forall i :: 0 <= i < |p| ==> p[i] in PendingIds(steps)
  {
    forall i | 0 <= i < |p| - 1
      ensures p[i] in PendingIds(steps)
    {
      assert p[i + 1] in Successors(PendingGraph(steps), p[i]);
    }
  }

  lemma TopologicalRunIsWorkable(steps: seq<Step>, executed: seq<nat>)
    requires DistinctIds(steps) && CompleteRun(steps, executed) && TopologicalOrder(steps, executed)
    ensures CanBeWorkedOff(steps)
  {
    RunCoversPending(steps, executed);
    forall i: nat, d | IsPending(steps, i) && d in steps[i].dependsOn
      ensures d in CompletedIds(steps) + PendingIds(steps)
    {
      var k :| 0 <= k < |executed| && executed[k] == i;
      DependencyComesFirst(steps, executed, k, d);
    }
    forall p
      ensures !IsCycle(PendingGraph(steps), p)
    {
      if IsCycle(PendingGraph(steps), p) {
        CycleIsPending(steps, p);
        PathEndsElsewhere(steps, executed, p);
      }
    }
  }

  lemma PathEndsElsewhere(steps: seq<Step>, executed: seq<nat>, p: seq<Node>)
    requires DistinctIds(steps) && TopologicalOrder(steps, executed) && ExecutesPending(steps, executed)
    requires forall i :: 0 <= i < |steps| && IsPending(steps, i) ==> i in executed
    requires forall i, j :: 0 <= i < j < |executed| ==> executed[i] != executed[j]
    requires IsPath(PendingGraph(steps), p) && |p| >= 2 && forall i :: 0 <= i < |p| ==> p[i] in PendingIds(steps)
    ensures p[0] != p[|p| - 1]
  {
    assert p[0] in PendingIds(steps);
    var s :| s in steps && s.status == Pending && s.id == p[0];
    var i :| 0 <= i < |steps| && steps[i] == s;
    assert IsPending(steps, i);
    var k :| 0 <= k < |executed| && executed[k] == i;
    var m := PathGoesBack(steps, executed, p, k);
    assert executed[m] != executed[k];
  }

  // A failure-free run of a plan with distinct ids never falls back to an unready step if and only if the plan can
  // be worked off.
  lemma FallbackExactlyWhen(steps: seq<Step>, executed: seq<nat>)
    requires DistinctIds(steps) && CompleteRun(steps, executed)
    ensures NeverFallsBack(steps, executed) <==> CanBeWorkedOff(steps)
    ensures NeverFallsBack(steps, executed) <==> TopologicalOrder(steps, executed)
  {
    forall k | 0 <= k < |executed|
      ensures ReadyAt(steps, executed, k) <==> InOrderAt(steps, executed, k)
    {
      assert ChosenAt(steps, executed, k);
      ReadyMeansInOrder(steps, executed, k);
    }
    if CanBeWorkedOff(steps) {
      WorkableRunIsTopological(steps, executed);
    }
    if TopologicalOrder(steps, executed) {
      TopologicalRunIsWorkable(steps, executed);
    }
  }
}
