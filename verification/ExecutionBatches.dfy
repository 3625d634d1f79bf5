/** ToolPlanEngine.get_execution_order, which plans batches but never advances a step's status. */
module ExecutionBatches {

  datatype StepStatus = Pending | Running | Completed | Failed | Skipped | RequiresApproval

  datatype PlanStep = PlanStep(id: string, dependsOn: seq<string>, status: StepStatus, circular: bool)

  // step_map keeps the last step of each id.
  predicate IsLastOf(steps: seq<PlanStep>, id: string, j: nat) {
    j < |steps| && steps[j].id == id && forall k :: j < k < |steps| ==> steps[k].id != id
  }

  // Every dependency is unknown to the plan or already COMPLETED.
  predicate Runnable(steps: seq<PlanStep>, i: nat) {
    i < |steps| &&
    forall d, j :: d in steps[i].dependsOn && 0 <= j < |steps| && IsLastOf(steps, d, j) ==>
      steps[j].status == Completed
  }

  function Keep(positions: seq<nat>, p: nat -> bool): (r: seq<nat>)
    ensures forall i :: i in r <==> i in positions && p(i)
  {
    if positions == [] then [] else
      Keep(positions[..|positions| - 1], p) +
      if p(positions[|positions| - 1]) then [positions[|positions| - 1]] else []
  }

  function UpTo(n: nat): (r: seq<nat>)
    ensures forall i: nat :: i in r <==> i < n
  {
    if n == 0 then [] else UpTo(n - 1) + [n - 1]
  }

  function Positions(steps: seq<PlanStep>): seq<nat> {
    UpTo(|steps|)
  }

  function MarkCircular(steps: seq<PlanStep>, remaining: seq<nat>): (r: seq<PlanStep>)
    ensures |r| == |steps|
    ensures forall i: nat :: i < |steps| ==>
              r[i] == if i in remaining then steps[i].(status := Failed, circular := true) else steps[i]
  {
    seq(|steps|, i requires 0 <= i < |steps| =>
      if i in remaining then steps[i].(status := Failed, circular := true) else steps[i])
  }

  function RunnableOf(steps: seq<PlanStep>, positions: seq<nat>): seq<nat> {
    Keep(positions, (i: nat) => Runnable(steps, i))
  }

  predicate InOrder(positions: seq<nat>) {
    forall q, r :: 0 <= q < r < |positions| ==> positions[q] < positions[r]
  }

  lemma {:induction false} KeepInOrder(positions: seq<nat>, p: nat -> bool)
    requires InOrder(positions)
    ensures InOrder(Keep(positions, p))
  {
    if positions != [] {
      var init, last := positions[..|positions| - 1], positions[|positions| - 1];
      KeepInOrder(init, p);
      forall q | 0 <= q < |Keep(init, p)|
        ensures Keep(init, p)[q] < last
      {
        assert Keep(init, p)[q] in init;
      }
    }
  }

  lemma {:induction false} UpToInOrder(n: nat)
    ensures InOrder(UpTo(n))
  {
    if n != 0 {
      UpToInOrder(n - 1);
      var below := UpTo(n - 1);
      forall q | 0 <= q < |below|
        ensures below[q] < n - 1
      {
        assert below[q] in below;
      }
    }
  }

  // The batch keeps the order of the plan.
  lemma RunnableInOrder(steps: seq<PlanStep>)
    ensures InOrder(RunnableOf(steps, Positions(steps)))
  {
    UpToInOrder(|steps|);
    KeepInOrder(Positions(steps), (i: nat) => Runnable(steps, i));
  }

  // A step is left out exactly if something it depends on is in the plan and not COMPLETED: pending, running, failed,
  // skipped or waiting for approval. Of steps that share an id the last one counts.
  lemma LeftOutExactlyWhen(steps: seq<PlanStep>, i: nat)
    requires i < |steps|
    ensures i !in RunnableOf(steps, Positions(steps)) <==>
              exists d, j :: d in steps[i].dependsOn && 0 <= j < |steps| && steps[j].id == d &&
                             (forall k :: j < k < |steps| ==> steps[k].id != d) &&
                             steps[j].status in {Pending, Running, Failed, Skipped, RequiresApproval}
  {
    if !Runnable(steps, i) {
      var d, j :| d in steps[i].dependsOn && 0 <= j < |steps| && IsLastOf(steps, d, j) && steps[j].status != Completed;
      assert steps[j].id == d;
    }
    if d, j :| d in steps[i].dependsOn && 0 <= j < |steps| && steps[j].id == d &&
               (forall k :: j < k < |steps| ==> steps[k].id != d) && steps[j].status != Completed {
      assert IsLastOf(steps, d, j);
    }
  }

  class ToolPlan {
    var steps: seq<PlanStep>

    constructor (steps: seq<PlanStep>)
      ensures this.steps == steps
    {
      this.steps := steps;
    }

    // At most one batch comes back, whatever the plan: the steps, in order, all of whose dependencies are unknown to
    // the plan or COMPLETED; a pending, running, failed or skipped dependency keeps a step out. Every step left out is
    // marked circular.
    method GetExecutionOrder() returns (batches: seq<seq<nat>>)
      modifies this
      ensures var ready := RunnableOf(old(steps), Positions(old(steps)));
              batches == if ready == [] then [] else [ready]
      ensures |steps| == |old(steps)|
      ensures forall i: nat :: i < |steps| ==>
                steps[i] == if Runnable(old(steps), i) then old(steps)[i]
                            else old(steps)[i].(status := Failed, circular := true)
    {
      batches := [];
      ghost var all := steps;
      var remaining: seq<nat> := Positions(steps);
      while remaining != []
        invariant steps == all
        invariant batches == [] ==> remaining == Positions(all)
        invariant batches != [] ==> batches == [RunnableOf(all, Positions(all))] && batches[0] != []
        invariant batches != [] ==> forall i: nat :: i in remaining <==> i < |all| && !Runnable(all, i)
        decreases |remaining|
      {
        var batch := RunnableOf(steps, remaining);
        if batch == [] {
          assert forall i: nat :: i !in batch;
          steps := MarkCircular(steps, remaining);
          break;
        }
        assert batch[0] in batch;
        batches := batches + [batch];
        remaining := Without(remaining, batch);
      }
    }
  }

  // remaining.remove(s) for every s of the batch
  function Without(remaining: seq<nat>, batch: seq<nat>): (r: seq<nat>)
    ensures forall i :: i in r <==> i in remaining && i !in batch
    ensures (exists i :: i in batch && i in remaining) ==> |r| < |remaining|
  {
    var r := Keep(remaining, (i: nat) => i !in batch);
    KeepShrinks(remaining, (i: nat) => i !in batch);
    r
  }

  lemma {:induction false} KeepShrinks(positions: seq<nat>, p: nat -> bool)
    ensures |Keep(positions, p)| <= |positions|
    ensures (exists i :: i in positions && !p(i)) ==> |Keep(positions, p)| < |positions|
  {
    if positions != [] {
      KeepShrinks(positions[..|positions| - 1], p);
    }
  }

  // A two-step chain: only the head comes back, and its successor is condemned as circular though
  // nothing is.
  lemma ChainIsCalledCircular(a: PlanStep, b: PlanStep)
    requires a.id == "a" && b.id == "b" && a.dependsOn == [] && b.dependsOn == ["a"] && a.status == Pending
    ensures RunnableOf([a, b], Positions([a, b])) == [0] && !Runnable([a, b], 1)
  {
    var steps := [a, b];
    assert IsLastOf(steps, "a", 0) && "a" in steps[1].dependsOn;
    assert UpTo(1) == [0] && UpTo(2) == [0] + [1];
    var p := (i: nat) => Runnable(steps, i);
    var none, one: seq<nat> := [], [0];
    assert Runnable(steps, 0) && one[..0] == none;
    assert Keep(one, p) == [0];
    assert (one + [1])[..1] == one;
  }

  // The result covers the plan exactly when no step waits for one that has yet to complete.
  lemma CoversPlanIffNothingWaits(steps: seq<PlanStep>)
    ensures RunnableOf(steps, Positions(steps)) == Positions(steps) <==>
            forall i: nat :: i < |steps| ==> Runnable(steps, i)
  {
    if forall i: nat :: i < |steps| ==> Runnable(steps, i) {
      KeepAll(Positions(steps), (i: nat) => Runnable(steps, i));
    } else {
      var i: nat :| i < |steps| && !Runnable(steps, i);
      assert i in Positions(steps) && i !in RunnableOf(steps, Positions(steps));
    }
  }

  lemma {:induction false} KeepAll(positions: seq<nat>, p: nat -> bool)
    requires forall i :: i in positions ==> p(i)
    ensures Keep(positions, p) == positions
  {
    if positions != [] {
      var init, last := positions[..|positions| - 1], positions[|positions| - 1];
      assert last in positions;
      forall i | i in init
        ensures p(i)
      {
        assert i in positions;
      }
      KeepAll(init, p);
      assert positions == init + [last];
    }
  }
}
