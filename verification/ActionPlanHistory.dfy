/** What sequences of apply calls do to records, versions and the change log. */
module ActionPlanHistory {
  import opened Options
  import opened ActionPlanModel

  // Between two apply calls of one plan anybody else may change records, fields and the log.
  // A call is recorded with the actions it carried out. One that failed may mark the plan later, by the status it
  // read in some state after its rollback.
  datatype Step =
    | Called(call: Call, outcome: Outcome, carried: seq<Action>)
    | Marked(failed: nat, looked: nat, seen: PlanStatus)
    | Elsewhere

  function Effect(s: State, call: Call, outcome: Outcome): seq<Action> {
    if CarriedOut(outcome) && WithinPlan(s.plan, Requested(s.plan, call)) then Selected(s.plan, Requested(s.plan, call))
    else []
  }

  predicate StepHolds(s: State, step: Step, s': State) {
    match step
    case Called(call, outcome, carried) =>
      DistinctRequest(call) && ApplyStep(s, call, s', outcome) && carried == Effect(s, call, outcome)
    case Marked(_, _, seen) => s' == s.(plan := AfterFailure(s.plan, seen))
    case Elsewhere => s'.plan == s.plan
  }

  // A well-formed plan and everything that happens to the database from then on.
  datatype Trace = Trace(states: seq<State>, steps: seq<Step>)

  predicate StepAt(t: Trace, i: nat)
    requires |t.states| == |t.steps| + 1 && i < |t.steps|
  {
    StepHolds(t.states[i], t.steps[i], t.states[i + 1]) && (t.steps[i].Marked? ==> MarkIsDue(t, i))
  }

  // Each failed call marks once, and by what it read between its rollback and now.
  predicate MarkIsDue(t: Trace, i: nat)
    requires |t.states| == |t.steps| + 1 && i < |t.steps| && t.steps[i].Marked?
  {
    var failed, looked := t.steps[i].failed, t.steps[i].looked;
    && failed < looked <= i
    && t.steps[failed].Called? && t.steps[failed].outcome in {Failed, Raised}
    && t.steps[i].seen == t.states[looked].plan.status
    && forall j :: 0 <= j < i && t.steps[j].Marked? ==> t.steps[j].failed != failed
  }

  predicate IsRun(t: Trace) {
    && |t.states| == |t.steps| + 1 && WellFormed(t.states[0].plan)
    && forall i :: 0 <= i < |t.steps| ==> StepAt(t, i)
  }

  const NO_PLAN := State(map[], map[], [], Plan([], {}, map[], Previewed, []))

  type Run = t: Trace | IsRun(t) witness Trace([NO_PLAN], [])

  predicate NobodyElse(run: Run) {
    forall i :: 0 <= i < |run.steps| ==> !run.steps[i].Elsewhere?
  }

  // The actions a step carried out.
  function Done(step: Step): seq<Action> {
    if step.Called? then step.carried else []
  }

  predicate TookEffect(run: Run, i: nat, id: string)
    requires i < |run.steps|
  {
    id in AppliedIds(Done(run.steps[i]))
  }

  // ---------------------------------------------------------------- one call

  // Nothing moves unless the call's commit lands, whatever its caller is told. That costs one version for every
  // record whose data now reads differently and leaves every other record exactly as it was.
  lemma CallIsAllOrNothing(s: State, call: Call, s': State, outcome: Outcome)
    requires ApplyStep(s, call, s', outcome)
    ensures CarriedOut(outcome) <==>
              && WithinPlan(s.plan, Requested(s.plan, call))
              && Selected(s.plan, Requested(s.plan, call)) != []
              && Passes(s, call, Selected(s.plan, Requested(s.plan, call)))
    ensures outcome == Committed <==> CarriedOut(outcome) && call.fate == Lands
    ensures !CarriedOut(outcome) ==> s' == s
    ensures s'.records == s.records ==> s'.log == s.log && s'.plan.changeSets == s.plan.changeSets
    ensures s'.records != s.records ==>
              && |s'.log| == |s.log| + 1 && s'.log[..|s.log|] == s.log
              && s'.plan.changeSets == s.plan.changeSets + [|s.log|]
    ensures forall k :: k in s.records ==>
              && k in s'.records
              && (SameData(s.records[k].data, s'.records[k].data) ==> s'.records[k] == s.records[k])
              && (!SameData(s.records[k].data, s'.records[k].data) ==>
                    CarriedOut(outcome) && s'.records[k].version == VersionOf(s.records[k]) + 1)
  {
  }

  // Data reads the same if every field does, a missing one counting as null; a version below one counts as one.
  lemma ReadsTheSame(a: Data, b: Data, r: Record)
    ensures SameData(a, b) <==> forall f ::
              (if f in a then a[f] else Null) == (if f in b then b[f] else Null)
    ensures VersionOf(r) == if r.version == 0 then 1 else r.version
  {
    if SameData(a, b) {
      forall f
        ensures Get(a, f) == Get(b, f)
      {
        assert f in a.Keys + b.Keys ==> Get(a, f) == Get(b, f);
      }
    }
  }

  // The same for a step of a run: a mark moves no record.
  lemma RunStepIsExact(run: Run, i: nat, key: RecordKey)
    requires NobodyElse(run) && i < |run.steps| && key in run.states[i].records
    ensures var before, after := run.states[i].records, run.states[i + 1].records;
            && key in after
            && (SameData(before[key].data, after[key].data) ==> after[key] == before[key])
            && (!SameData(before[key].data, after[key].data) ==> after[key].version == VersionOf(before[key]) + 1)
  {
    assert StepAt(run, i);
    if run.steps[i].Called? {
      CallIsAllOrNothing(run.states[i], run.steps[i].call, run.states[i + 1], run.steps[i].outcome);
    }
  }

  // ---------------------------------------------------------------- at most once

  lemma StepAppliesItsEffect(s: State, step: Step, s': State)
    requires StepHolds(s, step, s')
    ensures s'.plan.applied == s.plan.applied + AppliedIds(Done(step))
    ensures s'.plan.actions == s.plan.actions
  {
    if Done(step) == [] {
      assert AppliedIds(Done(step)) == {};
    }
  }

  lemma RunApplies(run: Run, i: nat)
    requires i < |run.steps|
    ensures run.states[i + 1].plan.applied == run.states[i].plan.applied + AppliedIds(Done(run.steps[i]))
    ensures run.states[i + 1].plan.actions == run.states[i].plan.actions
    ensures forall a :: a in Done(run.steps[i]) ==> a in run.states[i].plan.actions && a.id !in run.states[i].plan.applied
  {
    assert StepAt(run, i);
    StepAppliesItsEffect(run.states[i], run.steps[i], run.states[i + 1]);
  }

  lemma {:induction false} AppliedOnlyGrows(run: Run, i: nat, j: nat)
    requires i <= j < |run.states|
    ensures run.states[i].plan.applied <= run.states[j].plan.applied
    ensures run.states[i].plan.actions == run.states[j].plan.actions
  {
    if i < j {
      AppliedOnlyGrows(run, i, j - 1);
      RunApplies(run, j - 1);
    }
  }

  // Whatever else goes on, an action is carried out by one step at most, and it counts as applied from then on.
  lemma EffectAtMostOnce(run: Run, id: string, i: nat, j: nat)
    requires i < j < |run.steps|
    requires TookEffect(run, i, id)
    ensures id in run.states[j].plan.applied && !TookEffect(run, j, id)
  {
    RunApplies(run, i);
    AppliedOnlyGrows(run, i + 1, j);
    NoEffectOnceApplied(run, id, j);
  }

  lemma NoEffectOnceApplied(run: Run, id: string, i: nat)
    requires i < |run.steps| && id in run.states[i].plan.applied
    ensures !TookEffect(run, i, id)
  {
    RunApplies(run, i);
  }

  // What counts as applied has been carried out by some step, or was applied to begin with.
  lemma {:induction false} AppliedBySomeStep(run: Run, id: string, n: nat)
    requires n < |run.states|
    ensures id in run.states[n].plan.applied <==> id in run.states[0].plan.applied || EverTookEffect(run, n, id)
  {
    if n != 0 {
      AppliedBySomeStep(run, id, n - 1);
      AppliedByThisStep(run, id, n - 1);
      EffectSoFar(run, n - 1, id);
    }
  }

  predicate EverTookEffect(run: Run, n: nat, id: string)
    requires n <= |run.steps|
  {
    exists i :: 0 <= i < n && TookEffect(run, i, id)
  }

  lemma EffectSoFar(run: Run, n: nat, id: string)
    requires n < |run.steps|
    ensures EverTookEffect(run, n + 1, id)
       <==> EverTookEffect(run, n, id) || TookEffect(run, n, id)
  {
  }

  lemma AppliedByThisStep(run: Run, id: string, i: nat)
    requires i < |run.steps|
    ensures id in run.states[i + 1].plan.applied <==> id in run.states[i].plan.applied || TookEffect(run, i, id)
  {
    RunApplies(run, i);
  }

  // ---------------------------------------------------------------- what the status says

  predicate StatusHonest(plan: Plan) {
    && plan.applied <= AppliedIds(plan.actions)
    && (plan.applied == {} <==> plan.status == Previewed || plan.status == ApplyFailed)
    && (plan.status == Applied ==> AppliedIds(plan.actions) <= plan.applied)
    && (plan.status == PartiallyApplied ==> !(AppliedIds(plan.actions) <= plan.applied))
  }

  predicate CommitsAt(run: Run, i: nat)
    requires i < |run.steps|
  {
    Done(run.steps[i]) != []
  }

  // A mark written when something has been applied since its call looked
  predicate LateMark(run: Run, i: nat)
    requires i < |run.steps|
  {
    run.steps[i].Marked? && run.steps[i].seen == Previewed && run.states[i].plan.applied != {}
  }

  // Since the last commit a late mark has been written.
  predicate OverwrittenLate(run: Run, n: nat)
    requires n <= |run.steps|
  {
    exists i :: 0 <= i < n && LateMark(run, i) && forall j :: i < j < n ==> !CommitsAt(run, j)
  }

  lemma OverwrittenOneMore(run: Run, n: nat)
    requires n < |run.steps|
    ensures OverwrittenLate(run, n + 1) <==> LateMark(run, n) || (OverwrittenLate(run, n) && !CommitsAt(run, n))
  {
    if OverwrittenLate(run, n) && !CommitsAt(run, n) {
      var i :| 0 <= i < n && LateMark(run, i) && forall j :: i < j < n ==> !CommitsAt(run, j);
      assert forall j :: i < j < n + 1 ==> !CommitsAt(run, j);
    }
  }

  // Whatever was written over it before, the status is honest directly after a commit.
  lemma HonestAfterCommit(run: Run, i: nat)
    requires i < |run.steps| && CommitsAt(run, i)
    requires run.states[i].plan.applied <= AppliedIds(run.states[i].plan.actions)
    ensures var plan := run.states[i + 1].plan;
            && plan.applied != {}
            && plan.status == if forall a :: a in plan.actions ==> a.id in plan.applied then Applied else PartiallyApplied
    ensures StatusHonest(run.states[i + 1].plan)
  {
    RunApplies(run, i);
    assert Done(run.steps[i])[0].id in AppliedIds(Done(run.steps[i]));
    assert StepAt(run, i);
  }

  lemma HonestStep(run: Run, i: nat)
    requires i < |run.steps| && !CommitsAt(run, i)
    requires run.states[i].plan.applied <= AppliedIds(run.states[i].plan.actions)
    ensures LateMark(run, i) ==> !StatusHonest(run.states[i + 1].plan)
    ensures !LateMark(run, i) && StatusHonest(run.states[i].plan) ==> StatusHonest(run.states[i + 1].plan)
    ensures run.states[i].plan.applied != {} && !StatusHonest(run.states[i].plan) ==> !StatusHonest(run.states[i + 1].plan)
  {
    RunApplies(run, i);
    assert StepAt(run, i);
  }

  lemma {:induction false} OverwrittenHasApplied(run: Run, n: nat)
    requires n < |run.states| && OverwrittenLate(run, n)
    ensures run.states[n].plan.applied != {}
  {
    var i :| 0 <= i < n && LateMark(run, i) && forall j :: i < j < n ==> !CommitsAt(run, j);
    AppliedOnlyGrows(run, i, n);
  }

  lemma {:induction false} AppliedStaysInPlan(run: Run, n: nat)
    requires n < |run.states| && run.states[0].plan.applied <= AppliedIds(run.states[0].plan.actions)
    ensures run.states[n].plan.applied <= AppliedIds(run.states[n].plan.actions)
  {
    if n != 0 {
      AppliedStaysInPlan(run, n - 1);
      RunApplies(run, n - 1);
    }
  }

  // The status says what has been applied unless a call that failed before the first commit has marked the plan
  // since the last one.
  lemma {:induction false} StatusHonestExactlyWhen(run: Run, n: nat)
    requires n < |run.states| && StatusHonest(run.states[0].plan)
    ensures StatusHonest(run.states[n].plan) <==> !OverwrittenLate(run, n)
  {
    if n != 0 {
      StatusHonestExactlyWhen(run, n - 1);
      AppliedStaysInPlan(run, n - 1);
      OverwrittenOneMore(run, n - 1);
      if CommitsAt(run, n - 1) {
        HonestAfterCommit(run, n - 1);
      } else {
        if OverwrittenLate(run, n - 1) {
          OverwrittenHasApplied(run, n - 1);
        }
        HonestStep(run, n - 1);
      }
    }
  }

  // ---------------------------------------------------------------- data

  predicate Writes(a: Action, key: RecordKey, field: string) {
    a.Update? && a.key == key && a.field == field
  }

  // What a field should read once the given actions have been applied to a record: the suggestion of the one
  // that names it, else what it read before.
  function Planned(before: Data, actions: seq<Action>, ids: set<string>, key: RecordKey, field: string): Value {
    if actions == [] then Get(before, field) else
      var last := actions[|actions| - 1];
      if Writes(last, key, field) && last.id in ids then last.suggested
      else Planned(before, actions[..|actions| - 1], ids, key, field)
  }

  ghost predicate AsPlanned(before: Data, actions: seq<Action>, ids: set<string>, key: RecordKey, after: Data) {
    forall f :: Get(after, f) == Planned(before, actions, ids, key, f)
  }

  lemma {:induction false} PlannedHit(before: Data, actions: seq<Action>, ids: set<string>, i: nat)
    requires i < |actions| && actions[i].Update? && actions[i].id in ids && DistinctTargets(actions)
    ensures Planned(before, actions, ids, actions[i].key, actions[i].field) == actions[i].suggested
  {
    var last := |actions| - 1;
    if i < last {
      PlannedHit(before, actions[..last], ids, i);
      assert !SameTarget(actions[i], actions[last]);
    }
  }

  // Only the actions that write the field matter.
  lemma {:induction false} PlannedSame(before: Data, actions: seq<Action>, ids: set<string>, ids': set<string>,
                                       key: RecordKey, field: string)
    requires forall i :: 0 <= i < |actions| && Writes(actions[i], key, field) ==>
               (actions[i].id in ids <==> actions[i].id in ids')
    ensures Planned(before, actions, ids, key, field) == Planned(before, actions, ids', key, field)
  {
    if actions != [] {
      PlannedSame(before, actions[..|actions| - 1], ids, ids', key, field);
    }
  }

  lemma {:induction false} PlannedMiss(before: Data, actions: seq<Action>, ids: set<string>, key: RecordKey, field: string)
    requires forall i :: 0 <= i < |actions| && Writes(actions[i], key, field) ==> actions[i].id !in ids
    ensures Planned(before, actions, ids, key, field) == Get(before, field)
  {
    if actions != [] {
      PlannedMiss(before, actions[..|actions| - 1], ids, key, field);
    }
  }

  lemma {:induction false} OverlayHit(data: Data, actions: seq<Action>, i: nat)
    requires i < |actions| && actions[i].Update? && DistinctTargets(actions)
    ensures Lookup(Overlay(data, actions, actions[i].key), actions[i].field) == Some(actions[i].suggested)
  {
    var last := |actions| - 1;
    if i < last {
      OverlayHit(data, actions[..last], i);
      assert !SameTarget(actions[i], actions[last]);
    }
  }

  predicate Names(actions: seq<Action>, key: RecordKey, field: string) {
    exists i :: 0 <= i < |actions| && Writes(actions[i], key, field)
  }

  lemma {:induction false} OverlayMiss(data: Data, actions: seq<Action>, key: RecordKey, field: string)
    requires !Names(actions, key, field)
    ensures Lookup(Overlay(data, actions, key), field) == Lookup(data, field)
  {
    if actions != [] {
      var last := |actions| - 1;
      assert !Writes(actions[last], key, field);
      assert forall i :: 0 <= i < last ==> actions[..last][i] == actions[i];
      OverlayMiss(data, actions[..last], key, field);
    }
  }

  predicate Touches(run: Run, i: nat, key: RecordKey)
    requires i < |run.steps|
  {
    key in UpdateKeys(Done(run.steps[i]))
  }

  // The plan last wrote the record in reaching the m-th state, or never if m is zero.
  predicate LastWrite(run: Run, m: nat, n: nat, key: RecordKey)
    requires n < |run.states|
  {
    && m <= n
    && (m == 0 || Touches(run, m - 1, key))
    && forall i :: m <= i < n ==> !Touches(run, i, key)
  }

  // What a plan needs to be current: it holds the version of every record it wants to change.
  predicate VersionsCurrent(s: State) {
    forall a :: a in s.plan.actions && a.Update? ==>
      a.key in s.records && VersionOf(s.records[a.key]) == ExpectedVersion(s.plan, a.key)
  }

  function NewlyApplied(run: Run, n: nat): set<string>
    requires n < |run.states|
  {
    run.states[n].plan.applied - run.states[0].plan.applied
  }

  // What a step leaves behind, as far as updated records and remembered versions go.
  predicate Carried(s: State, done: seq<Action>, s': State) {
    && DistinctTargets(done)
    && (forall a :: a in done && a.Update? ==>
          a.key in s.records && VersionOf(s.records[a.key]) == ExpectedVersion(s.plan, a.key))
    && (forall a :: a in done && a.Update? ==>
          && a.key in s'.records
          && s'.records[a.key] == Written(s.records[a.key], Overlay(s.records[a.key].data, done, a.key)))
    && s'.plan.versions ==
         if done == [] then s.plan.versions
         else VersionsAfter(s.plan.versions, s'.records, UpdateKeys(done) + CreateKeys(done))
  }

  lemma CommitCarries(s: State, call: Call, s': State, done: seq<Action>)
    requires DistinctTargets(done) && done != []
    requires CommittedEffect(s, s', done) && Passes(s, call, done)
    ensures Carried(s, done, s')
  {
    forall a | a in done && a.Update?
      ensures UpdateAccepted(s, call, a) && a.key in UpdateKeys(done)
    {
      var i :| 0 <= i < |done| && done[i] == a;
      assert ActionAccepted(s, call, done[i]);
    }
  }

  lemma StepCarries(s: State, step: Step, s': State)
    requires StepHolds(s, step, s') && WellFormed(s.plan)
    ensures Carried(s, Done(step), s')
  {
    var done := Done(step);
    if done != [] {
      SelectedIsWellFormed(s.plan, step.call);
      CommitCarries(s, step.call, s', done);
    }
  }

  lemma {:induction false} OverlayElsewhere(data: Data, actions: seq<Action>, key: RecordKey)
    requires key !in UpdateKeys(actions)
    ensures Overlay(data, actions, key) == data
  {
    if actions != [] {
      var last := |actions| - 1;
      assert actions[last] in actions;
      OverlayElsewhere(data, actions[..last], key);
    }
  }

  // Writing further actions over a field that reads as planned leaves it as planned, for those actions too.
  lemma OverlayAsPlanned(before: Data, plan: Plan, ids: set<string>, selected: seq<Action>, key: RecordKey,
                         now: Data, f: string)
    requires WellFormed(plan) && DistinctTargets(selected) && forall a :: a in selected ==> a in plan.actions
    requires Get(now, f) == Planned(before, plan.actions, ids, key, f)
    ensures Get(Overlay(now, selected, key), f) == Planned(before, plan.actions, ids + AppliedIds(selected), key, f)
  {
    if Names(selected, key, f) {
      WrittenAsPlanned(before, plan, ids + AppliedIds(selected), selected, key, now, f);
    } else {
      OverlayMiss(now, selected, key, f);
      NotNamedNotNew(plan, ids, selected, key, f);
      PlannedSame(before, plan.actions, ids, ids + AppliedIds(selected), key, f);
    }
  }

  lemma WrittenAsPlanned(before: Data, plan: Plan, all: set<string>, selected: seq<Action>, key: RecordKey,
                         now: Data, f: string)
    requires WellFormed(plan) && DistinctTargets(selected) && AppliedIds(selected) <= all
    requires forall a :: a in selected ==> a in plan.actions
    requires Names(selected, key, f)
    ensures Get(Overlay(now, selected, key), f) == Planned(before, plan.actions, all, key, f)
  {
    var i :| 0 <= i < |selected| && Writes(selected[i], key, f);
    OverlayHit(now, selected, i);
    assert selected[i] in selected && selected[i].id in all;
    var p :| 0 <= p < |plan.actions| && plan.actions[p] == selected[i];
    PlannedHit(before, plan.actions, all, p);
  }

  lemma NotNamedNotNew(plan: Plan, ids: set<string>, selected: seq<Action>, key: RecordKey, f: string)
    requires WellFormed(plan) && forall a :: a in selected ==> a in plan.actions
    requires !Names(selected, key, f)
    ensures forall i :: 0 <= i < |plan.actions| && Writes(plan.actions[i], key, f) ==>
              (plan.actions[i].id in ids <==> plan.actions[i].id in ids + AppliedIds(selected))
  {
    forall i | 0 <= i < |plan.actions| && Writes(plan.actions[i], key, f)
      ensures plan.actions[i].id !in AppliedIds(selected)
    {
      var a := plan.actions[i];
      forall b | b in selected
        ensures b.id != a.id
      {
        if b.id == a.id {
          SameIdSameAction(plan, a, b);
        }
      }
    }
  }

  lemma SameIdSameAction(plan: Plan, a: Action, b: Action)
    requires WellFormed(plan) && a in plan.actions && b in plan.actions && a.id == b.id
    ensures a == b
  {
    var p :| 0 <= p < |plan.actions| && plan.actions[p] == a;
    var q :| 0 <= q < |plan.actions| && plan.actions[q] == b;
    assert !(p < q) && !(q < p);
  }

  // ---------------------------------------------------------------- a whole run, with other writers

  lemma VersionKept(s: State, done: seq<Action>, s': State, key: RecordKey)
    requires Carried(s, done, s') && WellFormed(s.plan) && forall a :: a in done ==> a in s.plan.actions
    requires key in UpdateKeys(s.plan.actions) && key !in UpdateKeys(done)
    ensures ExpectedVersion(s'.plan, key) == ExpectedVersion(s.plan, key)
  {
    var a :| a in s.plan.actions && a.Update? && a.key == key;
    forall b | b in done && b.Create?
      ensures b.key != key
    {
      if b.id == a.id {
        SameIdSameAction(s.plan, a, b);
      } else {
        PairIsWellFormed(s.plan, b, a);
      }
    }
  }

  lemma RunCarries(run: Run, n: nat)
    requires n < |run.steps|
    ensures Carried(run.states[n], Done(run.steps[n]), run.states[n + 1])
  {
    AppliedOnlyGrows(run, 0, n);
    assert StepAt(run, n);
    StepCarries(run.states[n], run.steps[n], run.states[n + 1]);
  }

  // The plan goes by the version the record has in the m-th state.
  predicate KnowsVersion(run: Run, m: nat, n: nat, key: RecordKey)
    requires m < |run.states| && n < |run.states|
  {
    key in run.states[m].records && VersionOf(run.states[m].records[key]) == ExpectedVersion(run.states[n].plan, key)
  }

  // There the field reads as at the start with the suggestions applied up to the n-th.
  predicate ReadsAsPlanned(run: Run, m: nat, n: nat, key: RecordKey, f: string)
    requires m < |run.states| && n < |run.states| && key in run.states[0].records && key in run.states[m].records
  {
    Get(run.states[m].records[key].data, f)
      == Planned(run.states[0].records[key].data, run.states[0].plan.actions, NewlyApplied(run, n), key, f)
  }

  lemma StepOnBooks(run: Run, n: nat)
    requires n < |run.steps|
    ensures var done := Done(run.steps[n]);
            && WellFormed(run.states[n].plan) && run.states[n].plan.actions == run.states[0].plan.actions
            && Carried(run.states[n], done, run.states[n + 1])
            && (forall a :: a in done ==> a in run.states[n].plan.actions)
            && NewlyApplied(run, n + 1) == NewlyApplied(run, n) + AppliedIds(done)
  {
    AppliedOnlyGrows(run, 0, n);
    RunApplies(run, n);
    RunCarries(run, n);
  }

  lemma VersionAfterWrite(run: Run, n: nat, key: RecordKey)
    requires n < |run.steps| && Touches(run, n, key)
    ensures KnowsVersion(run, n, n, key) && KnowsVersion(run, n + 1, n + 1, key)
  {
    StepOnBooks(run, n);
    var a :| a in Done(run.steps[n]) && a.Update? && a.key == key;
  }

  lemma VersionAfterOther(run: Run, m: nat, n: nat, key: RecordKey)
    requires m <= n < |run.steps| && !Touches(run, n, key) && key in UpdateKeys(run.states[0].plan.actions)
    requires KnowsVersion(run, m, n, key)
    ensures KnowsVersion(run, m, n + 1, key)
  {
    StepOnBooks(run, n);
    VersionKept(run.states[n], Done(run.steps[n]), run.states[n + 1], key);
  }

  // Whatever others do, the version the plan expects is the one it left the record with.
  lemma {:induction false} PlanKnowsVersion(run: Run, m: nat, n: nat, key: RecordKey)
    requires n < |run.states| && LastWrite(run, m, n, key) && VersionsCurrent(run.states[0])
    requires key in UpdateKeys(run.states[0].plan.actions)
    ensures KnowsVersion(run, m, n, key)
  {
    if n == 0 {
    } else if m == n {
      VersionAfterWrite(run, n - 1, key);
    } else {
      PlanKnowsVersion(run, m, n - 1, key);
      VersionAfterOther(run, m, n - 1, key);
    }
  }

  lemma PlannedAfterWrite(run: Run, n: nat, key: RecordKey, f: string)
    requires n < |run.steps| && Touches(run, n, key)
    requires key in run.states[0].records && key in run.states[n].records && ReadsAsPlanned(run, n, n, key, f)
    ensures key in run.states[n + 1].records && ReadsAsPlanned(run, n + 1, n + 1, key, f)
  {
    var s, done, s' := run.states[n], Done(run.steps[n]), run.states[n + 1];
    StepOnBooks(run, n);
    var a :| a in done && a.Update? && a.key == key;
    OverlayAsPlanned(run.states[0].records[key].data, s.plan, NewlyApplied(run, n), done, key, s.records[key].data, f);
  }

  lemma PlannedAfterOther(run: Run, m: nat, n: nat, key: RecordKey, f: string)
    requires m <= n < |run.steps| && !Touches(run, n, key)
    requires key in run.states[0].records && key in run.states[m].records && ReadsAsPlanned(run, m, n, key, f)
    ensures ReadsAsPlanned(run, m, n + 1, key, f)
  {
    var s, done := run.states[n], Done(run.steps[n]);
    var data := run.states[m].records[key].data;
    StepOnBooks(run, n);
    OverlayElsewhere(data, done, key);
    OverlayAsPlanned(run.states[0].records[key].data, s.plan, NewlyApplied(run, n), done, key, data, f);
  }

  lemma {:induction false} FindLastWrite(run: Run, n: nat, key: RecordKey) returns (m: nat)
    requires n < |run.states|
    ensures LastWrite(run, m, n, key)
  {
    if n == 0 || Touches(run, n - 1, key) {
      m := n;
    } else {
      m := FindLastWrite(run, n - 1, key);
    }
  }

  // When the plan writes a record, it finds it with the version it left it with, whatever others did.
  lemma WriteFindsItsVersion(run: Run, m: nat, n: nat, key: RecordKey)
    requires n < |run.steps| && Touches(run, n, key) && LastWrite(run, m, n, key) && VersionsCurrent(run.states[0])
    ensures key in run.states[m].records && key in run.states[n].records
    ensures VersionOf(run.states[m].records[key]) == VersionOf(run.states[n].records[key])
  {
    TouchedIsPlanned(run, n, key);
    PlanKnowsVersion(run, m, n, key);
    VersionAfterWrite(run, n, key);
  }

  // A field that no action of the step names comes through the write as it was found, seen or not.
  lemma WriteLeavesOtherFields(run: Run, n: nat, key: RecordKey, f: string)
    requires n < |run.steps| && Touches(run, n, key) && !Names(Done(run.steps[n]), key, f)
    ensures key in run.states[n].records && key in run.states[n + 1].records
    ensures Get(run.states[n + 1].records[key].data, f) == Get(run.states[n].records[key].data, f)
  {
    StepOnBooks(run, n);
    var a :| a in Done(run.steps[n]) && a.Update? && a.key == key;
    OverlayMiss(run.states[n].records[key].data, Done(run.steps[n]), key, f);
  }

  lemma TouchedIsPlanned(run: Run, n: nat, key: RecordKey)
    requires n < |run.steps| && Touches(run, n, key)
    ensures key in UpdateKeys(run.states[0].plan.actions)
  {
    StepOnBooks(run, n);
  }
}
