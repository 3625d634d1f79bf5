/** What a plan may overwrite: how other writers have to treat a record's version for it not to lose their changes. */
module ActionPlanWriters {
  import opened Options
  import opened ActionPlanModel
  import opened ActionPlanHistory

  // The record as it is, or as it last was if it has gone since
  function Latest(run: Run, n: nat, key: RecordKey): Option<Record>
    requires n < |run.states|
  {
    if key in run.states[n].records then Some(run.states[n].records[key])
    else if n == 0 then None
    else Latest(run, n - 1, key)
  }

  // Somebody else's step leaves the record there, where it has been before.
  predicate ComesFromOthers(run: Run, i: nat, key: RecordKey)
    requires i < |run.steps|
  {
    run.steps[i].Elsewhere? && Latest(run, i, key).Some? && key in run.states[i + 1].records
  }

  // Such a step never gives the record a lower version than it last had.
  predicate NeverLowers(run: Run, i: nat, key: RecordKey)
    requires i < |run.steps|
  {
    ComesFromOthers(run, i, key) ==>
      VersionOf(run.states[i + 1].records[key]) >= VersionOf(Latest(run, i, key).value)
  }

  // And if it leaves the version as it was, it leaves the field as it was.
  predicate NeverBlind(run: Run, i: nat, key: RecordKey, f: string)
    requires i < |run.steps|
  {
    ComesFromOthers(run, i, key) && VersionOf(run.states[i + 1].records[key]) == VersionOf(Latest(run, i, key).value) ==>
      Get(run.states[i + 1].records[key].data, f) == Get(Latest(run, i, key).value.data, f)
  }

  predicate OthersTakeCare(run: Run, key: RecordKey, f: string) {
    forall i :: 0 <= i < |run.steps| ==> NeverLowers(run, i, key) && NeverBlind(run, i, key, f)
  }

  // ---------------------------------------------------------------- with careful writers nothing is lost

  lemma CallLeavesRecord(run: Run, i: nat, key: RecordKey)
    requires i < |run.steps| && !run.steps[i].Elsewhere? && !Touches(run, i, key)
    requires key in UpdateKeys(run.states[0].plan.actions)
    ensures Lookup(run.states[i + 1].records, key) == Lookup(run.states[i].records, key)
  {
    StepOnBooks(run, i);
    assert StepAt(run, i);
    var done := Done(run.steps[i]);
    if key in CreateKeys(done) {
      NoCreateOfUpdated(run.states[i].plan, done, key);
    }
  }

  lemma NoCreateOfUpdated(plan: Plan, done: seq<Action>, key: RecordKey)
    requires WellFormed(plan) && (forall a :: a in done ==> a in plan.actions) && key in UpdateKeys(plan.actions)
    ensures key !in CreateKeys(done)
  {
    var a :| a in plan.actions && a.Update? && a.key == key;
    forall b | b in done && b.Create?
      ensures b.key != key
    {
      if b.id == a.id {
        SameIdSameAction(plan, a, b);
      } else {
        PairIsWellFormed(plan, b, a);
      }
    }
  }

  // The version has risen, or the field reads as before.
  predicate NotOutrun(before: Record, now: Record, f: string) {
    && VersionOf(now) >= VersionOf(before)
    && (VersionOf(now) == VersionOf(before) ==> Get(now.data, f) == Get(before.data, f))
  }

  lemma {:induction false} SinceLastWrite(run: Run, m: nat, n: nat, key: RecordKey, f: string)
    requires n < |run.states| && LastWrite(run, m, n, key) && key in run.states[m].records
    requires key in UpdateKeys(run.states[0].plan.actions) && OthersTakeCare(run, key, f)
    ensures Latest(run, n, key).Some? && NotOutrun(run.states[m].records[key], Latest(run, n, key).value, f)
    decreases n
  {
    if m < n {
      SinceLastWrite(run, m, n - 1, key, f);
      assert NeverLowers(run, n - 1, key) && NeverBlind(run, n - 1, key, f);
      if !run.steps[n - 1].Elsewhere? {
        CallLeavesRecord(run, n - 1, key);
      }
    }
  }

  // When the plan writes a record, it finds the field as it left it.
  lemma FieldIsAsLeft(run: Run, m: nat, n: nat, key: RecordKey, f: string)
    requires n < |run.steps| && Touches(run, n, key) && LastWrite(run, m, n, key)
    requires VersionsCurrent(run.states[0]) && OthersTakeCare(run, key, f)
    ensures key in run.states[m].records && key in run.states[n].records
    ensures Get(run.states[m].records[key].data, f) == Get(run.states[n].records[key].data, f)
  {
    TouchedIsPlanned(run, n, key);
    WriteFindsItsVersion(run, m, n, key);
    SinceLastWrite(run, m, n, key, f);
  }

  // Where the plan last left a record, the field reads as at the start with exactly the applied suggestions in it.
  lemma {:induction false} PlanKnowsField(run: Run, m: nat, n: nat, key: RecordKey, f: string)
    requires n < |run.states| && LastWrite(run, m, n, key)
    requires VersionsCurrent(run.states[0]) && OthersTakeCare(run, key, f)
    requires key in UpdateKeys(run.states[0].plan.actions)
    ensures key in run.states[0].records && key in run.states[m].records && ReadsAsPlanned(run, m, n, key, f)
    decreases n
  {
    if n == 0 {
      PlannedMiss(run.states[0].records[key].data, run.states[0].plan.actions, NewlyApplied(run, 0), key, f);
    } else if m == n {
      var before := FindLastWrite(run, n - 1, key);
      PlanKnowsField(run, before, n - 1, key, f);
      FieldIsAsLeft(run, before, n - 1, key, f);
      PlannedAfterWrite(run, n - 1, key, f);
    } else {
      PlanKnowsField(run, m, n - 1, key, f);
      PlannedAfterOther(run, m, n - 1, key, f);
    }
  }

  // If whoever else writes the record never lowers its version and never changes the field without raising it, the
  // plan overwrites no change of the field unseen, and after each write the field reads as it did when its version
  // was noted, with exactly the applied suggestions in it.
  lemma NothingUnseenIsOverwritten(run: Run, m: nat, n: nat, key: RecordKey, f: string)
    requires n < |run.steps| && Touches(run, n, key) && LastWrite(run, m, n, key)
    requires VersionsCurrent(run.states[0]) && OthersTakeCare(run, key, f)
    ensures key in run.states[0].records && key in run.states[m].records
    ensures key in run.states[n].records && key in run.states[n + 1].records
    ensures Get(run.states[m].records[key].data, f) == Get(run.states[n].records[key].data, f)
    ensures Get(run.states[n + 1].records[key].data, f)
         == Planned(run.states[0].records[key].data, run.states[0].plan.actions, NewlyApplied(run, n + 1), key, f)
  {
    TouchedIsPlanned(run, n, key);
    PlanKnowsField(run, m, n, key, f);
    FieldIsAsLeft(run, m, n, key, f);
    PlannedAfterWrite(run, n, key, f);
  }

  // ---------------------------------------------------------------- classes of writers

  // What all other writers keep to
  datatype Discipline = Discipline(neverLowers: bool, neverBlind: bool)

  ghost predicate Keeps(run: Run, d: Discipline) {
    && (d.neverLowers ==> forall i, key :: 0 <= i < |run.steps| ==> NeverLowers(run, i, key))
    && (d.neverBlind ==> forall i, key, f :: 0 <= i < |run.steps| ==> NeverBlind(run, i, key, f))
  }

  // The plan writes a record in which a field no longer reads as the plan left it, and does not notice.
  predicate UnseenOverwrite(run: Run, m: nat, n: nat, key: RecordKey, f: string) {
    && n < |run.steps| && Touches(run, n, key) && LastWrite(run, m, n, key)
    && key in run.states[m].records && key in run.states[n].records
    && Get(run.states[m].records[key].data, f) != Get(run.states[n].records[key].data, f)
  }

  ghost predicate NeverOverwrites(run: Run) {
    forall m, n, key, f :: !UnseenOverwrite(run, m, n, key, f)
  }

  lemma DisciplineSuffices(run: Run)
    requires VersionsCurrent(run.states[0]) && Keeps(run, Discipline(true, true))
    ensures NeverOverwrites(run)
  {
    forall m, n, key, f
      ensures !UnseenOverwrite(run, m, n, key, f)
    {
      if UnseenOverwrite(run, m, n, key, f) {
        FieldIsAsLeft(run, m, n, key, f);
      }
    }
  }
}
