/** Applying one plan in several calls, with nobody else writing: any split ends in the same place. */
module ActionPlanSplits {
  import opened Options
  import opened ActionPlanModel
  import opened ActionPlanHistory
  import opened ActionPlanWriters
  import AutoNumber

  // ---------------------------------------------------------------- versions count changes

  predicate DataChanged(run: Run, i: nat, key: RecordKey)
    requires i < |run.steps|
  {
    key in run.states[i].records && key in run.states[i + 1].records &&
    !SameData(run.states[i].records[key].data, run.states[i + 1].records[key].data)
  }

  function Changes(run: Run, n: nat, key: RecordKey): nat
    requires n < |run.states|
  {
    if n == 0 then 0 else Changes(run, n - 1, key) + if DataChanged(run, n - 1, key) then 1 else 0
  }

  // A record's version counts exactly the calls after which its data read differently.
  lemma {:induction false} VersionCountsChanges(run: Run, n: nat, key: RecordKey)
    requires NobodyElse(run) && n < |run.states| && key in run.states[0].records
    ensures key in run.states[n].records
    ensures VersionOf(run.states[n].records[key]) == VersionOf(run.states[0].records[key]) + Changes(run, n, key)
  {
    if n != 0 {
      VersionCountsChanges(run, n - 1, key);
      RunStepIsExact(run, n - 1, key);
    }
  }

  lemma UntouchedRecord(run: Run, n: nat, key: RecordKey)
    requires NobodyElse(run) && n < |run.steps|
    requires key in run.states[n].records && !Touches(run, n, key)
    ensures key in run.states[n + 1].records && run.states[n + 1].records[key] == run.states[n].records[key]
  {
    assert StepAt(run, n);
  }

  // Between the plan's own writes a record stands still.
  lemma {:induction false} RecordStandsStill(run: Run, m: nat, n: nat, key: RecordKey)
    requires NobodyElse(run) && m <= n < |run.states| && key in run.states[m].records
    requires forall i :: m <= i < n ==> !Touches(run, i, key)
    ensures key in run.states[n].records && run.states[n].records[key] == run.states[m].records[key]
  {
    if m < n {
      RecordStandsStill(run, m, n - 1, key);
      UntouchedRecord(run, n - 1, key);
    }
  }

  // The data of every earlier record, at every point: as at the start with the applied suggestions in it.
  lemma DataAfterRun(run: Run, n: nat, key: RecordKey)
    requires NobodyElse(run) && n < |run.states|
    requires VersionsCurrent(run.states[0])
    requires key in run.states[0].records
    ensures key in run.states[n].records
    ensures AsPlanned(run.states[0].records[key].data, run.states[0].plan.actions, NewlyApplied(run, n), key,
                      run.states[n].records[key].data)
    ensures key in UpdateKeys(run.states[0].plan.actions) ==>
              VersionOf(run.states[n].records[key]) == ExpectedVersion(run.states[n].plan, key)
  {
    AppliedOnlyGrows(run, 0, n);
    if key in UpdateKeys(run.states[0].plan.actions) {
      var m := FindLastWrite(run, n, key);
      PlanKnowsVersion(run, m, n, key);
      RecordStandsStill(run, m, n, key);
      forall f
        ensures Get(run.states[n].records[key].data, f)
             == Planned(run.states[0].records[key].data, run.states[0].plan.actions, NewlyApplied(run, n), key, f)
      {
        PlanKnowsField(run, m, n, key, f);
      }
    } else {
      NeverTouched(run, n, key);
      RecordStandsStill(run, 0, n, key);
      NeverPlanned(run.states[0], NewlyApplied(run, n), key);
    }
  }

  lemma NeverTouched(run: Run, n: nat, key: RecordKey)
    requires n < |run.states| && key !in UpdateKeys(run.states[0].plan.actions)
    ensures forall i :: 0 <= i < n ==> !Touches(run, i, key)
  {
    forall i | 0 <= i < n
      ensures !Touches(run, i, key)
    {
      if Touches(run, i, key) {
        TouchedIsPlanned(run, i, key);
      }
    }
  }

  lemma NeverPlanned(s: State, ids: set<string>, key: RecordKey)
    requires key in s.records && key !in UpdateKeys(s.plan.actions)
    ensures AsPlanned(s.records[key].data, s.plan.actions, ids, key, s.records[key].data)
  {
    forall f
      ensures Get(s.records[key].data, f) == Planned(s.records[key].data, s.plan.actions, ids, key, f)
    {
      assert forall a :: a in s.plan.actions && a.Update? ==> a.key in UpdateKeys(s.plan.actions);
      PlannedMiss(s.records[key].data, s.plan.actions, ids, key, f);
    }
  }

  // No call of the plan makes a later call of the same plan fail on a version.
  lemma PlanStaysCurrent(run: Run, n: nat)
    requires NobodyElse(run) && n < |run.states|
    requires VersionsCurrent(run.states[0])
    ensures forall a :: a in run.states[n].plan.actions && a.Update? ==>
              a.key in run.states[n].records &&
              VersionOf(run.states[n].records[a.key]) == ExpectedVersion(run.states[n].plan, a.key)
  {
    AppliedOnlyGrows(run, 0, n);
    forall a | a in run.states[n].plan.actions && a.Update?
      ensures a.key in run.states[n].records
      ensures VersionOf(run.states[n].records[a.key]) == ExpectedVersion(run.states[n].plan, a.key)
    {
      assert a.key in UpdateKeys(run.states[0].plan.actions);
      DataAfterRun(run, n, a.key);
    }
  }

  // ---------------------------------------------------------------- created rows and counters

  function CreationsIn(actions: seq<Action>, table: string): set<Action> {
    set a | a in actions && a.Create? && a.key.table == table
  }

  lemma CreationsGrow(actions: seq<Action>, a: Action, table: string)
    ensures CreationsIn(actions + [a], table)
         == CreationsIn(actions, table) + if a.Create? && a.key.table == table then {a} else {}
  {
  }

  lemma {:induction false} CountIsSize(actions: seq<Action>, table: string)
    requires forall i, j :: 0 <= i < j < |actions| ==> actions[i] != actions[j]
    ensures CountCreates(actions, table) == |CreationsIn(actions, table)|
  {
    if actions == [] {
    } else {
      var last := |actions| - 1;
      CountIsSize(actions[..last], table);
      assert actions == actions[..last] + [actions[last]];
      CreationsGrow(actions[..last], actions[last], table);
      assert actions[last] !in CreationsIn(actions[..last], table);
    }
  }

  lemma AdvanceTwice(f: Field, a: nat, b: nat)
    ensures AdvancedField(AdvancedField(f, a), b) == AdvancedField(f, a + b)
  {
    AutoNumber.NormalizeIsStable(f.property, None);
    if f.fieldType == AutoNumbered && AutoNumber.Normalize(f.property, None).Some? {
      var c := AutoNumber.Normalize(f.property, None).value;
      AutoNumber.NormalizeIsStable(AutoNumber.AsProperty(c.(next := c.next + a)), None);
    }
  }

  // A counter that has moved stands that many numbers further on, and nothing else of the field has changed.
  lemma MovedCounter(fields: seq<Field>, count: nat, p: nat)
    requires p < |fields|
    ensures |Moved(fields, count)| == |fields|
    ensures Moved(fields, count)[p].(property := fields[p].property) == fields[p]
    ensures fields[p].fieldType != AutoNumbered || AutoNumber.Normalize(fields[p].property, None).None? ==>
              Moved(fields, count)[p] == fields[p]
    ensures fields[p].fieldType == AutoNumbered && AutoNumber.Normalize(fields[p].property, None).Some? ==>
              var c := AutoNumber.Normalize(fields[p].property, None).value;
              AutoNumber.Normalize(Moved(fields, count)[p].property, None) == Some(c.(next := c.next + count))
  {
    if AutoNumber.Normalize(fields[p].property, None).Some? {
      var c := AutoNumber.Normalize(fields[p].property, None).value;
      AutoNumber.NormalizeIsStable(fields[p].property, None);
      AutoNumber.NormalizeIsStable(AutoNumber.AsProperty(c.(next := c.next + count)), None);
    }
  }

  // One table's fields after a number of rows have been created in it.
  function Moved(fields: seq<Field>, count: nat): seq<Field> {
    if count == 0 then fields else AdvancedFields(fields, count)
  }

  lemma MovedTwice(fields: seq<Field>, a: nat, b: nat)
    ensures Moved(Moved(fields, a), b) == Moved(fields, a + b)
  {
    forall i | 0 <= i < |fields|
      ensures a != 0 && b != 0 ==> Moved(Moved(fields, a), b)[i] == Moved(fields, a + b)[i]
    {
      AdvanceTwice(fields[i], a, b);
    }
  }

  // The plan's actions that have created a row in the table so far.
  function CreatedSoFar(run: Run, n: nat, table: string): set<Action>
    requires n < |run.states|
  {
    set a | a in run.states[0].plan.actions && a.Create? && a.key.table == table && a.id in NewlyApplied(run, n)
  }

  lemma FieldsMove(before: Schema, after: Schema, done: seq<Action>, table: string)
    requires CountersAdvanced(before, after, done) && DistinctActionIds(done)
    ensures FieldsOf(after, table) == Moved(FieldsOf(before, table), |CreationsIn(done, table)|)
  {
    CountIsSize(done, table);
  }

  lemma StepMovesFields(s: State, step: Step, s': State, table: string)
    requires StepHolds(s, step, s') && !step.Elsewhere? && WellFormed(s.plan)
    ensures s'.schema.Keys == s.schema.Keys
    ensures FieldsOf(s'.schema, table) == Moved(FieldsOf(s.schema, table), |CreationsIn(Done(step), table)|)
  {
    var done := Done(step);
    if done == [] {
      CountIsSize(done, table);
    } else {
      SelectedIsWellFormed(s.plan, step.call);
      FieldsMove(s.schema, s'.schema, done, table);
    }
  }

  lemma CreatedGrows(run: Run, n: nat, table: string)
    requires n < |run.steps|
    ensures CreatedSoFar(run, n + 1, table)
         == CreatedSoFar(run, n, table) + CreationsIn(Done(run.steps[n]), table)
    ensures CreatedSoFar(run, n, table) !! CreationsIn(Done(run.steps[n]), table)
  {
    var s, step := run.states[n], run.steps[n];
    AppliedOnlyGrows(run, 0, n);
    RunApplies(run, n);
    forall a | a in CreatedSoFar(run, n + 1, table) && a !in CreatedSoFar(run, n, table)
      ensures a in Done(step)
    {
      assert a.id in AppliedIds(Done(step));
      var b :| b in Done(step) && b.id == a.id;
      SameIdSameAction(s.plan, a, b);
    }
  }

  lemma RunMovesFields(run: Run, n: nat, table: string) returns (count: nat)
    requires NobodyElse(run) && n < |run.steps|
    ensures run.states[n + 1].schema.Keys == run.states[n].schema.Keys
    ensures FieldsOf(run.states[n + 1].schema, table) == Moved(FieldsOf(run.states[n].schema, table), count)
    ensures |CreatedSoFar(run, n + 1, table)| == |CreatedSoFar(run, n, table)| + count
  {
    count := |CreationsIn(Done(run.steps[n]), table)|;
    AppliedOnlyGrows(run, 0, n);
    assert StepAt(run, n);
    StepMovesFields(run.states[n], run.steps[n], run.states[n + 1], table);
    CreatedGrows(run, n, table);
  }

  // Counters move by the number of rows created, however the creations were batched.
  lemma {:induction false} CountersAfterRun(run: Run, n: nat, table: string)
    requires NobodyElse(run) && n < |run.states|
    ensures run.states[n].schema.Keys == run.states[0].schema.Keys
    ensures FieldsOf(run.states[n].schema, table)
         == Moved(FieldsOf(run.states[0].schema, table), |CreatedSoFar(run, n, table)|)
  {
    if n == 0 {
      assert CreatedSoFar(run, 0, table) == {};
    } else {
      CountersAfterRun(run, n - 1, table);
      var count := RunMovesFields(run, n - 1, table);
      MovedTwice(FieldsOf(run.states[0].schema, table), |CreatedSoFar(run, n - 1, table)|, count);
    }
  }

  // ---------------------------------------------------------------- the rows themselves

  lemma {:induction false} NewDataAt(fields: seq<Field>, payload: Data, index: nat, p: nat)
    requires DistinctFields(fields) && p < |fields|
    ensures Lookup(NewData(fields, payload, index), fields[p].id) ==
              Some(if fields[p].fieldType == AutoNumbered then Number(NextNumber(fields[p].property) + index)
                   else Get(payload, fields[p].id))
  {
    if p < |fields| - 1 {
      NewDataAt(fields[..|fields| - 1], payload, index, p);
    }
  }

  function NumberIn(r: Record, field: string): Option<int> {
    if field in r.data && r.data[field].Number? then Some(r.data[field].n) else None
  }

  // Every created row holds its own number, and all of them come from one range.
  predicate NumberedFrom(records: Records, created: set<Action>, field: string, first: int, count: nat) {
    && (forall a :: a in created ==>
          && a.key in records && NumberIn(records[a.key], field).Some?
          && first <= NumberIn(records[a.key], field).value < first + count)
    && (forall a, b :: a in created && b in created && a != b ==>
          NumberIn(records[a.key], field) != NumberIn(records[b.key], field))
  }

  lemma CountRises(done: seq<Action>, i: nat, j: nat, table: string)
    requires i < j < |done| && CreatesIn(done, table, i)
    ensures CountCreates(done[..i], table) < CountCreates(done[..j], table)
  {
    assert done[..j][..i] == done[..i];
    CountGrows(done[..j], i, table);
  }

  predicate NumberedInOrder(records: Records, done: seq<Action>, table: string, field: string, first: int) {
    forall i :: 0 <= i < |done| && CreatesIn(done, table, i) ==>
      && done[i].key in records
      && NumberIn(records[done[i].key], field) == Some(first + CountCreates(done[..i], table))
  }

  lemma BatchIsNumbered(records: Records, done: seq<Action>, table: string, field: string, first: int)
    requires NumberedInOrder(records, done, table, field, first)
    ensures NumberedFrom(records, CreationsIn(done, table), field, first, CountCreates(done, table))
  {
    forall a | a in CreationsIn(done, table)
      ensures a.key in records && NumberIn(records[a.key], field).Some?
      ensures first <= NumberIn(records[a.key], field).value < first + CountCreates(done, table)
    {
      var i :| 0 <= i < |done| && done[i] == a;
      assert CreatesIn(done, table, i);
      CountGrows(done, i, table);
    }
    forall a, b | a in CreationsIn(done, table) && b in CreationsIn(done, table) && a != b
      ensures NumberIn(records[a.key], field) != NumberIn(records[b.key], field)
    {
      var i :| 0 <= i < |done| && done[i] == a;
      var j :| 0 <= j < |done| && done[j] == b;
      assert CreatesIn(done, table, i) && CreatesIn(done, table, j);
      if i < j {
        CountRises(done, i, j, table);
      } else {
        CountRises(done, j, i, table);
      }
    }
  }

  lemma RangesJoin(records: Records, records': Records, earlier: set<Action>, later: set<Action>, all: set<Action>,
                   field: string, first: int)
    requires NumberedFrom(records, earlier, field, first, |earlier|)
    requires forall x :: x in earlier ==> x.key in records' && records'[x.key] == records[x.key]
    requires NumberedFrom(records', later, field, first + |earlier|, |later|)
    requires all == earlier + later && earlier !! later
    ensures NumberedFrom(records', all, field, first, |all|)
  {
  }

  lemma NewRecordNumber(schema: Schema, done: seq<Action>, table: string, i: nat, p: nat)
    requires i < |done| && CreatesIn(done, table, i)
    requires DistinctFields(FieldsOf(schema, table)) && p < |FieldsOf(schema, table)|
    requires FieldsOf(schema, table)[p].fieldType == AutoNumbered
    ensures NumberIn(NewRecord(schema, done, i), FieldsOf(schema, table)[p].id)
         == Some(NextNumber(FieldsOf(schema, table)[p].property) + CountCreates(done[..i], table))
  {
    NewDataAt(FieldsOf(schema, table), done[i].payload, CountCreates(done[..i], table), p);
  }

  lemma RowsOfBatch(s: State, done: seq<Action>, s': State, table: string, p: nat)
    requires RecordsWritten(s, s'.records, done)
    requires DistinctFields(FieldsOf(s.schema, table)) && p < |FieldsOf(s.schema, table)|
    requires FieldsOf(s.schema, table)[p].fieldType == AutoNumbered
    ensures NumberedInOrder(s'.records, done, table, FieldsOf(s.schema, table)[p].id,
                            NextNumber(FieldsOf(s.schema, table)[p].property))
  {
    forall i | 0 <= i < |done| && CreatesIn(done, table, i)
      ensures done[i].key in s'.records
      ensures NumberIn(s'.records[done[i].key], FieldsOf(s.schema, table)[p].id)
           == Some(NextNumber(FieldsOf(s.schema, table)[p].property) + CountCreates(done[..i], table))
    {
      RowOfBatch(s, done, s', table, p, i);
    }
  }

  lemma RowOfBatch(s: State, done: seq<Action>, s': State, table: string, p: nat, i: nat)
    requires RecordsWritten(s, s'.records, done) && i < |done| && CreatesIn(done, table, i)
    requires DistinctFields(FieldsOf(s.schema, table)) && p < |FieldsOf(s.schema, table)|
    requires FieldsOf(s.schema, table)[p].fieldType == AutoNumbered
    ensures done[i].key in s'.records
    ensures NumberIn(s'.records[done[i].key], FieldsOf(s.schema, table)[p].id)
         == Some(NextNumber(FieldsOf(s.schema, table)[p].property) + CountCreates(done[..i], table))
  {
    assert s'.records[done[i].key] == NewRecord(s.schema, done, i);
    NewRecordNumber(s.schema, done, table, i, p);
  }

  lemma MovedField(fields: seq<Field>, count: nat, p: nat)
    requires p < |fields| && fields[p].fieldType == AutoNumbered
    requires AutoNumber.Normalize(fields[p].property, None).Some?
    ensures |Moved(fields, count)| == |fields|
    ensures Moved(fields, count)[p].id == fields[p].id && Moved(fields, count)[p].fieldType == AutoNumbered
    ensures NextNumber(Moved(fields, count)[p].property) == NextNumber(fields[p].property) + count
    ensures DistinctFields(fields) ==> DistinctFields(Moved(fields, count))
  {
    var c := AutoNumber.Normalize(fields[p].property, None).value;
    AutoNumber.NormalizeIsStable(fields[p].property, None);
    AutoNumber.NormalizeIsStable(AutoNumber.AsProperty(c.(next := c.next + count)), None);
  }

  lemma CreateIsNotUpdated(plan: Plan, a: Action)
    requires WellFormed(plan) && a in plan.actions && a.Create?
    ensures a.key !in UpdateKeys(plan.actions)
  {
    forall b | b in plan.actions && b.Update?
      ensures b.key != a.key
    {
      if a.id == b.id {
        SameIdSameAction(plan, a, b);
      } else {
        PairIsWellFormed(plan, a, b);
      }
    }
  }

  lemma CreatedRowStands(run: Run, n: nat, table: string, a: Action)
    requires NobodyElse(run) && n < |run.steps| && a in CreatedSoFar(run, n, table) && a.key in run.states[n].records
    ensures a.key in run.states[n + 1].records && run.states[n + 1].records[a.key] == run.states[n].records[a.key]
  {
    CreateIsNotUpdated(run.states[0].plan, a);
    if Touches(run, n, a.key) {
      TouchedIsPlanned(run, n, a.key);
    }
    UntouchedRecord(run, n, a.key);
  }

  // The rows a step creates in a table take the next numbers of the table's counter, in order.
  lemma StepNumbersRows(run: Run, n: nat, table: string, p: nat)
    requires NobodyElse(run) && n < |run.steps|
    requires DistinctFields(FieldsOf(run.states[n].schema, table)) && p < |FieldsOf(run.states[n].schema, table)|
    requires FieldsOf(run.states[n].schema, table)[p].fieldType == AutoNumbered
    ensures var field := FieldsOf(run.states[n].schema, table)[p];
            NumberedFrom(run.states[n + 1].records, CreationsIn(Done(run.steps[n]), table), field.id,
                         NextNumber(field.property), |CreationsIn(Done(run.steps[n]), table)|)
  {
    var s, done, s' := run.states[n], Done(run.steps[n]), run.states[n + 1];
    StepOnBooks(run, n);
    DoneIsWritten(run, n);
    RowsOfBatch(s, done, s', table, p);
    BatchIsNumbered(s'.records, done, table, FieldsOf(s.schema, table)[p].id,
                    NextNumber(FieldsOf(s.schema, table)[p].property));
    CountIsSize(done, table);
  }

  lemma DoneIsWritten(run: Run, n: nat)
    requires NobodyElse(run) && n < |run.steps|
    ensures RecordsWritten(run.states[n], run.states[n + 1].records, Done(run.steps[n]))
    ensures DistinctActionIds(Done(run.steps[n]))
  {
    AppliedOnlyGrows(run, 0, n);
    assert StepAt(run, n);
    if Done(run.steps[n]) != [] {
      SelectedIsWellFormed(run.states[n].plan, run.steps[n].call);
    }
  }

  lemma {:induction false} NumbersSoFar(run: Run, n: nat, table: string, p: nat)
    requires NobodyElse(run) && n < |run.states| && AutoField(FieldsOf(run.states[0].schema, table), p)
    ensures var field := FieldsOf(run.states[0].schema, table)[p];
            NumberedFrom(run.states[n].records, CreatedSoFar(run, n, table), field.id,
                         NextNumber(field.property), |CreatedSoFar(run, n, table)|)
  {
    if n == 0 {
      assert CreatedSoFar(run, 0, table) == {};
    } else {
      NumbersSoFar(run, n - 1, table, p);
      NumbersGoOn(run, n - 1, table, p);
    }
  }

  // However the creations are split over calls, no two rows ever share a number, and the numbers given out are as many
  // as there are rows, from the first counter on.
  lemma NumbersNeverRepeat(run: Run, n: nat, table: string, p: nat)
    requires NobodyElse(run) && n < |run.states| && table in run.states[0].schema
    requires DistinctFields(run.states[0].schema[table]) && p < |run.states[0].schema[table]|
    requires run.states[0].schema[table][p].fieldType == AutoNumbered
    requires AutoNumber.Normalize(run.states[0].schema[table][p].property, None).Some?
    ensures var field, records := run.states[0].schema[table][p], run.states[n].records;
            var first := AutoNumber.Normalize(field.property, None).value.next;
            var created := set a | a in run.states[0].plan.actions && a.Create? && a.key.table == table &&
                                   a.id in run.states[n].plan.applied && a.id !in run.states[0].plan.applied;
            && (forall a :: a in created ==>
                  && a.key in records && field.id in records[a.key].data && records[a.key].data[field.id].Number?
                  && first <= records[a.key].data[field.id].n < first + |created|)
            && (forall a, b :: a in created && b in created && a != b ==>
                  records[a.key].data[field.id].n != records[b.key].data[field.id].n)
  {
    NumbersSoFar(run, n, table, p);
    assert CreatedSoFar(run, n, table) ==
      set a | a in run.states[0].plan.actions && a.Create? && a.key.table == table &&
              a.id in run.states[n].plan.applied && a.id !in run.states[0].plan.applied;
  }

  predicate AutoField(fields: seq<Field>, p: nat) {
    && DistinctFields(fields) && p < |fields| && fields[p].fieldType == AutoNumbered
    && AutoNumber.Normalize(fields[p].property, None).Some?
  }

  lemma NextRowsGoOn(run: Run, n: nat, table: string, p: nat)
    requires NobodyElse(run) && n < |run.steps| && AutoField(FieldsOf(run.states[0].schema, table), p)
    ensures var field := FieldsOf(run.states[0].schema, table)[p];
            var created := CreationsIn(Done(run.steps[n]), table);
            NumberedFrom(run.states[n + 1].records, created, field.id,
                         NextNumber(field.property) + |CreatedSoFar(run, n, table)|, |created|)
  {
    CountersAfterRun(run, n, table);
    MovedField(FieldsOf(run.states[0].schema, table), |CreatedSoFar(run, n, table)|, p);
    StepNumbersRows(run, n, table, p);
  }

  lemma CreatedRowsStand(run: Run, n: nat, table: string)
    requires NobodyElse(run) && n < |run.steps|
    requires forall a :: a in CreatedSoFar(run, n, table) ==> a.key in run.states[n].records
    ensures forall a :: a in CreatedSoFar(run, n, table) ==>
              a.key in run.states[n + 1].records && run.states[n + 1].records[a.key] == run.states[n].records[a.key]
  {
    forall a | a in CreatedSoFar(run, n, table)
      ensures a.key in run.states[n + 1].records
      ensures run.states[n + 1].records[a.key] == run.states[n].records[a.key]
    {
      CreatedRowStands(run, n, table, a);
    }
  }

  lemma NumbersGoOn(run: Run, n: nat, table: string, p: nat)
    requires NobodyElse(run) && n < |run.steps| && AutoField(FieldsOf(run.states[0].schema, table), p)
    requires var field := FieldsOf(run.states[0].schema, table)[p];
             NumberedFrom(run.states[n].records, CreatedSoFar(run, n, table), field.id,
                          NextNumber(field.property), |CreatedSoFar(run, n, table)|)
    ensures var field := FieldsOf(run.states[0].schema, table)[p];
            NumberedFrom(run.states[n + 1].records, CreatedSoFar(run, n + 1, table), field.id,
                         NextNumber(field.property), |CreatedSoFar(run, n + 1, table)|)
  {
    var field := FieldsOf(run.states[0].schema, table)[p];
    NextRowsGoOn(run, n, table, p);
    CreatedRowsStand(run, n, table);
    CreatedGrows(run, n, table);
    RangesJoin(run.states[n].records, run.states[n + 1].records, CreatedSoFar(run, n, table),
               CreationsIn(Done(run.steps[n]), table), CreatedSoFar(run, n + 1, table), field.id,
               NextNumber(field.property));
  }

  // Every other field of a created row holds what was proposed for it, from then on.
  lemma {:induction false} RowAsProposed(run: Run, n: nat, a: Action, p: nat)
    requires NobodyElse(run) && n < |run.states| && a in CreatedSoFar(run, n, a.key.table)
    requires DistinctFields(FieldsOf(run.states[0].schema, a.key.table))
    requires p < |FieldsOf(run.states[0].schema, a.key.table)|
    requires FieldsOf(run.states[0].schema, a.key.table)[p].fieldType != AutoNumbered
    ensures var field := FieldsOf(run.states[0].schema, a.key.table)[p];
            a.key in run.states[n].records &&
            Lookup(run.states[n].records[a.key].data, field.id) == Some(Get(a.payload, field.id))
  {
    if n == 0 {
      assert false;
    } else {
      CreatedGrows(run, n - 1, a.key.table);
      if a in CreatedSoFar(run, n - 1, a.key.table) {
        RowAsProposed(run, n - 1, a, p);
        CreatedRowStands(run, n - 1, a.key.table, a);
      } else {
        NewRowAsProposed(run, n - 1, a, p);
      }
    }
  }

  lemma NewRowAsProposed(run: Run, n: nat, a: Action, p: nat)
    requires NobodyElse(run) && n < |run.steps| && a in Done(run.steps[n]) && a.Create?
    requires DistinctFields(FieldsOf(run.states[0].schema, a.key.table))
    requires p < |FieldsOf(run.states[0].schema, a.key.table)|
    requires FieldsOf(run.states[0].schema, a.key.table)[p].fieldType != AutoNumbered
    ensures var field := FieldsOf(run.states[0].schema, a.key.table)[p];
            a.key in run.states[n + 1].records &&
            Lookup(run.states[n + 1].records[a.key].data, field.id) == Some(Get(a.payload, field.id))
  {
    var table, done := a.key.table, Done(run.steps[n]);
    CountersAfterRun(run, n, table);
    DoneIsWritten(run, n);
    var i :| 0 <= i < |done| && done[i] == a;
    var fields := FieldsOf(run.states[n].schema, table);
    assert fields[p].id == FieldsOf(run.states[0].schema, table)[p].id && fields[p].fieldType != AutoNumbered;
    NewDataAt(fields, a.payload, CountCreates(done[..i], table), p);
    assert run.states[n + 1].records[a.key] == NewRecord(run.states[n].schema, done, i);
  }

  // ---------------------------------------------------------------- partition independence

  function CreatedKeys(run: Run, n: nat): set<RecordKey>
    requires n < |run.states|
  {
    set a | a in run.states[0].plan.actions && a.Create? && a.id in NewlyApplied(run, n) :: a.key
  }

  lemma {:induction false} KeysAfterRun(run: Run, n: nat)
    requires NobodyElse(run) && n < |run.states|
    ensures run.states[n].records.Keys == run.states[0].records.Keys + CreatedKeys(run, n)
  {
    if n == 0 {
      assert CreatedKeys(run, 0) == {};
    } else {
      KeysAfterRun(run, n - 1);
      KeysAfterStep(run, n - 1);
    }
  }

  lemma KeysAfterStep(run: Run, n: nat)
    requires NobodyElse(run) && n < |run.steps|
    ensures run.states[n + 1].records.Keys == run.states[n].records.Keys + CreateKeys(Done(run.steps[n]))
    ensures CreatedKeys(run, n + 1) == CreatedKeys(run, n) + CreateKeys(Done(run.steps[n]))
  {
    DoneIsWritten(run, n);
    CreatedKeysGrow(run, n);
  }

  lemma CreatedKeysGrow(run: Run, n: nat)
    requires n < |run.steps|
    ensures CreatedKeys(run, n + 1) == CreatedKeys(run, n) + CreateKeys(Done(run.steps[n]))
  {
    StepOnBooks(run, n);
    forall a | a in run.states[0].plan.actions && a.Create? && a.id in AppliedIds(Done(run.steps[n]))
      ensures a in Done(run.steps[n])
    {
      var b :| b in Done(run.steps[n]) && b.id == a.id;
      SameIdSameAction(run.states[0].plan, a, b);
    }
  }

  predicate SameStart(a: Run, b: Run) {
    a.states[0] == b.states[0]
  }

  function Last(run: Run): nat {
    |run.states| - 1
  }

  // The run has created a row for the action, in a table whose field ids are distinct as they are in the database.
  predicate CreatesRow(run: Run, act: Action) {
    && act in run.states[0].plan.actions && act.Create? && act.id in NewlyApplied(run, Last(run))
    && DistinctFields(FieldsOf(run.states[0].schema, act.key.table))
  }

  // The rows two runs have created for one action agree in every field that is not numbered.
  predicate RowsAgree(a: Run, b: Run, act: Action) {
    var fields := FieldsOf(a.states[0].schema, act.key.table);
    act.key in a.states[Last(a)].records && act.key in b.states[Last(b)].records &&
    forall p :: 0 <= p < |fields| && fields[p].fieldType != AutoNumbered ==>
      Lookup(a.states[Last(a)].records[act.key].data, fields[p].id)
        == Lookup(b.states[Last(b)].records[act.key].data, fields[p].id) != None
  }

  lemma CreatedRowsAgree(a: Run, b: Run, act: Action)
    requires NobodyElse(a) && NobodyElse(b) && SameStart(a, b)
    requires a.states[Last(a)].plan.applied == b.states[Last(b)].plan.applied
    requires CreatesRow(a, act)
    ensures RowsAgree(a, b, act)
  {
    KeysAfterRun(a, Last(a));
    KeysAfterRun(b, Last(b));
    assert act.key in CreatedKeys(a, Last(a)) && act.key in CreatedKeys(b, Last(b));
    var fields := FieldsOf(a.states[0].schema, act.key.table);
    forall p | 0 <= p < |fields| && fields[p].fieldType != AutoNumbered
      ensures Lookup(a.states[Last(a)].records[act.key].data, fields[p].id)
           == Lookup(b.states[Last(b)].records[act.key].data, fields[p].id) != None
    {
      RowAsProposed(a, Last(a), act, p);
      RowAsProposed(b, Last(b), act, p);
    }
  }

  // A field of a created row that is not numbered is stored by both runs, with the same value.
  lemma CreatedRowsRead(a: Run, b: Run, act: Action, p: nat)
    requires NobodyElse(a) && NobodyElse(b) && a.states[0] == b.states[0]
    requires a.states[|a.states| - 1].plan.applied == b.states[|b.states| - 1].plan.applied
    requires act in a.states[0].plan.actions && act.Create?
    requires act.id in a.states[|a.states| - 1].plan.applied && act.id !in a.states[0].plan.applied
    requires act.key.table in a.states[0].schema && DistinctFields(a.states[0].schema[act.key.table])
    requires p < |a.states[0].schema[act.key.table]|
    requires a.states[0].schema[act.key.table][p].fieldType != AutoNumbered
    ensures var id := a.states[0].schema[act.key.table][p].id;
            var left, right := a.states[|a.states| - 1].records, b.states[|b.states| - 1].records;
            && act.key in left && act.key in right && id in left[act.key].data && id in right[act.key].data
            && left[act.key].data[id] == right[act.key].data[id]
  {
    CreatedRowsAgree(a, b, act);
    assert RowsAgree(a, b, act);
  }

  // Two ways of applying the same actions of one plan, in whatever calls, in whatever order, with whatever
  // refusals and repetitions between, end with the same records, reading the same but for the numbers of new rows,
  // and the same counters.
  lemma PartitionIndependence(a: Run, b: Run)
    requires NobodyElse(a) && NobodyElse(b) && SameStart(a, b) && VersionsCurrent(a.states[0])
    requires a.states[Last(a)].plan.applied == b.states[Last(b)].plan.applied
    ensures a.states[Last(a)].records.Keys == b.states[Last(b)].records.Keys
    ensures forall k :: k in a.states[0].records ==>
              && k in a.states[Last(a)].records && k in b.states[Last(b)].records
              && SameData(a.states[Last(a)].records[k].data, b.states[Last(b)].records[k].data)
    ensures forall act :: CreatesRow(a, act) ==> RowsAgree(a, b, act)
    ensures a.states[Last(a)].schema == b.states[Last(b)].schema
  {
    forall act | CreatesRow(a, act)
      ensures RowsAgree(a, b, act)
    {
      CreatedRowsAgree(a, b, act);
    }
    KeysAfterRun(a, Last(a));
    KeysAfterRun(b, Last(b));
    forall k | k in a.states[0].records
      ensures k in a.states[Last(a)].records && k in b.states[Last(b)].records
      ensures SameData(a.states[Last(a)].records[k].data, b.states[Last(b)].records[k].data)
    {
      DataAfterRun(a, Last(a), k);
      DataAfterRun(b, Last(b), k);
    }
    CountersAfterRun(a, Last(a), "");
    CountersAfterRun(b, Last(b), "");
    forall t | t in a.states[0].schema
      ensures a.states[Last(a)].schema[t] == b.states[Last(b)].schema[t]
    {
      CountersAfterRun(a, Last(a), t);
      CountersAfterRun(b, Last(b), t);
      assert CreatedSoFar(a, Last(a), t) == CreatedSoFar(b, Last(b), t);
    }
  }
}
