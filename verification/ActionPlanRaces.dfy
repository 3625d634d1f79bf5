/** Two things a plan does not withstand, each with the run on which it fails. */
module ActionPlanRaces {
  import opened Options
  import opened ActionPlanModel
  import opened ActionPlanHistory
  import opened ActionPlanWriters
  import AutoNumber

  const KEY := RecordKey("t", "r")

  // ---------------------------------------------------------------- a late failure mark

  const CREATION := Create("1", KEY, map[], map[])

  const FRESH := State(map[], map[], [], Plan([CREATION], {}, map[], Previewed, []))

  const CREATED := Record(map[], 1)

  const APPLIED := State(map[KEY := CREATED], map[], [[ChangeItem(KEY, None, Some(CREATED))]],
                         Plan([CREATION], {"1"}, map[KEY := 1], Applied, [0]))

  lemma OneSelected(call: Call)
    requires call.requested == ["1"]
    ensures WithinPlan(FRESH.plan, Requested(FRESH.plan, call))
    ensures Selected(FRESH.plan, Requested(FRESH.plan, call)) == [CREATION]
  {
    var ids := call.requested;
    assert CREATION in FRESH.plan.actions && InPlan(FRESH.plan, ids[0]);
    assert ids[..0] == [];
  }

  const REFUSED := Call(["1"], {"1"}, {}, Lands)

  const ALLOWED := Call(["1"], {}, {}, Lands)

  lemma RefusedFails()
    ensures StepHolds(FRESH, Called(REFUSED, Failed, []), FRESH)
  {
    OneSelected(REFUSED);
    assert !ActionAccepted(FRESH, REFUSED, [CREATION][0]);
  }

  lemma CommitHolds(s: State, call: Call, s': State, selected: seq<Action>)
    requires DistinctRequest(call) && call.fate == Lands && selected != []
    requires WithinPlan(s.plan, Requested(s.plan, call)) && Selected(s.plan, Requested(s.plan, call)) == selected
    requires Passes(s, call, selected) && CommittedEffect(s, s', selected)
    ensures StepHolds(s, Called(call, Committed, selected), s')
  {
  }

  lemma AllowedCommits()
    ensures StepHolds(FRESH, Called(ALLOWED, Committed, [CREATION]), APPLIED)
  {
    OneSelected(ALLOWED);
    assert Passes(FRESH, ALLOWED, [CREATION]);
    CreationCommits();
    CommitHolds(FRESH, ALLOWED, APPLIED, [CREATION]);
  }

  const LATE := Trace([FRESH, FRESH, APPLIED, APPLIED.(plan := AfterFailure(APPLIED.plan, Previewed))],
                      [Called(REFUSED, Failed, []), Called(ALLOWED, Committed, [CREATION]), Marked(0, 1, Previewed)])

  lemma LateMarkIsDue()
    ensures StepAt(LATE, 2)
  {
    assert LATE.steps[0].Called? && LATE.states[1] == FRESH && LATE.states[2] == APPLIED;
  }

  lemma LateIsRun()
    ensures IsRun(LATE)
  {
    assert StepAt(LATE, 0) by {
      RefusedFails();
    }
    assert StepAt(LATE, 1) by {
      AllowedCommits();
    }
    LateMarkIsDue();
    ThreeSteps(LATE);
  }

  lemma ThreeSteps(t: Trace)
    requires |t.states| == 4 && |t.steps| == 3 && WellFormed(t.states[0].plan)
    requires StepAt(t, 0) && StepAt(t, 1) && StepAt(t, 2)
    ensures IsRun(t)
  {
    forall i | 0 <= i < |t.steps|
      ensures StepAt(t, i)
    {
      assert i == 0 || i == 1 || i == 2;
    }
  }

  // One call fails, a second one applies the whole plan, and then the first one's mark arrives: everything is
  // applied and the status says that applying failed.
  lemma LateMarkHidesCommit() returns (run: Run)
    ensures NobodyElse(run) && StatusHonest(run.states[0].plan) && |run.steps| == 3
    ensures run.steps[0].Called? && run.steps[0].outcome == Failed && run.steps[1].Called? && run.steps[1].outcome == Committed
    ensures run.steps[2] == Marked(0, 1, run.states[1].plan.status)
    ensures var last := run.states[|run.steps|].plan;
            last.applied == AppliedIds(last.actions) && last.applied != {} && last.status == ApplyFailed
  {
    LateIsRun();
    run := LATE;
    AppliedSays();
  }

  lemma AppliedSays()
    ensures APPLIED.plan.applied == AppliedIds(APPLIED.plan.actions) && StatusHonest(FRESH.plan)
  {
    assert [CREATION][0] in FRESH.plan.actions;
  }

  lemma CreationCommits()
    ensures CommittedEffect(FRESH, APPLIED, [CREATION])
  {
    var selected := [CREATION];
    assert selected[..0] == [] && CREATION in selected;
    assert CreateKeys(selected) == {KEY} && UpdateKeys(selected) == {} && AppliedIds(selected) == {"1"};
    assert NewRecord(FRESH.schema, selected, 0) == CREATED;
    assert Mentions(APPLIED.log[0], KEY) by {
      assert APPLIED.log[0][0].key == KEY;
    }
  }

  // ---------------------------------------------------------------- careless writers

  const SUGGESTION := Update("1", KEY, "f", Plain("text"), Number(3))

  const FIELDS := map["t" := [Field("f", Plain("text"), {}, AutoNumber.Property(AutoNumber.NoPrefix, AutoNumber.Missing,
                                    AutoNumber.Missing, AutoNumber.Missing))]]

  function Holding(value: int, version: nat): State {
    State(map[KEY := Record(map["f" := Number(value)], version)], FIELDS, [], Plan([SUGGESTION], {}, map[KEY := 1], Previewed, []))
  }

  const WRITTEN := Record(map["f" := Number(3)], 2)

  const OVERWRITTEN := State(map[KEY := WRITTEN], FIELDS,
                             [[ChangeItem(KEY, Some(Record(map["f" := Number(2)], 1)), Some(WRITTEN))]],
                             Plan([SUGGESTION], {"1"}, map[KEY := 2], Applied, [0]))

  lemma SuggestionSelected()
    ensures WithinPlan(Holding(2, 1).plan, Requested(Holding(2, 1).plan, ALLOWED))
    ensures Selected(Holding(2, 1).plan, Requested(Holding(2, 1).plan, ALLOWED)) == [SUGGESTION]
  {
    var ids := ALLOWED.requested;
    assert SUGGESTION in Holding(2, 1).plan.actions && InPlan(Holding(2, 1).plan, ids[0]);
    assert ids[..0] == [];
  }

  lemma SuggestionRecords()
    ensures RecordsWritten(Holding(2, 1), OVERWRITTEN.records, [SUGGESTION])
    ensures CountersAdvanced(FIELDS, FIELDS, [SUGGESTION])
  {
    var s, selected := Holding(2, 1), [SUGGESTION];
    assert selected[..0] == [] && SUGGESTION in selected && UpdateKeys(selected) == {KEY};
    var data := s.records[KEY].data;
    assert Overlay(data, selected, KEY) == data["f" := Number(3)] == map["f" := Number(3)];
    assert "f" in data && Get(data, "f") != Get(WRITTEN.data, "f");
  }

  lemma SuggestionLogged()
    ensures IsDiff(OVERWRITTEN.log[0], Holding(2, 1).records, OVERWRITTEN.records)
  {
    assert OVERWRITTEN.log[0][0].key == KEY && Mentions(OVERWRITTEN.log[0], KEY);
  }

  lemma SuggestionWritten()
    ensures CommittedEffect(Holding(2, 1), OVERWRITTEN, [SUGGESTION])
  {
    var selected := [SUGGESTION];
    assert SUGGESTION in selected && CreateKeys(selected) == {} && UpdateKeys(selected) == {KEY};
    assert AppliedIds(selected) == {"1"};
    SuggestionRecords();
    SuggestionLogged();
    assert Holding(2, 1).records[KEY] != WRITTEN;
  }

  lemma SuggestionAccepted()
    ensures Passes(Holding(2, 1), ALLOWED, [SUGGESTION])
  {
    var fields := FIELDS["t"];
    assert FindField(fields, "f") == Some(fields[0]);
    assert ActionAccepted(Holding(2, 1), ALLOWED, [SUGGESTION][0]);
  }

  const BLIND := Trace([Holding(1, 1), Holding(2, 1), OVERWRITTEN], [Elsewhere, Called(ALLOWED, Committed, [SUGGESTION])])

  lemma BlindCommit()
    ensures StepAt(BLIND, 1)
  {
    SuggestionCommits();
  }

  lemma BlindIsRun()
    ensures IsRun(BLIND)
  {
    assert StepAt(BLIND, 0);
    BlindCommit();
    TwoSteps(BLIND);
  }

  lemma TwoSteps(t: Trace)
    requires |t.states| == 3 && |t.steps| == 2 && WellFormed(t.states[0].plan) && StepAt(t, 0) && StepAt(t, 1)
    ensures IsRun(t)
  {
    forall i | 0 <= i < |t.steps|
      ensures StepAt(t, i)
    {
      assert i == 0 || i == 1;
    }
  }

  lemma OverwritesAtTheEnd(run: Run, m: nat)
    requires |run.steps| == m + 1 && run.steps[m] == Called(ALLOWED, Committed, [SUGGESTION])
    requires forall i :: 0 <= i < m ==> run.steps[i].Elsewhere?
    requires run.states[0] == Holding(1, 1) && run.states[m] == Holding(2, 1)
    ensures UnseenOverwrite(run, 0, m, KEY, "f")
  {
    assert SUGGESTION in Done(run.steps[m]) && forall i :: 0 <= i < m ==> Done(run.steps[i]) == [];
  }

  // Somebody changes the field the plan is about and leaves the version alone, as deleting a field, backfilling an
  // auto-number or migrating relation values does; the plan's guard passes and the change is gone.
  lemma VersionlessChangeIsOverwritten() returns (run: Run)
    ensures VersionsCurrent(run.states[0]) && Keeps(run, Discipline(true, false)) && !NeverOverwrites(run)
  {
    BlindIsRun();
    run := BLIND;
    OverwritesAtTheEnd(run, 1);
    forall i, key | 0 <= i < |run.steps|
      ensures NeverLowers(run, i, key)
    {
      assert run.states[1] == Holding(2, 1);
    }
  }

  const LOWERED := Trace([Holding(1, 1), Holding(2, 2), Holding(2, 1), OVERWRITTEN],
                         [Elsewhere, Elsewhere, Called(ALLOWED, Committed, [SUGGESTION])])

  lemma LoweredCommit()
    ensures StepAt(LOWERED, 2)
  {
    SuggestionCommits();
  }

  lemma LoweredIsRun()
    ensures IsRun(LOWERED)
  {
    assert StepAt(LOWERED, 0) && StepAt(LOWERED, 1);
    LoweredCommit();
    ThreeSteps(LOWERED);
  }

  // Somebody changes the field with a new version, and somebody else, who had loaded the record before, writes an
  // older version back, as an unlocked merge of a task plan may.
  lemma LoweredVersionIsOverwritten() returns (run: Run)
    ensures VersionsCurrent(run.states[0]) && Keeps(run, Discipline(false, true)) && !NeverOverwrites(run)
  {
    LoweredIsRun();
    run := LOWERED;
    OverwritesAtTheEnd(run, 2);
    forall i, key, f | 0 <= i < |run.steps|
      ensures NeverBlind(run, i, key, f)
    {
      assert run.states[1] == Holding(2, 2) && run.states[2] == Holding(2, 1);
    }
  }

  // Whatever other writers do within a discipline, plans overwrite nothing unseen: if and only if the discipline
  // keeps them both from lowering a version and from changing a field without raising it.
  lemma NothingIsOverwrittenExactlyWhen(d: Discipline)
    ensures (forall run: Run :: VersionsCurrent(run.states[0]) && Keeps(run, d) ==> NeverOverwrites(run))
       <==> d == Discipline(true, true)
  {
    if d == Discipline(true, true) {
      forall run: Run | VersionsCurrent(run.states[0]) && Keeps(run, d)
        ensures NeverOverwrites(run)
      {
        DisciplineSuffices(run);
      }
    } else if !d.neverBlind {
      var run := VersionlessChangeIsOverwritten();
      assert Keeps(run, d);
    } else {
      var run := LoweredVersionIsOverwritten();
      assert Keeps(run, d);
    }
  }

  lemma SuggestionCommits()
    ensures StepHolds(Holding(2, 1), Called(ALLOWED, Committed, [SUGGESTION]), OVERWRITTEN)
  {
    SuggestionSelected();
    SuggestionAccepted();
    SuggestionWritten();
    CommitHolds(Holding(2, 1), ALLOWED, OVERWRITTEN, [SUGGESTION]);
  }
}
