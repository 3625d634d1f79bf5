/** The change log: playing it forward or back moves between the states it connects. */
module ActionPlanLog {
  import opened Options
  import opened ActionPlanModel
  import opened ActionPlanHistory
  import opened ActionPlanSplits

  function Put(records: Records, key: RecordKey, r: Option<Record>): Records {
    if r.Some? then records[key := r.value] else records - {key}
  }

  function Replay(records: Records, items: seq<ChangeItem>): Records {
    if items == [] then records else
      var last := items[|items| - 1];
      Put(Replay(records, items[..|items| - 1]), last.key, last.after)
  }

  function Revert(records: Records, items: seq<ChangeItem>): Records
    decreases |items|
  {
    if items == [] then records else
      var last := items[|items| - 1];
      Revert(Put(records, last.key, last.before), items[..|items| - 1])
  }

  predicate DistinctKeys(items: seq<ChangeItem>) {
    forall i, j :: 0 <= i < j < |items| ==> items[i].key != items[j].key
  }

  lemma {:induction false} ReplayAt(records: Records, items: seq<ChangeItem>, k: RecordKey)
    requires DistinctKeys(items)
    ensures !Mentions(items, k) ==> Lookup(Replay(records, items), k) == Lookup(records, k)
    ensures forall i :: 0 <= i < |items| && items[i].key == k ==> Lookup(Replay(records, items), k) == items[i].after
  {
    if items != [] {
      var last := |items| - 1;
      ReplayAt(records, items[..last], k);
      if Mentions(items[..last], k) {
        var i :| 0 <= i < last && items[..last][i].key == k;
        assert items[i].key == k;
      }
    }
  }

  lemma {:induction false} RevertAt(records: Records, items: seq<ChangeItem>, k: RecordKey)
    requires DistinctKeys(items)
    ensures !Mentions(items, k) ==> Lookup(Revert(records, items), k) == Lookup(records, k)
    ensures forall i :: 0 <= i < |items| && items[i].key == k ==> Lookup(Revert(records, items), k) == items[i].before
    decreases |items|
  {
    if items != [] {
      var last := |items| - 1;
      RevertAt(Put(records, items[last].key, items[last].before), items[..last], k);
      if Mentions(items[..last], k) {
        var i :| 0 <= i < last && items[..last][i].key == k;
        assert items[i].key == k;
      }
    }
  }

  lemma SameRecords(a: Records, b: Records)
    requires forall k :: Lookup(a, k) == Lookup(b, k)
    ensures a == b
  {
    forall k
      ensures k in a <==> k in b
      ensures k in a ==> a[k] == b[k]
    {
      assert Lookup(a, k) == Lookup(b, k);
    }
  }

  // Between any two states, the items logged lead from the one to the other and back again.
  lemma ChangeSetRoundTrip(items: seq<ChangeItem>, before: Records, after: Records)
    requires IsDiff(items, before, after)
    ensures Replay(before, items) == after && Revert(after, items) == before
  {
    forall k
      ensures Lookup(Replay(before, items), k) == Lookup(after, k)
      ensures Lookup(Revert(after, items), k) == Lookup(before, k)
    {
      ReplayAt(before, items, k);
      RevertAt(after, items, k);
      if Mentions(items, k) {
        var i :| 0 <= i < |items| && items[i].key == k;
      } else {
        assert k in before.Keys + after.Keys ==> Lookup(before, k) == Lookup(after, k);
      }
    }
    SameRecords(Replay(before, items), after);
    SameRecords(Revert(after, items), before);
  }

  // ---------------------------------------------------------------- the log of a whole run

  function ReplayAll(records: Records, sets: seq<seq<ChangeItem>>): Records {
    if sets == [] then records else Replay(ReplayAll(records, sets[..|sets| - 1]), sets[|sets| - 1])
  }

  function RevertAll(records: Records, sets: seq<seq<ChangeItem>>): Records
    decreases |sets|
  {
    if sets == [] then records else RevertAll(Revert(records, sets[|sets| - 1]), sets[..|sets| - 1])
  }

  lemma StepIsLogged(run: Run, n: nat)
    requires NobodyElse(run) && n < |run.steps|
    ensures var s, s' := run.states[n], run.states[n + 1];
            (s'.log == s.log && s'.records == s.records) ||
            (|s'.log| == |s.log| + 1 && s'.log[..|s.log|] == s.log && IsDiff(s'.log[|s.log|], s.records, s'.records))
  {
    assert StepAt(run, n);
  }

  predicate Connects(first: Records, last: Records, sets: seq<seq<ChangeItem>>) {
    ReplayAll(first, sets) == last && RevertAll(last, sets) == first
  }

  lemma OneMoreSet(first: Records, before: Records, after: Records, sets: seq<seq<ChangeItem>>, items: seq<ChangeItem>)
    requires Connects(first, before, sets) && IsDiff(items, before, after)
    ensures Connects(first, after, sets + [items])
  {
    assert (sets + [items])[..|sets|] == sets;
    ChangeSetRoundTrip(items, before, after);
  }

  // Nothing a plan does escapes the log: from the change sets of all its calls together the last records can be
  // computed from the first ones, and the first ones from the last.
  lemma {:induction false} LogTellsTheWholeRun(run: Run, n: nat)
    requires NobodyElse(run) && n < |run.states|
    ensures run.states[0].log <= run.states[n].log
    ensures Connects(run.states[0].records, run.states[n].records, run.states[n].log[|run.states[0].log|..])
    ensures ReplayAll(run.states[0].records, run.states[n].log[|run.states[0].log|..]) == run.states[n].records
    ensures RevertAll(run.states[n].records, run.states[n].log[|run.states[0].log|..]) == run.states[0].records
  {
    if n != 0 {
      LogTellsTheWholeRun(run, n - 1);
      LogGoesOn(run, n - 1);
    }
  }

  lemma LogGoesOn(run: Run, n: nat)
    requires NobodyElse(run) && n < |run.steps| && run.states[0].log <= run.states[n].log
    requires Connects(run.states[0].records, run.states[n].records, run.states[n].log[|run.states[0].log|..])
    ensures run.states[0].log <= run.states[n + 1].log
    ensures Connects(run.states[0].records, run.states[n + 1].records, run.states[n + 1].log[|run.states[0].log|..])
  {
    var s, s', first := run.states[n], run.states[n + 1], |run.states[0].log|;
    StepIsLogged(run, n);
    if s'.log != s.log {
      assert s'.log[first..] == s.log[first..] + [s'.log[|s.log|]];
      OneMoreSet(run.states[0].records, s.records, s'.records, s.log[first..], s'.log[|s.log|]);
    }
  }
}
