/** When splitting a plan over calls leaves not just equal readings but the very same stored dictionaries. */
module ActionPlanLiteral {
  import opened Options
  import opened ActionPlanModel
  import opened ActionPlanHistory
  import opened ActionPlanSplits

  function Landed(data: Data, after: Data): (r: Data)
    ensures SameData(r, after)
  {
    if SameData(data, after) then data else after
  }

  predicate Changes(data: Data, actions: seq<Action>, key: RecordKey) {
    !SameData(data, Overlay(data, actions, key))
  }

  ghost predicate NamesOnlyPresent(data: Data, actions: seq<Action>, key: RecordKey) {
    forall f :: Names(actions, key, f) ==> f in data
  }

  lemma {:induction false} OverlayConcat(data: Data, first: seq<Action>, second: seq<Action>, key: RecordKey)
    ensures Overlay(data, first + second, key) == Overlay(Overlay(data, first, key), second, key)
  {
    if second == [] {
      assert first + second == first;
    } else {
      var last := |second| - 1;
      assert (first + second)[..|first| + last] == first + second[..last];
      OverlayConcat(data, first, second[..last], key);
    }
  }

  // A field the actions name ends up the same whatever the data was; any other keeps what it had.
  lemma OverlayLookup(data: Data, other: Data, actions: seq<Action>, key: RecordKey, f: string)
    requires DistinctTargets(actions)
    ensures Names(actions, key, f) ==>
              Lookup(Overlay(data, actions, key), f) == Lookup(Overlay(other, actions, key), f) != None
    ensures !Names(actions, key, f) ==> Lookup(Overlay(data, actions, key), f) == Lookup(data, f)
  {
    if Names(actions, key, f) {
      var i :| 0 <= i < |actions| && Writes(actions[i], key, f);
      OverlayHit(data, actions, i);
      OverlayHit(other, actions, i);
    } else {
      OverlayMiss(data, actions, key, f);
    }
  }

  lemma SameLookups(a: Data, b: Data)
    requires forall f :: Lookup(a, f) == Lookup(b, f)
    ensures a == b
  {
    forall f
      ensures f in a <==> f in b
      ensures f in a ==> a[f] == b[f]
    {
      assert Lookup(a, f) == Lookup(b, f);
    }
  }

  lemma NamedOnce(first: seq<Action>, second: seq<Action>, key: RecordKey, f: string)
    requires DistinctTargets(first + second)
    ensures DistinctTargets(first) && DistinctTargets(second)
    ensures !(Names(first, key, f) && Names(second, key, f))
  {
    var all := first + second;
    forall i, j | 0 <= i < |first| && 0 <= j < |second|
      ensures !SameTarget(first[i], second[j])
    {
      assert !SameTarget(all[i], all[|first| + j]);
    }
    forall i, j | 0 <= i < j < |second|
      ensures !SameTarget(second[i], second[j])
    {
      assert !SameTarget(all[|first| + i], all[|first| + j]);
    }
    forall i, j | 0 <= i < j < |first|
      ensures !SameTarget(first[i], first[j])
    {
      assert !SameTarget(all[i], all[j]);
    }
  }

  // What the second group changes does not depend on whether the first was applied before.
  lemma ChangesApart(data: Data, first: seq<Action>, second: seq<Action>, key: RecordKey)
    requires DistinctTargets(first + second)
    ensures Changes(Landed(data, Overlay(data, first, key)), second, key) <==> Changes(data, second, key)
    ensures Changes(data, first + second, key) <==> Changes(data, first, key) || Changes(data, second, key)
  {
    var d1 := Overlay(data, first, key);
    OverlayConcat(data, first, second, key);
    forall f
      ensures Names(second, key, f) ==> Get(Overlay(d1, second, key), f) == Get(Overlay(data, second, key), f)
      ensures Names(second, key, f) ==> Get(d1, f) == Get(data, f)
      ensures Names(second, key, f) ==>
                Get(Overlay(Landed(data, d1), second, key), f) == Get(Overlay(data, second, key), f)
      ensures !Names(second, key, f) ==> Get(Overlay(d1, second, key), f) == Get(d1, f)
      ensures !Names(second, key, f) ==> Get(Overlay(data, second, key), f) == Get(data, f)
      ensures !Names(second, key, f) ==> Get(Overlay(Landed(data, d1), second, key), f) == Get(Landed(data, d1), f)
      ensures Get(Landed(data, d1), f) == Get(d1, f)
    {
      NamedOnce(first, second, key, f);
      OverlayLookup(data, data, first, key, f);
      OverlayLookup(d1, data, second, key, f);
      OverlayLookup(data, data, second, key, f);
      OverlayLookup(Landed(data, d1), data, second, key, f);
    }
  }

  // Written over data it does not change, a group of actions leaves it literally alone exactly if every field it
  // names is there already.
  lemma NoChangeIsLiteral(data: Data, base: Data, actions: seq<Action>, key: RecordKey)
    requires DistinctTargets(actions) && !Changes(data, actions, key)
    requires forall f :: Names(actions, key, f) ==> Lookup(base, f) == Lookup(data, f)
    ensures Overlay(base, actions, key) == base <==> NamesOnlyPresent(data, actions, key)
  {
    forall f
      ensures Names(actions, key, f) ==> Lookup(Overlay(base, actions, key), f) == Lookup(Overlay(data, actions, key), f)
      ensures Names(actions, key, f) ==> f in Overlay(data, actions, key)
      ensures !Names(actions, key, f) ==> Lookup(Overlay(base, actions, key), f) == Lookup(base, f)
      ensures Get(Overlay(data, actions, key), f) == Get(data, f)
    {
      OverlayLookup(base, data, actions, key, f);
      OverlayLookup(data, data, actions, key, f);
    }
    if NamesOnlyPresent(data, actions, key) {
      SameLookups(Overlay(base, actions, key), base);
    } else {
      var f :| Names(actions, key, f) && f !in data;
      assert Lookup(base, f) == None;
      assert Lookup(Overlay(base, actions, key), f) != None;
    }
  }

  // Splitting a record's updates in two gives the very same dictionary as applying them at once, unless one part
  // changes nothing, the other does, and the idle part names a field the record does not have.
  lemma SplitIsLiteralExactlyWhen(data: Data, first: seq<Action>, second: seq<Action>, key: RecordKey)
    requires DistinctTargets(first + second)
    ensures var mid := Landed(data, Overlay(data, first, key));
            Landed(mid, Overlay(mid, second, key)) == Landed(data, Overlay(data, first + second, key)) <==>
              && (Changes(data, first, key) && !Changes(data, second, key) ==> NamesOnlyPresent(data, second, key))
              && (Changes(data, second, key) && !Changes(data, first, key) ==> NamesOnlyPresent(data, first, key))
  {
    var d1 := Overlay(data, first, key);
    ChangesApart(data, first, second, key);
    OverlayConcat(data, first, second, key);
    NamedOnce(first, second, key, "");
    if Changes(data, first, key) && !Changes(data, second, key) {
      forall f
        ensures Names(second, key, f) ==> Lookup(d1, f) == Lookup(data, f)
      {
        NamedOnce(first, second, key, f);
        OverlayLookup(data, data, first, key, f);
      }
      NoChangeIsLiteral(data, d1, second, key);
    }
    if Changes(data, second, key) && !Changes(data, first, key) {
      LiteralLater(data, first, second, key);
    }
  }

  lemma LiteralLater(data: Data, first: seq<Action>, second: seq<Action>, key: RecordKey)
    requires DistinctTargets(first + second) && !Changes(data, first, key)
    ensures Overlay(data, second, key) == Overlay(Overlay(data, first, key), second, key)
       <==> NamesOnlyPresent(data, first, key)
  {
    var d1, d2, both := Overlay(data, first, key), Overlay(data, second, key),
                        Overlay(Overlay(data, first, key), second, key);
    NamedOnce(first, second, key, "");
    NoChangeIsLiteral(data, data, first, key);
    if !NamesOnlyPresent(data, first, key) {
      var f :| Names(first, key, f) && f !in data;
      NamedOnce(first, second, key, f);
      OverlayLookup(data, data, second, key, f);
      OverlayLookup(data, data, first, key, f);
      OverlayLookup(d1, data, second, key, f);
      assert Lookup(d2, f) == None && Lookup(both, f) != None;
    }
  }

  lemma StepLands(run: Run, n: nat, key: RecordKey)
    requires NobodyElse(run) && n < |run.steps| && key in run.states[n].records
    ensures key in run.states[n + 1].records
    ensures var data := run.states[n].records[key].data;
            run.states[n + 1].records[key].data == Landed(data, Overlay(data, Done(run.steps[n]), key))
  {
    if Touches(run, n, key) {
      StepOnBooks(run, n);
      var a :| a in Done(run.steps[n]) && a.Update? && a.key == key;
    } else {
      UntouchedRecord(run, n, key);
      OverlayElsewhere(run.states[n].records[key].data, Done(run.steps[n]), key);
    }
  }

  lemma TwoStepsLand(two: Run, key: RecordKey)
    requires NobodyElse(two) && |two.steps| == 2 && key in two.states[0].records
    ensures key in two.states[2].records
    ensures var data, first, second := two.states[0].records[key].data, Done(two.steps[0]), Done(two.steps[1]);
            var mid := Landed(data, Overlay(data, first, key));
            two.states[2].records[key].data == Landed(mid, Overlay(mid, second, key))
  {
    StepLands(two, 0, key);
    StepLands(two, 1, key);
  }

  lemma DoneIsDistinct(run: Run, n: nat)
    requires n < |run.steps|
    ensures DistinctTargets(Done(run.steps[n]))
  {
    StepOnBooks(run, n);
  }

  // The same for apply: two calls and one call that carries out the same actions leave the same dictionary in a
  // record under exactly that condition.
  lemma TwoCallsAreLiteralExactlyWhen(two: Run, one: Run, key: RecordKey)
    requires NobodyElse(two) && NobodyElse(one) && |two.steps| == 2 && |one.steps| == 1
    requires two.states[0] == one.states[0] && key in one.states[0].records
    requires Done(one.steps[0]) == Done(two.steps[0]) + Done(two.steps[1])
    ensures key in two.states[2].records && key in one.states[1].records
    ensures var data, first, second := one.states[0].records[key].data, Done(two.steps[0]), Done(two.steps[1]);
            two.states[2].records[key].data == one.states[1].records[key].data <==>
              && (Changes(data, first, key) && !Changes(data, second, key) ==> NamesOnlyPresent(data, second, key))
              && (Changes(data, second, key) && !Changes(data, first, key) ==> NamesOnlyPresent(data, first, key))
  {
    TwoStepsLand(two, key);
    StepLands(one, 0, key);
    DoneIsDistinct(one, 0);
    SplitIsLiteralExactlyWhen(one.states[0].records[key].data, Done(two.steps[0]), Done(two.steps[1]), key);
  }

  // A step that changes the record names the field: that is when a field the record did not have gets stored.
  predicate StoredBy(run: Run, n: nat, key: RecordKey, f: string)
    requires n <= |run.steps|
  {
    exists i :: 0 <= i < n && DataChanged(run, i, key) && Names(Done(run.steps[i]), key, f)
  }

  lemma StepStores(run: Run, n: nat, key: RecordKey, f: string)
    requires NobodyElse(run) && n < |run.steps| && key in run.states[n].records
    ensures key in run.states[n + 1].records
    ensures f in run.states[n + 1].records[key].data
       <==> f in run.states[n].records[key].data || (DataChanged(run, n, key) && Names(Done(run.steps[n]), key, f))
  {
    var data := run.states[n].records[key].data;
    StepLands(run, n, key);
    DoneIsDistinct(run, n);
    OverlayLookup(data, data, Done(run.steps[n]), key, f);
  }

  lemma {:induction false} FieldsStored(run: Run, n: nat, key: RecordKey, f: string)
    requires NobodyElse(run) && n < |run.states| && key in run.states[0].records
    ensures key in run.states[n].records
    ensures f in run.states[n].records[key].data <==> f in run.states[0].records[key].data || StoredBy(run, n, key, f)
  {
    if n > 0 {
      FieldsStored(run, n - 1, key, f);
      StepStores(run, n - 1, key, f);
      assert StoredBy(run, n, key, f) <==>
        StoredBy(run, n - 1, key, f) || (DataChanged(run, n - 1, key) && Names(Done(run.steps[n - 1]), key, f));
    }
  }

  // However the same actions are spread over calls: two runs leave the very same dictionary in a record if and only
  // if they store the same of the fields it did not have, each with a call that changes it.
  lemma RunsAreLiteralExactlyWhen(a: Run, b: Run, key: RecordKey)
    requires NobodyElse(a) && NobodyElse(b) && SameStart(a, b) && VersionsCurrent(a.states[0])
    requires a.states[Last(a)].plan.applied == b.states[Last(b)].plan.applied && key in a.states[0].records
    ensures key in a.states[Last(a)].records && key in b.states[Last(b)].records
    ensures a.states[Last(a)].records[key].data == b.states[Last(b)].records[key].data <==>
              forall f :: f !in a.states[0].records[key].data ==>
                (StoredBy(a, Last(a), key, f) <==> StoredBy(b, Last(b), key, f))
  {
    PartitionIndependence(a, b);
    var da, db := a.states[Last(a)].records[key].data, b.states[Last(b)].records[key].data;
    forall f
      ensures f in da <==> f in a.states[0].records[key].data || StoredBy(a, Last(a), key, f)
      ensures f in db <==> f in a.states[0].records[key].data || StoredBy(b, Last(b), key, f)
    {
      FieldsStored(a, Last(a), key, f);
      FieldsStored(b, Last(b), key, f);
    }
    SameDomainSameData(da, db);
  }

  lemma SameDomainSameData(a: Data, b: Data)
    requires SameData(a, b)
    ensures a == b <==> forall f :: f in a <==> f in b
  {
    if forall f :: f in a <==> f in b {
      forall f | f in a
        ensures a[f] == b[f]
      {
        assert Get(a, f) == Get(b, f);
      }
    }
  }

  // Clearing a field a record does not have, then setting another: at once the null is stored, in two calls the
  // first changes nothing and the null is never written.
  lemma PaddedNullDiffers(key: RecordKey)
    ensures var first := [Update("1", key, "cleared", Plain("text"), Null)];
            var second := [Update("2", key, "title", Plain("text"), Text("x"))];
            var mid := Landed(map[], Overlay(map[], first, key));
            Landed(mid, Overlay(mid, second, key)) != Landed(map[], Overlay(map[], first + second, key))
  {
    var data: Data := map[];
    var first := [Update("1", key, "cleared", Plain("text"), Null)];
    var second := [Update("2", key, "title", Plain("text"), Text("x"))];
    assert first[..0] == [] && second[..0] == [];
    assert Overlay(data, first, key) == map["cleared" := Null];
    assert Overlay(data, second, key) == map["title" := Text("x")];
    assert Get(Overlay(data, second, key), "title") != Get(data, "title");
    assert Writes(first[0], key, "cleared") && Names(first, key, "cleared");
    SplitIsLiteralExactlyWhen(data, first, second, key);
  }
}
