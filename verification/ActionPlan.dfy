/** Previewing and applying AI action plans. */
module ActionPlan {
  import opened Options
  import opened ActionPlanModel
  import AutoNumber

  const MAX_ACTIONS := 40

  // ---------------------------------------------------------------- preview

  function TargetsOf(actions: seq<Action>): set<(RecordKey, string)> {
    set a | a in actions && a.Update? :: (a.key, a.field)
  }

  predicate Targeted(kept: seq<Action>, a: Action) {
    a.Update? && (a.key, a.field) in TargetsOf(kept)
  }

  function IdsSeen(drafts: seq<Option<Action>>, n: nat): (r: set<string>)
    requires n <= |drafts|
    ensures forall id :: id in r <==> exists j :: 0 <= j < n && drafts[j].Some? && drafts[j].value.id == id
  {
    if n == 0 then {} else IdsSeen(drafts, n - 1) + if drafts[n - 1].Some? then {drafts[n - 1].value.id} else {}
  }

  predicate IsFirstWithId(drafts: seq<Option<Action>>, i: nat)
    requires i < |drafts| && drafts[i].Some?
  {
    forall j :: 0 <= j < i && drafts[j].Some? ==> drafts[j].value.id != drafts[i].value.id
  }

  predicate TargetFree(drafts: seq<Option<Action>>, at: seq<nat>, i: nat)
    requires forall k :: k in at ==> k < |drafts| && drafts[k].Some?
    requires i < |drafts| && drafts[i].Some?
  {
    forall k :: k in at && k < i ==> !SameTarget(drafts[k].value, drafts[i].value)
  }

  // Of the first n drafts those at these positions are kept, in order: each that is the first with its id and writes
  // no field that a kept one before it writes.
  predicate KeptAt(drafts: seq<Option<Action>>, n: nat, kept: seq<Action>, at: seq<nat>)
    requires n <= |drafts|
  {
    && |at| == |kept|
    && (forall k :: 0 <= k < |at| ==> at[k] < n && drafts[at[k]] == Some(kept[k]))
    && (forall k, l :: 0 <= k < l < |at| ==> at[k] < at[l])
    && (forall i :: 0 <= i < n ==>
          (i in at <==> drafts[i].Some? && IsFirstWithId(drafts, i) && TargetFree(drafts, at, i)))
  }

  lemma OneMoreSkipped(drafts: seq<Option<Action>>, n: nat, kept: seq<Action>, at: seq<nat>)
    requires n < |drafts| && KeptAt(drafts, n, kept, at)
    requires drafts[n].Some? ==> !IsFirstWithId(drafts, n) || !TargetFree(drafts, at, n)
    ensures KeptAt(drafts, n + 1, kept, at)
  {
    assert n !in at;
  }

  lemma OneMoreKept(drafts: seq<Option<Action>>, n: nat, kept: seq<Action>, at: seq<nat>, a: Action)
    requires n < |drafts| && KeptAt(drafts, n, kept, at) && drafts[n] == Some(a)
    requires IsFirstWithId(drafts, n) && TargetFree(drafts, at, n)
    ensures KeptAt(drafts, n + 1, kept + [a], at + [n])
  {
    assert forall i :: i in at + [n] <==> i in at || i == n;
    forall i | 0 <= i < n && drafts[i].Some?
      ensures TargetFree(drafts, at + [n], i) <==> TargetFree(drafts, at, i)
    {
    }
  }

  // Whether a target is free can be told from the targets written so far.
  lemma FreeByTargets(drafts: seq<Option<Action>>, n: nat, kept: seq<Action>, at: seq<nat>)
    requires n < |drafts| && KeptAt(drafts, n, kept, at) && drafts[n].Some?
    ensures TargetFree(drafts, at, n) <==> !Targeted(kept, drafts[n].value)
  {
    var a := drafts[n].value;
    if a.Update? && (a.key, a.field) in TargetsOf(kept) {
      var b :| b in kept && b.Update? && (b.key, b.field) == (a.key, a.field);
      var k :| 0 <= k < |kept| && kept[k] == b;
      assert at[k] in at && SameTarget(drafts[at[k]].value, a);
    } else {
      forall k | k in at
        ensures !SameTarget(drafts[k].value, a)
      {
        var l :| 0 <= l < |at| && at[l] == k;
        assert kept[l] in kept;
      }
    }
  }

  lemma KeptIsDistinct(drafts: seq<Option<Action>>, n: nat, kept: seq<Action>, at: seq<nat>)
    requires n <= |drafts| && KeptAt(drafts, n, kept, at)
    ensures DistinctActionIds(kept) && DistinctTargets(kept)
  {
    forall k, l | 0 <= k < l < |kept|
      ensures kept[k].id != kept[l].id && !SameTarget(kept[k], kept[l])
    {
      assert at[k] in at && at[l] in at;
      assert IsFirstWithId(drafts, at[l]) && TargetFree(drafts, at, at[l]);
    }
  }

  // While everything has been kept, a draft that is not tells that two of the drafts clash.
  lemma ClashRefuses(drafts: seq<Option<Action>>, n: nat, kept: seq<Action>, at: seq<nat>)
    requires n < |drafts| && KeptAt(drafts, n, kept, at) && drafts[n].Some?
    requires !IsFirstWithId(drafts, n) || !TargetFree(drafts, at, n)
    ensures exists j :: 0 <= j < n && drafts[j].Some? && Clash(drafts[j].value, drafts[n].value)
  {
    if !IsFirstWithId(drafts, n) {
      var j :| 0 <= j < n && drafts[j].Some? && drafts[j].value.id == drafts[n].value.id;
      assert Clash(drafts[j].value, drafts[n].value);
    } else {
      var k :| k in at && k < n && SameTarget(drafts[k].value, drafts[n].value);
      assert Clash(drafts[k].value, drafts[n].value);
    }
  }

  // The two drafts share their id or write the same field of the same record.
  predicate Clash(a: Action, b: Action) { a.id == b.id || SameTarget(a, b) }

  predicate Clashless(drafts: seq<Option<Action>>, n: nat)
    requires n <= |drafts|
  {
    forall i :: 0 <= i < n ==> drafts[i].Some? && forall j :: 0 <= j < i && drafts[j].Some? ==>
      !Clash(drafts[j].value, drafts[i].value)
  }

  predicate AllKept(at: seq<nat>, n: nat) {
    |at| == n && forall j :: 0 <= j < n ==> at[j] == j
  }

  lemma AllKeptClashless(drafts: seq<Option<Action>>, n: nat, kept: seq<Action>, at: seq<nat>)
    requires n <= |drafts| && KeptAt(drafts, n, kept, at)
    requires AllKept(at, n)
    ensures Clashless(drafts, n)
  {
    forall i | 0 <= i < n
      ensures drafts[i] == Some(kept[i])
    {
      assert drafts[at[i]] == Some(kept[i]);
    }
    forall i, j | 0 <= j < i < n
      ensures drafts[i].Some? && drafts[j].Some? && !Clash(drafts[j].value, drafts[i].value)
    {
      assert at[i] == i && at[j] == j;
      assert at[i] in at && at[j] in at;
      assert IsFirstWithId(drafts, i) && TargetFree(drafts, at, i);
    }
  }

  // One condition for a draft to be kept, in terms of the kept actions
  lemma FreeAmongKept(drafts: seq<Option<Action>>, n: nat, kept: seq<Action>, at: seq<nat>, i: nat)
    requires n <= |drafts| && KeptAt(drafts, n, kept, at) && i < n && drafts[i].Some?
    ensures TargetFree(drafts, at, i) <==>
              (drafts[i].value.Update? ==> forall k :: 0 <= k < |at| && at[k] < i && kept[k].Update? ==>
                kept[k].key != drafts[i].value.key || kept[k].field != drafts[i].value.field)
  {
    if TargetFree(drafts, at, i) {
      assert forall k :: 0 <= k < |at| ==> at[k] in at;
    }
  }

  lemma KeptSpelledOut(drafts: seq<Option<Action>>, n: nat, kept: seq<Action>, at: seq<nat>)
    requires n <= |drafts| && KeptAt(drafts, n, kept, at)
    ensures forall i :: 0 <= i < |drafts| ==>
              (i in at <==>
                && i < n && drafts[i].Some?
                && (forall j :: 0 <= j < i && drafts[j].Some? ==> drafts[j].value.id != drafts[i].value.id)
                && (drafts[i].value.Update? ==> forall k :: 0 <= k < |at| && at[k] < i && kept[k].Update? ==>
                     kept[k].key != drafts[i].value.key || kept[k].field != drafts[i].value.field))
  {
    forall i | 0 <= i < n && drafts[i].Some?
      ensures i in at <==>
                && (forall j :: 0 <= j < i && drafts[j].Some? ==> drafts[j].value.id != drafts[i].value.id)
                && (drafts[i].value.Update? ==> forall k :: 0 <= k < |at| && at[k] < i && kept[k].Update? ==>
                     kept[k].key != drafts[i].value.key || kept[k].field != drafts[i].value.field)
    {
      FreeAmongKept(drafts, n, kept, at, i);
    }
  }

  // What becomes of the next draft
  lemma NextDraft(drafts: seq<Option<Action>>, n: nat, limit: nat, kept: seq<Action>, at: seq<nat>)
    requires n < limit <= |drafts| && KeptAt(drafts, n, kept, at)
    ensures drafts[n].None? || drafts[n].value.id in IdsSeen(drafts, n) || Targeted(kept, drafts[n].value) ==>
              KeptAt(drafts, n + 1, kept, at) && !Clashless(drafts, limit)
    ensures drafts[n].Some? && drafts[n].value.id !in IdsSeen(drafts, n) && !Targeted(kept, drafts[n].value) ==>
              var a := drafts[n].value;
              KeptAt(drafts, n + 1, kept + [a], at + [n]) &&
              TargetsOf(kept + [a]) == TargetsOf(kept) + if a.Update? then {(a.key, a.field)} else {}
  {
    if drafts[n].None? {
      OneMoreSkipped(drafts, n, kept, at);
    } else {
      FreeByTargets(drafts, n, kept, at);
      if IsFirstWithId(drafts, n) && TargetFree(drafts, at, n) {
        OneMoreKept(drafts, n, kept, at, drafts[n].value);
      } else {
        OneMoreSkipped(drafts, n, kept, at);
        ClashRefuses(drafts, n, kept, at);
      }
    }
  }

  // One draft: kept, or refused for having failed normalization, for its id or for the field it writes
  method KeepDraft(drafts: seq<Option<Action>>, i: nat, kept: seq<Action>, targets: set<(RecordKey, string)>,
                   ids: set<string>, ghost at: seq<nat>, ghost limit: nat)
    returns (ok: bool, kept': seq<Action>, targets': set<(RecordKey, string)>, ids': set<string>, ghost at': seq<nat>)
    requires i < limit <= |drafts| && KeptAt(drafts, i, kept, at) && targets == TargetsOf(kept) && ids == IdsSeen(drafts, i)
    ensures KeptAt(drafts, i + 1, kept', at') && targets' == TargetsOf(kept') && ids' == IdsSeen(drafts, i + 1)
    ensures if ok then at' == at + [i] else at' == at && !Clashless(drafts, limit)
  {
    kept', targets', ids', at' := kept, targets, ids, at;
    NextDraft(drafts, i, limit, kept, at);
    if drafts[i].None? {
      return false, kept', targets', ids', at';
    }
    var a := drafts[i].value;
    if a.id in ids {
      return false, kept', targets', ids', at';
    }
    ids' := ids + {a.id};
    if a.Update? {
      if (a.key, a.field) in targets {
        return false, kept', targets', ids', at';
      }
      targets' := targets + {(a.key, a.field)};
    }
    kept', at' := kept + [a], at + [i];
    ok := true;
  }

  method KeepDrafts(drafts: seq<Option<Action>>, userEdited: bool)
    returns (plan: Option<seq<Action>>, ghost at: seq<nat>)
    ensures plan.Some? ==> KeptAt(drafts, |Firsts(drafts)|, plan.value, at)
    ensures plan.Some? <==> !userEdited || Clashless(drafts, |Firsts(drafts)|)
    ensures plan.Some? && userEdited ==> |plan.value| == |Firsts(drafts)|
  {
    var kept: seq<Action> := [];
    var targets: set<(RecordKey, string)> := {};
    var ids: set<string> := {};
    var limit := |Firsts(drafts)|;
    at := [];
    for i := 0 to limit
      invariant KeptAt(drafts, i, kept, at) && targets == TargetsOf(kept) && ids == IdsSeen(drafts, i)
      invariant userEdited ==> AllKept(at, i)
    {
      var ok;
      ok, kept, targets, ids, at := KeepDraft(drafts, i, kept, targets, ids, at, limit);
      if !ok && userEdited {
        return None, at;
      }
    }
    if userEdited {
      AllKeptClashless(drafts, limit, kept, at);
    }
    return Some(kept), at;
  }

  // Drafts come in as normalized actions, or None where normalization raised. Of the first 40 a plan keeps, in order,
  // each that is the first with its id and writes no field that a kept one before it writes; a user-edited plan is
  // refused whole if it would lose one. at: the positions of the kept drafts
  method Preview(drafts: seq<Option<Action>>, userEdited: bool) returns (plan: Option<seq<Action>>, ghost at: seq<nat>)
    ensures plan.Some? ==> DistinctActionIds(plan.value) && DistinctTargets(plan.value)
    ensures plan.Some? ==>
              && |at| == |plan.value|
              && (forall k :: 0 <= k < |at| ==> at[k] < |drafts| && drafts[at[k]] == Some(plan.value[k]))
              && (forall k, l :: 0 <= k < l < |at| ==> at[k] < at[l])
    ensures plan.Some? ==> forall i :: 0 <= i < |drafts| ==>
              (i in at <==>
                && i < 40 && drafts[i].Some?
                && (forall j :: 0 <= j < i && drafts[j].Some? ==> drafts[j].value.id != drafts[i].value.id)
                && (drafts[i].value.Update? ==> forall k :: 0 <= k < |at| && at[k] < i && plan.value[k].Update? ==>
                     plan.value[k].key != drafts[i].value.key || plan.value[k].field != drafts[i].value.field))
    ensures plan.Some? <==>
              !userEdited || forall i :: 0 <= i < |drafts| && i < 40 ==>
                drafts[i].Some? && forall j :: 0 <= j < i && drafts[j].Some? ==>
                  drafts[j].value.id != drafts[i].value.id &&
                  (drafts[j].value.Update? && drafts[i].value.Update? && drafts[j].value.key == drafts[i].value.key ==>
                    drafts[j].value.field != drafts[i].value.field)
    ensures plan.Some? && userEdited ==> |plan.value| == if |drafts| < 40 then |drafts| else 40
  {
    plan, at := KeepDrafts(drafts, userEdited);
    if plan.Some? {
      KeptIsDistinct(drafts, |Firsts(drafts)|, plan.value, at);
      KeptSpelledOut(drafts, |Firsts(drafts)|, plan.value, at);
    }
  }

  function Firsts<T>(xs: seq<T>): seq<T> {
    if |xs| <= MAX_ACTIONS then xs else xs[..MAX_ACTIONS]
  }

  // ---------------------------------------------------------------- small steps of a diff

  lemma DiffOfNothing(records: Records)
    ensures IsDiff([], records, records)
  {
  }

  lemma DiffGrows(items: seq<ChangeItem>, before: Records, mid: Records, k: RecordKey, r: Record)
    requires IsDiff(items, before, mid) && Lookup(before, k) == Lookup(mid, k) && Lookup(mid, k) != Some(r)
    ensures IsDiff(items + [ChangeItem(k, Lookup(before, k), Some(r))], before, mid[k := r])
  {
    var longer := items + [ChangeItem(k, Lookup(before, k), Some(r))];
    forall x | x in before.Keys + mid[k := r].Keys && Lookup(before, x) != Lookup(mid[k := r], x)
      ensures Mentions(longer, x)
    {
      if x == k {
        assert longer[|items|].key == k;
      } else {
        var i :| 0 <= i < |items| && items[i].key == x;
        assert longer[i].key == x;
      }
    }
  }

  // ---------------------------------------------------------------- the guards, in the order they are tried

  predicate UpdatesPass(s: State, call: Call, selected: seq<Action>) {
    forall i :: 0 <= i < |selected| && selected[i].Update? ==>
      selected[i].id !in call.denied && UpdateAccepted(s, call, selected[i])
  }

  predicate CreatesPass(s: State, call: Call, selected: seq<Action>) {
    forall i :: 0 <= i < |selected| && selected[i].Create? ==>
      selected[i].id !in call.denied && CreateAccepted(s, call, selected[i])
  }

  lemma PassesInTurn(s: State, call: Call, selected: seq<Action>)
    ensures Passes(s, call, selected)
       <==> UpdatesPass(s, call, selected) && CreatesPass(s, call, selected) &&
            CreatesNumberable(s.schema, selected) && call.fate != Fails
  {
    if Passes(s, call, selected) {
      forall i | 0 <= i < |selected|
        ensures ActionAccepted(s, call, selected[i])
      {
      }
    }
  }

  // An update that is not denied passes exactly if its record is at the version the plan noted and its field is
  // there, of the same type, and takes the suggested value: a select field its listed options, blank or null, a
  // multi-select lists of its options, a date or relation field what parses, any other field everything.
  lemma UpdatePassesExactlyWhen(s: State, call: Call, a: Action, p: nat)
    requires a.Update? && a.key.table in s.schema && p < |s.schema[a.key.table]|
    requires s.schema[a.key.table][p].id == a.field && DistinctFields(s.schema[a.key.table])
    ensures UpdatesPass(s, call, [a]) <==>
              && a.id !in call.denied && a.key in s.records
              && VersionOf(s.records[a.key])
                   == (if a.key in s.plan.versions && s.plan.versions[a.key] > 0 then s.plan.versions[a.key] else 1)
              && s.schema[a.key.table][p].fieldType == a.fieldType &&
              match s.schema[a.key.table][p].fieldType
              case Select => (match a.suggested
                case Null => true
                case Text(text) => text == "" || text in s.schema[a.key.table][p].options
                case Number(n) => (if n < 0 then "-" + AutoNumber.Decimal(-n) else AutoNumber.Decimal(n))
                                    in s.schema[a.key.table][p].options
                case Many(_) => false)
              case MultiSelect => (match a.suggested
                case Null => true
                case Text(text) => forall c :: c in text ==> [c] in s.schema[a.key.table][p].options
                case Number(n) => n == 0
                case Many(items) => forall x :: x in items ==> x in s.schema[a.key.table][p].options)
              case Date => a.suggested == Null || a.suggested == Text("") || a.id !in call.unparsable
              case Relation => a.id !in call.unparsable
              case _ => true
  {
    FieldDecides(s.schema, a.key.table, p, a.fieldType, a.suggested, a.id !in call.unparsable);
    AcceptedByType(s.schema[a.key.table][p], a.suggested, a.id !in call.unparsable);
    OneUpdate(s, call, a);
  }

  lemma OneUpdate(s: State, call: Call, a: Action)
    requires a.Update?
    ensures UpdatesPass(s, call, [a]) <==> a.id !in call.denied && UpdateAccepted(s, call, a)
  {
    assert [a][0] == a;
  }

  lemma OneCreate(s: State, call: Call, a: Action)
    requires a.Create?
    ensures CreatesPass(s, call, [a]) <==> a.id !in call.denied && CreateAccepted(s, call, a)
  {
    assert [a][0] == a;
  }

  // A new row that sets one field passes exactly if its record does not exist yet and the field is there, of the same
  // type, and takes the proposed value.
  lemma CreatePassesExactlyWhen(s: State, call: Call, a: Action, p: nat)
    requires a.Create? && a.key.table in s.schema && p < |s.schema[a.key.table]|
    requires DistinctFields(s.schema[a.key.table]) && a.fieldTypes.Keys == {s.schema[a.key.table][p].id}
    ensures var field := s.schema[a.key.table][p];
            var v := if field.id in a.payload then a.payload[field.id] else Null;
            CreatesPass(s, call, [a]) <==>
              && a.id !in call.denied && a.key !in s.records && field.fieldType == a.fieldTypes[field.id] &&
              match field.fieldType
              case Select => (match v
                case Null => true
                case Text(text) => text == "" || text in field.options
                case Number(n) => (if n < 0 then "-" + AutoNumber.Decimal(-n) else AutoNumber.Decimal(n)) in field.options
                case Many(_) => false)
              case MultiSelect => (match v
                case Null => true
                case Text(text) => forall c :: c in text ==> [c] in field.options
                case Number(n) => n == 0
                case Many(items) => forall x :: x in items ==> x in field.options)
              case Date => v == Null || v == Text("") || a.id !in call.unparsable
              case Relation => a.id !in call.unparsable
              case _ => true
  {
    var f := s.schema[a.key.table][p].id;
    FieldDecides(s.schema, a.key.table, p, a.fieldTypes[f], Get(a.payload, f), a.id !in call.unparsable);
    AcceptedByType(s.schema[a.key.table][p], Get(a.payload, f), a.id !in call.unparsable);
    OneCreate(s, call, a);
    assert f in a.fieldTypes;
  }

  // A row that sets several fields passes exactly if it would with each of them alone.
  lemma CreateFieldByField(s: State, call: Call, a: Action)
    requires a.Create? && a.fieldTypes != map[]
    ensures CreatesPass(s, call, [a]) <==>
              forall f :: f in a.fieldTypes ==> CreatesPass(s, call, [a.(fieldTypes := map[f := a.fieldTypes[f]])])
  {
    OneCreate(s, call, a);
    forall f | f in a.fieldTypes
      ensures var b := a.(fieldTypes := map[f := a.fieldTypes[f]]);
              CreatesPass(s, call, [b]) <==> b.id !in call.denied && CreateAccepted(s, call, b)
    {
      OneCreate(s, call, a.(fieldTypes := map[f := a.fieldTypes[f]]));
    }
    var f :| f in a.fieldTypes;
    assert a.(fieldTypes := map[f := a.fieldTypes[f]]).key == a.key;
  }

  // A field that is gone refuses whatever is to be written to it.
  lemma GoneFieldRefuses(s: State, call: Call, a: Action, f: string)
    requires a.key.table in s.schema ==> forall p :: 0 <= p < |s.schema[a.key.table]| ==> s.schema[a.key.table][p].id != f
    ensures a.Update? && a.field == f ==> !UpdatesPass(s, call, [a])
    ensures a.Create? && f in a.fieldTypes ==> !CreatesPass(s, call, [a])
  {
    if a.Update? {
      OneUpdate(s, call, a);
      MissingFieldRefuses(s.schema, a.key.table, f, a.fieldType, a.suggested, a.id !in call.unparsable);
    } else if f in a.fieldTypes {
      OneCreate(s, call, a);
      MissingFieldRefuses(s.schema, a.key.table, f, a.fieldTypes[f], Get(a.payload, f), a.id !in call.unparsable);
    }
  }

  // What decides over an action, put together: a new row must pass the guard on its fields, and every auto-number field
  // of its table must have a property that is accepted.
  lemma AcceptedExactlyWhen(s: State, call: Call, a: Action)
    ensures a.Update? ==> (ActionAccepted(s, call, a) <==> UpdatesPass(s, call, [a]))
    ensures a.Create? ==>
              (ActionAccepted(s, call, a) <==>
                && CreatesPass(s, call, [a])
                && (a.key.table in s.schema ==>
                     forall p :: 0 <= p < |s.schema[a.key.table]| && s.schema[a.key.table][p].fieldType == AutoNumbered ==>
                       AutoNumber.Normalize(s.schema[a.key.table][p].property, None).Some?))
  {
    if a.Update? {
      OneUpdate(s, call, a);
    } else {
      OneCreate(s, call, a);
    }
  }

  // The guards look at each action by itself.
  lemma GuardsActionByAction(s: State, call: Call, selected: seq<Action>)
    ensures UpdatesPass(s, call, selected) <==> forall a :: a in selected && a.Update? ==> UpdatesPass(s, call, [a])
    ensures CreatesPass(s, call, selected) <==> forall a :: a in selected && a.Create? ==> CreatesPass(s, call, [a])
  {
    forall a | a in selected && a.Update?
      ensures UpdatesPass(s, call, [a]) <==> a.id !in call.denied && UpdateAccepted(s, call, a)
    {
      OneUpdate(s, call, a);
    }
    forall a | a in selected && a.Create?
      ensures CreatesPass(s, call, [a]) <==> a.id !in call.denied && CreateAccepted(s, call, a)
    {
      OneCreate(s, call, a);
    }
    assert forall i :: 0 <= i < |selected| ==> selected[i] in selected;
  }

  // ---------------------------------------------------------------- the service

  class Service {
    var records: Records
    var schema: Schema
    var log: seq<seq<ChangeItem>>
    var plan: Plan

    constructor (s: State)
      ensures Now() == s
    {
      records, schema, log, plan := s.records, s.schema, s.log, s.plan;
    }

    function Now(): State
      reads this
    {
      State(records, schema, log, plan)
    }

    method CheckUpdates(selected: seq<Action>, call: Call) returns (ok: bool)
      ensures ok <==> UpdatesPass(Now(), call, selected)
      ensures ok <==> forall a :: a in selected && a.Update? ==> UpdatesPass(Now(), call, [a])
    {
      GuardsActionByAction(Now(), call, selected);
      for i := 0 to |selected|
        invariant forall j :: 0 <= j < i && selected[j].Update? ==>
                    selected[j].id !in call.denied && UpdateAccepted(Now(), call, selected[j])
      {
        var a := selected[i];
        if a.Update? {
          if a.id in call.denied || a.key !in records ||
             VersionOf(records[a.key]) != ExpectedVersion(plan, a.key) ||
             !FieldAccepts(schema, a.key.table, a.field, a.fieldType, a.suggested, a.id !in call.unparsable) {
            return false;
          }
        }
      }
      return true;
    }

    method CheckCreates(selected: seq<Action>, call: Call) returns (ok: bool)
      ensures ok <==> CreatesPass(Now(), call, selected)
      ensures ok <==> forall a :: a in selected && a.Create? ==> CreatesPass(Now(), call, [a])
    {
      GuardsActionByAction(Now(), call, selected);
      for i := 0 to |selected|
        invariant forall j :: 0 <= j < i && selected[j].Create? ==>
                    selected[j].id !in call.denied && CreateAccepted(Now(), call, selected[j])
      {
        var a := selected[i];
        if a.Create? {
          if a.id in call.denied || a.key in records ||
             exists f :: f in a.fieldTypes &&
               !FieldAccepts(schema, a.key.table, f, a.fieldTypes[f], Get(a.payload, f), a.id !in call.unparsable) {
            return false;
          }
        }
      }
      return true;
    }

    // The records the updates touch, in order of first mention.
    method GroupKeys(selected: seq<Action>) returns (keys: seq<RecordKey>)
      ensures forall i, j :: 0 <= i < j < |keys| ==> keys[i] != keys[j]
      ensures forall k :: k in keys <==> k in UpdateKeys(selected)
    {
      keys := [];
      for i := 0 to |selected|
        invariant forall i, j :: 0 <= i < j < |keys| ==> keys[i] != keys[j]
        invariant forall k :: k in keys <==> k in UpdateKeys(selected[..i])
      {
        assert selected[..i + 1] == selected[..i] + [selected[i]];
        if selected[i].Update? && selected[i].key !in keys {
          keys := keys + [selected[i].key];
        }
      }
      assert selected[..|selected|] == selected;
    }

    method OverlayAll(data: Data, selected: seq<Action>, key: RecordKey) returns (after: Data)
      ensures after == Overlay(data, selected, key)
    {
      after := data;
      for i := 0 to |selected|
        invariant after == Overlay(data, selected[..i], key)
      {
        assert selected[..i + 1][..i] == selected[..i];
        if selected[i].Update? && selected[i].key == key {
          after := after[selected[i].field := selected[i].suggested];
        }
      }
      assert selected[..|selected|] == selected;
    }

    method WriteUpdates(selected: seq<Action>) returns (items: seq<ChangeItem>)
      requires UpdateKeys(selected) <= records.Keys
      modifies this`records
      ensures records == UpdatedRecords(old(records), selected, UpdateKeys(selected))
      ensures IsDiff(items, old(records), records)
    {
      var keys := GroupKeys(selected);
      items := [];
      ghost var original := records;
      ghost var done: set<RecordKey> := {};
      DiffOfNothing(records);
      for i := 0 to |keys|
        invariant forall k :: k in done <==> k in keys[..i]
        invariant records == UpdatedRecords(original, selected, done)
        invariant IsDiff(items, original, records)
      {
        var key := keys[i];
        assert key in keys && key in UpdateKeys(selected);
        assert key !in done;
        var before := records[key];
        var after := OverlayAll(before.data, selected, key);
        if !SameData(before.data, after) {
          var written := Record(after, VersionOf(before) + 1);
          DiffGrows(items, original, records, key, written);
          items := items + [ChangeItem(key, Some(before), Some(written))];
          records := records[key := written];
        }
        done := done + {key};
        assert keys[..i + 1] == keys[..i] + [key];
      }
      assert done == UpdateKeys(selected);
    }

    // Everything between the guards and the commit; on failure the session is rolled back.
    method CarryOut(selected: seq<Action>, call: Call) returns (ok: bool, items: seq<ChangeItem>)
      requires DistinctActionIds(selected) && FreshCreates(selected)
      requires forall t :: t in schema ==> DistinctFields(schema[t])
      modifies this`records, this`schema
      ensures ok <==> Passes(old(Now()), call, selected)
      ensures !ok ==> records == old(records) && schema == old(schema)
      ensures ok ==> RecordsWritten(old(Now()), records, selected) && CountersAdvanced(old(schema), schema, selected)
      ensures ok ==> IsDiff(items, old(records), records)
    {
      items := [];
      var before := Now();
      PassesInTurn(before, call, selected);
      ok := CheckUpdates(selected, call);
      if !ok { return; }
      ok := CheckCreates(selected, call);
      if !ok { return; }
      KeysAsChecked(before, call, selected);
      items := WriteUpdates(selected);
      var base := records;
      ok, schema, records, items := CreateTasks(selected, schema, before.records, base, items);
      if ok {
        WrittenAsIntended(before, base, records, selected);
      }
      if !ok || call.fate == Fails {
        ok, records, schema := false, before.records, before.schema;
      }
    }

    // The transaction of one call, up to its commit or rollback
    method Attempt(call: Call) returns (outcome: Outcome)
      requires WellFormed(plan) && DistinctRequest(call)
      requires forall t :: t in schema ==> DistinctFields(schema[t])
      modifies this
      ensures ApplyStep(old(Now()), call, Now(), outcome)
    {
      var ids := Requested(plan, call);
      if !WithinPlan(plan, ids) {
        return OutsidePlan;
      }
      var selected := Selected(plan, ids);
      if selected == [] {
        return Idempotent;
      }
      SelectedIsWellFormed(plan, call);
      var before := records;
      var ok, items := CarryOut(selected, call);
      if !ok {
        return Failed;
      }
      EmptyDiff(items, before, records);
      NoteCommit(selected, items);
      CommitDescribed(old(Now()), call, Now(), selected, items);
      return if call.fate == Lands then Committed else Raised;
    }

    method MarkFailure(seen: PlanStatus)
      modifies this`plan
      ensures plan == AfterFailure(old(plan), seen)
    {
      if seen == Previewed {
        plan := plan.(status := ApplyFailed);
      }
    }

    // A call that nobody interrupts: it is marked as failed exactly if it was the plan's first and failed. A commit
    // that raised goes through the same handler, which then finds the status the commit left.
    method Apply(call: Call) returns (outcome: Outcome)
      requires WellFormed(plan) && DistinctRequest(call)
      requires forall t :: t in schema ==> DistinctFields(schema[t])
      modifies this
      ensures outcome != Failed ==> ApplyStep(old(Now()), call, Now(), outcome)
      ensures outcome == Failed ==>
                && ApplyStep(old(Now()), call, old(Now()), outcome)
                && Now() == old(Now()).(plan := AfterFailure(old(plan), old(plan).status))
    {
      outcome := Attempt(call);
      if outcome == Failed || outcome == Raised {
        var seen := plan.status;
        MarkFailure(seen);
      }
    }

    // Everything that goes into the commit besides the records and counters themselves.
    method NoteCommit(selected: seq<Action>, items: seq<ChangeItem>)
      modifies this`log, this`plan
      ensures Recorded(old(log), old(plan), log, plan, records, selected, items)
    {
      var changeSets := plan.changeSets;
      if items != [] {
        changeSets := changeSets + [|log|];
        log := log + [items];
      }
      var applied := plan.applied + AppliedIds(selected);
      var versions := VersionsAfter(plan.versions, records, UpdateKeys(selected) + CreateKeys(selected));
      var status := if AppliedIds(plan.actions) <= applied then Applied else PartiallyApplied;
      plan := plan.(applied := applied, versions := versions, changeSets := changeSets, status := status);
    }
  }

  // ---------------------------------------------------------------- creating rows
  // These work on the session's records and schema as values; Service.Apply writes them back.

  // The tables the selected actions create rows in, in order of first mention.
  method CreateTables(selected: seq<Action>) returns (tables: seq<string>)
    ensures forall i, j :: 0 <= i < j < |tables| ==> tables[i] != tables[j]
    ensures forall t :: t in tables <==> exists i :: 0 <= i < |selected| && CreatesIn(selected, t, i)
  {
    tables := [];
    for i := 0 to |selected|
      invariant forall i, j :: 0 <= i < j < |tables| ==> tables[i] != tables[j]
      invariant forall t :: t in tables <==> exists j :: 0 <= j < i && CreatesIn(selected, t, j)
    {
      if selected[i].Create? && selected[i].key.table !in tables {
        tables := tables + [selected[i].key.table];
      }
      assert selected[i].Create? ==> CreatesIn(selected, selected[i].key.table, i);
    }
  }

  lemma AllocatedGrows(fields: seq<Field>, i: nat, values: map<string, seq<int>>, count: nat)
    requires DistinctFields(fields) && i < |fields| && Allocated(fields, i, values, count) && fields[i].id !in values
    ensures fields[i].fieldType != AutoNumbered ==> Allocated(fields, i + 1, values, count)
    ensures fields[i].fieldType == AutoNumbered ==>
              Allocated(fields, i + 1, values[fields[i].id := AutoNumber.Range(NextNumber(fields[i].property), count)], count)
  {
  }

  // Advance a table's auto-number counters by one batch; false if a stored property is refused.
  method AllocateNumbers(fields: seq<Field>, count: nat)
    returns (ok: bool, values: map<string, seq<int>>, advanced: seq<Field>)
    requires DistinctFields(fields)
    ensures ok <==> Numberable(fields)
    ensures ok ==> advanced == AdvancedFields(fields, count) && Allocated(fields, |fields|, values, count)
  {
    values, advanced := map[], [];
    for i := 0 to |fields|
      invariant forall j :: 0 <= j < i && fields[j].fieldType == AutoNumbered ==>
                  AutoNumber.Normalize(fields[j].property, None).Some?
      invariant |advanced| == i && forall j :: 0 <= j < i ==> advanced[j] == AdvancedField(fields[j], count)
      invariant forall id :: id in values ==> exists j :: 0 <= j < i && fields[j].id == id
      invariant Allocated(fields, i, values, count)
    {
      var f := fields[i];
      AllocatedGrows(fields, i, values, count);
      if f.fieldType == AutoNumbered {
        var allocation := AutoNumber.Allocate(f.property, count);
        if allocation.None? {
          return false, map[], [];
        }
        values := values[f.id := allocation.value.0];
        f := f.(property := allocation.value.1);
      }
      advanced := advanced + [f];
    }
    ok := true;
  }

  method BuildRow(fields: seq<Field>, values: map<string, seq<int>>, payload: Data, index: nat, ghost count: nat)
    returns (data: Data)
    requires index < count && Allocated(fields, |fields|, values, count)
    ensures data == NewData(fields, payload, index)
  {
    data := map[];
    for i := 0 to |fields|
      invariant data == NewData(fields[..i], payload, index)
    {
      assert fields[..i + 1][..i] == fields[..i];
      var id := fields[i].id;
      if id in values {
        data := data[id := Number(values[id][index])];
      } else {
        data := data[id := if id in payload then payload[id] else Null];
      }
    }
    assert fields[..|fields|] == fields;
  }

  // Add the row of the i-th action, which gets the index-th numbers of its table; done gathers the positions of
  // the actions carried out so far.
  method CreateRow(selected: seq<Action>, i: nat, table: string, fields: seq<Field>, values: map<string, seq<int>>,
                   index: nat, before: Schema, ghost original: Records, ghost base: Records, records: Records,
                   items: seq<ChangeItem>, ghost done: set<nat>)
    returns (records': Records, longer: seq<ChangeItem>)
    requires i < |selected| && CreatesIn(selected, table, i) && i !in done && index == CountCreates(selected[..i], table)
    requires FreshCreates(selected) && CreateKeys(selected) !! base.Keys && original.Keys == base.Keys
    requires fields == FieldsOf(before, table) && Allocated(fields, |fields|, values, CountCreates(selected, table))
    requires forall j :: j in done ==> j < |selected| && selected[j].Create?
    requires RowsPresent(before, base, records, selected, done) && IsDiff(items, original, records)
    ensures RowsPresent(before, base, records', selected, done + {i}) && IsDiff(longer, original, records')
  {
    var key := selected[i].key;
    CountGrows(selected, i, table);
    var data := BuildRow(fields, values, selected[i].payload, index, CountCreates(selected, table));
    RowAdded(before, base, records, selected, done, i);
    DiffGrows(items, original, records, key, Record(data, 1));
    records' := records[key := Record(data, 1)];
    longer := items + [ChangeItem(key, None, Some(Record(data, 1)))];
  }

  // Every row one table gets, in request order, from numbers already allocated.
  method AddRows(selected: seq<Action>, table: string, fields: seq<Field>, values: map<string, seq<int>>,
                 before: Schema, ghost original: Records, ghost base: Records, records0: Records, items0: seq<ChangeItem>,
                 ghost done0: set<nat>)
    returns (records: Records, items: seq<ChangeItem>)
    requires FreshCreates(selected) && CreateKeys(selected) !! base.Keys && original.Keys == base.Keys
    requires fields == FieldsOf(before, table) && Allocated(fields, |fields|, values, CountCreates(selected, table))
    requires forall i :: i in done0 ==> i < |selected| && selected[i].Create? && selected[i].key.table != table
    requires RowsPresent(before, base, records0, selected, done0) && IsDiff(items0, original, records0)
    ensures RowsPresent(before, base, records, selected, done0 + CreatesFor(selected, table, |selected|))
    ensures IsDiff(items, original, records)
  {
    records, items := records0, items0;
    var index := 0;
    assert done0 + CreatesFor(selected, table, 0) == done0;
    for i := 0 to |selected|
      invariant index == CountCreates(selected[..i], table)
      invariant RowsPresent(before, base, records, selected, done0 + CreatesFor(selected, table, i))
      invariant IsDiff(items, original, records)
    {
      CountOneMore(selected, i, table);
      ghost var done := done0 + CreatesFor(selected, table, i);
      if CreatesIn(selected, table, i) {
        records, items :=
          CreateRow(selected, i, table, fields, values, index, before, original, base, records, items, done);
        index := index + 1;
        assert done0 + CreatesFor(selected, table, i + 1) == done + {i};
      } else {
        assert done0 + CreatesFor(selected, table, i + 1) == done;
      }
    }
  }

  // One table's new rows; false if a stored auto-number property is refused.
  method CreateRows(selected: seq<Action>, table: string, before: Schema, ghost original: Records, ghost base: Records,
                    schema0: Schema, records0: Records, items0: seq<ChangeItem>, ghost tables: seq<string>,
                    ghost done0: set<nat>)
    returns (ok: bool, schema: Schema, records: Records, items: seq<ChangeItem>, ghost done: set<nat>)
    requires FreshCreates(selected) && CreateKeys(selected) !! base.Keys && original.Keys == base.Keys
    requires DistinctFields(FieldsOf(before, table)) && table !in tables
    requires DoneFor(selected, tables, done0) && SchemaSoFar(before, schema0, selected, tables)
    requires RowsPresent(before, base, records0, selected, done0) && IsDiff(items0, original, records0)
    ensures ok <==> Numberable(FieldsOf(before, table))
    ensures ok ==> DoneFor(selected, tables + [table], done)
    ensures ok ==> SchemaSoFar(before, schema, selected, tables + [table])
    ensures ok ==> RowsPresent(before, base, records, selected, done)
    ensures ok ==> IsDiff(items, original, records)
  {
    schema, records, items, done := schema0, records0, items0, done0;
    var fields := FieldsOf(schema, table);
    var values, advanced;
    ok, values, advanced := AllocateNumbers(fields, CountCreates(selected, table));
    if !ok {
      return;
    }
    if table in schema {
      schema := schema[table := advanced];
    }
    records, items := AddRows(selected, table, fields, values, before, original, base, records, items, done);
    done := done + CreatesFor(selected, table, |selected|);
  }

  // All new rows, table by table; false as soon as one table cannot be numbered.
  method CreateTasks(selected: seq<Action>, before: Schema, ghost original: Records, base: Records,
                     items0: seq<ChangeItem>)
    returns (ok: bool, schema: Schema, records: Records, items: seq<ChangeItem>)
    requires FreshCreates(selected) && CreateKeys(selected) !! base.Keys && original.Keys == base.Keys
    requires forall t :: t in before ==> DistinctFields(before[t])
    requires IsDiff(items0, original, base)
    ensures ok <==> CreatesNumberable(before, selected)
    ensures ok ==> RowsPresent(before, base, records, selected, AllCreates(selected, |selected|))
    ensures ok ==> IsDiff(items, original, records)
    ensures ok ==> CountersAdvanced(before, schema, selected)
  {
    schema, records, items := before, base, items0;
    var tables := CreateTables(selected);
    ghost var done: set<nat> := {};
    for i := 0 to |tables|
      invariant DoneFor(selected, tables[..i], done) && SchemaSoFar(before, schema, selected, tables[..i])
      invariant RowsPresent(before, base, records, selected, done)
      invariant IsDiff(items, original, records)
      invariant forall t :: t in tables[..i] ==> Numberable(FieldsOf(before, t))
    {
      assert tables[..i + 1] == tables[..i] + [tables[i]];
      assert tables[i] in tables;
      ok, schema, records, items, done :=
        CreateRows(selected, tables[i], before, original, base, schema, records, items, tables[..i], done);
      if !ok {
        var j :| 0 <= j < |selected| && CreatesIn(selected, tables[i], j);
        return;
      }
    }
    assert tables[..|tables|] == tables;
    AllTablesDone(selected, tables, done, before, schema);
    ok := true;
  }

  predicate CreatesNumberable(schema: Schema, actions: seq<Action>) {
    forall i :: 0 <= i < |actions| && actions[i].Create? ==> Numberable(FieldsOf(schema, actions[i].key.table))
  }

  ghost predicate DoneFor(selected: seq<Action>, tables: seq<string>, done: set<nat>) {
    forall j: nat :: j in done <==> j < |selected| && selected[j].Create? && selected[j].key.table in tables
  }

  // The schema with the tables done so far advanced by their own number of new rows.
  predicate SchemaSoFar(before: Schema, now: Schema, selected: seq<Action>, done: seq<string>) {
    now.Keys == before.Keys &&
    forall t :: t in before ==>
      now[t] == if t in done then AdvancedFields(before[t], CountCreates(selected, t)) else before[t]
  }

  function AllCreates(actions: seq<Action>, n: nat): (r: set<nat>)
    requires n <= |actions|
    ensures forall i: nat :: i in r <==> i < n && actions[i].Create?
  {
    if n == 0 then {} else AllCreates(actions, n - 1) + if actions[n - 1].Create? then {n - 1} else {}
  }

  predicate Allocated(fields: seq<Field>, n: nat, values: map<string, seq<int>>, count: nat)
    requires n <= |fields|
  {
    forall i :: 0 <= i < n ==>
      if fields[i].fieldType == AutoNumbered
      then fields[i].id in values && values[fields[i].id] == AutoNumber.Range(NextNumber(fields[i].property), count)
      else fields[i].id !in values
  }

  lemma {:induction false} NoCreatesCountZero(actions: seq<Action>, table: string)
    ensures CountCreates(actions, table) != 0 <==> exists i :: 0 <= i < |actions| && CreatesIn(actions, table, i)
  {
    if actions != [] {
      var last := |actions| - 1;
      NoCreatesCountZero(actions[..last], table);
      if i :| 0 <= i < |actions| && CreatesIn(actions, table, i) {
        assert i < last ==> CreatesIn(actions[..last], table, i);
      }
      if i :| 0 <= i < last && CreatesIn(actions[..last], table, i) {
        assert CreatesIn(actions, table, i);
      } else {
        assert CreatesIn(actions, table, last) || CountCreates(actions, table) == 0;
      }
    }
  }

  lemma AllTablesDone(selected: seq<Action>, tables: seq<string>, done: set<nat>, before: Schema, now: Schema)
    requires forall t :: t in tables <==> exists i :: 0 <= i < |selected| && CreatesIn(selected, t, i)
    requires DoneFor(selected, tables, done)
    requires SchemaSoFar(before, now, selected, tables)
    ensures done == AllCreates(selected, |selected|) && CountersAdvanced(before, now, selected)
  {
    forall i | 0 <= i < |selected| && selected[i].Create?
      ensures selected[i].key.table in tables
    {
      assert CreatesIn(selected, selected[i].key.table, i);
    }
    forall t | t in before
      ensures t in tables <==> CountCreates(selected, t) != 0
    {
      NoCreatesCountZero(selected, t);
    }
  }

  function CreatesFor(actions: seq<Action>, table: string, n: nat): (r: set<nat>)
    requires n <= |actions|
    ensures forall i: nat :: i in r <==> i < n && CreatesIn(actions, table, i)
  {
    if n == 0 then {} else
      CreatesFor(actions, table, n - 1) + if CreatesIn(actions, table, n - 1) then {n - 1} else {}
  }

  // The records are those the updates left, untouched, and the rows of the actions done so far.
  predicate RowsPresent(before: Schema, base: Records, now: Records, selected: seq<Action>, done: set<nat>)
    requires forall i :: i in done ==> i < |selected| && selected[i].Create?
  {
    && (forall i :: i in done ==>
          selected[i].key in now && now[selected[i].key] == NewRecord(before, selected, i))
    && (forall k :: k in now ==> k in base || exists i :: i in done && selected[i].key == k)
    && (forall k :: k in base ==> k in now && now[k] == base[k])
  }

  lemma RowAdded(before: Schema, base: Records, now: Records, selected: seq<Action>, done: set<nat>, i: nat)
    requires forall j :: j in done ==> j < |selected| && selected[j].Create?
    requires RowsPresent(before, base, now, selected, done)
    requires FreshCreates(selected) && CreateKeys(selected) !! base.Keys
    requires i < |selected| && selected[i].Create? && i !in done
    ensures selected[i].key !in now
    ensures RowsPresent(before, base, now[selected[i].key := NewRecord(before, selected, i)], selected, done + {i})
  {
    assert selected[i].key in CreateKeys(selected);
  }

  // The log and the plan after a commit of these actions that changed these items
  predicate Recorded(log: seq<seq<ChangeItem>>, plan: Plan, log': seq<seq<ChangeItem>>, plan': Plan, records: Records,
                     selected: seq<Action>, items: seq<ChangeItem>) {
    && log' == (if items == [] then log else log + [items])
    && plan'.changeSets == (if items == [] then plan.changeSets else plan.changeSets + [|log|])
    && plan'.actions == plan.actions
    && plan'.applied == plan.applied + AppliedIds(selected)
    && plan'.versions == VersionsAfter(plan.versions, records, UpdateKeys(selected) + CreateKeys(selected))
    && plan'.status == (if AppliedIds(plan.actions) <= plan'.applied then Applied else PartiallyApplied)
  }

  // ---------------------------------------------------------------- putting an apply call together

  lemma KeysAsChecked(s: State, call: Call, selected: seq<Action>)
    requires UpdatesPass(s, call, selected) && CreatesPass(s, call, selected)
    ensures UpdateKeys(selected) <= s.records.Keys && CreateKeys(selected) !! s.records.Keys
  {
  }

  lemma CreatedAsIntended(before: Schema, updated: Records, after: Records, selected: seq<Action>, i: nat)
    requires RowsPresent(before, updated, after, selected, AllCreates(selected, |selected|))
    requires i < |selected| && selected[i].Create?
    ensures selected[i].key in after && after[selected[i].key] == NewRecord(before, selected, i)
  {
    assert i in AllCreates(selected, |selected|);
  }

  lemma KeysAsIntended(before: State, updated: Records, after: Records, selected: seq<Action>)
    requires updated.Keys == before.records.Keys
    requires RowsPresent(before.schema, updated, after, selected, AllCreates(selected, |selected|))
    ensures after.Keys == before.records.Keys + CreateKeys(selected)
  {
    forall k | k in CreateKeys(selected)
      ensures k in after
    {
      var a :| a in selected && a.Create? && a.key == k;
      var i :| 0 <= i < |selected| && selected[i] == a;
      CreatedAsIntended(before.schema, updated, after, selected, i);
    }
  }

  lemma WrittenAsIntended(before: State, updated: Records, after: Records, selected: seq<Action>)
    requires updated == UpdatedRecords(before.records, selected, UpdateKeys(selected))
    requires RowsPresent(before.schema, updated, after, selected, AllCreates(selected, |selected|))
    ensures RecordsWritten(before, after, selected)
  {
    KeysAsIntended(before, updated, after, selected);
    forall i | 0 <= i < |selected| && selected[i].Create?
      ensures selected[i].key in after && after[selected[i].key] == NewRecord(before.schema, selected, i)
    {
      CreatedAsIntended(before.schema, updated, after, selected, i);
    }
  }

  lemma CommitDescribed(s: State, call: Call, s': State, selected: seq<Action>, items: seq<ChangeItem>)
    requires WithinPlan(s.plan, Requested(s.plan, call)) && selected == Selected(s.plan, Requested(s.plan, call))
    requires selected != [] && Passes(s, call, selected)
    requires RecordsWritten(s, s'.records, selected) && CountersAdvanced(s.schema, s'.schema, selected)
    requires IsDiff(items, s.records, s'.records) && (items == [] <==> s.records == s'.records)
    requires Recorded(s.log, s.plan, s'.log, s'.plan, s'.records, selected, items)
    ensures ApplyStep(s, call, s', if call.fate == Lands then Committed else Raised)
  {
  }
}
