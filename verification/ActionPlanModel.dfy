/** Records, schemas, plans and change sets, and what one apply call is meant to do to them. */
module ActionPlanModel {
  import opened Options
  import AutoNumber

  datatype Value = Null | Text(s: string) | Many(items: seq<string>) | Number(n: int)

  type Data = map<string, Value>

  datatype RecordKey = RecordKey(table: string, record: string)

  datatype Record = Record(data: Data, version: nat)

  type Records = map<RecordKey, Record>

  datatype FieldType = Select | MultiSelect | Date | Relation | AutoNumbered | Plain(name: string)

  datatype Field = Field(id: string, fieldType: FieldType, options: set<string>, property: AutoNumber.Property)

  type Schema = map<string, seq<Field>>

  datatype Action =
    | Update(id: string, key: RecordKey, field: string, fieldType: FieldType, suggested: Value)
    | Create(id: string, key: RecordKey, payload: Data, fieldTypes: map<string, FieldType>)

  datatype ChangeItem = ChangeItem(key: RecordKey, before: Option<Record>, after: Option<Record>)

  datatype PlanStatus = Previewed | PartiallyApplied | Applied | ApplyFailed

  datatype Plan = Plan(actions: seq<Action>, applied: set<string>, versions: map<RecordKey, nat>,
                       status: PlanStatus, changeSets: seq<nat>)

  datatype State = State(records: Records, schema: Schema, log: seq<seq<ChangeItem>>, plan: Plan)

  // One request, with what the database and the unseen services answer to it.
  //   denied: actions whose table, permission, record access, member or dependency check fails
  //   unparsable: actions whose date or relation value no longer parses
  //   fate: what becomes of the flush and commit at the end
  datatype Call = Call(requested: seq<string>, denied: set<string>, unparsable: set<string>, fate: Fate)

  datatype Fate = Lands | LandsThenRaises | Fails

  // Raised: the commit landed, and its caller is told that the call failed.
  datatype Outcome = OutsidePlan | Idempotent | Failed | Committed | Raised

  predicate CarriedOut(outcome: Outcome) { outcome == Committed || outcome == Raised }

  // ---------------------------------------------------------------- record data

  // dict.get: a missing field and a null one read alike
  function Get(data: Data, field: string): Value {
    if field in data then data[field] else Null
  }

  // changed_fields is empty
  predicate SameData(a: Data, b: Data) {
    forall f :: f in a.Keys + b.Keys ==> Get(a, f) == Get(b, f)
  }

  function Lookup<K(==), V>(m: map<K, V>, k: K): Option<V> {
    if k in m then Some(m[k]) else None
  }

  // ---------------------------------------------------------------- selecting actions

  function IdsOf(actions: seq<Action>): seq<string> {
    seq(|actions|, i requires 0 <= i < |actions| => actions[i].id)
  }

  predicate InPlan(plan: Plan, id: string) {
    exists a :: a in plan.actions && a.id == id
  }

  function FindAction(actions: seq<Action>, id: string): (a: Action)
    requires exists a :: a in actions && a.id == id
    ensures a in actions && a.id == id
  {
    if actions[0].id == id then actions[0] else FindAction(actions[1..], id)
  }

  function Requested(plan: Plan, call: Call): seq<string> {
    if call.requested == [] then IdsOf(plan.actions) else call.requested
  }

  predicate WithinPlan(plan: Plan, ids: seq<string>) {
    forall i :: 0 <= i < |ids| ==> InPlan(plan, ids[i])
  }

  // The actions for the ids not applied yet, in request order.
  function Selected(plan: Plan, ids: seq<string>): (r: seq<Action>)
    requires WithinPlan(plan, ids)
    ensures forall a :: a in r ==> a in plan.actions && a.id in ids && a.id !in plan.applied
    ensures (forall i, j :: 0 <= i < j < |ids| ==> ids[i] != ids[j]) ==>
              forall i, j :: 0 <= i < j < |r| ==> r[i].id != r[j].id
  {
    if ids == [] then [] else
      var last := ids[|ids| - 1];
      assert InPlan(plan, last);
      var rest := Selected(plan, ids[..|ids| - 1]);
      if last in plan.applied then rest else rest + [FindAction(plan.actions, last)]
  }

  // Every id asked for and not applied yet is among the selected ones.
  lemma {:induction false} SelectedCovers(plan: Plan, ids: seq<string>, id: string)
    requires WithinPlan(plan, ids) && id in ids && id !in plan.applied
    ensures id in AppliedIds(Selected(plan, ids))
  {
    var last := |ids| - 1;
    if id != ids[last] {
      SelectedCovers(plan, ids[..last], id);
      var a :| a in Selected(plan, ids[..last]) && a.id == id;
      assert a in Selected(plan, ids);
    } else {
      assert FindAction(plan.actions, id) in Selected(plan, ids);
    }
  }

  // A request that names no action is for all of them; what is selected are the ids asked for and not applied yet.
  lemma SelectedExactly(plan: Plan, call: Call, id: string)
    requires WithinPlan(plan, Requested(plan, call))
    ensures (exists a :: a in Selected(plan, Requested(plan, call)) && a.id == id) <==>
              && id !in plan.applied
              && (if call.requested == [] then exists a :: a in plan.actions && a.id == id else id in call.requested)
  {
    var ids := Requested(plan, call);
    if call.requested == [] {
      forall a | a in plan.actions
        ensures a.id in ids
      {
        var i :| 0 <= i < |plan.actions| && plan.actions[i] == a;
        assert ids[i] == a.id;
      }
    }
    if id in ids && id !in plan.applied {
      SelectedCovers(plan, ids, id);
    }
  }

  // They are taken in the order of the request: one more id adds its action at the end, unless it has been applied.
  lemma SelectedInOrder(plan: Plan, ids: seq<string>, id: string)
    requires WithinPlan(plan, ids) && InPlan(plan, id)
    ensures WithinPlan(plan, ids + [id])
    ensures id in plan.applied ==> Selected(plan, ids + [id]) == Selected(plan, ids)
    ensures id !in plan.applied ==>
              exists a :: a in plan.actions && a.id == id && Selected(plan, ids + [id]) == Selected(plan, ids) + [a]
  {
    assert (ids + [id])[..|ids|] == ids;
  }

  // ---------------------------------------------------------------- what preview promises

  predicate DistinctActionIds(actions: seq<Action>) {
    forall i, j :: 0 <= i < j < |actions| ==> actions[i].id != actions[j].id
  }

  predicate SameTarget(a: Action, b: Action) {
    a.Update? && b.Update? && a.key == b.key && a.field == b.field
  }

  predicate DistinctTargets(actions: seq<Action>) {
    forall i, j :: 0 <= i < j < |actions| ==> !SameTarget(actions[i], actions[j])
  }

  // New record ids are freshly drawn, so no action shares a created record.
  predicate FreshCreates(actions: seq<Action>) {
    forall i, j :: 0 <= i < |actions| && 0 <= j < |actions| && i != j && actions[i].Create? ==>
      actions[i].key != actions[j].key
  }

  predicate WellFormed(plan: Plan) {
    DistinctActionIds(plan.actions) && DistinctTargets(plan.actions) && FreshCreates(plan.actions)
  }

  // The request schema drops repeated ids.
  predicate DistinctRequest(call: Call) {
    forall i, j :: 0 <= i < j < |call.requested| ==> call.requested[i] != call.requested[j]
  }

  lemma PairIsWellFormed(plan: Plan, a: Action, b: Action)
    requires WellFormed(plan) && a in plan.actions && b in plan.actions && a.id != b.id
    ensures !SameTarget(a, b) && (a.Create? ==> a.key != b.key)
  {
    var p :| 0 <= p < |plan.actions| && plan.actions[p] == a;
    var q :| 0 <= q < |plan.actions| && plan.actions[q] == b;
    assert if p < q then !SameTarget(plan.actions[p], plan.actions[q]) else !SameTarget(plan.actions[q], plan.actions[p]);
  }

  lemma SelectedIsWellFormed(plan: Plan, call: Call)
    requires WellFormed(plan) && WithinPlan(plan, Requested(plan, call))
    requires DistinctRequest(call)
    ensures var selected := Selected(plan, Requested(plan, call));
            DistinctActionIds(selected) && DistinctTargets(selected) && FreshCreates(selected)
  {
    var selected := Selected(plan, Requested(plan, call));
    assert DistinctActionIds(selected);
    forall i, j | 0 <= i < |selected| && 0 <= j < |selected| && i != j
      ensures !SameTarget(selected[i], selected[j])
      ensures selected[i].Create? ==> selected[i].key != selected[j].key
    {
      assert selected[i] in selected && selected[j] in selected;
      assert if i < j then selected[i].id != selected[j].id else selected[j].id != selected[i].id;
      PairIsWellFormed(plan, selected[i], selected[j]);
    }
  }

  // ---------------------------------------------------------------- guards

  predicate DistinctFields(fields: seq<Field>) {
    forall i, j :: 0 <= i < j < |fields| ==> fields[i].id != fields[j].id
  }

  function FindField(fields: seq<Field>, id: string): Option<Field> {
    if fields == [] then None
    else if fields[|fields| - 1].id == id then Some(fields[|fields| - 1])
    else FindField(fields[..|fields| - 1], id)
  }

  function FieldsOf(schema: Schema, table: string): seq<Field> {
    if table in schema then schema[table] else []
  }

  // list(value or []), which raises on any other number than zero
  function ItemsOf(v: Value): Option<seq<string>> {
    match v
    case Null => Some([])
    case Many(items) => Some(items)
    case Text(s) => Some(seq(|s|, i requires 0 <= i < |s| => [s[i]]))
    case Number(n) => if n == 0 then Some([]) else None
  }

  // str(value) for a text or a number
  function Printed(v: Value): Option<string> {
    match v
    case Text(s) => Some(s)
    case Number(n) => Some(if n < 0 then "-" + AutoNumber.Decimal(-n) else AutoNumber.Decimal(n))
    case _ => None
  }

  // _validate_stored_field_value; whether dates and relations parse is the caller's business.
  predicate ValueAccepted(field: Field, v: Value, parses: bool) {
    && (field.fieldType == Select && v != Null && v != Text("") ==>
          Printed(v).Some? && Printed(v).value in field.options)
    && (field.fieldType == MultiSelect ==>
          ItemsOf(v).Some? && forall i :: i in ItemsOf(v).value ==> i in field.options)
    && (field.fieldType == Date && v != Null && v != Text("") ==> parses)
    && (field.fieldType == Relation ==> parses)
  }

  predicate FieldAccepts(schema: Schema, table: string, id: string, fieldType: FieldType, v: Value, parses: bool) {
    var field := FindField(FieldsOf(schema, table), id);
    field.Some? && field.value.fieldType == fieldType && ValueAccepted(field.value, v, parses)
  }

  function ExpectedVersion(plan: Plan, key: RecordKey): nat {
    if key in plan.versions && plan.versions[key] != 0 then plan.versions[key] else 1
  }

  // record_version: anything below one counts as one
  function VersionOf(r: Record): nat { if r.version < 1 then 1 else r.version }

  // The field of a table with this id: the last one, should two share it
  lemma {:induction false} FoundField(fields: seq<Field>, id: string)
    ensures match FindField(fields, id)
            case None => forall p :: 0 <= p < |fields| ==> fields[p].id != id
            case Some(field) => exists p :: 0 <= p < |fields| && fields[p] == field && field.id == id &&
                                  forall q :: p < q < |fields| ==> fields[q].id != id
  {
    if fields != [] && fields[|fields| - 1].id != id {
      FoundField(fields[..|fields| - 1], id);
    }
  }

  // What a stored field takes, type by type: a select its listed options and nothing, as text or as a number
  // printed; a multi-select any list of its options, a text being read as the list of its characters and zero as
  // none; a date or a relation what parses; every other field anything.
  lemma AcceptedByType(field: Field, v: Value, parses: bool)
    ensures ValueAccepted(field, v, parses) <==>
              match field.fieldType
              case Select => (match v
                case Null => true
                case Text(text) => text == "" || text in field.options
                case Number(n) => (if n < 0 then "-" + AutoNumber.Decimal(-n) else AutoNumber.Decimal(n)) in field.options
                case Many(_) => false)
              case MultiSelect => (match v
                case Null => true
                case Text(text) => forall c :: c in text ==> [c] in field.options
                case Number(n) => n == 0
                case Many(items) => forall x :: x in items ==> x in field.options)
              case Date => v == Null || v == Text("") || parses
              case Relation => parses
              case _ => true
  {
    if field.fieldType == MultiSelect && v.Text? {
      var items := ItemsOf(v).value;
      forall c | c in v.s
        ensures [c] in items
      {
        var i :| 0 <= i < |v.s| && v.s[i] == c;
        assert items[i] == [c];
      }
    }
  }

  // Only the field with that id decides, and only if it still has the type it was proposed for.
  lemma FieldDecides(schema: Schema, table: string, p: nat, fieldType: FieldType, v: Value, parses: bool)
    requires table in schema && p < |schema[table]|
    requires forall q :: p < q < |schema[table]| ==> schema[table][q].id != schema[table][p].id
    ensures FieldAccepts(schema, table, schema[table][p].id, fieldType, v, parses) <==>
              schema[table][p].fieldType == fieldType && ValueAccepted(schema[table][p], v, parses)
  {
    FoundField(schema[table], schema[table][p].id);
  }

  lemma MissingFieldRefuses(schema: Schema, table: string, id: string, fieldType: FieldType, v: Value, parses: bool)
    requires table in schema ==> forall p :: 0 <= p < |schema[table]| ==> schema[table][p].id != id
    ensures !FieldAccepts(schema, table, id, fieldType, v, parses)
  {
    FoundField(FieldsOf(schema, table), id);
  }

  predicate UpdateAccepted(s: State, call: Call, a: Action)
    requires a.Update?
  {
    && a.key in s.records && VersionOf(s.records[a.key]) == ExpectedVersion(s.plan, a.key)
    && FieldAccepts(s.schema, a.key.table, a.field, a.fieldType, a.suggested, a.id !in call.unparsable)
  }

  predicate CreateAccepted(s: State, call: Call, a: Action)
    requires a.Create?
  {
    && a.key !in s.records
    && forall f :: f in a.fieldTypes ==>
         FieldAccepts(s.schema, a.key.table, f, a.fieldTypes[f], Get(a.payload, f), a.id !in call.unparsable)
  }

  predicate Numberable(fields: seq<Field>) {
    forall i :: 0 <= i < |fields| && fields[i].fieldType == AutoNumbered ==>
      AutoNumber.Normalize(fields[i].property, None).Some?
  }

  predicate ActionAccepted(s: State, call: Call, a: Action) {
    && a.id !in call.denied
    && (a.Update? ==> UpdateAccepted(s, call, a))
    && (a.Create? ==> CreateAccepted(s, call, a) && Numberable(FieldsOf(s.schema, a.key.table)))
  }

  predicate Passes(s: State, call: Call, selected: seq<Action>) {
    call.fate != Fails && forall i :: 0 <= i < |selected| ==> ActionAccepted(s, call, selected[i])
  }

  // ---------------------------------------------------------------- the effect of a committed call

  // Every suggested value for one record written over its data, in order.
  function Overlay(data: Data, actions: seq<Action>, key: RecordKey): Data {
    if actions == [] then data else
      var rest := Overlay(data, actions[..|actions| - 1], key);
      var last := actions[|actions| - 1];
      if last.Update? && last.key == key then rest[last.field := last.suggested] else rest
  }

  // Data that reads the same is not written and does not cost a version.
  function Written(r: Record, after: Data): Record {
    if SameData(r.data, after) then r else Record(after, VersionOf(r) + 1)
  }

  function UpdateKeys(actions: seq<Action>): set<RecordKey> {
    set a | a in actions && a.Update? :: a.key
  }

  function CreateKeys(actions: seq<Action>): set<RecordKey> {
    set a | a in actions && a.Create? :: a.key
  }

  function UpdatedRecords(records: Records, actions: seq<Action>, done: set<RecordKey>): Records {
    map k | k in records :: if k in done then Written(records[k], Overlay(records[k].data, actions, k)) else records[k]
  }

  function CountCreates(actions: seq<Action>, table: string): nat {
    if actions == [] then 0 else
      CountCreates(actions[..|actions| - 1], table) +
      if actions[|actions| - 1].Create? && actions[|actions| - 1].key.table == table then 1 else 0
  }

  predicate CreatesIn(actions: seq<Action>, table: string, i: nat)
    requires i < |actions|
  {
    actions[i].Create? && actions[i].key.table == table
  }

  lemma CountOneMore(actions: seq<Action>, i: nat, table: string)
    requires i < |actions|
    ensures CountCreates(actions[..i + 1], table)
         == CountCreates(actions[..i], table) + if CreatesIn(actions, table, i) then 1 else 0
  {
    assert actions[..i + 1][..i] == actions[..i];
  }

  lemma {:induction false} CountGrows(actions: seq<Action>, i: nat, table: string)
    requires i < |actions| && CreatesIn(actions, table, i)
    ensures CountCreates(actions[..i], table) < CountCreates(actions, table)
  {
    var last := |actions| - 1;
    if i < last {
      CountGrows(actions[..last], i, table);
      assert actions[..last][..i] == actions[..i];
    }
  }

  function NextNumber(p: AutoNumber.Property): int {
    match AutoNumber.Normalize(p, None)
    case None => 0
    case Some(c) => c.next
  }

  // A new row: the index-th number of the batch in every auto-number field, else what was proposed.
  function NewData(fields: seq<Field>, payload: Data, index: nat): Data {
    if fields == [] then map[] else
      var last := fields[|fields| - 1];
      NewData(fields[..|fields| - 1], payload, index)[last.id :=
        if last.fieldType == AutoNumbered then Number(NextNumber(last.property) + index) else Get(payload, last.id)]
  }

  // The record the i-th selected action creates.
  function NewRecord(schema: Schema, actions: seq<Action>, i: nat): Record
    requires i < |actions| && actions[i].Create?
  {
    var table := actions[i].key.table;
    Record(NewData(FieldsOf(schema, table), actions[i].payload, CountCreates(actions[..i], table)), 1)
  }

  function AdvancedField(f: Field, count: nat): Field {
    if f.fieldType != AutoNumbered then f else
      match AutoNumber.Allocate(f.property, count)
      case None => f
      case Some((_, property)) => f.(property := property)
  }

  function AdvancedFields(fields: seq<Field>, count: nat): seq<Field> {
    seq(|fields|, i requires 0 <= i < |fields| => AdvancedField(fields[i], count))
  }

  // Which counters moved, and by how much: one number per row created in the table.
  predicate CountersAdvanced(before: Schema, after: Schema, actions: seq<Action>) {
    before.Keys == after.Keys &&
    forall t :: t in before ==>
      after[t] == if CountCreates(actions, t) == 0 then before[t]
                  else AdvancedFields(before[t], CountCreates(actions, t))
  }

  predicate RecordsWritten(before: State, after: Records, actions: seq<Action>) {
    && after.Keys == before.records.Keys + CreateKeys(actions)
    && (forall k :: k in before.records ==>
          after[k] == UpdatedRecords(before.records, actions, UpdateKeys(actions))[k])
    && (forall i :: 0 <= i < |actions| && actions[i].Create? ==>
          actions[i].key in after && after[actions[i].key] == NewRecord(before.schema, actions, i))
  }

  // The change set names each record that differs, once, with both sides.
  predicate IsDiff(items: seq<ChangeItem>, before: Records, after: Records) {
    && (forall i, j :: 0 <= i < j < |items| ==> items[i].key != items[j].key)
    && (forall i :: 0 <= i < |items| ==>
          && items[i].before == Lookup(before, items[i].key)
          && items[i].after == Lookup(after, items[i].key)
          && items[i].before != items[i].after)
    && (forall k :: k in before.Keys + after.Keys && Lookup(before, k) != Lookup(after, k) ==> Mentions(items, k))
  }

  predicate Mentions(items: seq<ChangeItem>, k: RecordKey) {
    exists i :: 0 <= i < |items| && items[i].key == k
  }

  function VersionsAfter(versions: map<RecordKey, nat>, records: Records, touched: set<RecordKey>): map<RecordKey, nat> {
    map k | k in versions.Keys + (touched * records.Keys) ::
      if k in touched && k in records then VersionOf(records[k]) else versions[k]
  }

  function AppliedIds(actions: seq<Action>): set<string> {
    set a | a in actions :: a.id
  }

  predicate CommittedEffect(s: State, s': State, actions: seq<Action>) {
    && RecordsWritten(s, s'.records, actions)
    && CountersAdvanced(s.schema, s'.schema, actions)
    && (if s'.records == s.records then s'.log == s.log && s'.plan.changeSets == s.plan.changeSets
        else |s'.log| == |s.log| + 1 && s'.log[..|s.log|] == s.log &&
             IsDiff(s'.log[|s.log|], s.records, s'.records) &&
             s'.plan.changeSets == s.plan.changeSets + [|s.log|])
    && s'.plan.actions == s.plan.actions
    && s'.plan.applied == s.plan.applied + AppliedIds(actions)
    && s'.plan.versions == VersionsAfter(s.plan.versions, s'.records, UpdateKeys(actions) + CreateKeys(actions))
    && s'.plan.status == (if AppliedIds(s.plan.actions) <= s'.plan.applied then Applied else PartiallyApplied)
  }

  // A call that failed and rolled back reads the plan again and, if it saw it as previewed, marks it failed. It
  // holds no lock between the two.
  function AfterFailure(plan: Plan, seen: PlanStatus): Plan {
    if seen == Previewed then plan.(status := ApplyFailed) else plan
  }

  // What the transaction of one apply call may do, and exactly when.
  predicate ApplyStep(s: State, call: Call, s': State, outcome: Outcome) {
    var ids := Requested(s.plan, call);
    if !WithinPlan(s.plan, ids) then outcome == OutsidePlan && s' == s
    else
      var selected := Selected(s.plan, ids);
      if selected == [] then outcome == Idempotent && s' == s
      else if !Passes(s, call, selected) then
        outcome == Failed && s' == s
      else outcome == (if call.fate == Lands then Committed else Raised) && CommittedEffect(s, s', selected)
  }

  // How one call ends: refused if it asks for an action the plan does not have, without effect if all it asks for has
  // been applied, failed if its commit does not land, and otherwise carried out unless an action it selects is refused.
  lemma OutcomeExactlyWhen(s: State, call: Call, s': State, outcome: Outcome)
    requires ApplyStep(s, call, s', outcome)
    ensures outcome == OutsidePlan <==>
              exists id :: id in call.requested && forall a :: a in s.plan.actions ==> a.id != id
    ensures outcome == Idempotent <==>
              && outcome != OutsidePlan
              && (call.requested != [] ==> forall id :: id in call.requested ==> id in s.plan.applied)
              && (call.requested == [] ==> forall a :: a in s.plan.actions ==> a.id in s.plan.applied)
    ensures outcome !in {OutsidePlan, Idempotent} ==>
              (outcome == Failed <==>
                call.fate == Fails ||
                exists a :: a in Selected(s.plan, Requested(s.plan, call)) && !ActionAccepted(s, call, a))
    ensures outcome == Committed ==> call.fate == Lands
    ensures outcome == Raised ==> call.fate == LandsThenRaises
    ensures !CarriedOut(outcome) ==> s' == s
  {
    var ids := Requested(s.plan, call);
    WithinExactlyWhen(s.plan, call);
    if WithinPlan(s.plan, ids) {
      NothingSelectedExactlyWhen(s.plan, call);
      PassesExactlyWhen(s, call, Selected(s.plan, ids));
    }
  }

  lemma PassesExactlyWhen(s: State, call: Call, selected: seq<Action>)
    ensures !Passes(s, call, selected) <==>
              call.fate == Fails || exists a :: a in selected && !ActionAccepted(s, call, a)
  {
    assert forall i :: 0 <= i < |selected| ==> selected[i] in selected;
  }

  lemma NothingSelectedExactlyWhen(plan: Plan, call: Call)
    requires WithinPlan(plan, Requested(plan, call))
    ensures Selected(plan, Requested(plan, call)) == [] <==>
              && (call.requested != [] ==> forall id :: id in call.requested ==> id in plan.applied)
              && (call.requested == [] ==> forall a :: a in plan.actions ==> a.id in plan.applied)
  {
    var selected := Selected(plan, Requested(plan, call));
    if selected == [] {
      forall id | if call.requested == [] then exists a :: a in plan.actions && a.id == id else id in call.requested
        ensures id in plan.applied
      {
        SelectedExactly(plan, call, id);
      }
    } else {
      var a := selected[0];
      assert a in selected;
      SelectedExactly(plan, call, a.id);
    }
  }

  lemma WithinExactlyWhen(plan: Plan, call: Call)
    ensures !WithinPlan(plan, Requested(plan, call)) <==>
              exists id :: id in call.requested && forall a :: a in plan.actions ==> a.id != id
  {
    var ids := Requested(plan, call);
    if id :| id in call.requested && forall a :: a in plan.actions ==> a.id != id {
      var i :| 0 <= i < |ids| && ids[i] == id;
      assert !InPlan(plan, ids[i]);
    }
    if !WithinPlan(plan, ids) {
      var i :| 0 <= i < |ids| && !InPlan(plan, ids[i]);
      assert ids[i] in ids && forall a :: a in plan.actions ==> a.id != ids[i];
    }
  }

  lemma EmptyDiff(items: seq<ChangeItem>, before: Records, after: Records)
    requires IsDiff(items, before, after)
    ensures items == [] <==> before == after
  {
    if items == [] {
      forall k | k in before.Keys + after.Keys
        ensures k in before && k in after && before[k] == after[k]
      {
        assert !Mentions(items, k);
        assert Lookup(before, k) == Lookup(after, k);
      }
      assert before.Keys == after.Keys;
    } else {
      assert items[0].before != items[0].after;
    }
  }
}
