/**
 Undoing a change set: all of it, only while nothing newer has touched what it changed, and only if the flush hook
 that guards attachment cells accepts what it puts back.
 */
module ChangeUndo {
  import opened Options
  import opened ActionPlanModel
  import opened ActionPlanHistory

  // One record's change as stored: data only, with the version on either side; a missing version is zero.
  datatype Entry = Entry(key: RecordKey, before: Option<Data>, after: Option<Data>, versionBefore: nat, versionAfter: nat)

  datatype ChangeSet = ChangeSet(entries: seq<Entry>, undone: bool)

  // The recycle bin keeps, per record and change set, the record as deleted.
  // attachments: the attachment fields, by table
  // active: which attachments the registry binds to a cell; a cell's value lists their ids, and the rest of an
  // element is what the registry says of it
  datatype Store = Store(records: Records, bin: map<(RecordKey, nat), Record>, log: seq<ChangeSet>,
                         attachments: set<(string, string)>, active: map<(RecordKey, string), set<string>>)

  // ---------------------------------------------------------------- the flush hook

  predicate IsCell(s: Store, key: RecordKey, f: string) {
    (key.table, f) in s.attachments
  }

  function ActiveIn(s: Store, key: RecordKey, f: string): set<string> {
    if (key, f) in s.active then s.active[(key, f)] else {}
  }

  predicate DistinctItems(items: seq<string>) {
    forall i, j :: 0 <= i < j < |items| ==> items[i] != items[j]
  }

  function Listed(v: Value): set<string> {
    if v.Many? then set x | x in v.items else {}
  }

  predicate IsListing(v: Value) {
    v.Null? || (v.Many? && DistinctItems(v.items))
  }

  predicate CellExact(s: Store, key: RecordKey, f: string, v: Value) {
    IsListing(v) && Listed(v) == ActiveIn(s, key, f)
  }

  predicate Truthy(v: Value) {
    v != Null && v != Text("") && v != Many([]) && v != Number(0)
  }

  predicate CellChanges(s: Store, key: RecordKey, current: Data, next: Data, f: string) {
    IsCell(s, key, f) && Get(current, f) != Get(next, f)
  }

  // A stored row is judged by the attachment cells that change, a new one by those that hold something.
  predicate AcceptsUpdate(s: Store, key: RecordKey, current: Data, next: Data) {
    forall f :: f in current.Keys + next.Keys && CellChanges(s, key, current, next, f) ==> CellExact(s, key, f, Get(next, f))
  }

  predicate AcceptsInsert(s: Store, key: RecordKey, next: Data) {
    forall f :: f in next && IsCell(s, key, f) && Truthy(next[f]) ==> CellExact(s, key, f, next[f])
  }

  // What the hook makes of accepted data: a cell that becomes null is stored as an empty list.
  function Hooked(s: Store, key: RecordKey, current: Data, next: Data): Data {
    next + map f | f in current.Keys + next.Keys && CellChanges(s, key, current, next, f) && Get(next, f) == Null :: Many([])
  }

  lemma HookedByFields(s: Store, t: Store, key: RecordKey, current: Data, next: Data)
    requires s.attachments == t.attachments
    ensures Hooked(s, key, current, next) == Hooked(t, key, current, next)
  {
  }

  // ---------------------------------------------------------------- what an undo checks

  predicate IsDelete(e: Entry) { e.before.Some? && e.after.None? }

  predicate IsUpdate(e: Entry) { e.before.Some? && e.after.Some? }

  predicate IsCreate(e: Entry) { e.before.None? && e.after.Some? }

  predicate DistinctEntries(es: seq<Entry>) {
    forall i, j :: 0 <= i < j < |es| ==> es[i].key != es[j].key
  }

  function Or(version: nat, default: nat): nat {
    if version != 0 then version else default
  }

  // Nothing newer: a deleted record lies in the bin as this change set left it, any other is at this version.
  predicate Untouched(s: Store, id: nat, e: Entry) {
    if IsDelete(e) then
      && e.key !in s.records && (e.key, id) in s.bin
      && VersionOf(s.bin[(e.key, id)]) == Or(e.versionAfter, VersionOf(s.bin[(e.key, id)]))
    else e.key in s.records && VersionOf(s.records[e.key]) == Or(e.versionAfter, 1)
  }

  predicate Undoable(s: Store, id: nat) {
    && id < |s.log| && !s.log[id].undone && s.log[id].entries != []
    && forall i :: 0 <= i < |s.log[id].entries| ==> Untouched(s, id, s.log[id].entries[i])
  }

  // Undoable, spelled out
  lemma UndoableExactlyWhen(s: Store, id: nat)
    requires id < |s.log|
    ensures var es := s.log[id].entries;
            Undoable(s, id) <==>
              && !s.log[id].undone && es != []
              && (forall e :: e in es && e.before.Some? && e.after.None? ==>
                    && e.key !in s.records && (e.key, id) in s.bin
                    && (e.versionAfter == 0 || e.versionAfter == VersionOf(s.bin[(e.key, id)])))
              && (forall e :: e in es && !(e.before.Some? && e.after.None?) ==>
                    && e.key in s.records
                    && VersionOf(s.records[e.key]) == if e.versionAfter == 0 then 1 else e.versionAfter)
  {
    var es := s.log[id].entries;
    if Undoable(s, id) {
      forall e | e in es
        ensures Untouched(s, id, e)
      {
        var i :| 0 <= i < |es| && es[i] == e;
      }
    }
    assert forall i :: 0 <= i < |es| ==> es[i] in es;
  }

  predicate HookAccepts(s: Store, e: Entry) {
    && (IsDelete(e) ==> AcceptsInsert(s, e.key, e.before.value))
    && (IsUpdate(e) ==> e.key in s.records && AcceptsUpdate(s, e.key, s.records[e.key].data, e.before.value))
  }

  predicate HookAcceptsAll(s: Store, id: nat)
    requires id < |s.log|
  {
    forall i :: 0 <= i < |s.log[id].entries| ==> HookAccepts(s, s.log[id].entries[i])
  }

  predicate CellPasses(s: Store, e: Entry, f: string)
    requires e.before.Some? && (e.after.Some? ==> e.key in s.records)
  {
    if e.after.Some? then CellChanges(s, e.key, s.records[e.key].data, e.before.value, f) ==>
      CellExact(s, e.key, f, Get(e.before.value, f))
    else Truthy(Get(e.before.value, f)) ==> CellExact(s, e.key, f, Get(e.before.value, f))
  }

  lemma HookByCells(s: Store, e: Entry)
    requires e.before.Some? && e.after.Some? ==> e.key in s.records
    ensures HookAccepts(s, e) <==> (e.before.Some? ==> forall f :: IsCell(s, e.key, f) ==> CellPasses(s, e, f))
  {
    if HookAccepts(s, e) && e.before.Some? {
      forall f | IsCell(s, e.key, f)
        ensures CellPasses(s, e, f)
      {
        if e.after.Some? {
          assert f !in s.records[e.key].data.Keys + e.before.value.Keys ==>
              !CellChanges(s, e.key, s.records[e.key].data, e.before.value, f);
        }
      }
    }
  }

  // What the hook asks of a cell: if the record comes back and the cell holds something, or if it changes, it must
  // list exactly the attachments the registry binds to it, each once.
  lemma CellPassesExactlyWhen(s: Store, e: Entry, f: string)
    requires e.before.Some? && (e.after.Some? ==> e.key in s.records) && (e.key.table, f) in s.attachments
    ensures var next := if f in e.before.value then e.before.value[f] else Null;
            var active := if (e.key, f) in s.active then s.active[(e.key, f)] else {};
            CellPasses(s, e, f) <==>
              || (e.after.Some? && next == if f in s.records[e.key].data then s.records[e.key].data[f] else Null)
              || (e.after.None? && next in [Null, Text(""), Many([]), Number(0)])
              || (next == Null && active == {})
              || (next.Many? && (forall i, j :: 0 <= i < j < |next.items| ==> next.items[i] != next.items[j]) &&
                  forall x :: x in next.items <==> x in active)
  {
  }

  // The hook lets an undo through exactly if it passes every attachment cell of every record put back.
  lemma HookAcceptsAllExactlyWhen(s: Store, id: nat)
    requires id < |s.log|
    requires forall e :: e in s.log[id].entries && e.before.Some? && e.after.Some? ==> e.key in s.records
    ensures HookAcceptsAll(s, id) <==>
              forall e, f :: e in s.log[id].entries && e.before.Some? && (e.key.table, f) in s.attachments ==>
                CellPasses(s, e, f)
  {
    var es := s.log[id].entries;
    assert forall i :: 0 <= i < |es| ==> es[i] in es;
    forall e | e in es
      ensures HookAccepts(s, e) <==> (e.before.Some? ==> forall f :: IsCell(s, e.key, f) ==> CellPasses(s, e, f))
    {
      HookByCells(s, e);
    }
  }

  // The version the record has now, or was deleted with
  function CurrentVersion(s: Store, id: nat, e: Entry): nat
    requires Untouched(s, id, e)
  {
    if IsDelete(e) then Or(e.versionAfter, VersionOf(s.bin[(e.key, id)])) else VersionOf(s.records[e.key])
  }

  // The record as the undo leaves it
  function PutBack(s: Store, id: nat, e: Entry): Option<Record>
    requires Untouched(s, id, e)
  {
    if IsUpdate(e) then
      Some(Record(Hooked(s, e.key, s.records[e.key].data, e.before.value), CurrentVersion(s, id, e) + 1))
    else if e.before.Some? then Some(Record(e.before.value, CurrentVersion(s, id, e) + 1))
    else if e.after.Some? then None
    else Some(s.records[e.key])
  }

  function Inverse(s: Store, id: nat, e: Entry): Entry
    requires Untouched(s, id, e)
  {
    Entry(e.key, if IsDelete(e) then None else Some(s.records[e.key].data), e.before,
          CurrentVersion(s, id, e), CurrentVersion(s, id, e) + 1)
  }

  // ---------------------------------------------------------------- how far an undo has got

  datatype Kind = Deletion | Modification | Creation

  function KindOf(e: Entry): Option<Kind> {
    if IsDelete(e) then Some(Deletion) else if IsUpdate(e) then Some(Modification)
    else if IsCreate(e) then Some(Creation) else None
  }

  function OfKind(es: seq<Entry>, kind: Kind): seq<Entry> {
    if es == [] then [] else
      var rest := OfKind(es[..|es| - 1], kind);
      if KindOf(es[|es| - 1]) == Some(kind) then rest + [es[|es| - 1]] else rest
  }

  // Deleted records come back first and created ones go last.
  function InOrder(es: seq<Entry>): seq<Entry> {
    OfKind(es, Deletion) + OfKind(es, Modification) + OfKind(es, Creation)
  }

  predicate AllUntouched(s: Store, id: nat, done: seq<Entry>) {
    forall i :: 0 <= i < |done| ==> Untouched(s, id, done[i])
  }

  predicate Concerns(done: seq<Entry>, key: RecordKey) {
    exists i :: 0 <= i < |done| && done[i].key == key
  }

  predicate Binned(s: Store, id: nat, e: Entry, bin: map<(RecordKey, nat), Record>)
    requires Untouched(s, id, e)
  {
    && (IsDelete(e) ==> (e.key, id) !in bin)
    && (IsCreate(e) ==>
          Lookup(bin, (e.key, |s.log|)) == Some(Record(s.records[e.key].data, CurrentVersion(s, id, e) + 1)))
  }

  ghost predicate RecordsSoFar(s: Store, id: nat, done: seq<Entry>, records: Records, inverses: seq<Entry>)
    requires AllUntouched(s, id, done)
  {
    && |inverses| == |done|
    && (forall i :: 0 <= i < |done| ==>
          inverses[i] == Inverse(s, id, done[i]) && Lookup(records, done[i].key) == PutBack(s, id, done[i]))
    && (forall k :: !Concerns(done, k) ==> Lookup(records, k) == Lookup(s.records, k))
  }

  ghost predicate BinSoFar(s: Store, id: nat, done: seq<Entry>, bin: map<(RecordKey, nat), Record>)
    requires AllUntouched(s, id, done)
  {
    && (forall i :: 0 <= i < |done| ==> Binned(s, id, done[i], bin))
    && (forall k, n :: !Concerns(done, k) ==> Lookup(bin, (k, n)) == Lookup(s.bin, (k, n)))
  }

  // The entries dealt with so far are put back, each with its inverse noted; all other records are as they were.
  ghost predicate PutBackSoFar(s: Store, id: nat, done: seq<Entry>, records: Records, bin: map<(RecordKey, nat), Record>,
                               inverses: seq<Entry>)
    requires AllUntouched(s, id, done)
  {
    RecordsSoFar(s, id, done, records, inverses) && BinSoFar(s, id, done, bin)
  }

  ghost predicate UndoStep(s: Store, id: nat, s': Store) {
    && Undoable(s, id) && HookAcceptsAll(s, id) && AllUntouched(s, id, InOrder(s.log[id].entries))
    && s'.attachments == s.attachments && s'.active == s.active
    && |s'.log| == |s.log| + 1 && s'.log[..|s.log|] == s.log[id := s.log[id].(undone := true)]
    && !s'.log[|s.log|].undone
    && PutBackSoFar(s, id, InOrder(s.log[id].entries), s'.records, s'.bin, s'.log[|s.log|].entries)
  }

  function RecordsWith(records: Records, key: RecordKey, r: Option<Record>): Records {
    if r.Some? then records[key := r.value] else records - {key}
  }

  function BinWith(s: Store, id: nat, e: Entry, bin: map<(RecordKey, nat), Record>): map<(RecordKey, nat), Record>
    requires Untouched(s, id, e)
  {
    if IsDelete(e) then bin - {(e.key, id)}
    else if IsCreate(e) then bin[(e.key, |s.log|) := Record(s.records[e.key].data, CurrentVersion(s, id, e) + 1)]
    else bin
  }

  lemma NewKey(done: seq<Entry>, e: Entry)
    requires !Concerns(done, e.key)
    ensures forall k :: Concerns(done + [e], k) <==> Concerns(done, k) || k == e.key
    ensures forall i :: 0 <= i < |done| ==> done[i].key != e.key
  {
    forall k
      ensures Concerns(done + [e], k) <==> Concerns(done, k) || k == e.key
    {
      ConcernsOneMore(done, e, k);
    }
    forall i | 0 <= i < |done|
      ensures done[i].key != e.key
    {
      assert done[i].key == e.key ==> Concerns(done, e.key);
    }
  }

  lemma OneMoreRecord(s: Store, id: nat, done: seq<Entry>, records: Records, inverses: seq<Entry>, e: Entry)
    requires AllUntouched(s, id, done) && AllUntouched(s, id, done + [e]) && Untouched(s, id, e)
    requires !Concerns(done, e.key) && RecordsSoFar(s, id, done, records, inverses)
    ensures RecordsSoFar(s, id, done + [e], RecordsWith(records, e.key, PutBack(s, id, e)), inverses + [Inverse(s, id, e)])
  {
    NewKey(done, e);
  }

  lemma OneMoreInBin(s: Store, id: nat, done: seq<Entry>, bin: map<(RecordKey, nat), Record>, e: Entry)
    requires AllUntouched(s, id, done) && AllUntouched(s, id, done + [e]) && Untouched(s, id, e)
    requires !Concerns(done, e.key) && BinSoFar(s, id, done, bin)
    ensures BinSoFar(s, id, done + [e], BinWith(s, id, e, bin))
  {
    NewKey(done, e);
  }

  lemma OneMorePutBack(s: Store, id: nat, done: seq<Entry>, records: Records, bin: map<(RecordKey, nat), Record>,
                       inverses: seq<Entry>, e: Entry)
    requires AllUntouched(s, id, done) && Untouched(s, id, e) && !Concerns(done, e.key)
    requires PutBackSoFar(s, id, done, records, bin, inverses)
    ensures AllUntouched(s, id, done + [e])
    ensures PutBackSoFar(s, id, done + [e], RecordsWith(records, e.key, PutBack(s, id, e)), BinWith(s, id, e, bin),
                         inverses + [Inverse(s, id, e)])
  {
    OneMoreRecord(s, id, done, records, inverses, e);
    OneMoreInBin(s, id, done, bin, e);
  }

  lemma ConcernsOneMore(done: seq<Entry>, e: Entry, k: RecordKey)
    ensures Concerns(done + [e], k) <==> Concerns(done, k) || k == e.key
  {
    var more := done + [e];
    if Concerns(done, k) {
      var i :| 0 <= i < |done| && done[i].key == k;
      assert more[i].key == k;
    }
    assert more[|done|] == e;
  }

  class History {
    var records: Records
    var bin: map<(RecordKey, nat), Record>
    var log: seq<ChangeSet>
    const attachments: set<(string, string)>
    const active: map<(RecordKey, string), set<string>>

    constructor (s: Store)
      ensures Now() == s
    {
      records, bin, log := s.records, s.bin, s.log;
      attachments, active := s.attachments, s.active;
    }

    function Now(): Store
      reads this
    {
      Store(records, bin, log, attachments, active)
    }

    // Every entry is checked before anything changes.
    method Check(id: nat) returns (ok: bool)
      ensures ok <==>
                && id < |log| && !log[id].undone && log[id].entries != []
                && (forall e :: e in log[id].entries && e.before.Some? && e.after.None? ==>
                      && e.key !in records && (e.key, id) in bin
                      && (e.versionAfter == 0 || e.versionAfter == VersionOf(bin[(e.key, id)])))
                && (forall e :: e in log[id].entries && !(e.before.Some? && e.after.None?) ==>
                      && e.key in records
                      && VersionOf(records[e.key]) == if e.versionAfter == 0 then 1 else e.versionAfter)
      ensures ok <==> Undoable(Now(), id)
    {
      if id < |log| {
        UndoableExactlyWhen(Now(), id);
      }
      if id >= |log| || log[id].undone || log[id].entries == [] {
        return false;
      }
      var es := log[id].entries;
      for i := 0 to |es|
        invariant forall j :: 0 <= j < i ==> Untouched(Now(), id, es[j])
      {
        if IsDelete(es[i]) {
          if es[i].key in records || (es[i].key, id) !in bin {
            return false;
          }
          var held := VersionOf(bin[(es[i].key, id)]);
          if held != Or(es[i].versionAfter, held) {
            return false;
          }
        } else if es[i].key !in records || VersionOf(records[es[i].key]) != Or(es[i].versionAfter, 1) {
          return false;
        }
      }
      return true;
    }

    method PutBackOne(e: Entry, id: nat, ghost s: Store, ghost done: seq<Entry>, inverses0: seq<Entry>)
      returns (inverses: seq<Entry>)
      requires Untouched(s, id, e) && KindOf(e).Some? && !Concerns(done, e.key) && |log| == |s.log|
      requires attachments == s.attachments
      requires AllUntouched(s, id, done) && PutBackSoFar(s, id, done, records, bin, inverses0)
      modifies this`records, this`bin
      ensures AllUntouched(s, id, done + [e])
      ensures PutBackSoFar(s, id, done + [e], records, bin, inverses)
    {
      OneMorePutBack(s, id, done, records, bin, inverses0, e);
      assert Lookup(records, e.key) == Lookup(s.records, e.key);
      if IsDelete(e) {
        assert Lookup(bin, (e.key, id)) == Lookup(s.bin, (e.key, id));
        var version := Or(e.versionAfter, VersionOf(bin[(e.key, id)]));
        records := records[e.key := Record(e.before.value, version + 1)];
        bin := bin - {(e.key, id)};
        inverses := inverses0 + [Entry(e.key, None, e.before, version, version + 1)];
      } else {
        var current := records[e.key];
        var version := VersionOf(current);
        inverses := inverses0 + [Entry(e.key, Some(current.data), e.before, version, version + 1)];
        if IsUpdate(e) {
          var stored := Hooked(Now(), e.key, current.data, e.before.value);
          HookedByFields(Now(), s, e.key, current.data, e.before.value);
          assert PutBack(s, id, e) == Some(Record(stored, version + 1));
          records := records[e.key := Record(stored, version + 1)];
        } else {
          bin := bin[(e.key, |log|) := Record(current.data, version + 1)];
          records := records - {e.key};
        }
      }
    }

    method PutBackKind(kind: Kind, id: nat, ghost s: Store, ghost done: seq<Entry>, inverses0: seq<Entry>)
      returns (inverses: seq<Entry>)
      requires Undoable(s, id) && log == s.log && DistinctEntries(s.log[id].entries) && attachments == s.attachments
      requires AllUntouched(s, id, done) && PutBackSoFar(s, id, done, records, bin, inverses0)
      requires forall i :: 0 <= i < |s.log[id].entries| && KindOf(s.log[id].entries[i]) == Some(kind) ==>
                 !Concerns(done, s.log[id].entries[i].key)
      modifies this`records, this`bin
      ensures AllUntouched(s, id, done + OfKind(s.log[id].entries, kind))
      ensures PutBackSoFar(s, id, done + OfKind(s.log[id].entries, kind), records, bin, inverses)
    {
      var es := log[id].entries;
      inverses := inverses0;
      ghost var now := done;
      assert done + OfKind(es[..0], kind) == done;
      for i := 0 to |es|
        invariant now == done + OfKind(es[..i], kind)
        invariant AllUntouched(s, id, now) && PutBackSoFar(s, id, now, records, bin, inverses)
      {
        NextOfKind(done, es, i, kind);
        var e := es[i];
        if KindOf(e) == Some(kind) {
          NotYet(es, i, kind, done);
          inverses := PutBackOne(e, id, s, now, inverses);
          now := now + [e];
        }
      }
      assert es[..|es|] == es;
    }

    // The flush: the hook judges every row it is about to write against what was loaded.
    method FlushAccepted(before: Store, id: nat) returns (ok: bool)
      requires id < |before.log|
      ensures ok <==> HookAcceptsAll(before, id)
    {
      var es := before.log[id].entries;
      for i := 0 to |es|
        invariant forall j :: 0 <= j < i ==> HookAccepts(before, es[j])
      {
        if !HookAccepts(before, es[i]) {
          return false;
        }
      }
      return true;
    }

    // Refused, with nothing changed, exactly if the set was undone before or is empty, a record is not as the set
    // left it, or the hook refuses a cell.
    method Undo(id: nat) returns (ok: bool)
      requires id < |log| ==> DistinctEntries(log[id].entries)
      modifies this
      ensures ok <==>
                && id < |old(log)| && !old(log)[id].undone && old(log)[id].entries != []
                && (forall e :: e in old(log)[id].entries && e.before.Some? && e.after.None? ==>
                      && e.key !in old(records) && (e.key, id) in old(bin)
                      && (e.versionAfter == 0 || e.versionAfter == VersionOf(old(bin)[(e.key, id)])))
                && (forall e :: e in old(log)[id].entries && !(e.before.Some? && e.after.None?) ==>
                      && e.key in old(records)
                      && VersionOf(old(records)[e.key]) == if e.versionAfter == 0 then 1 else e.versionAfter)
                && HookAcceptsAll(old(Now()), id)
      ensures !ok ==> Now() == old(Now())
      ensures ok ==> |log| == |old(log)| + 1 && log[..|old(log)|] == old(log)[id := old(log)[id].(undone := true)]
      ensures ok ==> !log[|old(log)|].undone
      ensures ok ==> UndoStep(old(Now()), id, Now())
    {
      ok := Check(id);
      if !ok {
        return;
      }
      var s := Now();
      var es := log[id].entries;
      KindsApart(es);
      var inverses := PutBackKind(Deletion, id, s, [], []);
      assert [] + OfKind(es, Deletion) == OfKind(es, Deletion);
      inverses := PutBackKind(Modification, id, s, OfKind(es, Deletion), inverses);
      inverses := PutBackKind(Creation, id, s, OfKind(es, Deletion) + OfKind(es, Modification), inverses);
      ok := FlushAccepted(s, id);
      if ok {
        log := log[id := log[id].(undone := true)] + [ChangeSet(inverses, false)];
      } else {
        records, bin := s.records, s.bin;
      }
    }
  }

  lemma {:induction false} OfKindFrom(es: seq<Entry>, kind: Kind, n: nat)
    requires n <= |es|
    ensures forall x :: x in OfKind(es[..n], kind) ==>
              KindOf(x) == Some(kind) && exists i :: 0 <= i < n && es[i] == x
    ensures forall i :: 0 <= i < n && KindOf(es[i]) == Some(kind) ==> es[i] in OfKind(es[..n], kind)
  {
    if n != 0 {
      OfKindFrom(es, kind, n - 1);
      assert es[..n][..n - 1] == es[..n - 1];
    }
  }

  lemma NextOfKind(done: seq<Entry>, es: seq<Entry>, i: nat, kind: Kind)
    requires i < |es|
    ensures done + OfKind(es[..i + 1], kind)
         == done + OfKind(es[..i], kind) + if KindOf(es[i]) == Some(kind) then [es[i]] else []
  {
    assert es[..i + 1][..i] == es[..i];
  }

  lemma NotYet(es: seq<Entry>, i: nat, kind: Kind, done: seq<Entry>)
    requires i < |es| && DistinctEntries(es) && !Concerns(done, es[i].key)
    ensures !Concerns(done + OfKind(es[..i], kind), es[i].key)
  {
    OfKindFrom(es, kind, i);
    var now := done + OfKind(es[..i], kind);
    assert forall k :: 0 <= k < |done| ==> done[k].key != es[i].key;
    forall j | 0 <= j < |now|
      ensures now[j].key != es[i].key
    {
      if j >= |done| {
        assert now[j] in OfKind(es[..i], kind);
      }
    }
  }

  lemma NoneOfKind(es: seq<Entry>, kind: Kind, i: nat)
    requires DistinctEntries(es) && i < |es| && KindOf(es[i]) != Some(kind)
    ensures !Concerns(OfKind(es, kind), es[i].key)
  {
    assert es[..|es|] == es;
    OfKindFrom(es, kind, |es|);
    forall j | 0 <= j < |OfKind(es, kind)|
      ensures OfKind(es, kind)[j].key != es[i].key
    {
      var x := OfKind(es, kind)[j];
      assert x in OfKind(es, kind);
      var p :| 0 <= p < |es| && es[p] == x;
    }
  }

  lemma KindsApart(es: seq<Entry>)
    requires DistinctEntries(es)
    ensures forall i :: 0 <= i < |es| && KindOf(es[i]) == Some(Modification) ==> !Concerns(OfKind(es, Deletion), es[i].key)
    ensures forall i :: 0 <= i < |es| && KindOf(es[i]) == Some(Creation) ==>
              !Concerns(OfKind(es, Deletion) + OfKind(es, Modification), es[i].key)
  {
    forall i | 0 <= i < |es|
      ensures KindOf(es[i]) == Some(Modification) ==> !Concerns(OfKind(es, Deletion), es[i].key)
      ensures KindOf(es[i]) == Some(Creation) ==>
                !Concerns(OfKind(es, Deletion) + OfKind(es, Modification), es[i].key)
    {
      if KindOf(es[i]) == Some(Modification) {
        NoneOfKind(es, Deletion, i);
      } else if KindOf(es[i]) == Some(Creation) {
        NoneOfKind(es, Deletion, i);
        NoneOfKind(es, Modification, i);
        ConcernsEither(OfKind(es, Deletion), OfKind(es, Modification), es[i].key);
      }
    }
  }

  lemma ConcernsEither(a: seq<Entry>, b: seq<Entry>, k: RecordKey)
    requires !Concerns(a, k) && !Concerns(b, k)
    ensures !Concerns(a + b, k)
  {
  }

  // ---------------------------------------------------------------- what undoing means

  function DataOf(r: Option<Record>): Option<Data> {
    if r.Some? then Some(r.value.data) else None
  }

  predicate Blank(v: Value) { v == Null || v == Many([]) }

  // The same dictionary, except that an attachment cell without attachments may hold null, an empty list or nothing
  ghost predicate SameDictionary(s: Store, k: RecordKey, a: Data, b: Data) {
    forall f :: Lookup(a, f) == Lookup(b, f) || (IsCell(s, k, f) && Blank(Get(a, f)) && Blank(Get(b, f)))
  }

  ghost predicate SameRecord(s: Store, k: RecordKey, a: Option<Record>, b: Option<Record>) {
    (a.Some? <==> b.Some?) && (a.Some? ==> SameDictionary(s, k, a.value.data, b.value.data))
  }

  // The same records with the same data; versions may differ.
  ghost predicate SameContents(s: Store, a: Records, b: Records) {
    forall k :: SameRecord(s, k, Lookup(a, k), Lookup(b, k))
  }

  // Spelled out: each field reads the same, save that an attachment cell without attachments may hold null, an empty
  // list or nothing ...
  lemma SameDictionaryExactly(s: Store, k: RecordKey, a: Data, b: Data)
    ensures SameDictionary(s, k, a, b) <==>
              && (forall f :: f in a.Keys + b.Keys && (k.table, f) !in s.attachments ==> f in a && f in b && a[f] == b[f])
              && (forall f :: f in a.Keys + b.Keys && (k.table, f) in s.attachments ==>
                    || (f in a && f in b && a[f] == b[f])
                    || ((f in a ==> a[f] == Null || a[f] == Many([])) && (f in b ==> b[f] == Null || b[f] == Many([]))))
  {
    if SameDictionary(s, k, a, b) {
      forall f | f in a.Keys + b.Keys
        ensures (k.table, f) !in s.attachments ==> f in a && f in b && a[f] == b[f]
        ensures Lookup(a, f) == Lookup(b, f) || (Blank(Get(a, f)) && Blank(Get(b, f)))
      {
        assert Lookup(a, f) == Lookup(b, f) || (IsCell(s, k, f) && Blank(Get(a, f)) && Blank(Get(b, f)));
      }
    } else {
      var f :| Lookup(a, f) != Lookup(b, f) && !(IsCell(s, k, f) && Blank(Get(a, f)) && Blank(Get(b, f)));
      assert f in a.Keys + b.Keys;
    }
  }

  // ... and that goes for every record, and the records are the same.
  lemma SameContentsExactly(s: Store, a: Records, b: Records)
    ensures SameContents(s, a, b) <==>
              a.Keys == b.Keys && forall k :: k in a && k in b ==> SameDictionary(s, k, a[k].data, b[k].data)
  {
    if SameContents(s, a, b) {
      forall k
        ensures k in a.Keys <==> k in b.Keys
        ensures k in a && k in b ==> SameDictionary(s, k, a[k].data, b[k].data)
      {
        assert SameRecord(s, k, Lookup(a, k), Lookup(b, k));
      }
      assert a.Keys == b.Keys;
    } else {
      var k :| !SameRecord(s, k, Lookup(a, k), Lookup(b, k));
      assert k in a.Keys <==> k in b.Keys ==> k in a && k in b && !SameDictionary(s, k, a[k].data, b[k].data);
    }
  }

  lemma HookedReads(s: Store, k: RecordKey, current: Data, next: Data)
    ensures SameDictionary(s, k, Hooked(s, k, current, next), next)
  {
  }

  lemma EntryIsPutBack(s: Store, id: nat, s': Store, i: nat)
    requires UndoStep(s, id, s') && DistinctEntries(s.log[id].entries)
    requires i < |s.log[id].entries| && KindOf(s.log[id].entries[i]).Some?
    ensures var e := s.log[id].entries[i];
            && Lookup(s'.records, e.key) == PutBack(s, id, e)
            && Binned(s, id, e, s'.bin) && Inverse(s, id, e) in s'.log[|s.log|].entries
  {
    var es := s.log[id].entries;
    var kind := KindOf(es[i]).value;
    assert es[..|es|] == es;
    OfKindFrom(es, kind, |es|);
    assert es[i] in InOrder(es);
    var j :| 0 <= j < |InOrder(es)| && InOrder(es)[j] == es[i];
    assert s'.log[|s.log|].entries[j] == Inverse(s, id, es[i]);
  }

  lemma InOrderIsPart(es: seq<Entry>, j: nat)
    requires j < |InOrder(es)|
    ensures exists i :: 0 <= i < |es| && es[i] == InOrder(es)[j] && KindOf(es[i]).Some?
  {
    assert es[..|es|] == es;
    OfKindFrom(es, Deletion, |es|);
    OfKindFrom(es, Modification, |es|);
    OfKindFrom(es, Creation, |es|);
    var e := InOrder(es)[j];
    assert e in OfKind(es, Deletion) || e in OfKind(es, Modification) || e in OfKind(es, Creation);
  }

  lemma OthersStay(s: Store, id: nat, s': Store, k: RecordKey)
    requires UndoStep(s, id, s') && !Concerns(s.log[id].entries, k)
    ensures Lookup(s'.records, k) == Lookup(s.records, k)
  {
    var es := s.log[id].entries;
    if Concerns(InOrder(es), k) {
      var j :| 0 <= j < |InOrder(es)| && InOrder(es)[j].key == k;
      InOrderIsPart(es, j);
    }
  }

  function EntryOf(item: ChangeItem): Entry {
    Entry(item.key, DataOf(item.before), DataOf(item.after),
          if item.before.Some? then VersionOf(item.before.value) else 0,
          if item.after.Some? then item.after.value.version else 0)
  }

  function EntriesOf(items: seq<ChangeItem>): seq<Entry> {
    seq(|items|, i requires 0 <= i < |items| => EntryOf(items[i]))
  }

  // A change set that led from one state of the records to the present one, and that added or changed only
  predicate Recorded(s: Store, id: nat, before: Records, items: seq<ChangeItem>) {
    && id < |s.log| && s.log[id].entries == EntriesOf(items) && IsDiff(items, before, s.records)
    && forall i :: 0 <= i < |items| ==> items[i].after.Some? && items[i].after.value.version >= 1
  }

  lemma FreshlyUndoable(s: Store, id: nat, before: Records, items: seq<ChangeItem>)
    requires Recorded(s, id, before, items) && items != [] && !s.log[id].undone
    ensures Undoable(s, id) && DistinctEntries(s.log[id].entries)
  {
    var es := s.log[id].entries;
    forall i | 0 <= i < |es|
      ensures Untouched(s, id, es[i])
    {
      assert Lookup(s.records, items[i].key) == items[i].after;
    }
  }

  // Undone at once, such a change set passes every check on versions; if the hook accepts it too, every record it
  // changed then reads as before, every record it created is gone, and nothing else has moved.
  lemma UndoRestores(s: Store, id: nat, before: Records, items: seq<ChangeItem>)
    requires Recorded(s, id, before, items) && items != [] && !s.log[id].undone
    ensures Undoable(s, id) && DistinctEntries(s.log[id].entries)
    ensures forall s' :: UndoStep(s, id, s') ==>
              SameContents(s, s'.records, before) && VersionsRise(s.records, s'.records)
  {
    FreshlyUndoable(s, id, before, items);
    forall s' | UndoStep(s, id, s')
      ensures SameContents(s, s'.records, before) && VersionsRise(s.records, s'.records)
    {
      forall k
        ensures SameRecord(s, k, Lookup(s'.records, k), Lookup(before, k))
        ensures RecordRises(s.records, s'.records, k)
      {
        UndoneRecord(s, id, before, items, s', k);
      }
    }
  }

  predicate RecordRises(a: Records, b: Records, k: RecordKey) {
    k in a && k in b ==> b[k] == a[k] || b[k].version > VersionOf(a[k])
  }

  // Whatever changed has a version nobody has seen before.
  ghost predicate VersionsRise(a: Records, b: Records) {
    forall k :: RecordRises(a, b, k)
  }

  // Spelled out: a record there before and after is the very same, or has a version above the one it read as before.
  lemma VersionsRiseExactly(a: Records, b: Records)
    ensures VersionsRise(a, b) <==>
              forall k :: k in a && k in b && b[k] != a[k] ==>
                b[k].version > (if a[k].version < 1 then 1 else a[k].version)
  {
    if !VersionsRise(a, b) {
      var k :| !RecordRises(a, b, k);
      assert k in a && k in b;
    } else {
      forall k | k in a && k in b && b[k] != a[k]
        ensures b[k].version > (if a[k].version < 1 then 1 else a[k].version)
      {
        assert RecordRises(a, b, k);
      }
    }
  }

  lemma WrittenItem(s: State, done: seq<Action>, after: Records, items: seq<ChangeItem>, i: nat)
    requires RecordsWritten(s, after, done) && IsDiff(items, s.records, after) && i < |items|
    ensures items[i].after.Some? && items[i].after.value.version >= 1
  {
    var key := items[i].key;
    assert items[i].before == Lookup(s.records, key) && items[i].after == Lookup(after, key);
    if key !in s.records {
      assert key in CreateKeys(done);
      var a :| a in done && a.Create? && a.key == key;
      var j :| 0 <= j < |done| && done[j] == a;
      assert after[key] == NewRecord(s.schema, done, j);
    }
  }

  lemma LoggedItems(before: State, call: Call, after: State, outcome: Outcome)
    requires ApplyStep(before, call, after, outcome) && CarriedOut(outcome) && |after.log| == |before.log| + 1
    ensures var items := after.log[|before.log|];
            && IsDiff(items, before.records, after.records) && items != []
            && forall i :: 0 <= i < |items| ==> items[i].after.Some? && items[i].after.value.version >= 1
  {
    var items := after.log[|before.log|];
    var done := Selected(before.plan, Requested(before.plan, call));
    EmptyDiff(items, before.records, after.records);
    forall i | 0 <= i < |items|
      ensures items[i].after.Some? && items[i].after.value.version >= 1
    {
      WrittenItem(before, done, after.records, items, i);
    }
  }

  lemma UnnamedFieldStays(before: State, after: Records, done: seq<Action>, key: RecordKey, f: string)
    requires RecordsWritten(before, after, done) && key in before.records && !Names(done, key, f)
    ensures key in after && Get(after[key].data, f) == Get(before.records[key].data, f)
  {
    OverlayMiss(before.records[key].data, done, key, f);
  }

  lemma ItemSparesCells(before: State, after: Records, done: seq<Action>, s: Store, item: ChangeItem)
    requires RecordsWritten(before, after, done) && s.records == after
    requires forall a :: a in done && a.Update? ==> !IsCell(s, a.key, a.field)
    requires item.before == Lookup(before.records, item.key) && item.after == Lookup(after, item.key)
    ensures HookAccepts(s, EntryOf(item))
  {
    if item.before.Some? {
      forall f | IsCell(s, item.key, f)
        ensures item.key in after && Get(after[item.key].data, f) == Get(item.before.value.data, f)
      {
        UnnamedFieldStays(before, after, done, item.key, f);
      }
    }
  }

  // An apply call that changed anything can be undone straight away, hook and all, and that brings back the data of
  // every record and takes away the records it created. No action writes an attachment field: preview only lets actions
  // write the fields their kind is for.
  lemma ApplyCanBeUndone(before: State, call: Call, after: State, outcome: Outcome, s: Store, id: nat)
    requires ApplyStep(before, call, after, outcome) && CarriedOut(outcome) && |after.log| == |before.log| + 1
    requires s.records == after.records && id < |s.log| && !s.log[id].undone
    requires s.log[id].entries == EntriesOf(after.log[|before.log|])
    requires forall a :: a in before.plan.actions && a.Update? ==> (a.key.table, a.field) !in s.attachments
    ensures Undoable(s, id) && HookAcceptsAll(s, id) && DistinctEntries(s.log[id].entries)
    ensures forall s' :: UndoStep(s, id, s') ==>
              SameContents(s, s'.records, before.records) && VersionsRise(s.records, s'.records)
  {
    LoggedItems(before, call, after, outcome);
    UndoRestores(s, id, before.records, after.log[|before.log|]);
    forall i | 0 <= i < |s.log[id].entries|
      ensures HookAccepts(s, s.log[id].entries[i])
    {
      var items := after.log[|before.log|];
      ItemSparesCells(before, after.records, Selected(before.plan, Requested(before.plan, call)), s, items[i]);
    }
  }

  lemma UndoneRecord(s: Store, id: nat, before: Records, items: seq<ChangeItem>, s': Store, k: RecordKey)
    requires Recorded(s, id, before, items) && UndoStep(s, id, s')
    ensures SameRecord(s, k, Lookup(s'.records, k), Lookup(before, k))
    ensures RecordRises(s.records, s'.records, k)
  {
    var es := s.log[id].entries;
    assert DistinctEntries(es);
    if Concerns(es, k) {
      var i :| 0 <= i < |es| && es[i].key == k;
      EntryIsPutBack(s, id, s', i);
      assert items[i].key == k && items[i].before == Lookup(before, k);
      if IsUpdate(es[i]) {
        HookedReads(s, k, s.records[k].data, es[i].before.value);
      }
    } else {
      OthersStay(s, id, s', k);
      assert !Mentions(items, k) by {
        forall i | 0 <= i < |items|
          ensures items[i].key != k
        {
          assert es[i].key == items[i].key;
        }
      }
      assert k in before.Keys + s.records.Keys ==> Lookup(before, k) == Lookup(s.records, k);
    }
  }

  // Every attachment cell lists exactly the attachments the registry binds to it.
  ghost predicate CellsExact(s: Store) {
    forall k, f :: k in s.records && IsCell(s, k, f) ==> CellExact(s, k, f, Get(s.records[k].data, f))
  }

  lemma InverseIsAccepted(s: Store, id: nat, s': Store, j: nat)
    requires UndoStep(s, id, s') && DistinctEntries(s.log[id].entries) && CellsExact(s)
    requires j < |s'.log[|s.log|].entries|
    ensures HookAccepts(s', s'.log[|s.log|].entries[j])
  {
    InOrderIsPart(s.log[id].entries, j);
    var e := InOrder(s.log[id].entries)[j];
    assert Lookup(s'.records, e.key) == PutBack(s, id, e);
    if !IsDelete(e) {
      var data := s.records[e.key].data;
      forall f | IsCell(s', e.key, f)
        ensures CellExact(s', e.key, f, Get(data, f))
      {
        assert CellExact(s, e.key, f, Get(data, f));
      }
    }
  }

  // With every cell exact, an undo can be undone in turn, and that brings back what there was before it.
  lemma UndoneTwice(s: Store, id: nat, s': Store)
    requires UndoStep(s, id, s') && DistinctEntries(s.log[id].entries)
    requires exists i :: 0 <= i < |s.log[id].entries| && KindOf(s.log[id].entries[i]).Some?
    requires CellsExact(s)
    ensures Undoable(s', |s.log|) && HookAcceptsAll(s', |s.log|) && DistinctEntries(s'.log[|s.log|].entries)
    ensures forall s'' :: UndoStep(s', |s.log|, s'') ==> SameContents(s, s''.records, s.records)
  {
    var undo := |s.log|;
    var inverses := s'.log[undo].entries;
    InverseKeys(s, id, s');
    forall j | 0 <= j < |inverses|
      ensures Untouched(s', undo, inverses[j]) && HookAccepts(s', inverses[j])
    {
      InverseIsUntouched(s, id, s', j);
      InverseIsAccepted(s, id, s', j);
    }
    var i :| 0 <= i < |s.log[id].entries| && KindOf(s.log[id].entries[i]).Some?;
    EntryIsPutBack(s, id, s', i);
    assert Undoable(s', undo);
    forall s'', k | UndoStep(s', undo, s'')
      ensures SameRecord(s, k, Lookup(s''.records, k), Lookup(s.records, k))
    {
      RedoneRecord(s, id, s', s'', k);
    }
  }

  lemma InverseKeys(s: Store, id: nat, s': Store)
    requires UndoStep(s, id, s') && DistinctEntries(s.log[id].entries)
    ensures DistinctEntries(s'.log[|s.log|].entries)
  {
    var es, inverses := s.log[id].entries, s'.log[|s.log|].entries;
    InOrderDistinct(es);
  }

  lemma InOrderDistinct(es: seq<Entry>)
    requires DistinctEntries(es)
    ensures DistinctEntries(InOrder(es))
  {
    assert es[..|es|] == es;
    OfKindDistinct(es, Deletion);
    OfKindDistinct(es, Modification);
    OfKindDistinct(es, Creation);
    OfKindFrom(es, Deletion, |es|);
    OfKindFrom(es, Modification, |es|);
    OfKindFrom(es, Creation, |es|);
    var a, b, c := OfKind(es, Deletion), OfKind(es, Modification), OfKind(es, Creation);
    KindsDiffer(es, a, b);
    KindsDiffer(es, a + b, c);
  }

  lemma KindsDiffer(es: seq<Entry>, a: seq<Entry>, b: seq<Entry>)
    requires DistinctEntries(es) && DistinctEntries(a) && DistinctEntries(b)
    requires forall x :: x in a || x in b ==> x in es
    requires forall x, y :: x in a && y in b ==> KindOf(x) != KindOf(y)
    ensures DistinctEntries(a + b)
  {
    forall i, j | 0 <= i < |a| && 0 <= j < |b|
      ensures a[i].key != b[j].key
    {
      assert a[i] in a && b[j] in b;
      var p :| 0 <= p < |es| && es[p] == a[i];
      var q :| 0 <= q < |es| && es[q] == b[j];
      assert p != q;
      assert if p < q then es[p].key != es[q].key else es[q].key != es[p].key;
    }
  }

  lemma {:induction false} OfKindDistinct(es: seq<Entry>, kind: Kind)
    requires DistinctEntries(es)
    ensures DistinctEntries(OfKind(es, kind))
  {
    if es != [] {
      var last := |es| - 1;
      OfKindDistinct(es[..last], kind);
      OfKindFrom(es, kind, last);
      forall x | x in OfKind(es[..last], kind)
        ensures x.key != es[last].key
      {
        var i :| 0 <= i < last && es[i] == x;
      }
    }
  }

  lemma InverseIsUntouched(s: Store, id: nat, s': Store, j: nat)
    requires UndoStep(s, id, s') && DistinctEntries(s.log[id].entries)
    requires j < |s'.log[|s.log|].entries|
    ensures Untouched(s', |s.log|, s'.log[|s.log|].entries[j])
  {
    InOrderIsPart(s.log[id].entries, j);
    var e := InOrder(s.log[id].entries)[j];
    assert Lookup(s'.records, e.key) == PutBack(s, id, e) && Binned(s, id, e, s'.bin);
  }

  lemma RedoneRecord(s: Store, id: nat, s': Store, s'': Store, k: RecordKey)
    requires UndoStep(s, id, s') && DistinctEntries(s.log[id].entries) && UndoStep(s', |s.log|, s'')
    ensures SameRecord(s, k, Lookup(s''.records, k), Lookup(s.records, k))
  {
    var es, inverses := s.log[id].entries, s'.log[|s.log|].entries;
    InverseKeys(s, id, s');
    if Concerns(inverses, k) {
      var j :| 0 <= j < |inverses| && inverses[j].key == k;
      InOrderIsPart(es, j);
      assert inverses[j] == Inverse(s, id, InOrder(es)[j]);
      EntryIsPutBack(s', |s.log|, s'', j);
      if IsUpdate(inverses[j]) {
        HookedReads(s', k, s'.records[k].data, inverses[j].before.value);
      }
    } else {
      OthersStay(s', |s.log|, s'', k);
      forall j | 0 <= j < |InOrder(es)|
        ensures InOrder(es)[j].key != k
      {
        assert inverses[j].key == InOrder(es)[j].key;
      }
    }
  }

  // What an undo leaves of an entry that changed a record: its data as before, save for the attachment cells that
  // become null, one version up, and an inverse entry
  lemma ChangeUndone(s: Store, id: nat, s': Store, e: Entry)
    requires UndoStep(s, id, s') && DistinctEntries(s.log[id].entries) && e in s.log[id].entries
    requires e.before.Some? && e.after.Some?
    ensures e.key in s.records && e.key in s'.records
    ensures s'.records[e.key].version == VersionOf(s.records[e.key]) + 1
    ensures Entry(e.key, Some(s.records[e.key].data), e.before, VersionOf(s.records[e.key]),
                  VersionOf(s.records[e.key]) + 1) in s'.log[|s.log|].entries
    ensures forall f :: Lookup(s'.records[e.key].data, f) ==
              if (e.key.table, f) in s.attachments && f in s.records[e.key].data && s.records[e.key].data[f] != Null &&
                 (f in e.before.value ==> e.before.value[f] == Null)
              then Some(Many([])) else Lookup(e.before.value, f)
  {
    var i :| 0 <= i < |s.log[id].entries| && s.log[id].entries[i] == e;
    EntryIsPutBack(s, id, s', i);
    HookedFields(s, e.key, s.records[e.key].data, e.before.value);
  }

  lemma HookedFields(s: Store, key: RecordKey, current: Data, next: Data)
    ensures forall f :: Lookup(Hooked(s, key, current, next), f) ==
              if (key.table, f) in s.attachments && f in current && current[f] != Null && (f in next ==> next[f] == Null)
              then Some(Many([])) else Lookup(next, f)
  {
  }

  // ... of one that deleted a record, which comes back out of the bin, and of one that created it, which goes there
  lemma EntryUndone(s: Store, id: nat, s': Store, e: Entry)
    requires UndoStep(s, id, s') && DistinctEntries(s.log[id].entries) && e in s.log[id].entries
    ensures e.before.Some? && e.after.None? ==>
              && (e.key, id) in s.bin && (e.key, id) !in s'.bin
              && var version := if e.versionAfter == 0 then VersionOf(s.bin[(e.key, id)]) else e.versionAfter;
                 && Lookup(s'.records, e.key) == Some(Record(e.before.value, version + 1))
                 && Entry(e.key, None, e.before, version, version + 1) in s'.log[|s.log|].entries
    ensures e.before.None? && e.after.Some? ==>
              && e.key in s.records && e.key !in s'.records
              && var current := s.records[e.key];
                 && Lookup(s'.bin, (e.key, |s.log|)) == Some(Record(current.data, VersionOf(current) + 1))
                 && Entry(e.key, Some(current.data), None, VersionOf(current), VersionOf(current) + 1)
                      in s'.log[|s.log|].entries
  {
    var i :| 0 <= i < |s.log[id].entries| && s.log[id].entries[i] == e;
    if KindOf(e).Some? {
      EntryIsPutBack(s, id, s', i);
    }
  }

  // ---------------------------------------------------------------- what an undo cannot do

  // With every cell exact, the hook lets an update be undone if and only if that changes no cell's attachments.
  lemma HookExactlyWhen(s: Store, e: Entry)
    requires IsUpdate(e) && e.key in s.records
    requires forall k, f :: k in s.records && (k.table, f) in s.attachments ==>
               IsListing(Get(s.records[k].data, f)) && Listed(Get(s.records[k].data, f)) == ActiveIn(s, k, f)
    ensures HookAccepts(s, e) <==>
              forall f :: f in s.records[e.key].data.Keys + e.before.value.Keys &&
                          CellChanges(s, e.key, s.records[e.key].data, e.before.value, f) ==>
                IsListing(Get(e.before.value, f)) &&
                Listed(Get(e.before.value, f)) == Listed(Get(s.records[e.key].data, f))
  {
    forall f | f in s.records[e.key].data.Keys + e.before.value.Keys && IsCell(s, e.key, f)
      ensures Listed(Get(s.records[e.key].data, f)) == ActiveIn(s, e.key, f)
    {
      assert CellExact(s, e.key, f, Get(s.records[e.key].data, f));
    }
  }

  // The change set of an upload or of an attachment delete, while its cell still reads as it left it: all versions
  // are as they should be, and the undo is refused all the same.
  lemma AttachmentChangesStay(s: Store, id: nat, i: nat, f: string)
    requires CellsExact(s) && Undoable(s, id) && i < |s.log[id].entries|
    requires var e := s.log[id].entries[i];
             && IsUpdate(e) && IsCell(s, e.key, f)
             && Get(s.records[e.key].data, f) == Get(e.after.value, f)
             && Listed(Get(e.before.value, f)) != Listed(Get(e.after.value, f))
    ensures !HookAcceptsAll(s, id)
  {
    var e := s.log[id].entries[i];
    assert Untouched(s, id, e);
    HookExactlyWhen(s, e);
    assert CellChanges(s, e.key, s.records[e.key].data, e.before.value, f);
    assert f in s.records[e.key].data.Keys + e.before.value.Keys;
    assert !HookAccepts(s, e);
  }

  // An upload, undone at once
  lemma UploadCannotBeUndone(s: Store, id: nat, key: RecordKey, f: string, before: Data, ids: seq<string>, added: string)
    requires CellsExact(s) && id < |s.log| && !s.log[id].undone && IsCell(s, key, f)
    requires key in s.records && s.records[key] == Record(before[f := Many(ids + [added])], VersionOf(s.records[key]))
    requires s.log[id].entries == [Entry(key, Some(before), Some(before[f := Many(ids + [added])]),
                                         VersionOf(s.records[key]) - 1, VersionOf(s.records[key]))]
    requires added !in Listed(Get(before, f))
    ensures Undoable(s, id) && !HookAcceptsAll(s, id)
  {
    var es := s.log[id].entries;
    assert Untouched(s, id, es[0]);
    assert (ids + [added])[|ids|] == added && added in Listed(Many(ids + [added]));
    AttachmentChangesStay(s, id, 0, f);
  }

  // Deleting an attachment, undone at once
  lemma DetachCannotBeUndone(s: Store, id: nat, key: RecordKey, f: string, before: Data, rest: seq<string>, removed: string)
    requires CellsExact(s) && id < |s.log| && !s.log[id].undone && IsCell(s, key, f)
    requires key in s.records && s.records[key] == Record(before[f := Many(rest)], VersionOf(s.records[key]))
    requires s.log[id].entries == [Entry(key, Some(before), Some(before[f := Many(rest)]),
                                         VersionOf(s.records[key]) - 1, VersionOf(s.records[key]))]
    requires removed in Listed(Get(before, f)) && removed !in rest
    ensures Undoable(s, id) && !HookAcceptsAll(s, id)
  {
    var es := s.log[id].entries;
    assert Untouched(s, id, es[0]);
    AttachmentChangesStay(s, id, 0, f);
  }

  // ---------------------------------------------------------------- newer work is never overwritten

  // Once a write has raised the version of a record that a change set added or changed, the set can never be undone
  // again, whatever happens to the record afterwards: over a run in which the log keeps the set and the record is never
  // seen at a lower version than before.
  lemma NewerWorkIsNeverUndone(run: seq<Store>, id: nat, e: Entry, i: nat, k: nat)
    requires i <= k < |run|
    requires forall j :: 0 <= j < |run| ==> id < |run[j].log| && e in run[j].log[id].entries
    requires forall j, l :: 0 <= j <= l < |run| && e.key in run[j].records && e.key in run[l].records ==>
               VersionOf(run[j].records[e.key]) <= VersionOf(run[l].records[e.key])
    requires e.after.Some? && e.key in run[i].records &&
             VersionOf(run[i].records[e.key]) > (if e.versionAfter == 0 then 1 else e.versionAfter)
    ensures !Undoable(run[k], id)
  {
    UndoableExactlyWhen(run[k], id);
    assert e in run[k].log[id].entries;
  }

  // Undoing a newer change set does not open the way for an older one: the record moves on to yet another version.
  lemma OlderSetStaysBlocked(s: Store, newer: nat, s': Store, older: nat, e: Entry)
    requires UndoStep(s, newer, s') && DistinctEntries(s.log[newer].entries)
    requires older < |s.log| && e in s.log[older].entries && e.after.Some?
    requires e.key in s.records && VersionOf(s.records[e.key]) > (if e.versionAfter == 0 then 1 else e.versionAfter)
    ensures !Undoable(s', older)
  {
    assert s'.log[..|s.log|][older] == s'.log[older];
    UndoneOrKept(s, newer, s', e.key);
    UndoableExactlyWhen(s', older);
    assert e in s'.log[older].entries;
  }

  // An undo leaves a record alone, takes it away or raises its version.
  lemma UndoneOrKept(s: Store, id: nat, s': Store, key: RecordKey)
    requires UndoStep(s, id, s') && DistinctEntries(s.log[id].entries)
    ensures RecordRises(s.records, s'.records, key)
  {
    var done := InOrder(s.log[id].entries);
    if Concerns(done, key) {
      var i :| 0 <= i < |done| && done[i].key == key;
      assert Untouched(s, id, done[i]) && Lookup(s'.records, key) == PutBack(s, id, done[i]);
    } else {
      assert Lookup(s'.records, key) == Lookup(s.records, key);
    }
  }
}
