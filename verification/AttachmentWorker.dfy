/**
 The cleanup worker's passes: what one pass does to the registry and the object store, that it is a
 run of the protocol, and that passes drain the backlog at the best possible rate.
 */
module AttachmentWorker {
  import opened AttachmentModel
  import opened AttachmentProtocol

  // What the object store answers to a removal. A missing object counts as removed.
  datatype Removal = Removed | Missing | Unavailable(landed: bool)

  predicate Succeeds(r: Removal) { !r.Unavailable? }

  // ---------------------------------------------------------------- what the queries return

  function EligibleIds(grace: nat, now: int, registry: Registry): set<Id> {
    set id | id in registry && Eligible(grace, now, registry[id])
  }

  function OrphanIds(registry: Registry, kept: set<RecordKey>): set<Id> {
    set id | id in registry && registry[id].status == Active && registry[id].cell.owner !in kept
  }

  // ORDER BY created_at LIMIT limit over a pool of rows; ties come in any order.
  predicate IsOldestBatch(registry: Registry, pool: set<Id>, limit: nat, batch: seq<Id>) {
    && (forall i, j :: 0 <= i < j < |batch| ==> batch[i] != batch[j])
    && (forall id :: id in batch ==> id in pool && id in registry)
    && |batch| == (if |pool| <= limit then |pool| else limit)
    && (forall i, j :: 0 <= i < j < |batch| ==> registry[batch[i]].createdAt <= registry[batch[j]].createdAt)
    && (forall id, other :: id in batch && other in pool && other !in batch && other in registry ==>
          registry[id].createdAt <= registry[other].createdAt)
  }

  function Elements(batch: seq<Id>): set<Id> {
    set id | id in batch
  }

  lemma {:induction false} DistinctCardinality(batch: seq<Id>)
    requires forall i, j :: 0 <= i < j < |batch| ==> batch[i] != batch[j]
    ensures |Elements(batch)| == |batch|
  {
    if batch != [] {
      DistinctCardinality(batch[1..]);
      assert Elements(batch) == {batch[0]} + Elements(batch[1..]);
    }
  }

  // Nothing in the pool is left behind while there is room, and nothing older than what is taken.
  lemma LeftBehind(registry: Registry, pool: set<Id>, limit: nat, batch: seq<Id>, id: Id)
    requires IsOldestBatch(registry, pool, limit, batch) && id in pool && id in registry && id !in batch
    ensures |batch| == limit && forall other :: other in batch ==> registry[other].createdAt <= registry[id].createdAt
  {
    DistinctCardinality(batch);
    assert Elements(batch) <= pool - {id};
    SubsetSize(Elements(batch), pool - {id});
  }

  lemma {:induction false} SubsetSize(a: set<Id>, b: set<Id>)
    requires a <= b
    ensures |a| <= |b|
  {
    if a != {} {
      var x :| x in a;
      SubsetSize(a - {x}, b - {x});
    }
  }

  method OldestRow(registry: Registry, pool: set<Id>) returns (oldest: Id)
    requires pool != {} && pool <= registry.Keys
    ensures oldest in pool && forall id :: id in pool ==> registry[oldest].createdAt <= registry[id].createdAt
  {
    oldest :| oldest in pool;
    var rest := pool - {oldest};
    while rest != {}
      invariant rest <= pool && oldest in pool - rest
      invariant forall id :: id in pool - rest ==> registry[oldest].createdAt <= registry[id].createdAt
      decreases |rest|
    {
      var id :| id in rest;
      if registry[id].createdAt < registry[oldest].createdAt {
        oldest := id;
      }
      rest := rest - {id};
    }
  }

  // The database's side of such a query
  method OldestBatch(registry: Registry, pool: set<Id>, limit: nat) returns (batch: seq<Id>)
    requires pool <= registry.Keys
    ensures IsOldestBatch(registry, pool, limit, batch)
  {
    batch := [];
    var rest := pool;
    while |batch| < limit && rest != {}
      invariant rest <= pool && |batch| <= limit && |batch| + |rest| == |pool|
      invariant forall id :: id in batch <==> id in pool - rest
      invariant forall i :: 0 <= i < |batch| ==> batch[i] in registry
      invariant forall i, j :: 0 <= i < j < |batch| ==> batch[i] != batch[j]
      invariant forall i, j :: 0 <= i < j < |batch| ==> registry[batch[i]].createdAt <= registry[batch[j]].createdAt
      invariant forall id, other :: id in batch && other in rest ==> registry[id].createdAt <= registry[other].createdAt
      decreases |rest|
    {
      var next := OldestRow(registry, rest);
      rest := rest - {next};
      batch := batch + [next];
    }
  }

  // What the store answers for each row of a batch
  function Answered(batch: seq<Id>, answers: Id -> Removal): (r: seq<Removal>)
    ensures |r| == |batch| && forall i :: 0 <= i < |r| ==> r[i] == answers(batch[i])
  {
    seq(|batch|, i requires 0 <= i < |batch| => answers(batch[i]))
  }

  // ---------------------------------------------------------------- the effect of one pass

  function RetryLater(row: Row): Row {
    row.(attempts := row.attempts + 1)
  }

  function RowDealt(registry: Registry, id: Id, removal: Removal): Registry {
    if Succeeds(removal) then registry - {id}
    else if id in registry then registry[id := RetryLater(registry[id])]
    else registry
  }

  function RegistryAfter(registry: Registry, batch: seq<Id>, removals: seq<Removal>): Registry
    requires |batch| == |removals|
  {
    if batch == [] then registry
    else RegistryAfter(RowDealt(registry, batch[0], removals[0]), batch[1..], removals[1..])
  }

  function ObjectsAfter(objects: set<ObjectKey>, keys: seq<ObjectKey>, removals: seq<Removal>): set<ObjectKey>
    requires |keys| == |removals|
  {
    if keys == [] then objects
    else
      var rest := if removals[0] == Unavailable(false) then objects else objects - {keys[0]};
      ObjectsAfter(rest, keys[1..], removals[1..])
  }

  function KeysOf(registry: Registry, batch: seq<Id>): seq<ObjectKey>
    requires forall id :: id in batch ==> id in registry
  {
    seq(|batch|, i requires 0 <= i < |batch| => registry[batch[i]].key)
  }

  function CountCleaned(removals: seq<Removal>): nat {
    if removals == [] then 0 else CountCleaned(removals[1..]) + if Succeeds(removals[0]) then 1 else 0
  }

  function Marked(registry: Registry, ids: set<Id>): Registry {
    map id | id in registry :: if id in ids then registry[id].(status := PurgePending) else registry[id]
  }

  // A row leaves exactly when its own object was removed; a failed row stays, one attempt older.
  lemma {:induction false} RegistryAfterAt(registry: Registry, batch: seq<Id>, removals: seq<Removal>, id: Id)
    requires |batch| == |removals|
    requires forall i, j :: 0 <= i < j < |batch| ==> batch[i] != batch[j]
    requires forall x :: x in batch ==> x in registry
    ensures var after := RegistryAfter(registry, batch, removals);
            && (id in after <==> id in registry && forall i :: 0 <= i < |batch| && batch[i] == id ==> removals[i].Unavailable?)
            && (id in after ==> after[id] == if id in batch then registry[id].(attempts := registry[id].attempts + 1)
                                             else registry[id])
    decreases |batch|
  {
    if batch != [] {
      var next := RowDealt(registry, batch[0], removals[0]);
      RegistryAfterAt(next, batch[1..], removals[1..], id);
      assert forall i :: 1 <= i < |batch| ==> batch[i] == batch[1..][i - 1] && removals[i] == removals[1..][i - 1];
      assert id in batch <==> id == batch[0] || id in batch[1..];
      if id == batch[0] {
        assert id !in batch[1..];
      }
    }
  }

  // An object leaves exactly when its own removal reached the store, answered or not.
  lemma {:induction false} ObjectsAfterAt(objects: set<ObjectKey>, keys: seq<ObjectKey>, removals: seq<Removal>,
                                          key: ObjectKey)
    requires |keys| == |removals|
    ensures key in ObjectsAfter(objects, keys, removals) <==>
              key in objects && forall i :: 0 <= i < |keys| && keys[i] == key ==>
                removals[i].Unavailable? && !removals[i].landed
    decreases |keys|
  {
    if keys != [] {
      var rest := if removals[0] == Unavailable(false) then objects else objects - {keys[0]};
      ObjectsAfterAt(rest, keys[1..], removals[1..], key);
      assert forall i :: 1 <= i < |keys| ==> keys[i] == keys[1..][i - 1] && removals[i] == removals[1..][i - 1];
    }
  }

  lemma {:induction false} CleanedAreGone(registry: Registry, batch: seq<Id>, removals: seq<Removal>)
    requires |batch| == |removals| && forall id :: id in batch ==> id in registry
    requires forall i, j :: 0 <= i < j < |batch| ==> batch[i] != batch[j]
    ensures CountCleaned(removals) == |registry| - |RegistryAfter(registry, batch, removals)|
    decreases |batch|
  {
    if batch != [] {
      var next := RowDealt(registry, batch[0], removals[0]);
      assert |next| == |registry| - if Succeeds(removals[0]) then 1 else 0 by {
        assert Succeeds(removals[0]) ==> next.Keys == registry.Keys - {batch[0]};
        assert !Succeeds(removals[0]) ==> next.Keys == registry.Keys;
      }
      CleanedAreGone(next, batch[1..], removals[1..]);
    }
  }

  lemma {:induction false} SizesAdd(all: set<Id>, part: set<Id>, after: set<Id>)
    requires part <= all && all - part <= after <= all
    ensures |part * after| == |part| - (|all| - |after|)
  {
    assert after == (all - part) + part * after;
    assert all == (all - part) + part;
  }

  // Which of the batch's rows are left: those whose removal failed
  lemma LeftOver(registry: Registry, batch: seq<Id>, removals: seq<Removal>)
    requires |batch| == |removals| && forall id :: id in batch ==> id in registry
    requires forall i, j :: 0 <= i < j < |batch| ==> batch[i] != batch[j]
    ensures var after := RegistryAfter(registry, batch, removals);
            |batch| - CountCleaned(removals) == |set id | id in batch && id in after|
  {
    var after := RegistryAfter(registry, batch, removals);
    CleanedAreGone(registry, batch, removals);
    DistinctCardinality(batch);
    forall id
      ensures id in after ==> id in registry
      ensures id in registry && id !in batch ==> id in after
    {
      RegistryAfterAt(registry, batch, removals, id);
    }
    SizesAdd(registry.Keys, Elements(batch), after.Keys);
    assert (set id | id in batch && id in after) == Elements(batch) * after.Keys;
  }

  // ---------------------------------------------------------------- the session the worker runs in

  class Session {
    var registry: Registry
    var objects: set<ObjectKey>

    constructor (registry: Registry, objects: set<ObjectKey>)
      ensures this.registry == registry && this.objects == objects
    {
      this.registry := registry;
      this.objects := objects;
    }

    method CleanupAttachmentObject(id: Id, removal: Removal) returns (cleaned: bool)
      requires id in registry
      modifies this
      ensures cleaned <==> removal.Removed? || removal.Missing?
      ensures cleaned ==> registry == old(registry) - {id}
      ensures !cleaned ==>
                registry == old(registry)[id := old(registry)[id].(attempts := old(registry)[id].attempts + 1)]
      ensures registry == RowDealt(old(registry), id, removal)
      ensures objects == if removal == Unavailable(false) then old(objects)
                         else old(objects) - {old(registry)[id].key}
    {
      if removal != Unavailable(false) {
        objects := objects - {registry[id].key};
      }
      if removal.Unavailable? {
        registry := registry[id := registry[id].(attempts := registry[id].attempts + 1)];
        return false;
      }
      registry := registry - {id};
      return true;
    }

    method CleanupEach(batch: seq<Id>, removals: seq<Removal>) returns (cleaned: nat, pending: nat)
      requires |batch| == |removals| && forall id :: id in batch ==> id in registry
      requires forall i, j :: 0 <= i < j < |batch| ==> batch[i] != batch[j]
      modifies this
      ensures cleaned == |old(registry)| - |registry| && pending == |set id | id in batch && id in registry|
      ensures cleaned + pending == |batch|
      ensures registry == RegistryAfter(old(registry), batch, removals)
      ensures objects == ObjectsAfter(old(objects), KeysOf(old(registry), batch), removals)
    {
      CleanedAreGone(registry, batch, removals);
      LeftOver(registry, batch, removals);
      cleaned, pending := 0, 0;
      var i := 0;
      ghost var keys := KeysOf(registry, batch);
      while i < |batch|
        invariant 0 <= i <= |batch| && cleaned + pending == i
        invariant cleaned + CountCleaned(removals[i..]) == CountCleaned(removals)
        invariant forall j :: i <= j < |batch| ==> batch[j] in registry && registry[batch[j]].key == keys[j]
        invariant RegistryAfter(registry, batch[i..], removals[i..]) == RegistryAfter(old(registry), batch, removals)
        invariant ObjectsAfter(objects, keys[i..], removals[i..]) == ObjectsAfter(old(objects), keys, removals)
      {
        assert batch[i..][1..] == batch[i + 1..] && removals[i..][1..] == removals[i + 1..];
        assert keys[i..][1..] == keys[i + 1..];
        var ok := CleanupAttachmentObject(batch[i], removals[i]);
        if ok {
          cleaned := cleaned + 1;
        } else {
          pending := pending + 1;
        }
        i := i + 1;
      }
    }

    // cleaned: how many rows of the batch are gone afterwards; pending: how many are still there
    method CleanupPendingAttachments(grace: nat, now: int, limit: nat, answers: Id -> Removal)
      returns (cleaned: nat, pending: nat, batch: seq<Id>)
      modifies this
      ensures |batch| <= limit && forall id :: id in batch ==>
                && id in old(registry)
                && var row := old(registry)[id];
                   row.status == DeletePending || row.status == PurgePending ||
                   (row.status == UploadPending && row.createdAt + grace <= now)
      ensures forall id :: id in old(registry) && id !in batch &&
                           (var row := old(registry)[id];
                            row.status == DeletePending || row.status == PurgePending ||
                            (row.status == UploadPending && row.createdAt + grace <= now)) ==>
                |batch| == limit &&
                forall other :: other in batch ==> old(registry)[other].createdAt <= old(registry)[id].createdAt
      ensures IsOldestBatch(old(registry), EligibleIds(grace, now, old(registry)), limit, batch)
      ensures cleaned == |old(registry)| - |registry| && pending == |set id | id in batch && id in registry|
      ensures cleaned + pending == |batch|
      ensures registry == RegistryAfter(old(registry), batch, Answered(batch, answers))
      ensures objects == ObjectsAfter(old(objects), KeysOf(old(registry), batch), Answered(batch, answers))
    {
      batch := OldestBatch(registry, EligibleIds(grace, now, registry), limit);
      forall id | id in registry && id !in batch && Eligible(grace, now, registry[id])
        ensures |batch| == limit && forall other :: other in batch ==> registry[other].createdAt <= registry[id].createdAt
      {
        LeftBehind(registry, EligibleIds(grace, now, registry), limit, batch, id);
      }
      cleaned, pending := CleanupEach(batch, Answered(batch, answers));
    }

    // kept: the records that are live or in the recycle bin
    method ReconcilePurged(kept: set<RecordKey>, limit: nat) returns (marked: nat, batch: seq<Id>)
      modifies this
      ensures IsOldestBatch(old(registry), OrphanIds(old(registry), kept), limit, batch)
      ensures |batch| <= limit && forall id :: id in batch ==>
                id in old(registry) && old(registry)[id].status == Active && old(registry)[id].cell.owner !in kept
      ensures forall id :: id in old(registry) && id !in batch && old(registry)[id].status == Active &&
                           old(registry)[id].cell.owner !in kept ==>
                |batch| == limit &&
                forall other :: other in batch ==> old(registry)[other].createdAt <= old(registry)[id].createdAt
      ensures marked == |batch| && objects == old(objects) && registry.Keys == old(registry).Keys
      ensures forall id :: id in registry ==>
                registry[id] == if id in batch then old(registry)[id].(status := PurgePending) else old(registry)[id]
      ensures registry == Marked(old(registry), Elements(batch))
    {
      batch := OldestBatch(registry, OrphanIds(registry, kept), limit);
      forall id | id in OrphanIds(registry, kept) && id !in batch
        ensures |batch| == limit && forall other :: other in batch ==> registry[other].createdAt <= registry[id].createdAt
      {
        LeftBehind(registry, OrphanIds(registry, kept), limit, batch, id);
      }
      for i := 0 to |batch|
        invariant registry == Marked(old(registry), Elements(batch[..i]))
        invariant objects == old(objects)
      {
        assert Elements(batch[..i + 1]) == Elements(batch[..i]) + {batch[i]};
        registry := registry[batch[i] := registry[batch[i]].(status := PurgePending)];
      }
      assert batch[..|batch|] == batch;
      marked := |batch|;
    }

    method CleanupOnce(grace: nat, now: int, kept: set<RecordKey>, limit: nat, answers: Id -> Removal)
      returns (orphans: seq<Id>, doomed: seq<Id>)
      modifies this
      ensures PassWith(grace, now, kept, limit, old(registry), registry, orphans, doomed, Answered(doomed, answers))
    {
      var marked, cleaned, pending;
      marked, orphans := ReconcilePurged(kept, limit);
      cleaned, pending, doomed := CleanupPendingAttachments(grace, now, limit, answers);
    }
  }

  // ---------------------------------------------------------------- a pass is a run of the protocol

  function Picks(base: nat, batch: seq<Id>): seq<Event>
    decreases |batch|
  {
    if batch == [] then [] else [Cleaner(base, PickRow(batch[0]))] + Picks(base + 1, batch[1..])
  }

  function Removals(base: nat, removals: seq<Removal>): seq<Event>
    decreases |removals|
  {
    if removals == [] then [] else
      (match removals[0]
       case Unavailable(landed) => [Cleaner(base, RemoveFails(landed))]
       case _ => [Cleaner(base, RemoveObject), Cleaner(base, DeleteRow)])
      + Removals(base + 1, removals[1..])
  }

  predicate Free(s: State, base: nat, count: nat) {
    forall j :: base <= j < base + count ==> j !in s.jobs
  }

  predicate HoldsRow(s: State, job: nat, id: Id) {
    job in s.jobs && id in s.registry && s.jobs[job] == Job(id, s.registry[id].key, false)
  }

  predicate HoldsAt(s: State, base: nat, batch: seq<Id>, j: nat)
    requires base <= j < base + |batch|
  {
    HoldsRow(s, j, batch[j - base])
  }

  predicate Holds(s: State, base: nat, batch: seq<Id>) {
    forall j :: base <= j < base + |batch| ==> HoldsAt(s, base, batch, j)
  }

  function Picked(s: State, job: nat, id: Id): State
    requires id in s.registry
  {
    s.(jobs := s.jobs[job := Job(id, s.registry[id].key, false)])
  }

  lemma PickThen(env: Env, s: State, job: nat, id: Id, rest: seq<Event>)
    requires job !in s.jobs && id in s.registry && Eligible(env.grace, s.now, s.registry[id])
    requires Run(env, Picked(s, job, id), rest)
    ensures Run(env, s, [Cleaner(job, PickRow(id))] + rest)
    ensures Exec(env, s, [Cleaner(job, PickRow(id))] + rest) == Exec(env, Picked(s, job, id), rest)
  {
    assert ([Cleaner(job, PickRow(id))] + rest)[1..] == rest;
  }

  // Every row of the batch is held by a job of its own; nothing else has changed.
  predicate AllPicked(s: State, s': State, base: nat, batch: seq<Id>) {
    && s' == s.(jobs := s'.jobs) && Holds(s', base, batch)
    && (forall j :: j in s.jobs ==> j in s'.jobs && s'.jobs[j] == s.jobs[j])
    && (forall j :: j in s'.jobs ==> j in s.jobs || base <= j < base + |batch|)
  }

  predicate AllEligible(env: Env, s: State, batch: seq<Id>) {
    forall id :: id in batch ==> id in s.registry && Eligible(env.grace, s.now, s.registry[id])
  }

  lemma FirstPicked(s: State, s': State, base: nat, batch: seq<Id>)
    requires batch != [] && batch[0] in s.registry && base !in s.jobs
    requires AllPicked(Picked(s, base, batch[0]), s', base + 1, batch[1..])
    ensures AllPicked(s, s', base, batch)
  {
    assert base in Picked(s, base, batch[0]).jobs;
    forall j | base <= j < base + |batch|
      ensures HoldsAt(s', base, batch, j)
    {
      if j > base {
        assert HoldsAt(s', base + 1, batch[1..], j);
      }
    }
  }

  lemma {:induction false} PicksRun(env: Env, s: State, base: nat, batch: seq<Id>)
    requires Free(s, base, |batch|) && AllEligible(env, s, batch)
    ensures Run(env, s, Picks(base, batch))
    ensures AllPicked(s, Exec(env, s, Picks(base, batch)), base, batch)
    decreases |batch|
  {
    if batch != [] {
      assert batch[0] in batch;
      PicksRun(env, Picked(s, base, batch[0]), base + 1, batch[1..]);
      PickThen(env, s, base, batch[0], Picks(base + 1, batch[1..]));
      FirstPicked(s, Exec(env, s, Picks(base, batch)), base, batch);
    }
  }

  // The state after the worker has dealt with one held row.
  function Dealt(s: State, job: nat, id: Id, removal: Removal): State
    requires id in s.registry
  {
    s.(registry := RowDealt(s.registry, id, removal),
       objects := if removal == Unavailable(false) then s.objects else s.objects - {s.registry[id].key},
       jobs := s.jobs - {job})
  }

  lemma FirstThen(env: Env, s: State, e: Event, rest: seq<Event>)
    requires Enabled(env, s, e) && Run(env, Apply(env, s, e), rest)
    ensures Run(env, s, [e] + rest) && Exec(env, s, [e] + rest) == Exec(env, Apply(env, s, e), rest)
  {
    assert ([e] + rest)[1..] == rest;
  }

  lemma FailedRemoval(env: Env, s: State, job: nat, id: Id, landed: bool)
    requires HoldsRow(s, job, id)
    ensures Enabled(env, s, Cleaner(job, RemoveFails(landed)))
    ensures Apply(env, s, Cleaner(job, RemoveFails(landed))) == Dealt(s, job, id, Unavailable(landed))
  {
  }

  lemma DoneRemoval(env: Env, s: State, job: nat, id: Id, removal: Removal)
    requires HoldsRow(s, job, id) && Succeeds(removal)
    ensures Enabled(env, s, Cleaner(job, RemoveObject))
    ensures var removed := Apply(env, s, Cleaner(job, RemoveObject));
            && Enabled(env, removed, Cleaner(job, DeleteRow))
            && Apply(env, removed, Cleaner(job, DeleteRow)) == Dealt(s, job, id, removal)
  {
    var removed := Apply(env, s, Cleaner(job, RemoveObject));
    assert removed.jobs - {job} == s.jobs - {job};
  }

  lemma DoneRemovalThen(env: Env, s: State, job: nat, id: Id, removal: Removal, rest: seq<Event>)
    requires HoldsRow(s, job, id) && Succeeds(removal) && Run(env, Dealt(s, job, id, removal), rest)
    ensures var es := [Cleaner(job, RemoveObject), Cleaner(job, DeleteRow)] + rest;
            Run(env, s, es) && Exec(env, s, es) == Exec(env, Dealt(s, job, id, removal), rest)
  {
    DoneRemoval(env, s, job, id, removal);
    FirstThen(env, Apply(env, s, Cleaner(job, RemoveObject)), Cleaner(job, DeleteRow), rest);
    FirstThen(env, s, Cleaner(job, RemoveObject), [Cleaner(job, DeleteRow)] + rest);
    assert [Cleaner(job, RemoveObject)] + ([Cleaner(job, DeleteRow)] + rest)
        == [Cleaner(job, RemoveObject), Cleaner(job, DeleteRow)] + rest;
  }

  lemma DealThen(env: Env, s: State, job: nat, id: Id, removals: seq<Removal>)
    requires HoldsRow(s, job, id)
    requires removals != [] && Run(env, Dealt(s, job, id, removals[0]), Removals(job + 1, removals[1..]))
    ensures Run(env, s, Removals(job, removals))
    ensures Exec(env, s, Removals(job, removals))
         == Exec(env, Dealt(s, job, id, removals[0]), Removals(job + 1, removals[1..]))
  {
    var rest := Removals(job + 1, removals[1..]);
    if removals[0].Unavailable? {
      FailedRemoval(env, s, job, id, removals[0].landed);
      FirstThen(env, s, Cleaner(job, RemoveFails(removals[0].landed)), rest);
    } else {
      DoneRemovalThen(env, s, job, id, removals[0], rest);
    }
  }

  lemma HoldsRest(s: State, base: nat, batch: seq<Id>, removal: Removal)
    requires batch != [] && Holds(s, base, batch)
    requires forall id :: id in batch ==> id in s.registry
    requires forall i, j :: 0 <= i < j < |batch| ==> batch[i] != batch[j]
    ensures var next := Dealt(s, base, batch[0], removal);
            && Holds(next, base + 1, batch[1..])
            && (forall id :: id in batch[1..] ==> id in next.registry && next.registry[id].key == s.registry[id].key)
  {
    var next := Dealt(s, base, batch[0], removal);
    var first, rest := base + 1, batch[1..];
    forall j | first <= j < first + |rest|
      ensures HoldsAt(next, first, rest, j)
    {
      assert HoldsAt(s, base, batch, j);
    }
  }

  lemma {:induction false} RemovalsRun(env: Env, s: State, base: nat, batch: seq<Id>, removals: seq<Removal>)
    requires |batch| == |removals| && Holds(s, base, batch)
    requires forall id :: id in batch ==> id in s.registry
    requires forall i, j :: 0 <= i < j < |batch| ==> batch[i] != batch[j]
    ensures Run(env, s, Removals(base, removals))
    ensures var s' := Exec(env, s, Removals(base, removals));
            && s' == s.(registry := RegistryAfter(s.registry, batch, removals),
                        objects := ObjectsAfter(s.objects, KeysOf(s.registry, batch), removals),
                        jobs := s'.jobs)
            && (forall j :: j in s'.jobs <==> j in s.jobs && !(base <= j < base + |batch|))
            && (forall j :: j in s'.jobs ==> s'.jobs[j] == s.jobs[j])
    decreases |batch|
  {
    if batch != [] {
      assert HoldsAt(s, base, batch, base);
      var next := Dealt(s, base, batch[0], removals[0]);
      HoldsRest(s, base, batch, removals[0]);
      assert KeysOf(s.registry, batch)[1..] == KeysOf(next.registry, batch[1..]);
      RemovalsRun(env, next, base + 1, batch[1..], removals[1..]);
      DealThen(env, s, base, batch[0], removals);
    }
  }

  lemma {:induction false} RunThenRun(env: Env, s: State, first: seq<Event>, second: seq<Event>)
    requires Run(env, s, first) && Run(env, Exec(env, s, first), second)
    ensures Run(env, s, first + second)
    ensures Exec(env, s, first + second) == Exec(env, Exec(env, s, first), second)
    decreases |first|
  {
    if first == [] {
      assert first + second == second;
    } else {
      RunThenRun(env, Apply(env, s, first[0]), first[1..], second);
      assert (first + second)[1..] == first[1..] + second;
    }
  }

  // Whatever the store answers, what Session.CleanupPendingAttachments leaves behind is what the
  // protocol reaches by picking the batch and then removing each row in turn; so a pass inherits
  // everything the protocol guarantees.
  lemma CleanupPassIsRun(env: Env, s: State, base: nat, batch: seq<Id>, removals: seq<Removal>, limit: nat)
    requires |batch| == |removals| && Free(s, base, |batch|)
    requires IsOldestBatch(s.registry, EligibleIds(env.grace, s.now, s.registry), limit, batch)
    ensures Run(env, s, Picks(base, batch) + Removals(base, removals))
    ensures Exec(env, s, Picks(base, batch) + Removals(base, removals))
         == s.(registry := RegistryAfter(s.registry, batch, removals),
               objects := ObjectsAfter(s.objects, KeysOf(s.registry, batch), removals))
  {
    PicksRun(env, s, base, batch);
    var held := Exec(env, s, Picks(base, batch));
    RemovalsRun(env, held, base, batch, removals);
    RunThenRun(env, s, Picks(base, batch), Removals(base, removals));
    assert Exec(env, held, Removals(base, removals)).jobs == s.jobs;
  }

  // ---------------------------------------------------------------- passes drain the backlog

  // A reconcile marks as many of the oldest orphans as the limit allows; rows of kept records are
  // never in the way because they never enter the pool.
  lemma ReconcileMovesOldestOrphans(registry: Registry, kept: set<RecordKey>, limit: nat, batch: seq<Id>,
                                    grace: nat, now: int)
    requires IsOldestBatch(registry, OrphanIds(registry, kept), limit, batch)
    ensures var after := Marked(registry, Elements(batch));
            && OrphanIds(after, kept) == OrphanIds(registry, kept) - Elements(batch)
            && EligibleIds(grace, now, after) == EligibleIds(grace, now, registry) + Elements(batch)
            && EligibleIds(grace, now, registry) !! Elements(batch)
  {
    var after := Marked(registry, Elements(batch));
    forall id
      ensures id in EligibleIds(grace, now, after) <==>
              id in EligibleIds(grace, now, registry) + Elements(batch)
    {
    }
  }

  // With the store up, a cleanup pass deletes its whole batch and touches nothing else.
  lemma {:induction false} AllRemoved(registry: Registry, batch: seq<Id>, removals: seq<Removal>)
    requires |batch| == |removals| && AllSucceed(removals)
    ensures RegistryAfter(registry, batch, removals) == registry - Elements(batch)
  {
    if batch == [] {
      assert registry - Elements(batch) == registry;
    } else {
      assert removals[0] in removals;
      AllRemoved(RowDealt(registry, batch[0], removals[0]), batch[1..], removals[1..]);
      assert Elements(batch) == {batch[0]} + Elements(batch[1..]);
      assert registry - Elements(batch) == registry - {batch[0]} - Elements(batch[1..]);
    }
  }

  function Min(a: nat, b: nat): nat { if a <= b then a else b }

  function Backlog(grace: nat, now: int, registry: Registry, kept: set<RecordKey>): nat {
    |OrphanIds(registry, kept)| + |EligibleIds(grace, now, registry)|
  }

  // One _cleanup_once: reconcile a batch, then clean a batch.
  predicate PassWith(grace: nat, now: int, kept: set<RecordKey>, limit: nat, before: Registry, after: Registry,
                     orphans: seq<Id>, doomed: seq<Id>, removals: seq<Removal>) {
    var marked := Marked(before, Elements(orphans));
    && IsOldestBatch(before, OrphanIds(before, kept), limit, orphans)
    && IsOldestBatch(marked, EligibleIds(grace, now, marked), limit, doomed)
    && |doomed| == |removals|
    && after == RegistryAfter(marked, doomed, removals)
  }

  predicate AllSucceed(removals: seq<Removal>) {
    forall r :: r in removals ==> Succeeds(r)
  }

  // With the store up
  ghost predicate FullPass(grace: nat, now: int, kept: set<RecordKey>, limit: nat, before: Registry, after: Registry) {
    exists orphans, doomed, removals ::
      PassWith(grace, now, kept, limit, before, after, orphans, doomed, removals) && AllSucceed(removals)
  }

  // Whatever the store answers, whenever
  ghost predicate AnyPass(grace: nat, kept: set<RecordKey>, limit: nat, before: Registry, after: Registry) {
    exists now, orphans, doomed, removals ::
      PassWith(grace, now, kept, limit, before, after, orphans, doomed, removals)
  }

  // What CleanupOnce leaves is always a pass, and a full one if the store has answered every removal.
  lemma WorkerPass(grace: nat, now: int, kept: set<RecordKey>, limit: nat, before: Registry, after: Registry,
                   orphans: seq<Id>, doomed: seq<Id>, answers: Id -> Removal)
    requires PassWith(grace, now, kept, limit, before, after, orphans, doomed, Answered(doomed, answers))
    ensures AnyPass(grace, kept, limit, before, after)
    ensures (forall id :: id in doomed ==> !answers(id).Unavailable?) ==> FullPass(grace, now, kept, limit, before, after)
  {
    if forall id :: id in doomed ==> !answers(id).Unavailable? {
      assert AllSucceed(Answered(doomed, answers));
    }
  }

  lemma ReconcileSizes(registry: Registry, kept: set<RecordKey>, limit: nat, batch: seq<Id>, grace: nat, now: int)
    requires IsOldestBatch(registry, OrphanIds(registry, kept), limit, batch)
    ensures var after := Marked(registry, Elements(batch));
            && |OrphanIds(after, kept)| == |OrphanIds(registry, kept)| - |batch|
            && |EligibleIds(grace, now, after)| == |EligibleIds(grace, now, registry)| + |batch|
  {
    ReconcileMovesOldestOrphans(registry, kept, limit, batch, grace, now);
    DistinctCardinality(batch);
    assert Elements(batch) <= OrphanIds(registry, kept);
  }

  lemma CleanupSizes(registry: Registry, kept: set<RecordKey>, limit: nat, batch: seq<Id>, grace: nat, now: int)
    requires IsOldestBatch(registry, EligibleIds(grace, now, registry), limit, batch)
    ensures var after := registry - Elements(batch);
            && |OrphanIds(after, kept)| == |OrphanIds(registry, kept)|
            && |EligibleIds(grace, now, after)| == |EligibleIds(grace, now, registry)| - |batch|
  {
    var after := registry - Elements(batch);
    DistinctCardinality(batch);
    assert Elements(batch) <= EligibleIds(grace, now, registry);
    assert EligibleIds(grace, now, after) == EligibleIds(grace, now, registry) - Elements(batch);
    assert OrphanIds(after, kept) == OrphanIds(registry, kept);
  }

  // The backlog: orphans, and rows a cleanup may take
  lemma BacklogSays(grace: nat, now: int, registry: Registry, kept: set<RecordKey>)
    ensures Backlog(grace, now, registry, kept) ==
              |set id | id in registry && registry[id].status == Active && registry[id].cell.owner !in kept| +
              |set id | id in registry &&
                  (registry[id].status == DeletePending || registry[id].status == PurgePending ||
                   (registry[id].status == UploadPending && registry[id].createdAt + grace <= now))|
  {
    assert OrphanIds(registry, kept) ==
      set id | id in registry && registry[id].status == Active && registry[id].cell.owner !in kept;
    assert EligibleIds(grace, now, registry) ==
      set id | id in registry &&
          (registry[id].status == DeletePending || registry[id].status == PurgePending ||
           (registry[id].status == UploadPending && registry[id].createdAt + grace <= now));
  }

  // Each full pass shrinks the backlog by a whole batch, or to nothing.
  lemma FullPassShrinksBacklog(grace: nat, now: int, kept: set<RecordKey>, limit: nat, before: Registry, after: Registry)
    requires FullPass(grace, now, kept, limit, before, after)
    ensures var n := Backlog(grace, now, before, kept);
            Backlog(grace, now, after, kept) == if n <= limit then 0 else n - limit
  {
    var orphans, doomed, removals :|
      PassWith(grace, now, kept, limit, before, after, orphans, doomed, removals) && AllSucceed(removals);
    var marked := Marked(before, Elements(orphans));
    ReconcileSizes(before, kept, limit, orphans, grace, now);
    AllRemoved(marked, doomed, removals);
    CleanupSizes(marked, kept, limit, doomed, grace, now);
  }

  lemma CeilingDivision(n: nat, k: nat, limit: nat)
    requires limit > 0
    ensures k * limit >= n <==> k >= (n + limit - 1) / limit
  {
    var q, r := (n + limit - 1) / limit, (n + limit - 1) % limit;
    assert n + limit - 1 == q * limit + r;
    if k >= q {
      assert k * limit >= q * limit;
    } else {
      assert (k + 1) * limit <= q * limit;
    }
  }

  lemma {:induction false} SteadyShrinking(sizes: seq<nat>, limit: nat)
    requires limit > 0 && |sizes| > 0
    requires forall i :: 0 < i < |sizes| ==> sizes[i] == sizes[i - 1] - Min(limit, sizes[i - 1])
    ensures var k := |sizes| - 1; sizes[k] == if k * limit >= sizes[0] then 0 else sizes[0] - k * limit
  {
    var k := |sizes| - 1;
    if k > 0 {
      SteadyShrinking(sizes[..k], limit);
      assert k * limit == (k - 1) * limit + limit;
    }
  }

  lemma ShrinksToNothing(sizes: seq<nat>, limit: nat)
    requires limit > 0 && |sizes| > 0
    requires forall i :: 0 < i < |sizes| ==> sizes[i] == sizes[i - 1] - Min(limit, sizes[i - 1])
    ensures sizes[|sizes| - 1] == 0 <==> |sizes| - 1 >= (sizes[0] + limit - 1) / limit
  {
    SteadyShrinking(sizes, limit);
    CeilingDivision(sizes[0], |sizes| - 1, limit);
  }

  // The passes take place one after the other; between two of them the clock goes on, and no upload grows stale.
  ghost predicate SteadyPasses(grace: nat, kept: set<RecordKey>, limit: nat, states: seq<Registry>, times: seq<int>) {
    && |times| == |states| > 0
    && forall i :: 0 < i < |states| ==>
         && times[i - 1] <= times[i] && FullPass(grace, times[i - 1], kept, limit, states[i - 1], states[i])
         && EligibleIds(grace, times[i], states[i]) == EligibleIds(grace, times[i - 1], states[i])
  }

  function BacklogSizes(grace: nat, kept: set<RecordKey>, states: seq<Registry>, times: seq<int>): seq<nat>
    requires |times| == |states|
  {
    seq(|states|, i requires 0 <= i < |states| => Backlog(grace, times[i], states[i], kept))
  }

  lemma BacklogShrinks(grace: nat, kept: set<RecordKey>, limit: nat, states: seq<Registry>, times: seq<int>, i: nat)
    requires SteadyPasses(grace, kept, limit, states, times) && 0 < i < |states|
    ensures var sizes := BacklogSizes(grace, kept, states, times); sizes[i] == sizes[i - 1] - Min(limit, sizes[i - 1])
  {
    FullPassShrinksBacklog(grace, times[i - 1], kept, limit, states[i - 1], states[i]);
  }

  // With the store up and no new work, n rows awaiting reconcile or cleanup are gone after
  // ceil(n / limit) passes, and not before.
  lemma BacklogDrains(grace: nat, kept: set<RecordKey>, limit: nat, states: seq<Registry>, times: seq<int>)
    requires limit > 0 && SteadyPasses(grace, kept, limit, states, times)
    ensures var n, last := Backlog(grace, times[0], states[0], kept), |states| - 1;
            Backlog(grace, times[last], states[last], kept) == 0 <==> last >= (n + limit - 1) / limit
  {
    var sizes := BacklogSizes(grace, kept, states, times);
    forall i | 0 < i < |sizes|
      ensures sizes[i] == sizes[i - 1] - Min(limit, sizes[i - 1])
    {
      BacklogShrinks(grace, kept, limit, states, times, i);
    }
    ShrinksToNothing(sizes, limit);
  }

  // ---------------------------------------------------------------- orphans are marked even in an outage

  // Cleaning, successful or not, neither makes an orphan nor unmakes one.
  lemma CleaningSparesOrphans(registry: Registry, kept: set<RecordKey>, batch: seq<Id>, removals: seq<Removal>)
    requires |batch| == |removals|
    requires forall i, j :: 0 <= i < j < |batch| ==> batch[i] != batch[j]
    requires forall id :: id in batch ==> id in registry && registry[id].status != Active
    ensures OrphanIds(RegistryAfter(registry, batch, removals), kept) == OrphanIds(registry, kept)
  {
    var after := RegistryAfter(registry, batch, removals);
    forall id
      ensures id in OrphanIds(after, kept) <==> id in OrphanIds(registry, kept)
    {
      RegistryAfterAt(registry, batch, removals, id);
    }
  }

  lemma AnyPassShrinksOrphans(grace: nat, kept: set<RecordKey>, limit: nat, before: Registry, after: Registry)
    requires AnyPass(grace, kept, limit, before, after)
    ensures var n := |OrphanIds(before, kept)|; |OrphanIds(after, kept)| == n - Min(limit, n)
  {
    var now, orphans, doomed, removals :| PassWith(grace, now, kept, limit, before, after, orphans, doomed, removals);
    var marked := Marked(before, Elements(orphans));
    ReconcileSizes(before, kept, limit, orphans, grace, now);
    CleaningSparesOrphans(marked, kept, doomed, removals);
  }

  // An orphan row, or one that has been marked as such; or it is gone.
  predicate OrphanOrMarked(registry: Registry, kept: set<RecordKey>, id: Id) {
    id in registry ==> id in OrphanIds(registry, kept) || registry[id].status == PurgePending
  }

  lemma PassMovesOn(grace: nat, kept: set<RecordKey>, limit: nat, before: Registry, after: Registry, id: Id)
    requires AnyPass(grace, kept, limit, before, after) && OrphanOrMarked(before, kept, id)
    ensures OrphanOrMarked(after, kept, id)
  {
    var now, orphans, doomed, removals :| PassWith(grace, now, kept, limit, before, after, orphans, doomed, removals);
    RegistryAfterAt(Marked(before, Elements(orphans)), doomed, removals, id);
  }

  ghost predicate Passes(grace: nat, kept: set<RecordKey>, limit: nat, states: seq<Registry>) {
    forall i :: 0 < i < |states| ==> AnyPass(grace, kept, limit, states[i - 1], states[i])
  }

  lemma {:induction false} OrphansMoveOn(grace: nat, kept: set<RecordKey>, limit: nat, states: seq<Registry>, n: nat, id: Id)
    requires n < |states| && id in OrphanIds(states[0], kept)
    requires Passes(grace, kept, limit, states)
    ensures OrphanOrMarked(states[n], kept, id)
  {
    if n > 0 {
      OrphansMoveOn(grace, kept, limit, states, n - 1, id);
      PassMovesOn(grace, kept, limit, states[n - 1], states[n], id);
    }
  }

  function OrphanCounts(states: seq<Registry>, kept: set<RecordKey>): seq<nat> {
    seq(|states|, i requires 0 <= i < |states| => |OrphanIds(states[i], kept)|)
  }

  lemma OrphanCountsShrink(grace: nat, kept: set<RecordKey>, limit: nat, states: seq<Registry>)
    requires Passes(grace, kept, limit, states)
    ensures var sizes := OrphanCounts(states, kept);
            forall i :: 0 < i < |sizes| ==> sizes[i] == sizes[i - 1] - Min(limit, sizes[i - 1])
  {
    forall i | 0 < i < |states|
      ensures OrphanCounts(states, kept)[i]
           == OrphanCounts(states, kept)[i - 1] - Min(limit, OrphanCounts(states, kept)[i - 1])
    {
      AnyPassShrinksOrphans(grace, kept, limit, states[i - 1], states[i]);
    }
  }

  lemma OrphanCount(grace: nat, kept: set<RecordKey>, limit: nat, states: seq<Registry>)
    requires limit > 0 && |states| > 0 && Passes(grace, kept, limit, states)
    ensures OrphanIds(states[|states| - 1], kept) == {}
       <==> |states| - 1 >= (|OrphanIds(states[0], kept)| + limit - 1) / limit
  {
    OrphanCountsShrink(grace, kept, limit, states);
    ShrinksToNothing(OrphanCounts(states, kept), limit);
  }

  lemma MarkedWhenNoneIsLeft(first: set<Id>, last: Registry, kept: set<RecordKey>)
    requires OrphanIds(last, kept) <= first && forall id :: id in first ==> OrphanOrMarked(last, kept, id)
    ensures OrphanIds(last, kept) == {} <==> forall id :: id in first && id in last ==> last[id].status == PurgePending
  {
    if OrphanIds(last, kept) != {} {
      var id :| id in OrphanIds(last, kept);
      assert id in first && id in last;
    }
  }

  // Marking needs no object store: whatever it answers, after ceil(n / limit) passes and not before each of the n
  // orphans has been marked for purging, and is still so unless its object has gone.
  lemma OrphansAreMarkedInAnOutage(grace: nat, kept: set<RecordKey>, limit: nat, states: seq<Registry>)
    requires limit > 0 && |states| > 0
    requires Passes(grace, kept, limit, states)
    ensures var orphans, last := OrphanIds(states[0], kept), states[|states| - 1];
            |states| - 1 >= (|orphans| + limit - 1) / limit <==>
              forall id :: id in orphans && id in last ==> last[id].status == PurgePending
  {
    var last := |states| - 1;
    OrphanCount(grace, kept, limit, states);
    NoNewOrphans(grace, kept, limit, states, last);
    forall id | id in OrphanIds(states[0], kept)
      ensures OrphanOrMarked(states[last], kept, id)
    {
      OrphansMoveOn(grace, kept, limit, states, last, id);
    }
    MarkedWhenNoneIsLeft(OrphanIds(states[0], kept), states[last], kept);
  }

  lemma {:induction false} NoNewOrphans(grace: nat, kept: set<RecordKey>, limit: nat, states: seq<Registry>, n: nat)
    requires n < |states|
    requires Passes(grace, kept, limit, states)
    ensures OrphanIds(states[n], kept) <= OrphanIds(states[0], kept)
  {
    if n > 0 {
      NoNewOrphans(grace, kept, limit, states, n - 1);
      PassMakesNoOrphan(grace, kept, limit, states[n - 1], states[n]);
    }
  }

  lemma PassMakesNoOrphan(grace: nat, kept: set<RecordKey>, limit: nat, before: Registry, after: Registry)
    requires AnyPass(grace, kept, limit, before, after)
    ensures OrphanIds(after, kept) <= OrphanIds(before, kept)
  {
    var now, orphans, doomed, removals :| PassWith(grace, now, kept, limit, before, after, orphans, doomed, removals);
    var marked := Marked(before, Elements(orphans));
    ReconcileMovesOldestOrphans(before, kept, limit, orphans, grace, now);
    CleaningSparesOrphans(marked, kept, doomed, removals);
  }
}
