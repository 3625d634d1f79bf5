/** What a row and a record can and cannot go through over a whole run of the protocol. */
module AttachmentLifecycle {
  import opened AttachmentModel
  import opened AttachmentProtocol
  import opened AttachmentSafety

  // ---------------------------------------------------------------- a row only moves forward

  predicate Doomed(s: State, id: Id) {
    id in s.usedIds && (id in s.registry ==> s.registry[id].status in {DeletePending, PurgePending})
  }

  lemma UploadStepKeepsDoomed(env: Env, s: State, id: Id, e: UploadEvent, doomed: Id)
    requires UploadEnabled(env, s, id, e) && Doomed(s, doomed)
    ensures Doomed(ApplyUpload(env, s, id, e), doomed)
  {
  }

  lemma CleanerStepKeepsDoomed(env: Env, s: State, job: nat, e: CleanerEvent, doomed: Id)
    requires CleanerEnabled(env, s, job, e) && Doomed(s, doomed)
    ensures Doomed(ApplyCleaner(env, s, job, e), doomed)
  {
  }

  lemma RecordStepKeepsRows(env: Env, s: State, e: RecordEvent)
    requires RecordEnabled(env, s, e)
    ensures ApplyRecord(env, s, e).registry == s.registry && ApplyRecord(env, s, e).usedIds == s.usedIds
  {
  }

  lemma WriterStepKeepsRecordSets(env: Env, s: State, w: nat, e: WriterEvent)
    requires WriterEnabled(env, s, w, e)
    ensures var s' := ApplyWriter(env, s, w, e);
            && s'.live.Keys == s.live.Keys && s'.recycled == s.recycled && s'.usedRecords == s.usedRecords
            && s'.registry == s.registry && s'.usedIds == s.usedIds && s'.links == s.links
  {
  }

  lemma FieldStepKeepsRecordSets(env: Env, s: State, e: FieldEvent)
    requires FieldEnabled(env, s, e)
    ensures var s' := ApplyField(env, s, e);
            && s'.live.Keys == s.live.Keys && s'.recycled == s.recycled && s'.usedRecords == s.usedRecords
            && s'.registry == s.registry && s'.usedIds == s.usedIds && s'.links == s.links
  {
  }

  lemma StepKeepsDoomed(env: Env, s: State, e: Event, id: Id)
    requires Enabled(env, s, e) && Doomed(s, id)
    ensures Doomed(Apply(env, s, e), id)
  {
    match e
    case Records(re) => RecordStepKeepsRows(env, s, re);
    case Writers(w, we) => WriterStepKeepsRecordSets(env, s, w, we);
    case Fields(fe) => FieldStepKeepsRecordSets(env, s, fe);
    case Uploads(u, ue) => UploadStepKeepsDoomed(env, s, u, ue, id);
    case Cleaner(job, ce) => CleanerStepKeepsDoomed(env, s, job, ce, id);
    case _ =>
  }

  // Whatever the environment does, a row marked for deletion or purge is never ACTIVE again.
  lemma {:induction false} DoomedStaysDoomed(env: Env, s: State, es: seq<Event>, id: Id)
    requires Run(env, s, es)
    requires id in s.usedIds && (id in s.registry ==> s.registry[id].status in {DeletePending, PurgePending})
    ensures id in Exec(env, s, es).registry ==> Exec(env, s, es).registry[id].status in {DeletePending, PurgePending}
    decreases |es|
  {
    if es != [] {
      StepKeepsDoomed(env, s, es[0], id);
      DoomedStaysDoomed(env, Apply(env, s, es[0]), es[1..], id);
    }
  }

  // Handlers and cleaners leave it to record events which records exist.
  lemma UploadStepKeepsRecordSets(env: Env, s: State, id: Id, e: UploadEvent)
    requires UploadEnabled(env, s, id, e)
    ensures var s' := ApplyUpload(env, s, id, e);
            s'.live.Keys == s.live.Keys && s'.recycled == s.recycled && s'.usedRecords == s.usedRecords
  {
  }

  lemma CleanerStepKeepsRecordSets(env: Env, s: State, job: nat, e: CleanerEvent)
    requires CleanerEnabled(env, s, job, e)
    ensures var s' := ApplyCleaner(env, s, job, e);
            s'.live.Keys == s.live.Keys && s'.recycled == s.recycled && s'.usedRecords == s.usedRecords
  {
  }

  // ---------------------------------------------------------------- the flush hook never blocks the handlers

  // A handler whose put has returned activates its row, while it has the time, if that is still pending, its record
  // live, its field an attachment field and no writer at work on the very record: it is never refused by the hook.
  lemma UploadPassesHook(env: Env, s: State, id: Id)
    requires Inv(env, s) && id in s.uploads && s.uploads[id].phase == Stored
    requires env.uploadsInTime ==> s.now < s.uploads[id].createdAt + env.grace
    requires id in s.registry && s.registry[id].status == UploadPending && s.registry[id].cell.owner in s.live
    requires FieldKey(s.registry[id].cell.owner.table, s.registry[id].cell.field) in s.fields
    requires forall w :: w in s.writers && s.writers[w].locked ==> s.writers[w].rk != s.registry[id].cell.owner
    ensures Enabled(env, s, Uploads(id, Activate))
  {
    var cell := s.registry[id].cell;
    assert SoundCell(s.fields, s.registry, Cell(cell.owner, cell.field), Value(s.live[cell.owner], cell.field));
    ExactCellResolvesToItself(s.registry, cell, Value(s.live[cell.owner], cell.field));
    ReadyPassesHook(env, s, id);
  }

  lemma ReadyPassesHook(env: Env, s: State, id: Id)
    requires Inv(env, s) && ActivationReady(env, s, id)
    ensures CanActivate(env, s, id)
  {
    var cell := s.registry[id].cell;
    var listed := Value(s.live[cell.owner], cell.field);
    var active := s.registry[id := s.registry[id].(status := Active)];
    ExactCellResolvesToItself(s.registry, cell, listed);
    var refs := RefsAfterActivation(s, id);
    assert refs == listed + [Metadata(id, s.registry[id])];
    assert id !in ActiveIds(s.registry, cell);
    forall r | r in listed
      ensures r.id != id && r.id in active && r == Metadata(r.id, active[r.id])
    {
      assert r.id in Ids(listed);
    }
    assert ActiveIds(active, cell) == ActiveIds(s.registry, cell) + {id};
    assert Ids(refs) == Ids(listed) + {id} by {
      assert refs[|listed|] in refs;
    }
    forall i, j | 0 <= i < j < |refs|
      ensures refs[i].id != refs[j].id
    {
      assert refs[i] in listed;
    }
  }

  lemma DetachPassesHook(env: Env, s: State, id: Id, job: nat)
    requires Inv(env, s) && id in s.registry && s.registry[id].status == Active && job !in s.jobs
    requires s.registry[id].cell.owner in s.live
    requires forall w :: w in s.writers && s.writers[w].locked ==> s.writers[w].rk != s.registry[id].cell.owner
    ensures Enabled(env, s, Cleaner(job, Detach(id))) && id !in Ids(RefsAfterDetach(s, id))
  {
    ActiveDetaches(env, s, id);
  }

  lemma ActiveDetaches(env: Env, s: State, id: Id)
    requires Inv(env, s) && id in s.registry && s.registry[id].status == Active
    requires s.registry[id].cell.owner in s.live && !RowLocked(s, s.registry[id].cell.owner)
    ensures CanDetach(s, id)
    ensures id !in Ids(RefsAfterDetach(s, id))
  {
    var cell := s.registry[id].cell;
    var listed := Value(s.live[cell.owner], cell.field);
    var doomed := s.registry[id := s.registry[id].(status := DeletePending)];
    ExactCellResolvesToItself(s.registry, cell, listed);
    assert id in ActiveIds(s.registry, cell);
    var refs := RefsAfterDetach(s, id);
    assert ActiveIds(doomed, cell) == ActiveIds(s.registry, cell) - {id};
    assert Ids(refs) == Ids(listed) - {id};
    forall r | r in refs
      ensures r.id in doomed && r == Metadata(r.id, doomed[r.id])
    {
      assert r in listed;
    }
  }

  // A writer that takes its row's lock waits for nobody but the one at work on the very record.
  lemma WriterWaitsForItsRowOnly(env: Env, s: State, w: nat, rk: RecordKey)
    requires w !in s.writers && rk in s.live
    ensures Enabled(env, s, Writers(w, Load(rk, true))) <==>
              forall x :: x in s.writers && s.writers[x].locked ==> s.writers[x].rk != rk
  {
  }

  // Deleting a field takes it out of the live records of its own table, if it strips them at all, and leaves all
  // other data, the recycle bin and the registry alone.
  lemma RemovedFieldLeaves(env: Env, s: State, fk: FieldKey, stripped: bool)
    requires Enabled(env, s, Fields(RemoveField(fk, stripped)))
    ensures var s' := Apply(env, s, Fields(RemoveField(fk, stripped)));
            && s'.fields == s.fields - {fk} && s'.registry == s.registry && s'.recycled == s.recycled
            && s'.live.Keys == s.live.Keys
            && forall rk, f :: rk in s.live ==>
                 if stripped && rk.table == fk.table && f == fk.field then f !in s'.live[rk]
                 else (f in s'.live[rk] <==> f in s.live[rk]) && (f in s.live[rk] ==> s'.live[rk][f] == s.live[rk][f])
  {
  }

  // ---------------------------------------------------------------- a recycled record is kept

  predicate Kept(s: State, rk: RecordKey, data: Data) {
    rk in s.recycled && s.recycled[rk] == data
  }

  lemma RecordStepKeepsRecycled(env: Env, s: State, e: RecordEvent, rk: RecordKey)
    requires RecordsWellFormed(s) && RecordEnabled(env, s, e)
    requires rk in s.recycled && e != Restore(rk) && e != Purge(rk)
    ensures Kept(ApplyRecord(env, s, e), rk, s.recycled[rk])
  {
  }

  lemma StepKeepsRecycled(env: Env, s: State, e: Event, rk: RecordKey)
    requires RecordsWellFormed(s) && Enabled(env, s, e)
    requires rk in s.recycled && e != Records(Restore(rk)) && e != Records(Purge(rk))
    ensures Kept(Apply(env, s, e), rk, s.recycled[rk])
  {
    match e
    case Records(re) => RecordStepKeepsRecycled(env, s, re, rk);
    case Writers(w, we) => WriterStepKeepsRecordSets(env, s, w, we);
    case Fields(fe) => FieldStepKeepsRecordSets(env, s, fe);
    case Uploads(id, ue) => UploadStepKeepsRecordSets(env, s, id, ue);
    case Cleaner(job, ce) => CleanerStepKeepsRecordSets(env, s, job, ce);
    case _ =>
  }

  lemma StepKeepsRecycledRows(env: Env, s: State, e: Event, cell: Cell)
    requires Bookkeeping(env, s) && Enabled(env, s, e) && cell.owner in s.recycled
    ensures SameActiveRows(s.registry, Apply(env, s, e).registry, cell)
  {
    match e
    case Records(re) => RecordStepKeepsRows(env, s, re);
    case Writers(w, we) => WriterStepKeepsRecordSets(env, s, w, we);
    case Fields(fe) => FieldStepKeepsRecordSets(env, s, fe);
    case Uploads(id, ue) => UploadStepKeepsOtherCells(env, s, id, ue, cell);
    case Cleaner(job, ce) => CleanerStepKeepsOtherCells(env, s, job, ce, cell);
    case _ =>
  }

  // Through any events but its own restore or purge, a recycled record keeps its snapshot and
  // every one of its ACTIVE rows, however many reconcile and cleanup passes run meanwhile.
  lemma {:induction false} RecycledRecordIsKept(env: Env, s: State, es: seq<Event>, rk: RecordKey, field: string)
    requires Assumed(env) && Inv(env, s) && Run(env, s, es)
    requires rk in s.recycled && Records(Restore(rk)) !in es && Records(Purge(rk)) !in es
    ensures var last := Exec(env, s, es);
            && rk in last.recycled && last.recycled[rk] == s.recycled[rk]
            && forall id ::
                 (id in last.registry && last.registry[id].status == Active && last.registry[id].cell == Cell(rk, field)) <==>
                 (id in s.registry && s.registry[id].status == Active && s.registry[id].cell == Cell(rk, field))
    ensures Inv(env, Exec(env, s, es)) && SameActiveRows(s.registry, Exec(env, s, es).registry, Cell(rk, field))
    decreases |es|
  {
    if es != [] {
      StepKeepsInv(env, s, es[0]);
      StepKeepsRecycled(env, s, es[0], rk);
      StepKeepsRecycledRows(env, s, es[0], Cell(rk, field));
      RecycledRecordIsKept(env, Apply(env, s, es[0]), es[1..], rk, field);
    }
  }

  // ---------------------------------------------------------------- purge is final

  predicate Purged(s: State, rk: RecordKey) {
    rk in s.usedRecords && rk !in s.live && rk !in s.recycled
  }

  predicate RowsOnlyShrink(before: Registry, after: Registry, rk: RecordKey) {
    forall id :: id in after && after[id].status == Active && after[id].cell.owner == rk ==>
      id in before && before[id].status == Active && before[id].cell.owner == rk
  }

  lemma RecordStepKeepsPurged(env: Env, s: State, e: RecordEvent, rk: RecordKey)
    requires env.recordIdsFresh && RecordEnabled(env, s, e) && Purged(s, rk)
    ensures Purged(ApplyRecord(env, s, e), rk)
  {
  }

  lemma StepKeepsPurged(env: Env, s: State, e: Event, rk: RecordKey)
    requires Assumed(env) && Enabled(env, s, e) && Purged(s, rk)
    ensures Purged(Apply(env, s, e), rk)
  {
    match e
    case Records(re) => RecordStepKeepsPurged(env, s, re, rk);
    case Writers(w, we) => WriterStepKeepsRecordSets(env, s, w, we);
    case Fields(fe) => FieldStepKeepsRecordSets(env, s, fe);
    case Uploads(id, ue) => UploadStepKeepsRecordSets(env, s, id, ue);
    case Cleaner(job, ce) => CleanerStepKeepsRecordSets(env, s, job, ce);
    case _ =>
  }

  lemma UploadStepShrinksPurgedRows(env: Env, s: State, id: Id, e: UploadEvent, rk: RecordKey)
    requires UploadEnabled(env, s, id, e) && Purged(s, rk)
    ensures RowsOnlyShrink(s.registry, ApplyUpload(env, s, id, e).registry, rk)
  {
  }

  lemma CleanerStepShrinksRows(env: Env, s: State, job: nat, e: CleanerEvent, rk: RecordKey)
    requires CleanerEnabled(env, s, job, e)
    ensures RowsOnlyShrink(s.registry, ApplyCleaner(env, s, job, e).registry, rk)
  {
  }

  lemma StepShrinksPurgedRows(env: Env, s: State, e: Event, rk: RecordKey)
    requires Enabled(env, s, e) && Purged(s, rk)
    ensures RowsOnlyShrink(s.registry, Apply(env, s, e).registry, rk)
  {
    match e
    case Records(re) => RecordStepKeepsRows(env, s, re);
    case Writers(w, we) => WriterStepKeepsRecordSets(env, s, w, we);
    case Fields(fe) => FieldStepKeepsRecordSets(env, s, fe);
    case Uploads(id, ue) => UploadStepShrinksPurgedRows(env, s, id, ue, rk);
    case Cleaner(job, ce) => CleanerStepShrinksRows(env, s, job, ce, rk);
    case _ =>
  }

  // Once purged, a record never returns and gains no ACTIVE row; those left are all orphans,
  // so a reconciler may pick each of them.
  lemma {:induction false} PurgeIsFinal(env: Env, s: State, es: seq<Event>, rk: RecordKey)
    requires Assumed(env) && Run(env, s, es)
    requires rk in s.usedRecords && rk !in s.live && rk !in s.recycled
    ensures var s' := Exec(env, s, es);
            && rk in s'.usedRecords && rk !in s'.live && rk !in s'.recycled
            && (forall id :: id in s'.registry && s'.registry[id].status == Active && s'.registry[id].cell.owner == rk ==>
                  id in s.registry && s.registry[id].status == Active && s.registry[id].cell.owner == rk)
            && forall id :: id in s'.registry && s'.registry[id].cell.owner == rk ==>
                 s'.registry[id].status == Active ==> Enabled(env, s', PickOrphan(id))
    decreases |es|
  {
    if es != [] {
      StepKeepsPurged(env, s, es[0], rk);
      StepShrinksPurgedRows(env, s, es[0], rk);
      PurgeIsFinal(env, Apply(env, s, es[0]), es[1..], rk);
    }
  }
}
