/** Safety of the attachment lifecycle over every interleaving, and why each assumption is needed. */
module AttachmentSafety {
  import opened AttachmentModel
  import opened AttachmentProtocol

  // ---------------------------------------------------------------- bookkeeping is inductive

  lemma RecordStepKeepsRest(env: Env, s: State, e: RecordEvent)
    requires RowsWellFormed(s) && NoLeakedObject(s) && UploadsWellFormed(env, s) && JobsWellFormed(env, s)
    requires RecordEnabled(env, s, e)
    ensures var s' := ApplyRecord(env, s, e);
            RowsWellFormed(s') && NoLeakedObject(s') && UploadsWellFormed(env, s') && JobsWellFormed(env, s')
  {
    var s' := ApplyRecord(env, s, e);
    assert s.usedRecords <= s'.usedRecords;
    forall id | id in s'.uploads
      ensures UploadWellFormed(env, s', id)
    {
      assert UploadWellFormed(env, s, id);
    }
  }

  lemma RecordStepKeepsRecords(env: Env, s: State, e: RecordEvent)
    requires env.recordIdsFresh && RowsWellFormed(s) && RecordsWellFormed(s) && OrphansWellFormed(s)
    requires RecordEnabled(env, s, e)
    ensures RecordsWellFormed(ApplyRecord(env, s, e)) && OrphansWellFormed(ApplyRecord(env, s, e))
  {
  }

  lemma RecordStepKeepsWriters(env: Env, s: State, e: RecordEvent)
    requires WritersWellFormed(s) && RecordEnabled(env, s, e)
    ensures WritersWellFormed(ApplyRecord(env, s, e))
  {
  }

  lemma RecordStepKeepsBookkeeping(env: Env, s: State, e: RecordEvent)
    requires Assumed(env) && Bookkeeping(env, s) && RecordEnabled(env, s, e)
    ensures Bookkeeping(env, ApplyRecord(env, s, e))
  {
    RecordStepKeepsRest(env, s, e);
    RecordStepKeepsRecords(env, s, e);
    RecordStepKeepsWriters(env, s, e);
  }

  lemma WriterStepSparesOthers(env: Env, s: State, w: nat, e: WriterEvent, v: nat)
    requires WritersWellFormed(s) && WriterEnabled(env, s, w, e) && v in s.writers && v != w
    ensures var s' := ApplyWriter(env, s, w, e);
            && v in s'.writers && s'.writers[v] == s.writers[v] && s.writers[v].rk in s'.live
            && s'.live[s.writers[v].rk] == s.writers[v].snapshot && Version(s', s.writers[v].rk) == s.writers[v].version
            && (w in s'.writers && s.writers[v].locked && s'.writers[w].locked ==> s'.writers[w].rk != s.writers[v].rk)
  {
  }

  lemma WriterStepKeepsWriters(env: Env, s: State, w: nat, e: WriterEvent)
    requires env.writersLockRows && WritersWellFormed(s) && WriterEnabled(env, s, w, e)
    ensures WritersWellFormed(ApplyWriter(env, s, w, e))
    ensures ApplyWriter(env, s, w, e).live.Keys == s.live.Keys
  {
    forall v | v in s.writers && v != w
      ensures var s' := ApplyWriter(env, s, w, e);
              && v in s'.writers && s'.writers[v] == s.writers[v] && s.writers[v].rk in s'.live
              && s'.live[s.writers[v].rk] == s.writers[v].snapshot && Version(s', s.writers[v].rk) == s.writers[v].version
              && (w in s'.writers && s.writers[v].locked && s'.writers[w].locked ==> s'.writers[w].rk != s.writers[v].rk)
    {
      WriterStepSparesOthers(env, s, w, e, v);
    }
  }

  lemma WriterStepKeepsUploads(env: Env, s: State, w: nat, e: WriterEvent)
    requires UploadsWellFormed(env, s) && JobsWellFormed(env, s) && WriterEnabled(env, s, w, e)
    ensures UploadsWellFormed(env, ApplyWriter(env, s, w, e)) && JobsWellFormed(env, ApplyWriter(env, s, w, e))
  {
    forall id | id in s.uploads
      ensures UploadWellFormed(env, ApplyWriter(env, s, w, e), id)
    {
      assert UploadWellFormed(env, s, id);
    }
  }

  lemma WriterStepKeepsBookkeeping(env: Env, s: State, w: nat, e: WriterEvent)
    requires Assumed(env) && Bookkeeping(env, s) && WriterEnabled(env, s, w, e)
    ensures Bookkeeping(env, ApplyWriter(env, s, w, e))
  {
    WriterStepKeepsWriters(env, s, w, e);
    WriterStepKeepsUploads(env, s, w, e);
  }

  lemma FieldStepKeepsBookkeeping(env: Env, s: State, e: FieldEvent)
    requires Assumed(env) && Bookkeeping(env, s) && FieldEnabled(env, s, e)
    ensures Bookkeeping(env, ApplyField(env, s, e))
  {
  }

  lemma UploadStepKeepsRows(env: Env, s: State, id: Id, e: UploadEvent)
    requires Assumed(env) && RowsWellFormed(s) && UploadsWellFormed(env, s) && UploadEnabled(env, s, id, e)
    ensures RowsWellFormed(ApplyUpload(env, s, id, e))
  {
  }

  lemma UploadStepKeepsItself(env: Env, s: State, id: Id, e: UploadEvent)
    requires Assumed(env) && RowsWellFormed(s) && UploadEnabled(env, s, id, e)
    requires id in s.uploads ==> UploadWellFormed(env, s, id)
    ensures id in ApplyUpload(env, s, id, e).uploads ==> UploadWellFormed(env, ApplyUpload(env, s, id, e), id)
  {
  }

  lemma UploadStepKeepsOthers(env: Env, s: State, id: Id, e: UploadEvent, other: Id)
    requires RowsWellFormed(s) && UploadEnabled(env, s, id, e)
    requires other != id && other in s.uploads && UploadWellFormed(env, s, other)
    ensures other in ApplyUpload(env, s, id, e).uploads
    ensures UploadWellFormed(env, ApplyUpload(env, s, id, e), other)
  {
  }

  lemma UploadStepKeepsUploads(env: Env, s: State, id: Id, e: UploadEvent)
    requires Assumed(env) && RowsWellFormed(s) && UploadsWellFormed(env, s) && UploadEnabled(env, s, id, e)
    ensures UploadsWellFormed(env, ApplyUpload(env, s, id, e))
  {
    var s' := ApplyUpload(env, s, id, e);
    forall other | other in s'.uploads
      ensures UploadWellFormed(env, s', other)
    {
      if other == id {
        UploadStepKeepsItself(env, s, id, e);
      } else {
        assert other in s.uploads;
        UploadStepKeepsOthers(env, s, id, e, other);
      }
    }
  }

  lemma UploadStepKeepsJobs(env: Env, s: State, id: Id, e: UploadEvent)
    requires Assumed(env) && UploadsWellFormed(env, s) && JobsWellFormed(env, s) && UploadEnabled(env, s, id, e)
    ensures JobsWellFormed(env, ApplyUpload(env, s, id, e))
  {
  }

  lemma UploadStepKeepsObjects(env: Env, s: State, id: Id, e: UploadEvent)
    requires Assumed(env) && RowsWellFormed(s) && NoLeakedObject(s) && UploadsWellFormed(env, s)
    requires UploadEnabled(env, s, id, e)
    ensures NoLeakedObject(ApplyUpload(env, s, id, e))
  {
  }

  lemma UploadStepKeepsRecords(env: Env, s: State, id: Id, e: UploadEvent)
    requires RecordsWellFormed(s) && OrphansWellFormed(s) && RowsWellFormed(s) && UploadsWellFormed(env, s)
    requires UploadEnabled(env, s, id, e)
    ensures RecordsWellFormed(ApplyUpload(env, s, id, e)) && OrphansWellFormed(ApplyUpload(env, s, id, e))
  {
  }

  lemma UploadStepKeepsBookkeeping(env: Env, s: State, id: Id, e: UploadEvent)
    requires Assumed(env) && Bookkeeping(env, s) && UploadEnabled(env, s, id, e)
    ensures Bookkeeping(env, ApplyUpload(env, s, id, e))
  {
    UploadStepKeepsRows(env, s, id, e);
    UploadStepKeepsUploads(env, s, id, e);
    UploadStepKeepsJobs(env, s, id, e);
    UploadStepKeepsObjects(env, s, id, e);
    UploadStepKeepsRecords(env, s, id, e);
    UploadStepKeepsWriters(env, s, id, e);
  }

  lemma UploadSparesLocked(env: Env, s: State, id: Id, e: UploadEvent, k: RecordKey)
    requires UploadEnabled(env, s, id, e) && RowLocked(s, k) && k in s.live
    ensures var s' := ApplyUpload(env, s, id, e);
            k in s'.live && s'.live[k] == s.live[k] && Version(s', k) == Version(s, k) && s'.writers == s.writers
  {
  }

  // The handlers wait for the row lock, so what a writer has loaded stays what the row holds.
  lemma UploadStepKeepsWriters(env: Env, s: State, id: Id, e: UploadEvent)
    requires WritersWellFormed(s) && UploadEnabled(env, s, id, e)
    ensures WritersWellFormed(ApplyUpload(env, s, id, e))
  {
    forall w | w in s.writers
      ensures var k, s' := s.writers[w].rk, ApplyUpload(env, s, id, e);
              k in s'.live && s'.live[k] == s.live[k] && Version(s', k) == Version(s, k) && s'.writers == s.writers
    {
      UploadSparesLocked(env, s, id, e, s.writers[w].rk);
    }
    UploadKeepsWriterSet(env, s, id, e);
  }

  lemma UploadKeepsWriterSet(env: Env, s: State, id: Id, e: UploadEvent)
    requires UploadEnabled(env, s, id, e)
    ensures ApplyUpload(env, s, id, e).writers == s.writers
  {
  }

  lemma CleanerStepKeepsWriters(env: Env, s: State, job: nat, e: CleanerEvent)
    requires WritersWellFormed(s) && CleanerEnabled(env, s, job, e)
    ensures WritersWellFormed(ApplyCleaner(env, s, job, e))
  {
  }

  lemma CleanerStepKeepsRows(env: Env, s: State, job: nat, e: CleanerEvent)
    requires RowsWellFormed(s) && JobsWellFormed(env, s) && CleanerEnabled(env, s, job, e)
    ensures RowsWellFormed(ApplyCleaner(env, s, job, e))
  {
  }

  lemma CleanerStepKeepsUploads(env: Env, s: State, job: nat, e: CleanerEvent)
    requires RowsWellFormed(s) && UploadsWellFormed(env, s) && JobsWellFormed(env, s)
    requires CleanerEnabled(env, s, job, e)
    ensures UploadsWellFormed(env, ApplyCleaner(env, s, job, e))
  {
    var s' := ApplyCleaner(env, s, job, e);
    forall id | id in s'.uploads
      ensures UploadWellFormed(env, s', id)
    {
      assert UploadWellFormed(env, s, id);
    }
  }

  lemma CleanerStepKeepsJobs(env: Env, s: State, job: nat, e: CleanerEvent)
    requires RowsWellFormed(s) && JobsWellFormed(env, s) && CleanerEnabled(env, s, job, e)
    ensures JobsWellFormed(env, ApplyCleaner(env, s, job, e))
  {
  }

  lemma CleanerStepKeepsObjects(env: Env, s: State, job: nat, e: CleanerEvent)
    requires RowsWellFormed(s) && NoLeakedObject(s) && JobsWellFormed(env, s) && CleanerEnabled(env, s, job, e)
    ensures NoLeakedObject(ApplyCleaner(env, s, job, e))
  {
  }

  lemma CleanerStepKeepsRecords(env: Env, s: State, job: nat, e: CleanerEvent)
    requires RecordsWellFormed(s) && OrphansWellFormed(s) && CleanerEnabled(env, s, job, e)
    ensures RecordsWellFormed(ApplyCleaner(env, s, job, e)) && OrphansWellFormed(ApplyCleaner(env, s, job, e))
  {
  }

  lemma CleanerStepKeepsBookkeeping(env: Env, s: State, job: nat, e: CleanerEvent)
    requires Bookkeeping(env, s) && CleanerEnabled(env, s, job, e)
    ensures Bookkeeping(env, ApplyCleaner(env, s, job, e))
  {
    CleanerStepKeepsRows(env, s, job, e);
    CleanerStepKeepsUploads(env, s, job, e);
    CleanerStepKeepsJobs(env, s, job, e);
    CleanerStepKeepsObjects(env, s, job, e);
    CleanerStepKeepsRecords(env, s, job, e);
    CleanerStepKeepsWriters(env, s, job, e);
  }

  lemma TickKeepsBookkeeping(env: Env, s: State, d: nat)
    requires Bookkeeping(env, s)
    ensures Bookkeeping(env, Apply(env, s, Tick(d)))
  {
    var s' := Apply(env, s, Tick(d));
    forall id | id in s'.uploads
      ensures UploadWellFormed(env, s', id)
    {
      assert UploadWellFormed(env, s, id);
    }
    forall j | j in s'.jobs
      ensures JobWellFormed(env, s', s'.jobs[j])
    {
      assert JobWellFormed(env, s, s.jobs[j]);
    }
  }

  lemma PickOrphanKeepsBookkeeping(env: Env, s: State, id: Id)
    requires Bookkeeping(env, s) && Enabled(env, s, PickOrphan(id))
    ensures Bookkeeping(env, Apply(env, s, PickOrphan(id)))
  {
    var s' := Apply(env, s, PickOrphan(id));
    assert id in s.uploads ==> UploadWellFormed(env, s, id);
    forall u | u in s'.uploads
      ensures UploadWellFormed(env, s', u)
    {
      assert UploadWellFormed(env, s, u);
    }
  }

  lemma MarkOrphanKeepsBookkeeping(env: Env, s: State, id: Id)
    requires Bookkeeping(env, s) && Enabled(env, s, MarkOrphan(id))
    ensures Bookkeeping(env, Apply(env, s, MarkOrphan(id)))
  {
    var s' := Apply(env, s, MarkOrphan(id));
    forall u | u in s'.uploads
      ensures UploadWellFormed(env, s', u)
    {
      assert UploadWellFormed(env, s, u) && u != id;
    }
    forall j | j in s'.jobs
      ensures JobWellFormed(env, s', s'.jobs[j])
    {
      assert JobWellFormed(env, s, s.jobs[j]);
    }
  }

  lemma StepKeepsBookkeeping(env: Env, s: State, e: Event)
    requires Assumed(env) && Bookkeeping(env, s) && Enabled(env, s, e)
    ensures Bookkeeping(env, Apply(env, s, e))
  {
    match e
    case Records(re) => RecordStepKeepsBookkeeping(env, s, re);
    case Writers(w, we) => WriterStepKeepsBookkeeping(env, s, w, we);
    case Fields(fe) => FieldStepKeepsBookkeeping(env, s, fe);
    case Uploads(id, ue) => UploadStepKeepsBookkeeping(env, s, id, ue);
    case Cleaner(job, ce) => CleanerStepKeepsBookkeeping(env, s, job, ce);
    case Tick(d) => TickKeepsBookkeeping(env, s, d);
    case PickOrphan(id) => PickOrphanKeepsBookkeeping(env, s, id);
    case MarkOrphan(id) => MarkOrphanKeepsBookkeeping(env, s, id);
  }

  // ---------------------------------------------------------------- exactness is inductive

  lemma UploadTouchesOneRow(env: Env, s: State, id: Id, e: UploadEvent)
    requires UploadEnabled(env, s, id, e)
    ensures var after := ApplyUpload(env, s, id, e).registry;
            && (forall x :: x != id ==> (x in s.registry <==> x in after))
            && (forall x :: x != id && x in after ==> after[x] == s.registry[x])
            && (id in after && after[id].status == Active ==>
                  id in s.registry && s.registry[id].cell == after[id].cell
                  && (e == Activate || e == ActivateCommitsThenRaises || after[id] == s.registry[id]))
  {
  }

  lemma UploadStepKeepsOtherCells(env: Env, s: State, id: Id, e: UploadEvent, cell: Cell)
    requires RowsWellFormed(s) && UploadsWellFormed(env, s) && UploadEnabled(env, s, id, e)
    requires (e == Activate || e == ActivateCommitsThenRaises) ==> s.registry[id].cell != cell
    ensures SameActiveRows(s.registry, ApplyUpload(env, s, id, e).registry, cell)
  {
    assert id in s.uploads ==> UploadWellFormed(env, s, id);
    UploadTouchesOneRow(env, s, id, e);
  }

  lemma CleanerStepKeepsOtherCells(env: Env, s: State, job: nat, e: CleanerEvent, cell: Cell)
    requires JobsWellFormed(env, s) && CleanerEnabled(env, s, job, e)
    requires e.Detach? ==> s.registry[e.id].cell != cell
    ensures SameActiveRows(s.registry, ApplyCleaner(env, s, job, e).registry, cell)
  {
  }

  // A cell value and the registry agree in the state after an upload step.
  lemma UploadStepKeepsCell(env: Env, s: State, id: Id, e: UploadEvent, rk: RecordKey, f: string)
    requires env.updateIsAtomic && RowsWellFormed(s) && UploadsWellFormed(env, s) && UploadEnabled(env, s, id, e)
    requires rk in s.live && SoundCell(s.fields, s.registry, Cell(rk, f), Value(s.live[rk], f))
    ensures var s' := ApplyUpload(env, s, id, e);
            rk in s'.live && SoundCell(s'.fields, s'.registry, Cell(rk, f), Value(s'.live[rk], f))
  {
    var s' := ApplyUpload(env, s, id, e);
    if e == Activate && s.registry[id].cell == Cell(rk, f) {
      assert Value(s'.live[rk], f) == RefsAfterActivation(s, id);
    } else {
      UploadStepKeepsOtherCells(env, s, id, e, Cell(rk, f));
      SoundCellDependsOnActiveRows(s.fields, s.registry, s'.registry, Cell(rk, f), Value(s.live[rk], f));
    }
  }

  lemma UploadStepKeepsSnapshot(env: Env, s: State, id: Id, e: UploadEvent, rk: RecordKey, f: string)
    requires RowsWellFormed(s) && UploadsWellFormed(env, s) && UploadEnabled(env, s, id, e)
    requires rk in s.recycled && rk !in s.live
    requires SoundCell(s.fields, s.registry, Cell(rk, f), Value(s.recycled[rk], f))
    ensures SoundCell(s.fields, ApplyUpload(env, s, id, e).registry, Cell(rk, f), Value(s.recycled[rk], f))
  {
    UploadStepKeepsOtherCells(env, s, id, e, Cell(rk, f));
    SoundCellDependsOnActiveRows(s.fields, s.registry, ApplyUpload(env, s, id, e).registry, Cell(rk, f),
                                 Value(s.recycled[rk], f));
  }

  lemma UploadStepKeepsSets(env: Env, s: State, id: Id, e: UploadEvent)
    requires UploadEnabled(env, s, id, e)
    ensures var s' := ApplyUpload(env, s, id, e);
            s'.live.Keys == s.live.Keys && s'.recycled == s.recycled && s'.fields == s.fields
  {
  }

  lemma UploadStepKeepsExactness(env: Env, s: State, id: Id, e: UploadEvent)
    requires Assumed(env) && Bookkeeping(env, s) && ExactSets(s) && ExactSnapshots(s)
    requires UploadEnabled(env, s, id, e)
    ensures ExactSets(ApplyUpload(env, s, id, e)) && ExactSnapshots(ApplyUpload(env, s, id, e))
  {
    var s' := ApplyUpload(env, s, id, e);
    UploadStepKeepsSets(env, s, id, e);
    forall rk, f | rk in s'.live
      ensures SoundCell(s'.fields, s'.registry, Cell(rk, f), Value(s'.live[rk], f))
    {
      UploadStepKeepsCell(env, s, id, e, rk, f);
    }
    forall rk, f | rk in s'.recycled
      ensures SoundCell(s'.fields, s'.registry, Cell(rk, f), Value(s'.recycled[rk], f))
    {
      UploadStepKeepsSnapshot(env, s, id, e, rk, f);
    }
  }

  lemma CleanerStepKeepsCell(env: Env, s: State, job: nat, e: CleanerEvent, rk: RecordKey, f: string)
    requires JobsWellFormed(env, s) && CleanerEnabled(env, s, job, e)
    requires rk in s.live && SoundCell(s.fields, s.registry, Cell(rk, f), Value(s.live[rk], f))
    ensures var s' := ApplyCleaner(env, s, job, e);
            rk in s'.live && SoundCell(s'.fields, s'.registry, Cell(rk, f), Value(s'.live[rk], f))
  {
    var s' := ApplyCleaner(env, s, job, e);
    if e.Detach? && s.registry[e.id].cell == Cell(rk, f) {
      assert Value(s'.live[rk], f) == RefsAfterDetach(s, e.id);
    } else {
      CleanerStepKeepsOtherCells(env, s, job, e, Cell(rk, f));
      SoundCellDependsOnActiveRows(s.fields, s.registry, s'.registry, Cell(rk, f), Value(s.live[rk], f));
    }
  }

  lemma CleanerStepKeepsSnapshot(env: Env, s: State, job: nat, e: CleanerEvent, rk: RecordKey, f: string)
    requires JobsWellFormed(env, s) && CleanerEnabled(env, s, job, e) && rk !in s.live
    requires rk in s.recycled && SoundCell(s.fields, s.registry, Cell(rk, f), Value(s.recycled[rk], f))
    ensures SoundCell(s.fields, ApplyCleaner(env, s, job, e).registry, Cell(rk, f), Value(s.recycled[rk], f))
  {
    CleanerStepKeepsOtherCells(env, s, job, e, Cell(rk, f));
    SoundCellDependsOnActiveRows(s.fields, s.registry, ApplyCleaner(env, s, job, e).registry, Cell(rk, f),
                                 Value(s.recycled[rk], f));
  }

  lemma CleanerStepKeepsSets(env: Env, s: State, job: nat, e: CleanerEvent)
    requires CleanerEnabled(env, s, job, e)
    ensures var s' := ApplyCleaner(env, s, job, e);
            s'.live.Keys == s.live.Keys && s'.recycled == s.recycled && s'.fields == s.fields
  {
  }

  lemma CleanerStepKeepsExactness(env: Env, s: State, job: nat, e: CleanerEvent)
    requires Bookkeeping(env, s) && ExactSets(s) && ExactSnapshots(s) && CleanerEnabled(env, s, job, e)
    ensures ExactSets(ApplyCleaner(env, s, job, e)) && ExactSnapshots(ApplyCleaner(env, s, job, e))
  {
    var s' := ApplyCleaner(env, s, job, e);
    CleanerStepKeepsSets(env, s, job, e);
    forall rk, f | rk in s'.live
      ensures SoundCell(s'.fields, s'.registry, Cell(rk, f), Value(s'.live[rk], f))
    {
      CleanerStepKeepsCell(env, s, job, e, rk, f);
    }
    forall rk, f | rk in s'.recycled
      ensures SoundCell(s'.fields, s'.registry, Cell(rk, f), Value(s'.recycled[rk], f))
    {
      CleanerStepKeepsSnapshot(env, s, job, e, rk, f);
    }
  }

  // A record id never used before has no rows, so an accepted new record starts with empty cells.
  lemma FreshRecordHasNoRows(s: State, cell: Cell)
    requires RowsWellFormed(s) && cell.owner !in s.usedRecords
    ensures ActiveIds(s.registry, cell) == {} && ExactCell(s.registry, cell, [])
  {
  }

  lemma RecordStepKeepsExactness(env: Env, s: State, e: RecordEvent)
    requires Assumed(env) && Bookkeeping(env, s) && ExactSets(s) && ExactSnapshots(s) && RecordEnabled(env, s, e)
    ensures ExactSets(ApplyRecord(env, s, e)) && ExactSnapshots(ApplyRecord(env, s, e))
  {
    var s' := ApplyRecord(env, s, e);
    forall rk, f | rk in s'.live
      ensures SoundCell(s'.fields, s'.registry, Cell(rk, f), Value(s'.live[rk], f))
    {
      if e.CreateRecord? && rk == e.rk {
        FreshRecordHasNoRows(s, Cell(rk, f));
      }
    }
  }

  lemma WriterStepKeepsExactness(env: Env, s: State, w: nat, e: WriterEvent)
    requires Bookkeeping(env, s) && ExactSets(s) && ExactSnapshots(s) && WriterEnabled(env, s, w, e)
    ensures ExactSets(ApplyWriter(env, s, w, e)) && ExactSnapshots(ApplyWriter(env, s, w, e))
  {
    var s' := ApplyWriter(env, s, w, e);
    forall rk, f | rk in s'.live
      ensures SoundCell(s'.fields, s'.registry, Cell(rk, f), Value(s'.live[rk], f))
    {
      assert SoundCell(s.fields, s.registry, Cell(rk, f), Value(s.live[rk], f));
    }
  }

  // A field that becomes an attachment field is empty everywhere and has no rows yet.
  lemma FieldStepKeepsExactness(env: Env, s: State, e: FieldEvent)
    requires Assumed(env) && ExactSets(s) && ExactSnapshots(s) && FieldEnabled(env, s, e)
    ensures ExactSets(ApplyField(env, s, e)) && ExactSnapshots(ApplyField(env, s, e))
  {
    var s' := ApplyField(env, s, e);
    forall rk, f | rk in s'.live
      ensures SoundCell(s'.fields, s'.registry, Cell(rk, f), Value(s'.live[rk], f))
    {
      assert SoundCell(s.fields, s.registry, Cell(rk, f), Value(s.live[rk], f));
    }
    forall rk, f | rk in s'.recycled
      ensures SoundCell(s'.fields, s'.registry, Cell(rk, f), Value(s'.recycled[rk], f))
    {
      assert SoundCell(s.fields, s.registry, Cell(rk, f), Value(s.recycled[rk], f));
    }
  }

  lemma MarkOrphanKeepsExactness(env: Env, s: State, id: Id)
    requires Bookkeeping(env, s) && ExactSets(s) && ExactSnapshots(s) && Enabled(env, s, MarkOrphan(id))
    ensures ExactSets(Apply(env, s, MarkOrphan(id))) && ExactSnapshots(Apply(env, s, MarkOrphan(id)))
  {
    var s' := Apply(env, s, MarkOrphan(id));
    forall rk, f | rk in s.live
      ensures SoundCell(s'.fields, s'.registry, Cell(rk, f), Value(s.live[rk], f))
    {
      SoundCellDependsOnActiveRows(s.fields, s.registry, s'.registry, Cell(rk, f), Value(s.live[rk], f));
    }
    forall rk, f | rk in s.recycled
      ensures SoundCell(s'.fields, s'.registry, Cell(rk, f), Value(s.recycled[rk], f))
    {
      SoundCellDependsOnActiveRows(s.fields, s.registry, s'.registry, Cell(rk, f), Value(s.recycled[rk], f));
    }
  }

  lemma StepKeepsInv(env: Env, s: State, e: Event)
    requires Assumed(env) && Inv(env, s) && Enabled(env, s, e)
    ensures Inv(env, Apply(env, s, e))
  {
    StepKeepsBookkeeping(env, s, e);
    match e
    case Records(re) => RecordStepKeepsExactness(env, s, re);
    case Writers(w, we) => WriterStepKeepsExactness(env, s, w, we);
    case Fields(fe) => FieldStepKeepsExactness(env, s, fe);
    case Uploads(id, ue) => UploadStepKeepsExactness(env, s, id, ue);
    case Cleaner(job, ce) => CleanerStepKeepsExactness(env, s, job, ce);
    case MarkOrphan(id) => MarkOrphanKeepsExactness(env, s, id);
    case _ =>
  }

  lemma {:induction false} RunKeepsInv(env: Env, s: State, es: seq<Event>)
    requires Assumed(env) && Inv(env, s) && Run(env, s, es)
    ensures Inv(env, Exec(env, s, es))
    decreases |es|
  {
    if es != [] {
      StepKeepsInv(env, s, es[0]);
      RunKeepsInv(env, Apply(env, s, es[0]), es[1..]);
    }
  }

  // An exact live cell names only ACTIVE rows, and an ACTIVE row always has its object.
  lemma InvImpliesSafe(env: Env, s: State)
    requires Inv(env, s)
    ensures Safe(s)
  {
    forall rk, f, r | rk in s.live && f in s.live[rk] && IsAttachment(s, Cell(rk, f)) && r in s.live[rk][f]
      ensures IsActiveIn(s.registry, Cell(rk, f), r.id) && s.registry[r.id].key == r.key && r.key in s.objects
    {
      assert SoundCell(s.fields, s.registry, Cell(rk, f), Value(s.live[rk], f));
      assert r.id in Ids(Value(s.live[rk], f));
    }
  }

  // The main theorem: no interleaving from the empty system dangles, leaks or drifts. What an attachment cell of a live
  // record lists is ACTIVE in that cell and stored, what is stored has its row, and the ACTIVE row of a live record is
  // listed in its cell, once.
  lemma EveryReachableStateIsSafe(env: Env, es: seq<Event>)
    requires Assumed(env) && Run(env, INIT, es)
    ensures Safe(Exec(env, INIT, es))
    ensures var s := Exec(env, INIT, es);
            && (forall rk, f, r :: rk in s.live && f in s.live[rk] && FieldKey(rk.table, f) in s.fields && r in s.live[rk][f] ==>
                  && r.id in s.registry && s.registry[r.id].status == Active && s.registry[r.id].cell == Cell(rk, f)
                  && s.registry[r.id].key == r.key && r.key in s.objects)
            && (forall k :: k in s.objects ==> k.id in s.registry && s.registry[k.id].key == k)
            && (forall id :: id in s.registry && s.registry[id].status == Active && s.registry[id].cell.owner in s.live ==>
                  var cell := s.registry[id].cell;
                  cell.field in s.live[cell.owner] && exists r :: r in s.live[cell.owner][cell.field] && r.id == id)
            && (forall rk, f :: rk in s.live && f in s.live[rk] && FieldKey(rk.table, f) in s.fields ==>
                  forall i, j :: 0 <= i < j < |s.live[rk][f]| ==> s.live[rk][f][i].id != s.live[rk][f][j].id)
  {
    RunKeepsInv(env, INIT, es);
    InvImpliesSafe(env, Exec(env, INIT, es));
    SafeLists(Exec(env, INIT, es));
  }

  lemma SafeLists(s: State)
    requires ExactSets(s)
    ensures forall id :: id in s.registry && s.registry[id].status == Active && s.registry[id].cell.owner in s.live ==>
              var cell := s.registry[id].cell;
              cell.field in s.live[cell.owner] && exists r :: r in s.live[cell.owner][cell.field] && r.id == id
    ensures forall rk, f :: rk in s.live && f in s.live[rk] && FieldKey(rk.table, f) in s.fields ==>
              forall i, j :: 0 <= i < j < |s.live[rk][f]| ==> s.live[rk][f][i].id != s.live[rk][f][j].id
  {
    forall id | id in s.registry && s.registry[id].status == Active && s.registry[id].cell.owner in s.live
      ensures var cell := s.registry[id].cell;
              cell.field in s.live[cell.owner] && exists r :: r in s.live[cell.owner][cell.field] && r.id == id
    {
      var cell := s.registry[id].cell;
      var refs := Value(s.live[cell.owner], cell.field);
      assert SoundCell(s.fields, s.registry, Cell(cell.owner, cell.field), refs);
      assert IsActiveIn(s.registry, cell, id) && id in ActiveIds(s.registry, cell);
      var r :| r in refs && r.id == id;
    }
    forall rk, f | rk in s.live && f in s.live[rk] && FieldKey(rk.table, f) in s.fields
      ensures DistinctIds(s.live[rk][f])
    {
      assert SoundCell(s.fields, s.registry, Cell(rk, f), Value(s.live[rk], f));
    }
  }
}
