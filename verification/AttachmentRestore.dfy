/**
 Restoring a recycled record undoes the whole change set of its deletion, with the links that took out of other
 records: when that goes through, and what it brings back.
 */
module AttachmentRestore {
  import opened AttachmentModel
  import opened AttachmentProtocol
  import opened AttachmentSafety
  import opened AttachmentLifecycle
  import opened AttachmentAssumptions

  // The steps that give a live record a new version or take it away
  predicate Touches(s: State, e: Event, k: RecordKey) {
    match e
    case Records(SoftDelete(rk, linked)) => k == rk || k in linked
    case Records(Restore(rk)) => k == rk || k in LinksOf(s, rk)
    case Writers(w, Flush(_, versioned)) => versioned && w in s.writers && s.writers[w].rk == k
    case Uploads(id, Activate) => id in s.registry && s.registry[id].cell.owner == k
    case Cleaner(_, Detach(id)) => id in s.registry && s.registry[id].cell.owner == k
    case _ => false
  }

  predicate TouchedOn(env: Env, s: State, es: seq<Event>, k: RecordKey)
    requires Run(env, s, es)
    decreases |es|
  {
    es != [] && (Touches(s, es[0], k) || TouchedOn(env, Apply(env, s, es[0]), es[1..], k))
  }

  // ---------------------------------------------------------------- versions tell whether a record was touched

  // A step raises the version of what it touches, and spares the rest.
  predicate VersionTells(s: State, s': State, k: RecordKey, touched: bool) {
    && k in s'.usedRecords
    && (if touched then Version(s', k) > Version(s, k)
        else Version(s', k) == Version(s, k) && (k in s.live <==> k in s'.live))
  }

  lemma RecordVersionTells(env: Env, s: State, e: RecordEvent, k: RecordKey)
    requires env.recordIdsFresh && RecordEnabled(env, s, e) && k in s.usedRecords
    ensures VersionTells(s, ApplyRecord(env, s, e), k, Touches(s, Records(e), k))
  {
  }

  lemma WriterVersionTells(env: Env, s: State, w: nat, e: WriterEvent, k: RecordKey)
    requires WritersWellFormed(s) && WriterEnabled(env, s, w, e) && k in s.usedRecords
    ensures VersionTells(s, ApplyWriter(env, s, w, e), k, Touches(s, Writers(w, e), k))
  {
  }

  lemma FieldVersionTells(env: Env, s: State, e: FieldEvent, k: RecordKey)
    requires FieldEnabled(env, s, e) && k in s.usedRecords
    ensures VersionTells(s, ApplyField(env, s, e), k, false)
  {
  }

  lemma UploadVersionTells(env: Env, s: State, id: Id, e: UploadEvent, k: RecordKey)
    requires env.updateIsAtomic && UploadEnabled(env, s, id, e) && k in s.usedRecords
    ensures VersionTells(s, ApplyUpload(env, s, id, e), k, Touches(s, Uploads(id, e), k))
  {
  }

  lemma CleanerVersionTells(env: Env, s: State, job: nat, e: CleanerEvent, k: RecordKey)
    requires CleanerEnabled(env, s, job, e) && k in s.usedRecords
    ensures VersionTells(s, ApplyCleaner(env, s, job, e), k, Touches(s, Cleaner(job, e), k))
  {
  }

  lemma StepVersionTells(env: Env, s: State, e: Event, k: RecordKey)
    requires Assumed(env) && WritersWellFormed(s) && Enabled(env, s, e) && k in s.usedRecords
    ensures VersionTells(s, Apply(env, s, e), k, Touches(s, e, k))
  {
    match e
    case Records(re) => RecordVersionTells(env, s, re, k);
    case Writers(w, we) => WriterVersionTells(env, s, w, we, k);
    case Fields(fe) => FieldVersionTells(env, s, fe, k);
    case Uploads(id, ue) => UploadVersionTells(env, s, id, ue, k);
    case Cleaner(job, ce) => CleanerVersionTells(env, s, job, ce, k);
    case _ =>
  }

  lemma {:induction false} RunVersionTells(env: Env, s: State, es: seq<Event>, k: RecordKey)
    requires Assumed(env) && Inv(env, s) && Run(env, s, es) && k in s.usedRecords
    ensures VersionTells(s, Exec(env, s, es), k, TouchedOn(env, s, es, k))
    decreases |es|
  {
    if es != [] {
      StepKeepsInv(env, s, es[0]);
      StepVersionTells(env, s, es[0], k);
      RunVersionTells(env, Apply(env, s, es[0]), es[1..], k);
      if Touches(s, es[0], k) && !TouchedOn(env, Apply(env, s, es[0]), es[1..], k) {
        assert Version(Exec(env, s, es), k) == Version(Apply(env, s, es[0]), k);
      }
    }
  }

  // ---------------------------------------------------------------- what restoring would put back is sound

  // A record changed by a deletion never has a lower version since, and while it has that one, what restoring would
  // put back into it is sound.
  ghost predicate LinkSound(s: State, k: RecordKey, link: Link) {
    && k in s.usedRecords && Version(s, k) >= link.version
    && (LinkUntouched(s, k, link) ==> forall f :: SoundCell(s.fields, s.registry, Cell(k, f), Value(link.before, f)))
  }

  ghost predicate LinksSound(s: State) {
    forall rk, k :: rk in s.links && k in s.links[rk] ==> LinkSound(s, k, s.links[rk][k])
  }

  lemma UploadSparesCells(env: Env, s: State, id: Id, e: UploadEvent, cell: Cell)
    requires env.updateIsAtomic && RowsWellFormed(s) && UploadsWellFormed(env, s) && UploadEnabled(env, s, id, e)
    requires !Touches(s, Uploads(id, e), cell.owner)
    ensures SameActiveRows(s.registry, ApplyUpload(env, s, id, e).registry, cell)
  {
    UploadStepKeepsOtherCells(env, s, id, e, cell);
  }

  lemma CleanerSparesCells(env: Env, s: State, job: nat, e: CleanerEvent, cell: Cell)
    requires JobsWellFormed(env, s) && CleanerEnabled(env, s, job, e)
    requires !Touches(s, Cleaner(job, e), cell.owner)
    ensures SameActiveRows(s.registry, ApplyCleaner(env, s, job, e).registry, cell)
  {
    CleanerStepKeepsOtherCells(env, s, job, e, cell);
  }

  lemma MarkSparesCells(env: Env, s: State, id: Id, cell: Cell)
    requires OrphansWellFormed(s) && Enabled(env, s, MarkOrphan(id)) && cell.owner in s.live
    ensures SameActiveRows(s.registry, Apply(env, s, MarkOrphan(id)).registry, cell)
  {
  }

  // A record nobody touches keeps its ACTIVE rows.
  lemma UntouchedKeepsRows(env: Env, s: State, e: Event, cell: Cell)
    requires Assumed(env) && Bookkeeping(env, s) && Enabled(env, s, e)
    requires cell.owner in s.live && !Touches(s, e, cell.owner)
    ensures SameActiveRows(s.registry, Apply(env, s, e).registry, cell)
  {
    match e
    case Records(re) => RecordStepKeepsRows(env, s, re);
    case Writers(w, we) => WriterStepKeepsRecordSets(env, s, w, we);
    case Fields(fe) => FieldStepKeepsRecordSets(env, s, fe);
    case Uploads(id, ue) => UploadSparesCells(env, s, id, ue, cell);
    case Cleaner(job, ce) => CleanerSparesCells(env, s, job, ce, cell);
    case MarkOrphan(id) => MarkSparesCells(env, s, id, cell);
    case _ =>
  }

  lemma StepKeepsFields(env: Env, s: State, e: Event)
    requires env.fieldsStay && Enabled(env, s, e) && !(e.Fields? && e.fe.AddField?)
    ensures Apply(env, s, e).fields == s.fields
  {
    match e
    case Uploads(id, ue) => UploadStepKeepsSets(env, s, id, ue);
    case Cleaner(job, ce) => CleanerStepKeepsSets(env, s, job, ce);
    case _ =>
  }

  lemma LinkStays(env: Env, s: State, e: Event, k: RecordKey, link: Link)
    requires Assumed(env) && Bookkeeping(env, s) && Enabled(env, s, e) && LinkSound(s, k, link)
    requires !(e.Fields? && e.fe.AddField?)
    ensures LinkSound(Apply(env, s, e), k, link)
  {
    var s' := Apply(env, s, e);
    StepVersionTells(env, s, e, k);
    if LinkUntouched(s', k, link) {
      assert LinkUntouched(s, k, link);
      StepKeepsFields(env, s, e);
      forall f
        ensures SoundCell(s'.fields, s'.registry, Cell(k, f), Value(link.before, f))
      {
        UntouchedKeepsRows(env, s, e, Cell(k, f));
        SoundCellDependsOnActiveRows(s.fields, s.registry, s'.registry, Cell(k, f), Value(link.before, f));
      }
    }
  }

  lemma NewFieldKeepsLinks(env: Env, s: State, fk: FieldKey)
    requires Assumed(env) && LinksSound(s) && FieldEnabled(env, s, AddField(fk))
    ensures LinksSound(ApplyField(env, s, AddField(fk)))
  {
    var s' := ApplyField(env, s, AddField(fk));
    forall rk, k | rk in s'.links && k in s'.links[rk]
      ensures LinkSound(s', k, s'.links[rk][k])
    {
      var link := s.links[rk][k];
      assert LinkSound(s, k, link);
      forall f | LinkUntouched(s', k, link)
        ensures SoundCell(s'.fields, s'.registry, Cell(k, f), Value(link.before, f))
      {
        assert LinkUntouched(s, k, link);
        assert SoundCell(s.fields, s.registry, Cell(k, f), Value(link.before, f));
      }
    }
  }

  lemma NewLinkSound(env: Env, s: State, rk: RecordKey, linked: set<RecordKey>, k: RecordKey)
    requires Bookkeeping(env, s) && ExactSets(s) && RecordEnabled(env, s, SoftDelete(rk, linked)) && k in linked
    ensures LinkSound(Deleted(s, rk, linked), k, Link(Version(s, k) + 1, s.live[k]))
  {
    forall f
      ensures SoundCell(s.fields, s.registry, Cell(k, f), Value(s.live[k], f))
    {
    }
  }

  // Links come with a deletion, stay as they are, and go with the record's restore or purge.
  lemma RecordOldLinks(env: Env, s: State, e: RecordEvent, rk: RecordKey)
    requires RecordEnabled(env, s, e) && !(e.SoftDelete? && e.rk == rk)
    ensures rk in ApplyRecord(env, s, e).links ==> rk in s.links && ApplyRecord(env, s, e).links[rk] == s.links[rk]
    ensures rk in s.links && e != Restore(rk) && e != Purge(rk) ==> rk in ApplyRecord(env, s, e).links
  {
  }

  lemma OtherStepKeepsLinks(env: Env, s: State, e: Event)
    requires Enabled(env, s, e) && !e.Records?
    ensures Apply(env, s, e).links == s.links
  {
    match e
    case Writers(w, we) => WriterStepKeepsRecordSets(env, s, w, we);
    case Fields(fe) => FieldStepKeepsRecordSets(env, s, fe);
    case Uploads(id, ue) => UploadStepKeepsLinks(env, s, id, ue);
    case Cleaner(job, ce) => CleanerStepKeepsLinks(env, s, job, ce);
    case _ =>
  }

  lemma OldLinks(env: Env, s: State, e: Event, rk: RecordKey)
    requires Enabled(env, s, e) && rk in Apply(env, s, e).links && !(e.Records? && e.re.SoftDelete? && e.re.rk == rk)
    ensures rk in s.links && Apply(env, s, e).links[rk] == s.links[rk]
  {
    if e.Records? {
      RecordOldLinks(env, s, e.re, rk);
    } else {
      OtherStepKeepsLinks(env, s, e);
    }
  }

  lemma UploadStepKeepsLinks(env: Env, s: State, id: Id, e: UploadEvent)
    requires UploadEnabled(env, s, id, e)
    ensures ApplyUpload(env, s, id, e).links == s.links
  {
  }

  lemma CleanerStepKeepsLinks(env: Env, s: State, job: nat, e: CleanerEvent)
    requires CleanerEnabled(env, s, job, e)
    ensures ApplyCleaner(env, s, job, e).links == s.links
  {
  }

  lemma StepKeepsLinksSound(env: Env, s: State, e: Event)
    requires Assumed(env) && Inv(env, s) && LinksSound(s) && Enabled(env, s, e)
    ensures LinksSound(Apply(env, s, e))
  {
    var s' := Apply(env, s, e);
    if e.Fields? && e.fe.AddField? {
      NewFieldKeepsLinks(env, s, e.fe.fk);
    } else {
      forall rk, k | rk in s'.links && k in s'.links[rk]
        ensures LinkSound(s', k, s'.links[rk][k])
      {
        if e.Records? && e.re.SoftDelete? && e.re.rk == rk {
          NewLinkSound(env, s, rk, e.re.linked, k);
        } else {
          OldLinks(env, s, e, rk);
          LinkStays(env, s, e, k, s.links[rk][k]);
        }
      }
    }
  }

  lemma {:induction false} RunKeepsLinksSound(env: Env, s: State, es: seq<Event>)
    requires Assumed(env) && Inv(env, s) && LinksSound(s) && Run(env, s, es)
    ensures Inv(env, Exec(env, s, es)) && LinksSound(Exec(env, s, es))
    decreases |es|
  {
    if es != [] {
      StepKeepsInv(env, s, es[0]);
      StepKeepsLinksSound(env, s, es[0]);
      RunKeepsLinksSound(env, Apply(env, s, es[0]), es[1..]);
    }
  }

  // ---------------------------------------------------------------- when a record can be restored

  // The flush hook never stands in the way: neither of the record itself, nor of what its deletion changed as long
  // as nobody has touched that.
  lemma HookLetsRestore(env: Env, s: State, rk: RecordKey)
    requires Inv(env, s) && LinksSound(s) && rk in s.recycled
    ensures HookAcceptsNew(s, rk, s.recycled[rk])
    ensures Restorable(s, rk) <==> forall k :: k in LinksOf(s, rk) ==> LinkUntouched(s, k, LinksOf(s, rk)[k])
  {
    forall f | f in s.recycled[rk] && IsAttachment(s, Cell(rk, f))
      ensures ExactCell(s.registry, Cell(rk, f), s.recycled[rk][f])
    {
      assert SoundCell(s.fields, s.registry, Cell(rk, f), Value(s.recycled[rk], f));
    }
    forall k | k in LinksOf(s, rk) && LinkUntouched(s, k, LinksOf(s, rk)[k])
      ensures HookAcceptsWrite(s, k, s.live[k], LinksOf(s, rk)[k].before)
    {
      assert LinkSound(s, k, s.links[rk][k]);
    }
  }

  lemma {:induction false} LinksAreKept(env: Env, s: State, es: seq<Event>, rk: RecordKey)
    requires Assumed(env) && Inv(env, s) && Run(env, s, es) && rk in s.recycled && rk in s.links
    requires Records(Restore(rk)) !in es && Records(Purge(rk)) !in es
    ensures rk in Exec(env, s, es).links && Exec(env, s, es).links[rk] == s.links[rk]
    decreases |es|
  {
    if es != [] {
      StepKeepsInv(env, s, es[0]);
      StepKeepsRecycled(env, s, es[0], rk);
      StepKeepsItsLinks(env, s, es[0], rk);
      LinksAreKept(env, Apply(env, s, es[0]), es[1..], rk);
    }
  }

  lemma StepKeepsItsLinks(env: Env, s: State, e: Event, rk: RecordKey)
    requires RecordsWellFormed(s) && Enabled(env, s, e) && rk in s.recycled && rk in s.links
    requires e != Records(Restore(rk)) && e != Records(Purge(rk))
    ensures rk in Apply(env, s, e).links && Apply(env, s, e).links[rk] == s.links[rk]
  {
    if e.Records? {
      assert e.re.SoftDelete? ==> e.re.rk in s.live;
      RecordOldLinks(env, s, e.re, rk);
    } else {
      OtherStepKeepsLinks(env, s, e);
    }
  }

  // The state after deleting a record whose deletion takes links out of others
  function AfterDeletion(env: Env, s: State, rk: RecordKey, linked: set<RecordKey>): State
    requires Enabled(env, s, Records(SoftDelete(rk, linked)))
  {
    Apply(env, s, Records(SoftDelete(rk, linked)))
  }

  lemma DeletionNotesLinks(s: State, rk: RecordKey, linked: set<RecordKey>)
    requires RecordsWellFormed(s) && rk in s.live && linked <= s.live.Keys && rk !in linked
    ensures var deleted := Deleted(s, rk, linked);
            && Kept(deleted, rk, s.live[rk]) && rk in deleted.links && deleted.links[rk].Keys == linked
            && forall k :: k in linked ==>
                 k in deleted.usedRecords && LinkUntouched(deleted, k, deleted.links[rk][k]) &&
                 deleted.links[rk][k].before == s.live[k]
  {
  }

  lemma DeletionIsSound(env: Env, s: State, rk: RecordKey, linked: set<RecordKey>)
    requires Assumed(env) && Inv(env, s) && LinksSound(s) && Enabled(env, s, Records(SoftDelete(rk, linked)))
    ensures var deleted := AfterDeletion(env, s, rk, linked);
            Inv(env, deleted) && LinksSound(deleted) && deleted == Deleted(s, rk, linked)
  {
    StepKeepsInv(env, s, Records(SoftDelete(rk, linked)));
    StepKeepsLinksSound(env, s, Records(SoftDelete(rk, linked)));
  }

  // After deletion and anything else for any length of time the record is kept as it was, with what its deletion
  // changed.
  lemma DeletedIsKept(env: Env, s: State, rk: RecordKey, linked: set<RecordKey>, es: seq<Event>)
    requires Assumed(env) && Inv(env, s) && LinksSound(s) && Enabled(env, s, Records(SoftDelete(rk, linked)))
    requires Run(env, AfterDeletion(env, s, rk, linked), es)
    requires Records(Restore(rk)) !in es && Records(Purge(rk)) !in es
    ensures var deleted := AfterDeletion(env, s, rk, linked);
            var s' := Exec(env, deleted, es);
            && Inv(env, s') && LinksSound(s')
            && rk in s'.recycled && s'.recycled[rk] == s.live[rk]
            && LinksOf(s', rk).Keys == linked && LinksOf(s', rk) == deleted.links[rk]
  {
    var deleted := AfterDeletion(env, s, rk, linked);
    DeletionIsSound(env, s, rk, linked);
    DeletionNotesLinks(s, rk, linked);
    RunKeepsLinksSound(env, deleted, es);
    RecycledRecordIsKept(env, deleted, es, rk, "");
    LinksAreKept(env, deleted, es, rk);
  }

  lemma LinkUntouchedExactlyWhen(env: Env, s: State, es: seq<Event>, k: RecordKey, link: Link)
    requires Assumed(env) && Inv(env, s) && Run(env, s, es) && k in s.usedRecords && LinkUntouched(s, k, link)
    ensures LinkUntouched(Exec(env, s, es), k, link) <==> !TouchedOn(env, s, es, k)
  {
    RunVersionTells(env, s, es, k);
  }

  // It can then be restored if and only if no record whose link the deletion removed has been touched since.
  lemma RestorableExactlyWhen(env: Env, s: State, rk: RecordKey, linked: set<RecordKey>, es: seq<Event>)
    requires Assumed(env) && Inv(env, s) && LinksSound(s) && Enabled(env, s, Records(SoftDelete(rk, linked)))
    requires Run(env, AfterDeletion(env, s, rk, linked), es)
    requires Records(Restore(rk)) !in es && Records(Purge(rk)) !in es
    ensures var deleted := AfterDeletion(env, s, rk, linked);
            Restorable(Exec(env, deleted, es), rk) <==> forall k :: k in linked ==> !TouchedOn(env, deleted, es, k)
  {
    var deleted := AfterDeletion(env, s, rk, linked);
    var s' := Exec(env, deleted, es);
    DeletionIsSound(env, s, rk, linked);
    DeletionNotesLinks(s, rk, linked);
    DeletedIsKept(env, s, rk, linked, es);
    HookLetsRestore(env, s', rk);
    forall k | k in linked
      ensures LinkUntouched(s', k, LinksOf(s', rk)[k]) <==> !TouchedOn(env, deleted, es, k)
    {
      LinkUntouchedExactlyWhen(env, deleted, es, k, deleted.links[rk][k]);
    }
  }

  // Then, as soon as no writer is at work on those, restoring goes through: the record and they are back as they
  // were, and the state is safe.
  lemma RestoreBringsBack(env: Env, s: State, rk: RecordKey, linked: set<RecordKey>, es: seq<Event>)
    requires Assumed(env) && Inv(env, s) && LinksSound(s) && Enabled(env, s, Records(SoftDelete(rk, linked)))
    requires Run(env, AfterDeletion(env, s, rk, linked), es)
    requires Records(Restore(rk)) !in es && Records(Purge(rk)) !in es
    requires Restorable(Exec(env, AfterDeletion(env, s, rk, linked), es), rk)
    requires !AnyLocked(Exec(env, AfterDeletion(env, s, rk, linked), es), linked)
    ensures var s' := Exec(env, AfterDeletion(env, s, rk, linked), es);
            && RecordEnabled(env, s', Restore(rk)) && Safe(Restored(s', rk))
            && forall k :: k in linked + {rk} ==> k in Restored(s', rk).live && Restored(s', rk).live[k] == s.live[k]
  {
    var s' := Exec(env, AfterDeletion(env, s, rk, linked), es);
    DeletionIsSound(env, s, rk, linked);
    DeletionNotesLinks(s, rk, linked);
    DeletedIsKept(env, s, rk, linked, es);
    RestoredCells(s', rk);
    RestoreIsSafe(env, s', rk);
  }

  lemma RestoreIsSafe(env: Env, s: State, rk: RecordKey)
    requires Assumed(env) && Inv(env, s) && RecordEnabled(env, s, Restore(rk))
    ensures Safe(Restored(s, rk))
  {
    assert Apply(env, s, Records(Restore(rk))) == Restored(s, rk);
    StepKeepsInv(env, s, Records(Restore(rk)));
    InvImpliesSafe(env, Restored(s, rk));
  }

  lemma RestoredCells(s: State, rk: RecordKey)
    requires Restorable(s, rk)
    ensures Restored(s, rk).live[rk] == s.recycled[rk]
    ensures forall k :: k in LinksOf(s, rk) ==> k in Restored(s, rk).live && Restored(s, rk).live[k] == LinksOf(s, rk)[k].before
  {
    assert forall k :: k in LinksOf(s, rk) ==> LinkUntouched(s, k, LinksOf(s, rk)[k]) && k != rk;
  }

  // Once such a record has been touched, the deleted one can never be restored again.
  lemma OnceTouchedNeverRestorable(env: Env, s: State, rk: RecordKey, linked: set<RecordKey>, es: seq<Event>,
                                   k: RecordKey, more: seq<Event>)
    requires Assumed(env) && Inv(env, s) && LinksSound(s) && Enabled(env, s, Records(SoftDelete(rk, linked)))
    requires Run(env, AfterDeletion(env, s, rk, linked), es)
    requires Records(Restore(rk)) !in es && Records(Purge(rk)) !in es
    requires k in linked && TouchedOn(env, AfterDeletion(env, s, rk, linked), es, k)
    requires Run(env, Exec(env, AfterDeletion(env, s, rk, linked), es), more)
    requires Records(Restore(rk)) !in more && Records(Purge(rk)) !in more
    ensures !Restorable(Exec(env, Exec(env, AfterDeletion(env, s, rk, linked), es), more), rk)
  {
    var deleted := AfterDeletion(env, s, rk, linked);
    var s' := Exec(env, deleted, es);
    DeletionIsSound(env, s, rk, linked);
    DeletionNotesLinks(s, rk, linked);
    DeletedIsKept(env, s, rk, linked, es);
    RunVersionTells(env, deleted, es, k);
    LinksAreKept(env, s', more, rk);
    RunVersionTells(env, s', more, k);
    assert k in LinksOf(Exec(env, s', more), rk);
  }

  lemma OneStep(env: Env, s: State, e: Event, k: RecordKey)
    requires Enabled(env, s, e)
    ensures Run(env, s, [e]) && Exec(env, s, [e]) == Apply(env, s, e)
    ensures TouchedOn(env, s, [e], k) <==> Touches(s, e, k)
  {
    assert Run(env, Apply(env, s, e), []);
    assert [e][1..] == [];
  }

  // One step is enough: an edit, or deleting another record that takes a link out of the same one.
  lemma OneTouchIsEnough(env: Env, s: State, rk: RecordKey, linked: set<RecordKey>, e: Event, k: RecordKey,
                         more: seq<Event>)
    requires Assumed(env) && Inv(env, s) && LinksSound(s) && Enabled(env, s, Records(SoftDelete(rk, linked)))
    requires k in linked
    requires e != Records(Restore(rk)) && e != Records(Purge(rk)) && Enabled(env, AfterDeletion(env, s, rk, linked), e)
    requires Touches(AfterDeletion(env, s, rk, linked), e, k)
    requires Run(env, Apply(env, AfterDeletion(env, s, rk, linked), e), more)
    requires Records(Restore(rk)) !in more && Records(Purge(rk)) !in more
    ensures !Restorable(Exec(env, Apply(env, AfterDeletion(env, s, rk, linked), e), more), rk)
  {
    OneStep(env, AfterDeletion(env, s, rk, linked), e, k);
    OnceTouchedNeverRestorable(env, s, rk, linked, [e], k, more);
  }

  const OTHER := RecordKey("t", "s")

  // One record links to another; that one is deleted, and somebody edits the first.
  lemma EditBlocksRestore(env: Env) returns (es: seq<Event>)
    ensures Run(env, INIT, es) && RECORD in Exec(env, INIT, es).recycled && !Restorable(Exec(env, INIT, es), RECORD)
  {
    var e0, e1 := Records(CreateRecord(RECORD, map[])), Records(CreateRecord(OTHER, map[]));
    var e2, e3, e4 := Records(SoftDelete(RECORD, {OTHER})), Writers(0, Load(OTHER, true)), Writers(0, Flush(map[], true));
    RunThenStep(env, INIT, [], e0);
    RunThenStep(env, INIT, [] + [e0], e1);
    RunThenStep(env, INIT, [] + [e0] + [e1], e2);
    RunThenStep(env, INIT, [] + [e0] + [e1] + [e2], e3);
    RunThenStep(env, INIT, [] + [e0] + [e1] + [e2] + [e3], e4);
    es := [] + [e0] + [e1] + [e2] + [e3] + [e4];
    var s := Exec(env, INIT, es);
    assert OTHER in LinksOf(s, RECORD) && LinksOf(s, RECORD)[OTHER].version == 2 && Version(s, OTHER) == 3;
  }

  // What the results above start from holds in every state any interleaving reaches.
  lemma ReachableIsSound(env: Env, es: seq<Event>)
    requires Assumed(env) && Run(env, INIT, es)
    ensures Inv(env, Exec(env, INIT, es)) && LinksSound(Exec(env, INIT, es))
  {
    RunKeepsLinksSound(env, INIT, es);
  }
}
