/**
 The two stores by themselves: no object is ever stored without a durable row that leads a cleaner to it, and no row
 is ACTIVE without its object. Two of the seven assumptions decide the one and two the other, whatever record
 writers, fields and the rest of the environment do.
 */
module ObjectStorage {
  import opened AttachmentModel
  import opened AttachmentProtocol
  import opened AttachmentAssumptions

  predicate ActiveRowsStored(s: State) {
    forall id :: id in s.registry && s.registry[id].status == Active ==> s.registry[id].key in s.objects
  }

  // ---------------------------------------------------------------- the invariant, if uploads end in time

  predicate RowsKeyed(s: State) {
    forall id :: id in s.registry ==> id in s.usedIds && s.registry[id].key == ObjectKey(s.registry[id].cell.owner, id)
  }

  predicate OrphansWereActive(s: State) {
    forall id :: id in s.orphans ==> id in s.usedIds && (id in s.registry ==> s.registry[id].status != UploadPending)
  }

  // A put that may still land has its row, and an upload that may still be activated its object. If an update that
  // raised never committed, a handler that cleans up has no ACTIVE row.
  predicate HandlerSound(env: Env, s: State, id: Id)
    requires id in s.uploads
  {
    var u := s.uploads[id];
    && id in s.usedIds
    && (id in s.registry ==> s.registry[id].cell == u.cell && s.registry[id].createdAt == u.createdAt)
    && (env.updateIsAtomic && id in s.registry ==> s.registry[id].status != Active)
    && (u.phase in {IntentCommitted, Stored} && s.now < u.createdAt + env.grace ==>
          id in s.registry && s.registry[id].status == UploadPending &&
          (u.phase == Stored ==> ObjectKey(u.cell.owner, id) in s.objects))
    && (env.putsSettle && u.phase == FailRemoved ==> ObjectKey(u.cell.owner, id) !in s.objects)
  }

  predicate HandlersSound(env: Env, s: State) {
    forall id :: id in s.uploads ==> HandlerSound(env, s, id)
  }

  // However stale a pick, its row is still one to be removed.
  predicate PickDoomed(env: Env, s: State, job: Job) {
    && job.id in s.usedIds && job.key.id == job.id
    && (job.id in s.registry ==> s.registry[job.id].key == job.key && Eligible(env.grace, s.now, s.registry[job.id]))
    && (env.putsSettle && job.removed ==> job.key !in s.objects)
  }

  predicate PicksDoomed(env: Env, s: State) {
    forall j :: j in s.jobs ==> PickDoomed(env, s, s.jobs[j])
  }

  predicate StoresAgree(env: Env, s: State) {
    (env.putsSettle ==> NoLeakedObject(s)) && (env.updateIsAtomic ==> ActiveRowsStored(s))
  }

  predicate StoresInv(env: Env, s: State) {
    RowsKeyed(s) && OrphansWereActive(s) && HandlersSound(env, s) && PicksDoomed(env, s) && StoresAgree(env, s)
  }

  // ---------------------------------------------------------------- steps on the record side

  // What no record, writer or field event touches
  predicate SameStores(s: State, s': State) {
    && s'.now == s.now && s'.registry == s.registry && s'.objects == s.objects && s'.usedIds == s.usedIds
    && s'.uploads == s.uploads && s'.jobs == s.jobs && s'.orphans == s.orphans
  }

  lemma RecordStepKeepsStores(env: Env, s: State, e: RecordEvent)
    requires RecordEnabled(env, s, e)
    ensures SameStores(s, ApplyRecord(env, s, e))
  {
  }

  lemma WriterStepKeepsStores(env: Env, s: State, w: nat, e: WriterEvent)
    requires WriterEnabled(env, s, w, e)
    ensures SameStores(s, ApplyWriter(env, s, w, e))
  {
  }

  lemma FieldStepKeepsStores(env: Env, s: State, e: FieldEvent)
    requires FieldEnabled(env, s, e)
    ensures SameStores(s, ApplyField(env, s, e))
  {
  }

  lemma SameStoresKeepInv(env: Env, s: State, s': State)
    requires StoresInv(env, s) && SameStores(s, s')
    ensures StoresInv(env, s')
  {
    forall id | id in s'.uploads
      ensures HandlerSound(env, s', id)
    {
      assert HandlerSound(env, s, id);
    }
    forall j | j in s'.jobs
      ensures PickDoomed(env, s', s'.jobs[j])
    {
      assert PickDoomed(env, s, s.jobs[j]);
    }
  }

  lemma RecordSideKeepsInv(env: Env, s: State, e: Event)
    requires StoresInv(env, s) && Enabled(env, s, e) && (e.Records? || e.Writers? || e.Fields?)
    ensures StoresInv(env, Apply(env, s, e))
  {
    match e {
      case Records(re) => RecordStepKeepsStores(env, s, re);
      case Writers(w, we) => WriterStepKeepsStores(env, s, w, we);
      case Fields(fe) => FieldStepKeepsStores(env, s, fe);
    }
    SameStoresKeepInv(env, s, Apply(env, s, e));
  }

  // ---------------------------------------------------------------- upload steps

  lemma UploadStepKeepsRows(env: Env, s: State, id: Id, e: UploadEvent)
    requires RowsKeyed(s) && OrphansWereActive(s) && UploadEnabled(env, s, id, e)
    ensures RowsKeyed(ApplyUpload(env, s, id, e)) && OrphansWereActive(ApplyUpload(env, s, id, e))
  {
  }

  lemma UploadStepKeepsHandler(env: Env, s: State, id: Id, e: UploadEvent)
    requires env.uploadsInTime && RowsKeyed(s) && UploadEnabled(env, s, id, e)
    requires id in s.uploads ==> HandlerSound(env, s, id)
    ensures id in ApplyUpload(env, s, id, e).uploads ==> HandlerSound(env, ApplyUpload(env, s, id, e), id)
  {
  }

  lemma UploadStepKeepsOtherHandler(env: Env, s: State, id: Id, e: UploadEvent, other: Id)
    requires RowsKeyed(s) && UploadEnabled(env, s, id, e)
    requires other != id && other in s.uploads && HandlerSound(env, s, other)
    ensures other in ApplyUpload(env, s, id, e).uploads && HandlerSound(env, ApplyUpload(env, s, id, e), other)
  {
  }

  lemma UploadStepKeepsPick(env: Env, s: State, id: Id, e: UploadEvent, job: Job)
    requires env.uploadsInTime && UploadEnabled(env, s, id, e) && PickDoomed(env, s, job)
    requires id in s.uploads ==> HandlerSound(env, s, id)
    ensures PickDoomed(env, ApplyUpload(env, s, id, e), job)
  {
  }

  lemma UploadStepKeepsAgreement(env: Env, s: State, id: Id, e: UploadEvent)
    requires env.uploadsInTime && RowsKeyed(s) && StoresAgree(env, s) && UploadEnabled(env, s, id, e)
    requires id in s.uploads ==> HandlerSound(env, s, id)
    ensures StoresAgree(env, ApplyUpload(env, s, id, e))
  {
  }

  lemma UploadStepKeepsInv(env: Env, s: State, id: Id, e: UploadEvent)
    requires env.uploadsInTime && StoresInv(env, s) && UploadEnabled(env, s, id, e)
    ensures StoresInv(env, ApplyUpload(env, s, id, e))
  {
    var s' := ApplyUpload(env, s, id, e);
    UploadStepKeepsRows(env, s, id, e);
    UploadStepKeepsAgreement(env, s, id, e);
    forall other | other in s'.uploads
      ensures HandlerSound(env, s', other)
    {
      if other == id {
        UploadStepKeepsHandler(env, s, id, e);
      } else {
        assert other in s.uploads;
        UploadStepKeepsOtherHandler(env, s, id, e, other);
      }
    }
    forall j | j in s'.jobs
      ensures PickDoomed(env, s', s'.jobs[j])
    {
      assert j in s.jobs && s'.jobs[j] == s.jobs[j];
      UploadStepKeepsPick(env, s, id, e, s.jobs[j]);
    }
  }

  // ---------------------------------------------------------------- cleaner steps and the rest

  lemma CleanerStepKeepsHandler(env: Env, s: State, job: nat, e: CleanerEvent, id: Id)
    requires RowsKeyed(s) && PicksDoomed(env, s) && CleanerEnabled(env, s, job, e)
    requires id in s.uploads && HandlerSound(env, s, id)
    ensures id in ApplyCleaner(env, s, job, e).uploads && HandlerSound(env, ApplyCleaner(env, s, job, e), id)
  {
  }

  lemma CleanerStepKeepsPicks(env: Env, s: State, job: nat, e: CleanerEvent)
    requires RowsKeyed(s) && PicksDoomed(env, s) && CleanerEnabled(env, s, job, e)
    ensures PicksDoomed(env, ApplyCleaner(env, s, job, e))
  {
  }

  lemma CleanerStepKeepsRows(env: Env, s: State, job: nat, e: CleanerEvent)
    requires RowsKeyed(s) && OrphansWereActive(s) && PicksDoomed(env, s) && CleanerEnabled(env, s, job, e)
    ensures RowsKeyed(ApplyCleaner(env, s, job, e)) && OrphansWereActive(ApplyCleaner(env, s, job, e))
  {
  }

  lemma CleanerStepKeepsAgreement(env: Env, s: State, job: nat, e: CleanerEvent)
    requires RowsKeyed(s) && StoresAgree(env, s) && PicksDoomed(env, s) && CleanerEnabled(env, s, job, e)
    ensures StoresAgree(env, ApplyCleaner(env, s, job, e))
  {
  }

  lemma CleanerStepKeepsInv(env: Env, s: State, job: nat, e: CleanerEvent)
    requires StoresInv(env, s) && CleanerEnabled(env, s, job, e)
    ensures StoresInv(env, ApplyCleaner(env, s, job, e))
  {
    var s' := ApplyCleaner(env, s, job, e);
    CleanerStepKeepsRows(env, s, job, e);
    CleanerStepKeepsPicks(env, s, job, e);
    CleanerStepKeepsAgreement(env, s, job, e);
    forall id | id in s'.uploads
      ensures HandlerSound(env, s', id)
    {
      CleanerStepKeepsHandler(env, s, job, e, id);
    }
  }

  lemma OtherStepKeepsInv(env: Env, s: State, e: Event)
    requires StoresInv(env, s) && Enabled(env, s, e) && (e.Tick? || e.PickOrphan? || e.MarkOrphan?)
    ensures StoresInv(env, Apply(env, s, e))
  {
    var s' := Apply(env, s, e);
    forall id | id in s'.uploads
      ensures HandlerSound(env, s', id)
    {
      assert HandlerSound(env, s, id);
    }
    forall j | j in s'.jobs
      ensures PickDoomed(env, s', s'.jobs[j])
    {
      assert PickDoomed(env, s, s.jobs[j]);
    }
  }

  lemma {:induction false} RunKeepsInv(env: Env, s: State, es: seq<Event>)
    requires env.uploadsInTime && StoresInv(env, s) && Run(env, s, es)
    ensures StoresInv(env, Exec(env, s, es))
    decreases |es|
  {
    if es != [] {
      match es[0] {
        case Uploads(id, ue) => UploadStepKeepsInv(env, s, id, ue);
        case Cleaner(job, ce) => CleanerStepKeepsInv(env, s, job, ce);
        case Records(_) => RecordSideKeepsInv(env, s, es[0]);
        case Writers(_, _) => RecordSideKeepsInv(env, s, es[0]);
        case Fields(_) => RecordSideKeepsInv(env, s, es[0]);
        case _ => OtherStepKeepsInv(env, s, es[0]);
      }
      RunKeepsInv(env, Apply(env, s, es[0]), es[1..]);
    }
  }

  // ---------------------------------------------------------------- the conditions are exact

  // A put that outlives the grace period lands after a worker has dealt with its row.
  lemma LatePutOutlivesItsRow(env: Env) returns (es: seq<Event>)
    requires env.grace >= MIN_GRACE && !env.uploadsInTime
    ensures Run(env, INIT, es) && !NoLeakedObject(Exec(env, INIT, es))
  {
    var es0, s0 := BegunUpload(env);
    var e1, e2, e3 := Tick(env.grace), Cleaner(0, PickRow("a")), Cleaner(0, RemoveObject);
    var e4, e5 := Cleaner(0, DeleteRow), Uploads("a", PutReturns);
    RunThenStep(env, INIT, es0, e1);
    RunThenStep(env, INIT, es0 + [e1], e2);
    RunThenStep(env, INIT, es0 + [e1] + [e2], e3);
    RunThenStep(env, INIT, es0 + [e1] + [e2] + [e3], e4);
    RunThenStep(env, INIT, es0 + [e1] + [e2] + [e3] + [e4], e5);
    es := es0 + [e1] + [e2] + [e3] + [e4] + [e5];
    var s := Exec(env, INIT, es);
    assert KEY in s.objects && "a" !in s.registry;
  }

  lemma NothingLeaksExactlyWhen(env: Env)
    requires env.grace >= MIN_GRACE
    ensures (forall es :: Run(env, INIT, es) ==> NoLeakedObject(Exec(env, INIT, es)))
       <==> env.uploadsInTime && env.putsSettle
  {
    if env.uploadsInTime && env.putsSettle {
      forall es | Run(env, INIT, es)
        ensures NoLeakedObject(Exec(env, INIT, es))
      {
        RunKeepsInv(env, INIT, es);
      }
    } else {
      var es: seq<Event>;
      if env.putsSettle {
        es := LatePutOutlivesItsRow(env);
      } else {
        es := LatePutLeaks(env);
      }
      assert Run(env, INIT, es) && !NoLeakedObject(Exec(env, INIT, es));
    }
  }

  lemma ActiveRowsAreStoredExactlyWhen(env: Env)
    requires env.grace >= MIN_GRACE
    ensures (forall es :: Run(env, INIT, es) ==> ActiveRowsStored(Exec(env, INIT, es)))
       <==> env.uploadsInTime && env.updateIsAtomic
  {
    if env.uploadsInTime && env.updateIsAtomic {
      forall es | Run(env, INIT, es)
        ensures ActiveRowsStored(Exec(env, INIT, es))
      {
        RunKeepsInv(env, INIT, es);
      }
    } else {
      var es: seq<Event>;
      if env.uploadsInTime {
        es := RaiseAfterCommitDangles(env);
      } else {
        es := LateUploadDangles(env);
      }
      var s := Exec(env, INIT, es);
      assert LostObject(s) && !ActiveRowsStored(s);
    }
  }
}
