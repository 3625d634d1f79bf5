/**
 The seven assumptions on the environment are exactly what safety needs: dropping any one of them
 admits a run that dangles or drifts, and keeping all of them admits none.
 */
module AttachmentAssumptions {
  import opened AttachmentModel
  import opened AttachmentProtocol
  import opened AttachmentSafety

  const RECORD := RecordKey("t", "r")
  const CELL := Cell(RECORD, "f")
  const FIELD := FieldKey("t", "f")
  const KEY := ObjectKey(RECORD, "a")
  // ATTACHMENT_UPLOAD_PENDING_GRACE_SECONDS may not be configured lower
  const MIN_GRACE := 60

  lemma {:induction false} RunThenStep(env: Env, s: State, es: seq<Event>, e: Event)
    requires Run(env, s, es) && Enabled(env, Exec(env, s, es), e)
    ensures Run(env, s, es + [e]) && Exec(env, s, es + [e]) == Apply(env, Exec(env, s, es), e)
    decreases |es|
  {
    if es == [] {
      assert [] + [e] == [e];
    } else {
      RunThenStep(env, Apply(env, s, es[0]), es[1..], e);
      assert (es + [e])[1..] == es[1..] + [e];
    }
  }

  // One record with one attachment field, and one upload whose intent is committed.
  lemma BegunUpload(env: Env) returns (es: seq<Event>, s: State)
    requires env.grace >= MIN_GRACE
    ensures Run(env, INIT, es) && Exec(env, INIT, es) == s
    ensures s.now == 0 && s.live == map[RECORD := map[]] && s.recycled == map[] && s.jobs == map[]
    ensures s.fields == {FIELD} && s.writers == map[] && s.objects == {} && s.usedIds == {"a"}
    ensures s.registry == map["a" := Row(CELL, KEY, "n", 1, "", UploadPending, 0, 0)]
    ensures s.uploads == map["a" := Upload(CELL, 0, IntentCommitted)]
  {
    var e0, e1 := Fields(AddField(FIELD)), Records(CreateRecord(RECORD, map[]));
    var e2 := Uploads("a", BeginUpload(CELL, "n", 1, ""));
    RunThenStep(env, INIT, [], e0);
    RunThenStep(env, INIT, [] + [e0], e1);
    RunThenStep(env, INIT, [] + [e0] + [e1], e2);
    es := [] + [e0] + [e1] + [e2];
    s := Exec(env, INIT, es);
  }

  // The same upload with its bytes stored but not yet activated.
  lemma StoredUpload(env: Env) returns (es: seq<Event>, s: State)
    requires env.grace >= MIN_GRACE
    ensures Run(env, INIT, es) && Exec(env, INIT, es) == s
    ensures s.now == 0 && s.live == map[RECORD := map[]] && s.recycled == map[] && s.jobs == map[]
    ensures s.fields == {FIELD} && s.writers == map[]
    ensures s.registry == map["a" := Row(CELL, KEY, "n", 1, "", UploadPending, 0, 0)]
    ensures s.objects == {KEY} && s.uploads == map["a" := Upload(CELL, 0, Stored)]
  {
    es, s := BegunUpload(env);
    RunThenStep(env, INIT, es, Uploads("a", PutReturns));
    es := es + [Uploads("a", PutReturns)];
    s := Exec(env, INIT, es);
  }

  lemma StoredUploadCanActivate(env: Env, s: State)
    requires s.live == map[RECORD := map[]] && s.fields == {FIELD} && !RowLocked(s, RECORD)
    requires s.registry == map["a" := Row(CELL, KEY, "n", 1, "", UploadPending, 0, 0)]
    requires s.uploads == map["a" := Upload(CELL, 0, Stored)]
    requires env.uploadsInTime ==> s.now < env.grace
    ensures CanActivate(env, s, "a")
    ensures RefsAfterActivation(s, "a") == [Ref("a", KEY, "n", 1, DEFAULT_CONTENT_TYPE)]
  {
    var active := s.registry["a" := s.registry["a"].(status := Active)];
    var refs := RefsAfterActivation(s, "a");
    assert refs == [Ref("a", KEY, "n", 1, DEFAULT_CONTENT_TYPE)];
    assert Ids(refs) == {"a"} by {
      assert refs[0] in refs;
    }
    assert ActiveIds(active, CELL) == {"a"};
  }

  lemma DanglingIsUnsafe(s: State, data: Data)
    requires RECORD in s.live && s.live[RECORD] == data && "f" in data && FIELD in s.fields
    requires exists r :: r in data["f"] && r.key !in s.objects
    ensures !Safe(s)
  {
  }

  // The row says ACTIVE and the object is gone.
  predicate LostObject(s: State) {
    "a" in s.registry && s.registry["a"].status == Active && s.registry["a"].key == KEY && KEY !in s.objects
  }

  // An upload that outlives its grace window can be activated over a worker's stale pick.
  lemma LateUploadDangles(env: Env) returns (es: seq<Event>)
    requires env.grace >= MIN_GRACE && !env.uploadsInTime
    ensures Run(env, INIT, es) && !Safe(Exec(env, INIT, es)) && LostObject(Exec(env, INIT, es))
  {
    var es0, s0 := StoredUpload(env);
    var e1, e2, e3, e4 := Tick(env.grace), Cleaner(0, PickRow("a")), Uploads("a", Activate), Cleaner(0, RemoveObject);
    RunThenStep(env, INIT, es0, e1);
    RunThenStep(env, INIT, es0 + [e1], e2);
    StoredUploadCanActivate(env, Exec(env, INIT, es0 + [e1] + [e2]));
    RunThenStep(env, INIT, es0 + [e1] + [e2], e3);
    RunThenStep(env, INIT, es0 + [e1] + [e2] + [e3], e4);
    es := es0 + [e1] + [e2] + [e3] + [e4];
    var s := Exec(env, INIT, es);
    assert s.live[RECORD]["f"][0].key == KEY;
    DanglingIsUnsafe(s, s.live[RECORD]);
  }

  // update_record refreshes after its commit; an error there makes the handler remove an object in use.
  lemma RaiseAfterCommitDangles(env: Env) returns (es: seq<Event>)
    requires env.grace >= MIN_GRACE && !env.updateIsAtomic
    ensures Run(env, INIT, es) && !Safe(Exec(env, INIT, es)) && LostObject(Exec(env, INIT, es))
  {
    var es0, s0 := StoredUpload(env);
    var e1, e2 := Uploads("a", ActivateCommitsThenRaises), Uploads("a", FailedUploadRemoves);
    StoredUploadCanActivate(env, s0);
    RunThenStep(env, INIT, es0, e1);
    RunThenStep(env, INIT, es0 + [e1], e2);
    es := es0 + [e1] + [e2];
    var s := Exec(env, INIT, es);
    assert s.live[RECORD]["f"][0].key == KEY;
    DanglingIsUnsafe(s, s.live[RECORD]);
  }

  // A new record under a purged record's id inherits rows its empty cells do not list.
  lemma ReusedRecordIdDrifts(env: Env) returns (es: seq<Event>)
    requires env.grace >= MIN_GRACE && !env.recordIdsFresh
    ensures Run(env, INIT, es) && !Safe(Exec(env, INIT, es))
  {
    var es0, s0 := StoredUpload(env);
    var e1, e2, e3 := Uploads("a", Activate), Records(SoftDelete(RECORD, {})), Records(Purge(RECORD));
    var e4 := Records(CreateRecord(RECORD, map[]));
    StoredUploadCanActivate(env, s0);
    RunThenStep(env, INIT, es0, e1);
    RunThenStep(env, INIT, es0 + [e1], e2);
    RunThenStep(env, INIT, es0 + [e1] + [e2], e3);
    RunThenStep(env, INIT, es0 + [e1] + [e2] + [e3], e4);
    es := es0 + [e1] + [e2] + [e3] + [e4];
    var s := Exec(env, INIT, es);
    UnlistedIsUnsafe(s);
  }

  // The state after the upload has been activated, with whatever writers there were before
  lemma ActiveUpload(env: Env, s: State) returns (after: State)
    requires s.now == 0 && s.live == map[RECORD := map[]] && s.fields == {FIELD} && !RowLocked(s, RECORD)
    requires s.registry == map["a" := Row(CELL, KEY, "n", 1, "", UploadPending, 0, 0)]
    requires s.uploads == map["a" := Upload(CELL, 0, Stored)] && env.grace >= MIN_GRACE
    ensures Enabled(env, s, Uploads("a", Activate)) && after == Apply(env, s, Uploads("a", Activate))
    ensures after.registry == map["a" := Row(CELL, KEY, "n", 1, "", Active, 0, 0)]
    ensures after.live == map[RECORD := map["f" := [Ref("a", KEY, "n", 1, DEFAULT_CONTENT_TYPE)]]]
    ensures after.fields == s.fields && after.writers == s.writers && after.jobs == s.jobs
  {
    StoredUploadCanActivate(env, s);
    after := Apply(env, s, Uploads("a", Activate));
  }

  // A row that no cell lists, in the record or outside any attachment field.
  lemma UnlistedIsUnsafe(s: State)
    requires RECORD in s.live && IsActiveIn(s.registry, CELL, "a")
    requires FIELD in s.fields ==> Value(s.live[RECORD], "f") == []
    ensures !Safe(s)
  {
    assert "a" in ActiveIds(s.registry, CELL);
    assert !SoundCell(s.fields, s.registry, CELL, Value(s.live[RECORD], "f"));
  }

  // A writer that loads an empty cell without the row lock writes it back over an upload activated since. It has
  // not changed the field, so the hook does not look at it, and the record loses an ACTIVE row.
  lemma UnlockedWriterDropsReference(env: Env) returns (es: seq<Event>)
    requires env.grace >= MIN_GRACE && !env.writersLockRows
    ensures Run(env, INIT, es) && !Safe(Exec(env, INIT, es))
  {
    var es0, s0 := StoredUpload(env);
    var e1, e2, e3 := Writers(0, Load(RECORD, false)), Uploads("a", Activate), Writers(0, Flush(map[], true));
    RunThenStep(env, INIT, es0, e1);
    var active := ActiveUpload(env, Apply(env, s0, e1));
    RunThenStep(env, INIT, es0 + [e1], e2);
    RunThenStep(env, INIT, es0 + [e1] + [e2], e3);
    es := es0 + [e1] + [e2] + [e3];
    UnlistedIsUnsafe(Exec(env, INIT, es));
  }

  lemma ListedCanDetach(s: State)
    requires s.registry == map["a" := Row(CELL, KEY, "n", 1, "", Active, 0, 0)]
    requires s.live == map[RECORD := map["f" := [Ref("a", KEY, "n", 1, DEFAULT_CONTENT_TYPE)]]]
    requires s.fields == {FIELD} && !RowLocked(s, RECORD)
    ensures CanDetach(s, "a")
  {
    var listed := s.live[RECORD]["f"];
    assert Value(s.live[RECORD], "f") == listed && listed[0] in listed;
    assert DetachReady(s, "a");
    assert Resolve(s.registry, listed) == listed && listed[1..] == [];
    assert RefsAfterDetach(s, "a") == Without(listed, "a") == [];
    assert ActiveIds(s.registry["a" := s.registry["a"].(status := DeletePending)], CELL) == {};
  }

  // One that loaded the list instead puts a reference back after its row and object have been removed.
  lemma UnlockedWriterRevivesReference(env: Env) returns (es: seq<Event>)
    requires env.grace >= MIN_GRACE && !env.writersLockRows
    ensures Run(env, INIT, es) && !NoDanglingReference(Exec(env, INIT, es))
  {
    var es0, s0 := StoredUpload(env);
    var active := ActiveUpload(env, s0);
    var data := active.live[RECORD];
    var e1, e2, e3 := Uploads("a", Activate), Writers(0, Load(RECORD, false)), Cleaner(0, Detach("a"));
    var e4, e5, e6 := Cleaner(0, RemoveObject), Cleaner(0, DeleteRow), Writers(0, Flush(data, true));
    RunThenStep(env, INIT, es0, e1);
    RunThenStep(env, INIT, es0 + [e1], e2);
    ListedCanDetach(Apply(env, active, e2));
    RunThenStep(env, INIT, es0 + [e1] + [e2], e3);
    RunThenStep(env, INIT, es0 + [e1] + [e2] + [e3], e4);
    RunThenStep(env, INIT, es0 + [e1] + [e2] + [e3] + [e4], e5);
    RunThenStep(env, INIT, es0 + [e1] + [e2] + [e3] + [e4] + [e5], e6);
    es := es0 + [e1] + [e2] + [e3] + [e4] + [e5] + [e6];
    var s := Exec(env, INIT, es);
    assert s.live[RECORD]["f"][0].id == "a" && "a" !in s.registry && IsAttachment(s, Cell(RECORD, "f"));
  }

  // Deleting an attachment field, or giving it another type, leaves its ACTIVE rows where no cell lists them.
  lemma RemovedFieldStrandsRows(env: Env, stripped: bool) returns (es: seq<Event>)
    requires env.grace >= MIN_GRACE && !env.fieldsStay
    ensures Run(env, INIT, es) && !Safe(Exec(env, INIT, es))
  {
    var es0, s0 := StoredUpload(env);
    var e1, e2 := Uploads("a", Activate), Fields(RemoveField(FIELD, stripped));
    var active := ActiveUpload(env, s0);
    RunThenStep(env, INIT, es0, e1);
    RunThenStep(env, INIT, es0 + [e1], e2);
    es := es0 + [e1] + [e2];
    UnlistedIsUnsafe(Exec(env, INIT, es));
  }

  // A list written while the field had another type was never checked, and is not when the field becomes an
  // attachment field.
  lemma RetypedFieldDangles(env: Env) returns (es: seq<Event>)
    requires !env.fieldsComeEmpty
    ensures Run(env, INIT, es) && !Safe(Exec(env, INIT, es))
  {
    var data: Data := map["f" := [Ref("x", KEY, "n", 1, "")]];
    var e1, e2 := Records(CreateRecord(RECORD, data)), Fields(AddField(FIELD));
    RunThenStep(env, INIT, [], e1);
    RunThenStep(env, INIT, [] + [e1], e2);
    es := [] + [e1] + [e2];
    var s := Exec(env, INIT, es);
    assert s.live[RECORD]["f"][0].key == KEY;
    DanglingIsUnsafe(s, data);
  }

  // A put that raised and still lands, after the handler has removed what it found and dropped the row, leaves
  // an object no row leads to.
  lemma LatePutLeaks(env: Env) returns (es: seq<Event>)
    requires env.grace >= MIN_GRACE && !env.putsSettle
    ensures Run(env, INIT, es) && !NoLeakedObject(Exec(env, INIT, es))
  {
    var es0, s0 := BegunUpload(env);
    var e1, e2 := Uploads("a", PutRaises(false)), Uploads("a", FailedUploadRemoves);
    var e3, e4 := Uploads("a", FailedUploadDeletesRow), Uploads("a", PutLandsLate(RECORD));
    RunThenStep(env, INIT, es0, e1);
    RunThenStep(env, INIT, es0 + [e1], e2);
    RunThenStep(env, INIT, es0 + [e1] + [e2], e3);
    RunThenStep(env, INIT, es0 + [e1] + [e2] + [e3], e4);
    es := es0 + [e1] + [e2] + [e3] + [e4];
    var s := Exec(env, INIT, es);
    assert KEY in s.objects && "a" !in s.registry;
  }

  lemma SafetyNeedsExactlyTheAssumptions(env: Env)
    requires env.grace >= MIN_GRACE
    ensures (forall es :: Run(env, INIT, es) ==> Safe(Exec(env, INIT, es))) <==> Assumed(env)
  {
    if Assumed(env) {
      forall es | Run(env, INIT, es)
        ensures Safe(Exec(env, INIT, es))
      {
        EveryReachableStateIsSafe(env, es);
      }
    } else {
      var es: seq<Event>;
      if !env.uploadsInTime {
        es := LateUploadDangles(env);
      } else if !env.updateIsAtomic {
        es := RaiseAfterCommitDangles(env);
      } else if !env.recordIdsFresh {
        es := ReusedRecordIdDrifts(env);
      } else if !env.writersLockRows {
        es := UnlockedWriterDropsReference(env);
      } else if !env.putsSettle {
        es := LatePutLeaks(env);
      } else if !env.fieldsStay {
        es := RemovedFieldStrandsRows(env, true);
      } else {
        es := RetypedFieldDangles(env);
      }
      assert Run(env, INIT, es) && !Safe(Exec(env, INIT, es));
    }
  }
}
