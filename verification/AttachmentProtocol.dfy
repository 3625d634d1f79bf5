/**
 The attachment lifecycle as a two-store protocol: a registry and record cells in the database,
 object bytes in the object store, and any number of upload handlers, delete handlers, cleanup
 workers, reconcilers, other record writers and field changes taking steps in any order and dying at any point.
 */
module AttachmentProtocol {
  import opened AttachmentModel

  // Where an upload request stands. Failing: put or activation raised, immediate cleanup begins.
  // FailRemoved: that cleanup has removed the object but not yet committed.
  datatype Phase = IntentCommitted | Stored | Failing | FailRemoved

  datatype Upload = Upload(cell: Cell, createdAt: int, phase: Phase)

  // One row some cleaner has picked and still intends to remove; picked rows are not locked.
  datatype Job = Job(id: Id, key: ObjectKey, removed: bool)

  // A session that has loaded a record and is about to write it back. A locked one loaded it FOR UPDATE.
  datatype Writer = Writer(rk: RecordKey, snapshot: Data, version: nat, locked: bool)

  // What deleting a record changed in one that linked to it: the version that left, and the data before.
  datatype Link = Link(version: nat, before: Data)

  // fields: the attachment fields there are
  // versions: of every record there has been, as it is or was deleted with
  // links: what the deletion of each recycled record changed elsewhere
  datatype State = State(
    now: int,
    registry: Registry,
    objects: set<ObjectKey>,
    live: map<RecordKey, Data>,
    recycled: map<RecordKey, Data>,
    fields: set<FieldKey>,
    versions: map<RecordKey, nat>,
    links: map<RecordKey, map<RecordKey, Link>>,
    writers: map<nat, Writer>,
    usedRecords: set<RecordKey>,
    usedIds: set<Id>,
    uploads: map<Id, Upload>,
    jobs: map<nat, Job>,
    orphans: set<Id>)

  // What the code does not enforce by itself.
  //   uploadsInTime: put and activation happen before createdAt + grace
  //   updateIsAtomic: update_record either returns committed or raises uncommitted
  //   recordIdsFresh: a new record never takes the id of an earlier one
  //   writersLockRows: whoever writes a record's data has loaded it under its row lock
  //   fieldsStay: an attachment field is neither deleted nor given another type
  //   putsSettle: a put has no effect after it has raised or its handler has stopped
  //   fieldsComeEmpty: a field becomes an attachment field only while no record, live, recycled or noted in the
  //     change set of a deletion, holds a list in it
  datatype Env = Env(grace: nat, uploadsInTime: bool, updateIsAtomic: bool, recordIdsFresh: bool,
                     putsSettle: bool, writersLockRows: bool, fieldsStay: bool, fieldsComeEmpty: bool)

  datatype RecordEvent =
    | CreateRecord(rk: RecordKey, data: Data)
    | SoftDelete(rk: RecordKey, linked: set<RecordKey>)
    | Restore(rk: RecordKey)
    | Purge(rk: RecordKey)

  datatype WriterEvent =
    | Load(rk: RecordKey, locked: bool)
    | Flush(data: Data, versioned: bool)
    | GiveUp

  // RemoveField: deleted and stripped from the live records, or given another type.
  datatype FieldEvent =
    | AddField(fk: FieldKey)
    | RemoveField(fk: FieldKey, stripped: bool)

  datatype UploadEvent =
    | BeginUpload(cell: Cell, name: string, size: nat, contentType: string)
    | PutReturns
    | PutRaises(landed: bool)
    | Activate
    | ActivateCommitsThenRaises
    | ActivateFails
    | FailedUploadRemoves
    | FailedUploadDeletesRow
    | FailedUploadKeepsMarker(landed: bool)
    | UploadStops
    | PutLandsLate(owner: RecordKey)

  datatype CleanerEvent =
    | Detach(id: Id)
    | PickRow(id: Id)
    | RemoveObject
    | RemoveFails(landed: bool)
    | DeleteRow
    | JobStops

  datatype Event =
    | Tick(d: nat)
    | Records(re: RecordEvent)
    | Writers(w: nat, we: WriterEvent)
    | Fields(fe: FieldEvent)
    | Uploads(id: Id, ue: UploadEvent)
    | Cleaner(job: nat, ce: CleanerEvent)
    | PickOrphan(id: Id)
    | MarkOrphan(id: Id)

  const INIT := State(0, map[], {}, map[], map[], {}, map[], map[], map[], {}, {}, map[], map[], {})

  predicate Eligible(grace: nat, now: int, row: Row) {
    row.status in {DeletePending, PurgePending} ||
    (row.status == UploadPending && row.createdAt + grace <= now)
  }

  predicate Orphan(s: State, row: Row) {
    row.status == Active && row.cell.owner !in s.live && row.cell.owner !in s.recycled
  }

  predicate IsAttachment(s: State, cell: Cell) {
    FieldOf(cell) in s.fields
  }

  // The flush hook for a row the session has loaded: only attachment fields that differ from what it loaded are
  // checked, and nobody else's writes since then are seen.
  predicate HookAcceptsWrite(s: State, rk: RecordKey, loaded: Data, data: Data) {
    forall f :: f in loaded.Keys + data.Keys && IsAttachment(s, Cell(rk, f)) && Value(loaded, f) != Value(data, f) ==>
      ExactCell(s.registry, Cell(rk, f), Value(data, f))
  }

  // The flush hook for a new row: only non-empty attachment fields are checked.
  predicate HookAcceptsNew(s: State, rk: RecordKey, data: Data) {
    forall f :: f in data && IsAttachment(s, Cell(rk, f)) && data[f] != [] ==>
      ExactCell(s.registry, Cell(rk, f), data[f])
  }

  predicate RowLocked(s: State, rk: RecordKey) {
    exists w :: w in s.writers && s.writers[w].locked && s.writers[w].rk == rk
  }

  function Version(s: State, rk: RecordKey): nat {
    if rk in s.versions then s.versions[rk] else 1
  }

  function Raised(s: State, rks: set<RecordKey>): map<RecordKey, nat> {
    map rk | rk in s.versions.Keys + rks :: if rk in rks then Version(s, rk) + 1 else s.versions[rk]
  }

  // What the deletion of a recycled record changed elsewhere
  function LinksOf(s: State, rk: RecordKey): map<RecordKey, Link> {
    if rk in s.links then s.links[rk] else map[]
  }

  predicate AnyLocked(s: State, rks: set<RecordKey>) {
    exists rk :: rk in rks && RowLocked(s, rk)
  }

  // Nothing newer has happened to a record the deletion changed.
  predicate LinkUntouched(s: State, k: RecordKey, link: Link) {
    k in s.live && Version(s, k) == link.version
  }

  // restore_recycled_record undoes the change set of the deletion: all of it or nothing, and only if the flush hook
  // accepts what is put back.
  predicate Restorable(s: State, rk: RecordKey) {
    && rk in s.recycled && rk !in s.live
    && (forall k :: k in LinksOf(s, rk) ==> LinkUntouched(s, k, LinksOf(s, rk)[k]))
    && HookAcceptsNew(s, rk, s.recycled[rk])
    && (forall k :: k in LinksOf(s, rk) && k in s.live ==> HookAcceptsWrite(s, k, s.live[k], LinksOf(s, rk)[k].before))
  }

  // No record, live, recycled or changed by the deletion of a recycled one, lists anything in the field.
  predicate Unused(s: State, fk: FieldKey) {
    && (forall rk :: rk in s.live && rk.table == fk.table ==> Value(s.live[rk], fk.field) == [])
    && (forall rk :: rk in s.recycled && rk.table == fk.table ==> Value(s.recycled[rk], fk.field) == [])
    && (forall rk, k :: rk in s.links && k in s.links[rk] && k.table == fk.table ==>
          Value(s.links[rk][k].before, fk.field) == [])
  }

  predicate InTime(env: Env, s: State, id: Id)
    requires id in s.uploads
  {
    env.uploadsInTime ==> s.now < s.uploads[id].createdAt + env.grace
  }

  predicate Handling(s: State, id: Id, phase: Phase) {
    id in s.uploads && s.uploads[id].phase == phase
  }

  function Without(refs: seq<Ref>, id: Id): (r: seq<Ref>)
    ensures forall x :: x in r <==> x in refs && x.id != id
    ensures DistinctIds(refs) ==> DistinctIds(r)
  {
    if refs == [] then [] else
      assert DistinctIds(refs) ==> DistinctIds(refs[1..]);
      var rest := Without(refs[1..], id);
      if refs[0].id == id then rest else [refs[0]] + rest
  }

  // The handler's own checks under the record lock, before the flush hook has its say.
  predicate ActivationReady(env: Env, s: State, id: Id) {
    && Handling(s, id, Stored) && InTime(env, s, id)
    && id in s.registry && s.registry[id].status == UploadPending
    && s.registry[id].cell.owner in s.live && !RowLocked(s, s.registry[id].cell.owner)
    && IsAttachment(s, s.registry[id].cell)
    && var cell := s.registry[id].cell;
       Resolvable(s.registry, cell, Value(s.live[cell.owner], cell.field))
  }

  function RefsAfterActivation(s: State, id: Id): seq<Ref>
    requires id in s.registry && s.registry[id].cell.owner in s.live
    requires var cell := s.registry[id].cell;
             Resolvable(s.registry, cell, Value(s.live[cell.owner], cell.field))
  {
    var cell := s.registry[id].cell;
    Resolve(s.registry, Value(s.live[cell.owner], cell.field)) + [Metadata(id, s.registry[id])]
  }

  predicate CanActivate(env: Env, s: State, id: Id) {
    ActivationReady(env, s, id) &&
    ExactCell(s.registry[id := s.registry[id].(status := Active)], s.registry[id].cell, RefsAfterActivation(s, id))
  }

  predicate DetachReady(s: State, id: Id) {
    && id in s.registry && s.registry[id].status == Active && s.registry[id].cell.owner in s.live
    && !RowLocked(s, s.registry[id].cell.owner) && IsAttachment(s, s.registry[id].cell)
    && var cell := s.registry[id].cell;
       Resolvable(s.registry, cell, Value(s.live[cell.owner], cell.field)) &&
       id in Ids(Value(s.live[cell.owner], cell.field))
  }

  function RefsAfterDetach(s: State, id: Id): seq<Ref>
    requires DetachReady(s, id)
  {
    var cell := s.registry[id].cell;
    Without(Resolve(s.registry, Value(s.live[cell.owner], cell.field)), id)
  }

  predicate CanDetach(s: State, id: Id) {
    DetachReady(s, id) &&
    ExactCell(s.registry[id := s.registry[id].(status := DeletePending)], s.registry[id].cell, RefsAfterDetach(s, id))
  }

  predicate RecordEnabled(env: Env, s: State, e: RecordEvent) {
    match e
    case CreateRecord(rk, data) =>
      rk !in s.live && (env.recordIdsFresh ==> rk !in s.usedRecords) && HookAcceptsNew(s, rk, data)
    case SoftDelete(rk, linked) => rk in s.live && rk !in linked && linked <= s.live.Keys && !AnyLocked(s, linked + {rk})
    case Restore(rk) => Restorable(s, rk) && !AnyLocked(s, LinksOf(s, rk).Keys)
    case Purge(rk) => rk in s.recycled
  }

  // A locked load and any write wait for the writer that holds the row's lock.
  predicate WriterEnabled(env: Env, s: State, w: nat, e: WriterEvent) {
    match e
    case Load(rk, locked) =>
      && w !in s.writers && rk in s.live
      && (env.writersLockRows ==> locked) && (locked ==> !RowLocked(s, rk))
    case Flush(data, _) =>
      && w in s.writers && s.writers[w].rk in s.live
      && (s.writers[w].locked || !RowLocked(s, s.writers[w].rk))
      && HookAcceptsWrite(s, s.writers[w].rk, s.writers[w].snapshot, data)
    case GiveUp => w in s.writers
  }

  predicate FieldEnabled(env: Env, s: State, e: FieldEvent) {
    match e
    case AddField(fk) => fk !in s.fields && (env.fieldsComeEmpty ==> Unused(s, fk))
    case RemoveField(fk, _) => fk in s.fields && !env.fieldsStay
  }

  predicate UploadEnabled(env: Env, s: State, id: Id, e: UploadEvent) {
    match e
    case BeginUpload(cell, _, _, _) => id !in s.usedIds && cell.owner in s.usedRecords && IsAttachment(s, cell)
    case PutReturns => Handling(s, id, IntentCommitted) && InTime(env, s, id)
    case PutRaises(landed) => Handling(s, id, IntentCommitted) && (landed ==> InTime(env, s, id))
    case Activate => CanActivate(env, s, id)
    case ActivateCommitsThenRaises => !env.updateIsAtomic && CanActivate(env, s, id)
    case ActivateFails => Handling(s, id, Stored)
    case FailedUploadRemoves => Handling(s, id, Failing) && id in s.registry
    case FailedUploadDeletesRow => Handling(s, id, FailRemoved)
    case FailedUploadKeepsMarker(_) => Handling(s, id, Failing) && id in s.registry
    case UploadStops => id in s.uploads
    case PutLandsLate(_) => !env.putsSettle && id in s.usedIds && !Handling(s, id, IntentCommitted)
  }

  predicate CleanerEnabled(env: Env, s: State, job: nat, e: CleanerEvent) {
    match e
    case Detach(id) => job !in s.jobs && CanDetach(s, id)
    case PickRow(id) => job !in s.jobs && id in s.registry && Eligible(env.grace, s.now, s.registry[id])
    case RemoveObject => job in s.jobs && !s.jobs[job].removed
    case RemoveFails(_) => job in s.jobs && !s.jobs[job].removed && s.jobs[job].id in s.registry
    case DeleteRow => job in s.jobs && s.jobs[job].removed
    case JobStops => job in s.jobs
  }

  predicate Enabled(env: Env, s: State, e: Event) {
    match e
    case Tick(_) => true
    case Records(re) => RecordEnabled(env, s, re)
    case Writers(w, we) => WriterEnabled(env, s, w, we)
    case Fields(fe) => FieldEnabled(env, s, fe)
    case Uploads(id, ue) => UploadEnabled(env, s, id, ue)
    case Cleaner(job, ce) => CleanerEnabled(env, s, job, ce)
    case PickOrphan(id) => id in s.registry && Orphan(s, s.registry[id])
    case MarkOrphan(id) => id in s.orphans && id in s.registry
  }

  function Activated(env: Env, s: State, id: Id): State
    requires CanActivate(env, s, id)
  {
    var cell := s.registry[id].cell;
    s.(registry := s.registry[id := s.registry[id].(status := Active)],
       live := s.live[cell.owner := s.live[cell.owner][cell.field := RefsAfterActivation(s, id)]],
       versions := Raised(s, {cell.owner}))
  }

  // The deletion takes its links out of other records; what they list is not touched by that.
  function Deleted(s: State, rk: RecordKey, linked: set<RecordKey>): State
    requires rk in s.live && linked <= s.live.Keys
  {
    s.(live := s.live - {rk}, recycled := s.recycled[rk := s.live[rk]], versions := Raised(s, linked + {rk}),
       links := s.links[rk := map k | k in linked :: Link(Version(s, k) + 1, s.live[k])])
  }

  function PutBack(s: State, rk: RecordKey): map<RecordKey, Data> {
    map k | k in s.live :: if k in LinksOf(s, rk) then LinksOf(s, rk)[k].before else s.live[k]
  }

  function Restored(s: State, rk: RecordKey): State
    requires rk in s.recycled
  {
    s.(recycled := s.recycled - {rk}, live := PutBack(s, rk)[rk := s.recycled[rk]],
       versions := Raised(s, LinksOf(s, rk).Keys + {rk}), links := s.links - {rk})
  }

  function ApplyRecord(env: Env, s: State, e: RecordEvent): State
    requires RecordEnabled(env, s, e)
  {
    match e
    case CreateRecord(rk, data) =>
      s.(live := s.live[rk := data], versions := s.versions[rk := 1], usedRecords := s.usedRecords + {rk})
    case SoftDelete(rk, linked) => Deleted(s, rk, linked)
    case Restore(rk) => Restored(s, rk)
    case Purge(rk) => s.(recycled := s.recycled - {rk}, links := s.links - {rk})
  }

  function ApplyWriter(env: Env, s: State, w: nat, e: WriterEvent): State
    requires WriterEnabled(env, s, w, e)
  {
    match e
    case Load(rk, locked) => s.(writers := s.writers[w := Writer(rk, s.live[rk], Version(s, rk), locked)])
    case Flush(data, versioned) =>
      s.(live := s.live[s.writers[w].rk := data], writers := s.writers - {w},
         versions := if versioned then s.versions[s.writers[w].rk := s.writers[w].version + 1] else s.versions)
    case GiveUp => s.(writers := s.writers - {w})
  }

  function Stripped(live: map<RecordKey, Data>, fk: FieldKey): map<RecordKey, Data> {
    map rk | rk in live :: if rk.table == fk.table then live[rk] - {fk.field} else live[rk]
  }

  function ApplyField(env: Env, s: State, e: FieldEvent): State
    requires FieldEnabled(env, s, e)
  {
    match e
    case AddField(fk) => s.(fields := s.fields + {fk})
    case RemoveField(fk, stripped) =>
      s.(fields := s.fields - {fk}, live := if stripped then Stripped(s.live, fk) else s.live)
  }

  function ApplyUpload(env: Env, s: State, id: Id, e: UploadEvent): State
    requires UploadEnabled(env, s, id, e)
  {
    match e
    case BeginUpload(cell, name, size, contentType) =>
      var row := Row(cell, ObjectKey(cell.owner, id), name, size, contentType, UploadPending, s.now, 0);
      s.(registry := s.registry[id := row], usedIds := s.usedIds + {id},
         uploads := s.uploads[id := Upload(cell, s.now, IntentCommitted)])
    case PutReturns =>
      s.(objects := s.objects + {ObjectKey(s.uploads[id].cell.owner, id)}, uploads := Moved(s, id, Stored))
    case PutRaises(landed) =>
      s.(objects := if landed then s.objects + {ObjectKey(s.uploads[id].cell.owner, id)} else s.objects,
         uploads := Moved(s, id, Failing))
    case Activate => Activated(env, s, id).(uploads := s.uploads - {id})
    case ActivateCommitsThenRaises => Activated(env, s, id).(uploads := Moved(s, id, Failing))
    case ActivateFails => s.(uploads := Moved(s, id, Failing))
    case FailedUploadRemoves =>
      s.(objects := s.objects - {s.registry[id].key}, uploads := Moved(s, id, FailRemoved))
    case FailedUploadDeletesRow => s.(registry := s.registry - {id}, uploads := s.uploads - {id})
    case FailedUploadKeepsMarker(landed) =>
      var row := s.registry[id];
      s.(registry := s.registry[id := row.(status := DeletePending, attempts := row.attempts + 1)],
         objects := if landed then s.objects - {row.key} else s.objects, uploads := s.uploads - {id})
    case UploadStops => s.(uploads := s.uploads - {id})
    case PutLandsLate(owner) => s.(objects := s.objects + {ObjectKey(owner, id)})
  }

  function ApplyCleaner(env: Env, s: State, job: nat, e: CleanerEvent): State
    requires CleanerEnabled(env, s, job, e)
  {
    match e
    case Detach(id) =>
      var row := s.registry[id].(status := DeletePending);
      s.(registry := s.registry[id := row], jobs := s.jobs[job := Job(id, row.key, false)],
         live := s.live[row.cell.owner := s.live[row.cell.owner][row.cell.field := RefsAfterDetach(s, id)]],
         versions := Raised(s, {row.cell.owner}))
    case PickRow(id) => s.(jobs := s.jobs[job := Job(id, s.registry[id].key, false)])
    case RemoveObject =>
      s.(objects := s.objects - {s.jobs[job].key}, jobs := s.jobs[job := s.jobs[job].(removed := true)])
    case RemoveFails(landed) =>
      var id := s.jobs[job].id;
      s.(registry := s.registry[id := s.registry[id].(attempts := s.registry[id].attempts + 1)],
         objects := if landed then s.objects - {s.jobs[job].key} else s.objects, jobs := s.jobs - {job})
    case DeleteRow => s.(registry := s.registry - {s.jobs[job].id}, jobs := s.jobs - {job})
    case JobStops => s.(jobs := s.jobs - {job})
  }

  function Apply(env: Env, s: State, e: Event): State
    requires Enabled(env, s, e)
  {
    match e
    case Tick(d) => s.(now := s.now + d)
    case Records(re) => ApplyRecord(env, s, re)
    case Writers(w, we) => ApplyWriter(env, s, w, we)
    case Fields(fe) => ApplyField(env, s, fe)
    case Uploads(id, ue) => ApplyUpload(env, s, id, ue)
    case Cleaner(job, ce) => ApplyCleaner(env, s, job, ce)
    case PickOrphan(id) => s.(orphans := s.orphans + {id})
    case MarkOrphan(id) =>
      s.(registry := s.registry[id := s.registry[id].(status := PurgePending)], orphans := s.orphans - {id})
  }

  function Moved(s: State, id: Id, phase: Phase): map<Id, Upload>
    requires id in s.uploads
  {
    s.uploads[id := s.uploads[id].(phase := phase)]
  }

  predicate Run(env: Env, s: State, es: seq<Event>)
    decreases |es|
  {
    es == [] || (Enabled(env, s, es[0]) && Run(env, Apply(env, s, es[0]), es[1..]))
  }

  function Exec(env: Env, s: State, es: seq<Event>): State
    requires Run(env, s, es)
    decreases |es|
  {
    if es == [] then s else Exec(env, Apply(env, s, es[0]), es[1..])
  }

  // ---------------------------------------------------------------- what the protocol is for

  // Every reference a live record shows can be downloaded.
  predicate NoDanglingReference(s: State) {
    forall rk, f :: rk in s.live && f in s.live[rk] && IsAttachment(s, Cell(rk, f)) ==> forall r :: r in s.live[rk][f] ==>
      IsActiveIn(s.registry, Cell(rk, f), r.id) && s.registry[r.id].key == r.key && r.key in s.objects
  }

  // Every stored object has a durable row that will lead a cleaner to it.
  predicate NoLeakedObject(s: State) {
    forall k :: k in s.objects ==> k.id in s.registry && s.registry[k.id].key == k
  }

  // Every live attachment cell lists exactly the ACTIVE rows bound to it, and no other cell has any.
  ghost predicate ExactSets(s: State) {
    forall rk, f :: rk in s.live ==> SoundCell(s.fields, s.registry, Cell(rk, f), Value(s.live[rk], f))
  }

  ghost predicate Safe(s: State) {
    NoDanglingReference(s) && NoLeakedObject(s) && ExactSets(s)
  }

  // ---------------------------------------------------------------- the inductive invariant

  predicate RowsWellFormed(s: State) {
    forall id :: id in s.registry ==>
      && id in s.usedIds
      && s.registry[id].key == ObjectKey(s.registry[id].cell.owner, id)
      && s.registry[id].cell.owner in s.usedRecords && IsAttachment(s, s.registry[id].cell)
      && (s.registry[id].status == Active ==> s.registry[id].key in s.objects)
  }

  predicate RecordsWellFormed(s: State) {
    s.live.Keys + s.recycled.Keys <= s.usedRecords && s.live.Keys !! s.recycled.Keys
  }

  ghost predicate ExactSnapshots(s: State) {
    forall rk, f :: rk in s.recycled ==> SoundCell(s.fields, s.registry, Cell(rk, f), Value(s.recycled[rk], f))
  }

  // Every writer holds its row's lock, alone, and what it loaded is what the row still holds.
  predicate WritersWellFormed(s: State) {
    && (forall w :: w in s.writers ==>
          && s.writers[w].locked && s.writers[w].rk in s.live
          && s.live[s.writers[w].rk] == s.writers[w].snapshot && Version(s, s.writers[w].rk) == s.writers[w].version)
    && (forall w, v :: w in s.writers && v in s.writers && w != v ==> s.writers[w].rk != s.writers[v].rk)
  }

  // A handler still on its way owns an unexpired intent; one that failed never owns an ACTIVE row.
  predicate UploadWellFormed(env: Env, s: State, id: Id)
    requires id in s.uploads
  {
    var u := s.uploads[id];
    && id in s.usedIds && u.cell.owner in s.usedRecords
    && (id in s.registry ==>
          s.registry[id].cell == u.cell && s.registry[id].createdAt == u.createdAt &&
          s.registry[id].status != Active)
    && (u.phase in {IntentCommitted, Stored} && s.now < u.createdAt + env.grace ==>
          id in s.registry && s.registry[id].status == UploadPending &&
          (u.phase == Stored ==> ObjectKey(u.cell.owner, id) in s.objects))
    && (u.phase == FailRemoved ==> ObjectKey(u.cell.owner, id) !in s.objects)
  }

  predicate UploadsWellFormed(env: Env, s: State) {
    forall id :: id in s.uploads ==> UploadWellFormed(env, s, id)
  }

  // However stale a cleaner's pick, its row has not become anything that must be kept.
  predicate JobWellFormed(env: Env, s: State, job: Job) {
    && job.id in s.usedIds && job.key.id == job.id
    && (job.id in s.registry ==> s.registry[job.id].key == job.key && Eligible(env.grace, s.now, s.registry[job.id]))
    && (job.removed ==> job.key !in s.objects)
  }

  predicate JobsWellFormed(env: Env, s: State) {
    forall j :: j in s.jobs ==> JobWellFormed(env, s, s.jobs[j])
  }

  predicate OrphansWellFormed(s: State) {
    forall id :: id in s.orphans ==>
      && id in s.usedIds
      && (id in s.registry ==>
            && s.registry[id].status in {Active, PurgePending}
            && s.registry[id].cell.owner !in s.live
            && s.registry[id].cell.owner !in s.recycled)
      && id !in s.uploads
  }

  predicate Bookkeeping(env: Env, s: State) {
    && RowsWellFormed(s) && RecordsWellFormed(s) && NoLeakedObject(s)
    && UploadsWellFormed(env, s) && JobsWellFormed(env, s) && OrphansWellFormed(s) && WritersWellFormed(s)
  }

  ghost predicate Inv(env: Env, s: State) {
    Bookkeeping(env, s) && ExactSets(s) && ExactSnapshots(s)
  }

  predicate Assumed(env: Env) {
    && env.uploadsInTime && env.updateIsAtomic && env.recordIdsFresh
    && env.putsSettle && env.writersLockRows && env.fieldsStay && env.fieldsComeEmpty
  }
}
