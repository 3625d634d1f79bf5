/** Creating a task once per idempotency key, when requests race, fail, crash and are sent again. */
module ClipperReceipts {
  import opened Options

  datatype Key = Key(user: nat, mutation: string)

  datatype Response = Response(task: string, body: string)

  datatype Receipt = Receipt(fingerprint: string, response: Response)

  // Every record created for a key, and the one receipt the unique constraint allows it
  datatype Database = Database(records: map<string, Key>, receipts: map<Key, Receipt>)

  datatype Answer = Answer(key: Key, fingerprint: string, response: Response)

  datatype Phase =
    | Checking
    | Building                      // no receipt seen; preparing the record
    | Committing(response: Response)
    | Retrying                      // the commit raised; looking for a receipt again

  datatype Attempt = Attempt(key: Key, fingerprint: string, phase: Phase)

  // answers: everything any request has been answered so far
  datatype State = State(db: Database, attempts: map<nat, Attempt>, answers: seq<Answer>)

  datatype CommitResult =
    | Done
    | DoneButRaised    // the database committed, the client never heard
    | NotDone          // refused by the constraint, or failed for any other reason

  datatype Event =
    | Arrive(id: nat, key: Key, fingerprint: string)
    | Check(id: nat)
    | Build(id: nat, response: Response)
    | Commit(id: nat, result: CommitResult)
    | LookAgain(id: nat)
    | Leave(id: nat)    // any other error, or a crash

  predicate InPhase(s: State, id: nat, phase: Phase) {
    id in s.attempts && s.attempts[id].phase == phase
  }

  // Record ids are drawn at random and never come twice.
  predicate NewTask(s: State, task: string) {
    && task !in s.db.records
    && forall id :: id in s.attempts && s.attempts[id].phase.Committing? ==> s.attempts[id].phase.response.task != task
  }

  predicate Enabled(s: State, e: Event) {
    match e
    case Arrive(id, _, _) => id !in s.attempts
    case Check(id) => InPhase(s, id, Checking)
    case Build(id, response) => InPhase(s, id, Building) && NewTask(s, response.task)
    case Commit(id, result) =>
      id in s.attempts && s.attempts[id].phase.Committing? &&
      (!result.NotDone? ==> s.attempts[id].key !in s.db.receipts)
    case LookAgain(id) => InPhase(s, id, Retrying)
    case Leave(id) => id in s.attempts
  }

  // The record and its receipt go in together.
  function Stored(db: Database, key: Key, fingerprint: string, response: Response): Database {
    Database(db.records[response.task := key], db.receipts[key := Receipt(fingerprint, response)])
  }

  function Answered(s: State, id: nat, response: Response): State
    requires id in s.attempts
  {
    s.(attempts := s.attempts - {id},
       answers := s.answers + [Answer(s.attempts[id].key, s.attempts[id].fingerprint, response)])
  }

  function Gone(s: State, id: nat): State {
    s.(attempts := s.attempts - {id})
  }

  function InNext(s: State, id: nat, phase: Phase): State
    requires id in s.attempts
  {
    s.(attempts := s.attempts[id := s.attempts[id].(phase := phase)])
  }

  predicate HasMatch(s: State, id: nat)
    requires id in s.attempts
  {
    s.attempts[id].key in s.db.receipts && s.db.receipts[s.attempts[id].key].fingerprint == s.attempts[id].fingerprint
  }

  function Apply(s: State, e: Event): State
    requires Enabled(s, e)
  {
    match e
    case Arrive(id, key, fingerprint) => s.(attempts := s.attempts[id := Attempt(key, fingerprint, Checking)])
    case Check(id) =>
      var key := s.attempts[id].key;
      if key !in s.db.receipts then InNext(s, id, Building)
      else if !HasMatch(s, id) then Gone(s, id)   // 409
      else Answered(s, id, s.db.receipts[key].response)
    case Build(id, response) => InNext(s, id, Committing(response))
    case Commit(id, result) =>
      var a := s.attempts[id];
      var db := if result.NotDone? then s.db else Stored(s.db, a.key, a.fingerprint, a.phase.response);
      if result.Done? then Answered(s.(db := db), id, a.phase.response) else InNext(s.(db := db), id, Retrying)
    case LookAgain(id) =>
      if HasMatch(s, id) then Answered(s, id, s.db.receipts[s.attempts[id].key].response) else Gone(s, id)
    case Leave(id) => Gone(s, id)
  }

  // ---------------------------------------------------------------- invariant

  // The records of a key are exactly the one its receipt names.
  predicate OneRecordPerKey(db: Database) {
    && (forall r :: r in db.records ==>
          db.records[r] in db.receipts && db.receipts[db.records[r]].response.task == r)
    && (forall k :: k in db.receipts ==>
          db.receipts[k].response.task in db.records && db.records[db.receipts[k].response.task] == k)
  }

  // What a request has been told is what the receipt says, and only requests the receipt was written for were told.
  predicate AnswersAgree(s: State) {
    forall i :: 0 <= i < |s.answers| ==>
      && s.answers[i].key in s.db.receipts
      && s.db.receipts[s.answers[i].key] == Receipt(s.answers[i].fingerprint, s.answers[i].response)
  }

  function Committers(s: State): set<nat> {
    set id | id in s.attempts && s.attempts[id].phase.Committing?
  }

  predicate TasksApart(s: State) {
    && (forall id :: id in s.attempts && s.attempts[id].phase.Committing? ==>
          s.attempts[id].phase.response.task !in s.db.records)
    && (forall id, id' :: id in Committers(s) && id' in Committers(s) && id != id' ==>
          s.attempts[id].phase.response.task != s.attempts[id'].phase.response.task)
  }

  predicate Inv(s: State) {
    OneRecordPerKey(s.db) && AnswersAgree(s) && TasksApart(s)
  }

  lemma StepKeepsTasksApart(s: State, e: Event)
    requires TasksApart(s) && Enabled(s, e)
    ensures TasksApart(Apply(s, e))
  {
    var s' := Apply(s, e);
    assert forall id :: id in Committers(s') && !(e.Build? && id == e.id) ==>
      id in Committers(s) && s'.attempts[id].phase == s.attempts[id].phase;
  }

  lemma StepKeepsReceipts(s: State, e: Event)
    requires Enabled(s, e)
    ensures forall k :: k in s.db.receipts ==>
              k in Apply(s, e).db.receipts && Apply(s, e).db.receipts[k] == s.db.receipts[k]
    ensures s.answers <= Apply(s, e).answers
  {
  }

  lemma StepKeepsInv(s: State, e: Event)
    requires Inv(s) && Enabled(s, e)
    ensures Inv(Apply(s, e))
  {
    StepKeepsTasksApart(s, e);
    StepKeepsReceipts(s, e);
  }

  // ---------------------------------------------------------------- runs

  predicate Run(s: State, es: seq<Event>)
    decreases |es|
  {
    es == [] || (Enabled(s, es[0]) && Run(Apply(s, es[0]), es[1..]))
  }

  function Exec(s: State, es: seq<Event>): State
    requires Run(s, es)
    decreases |es|
  {
    if es == [] then s else Exec(Apply(s, es[0]), es[1..])
  }

  const INIT := State(Database(map[], map[]), map[], [])

  lemma {:induction false} RunKeepsInv(s: State, es: seq<Event>)
    requires Inv(s) && Run(s, es)
    ensures Inv(Exec(s, es))
    ensures forall k :: k in s.db.receipts ==>
              k in Exec(s, es).db.receipts && Exec(s, es).db.receipts[k] == s.db.receipts[k]
    ensures s.answers <= Exec(s, es).answers
    decreases |es|
  {
    if es != [] {
      StepKeepsInv(s, es[0]);
      StepKeepsReceipts(s, es[0]);
      RunKeepsInv(Apply(s, es[0]), es[1..]);
    }
  }

  // However many requests carry a key, and however they race, fail and are repeated: one record at most is ever
  // created for it, and everyone who is answered is answered the same, for the same request.
  lemma ExactlyOnce(es: seq<Event>, key: Key)
    requires Run(INIT, es)
    ensures var s := Exec(INIT, es);
            && (forall r, r' :: r in s.db.records && r' in s.db.records && s.db.records[r] == key && s.db.records[r'] == key
                  ==> r == r')
            && (forall i, j :: 0 <= i < |s.answers| && 0 <= j < |s.answers| && s.answers[i].key == key == s.answers[j].key
                  ==> s.answers[i] == s.answers[j] && s.answers[i].response.task in s.db.records)
  {
    RunKeepsInv(INIT, es);
  }

  // A request sent again after one was answered is answered the same without creating anything, or refused if it
  // is a different request under the same key; and this stays so whatever happens in between.
  lemma RepeatsAreRecognised(s: State, es: seq<Event>, i: nat, id: nat)
    requires Inv(s) && Run(s, es) && i < |s.answers|
    requires InPhase(Exec(s, es), id, Checking) && Exec(s, es).attempts[id].key == s.answers[i].key
    ensures var before, after := Exec(s, es), Apply(Exec(s, es), Check(id));
            && after.db == before.db
            && after.answers == before.answers +
                 (if before.attempts[id].fingerprint == s.answers[i].fingerprint then [s.answers[i]] else [])
  {
    RunKeepsInv(s, es);
    assert Exec(s, es).answers[i] == s.answers[i];
  }

  // A commit that raised after all is found again: the request still gets its own answer.
  lemma LostAcknowledgementIsRecovered(s: State, id: nat)
    requires Inv(s) && Enabled(s, Commit(id, DoneButRaised))
    ensures var committed := Apply(s, Commit(id, DoneButRaised));
            && Enabled(committed, LookAgain(id))
            && Apply(committed, LookAgain(id)) == Apply(s, Commit(id, Done))
  {
    var committed := Apply(s, Commit(id, DoneButRaised));
    assert committed.attempts - {id} == s.attempts - {id};
  }

  // Of two racing requests for a key the one that commits second is refused by the constraint, and is answered
  // with the winner's response exactly if it was the same request.
  lemma LoserGetsTheWinnersAnswer(s: State, winner: nat, loser: nat)
    requires Inv(s) && winner != loser && Enabled(s, Commit(winner, Done)) && Enabled(s, Commit(loser, Done))
    requires s.attempts[winner].key == s.attempts[loser].key
    ensures var won := Apply(s, Commit(winner, Done));
            && !Enabled(won, Commit(loser, Done)) && Enabled(won, Commit(loser, NotDone))
            && var lost := Apply(won, Commit(loser, NotDone));
               && Enabled(lost, LookAgain(loser))
               && Apply(lost, LookAgain(loser)).db == won.db
               && Apply(lost, LookAgain(loser)).answers == won.answers +
                    (if s.attempts[loser].fingerprint == s.attempts[winner].fingerprint
                     then [Answer(s.attempts[loser].key, s.attempts[loser].fingerprint,
                                  s.attempts[winner].phase.response)]
                     else [])
  {
  }

  // ---------------------------------------------------------------- the handler on its own

  datatype Reply = Created(response: Response) | Repeated(response: Response) | Conflict | Failed

  class Clipper {
    var db: Database

    constructor (start: Database)
      ensures db == start
    {
      db := start;
    }

    method FindReceipt(key: Key) returns (receipt: Option<Receipt>)
      ensures receipt == if key in db.receipts then Some(db.receipts[key]) else None
    {
      receipt := if key in db.receipts then Some(db.receipts[key]) else None;
    }

    // With nobody else about, the constraint never refuses and a failed commit leaves nothing behind.
    method CreateTask(key: Key, fingerprint: string, response: Response, result: CommitResult) returns (reply: Reply)
      requires OneRecordPerKey(db) && response.task !in db.records
      modifies this
      ensures OneRecordPerKey(db)
      ensures reply.Conflict? <==> key in old(db).receipts && old(db).receipts[key].fingerprint != fingerprint
      ensures reply.Created? <==> key !in old(db).receipts && result.Done?
      ensures reply.Repeated? <==> key in db.receipts && db.receipts[key].fingerprint == fingerprint && !reply.Created?
      ensures reply.Created? || reply.Repeated? ==>
                key in db.receipts && db.receipts[key] == Receipt(fingerprint, reply.response)
      ensures key in old(db).receipts || result.NotDone? ==> db == old(db)
      ensures key !in old(db).receipts && !result.NotDone? ==>
                && db.records == old(db).records[response.task := key]
                && db.receipts == old(db).receipts[key := Receipt(fingerprint, response)]
    {
      var receipt := FindReceipt(key);
      if receipt.Some? {
        if receipt.value.fingerprint != fingerprint {
          return Conflict;
        }
        return Repeated(receipt.value.response);
      }
      if !result.NotDone? {
        db := db.(records := db.records[response.task := key]);
        db := db.(receipts := db.receipts[key := Receipt(fingerprint, response)]);
      }
      if !result.Done? {
        receipt := FindReceipt(key);
        if receipt.Some? && receipt.value.fingerprint == fingerprint {
          return Repeated(receipt.value.response);
        }
        return Failed;
      }
      return Created(response);
    }
  }

  // What the handler goes through when nobody else is about
  function Statements(db: Database, id: nat, key: Key, fingerprint: string, response: Response, result: CommitResult):
    seq<Event>
  {
    [Arrive(id, key, fingerprint), Check(id)] +
    if key in db.receipts then []
    else [Build(id, response), Commit(id, result)] + if result.Done? then [] else [LookAgain(id)]
  }

  lemma TwoMore(s: State, a: Event, b: Event, rest: seq<Event>)
    requires Enabled(s, a) && Enabled(Apply(s, a), b) && Run(Apply(Apply(s, a), b), rest)
    ensures Run(s, [a, b] + rest) && Exec(s, [a, b] + rest) == Exec(Apply(Apply(s, a), b), rest)
  {
    assert ([a, b] + rest)[1..] == [b] + rest && ([b] + rest)[1..] == rest;
  }

  // From where it has found no receipt to the end
  lemma FirstTime(s: State, id: nat, response: Response, result: CommitResult)
    requires s.attempts.Keys == {id} && s.attempts[id].phase == Building
    requires s.attempts[id].key !in s.db.receipts && response.task !in s.db.records
    ensures var key, fingerprint := s.attempts[id].key, s.attempts[id].fingerprint;
            var es := [Build(id, response), Commit(id, result)] + if result.Done? then [] else [LookAgain(id)];
            Run(s, es) && Exec(s, es) ==
              if result.NotDone? then State(s.db, map[], s.answers)
              else State(Database(s.db.records[response.task := key],
                                  s.db.receipts[key := Receipt(fingerprint, response)]),
                         map[], s.answers + [Answer(key, fingerprint, response)])
  {
    var built := Apply(s, Build(id, response));
    var committed := Apply(built, Commit(id, result));
    if result.Done? {
      assert Run(committed, []);
      TwoMore(s, Build(id, response), Commit(id, result), []);
    } else {
      var last := Apply(committed, LookAgain(id));
      assert [LookAgain(id)][1..] == [] && Run(last, []);
      assert Run(committed, [LookAgain(id)]);
      TwoMore(s, Build(id, response), Commit(id, result), [LookAgain(id)]);
    }
  }

  // The handler left alone is a run of the protocol, with the effect the method has: a first request creates its
  // record, even if it hears of its commit only by looking again; a repeated one is answered from the receipt; one
  // that conflicts or whose commit fails is not answered and leaves nothing.
  lemma CreateTaskIsRun(s: State, id: nat, key: Key, fingerprint: string, response: Response, result: CommitResult)
    requires s.attempts == map[] && response.task !in s.db.records
    ensures Run(s, Statements(s.db, id, key, fingerprint, response, result))
    ensures var last := Exec(s, Statements(s.db, id, key, fingerprint, response, result));
            && last.attempts == map[]
            && (key in s.db.receipts ==>
                 && last.db == s.db
                 && last.answers == s.answers +
                      if s.db.receipts[key].fingerprint == fingerprint
                      then [Answer(key, fingerprint, s.db.receipts[key].response)] else [])
            && (key !in s.db.receipts && result.NotDone? ==> last.db == s.db && last.answers == s.answers)
            && (key !in s.db.receipts && !result.NotDone? ==>
                 && last.db.records == s.db.records[response.task := key]
                 && last.db.receipts == s.db.receipts[key := Receipt(fingerprint, response)]
                 && last.answers == s.answers + [Answer(key, fingerprint, response)])
  {
    var arrived := Apply(s, Arrive(id, key, fingerprint));
    var checked := Apply(arrived, Check(id));
    if key in s.db.receipts {
      assert Run(checked, []);
      TwoMore(s, Arrive(id, key, fingerprint), Check(id), []);
    } else {
      FirstTime(checked, id, response, result);
      TwoMore(s, Arrive(id, key, fingerprint), Check(id),
              [Build(id, response), Commit(id, result)] + if result.Done? then [] else [LookAgain(id)]);
    }
  }
}
