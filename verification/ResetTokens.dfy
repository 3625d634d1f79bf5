/** Issuing and spending password-reset tokens, as transactions that interleave statement by statement. */
module ResetTokens {

  datatype Token = Token(user: nat, expires: int, used: bool)

  type Tokens = map<string, Token>

  // A password set by a reset, and the token that allowed it
  datatype Change = Change(user: nat, hash: string, password: string)

  datatype Database = Database(tokens: Tokens, passwords: map<nat, string>, changes: seq<Change>)

  function UnusedOf(tokens: Tokens, user: nat): set<string> {
    set h | h in tokens && !tokens[h].used && tokens[h].user == user
  }

  function Marked(tokens: Tokens, rows: set<string>): Tokens {
    map h | h in tokens :: if h in rows then tokens[h].(used := true) else tokens[h]
  }

  // DELETE of the given rows, INSERT of the new token
  function Issued(db: Database, rows: set<string>, user: nat, hash: string, expires: int): Database {
    db.(tokens := (db.tokens - rows)[hash := Token(user, expires, false)])
  }

  // UPDATE of the password and of the given rows
  function Spent(db: Database, rows: set<string>, user: nat, hash: string, password: string): Database {
    Database(Marked(db.tokens, rows), db.passwords[user := password], db.changes + [Change(user, hash, password)])
  }

  // ---------------------------------------------------------------- transactions

  datatype Job = Issue(user: nat, hash: string, expires: int) | Reset(hash: string, password: string)

  // Reset looks its token up without a lock first; everything after that happens under the user's row lock.
  datatype Phase = Looking | WantsUser | HasUser | HasToken | Ready(rows: set<string>)

  datatype Tx = Tx(job: Job, user: nat, phase: Phase)

  // minted: every token hash drawn so far. Hashes are drawn at random and never come twice.
  datatype State = State(db: Database, txs: map<nat, Tx>, userLocks: map<nat, nat>, tokenLocks: map<string, nat>,
                         minted: set<string>)

  datatype Event =
    | Begin(id: nat, job: Job)
    | Look(id: nat)                // SELECT of the unused token, no lock
    | LockUser(id: nat)            // SELECT of the user FOR UPDATE
    | Gather(id: nat)              // DELETE of the user's unused tokens
    | ReRead(id: nat)              // SELECT of the unused token FOR UPDATE
    | Expire(id: nat, now: int)    // the token has expired: mark it and commit
    | Sweep(id: nat, now: int)     // UPDATE of the user's unused tokens
    | Commit(id: nat)
    | Abort(id: nat)               // an error, a timeout or a crash

  predicate InPhase(s: State, id: nat, phase: Phase) {
    id in s.txs && s.txs[id].phase == phase
  }

  predicate FreeFor(s: State, rows: set<string>, id: nat) {
    forall h :: h in rows && h in s.tokenLocks ==> s.tokenLocks[h] == id
  }

  // The token this reset is about is still there, unused, and its user's.
  predicate Spendable(s: State, id: nat)
    requires id in s.txs
  {
    s.txs[id].job.hash in UnusedOf(s.db.tokens, s.txs[id].user)
  }

  predicate Enabled(s: State, e: Event) {
    match e
    case Begin(id, job) => id !in s.txs && (job.Issue? ==> job.hash !in s.minted)
    case Look(id) => InPhase(s, id, Looking)
    case LockUser(id) => InPhase(s, id, WantsUser) && s.txs[id].user !in s.userLocks
    case Gather(id) =>
      InPhase(s, id, HasUser) && s.txs[id].job.Issue? && FreeFor(s, UnusedOf(s.db.tokens, s.txs[id].user), id)
    case ReRead(id) =>
      InPhase(s, id, HasUser) && s.txs[id].job.Reset? && (Spendable(s, id) ==> FreeFor(s, {s.txs[id].job.hash}, id))
    case Expire(id, now) =>
      InPhase(s, id, HasToken) && s.txs[id].job.hash in s.db.tokens && s.db.tokens[s.txs[id].job.hash].expires < now
    case Sweep(id, now) =>
      && InPhase(s, id, HasToken) && s.txs[id].job.hash in s.db.tokens
      && s.db.tokens[s.txs[id].job.hash].expires >= now
      && FreeFor(s, UnusedOf(s.db.tokens, s.txs[id].user), id)
    case Commit(id) => id in s.txs && s.txs[id].phase.Ready?
    case Abort(id) => id in s.txs
  }

  // The end of a transaction lets go of all its locks.
  function Ended(s: State, id: nat, db: Database): State {
    s.(db := db, txs := s.txs - {id},
       userLocks := map u | u in s.userLocks && s.userLocks[u] != id :: s.userLocks[u],
       tokenLocks := map h | h in s.tokenLocks && s.tokenLocks[h] != id :: s.tokenLocks[h])
  }

  function Moved(s: State, id: nat, phase: Phase, rows: set<string>): State
    requires id in s.txs
  {
    s.(txs := s.txs[id := s.txs[id].(phase := phase)],
       tokenLocks := map h | h in s.tokenLocks.Keys + rows :: if h in rows then id else s.tokenLocks[h])
  }

  function Apply(s: State, e: Event): State
    requires Enabled(s, e)
  {
    match e
    case Begin(id, job) =>
      s.(txs := s.txs[id := Tx(job, if job.Issue? then job.user else 0, if job.Issue? then WantsUser else Looking)],
         minted := if job.Issue? then s.minted + {job.hash} else s.minted)
    case Look(id) =>
      var hash := s.txs[id].job.hash;
      if hash in s.db.tokens && !s.db.tokens[hash].used
      then s.(txs := s.txs[id := s.txs[id].(user := s.db.tokens[hash].user, phase := WantsUser)])
      else Ended(s, id, s.db)
    case LockUser(id) =>
      s.(txs := s.txs[id := s.txs[id].(phase := HasUser)], userLocks := s.userLocks[s.txs[id].user := id])
    case Gather(id) =>
      Moved(s, id, Ready(UnusedOf(s.db.tokens, s.txs[id].user)), UnusedOf(s.db.tokens, s.txs[id].user))
    case ReRead(id) =>
      if Spendable(s, id) then Moved(s, id, HasToken, {s.txs[id].job.hash}) else Ended(s, id, s.db)
    case Expire(id, now) => Ended(s, id, s.db.(tokens := Marked(s.db.tokens, {s.txs[id].job.hash})))
    case Sweep(id, now) =>
      Moved(s, id, Ready(UnusedOf(s.db.tokens, s.txs[id].user)), UnusedOf(s.db.tokens, s.txs[id].user))
    case Commit(id) =>
      var tx := s.txs[id];
      Ended(s, id, match tx.job
                   case Issue(_, hash, expires) => Issued(s.db, tx.phase.rows, tx.user, hash, expires)
                   case Reset(hash, password) => Spent(s.db, tx.phase.rows, tx.user, hash, password))
    case Abort(id) => Ended(s, id, s.db)
  }

  // ---------------------------------------------------------------- the invariant

  // One usable credential at most per user
  predicate OneUnused(tokens: Tokens) {
    forall h, h' :: h in tokens && h' in tokens && !tokens[h].used && !tokens[h'].used && h != h' ==>
      tokens[h].user != tokens[h'].user
  }

  predicate PastUserLock(tx: Tx) {
    tx.phase.HasUser? || tx.phase.HasToken? || tx.phase.Ready?
  }

  // Whoever is past the user's lock holds it, and nobody else does.
  predicate UserLocksHeld(s: State) {
    && (forall u :: u in s.userLocks ==>
          s.userLocks[u] in s.txs && s.txs[s.userLocks[u]].user == u && PastUserLock(s.txs[s.userLocks[u]]))
    && (forall id :: id in s.txs && PastUserLock(s.txs[id]) ==>
          s.txs[id].user in s.userLocks && s.userLocks[s.txs[id].user] == id)
  }

  // A token's lock is only ever held by the one who holds its user's.
  predicate TokenLocksHeld(s: State) {
    forall h :: h in s.tokenLocks ==>
      && h in s.db.tokens && s.db.tokens[h].user in s.userLocks
      && s.userLocks[s.db.tokens[h].user] == s.tokenLocks[h]
  }

  // What a transaction has read under its lock is still so.
  predicate ReadStands(s: State, id: nat)
    requires id in s.txs
  {
    && (s.txs[id].phase.HasToken? ==> s.txs[id].job.Reset? && Spendable(s, id))
    && (s.txs[id].phase.Ready? ==>
          && s.txs[id].phase.rows == UnusedOf(s.db.tokens, s.txs[id].user)
          && (s.txs[id].job.Reset? ==> Spendable(s, id)))
  }

  predicate ReadsStand(s: State) {
    forall id :: id in s.txs ==> ReadStands(s, id)
  }

  predicate HashesFresh(s: State) {
    && s.db.tokens.Keys <= s.minted
    && (forall id :: id in s.txs && s.txs[id].job.Issue? ==>
          s.txs[id].job.hash in s.minted && s.txs[id].job.hash !in s.db.tokens)
    && (forall id, id' :: id in s.txs && id' in s.txs && id != id' && s.txs[id].job.Issue? && s.txs[id'].job.Issue? ==>
          s.txs[id].job.hash != s.txs[id'].job.hash)
    && (forall id :: id in s.txs && s.txs[id].job.Issue? ==> !s.txs[id].phase.Looking?)
  }

  // An issue locks the user it is for.
  predicate IssuesOwnUser(s: State) {
    forall id :: id in s.txs && s.txs[id].job.Issue? ==> !s.txs[id].phase.Looking? && s.txs[id].user == s.txs[id].job.user
  }

  // A token that can never be spent again
  predicate Dead(s: State, hash: string) {
    && hash in s.minted
    && (hash in s.db.tokens ==> s.db.tokens[hash].used)
    && (forall id :: id in s.txs && s.txs[id].job.Issue? ==> s.txs[id].job.hash != hash)
  }

  // Every password change used up its token, and no token made two.
  predicate ChangesSettled(s: State) {
    && (forall i :: 0 <= i < |s.db.changes| ==> Dead(s, s.db.changes[i].hash))
    && (forall i, j :: 0 <= i < j < |s.db.changes| ==> s.db.changes[i].hash != s.db.changes[j].hash)
  }

  predicate Inv(s: State) {
    OneUnused(s.db.tokens) && UserLocksHeld(s) && TokenLocksHeld(s) && ReadsStand(s) && HashesFresh(s) &&
    IssuesOwnUser(s) && ChangesSettled(s)
  }

  lemma StepKeepsUserLocks(s: State, e: Event)
    requires UserLocksHeld(s) && Enabled(s, e)
    ensures UserLocksHeld(Apply(s, e))
  {
  }

  lemma StepKeepsTokenLocks(s: State, e: Event)
    requires UserLocksHeld(s) && TokenLocksHeld(s) && ReadsStand(s) && HashesFresh(s) && Enabled(s, e)
    ensures TokenLocksHeld(Apply(s, e))
  {
  }

  lemma OwnReadStands(s: State, e: Event)
    requires Enabled(s, e) && (e.id in s.txs ==> ReadStands(s, e.id)) && e.id in Apply(s, e).txs
    ensures ReadStands(Apply(s, e), e.id)
  {
  }

  lemma CommitSparesOthers(s: State, e: Event, user: nat)
    requires Enabled(s, e) && ReadsStand(s) && HashesFresh(s) && UserLocksHeld(s)
    requires e.id in s.txs && PastUserLock(s.txs[e.id]) ==> s.txs[e.id].user != user
    ensures UnusedOf(Apply(s, e).db.tokens, user) == UnusedOf(s.db.tokens, user)
  {
  }

  lemma OtherReadStands(s: State, e: Event, id: nat)
    requires Enabled(s, e) && ReadsStand(s) && HashesFresh(s) && UserLocksHeld(s)
    requires id in s.txs && id != e.id
    ensures id in Apply(s, e).txs && Apply(s, e).txs[id] == s.txs[id] && ReadStands(Apply(s, e), id)
  {
    if PastUserLock(s.txs[id]) {
      CommitSparesOthers(s, e, s.txs[id].user);
    }
  }

  lemma StepKeepsReads(s: State, e: Event)
    requires UserLocksHeld(s) && ReadsStand(s) && HashesFresh(s) && Enabled(s, e)
    ensures ReadsStand(Apply(s, e))
  {
    forall id | id in Apply(s, e).txs
      ensures ReadStands(Apply(s, e), id)
    {
      if id == e.id {
        OwnReadStands(s, e);
      } else {
        OtherReadStands(s, e, id);
      }
    }
  }

  lemma JobsStay(s: State, e: Event)
    requires Enabled(s, e) && !e.Begin?
    ensures forall id :: id in Apply(s, e).txs ==> id in s.txs && Apply(s, e).txs[id].job == s.txs[id].job
  {
  }

  lemma StepKeepsHashes(s: State, e: Event)
    requires HashesFresh(s) && Enabled(s, e)
    ensures HashesFresh(Apply(s, e))
  {
    var s' := Apply(s, e);
    if !e.Begin? {
      JobsStay(s, e);
      assert s'.db.tokens.Keys <= s.minted;
    }
  }

  lemma StepKeepsOwnUser(s: State, e: Event)
    requires IssuesOwnUser(s) && Enabled(s, e)
    ensures IssuesOwnUser(Apply(s, e))
  {
  }

  lemma StepKeepsOneUnused(s: State, e: Event)
    requires OneUnused(s.db.tokens) && ReadsStand(s) && Enabled(s, e)
    ensures OneUnused(Apply(s, e).db.tokens)
  {
  }

  lemma StepKeepsChanges(s: State, e: Event)
    requires ReadsStand(s) && HashesFresh(s) && ChangesSettled(s) && Enabled(s, e)
    ensures ChangesSettled(Apply(s, e))
  {
  }

  lemma StepKeepsInv(s: State, e: Event)
    requires Inv(s) && Enabled(s, e)
    ensures Inv(Apply(s, e))
  {
    StepKeepsUserLocks(s, e);
    StepKeepsTokenLocks(s, e);
    StepKeepsReads(s, e);
    StepKeepsHashes(s, e);
    StepKeepsOwnUser(s, e);
    StepKeepsOneUnused(s, e);
    StepKeepsChanges(s, e);
  }

  // ---------------------------------------------------------------- runs

  predicate Run(s: State, es: seq<Event>)
    decreases |es|
  {
    es == [] || (Enabled(s, es[0]) && Run(Apply(s, es[0]), es[1..]))
  }

  function Exec(s: State, es: seq<Event>): State
    requires Run(s, es)
    decreases |es|
  {
    if es == [] then s else Exec(Apply(s, es[0]), es[1..])
  }

  // A database at rest: no transaction open, one unused token per user at most, nothing reset yet.
  predicate AtRest(s: State) {
    && s.txs == map[] && s.userLocks == map[] && s.tokenLocks == map[]
    && OneUnused(s.db.tokens) && s.db.tokens.Keys <= s.minted && s.db.changes == []
  }

  lemma {:induction false} RunKeepsInv(s: State, es: seq<Event>)
    requires Inv(s) && Run(s, es)
    ensures Inv(Exec(s, es))
    decreases |es|
  {
    if es != [] {
      StepKeepsInv(s, es[0]);
      RunKeepsInv(Apply(s, es[0]), es[1..]);
    }
  }

  lemma {:induction false} DeadStaysDead(s: State, es: seq<Event>, hash: string)
    requires Inv(s) && Run(s, es) && Dead(s, hash)
    ensures Dead(Exec(s, es), hash)
    ensures s.db.changes <= Exec(s, es).db.changes
    ensures forall i :: |s.db.changes| <= i < |Exec(s, es).db.changes| ==> Exec(s, es).db.changes[i].hash != hash
    decreases |es|
  {
    if es != [] {
      var next := Apply(s, es[0]);
      StepKeepsInv(s, es[0]);
      StepOnDead(s, es[0], hash);
      DeadStaysDead(next, es[1..], hash);
    }
  }

  lemma StepOnDead(s: State, e: Event, hash: string)
    requires Inv(s) && Enabled(s, e) && Dead(s, hash)
    ensures Dead(Apply(s, e), hash) && s.db.changes <= Apply(s, e).db.changes
    ensures forall i :: |s.db.changes| <= i < |Apply(s, e).db.changes| ==> Apply(s, e).db.changes[i].hash != hash
  {
  }

  // However forgot and reset transactions interleave, fail and crash, there is never more than one usable token
  // per user, and no token ever sets two passwords.
  lemma CredentialsAreSingle(s: State, es: seq<Event>)
    requires AtRest(s) && Run(s, es)
    ensures var db := Exec(s, es).db;
            && (forall h, h' :: h in db.tokens && h' in db.tokens && !db.tokens[h].used && !db.tokens[h'].used && h != h' ==>
                  db.tokens[h].user != db.tokens[h'].user)
            && (forall i, j :: 0 <= i < j < |db.changes| ==> db.changes[i].hash != db.changes[j].hash)
  {
    RunKeepsInv(s, es);
  }

  // What a commit leaves. An issue leaves its user the new token, with the expiry computed for it, in place of every
  // unused one; a reset sets the password and leaves its user no usable token. All else is as it was.
  lemma CommitLeaves(s: State, id: nat)
    requires Inv(s) && Enabled(s, Commit(id))
    ensures var tx, db := s.txs[id], Apply(s, Commit(id)).db;
            tx.job.Issue? ==>
              && tx.job.hash in db.tokens && db.tokens[tx.job.hash] == Token(tx.job.user, tx.job.expires, false)
              && (forall h :: h in db.tokens <==>
                   h == tx.job.hash || (h in s.db.tokens && (s.db.tokens[h].used || s.db.tokens[h].user != tx.job.user)))
              && (forall h :: h in db.tokens && h != tx.job.hash ==> db.tokens[h] == s.db.tokens[h])
              && db.passwords == s.db.passwords && db.changes == s.db.changes
    ensures var tx, db := s.txs[id], Apply(s, Commit(id)).db;
            tx.job.Reset? ==>
              && tx.job.hash in s.db.tokens && !s.db.tokens[tx.job.hash].used
              && var user := s.db.tokens[tx.job.hash].user;
                 && db.passwords == s.db.passwords[user := tx.job.password]
                 && db.changes == s.db.changes + [Change(user, tx.job.hash, tx.job.password)]
                 && db.tokens.Keys == s.db.tokens.Keys
                 && forall h :: h in db.tokens ==>
                      db.tokens[h] == s.db.tokens[h].(used := s.db.tokens[h].used || s.db.tokens[h].user == user)
  {
  }

  // Every other statement leaves the database alone, save that an expired token is taken out of use.
  lemma OthersLeaveTheDatabase(s: State, e: Event)
    requires Inv(s) && Enabled(s, e) && !e.Commit?
    ensures var db := Apply(s, e).db;
            && db.passwords == s.db.passwords && db.changes == s.db.changes && db.tokens.Keys == s.db.tokens.Keys
            && (!e.Expire? ==> db.tokens == s.db.tokens)
            && (e.Expire? ==> forall h :: h in db.tokens ==>
                 db.tokens[h] == s.db.tokens[h].(used := s.db.tokens[h].used || h == s.txs[e.id].job.hash))
  {
  }

  // Once a newer token has been issued to a user, or a reset has gone through, no older token of that user will
  // ever set a password again.
  lemma OlderTokensAreDead(s: State, id: nat, es: seq<Event>, hash: string)
    requires Inv(s) && Enabled(s, Commit(id)) && Run(Apply(s, Commit(id)), es)
    requires hash in s.db.tokens && s.db.tokens[hash].user == s.txs[id].user
    ensures var next, last := Apply(s, Commit(id)), Exec(Apply(s, Commit(id)), es);
            && next.db.changes <= last.db.changes
            && forall i :: |next.db.changes| <= i < |last.db.changes| ==> last.db.changes[i].hash != hash
  {
    StepKeepsInv(s, Commit(id));
    assert Dead(Apply(s, Commit(id)), hash);
    DeadStaysDead(Apply(s, Commit(id)), es, hash);
  }

  // A reset that has its token in hand spends it exactly if the token has not expired, and takes it out of use
  // otherwise.
  lemma ExpiryDecides(s: State, id: nat, now: int)
    requires Inv(s) && id in s.txs && s.txs[id].phase == HasToken
    ensures s.txs[id].job.Reset? && s.txs[id].job.hash in s.db.tokens
    ensures Enabled(s, Sweep(id, now)) <==> now <= s.db.tokens[s.txs[id].job.hash].expires
    ensures Enabled(s, Expire(id, now)) <==> now > s.db.tokens[s.txs[id].job.hash].expires
  {
    assert FreeFor(s, UnusedOf(s.db.tokens, s.txs[id].user), id);
  }

  // ---------------------------------------------------------------- no deadlock

  // A transaction none of whose statements can go through waits for the user's lock, holding nothing, and some
  // statement of the one it waits for can; giving up does not count.
  lemma NoDeadlock(s: State, id: nat, now: int)
    requires Inv(s) && id in s.txs
    ensures (forall e :: e in {Look(id), LockUser(id), Gather(id), ReRead(id), Expire(id, now), Sweep(id, now), Commit(id)}
               ==> !Enabled(s, e)) ==>
            && s.txs[id].phase.WantsUser?
            && (forall u :: u in s.userLocks ==> s.userLocks[u] != id)
            && (forall h :: h in s.tokenLocks ==> s.tokenLocks[h] != id)
            && s.txs[id].user in s.userLocks && s.userLocks[s.txs[id].user] in s.txs
            && var holder := s.userLocks[s.txs[id].user];
               Enabled(s, Gather(holder)) || Enabled(s, ReRead(holder)) || Enabled(s, Expire(holder, now)) ||
               Enabled(s, Sweep(holder, now)) || Enabled(s, Commit(holder))
  {
    if s.txs[id].phase.WantsUser? {
      if s.txs[id].user in s.userLocks {
        PastLockCanMove(s, s.userLocks[s.txs[id].user], now);
      } else {
        assert Enabled(s, LockUser(id));
      }
    } else if s.txs[id].phase.Looking? {
      assert Enabled(s, Look(id));
    } else {
      PastLockCanMove(s, id, now);
    }
  }

  lemma PastLockCanMove(s: State, id: nat, now: int)
    requires Inv(s) && id in s.txs && PastUserLock(s.txs[id])
    ensures Enabled(s, Gather(id)) || Enabled(s, ReRead(id)) || Enabled(s, Expire(id, now)) ||
            Enabled(s, Sweep(id, now)) || Enabled(s, Commit(id))
  {
    assert FreeFor(s, UnusedOf(s.db.tokens, s.txs[id].user), id);
  }

  // ---------------------------------------------------------------- the two handlers, each on its own

  class Accounts {
    var db: Database

    constructor (start: Database)
      ensures db == start
    {
      db := start;
    }

    method CreateResetToken(user: nat, hash: string, expires: int)
      modifies this
      ensures hash in db.tokens && db.tokens[hash] == Token(user, expires, false)
      ensures forall h :: h != hash ==>
                (h in db.tokens <==> h in old(db).tokens && (old(db).tokens[h].used || old(db).tokens[h].user != user))
      ensures forall h :: h != hash && h in db.tokens ==> db.tokens[h] == old(db).tokens[h]
      ensures db.passwords == old(db).passwords && db.changes == old(db).changes
    {
      var unused := UnusedOf(db.tokens, user);
      db := db.(tokens := db.tokens - unused);
      db := db.(tokens := db.tokens[hash := Token(user, expires, false)]);
    }

    // False stands for the one message all refusals share.
    method ResetPassword(hash: string, password: string, now: int) returns (ok: bool)
      modifies this
      ensures ok <==> hash in old(db).tokens && !old(db).tokens[hash].used && old(db).tokens[hash].expires >= now
      ensures db.tokens.Keys == old(db).tokens.Keys
      ensures ok ==>
                var user := old(db).tokens[hash].user;
                && db.passwords == old(db).passwords[user := password]
                && db.changes == old(db).changes + [Change(user, hash, password)]
                && forall h :: h in db.tokens ==>
                     db.tokens[h] == old(db).tokens[h].(used := old(db).tokens[h].used || old(db).tokens[h].user == user)
      ensures !ok ==>
                && db.passwords == old(db).passwords && db.changes == old(db).changes
                && forall h :: h in db.tokens ==>
                     db.tokens[h] == old(db).tokens[h].(used := old(db).tokens[h].used || h == hash)
    {
      if hash !in db.tokens || db.tokens[hash].used {
        return false;
      }
      var user := db.tokens[hash].user;
      if db.tokens[hash].expires < now {
        db := db.(tokens := Marked(db.tokens, {hash}));
        return false;
      }
      db := db.(passwords := db.passwords[user := password], changes := db.changes + [Change(user, hash, password)]);
      db := db.(tokens := Marked(db.tokens, UnusedOf(db.tokens, user)));
      return true;
    }
  }

  function IssueStatements(id: nat, user: nat, hash: string, expires: int): seq<Event> {
    [Begin(id, Issue(user, hash, expires)), LockUser(id), Gather(id), Commit(id)]
  }

  // A handler that is left alone does as a transaction what it does as a method.
  lemma IssueIsRun(s: State, id: nat, user: nat, hash: string, expires: int)
    requires s.txs == map[] && s.userLocks == map[] && s.tokenLocks == map[] && hash !in s.minted
    ensures Run(s, IssueStatements(id, user, hash, expires))
    ensures var last := Exec(s, IssueStatements(id, user, hash, expires));
            && last.txs == map[] && last.userLocks == map[] && last.tokenLocks == map[]
            && hash in last.db.tokens && last.db.tokens[hash] == Token(user, expires, false)
            && (forall h :: h != hash ==>
                 (h in last.db.tokens <==> h in s.db.tokens && (s.db.tokens[h].used || s.db.tokens[h].user != user)))
            && (forall h :: h != hash && h in last.db.tokens ==> last.db.tokens[h] == s.db.tokens[h])
            && last.db.passwords == s.db.passwords && last.db.changes == s.db.changes
  {
    FourSteps(s, Begin(id, Issue(user, hash, expires)), LockUser(id), Gather(id), Commit(id));
  }

  predicate Usable(db: Database, hash: string) {
    hash in db.tokens && !db.tokens[hash].used
  }

  // What the reset handler goes through, alone: it stops where it finds no unused token, and takes an expired one
  // out of use before it refuses.
  function ResetStatements(db: Database, id: nat, hash: string, password: string, now: int): seq<Event> {
    [Begin(id, Reset(hash, password)), Look(id)] +
    if !Usable(db, hash) then []
    else [LockUser(id), ReRead(id)] + if db.tokens[hash].expires < now then [Expire(id, now)] else [Sweep(id, now), Commit(id)]
  }

  lemma ResetIsRun(s: State, id: nat, hash: string, password: string, now: int)
    requires s.txs == map[] && s.userLocks == map[] && s.tokenLocks == map[]
    ensures Run(s, ResetStatements(s.db, id, hash, password, now))
    ensures var last := Exec(s, ResetStatements(s.db, id, hash, password, now));
            && last.txs == map[] && last.db.tokens.Keys == s.db.tokens.Keys
            && if hash in s.db.tokens && !s.db.tokens[hash].used && s.db.tokens[hash].expires >= now then
                 var user := s.db.tokens[hash].user;
                 && last.db.passwords == s.db.passwords[user := password]
                 && last.db.changes == s.db.changes + [Change(user, hash, password)]
                 && forall h :: h in last.db.tokens ==>
                      last.db.tokens[h] == s.db.tokens[h].(used := s.db.tokens[h].used || s.db.tokens[h].user == user)
               else
                 && last.db.passwords == s.db.passwords && last.db.changes == s.db.changes
                 && forall h :: h in last.db.tokens ==>
                      last.db.tokens[h] == s.db.tokens[h].(used := s.db.tokens[h].used || h == hash)
  {
    var s1 := Apply(s, Begin(id, Reset(hash, password)));
    var s2 := Apply(s1, Look(id));
    if !Usable(s.db, hash) {
      assert Run(s2, []);
      TwoMore(s, Begin(id, Reset(hash, password)), Look(id), []);
    } else {
      var owner := s.db.tokens[hash].user;
      assert s2 == s1.(txs := map[id := Tx(Reset(hash, password), owner, WantsUser)]);
      var rest := [LockUser(id), ReRead(id)] +
                  if s.db.tokens[hash].expires < now then [Expire(id, now)] else [Sweep(id, now), Commit(id)];
      UnderLock(s2, id, now);
      TwoMore(s, Begin(id, Reset(hash, password)), Look(id), rest);
    }
  }

  // A token just issued sets the password if it is used by its expiry with nothing in between, and not after it.
  lemma FreshTokenWorksUntilItExpires(s: State, id: nat, user: nat, hash: string, expires: int, later: nat,
                                      password: string, now: int)
    requires s.txs == map[] && s.userLocks == map[] && s.tokenLocks == map[] && hash !in s.minted
    ensures Run(s, IssueStatements(id, user, hash, expires))
    ensures var issued := Exec(s, IssueStatements(id, user, hash, expires));
            && Run(issued, ResetStatements(issued.db, later, hash, password, now))
            && var last := Exec(issued, ResetStatements(issued.db, later, hash, password, now));
               && last.db.passwords == (if now <= expires then s.db.passwords[user := password] else s.db.passwords)
               && last.db.changes == s.db.changes + (if now <= expires then [Change(user, hash, password)] else [])
               && hash in last.db.tokens && last.db.tokens[hash].used
  {
    IssueIsRun(s, id, user, hash, expires);
    ResetIsRun(Exec(s, IssueStatements(id, user, hash, expires)), later, hash, password, now);
  }

  // From where it has found its token to the end
  lemma UnderLock(s: State, id: nat, now: int)
    requires s.txs.Keys == {id} && s.txs[id].phase.WantsUser? && s.txs[id].job.Reset?
    requires s.userLocks == map[] && s.tokenLocks == map[] && Spendable(s, id)
    ensures var hash, user := s.txs[id].job.hash, s.txs[id].user;
            var expired := s.db.tokens[hash].expires < now;
            var es := [LockUser(id), ReRead(id)] + if expired then [Expire(id, now)] else [Sweep(id, now), Commit(id)];
            Run(s, es) && Exec(s, es).txs == map[] &&
            Exec(s, es).db == if expired then s.db.(tokens := Marked(s.db.tokens, {hash}))
                              else Spent(s.db, UnusedOf(s.db.tokens, user), user, hash, s.txs[id].job.password)
  {
    var s2 := Apply(Apply(s, LockUser(id)), ReRead(id));
    if s.db.tokens[s.txs[id].job.hash].expires < now {
      assert Run(Apply(s2, Expire(id, now)), []);
      assert Run(s2, [Expire(id, now)]);
      TwoMore(s, LockUser(id), ReRead(id), [Expire(id, now)]);
    } else {
      var s4 := Apply(Apply(s2, Sweep(id, now)), Commit(id));
      assert Run(s4, []);
      TwoMore(s2, Sweep(id, now), Commit(id), []);
      assert [Sweep(id, now), Commit(id)] + [] == [Sweep(id, now), Commit(id)];
      TwoMore(s, LockUser(id), ReRead(id), [Sweep(id, now), Commit(id)]);
    }
  }

  lemma TwoMore(s: State, a: Event, b: Event, rest: seq<Event>)
    requires Enabled(s, a) && Enabled(Apply(s, a), b) && Run(Apply(Apply(s, a), b), rest)
    ensures Run(s, [a, b] + rest) && Exec(s, [a, b] + rest) == Exec(Apply(Apply(s, a), b), rest)
  {
    assert ([a, b] + rest)[1..] == [b] + rest && ([b] + rest)[1..] == rest;
  }

  lemma FourSteps(s: State, a: Event, b: Event, c: Event, d: Event)
    requires Enabled(s, a) && Enabled(Apply(s, a), b) && Enabled(Apply(Apply(s, a), b), c)
    requires Enabled(Apply(Apply(Apply(s, a), b), c), d)
    ensures Run(s, [a, b, c, d]) && Exec(s, [a, b, c, d]) == Apply(Apply(Apply(Apply(s, a), b), c), d)
  {
    var s2 := Apply(Apply(s, a), b);
    assert Run(Apply(Apply(s2, c), d), []);
    TwoMore(s2, c, d, []);
    TwoMore(s, a, b, [c, d] + []);
    assert [a, b] + ([c, d] + []) == [a, b, c, d];
  }
}
