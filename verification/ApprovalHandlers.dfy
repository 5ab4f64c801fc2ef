/**
 The RPC handlers that decide an applicant, run against the committed database. Each
 transaction body works on a private copy that InTx publishes on success and drops on
 error; the ghost result shows that the body is a run of the interleaved machine.
 */
module ApprovalHandlers {
  import opened Basics
  import opened Tables
  import opened Approval
  import opened ApprovalRuns

  datatype TxError = CapHit | EmptyPool | Orphaned | CasMismatch | StoreError

  datatype Visibility = Draft | Open | Closed

  /** The columns of a playtest that signup and the decision handlers read. */
  datatype Playtest = Playtest(id: Id, deleted: bool, status: Visibility, autoApprove: bool,
      autoApproveLimit: Option<int>)

  datatype RpcError = NotFound | FailedPrecondition | ResourceExhausted | Aborted | Unavailable | Internal

  /** Every unused code of the playtest is held by another transaction, or there is none. */
  predicate Dry(codes: map<Id, Code>, held: set<Id>, p: Id) {
    forall c | c in codes :: !FreeOf(codes, held, p, c)
  }

  /** Whether the database fails the statement at pc; AtDone stands for the commit. */
  predicate Fails(trouble: Option<Pc>, pc: Pc) {
    trouble == Some(pc)
  }

  /**
   The outcome a transaction must have: held are the codes other running transactions have
   locked when it reserves, trouble is the statement that fails, if any.
   */
  function Verdict(cfg: Config, db: Db, held: set<Id>, kind: Kind, a: Applicant, trouble: Option<Pc>): Option<TxError> {
    var pool := !kind.Reject? && a.playtest !in cfg.adt;
    if kind.Auto? && (Fails(trouble, AtLock) || Fails(trouble, AtCount)) then Some(StoreError)
    else if kind.Auto? && |AutoApproved(db.apps, a.playtest)| >= kind.limit then Some(CapHit)
    else if pool && Fails(trouble, AtReserve) then Some(StoreError)
    else if pool && Dry(db.codes, held, a.playtest) then Some(EmptyPool)
    else if pool && Fails(trouble, AtFinalize) then Some(StoreError)
    else if Fails(trouble, AtCas) then Some(StoreError)
    else if !a.status.Pending? then Some(CasMismatch)
    else if Fails(trouble, AtDone) then Some(StoreError)
    else None
  }

  /** A run from a sound state ends in one whose database is sound and only moved forward. */
  lemma SoundRun(cfg: Config, s0: Sys, es: seq<Event>)
    requires Inv(cfg, s0) && ValidRun(cfg, s0, es)
    ensures Inv(cfg, Exec(cfg, s0, es)) && Forward(s0.db, Exec(cfg, s0, es).db)
  {
    RunKeepsInv(cfg, s0, es);
    RunForward(cfg, s0, es);
  }

  /** The name of the body's own transaction. */
  const SOLO: Id := 0

  ghost predicate HeldIs(txs: map<Id, Tx>, held: set<Id>) {
    forall c :: c in held <==> CodeLocked(txs, c)
  }

  /**
   The other transactions running beside a body, and the database it finds: they hold exactly
   the codes in held, and neither the lock nor the applicant row its statements would wait for.
   */
  ghost predicate Beside(cfg: Config, s0: Sys, db: Db, now: Time, held: set<Id>, kind: Kind, a: Id) {
    && Inv(cfg, s0) && s0.db == db && s0.now == now && SOLO !in s0.txs
    && HeldIs(s0.txs, held)
    && a in db.apps && !AppLocked(s0.txs, a)
    && (kind.Auto? ==> cfg.lockKey(db.apps[a].playtest) !in s0.advisory)
  }

  /** The body's transaction, in state x, has joined those of s0; nothing is committed yet. */
  ghost predicate Running(cfg: Config, s0: Sys, es: seq<Event>, s: Sys, x: Tx) {
    && ValidRun(cfg, s0, es) && Exec(cfg, s0, es) == s
    && SOLO in s.txs && s.txs[SOLO] == x
    && End(s, SOLO) == s0
  }

  lemma BeginJoins(cfg: Config, s0: Sys, kind: Kind, a: Id)
    requires Inv(cfg, s0) && SOLO !in s0.txs && a in s0.db.apps
    ensures var e := Begin(SOLO, kind, a); var s := Next(cfg, s0, e);
            ValidRun(cfg, s0, [e]) && Running(cfg, s0, [e], s, s.txs[SOLO])
  {
    var e := Begin(SOLO, kind, a);
    var s := Next(cfg, s0, e);
    assert [e][1..] == [] && ValidRun(cfg, s, []) && Exec(cfg, s, []) == s;
    assert s.txs - {SOLO} == s0.txs;
    assert End(s, SOLO).advisory == s0.advisory by {
      assert forall k | k in s0.advisory :: s0.advisory[k] in s0.txs;
    }
  }

  /** A statement of the body changes its own transaction, and takes a free advisory lock at most. */
  lemma StatementJoins(cfg: Config, s0: Sys, es: seq<Event>, s: Sys, x: Tx, e: Event)
    requires Running(cfg, s0, es, s, x) && Enabled(cfg, s, e)
    requires !NoTxStep(e) && !e.Begin? && !e.Commit? && !e.Rollback? && e.t == SOLO
    ensures Running(cfg, s0, es + [e], Next(cfg, s, e), Next(cfg, s, e).txs[SOLO])
  {
    Extend(cfg, s0, es, e);
    OneTxMoves(cfg, s, e);
    var s' := Next(cfg, s, e);
    assert s'.txs - {SOLO} == s.txs - {SOLO};
    assert End(s', SOLO).advisory == End(s, SOLO).advisory;
    assert s'.db == s.db && s'.now == s.now;
  }

  ghost method Step(cfg: Config, s0: Sys, es: seq<Event>, s: Sys, x: Tx, e: Event) returns (es': seq<Event>, s': Sys)
    requires Running(cfg, s0, es, s, x) && Enabled(cfg, s, e)
    requires !NoTxStep(e) && !e.Begin? && !e.Commit? && !e.Rollback? && e.t == SOLO
    ensures s' == Next(cfg, s, e) && Running(cfg, s0, es', s', s'.txs[SOLO])
  {
    StatementJoins(cfg, s0, es, s, x, e);
    es', s' := es + [e], Next(cfg, s, e);
  }

  /** The commit of a finished body publishes its copy of the tables, beside the same others. */
  lemma CommitPublishes(cfg: Config, s0: Sys, es: seq<Event>, s: Sys, x: Tx)
    requires Inv(cfg, s0) && Running(cfg, s0, es, s, x) && x.pc == AtDone
    ensures var db' := Db(Written(s0.db.codes, x.code), Written(s0.db.apps, x.appl));
            && ValidRun(cfg, s0, es + [Commit(SOLO)])
            && Exec(cfg, s0, es + [Commit(SOLO)]) == s0.(db := db')
            && DbOk(cfg, db') && Forward(s0.db, db')
  {
    assert s.db == s0.db;
    Extend(cfg, s0, es, Commit(SOLO));
    SoundRun(cfg, s0, es + [Commit(SOLO)]);
  }

  /** A rollback, at whatever point, leaves everything as it was. */
  lemma RollbackUndoes(cfg: Config, s0: Sys, es: seq<Event>, s: Sys, x: Tx)
    requires Running(cfg, s0, es, s, x)
    ensures ValidRun(cfg, s0, es + [Rollback(SOLO)]) && Exec(cfg, s0, es + [Rollback(SOLO)]) == s0
  {
    Extend(cfg, s0, es, Rollback(SOLO));
  }

  predicate IsApplicant(db: Db, p: Id, user: Id, a: Id) {
    a in db.apps && db.apps[a].playtest == p && db.apps[a].user == user
  }

  predicate NoApplicant(db: Db, p: Id, user: Id) {
    forall a | a in db.apps :: !IsApplicant(db, p, user, a)
  }

  /** c is an unused code of p that nobody holds, and no such code is older. */
  ghost predicate IsOldest(codes: map<Id, Code>, held: set<Id>, p: Id, c: Id) {
    FreeOf(codes, held, p, c) && forall d | FreeOf(codes, held, p, d) :: codes[c].createdAt <= codes[d].createdAt
  }

  /**
   What a decision that commits changes: its applicant's row, and for a pool approval the
   oldest free code of the playtest, granted to that applicant's user; nothing else.
   */
  ghost predicate Decided(cfg: Config, db: Db, held: set<Id>, db': Db, kind: Kind, a: Id, now: Time, at: Time)
    requires a in db.apps
  {
    && var row := db.apps[a];
    && a in db'.apps
    && db'.apps == db.apps[a := db'.apps[a]]
    && var row' := db'.apps[a];
    && row.status.Pending?
    && if kind.Reject? then
         row' == row.(status := Rejected) && db'.codes == db.codes
       else
         && row' == row.(status := Approved, grantedCode := row'.grantedCode, approvedAt := Some(at),
              autoApproved := kind.Auto?)
         && if row.playtest in cfg.adt then
              row'.grantedCode == None && db'.codes == db.codes
            else
              && row'.grantedCode.Some?
              && var c := row'.grantedCode.value;
              && IsOldest(db.codes, held, row.playtest, c)
              && db'.codes == db.codes[c := db.codes[c].(
                   state := Granted, reservedBy := Some(row.user), reservedAt := Some(now), grantedAt := Some(now))]
  }

  function Inserted(db: Db, newId: Id, p: Id, user: Id): Db {
    db.(apps := db.apps[newId := FreshApplicant(p, user)])
  }

  lemma InsertKeepsDb(cfg: Config, db: Db, newId: Id, p: Id, user: Id)
    requires DbOk(cfg, db) && newId !in db.apps && NoApplicant(db, p, user)
    ensures DbOk(cfg, Inserted(db, newId, p, user))
  {
    assert forall b | b in db.apps :: !IsApplicant(db, p, user, b);
    SignupKeepsDb(cfg, Sys(db, map[], map[], 0), newId, p, user);
  }

  lemma InsertForward(db: Db, newId: Id, p: Id, user: Id)
    requires newId !in db.apps
    ensures Forward(db, Inserted(db, newId, p, user))
  {
  }

  lemma ForwardTwice(a: Db, b: Db, c: Db)
    requires Forward(a, b) && Forward(b, c)
    ensures Forward(a, c)
  {
  }

  /** What a signup that inserted its row leaves behind. */
  ghost predicate SignedUp(cfg: Config, p: Playtest, user: Id, newId: Id, interim: Db, after: Db, held: set<Id>,
                           linkFails: bool, trouble: Option<Pc>, now: Time, at: Time, db': Db, dm: bool)
    requires newId in after.apps
  {
    if !p.autoApprove || p.autoApproveLimit.None? then
      db' == Inserted(interim, newId, p.id, user) && !dm
    else
      var kind := Auto(p.autoApproveLimit.value);
      if Verdict(cfg, after, held, kind, after.apps[newId], trouble).Some? then
        db' == after && !dm
      else
        Decided(cfg, after, held, db', kind, newId, now, at) && (dm <==> p.id !in cfg.adt || !linkFails)
  }

  /**
   The inputs of a decision handler besides the database: the playtest row it reads, the error
   of resolving an ADT download link, the codes other transactions hold, the statement of its
   transaction that fails, and whether the audit insert after the commit fails.
   */
  datatype Call = Call(
    a: Id,
    pt: Option<Playtest>,
    linkError: Option<RpcError>,
    held: set<Id>,
    trouble: Option<Pc>,
    auditFails: bool,
    at: Time)

  /** The answer a decision handler gives without a transaction: wanted is the status it sets. */
  function BeforeTx(cfg: Config, db: Db, call: Call, wanted: Status): Option<Result<Applicant, RpcError>> {
    var a, pt := call.a, call.pt;
    if a !in db.apps then Some(Err(NotFound))
    else if db.apps[a].status == wanted then Some(Ok(db.apps[a]))
    else if !db.apps[a].status.Pending? then Some(Err(FailedPrecondition))
    else if pt.None? || pt.value.deleted then Some(Err(NotFound))
    else if !pt.value.status.Open? then Some(Err(FailedPrecondition))
    else if wanted.Approved? && db.apps[a].playtest in cfg.adt && call.linkError.Some? then
        Some(Err(call.linkError.value))
    else None
  }

  function Goal(kind: Kind): Status {
    if kind.Reject? then Rejected else Approved
  }

  /** The status code of a transaction that failed. */
  function ErrorOf(e: TxError): RpcError {
    match e
    case EmptyPool => ResourceExhausted
    case CasMismatch => FailedPrecondition
    case Orphaned => Aborted
    case _ => Internal
  }

  /**
   Everything a decision handler promises: db is what it reads, interim what its transaction
   finds, db' what it leaves, r its answer, dm whether it offers the welcome DM.
   */
  ghost predicate Answers(cfg: Config, kind: Kind, db: Db, interim: Db, call: Call, now: Time,
                          db': Db, r: Result<Applicant, RpcError>, dm: bool)
    requires Forward(db, interim)
  {
    var early := BeforeTx(cfg, db, call, Goal(kind));
    if early.Some? then
      db' == db && r == early.value && !dm
    else
      match Verdict(cfg, interim, call.held, kind, interim.apps[call.a], call.trouble)
      case Some(e) => db' == interim && r == Err(ErrorOf(e)) && !dm
      case None =>
        && Decided(cfg, interim, call.held, db', kind, call.a, now, call.at)
        && r == (if call.auditFails then Err(Internal) else Ok(db'.apps[call.a]))
        && (dm <==> !kind.Reject? && !call.auditFails)
  }

  predicate Decides(kind: Kind, s: Status) {
    if kind.Reject? then s == Rejected else s == Approved
  }

  /**
   The gates, in the columns: a missing applicant is NotFound; one already in the state the
   call asks for is answered as it is; one in the other final state is FailedPrecondition; a
   pending one of a missing or deleted playtest is NotFound, of a draft or closed one
   FailedPrecondition; an approval whose ADT link fails answers that error. None of these
   changes the database or offers the DM.
   */
  lemma GatesMeaning(cfg: Config, kind: Kind, db: Db, interim: Db, call: Call, now: Time,
                     db': Db, r: Result<Applicant, RpcError>, dm: bool)
    requires Forward(db, interim) && Answers(cfg, kind, db, interim, call, now, db', r, dm)
    ensures call.a !in db.apps ==> r == Err(NotFound) && db' == db && !dm
    ensures call.a in db.apps && !db.apps[call.a].status.Pending? ==>
              && db' == db && !dm
              && r == if Decides(kind, db.apps[call.a].status) then Ok(db.apps[call.a]) else Err(FailedPrecondition)
    ensures call.a in db.apps && db.apps[call.a].status.Pending? ==>
              && (call.pt.None? || call.pt.value.deleted ==> r == Err(NotFound) && db' == db && !dm)
              && (call.pt.Some? && !call.pt.value.deleted
                   && (call.pt.value.status.Draft? || call.pt.value.status.Closed?) ==>
                    r == Err(FailedPrecondition) && db' == db && !dm)
              && (call.pt.Some? && !call.pt.value.deleted && call.pt.value.status.Open? && !kind.Reject? ==>
                    db.apps[call.a].playtest in cfg.adt && call.linkError.Some? ==>
                      r == Err(call.linkError.value) && db' == db && !dm)
  {
  }

  /** A call that changes what it finds, or offers the DM, had a pending applicant and an open, live playtest. */
  lemma OnlyOpenPlaytestsDecide(cfg: Config, kind: Kind, db: Db, interim: Db, call: Call, now: Time,
                                db': Db, r: Result<Applicant, RpcError>, dm: bool)
    requires Forward(db, interim) && Answers(cfg, kind, db, interim, call, now, db', r, dm)
    requires (db' != db && db' != interim) || dm
    ensures call.a in db.apps && db.apps[call.a].status.Pending? && interim.apps[call.a].status.Pending?
    ensures call.pt.Some? && !call.pt.value.deleted && call.pt.value.status.Open?
    ensures call.a in db'.apps && Decides(kind, db'.apps[call.a].status)
  {
  }

  /** Some unused code of the playtest is held by nobody. */
  ghost predicate SomeFree(codes: map<Id, Code>, held: set<Id>, p: Id) {
    exists c :: c in codes && codes[c].playtest == p && codes[c].state == Unused && c !in held
  }

  /** How many applicants of the playtest were approved automatically. */
  function AutoCount(apps: map<Id, Applicant>, p: Id): nat {
    |set b | b in apps && apps[b].playtest == p && apps[b].autoApproved|
  }

  /** A transaction's verdict, in the columns: when it is clear, and which error comes first when it is not. */
  lemma VerdictMeaning(cfg: Config, db: Db, held: set<Id>, kind: Kind, a: Applicant, trouble: Option<Pc>)
    ensures var v := Verdict(cfg, db, held, kind, a, trouble);
            var free := SomeFree(db.codes, held, a.playtest);
            var needsCode := !kind.Reject? && a.playtest !in cfg.adt;
            var full := kind.Auto? && AutoCount(db.apps, a.playtest) >= kind.limit;
            && (trouble.None? ==>
                  && (v == Some(CapHit) <==> full)
                  && (v == Some(EmptyPool) <==> !full && needsCode && !free)
                  && (v == None <==> !full && (needsCode ==> free) && a.status == Pending)
                  && v != Some(StoreError))
            && (v == None ==> !full && (needsCode ==> free) && a.status == Pending)
            && v != Some(Orphaned)
  {
    assert AutoApproved(db.apps, a.playtest) == set b | b in db.apps && db.apps[b].playtest == a.playtest
        && db.apps[b].autoApproved;
    DryMeaning(db.codes, held, a.playtest);
  }

  lemma DryMeaning(codes: map<Id, Code>, held: set<Id>, p: Id)
    ensures Dry(codes, held, p) <==> !SomeFree(codes, held, p)
  {
    if c :| c in codes && codes[c].playtest == p && codes[c].state == Unused && c !in held {
      assert FreeOf(codes, held, p, c);
    }
  }

  /** A failing statement fails a transaction that would have got that far. */
  lemma TroubleMeaning(cfg: Config, db: Db, held: set<Id>, kind: Kind, a: Applicant, pc: Pc)
    requires Verdict(cfg, db, held, kind, a, None).None?
    ensures Verdict(cfg, db, held, kind, a, Some(pc)).None? <==>
              match pc
              case AtLock => !kind.Auto?
              case AtCount => !kind.Auto?
              case AtReserve => kind.Reject? || a.playtest in cfg.adt
              case AtFinalize => kind.Reject? || a.playtest in cfg.adt
              case AtCas => false
              case AtDone => false
              case AtFailed => true
    ensures Verdict(cfg, db, held, kind, a, Some(pc)).Some? ==>
        Verdict(cfg, db, held, kind, a, Some(pc)) == Some(StoreError)
  {
  }

  /**
   Past the gates with no statement failing: no free code is ResourceExhausted, a row decided
   meanwhile is FailedPrecondition, and neither changes anything; otherwise the row is decided,
   and the answer is it, or Internal when the audit insert fails.
   */
  lemma DecisionMeaning(cfg: Config, kind: Kind, db: Db, interim: Db, call: Call, now: Time,
                        db': Db, r: Result<Applicant, RpcError>, dm: bool)
    requires Forward(db, interim) && Answers(cfg, kind, db, interim, call, now, db', r, dm) && !kind.Auto?
    requires call.a in db.apps && db.apps[call.a].status.Pending?
    requires call.pt.Some? && !call.pt.value.deleted && call.pt.value.status.Open? && call.linkError.None?
    ensures var row := interim.apps[call.a];
            var free := SomeFree(interim.codes, call.held, row.playtest);
            var needsCode := !kind.Reject? && row.playtest !in cfg.adt;
            && (call.trouble.None? && needsCode && !free ==> r == Err(ResourceExhausted) && db' == interim && !dm)
            && (call.trouble.None? && (needsCode ==> free) && row.status != Pending ==>
                  r == Err(FailedPrecondition) && db' == interim && !dm)
            && (call.trouble.None? && (needsCode ==> free) && row.status == Pending ==>
                  && call.a in db'.apps && Decides(kind, db'.apps[call.a].status)
                  && r == (if call.auditFails then Err(Internal) else Ok(db'.apps[call.a]))
                  && (dm <==> !kind.Reject? && !call.auditFails))
            && (call.trouble == Some(AtCas) && (needsCode ==> free) ==> r == Err(Internal) && db' == interim && !dm)
  {
    VerdictMeaning(cfg, interim, call.held, kind, interim.apps[call.a], call.trouble);
  }

  /** What a signup inserts: a pending, undecided row of its playtest and user. */
  lemma InsertedMeaning(db: Db, newId: Id, p: Id, user: Id)
    ensures var db' := Inserted(db, newId, p, user);
            && db'.codes == db.codes && db'.apps.Keys == db.apps.Keys + {newId}
            && (forall a | a in db.apps && a != newId :: db'.apps[a] == db.apps[a])
            && db'.apps[newId] == Applicant(p, user, Pending, None, None, false)
  {
  }

  /**
   A new signup, in the columns: without auto-approval the row stays pending. With it, and no
   statement failing, the row is approved as auto-approved, under the limit and with a free
   code if it needs one, or else nothing is changed. A DM is offered only for an approved row.
   */
  lemma SignupMeaning(cfg: Config, p: Playtest, user: Id, newId: Id, interim: Db, after: Db, held: set<Id>,
                      linkFails: bool, now: Time, at: Time, db': Db, dm: bool)
    requires newId in after.apps && after.apps[newId] == Applicant(p.id, user, Pending, None, None, false)
    requires SignedUp(cfg, p, user, newId, interim, after, held, linkFails, None, now, at, db', dm)
    ensures var tried := p.autoApprove && p.autoApproveLimit.Some?;
            var works := tried && AutoCount(after.apps, p.id) < p.autoApproveLimit.value
                         && (p.id !in cfg.adt ==> SomeFree(after.codes, held, p.id));
            && (!tried ==> newId in db'.apps && db'.apps[newId] == Applicant(p.id, user, Pending, None, None, false))
            && (tried && !works ==> db' == after)
            && (works ==> newId in db'.apps && db'.apps[newId].status == Approved && db'.apps[newId].autoApproved)
            && (dm <==> works && !(p.id in cfg.adt && linkFails))
  {
    if p.autoApprove && p.autoApproveLimit.Some? {
      VerdictMeaning(cfg, after, held, Auto(p.autoApproveLimit.value), after.apps[newId], None);
    }
  }

  /**
   An error answer does not mean nothing happened: past the early answers, the database has
   changed behind an error exactly when the transaction committed and the audit insert then
   failed. The answer is then Internal and the applicant's DM has not been offered.
   */
  lemma ErrorAfterCommit(cfg: Config, kind: Kind, db: Db, interim: Db, call: Call, now: Time,
                         db': Db, r: Result<Applicant, RpcError>, dm: bool)
    requires Forward(db, interim) && Answers(cfg, kind, db, interim, call, now, db', r, dm)
    requires BeforeTx(cfg, db, call, Goal(kind)).None?
    ensures r.Err? && db' != interim <==>
              call.auditFails && Verdict(cfg, interim, call.held, kind, interim.apps[call.a], call.trouble).None?
    ensures r.Err? && db' != interim ==>
              r.error == Internal && !dm && Decided(cfg, interim, call.held, db', kind, call.a, now, call.at)
  {
    if Verdict(cfg, interim, call.held, kind, interim.apps[call.a], call.trouble).None? {
      assert db'.apps[call.a].status != interim.apps[call.a].status;
    }
  }

  /**
   Repeating the call after a commit, whatever was answered, whatever others committed since
   and whatever goes wrong this time, answers the decided row and changes nothing. It never
   offers the DM, so a repeat does not make up for one lost to a failed audit insert.
   */
  lemma RepeatAnswersDecided(cfg: Config, kind: Kind, db: Db, interim: Db, call: Call, now: Time,
                             db': Db, r: Result<Applicant, RpcError>, dm: bool,
                             db2: Db, interim2: Db, call2: Call, now2: Time,
                             db2': Db, r2: Result<Applicant, RpcError>, dm2: bool)
    requires Forward(db, interim) && Answers(cfg, kind, db, interim, call, now, db', r, dm)
    requires BeforeTx(cfg, db, call, Goal(kind)).None?
    requires Verdict(cfg, interim, call.held, kind, interim.apps[call.a], call.trouble).None?
    requires Forward(db', db2) && Forward(db2, interim2) && call2.a == call.a
    requires Answers(cfg, kind, db2, interim2, call2, now2, db2', r2, dm2)
    ensures r2 == Ok(db'.apps[call.a]) && db2' == db2 && !dm2
  {
    assert db'.apps[call.a].status == Goal(kind);
    assert db2.apps[call.a] == db'.apps[call.a];
  }

  /** An open playtest with one unused code and one pending applicant, approved while audit inserts fail. */
  const BEFORE: Db := Db(map[7 := FreshCode(1, "KEY", 0)], map[3 := FreshApplicant(1, 5)])
  const AFTER: Db := Db(
    map[7 := Code(1, "KEY", Granted, Some(5), Some(20), Some(20), 0)],
    map[3 := Applicant(1, 5, Approved, Some(7), Some(21), false)])
  const UNAUDITED: Call := Call(3, Some(Playtest(1, false, Open, false, None)), None, {}, None, true, 21)

  /**
   The code is granted and the applicant approved, and the caller is told Internal: for this
   call there is no other outcome. Repeating it answers the approved row.
   */
  lemma AuditFailureHidesGrant(db': Db, r: Result<Applicant, RpcError>, dm: bool)
    ensures DbOk(NO_ADT, BEFORE) && Forward(BEFORE, BEFORE) && Forward(AFTER, AFTER)
    ensures Answers(NO_ADT, Manual, BEFORE, BEFORE, UNAUDITED, 20, db', r, dm) <==>
              db' == AFTER && r == Err(Internal) && !dm
    ensures Answers(NO_ADT, Manual, AFTER, AFTER, UNAUDITED, 30, AFTER, Ok(AFTER.apps[3]), false)
  {
    ExampleIsSound();
    ForwardSelf(BEFORE);
    ForwardSelf(AFTER);
    ExampleVerdict();
    OnlyAfter(db');
  }

  lemma ExampleIsSound()
    ensures DbOk(NO_ADT, BEFORE)
  {
  }

  lemma ForwardSelf(db: Db)
    ensures Forward(db, db)
  {
  }

  lemma ExampleVerdict()
    ensures Verdict(NO_ADT, BEFORE, {}, Manual, BEFORE.apps[3], None) == None
  {
    assert FreeOf(BEFORE.codes, {}, 1, 7);
  }

  /** The one way to decide the applicant of BEFORE. */
  lemma OnlyAfter(db': Db)
    ensures Decided(NO_ADT, BEFORE, {}, db', Manual, 3, 20, 21) <==> db' == AFTER
  {
    assert IsOldest(BEFORE.codes, {}, 1, 7);
    assert AFTER.apps == BEFORE.apps[3 := AFTER.apps[3]];
    assert AFTER.codes == BEFORE.codes[7 := AFTER.codes[7]];
    if Decided(NO_ADT, BEFORE, {}, db', Manual, 3, 20, 21) {
      assert db'.apps[3].grantedCode == Some(7);
      assert db'.codes == AFTER.codes && db'.apps == AFTER.apps;
    }
  }

  /**
   What overlap costs an approval that would succeed with nobody holding a code: it is answered
   ResourceExhausted exactly when every unused code of its pool is held by others. There is
   one, and the database is as before.
   */
  lemma SpuriousExhaustion(cfg: Config, db: Db, interim: Db, call: Call, now: Time,
                           db': Db, r: Result<Applicant, RpcError>, dm: bool)
    requires Forward(db, interim) && Answers(cfg, Manual, db, interim, call, now, db', r, dm)
    requires BeforeTx(cfg, db, call, Approved).None?
    requires Verdict(cfg, interim, {}, Manual, interim.apps[call.a], call.trouble).None?
    ensures var p := interim.apps[call.a].playtest;
            && (r == Err(ResourceExhausted) <==> p !in cfg.adt && Dry(interim.codes, call.held, p))
            && (r == Err(ResourceExhausted) ==>
                  db' == interim && exists c :: UnusedOf(interim.codes, p, c) && c in call.held)
  {
    var p := interim.apps[call.a].playtest;
    if p !in cfg.adt {
      var c :| c in interim.codes && FreeOf(interim.codes, {}, p, c);
      assert UnusedOf(interim.codes, p, c);
    }
  }

  /** An approval beside a transaction that holds the one code of its playtest. */
  const OVERLAPPED: Call := Call(4, Some(Playtest(1, false, Open, false, None)), None, {7}, None, false, 21)

  /**
   It is answered ResourceExhausted although the code is unused: that transaction, reached by
   a run of the machine, may still roll back.
   */
  lemma OverlapExhausts(db': Db, r: Result<Applicant, RpcError>, dm: bool)
    ensures Beside(NO_ADT, HOLDING, ONE_CODE.db, 20, OVERLAPPED.held, Manual, 4)
    ensures UnusedOf(ONE_CODE.db.codes, 1, 7) && Forward(ONE_CODE.db, ONE_CODE.db)
    ensures Answers(NO_ADT, Manual, ONE_CODE.db, ONE_CODE.db, OVERLAPPED, 20, db', r, dm) <==>
              db' == ONE_CODE.db && r == Err(ResourceExhausted) && !dm
  {
    var _ := FirstReserves();
    ForwardSelf(ONE_CODE.db);
    assert HOLDING.txs[1] == FIRST;
  }

  /** The rows Reserve may return are the free ones. */
  lemma FreeCandidates(s0: Sys, s: Sys, x: Tx, held: set<Id>, c: Option<Id>)
    requires SOLO in s.txs && s.txs[SOLO] == x && x.code == None && End(s, SOLO) == s0 && HeldIs(s0.txs, held)
    requires if c.Some? then IsOldest(s.db.codes, held, x.playtest, c.value) else Dry(s.db.codes, held, x.playtest)
    ensures c.Some? ==>
              && Candidate(s, x.playtest, c.value)
              && forall d | Candidate(s, x.playtest, d) :: s.db.codes[c.value].createdAt <= s.db.codes[d].createdAt
    ensures c.None? ==> forall d | d in s.db.codes :: !Candidate(s, x.playtest, d)
  {
    forall d ensures CodeLocked(s.txs, d) <==> d in held {
      LockedBeside(s0, s, d);
    }
  }

  /** Those of s0 hold the same locks beside the body as without it. */
  lemma LockedBeside(s0: Sys, s: Sys, d: Id)
    requires SOLO in s.txs && End(s, SOLO) == s0
    ensures s.txs[SOLO].code == None ==> (CodeLocked(s.txs, d) <==> CodeLocked(s0.txs, d))
    ensures s.txs[SOLO].appl == None ==> (AppLocked(s.txs, d) <==> AppLocked(s0.txs, d))
  {
    assert s0.txs == s.txs - {SOLO};
    assert forall t :: t in s0.txs <==> t in s.txs && t != SOLO;
    assert forall t | t in s0.txs :: s0.txs[t] == s.txs[t];
  }

  class Handlers {
    const cfg: Config
    var db: Db
    var now: Time

    constructor (cfg: Config, db: Db, now: Time)
      ensures this.cfg == cfg && this.db == db && this.now == now
    {
      this.cfg, this.db, this.now := cfg, db, now;
    }

    ghost predicate Valid()
      reads this
    {
      DbOk(cfg, db)
    }

    /**
     InTx around the statements of the approval, auto-approval or rejection body, beside the
     transactions of s0. The result reports the error exactly as the statements run into it.
     */
    method Decide(kind: Kind, a: Id, held: set<Id>, trouble: Option<Pc>, at: Time, ghost s0: Sys)
      returns (err: Option<TxError>, ghost es: seq<Event>)
      requires Beside(cfg, s0, db, now, held, kind, a)
      modifies this`db
      ensures Valid() && Forward(old(db), db)
      ensures ValidRun(cfg, s0, es) && Exec(cfg, s0, es) == s0.(db := db)
      ensures err == Verdict(cfg, old(db), held, kind, old(db).apps[a], trouble)
      ensures err.Some? ==> db == old(db)
      ensures err.None? ==> Decided(cfg, old(db), held, db, kind, a, now, at)
    {
      var copy, x;
      ghost var s;
      copy, err, es, s, x := Body(kind, a, held, trouble, at, s0);
      if err.None? {
        CommitPublishes(cfg, s0, es, s, x);
        es := es + [Commit(SOLO)];
        db := copy;
      } else {
        RollbackUndoes(cfg, s0, es, s, x);
        es := es + [Rollback(SOLO)];
      }
    }

    /** The statements up to the commit, on a private copy of the tables. */
    method Body(kind: Kind, a: Id, held: set<Id>, trouble: Option<Pc>, at: Time, ghost s0: Sys)
      returns (copy: Db, err: Option<TxError>, ghost es: seq<Event>, ghost s: Sys, x: Tx)
      requires Beside(cfg, s0, db, now, held, kind, a)
      ensures Running(cfg, s0, es, s, x)
      ensures err == Verdict(cfg, db, held, kind, db.apps[a], trouble)
      ensures err.None? ==> x.pc == AtDone && copy == Db(Written(db.codes, x.code), Written(db.apps, x.appl))
      ensures err.None? ==> Decided(cfg, db, held, copy, kind, a, now, at)
    {
      var row := db.apps[a];
      var granted := None;
      copy := db;
      assert GrantOk(cfg.adt, db.codes, row);
      err, es, s, x := Gate(kind, a, held, trouble, s0);
      if err.None? && !kind.Reject? && row.playtest !in cfg.adt {
        var codes;
        codes, granted, err, es, s, x := TakeCode(copy.codes, held, trouble, s0, es, s, x);
        copy := copy.(codes := codes);
      }
      if err.None? {
        var apps;
        apps, err, es, s, x := CompareAndSet(copy.apps, granted, trouble, at, s0, es, s, x);
        copy := copy.(apps := apps);
      }
      if err.None? && Fails(trouble, AtDone) {
        err := Some(StoreError);
      }
    }

    /** Opening the transaction; for an auto-approval also the advisory lock and the cap check. */
    method Gate(kind: Kind, a: Id, held: set<Id>, trouble: Option<Pc>, ghost s0: Sys)
      returns (err: Option<TxError>, ghost es: seq<Event>, ghost s: Sys, x: Tx)
      requires Beside(cfg, s0, db, now, held, kind, a)
      ensures Running(cfg, s0, es, s, x)
      ensures x == Tx(kind, a, db.apps[a].playtest, db.apps[a].user, now, x.pc, None, None)
      ensures err ==
                if !kind.Auto? then None
                else if Fails(trouble, AtLock) || Fails(trouble, AtCount) then Some(StoreError)
                else if |AutoApproved(db.apps, db.apps[a].playtest)| >= kind.limit then Some(CapHit)
                else None
      ensures err.None? ==> x.pc == if UsesPool(cfg, x) then AtReserve else AtCas
    {
      var row := db.apps[a];
      err := None;
      x := Tx(kind, a, row.playtest, row.user, now, FirstPc(cfg, kind, row.playtest), None, None);
      BeginJoins(cfg, s0, kind, a);
      es, s := [Begin(SOLO, kind, a)], Next(cfg, s0, Begin(SOLO, kind, a));
      if !kind.Auto? {
        return;
      }
      if Fails(trouble, AtLock) {
        return Some(StoreError), es, s, x;
      }
      assert s.advisory == s0.advisory;
      es, s := Step(cfg, s0, es, s, x, Lock(SOLO));
      x := x.(pc := AtCount);
      if Fails(trouble, AtCount) {
        return Some(StoreError), es, s, x;
      }
      err, es, s, x := CheckCap(s0, es, s, x);
    }

    /** CountAutoApprovedByPlaytest against the limit, under the lock. */
    method CheckCap(ghost s0: Sys, ghost es: seq<Event>, ghost s: Sys, x: Tx)
      returns (err: Option<TxError>, ghost es': seq<Event>, ghost s': Sys, x': Tx)
      requires s0.db == db && Running(cfg, s0, es, s, x) && x.pc == AtCount && x.kind.Auto?
      ensures Running(cfg, s0, es', s', x') && x' == x.(pc := x'.pc)
      ensures err == if |AutoApproved(db.apps, x.playtest)| >= x.kind.limit then Some(CapHit) else None
      ensures err.None? ==> x'.pc == if x.playtest in cfg.adt then AtCas else AtReserve
    {
      err := None;
      es', s' := Step(cfg, s0, es, s, x, Count(SOLO));
      if |AutoApproved(db.apps, x.playtest)| >= x.kind.limit {
        err := Some(CapHit);
      }
      x' := x.(pc := if err.Some? then AtFailed else if x.playtest in cfg.adt then AtCas else AtReserve);
    }

    /** Reserve, then FencedFinalize with the reserved_at that Reserve returned. */
    method TakeCode(codes: map<Id, Code>, held: set<Id>, trouble: Option<Pc>,
                    ghost s0: Sys, ghost es: seq<Event>, ghost s: Sys, x: Tx)
      returns (codes': map<Id, Code>, granted: Option<Id>, err: Option<TxError>, ghost es': seq<Event>,
              ghost s': Sys, x': Tx)
      requires codes == db.codes && s0.db == db && HeldIs(s0.txs, held) && Running(cfg, s0, es, s, x)
      requires x.pc == AtReserve && x.code == None && x.start == now
      ensures Running(cfg, s0, es', s', x')
      ensures err ==
                if Fails(trouble, AtReserve) then Some(StoreError)
                else if Dry(codes, held, x.playtest) then Some(EmptyPool)
                else if Fails(trouble, AtFinalize) then Some(StoreError)
                else None
      ensures err.None? ==>
                && granted.Some?
                && IsOldest(codes, held, x.playtest, granted.value)
                && var w := GrantRow(ReserveRow(codes[granted.value], x.user, now), now);
                && codes' == codes[granted.value := w]
                && x' == x.(pc := AtCas, code := Some(Version(granted.value, w)))
    {
      codes', granted, err, es', s', x' := codes, None, None, es, s, x;
      if Fails(trouble, AtReserve) {
        return codes, None, Some(StoreError), es, s, x;
      }
      codes', granted, es', s', x' := ReserveOldest(codes, held, s0, es, s, x);
      if granted.None? {
        return codes', None, Some(EmptyPool), es', s', x';
      }
      if Fails(trouble, AtFinalize) {
        return codes', None, Some(StoreError), es', s', x';
      }
      codes', granted, err, es', s', x' := Finalize(codes', granted.value, s0, es', s', x');
    }

    /** Reserve, which skips the rows other transactions have locked. */
    method ReserveOldest(codes: map<Id, Code>, held: set<Id>, ghost s0: Sys, ghost es: seq<Event>, ghost s: Sys, x: Tx)
      returns (codes': map<Id, Code>, c: Option<Id>, ghost es': seq<Event>, ghost s': Sys, x': Tx)
      requires codes == db.codes && s0.db == db && HeldIs(s0.txs, held) && Running(cfg, s0, es, s, x)
      requires x.pc == AtReserve && x.code == None && x.start == now
      ensures Running(cfg, s0, es', s', x')
      ensures c.None? <==> Dry(codes, held, x.playtest)
      ensures c.Some? ==>
                && IsOldest(codes, held, x.playtest, c.value)
                && codes' == codes[c.value := ReserveRow(codes[c.value], x.user, now)]
                && x' == x.(pc := AtFinalize, code := Some(Version(c.value, codes'[c.value])))
    {
      codes' := codes;
      c := OldestUnused(codes, held, x.playtest);
      assert s.db == s0.db;
      FreeCandidates(s0, s, x, held, c);
      if c.None? {
        es', s' := Step(cfg, s0, es, s, x, PoolEmpty(SOLO));
        x' := x.(pc := AtFailed);
        return;
      }
      es', s' := Step(cfg, s0, es, s, x, Reserve(SOLO, c.value));
      codes' := codes[c.value := ReserveRow(codes[c.value], x.user, now)];
      x' := x.(pc := AtFinalize, code := Some(Version(c.value, codes'[c.value])));
    }

    /** FencedFinalize on the row just reserved. */
    method Finalize(codes: map<Id, Code>, c: Id, ghost s0: Sys, ghost es: seq<Event>, ghost s: Sys, x: Tx)
      returns (codes': map<Id, Code>, granted: Option<Id>, err: Option<TxError>, ghost es': seq<Event>,
              ghost s': Sys, x': Tx)
      requires Running(cfg, s0, es, s, x) && c in codes
      requires x.pc == AtFinalize && x.code == Some(Version(c, codes[c])) && x.start == now
      requires codes[c].state.Reserved? && codes[c].reservedBy == Some(x.user) && codes[c].reservedAt == Some(now)
      ensures Running(cfg, s0, es', s', x')
      ensures err == None && granted == Some(c) && codes' == codes[c := GrantRow(codes[c], now)]
      ensures x' == x.(pc := AtCas, code := Some(Version(c, codes'[c])))
    {
      codes', granted, err, x' := codes, None, None, x;
      es', s' := Step(cfg, s0, es, s, x, Event.Finalize(SOLO));
      if FenceHolds(codes[c], x.user, now) {
        codes' := codes[c := GrantRow(codes[c], now)];
        granted := Some(c);
        x' := x.(pc := AtCas, code := Some(Version(c, codes'[c])));
      } else {
        err := Some(Orphaned);
      }
    }

    /** ApproveCAS, ApproveCASNoCode or RejectCAS. */
    method CompareAndSet(apps: map<Id, Applicant>, granted: Option<Id>, trouble: Option<Pc>, at: Time,
                         ghost s0: Sys, ghost es: seq<Event>, ghost s: Sys, x: Tx)
      returns (apps': map<Id, Applicant>, err: Option<TxError>, ghost es': seq<Event>, ghost s': Sys, x': Tx)
      requires apps == db.apps && s0.db == db && !AppLocked(s0.txs, x.app) && Running(cfg, s0, es, s, x)
      requires x.pc == AtCas && x.app in apps && granted == CodeId(x) && x.appl == None
      ensures Running(cfg, s0, es', s', x')
      ensures err ==
                if Fails(trouble, AtCas) then Some(StoreError)
                else if apps[x.app].status.Pending? then None
                else Some(CasMismatch)
      ensures err.None? ==>
                && apps' == apps[x.app := DecidedRow(x, apps[x.app], at)]
                && x' == x.(pc := AtDone, appl := Some(Version(x.app, apps'[x.app])))
    {
      apps', err := apps, None;
      if Fails(trouble, AtCas) {
        return apps, Some(StoreError), es, s, x;
      }
      assert s.db == s0.db;
      LockedBeside(s0, s, x.app);
      es', s' := Step(cfg, s0, es, s, x, Cas(SOLO, at));
      if !apps[x.app].status.Pending? {
        return apps, Some(CasMismatch), es', s', x.(pc := AtFailed);
      }
      match x.kind {
        case Auto(_) => apps' := apps[x.app := ApproveRow(apps[x.app], granted, at, true)];
        case Manual => apps' := apps[x.app := ApproveRow(apps[x.app], granted, at, false)];
        case Reject => apps' := apps[x.app := RejectRow(apps[x.app])];
      }
      x' := x.(pc := AtDone, appl := Some(Version(x.app, apps'[x.app])));
    }

    /** lookupExistingApplicant: the row of (playtest, user), if any. */
    method LookupExisting(p: Id, user: Id) returns (r: Option<Id>)
      ensures r.Some? ==> IsApplicant(db, p, user, r.value)
      ensures r.None? ==> NoApplicant(db, p, user)
    {
      if a :| a in db.apps && db.apps[a].playtest == p && db.apps[a].user == user {
        return Some(a);
      }
      return None;
    }

    /**
     Signup. Other handlers may commit between its statements: interim is the database as the
     insert finds it, after as the auto-approval's transaction does, beside the transactions
     of s0 that hold the codes in held. A repeated or racing signup returns the one existing
     row; a failed auto-approval never fails the call. The result dm says whether the welcome
     DM was offered; auto-approval swallows audit errors.
     */
    method Signup(pt: Option<Playtest>, user: Id, newId: Id, insertFails: bool, linkFails: bool, trouble: Option<Pc>,
                  interim: Db, after: Db, held: set<Id>, at: Time, ghost s0: Sys)
      returns (r: Result<Id, RpcError>, dm: bool)
      requires Valid() && DbOk(cfg, interim) && Forward(db, interim) && newId !in interim.apps
      requires pt.Some? && NoApplicant(interim, pt.value.id, user) ==>
                 && Forward(Inserted(interim, newId, pt.value.id, user), after)
                 && Beside(cfg, s0, after, now, held, Auto(0), newId)
      modifies this`db
      ensures Valid() && Forward(old(db), db)
      ensures pt.None? || pt.value.deleted || pt.value.status == Draft ==> r == Err(NotFound) && db == old(db) && !dm
      ensures pt.Some? && !pt.value.deleted && pt.value.status != Draft ==>
          forall a | IsApplicant(old(db), pt.value.id, user, a) ::
          r == Ok(a) && db == old(db) && !dm
      ensures pt.Some? && !pt.value.deleted && pt.value.status == Closed && NoApplicant(old(db), pt.value.id, user) ==>
                r == Err(NotFound) && db == old(db) && !dm
      ensures pt.Some? && !pt.value.deleted && pt.value.status == Open && NoApplicant(old(db), pt.value.id, user) ==>
                if insertFails then
                  r == Err(Internal) && db == interim && !dm
                else if !NoApplicant(interim, pt.value.id, user) then
                  (forall a | IsApplicant(interim, pt.value.id, user, a) :: r == Ok(a)) && db == interim && !dm
                else
                  && r == Ok(newId)
                  && SignedUp(cfg, pt.value, user, newId, interim, after, held, linkFails, trouble, now, at, db, dm)
    {
      dm := false;
      if pt.None? || pt.value.deleted || pt.value.status.Draft? {
        return Err(NotFound), false;
      }
      var p := pt.value;
      var existing := LookupExisting(p.id, user);
      if existing.Some? {
        return Ok(existing.value), false;
      }
      if p.status.Closed? {
        return Err(NotFound), false;
      }
      ghost var before := db;
      db := interim;
      if insertFails {
        return Err(Internal), false;
      }
      var winner := LookupExisting(p.id, user);
      if winner.Some? {
        // The insert hit the unique index; the handler looks the winning row up.
        return Ok(winner.value), false;
      }
      dm := InsertAndTry(p, user, newId, linkFails, trouble, after, held, at, s0);
      ForwardTwice(before, interim, db);
      return Ok(newId), dm;
    }

    /** The insert, and the auto-approval chained to it. */
    method InsertAndTry(p: Playtest, user: Id, newId: Id, linkFails: bool, trouble: Option<Pc>,
                        after: Db, held: set<Id>, at: Time, ghost s0: Sys)
      returns (dm: bool)
      requires Valid() && newId !in db.apps && NoApplicant(db, p.id, user)
      requires Forward(Inserted(db, newId, p.id, user), after) && Beside(cfg, s0, after, now, held, Auto(0), newId)
      modifies this`db
      ensures Valid() && Forward(old(db), db)
      ensures SignedUp(cfg, p, user, newId, old(db), after, held, linkFails, trouble, now, at, db, dm)
    {
      InsertForward(db, newId, p.id, user);
      InsertKeepsDb(cfg, db, newId, p.id, user);
      ghost var before := db;
      db := Inserted(db, newId, p.id, user);
      dm := false;
      if p.autoApprove && p.autoApproveLimit.Some? {
        ForwardTwice(before, db, after);
        db := after;
        var err, _ := Decide(Auto(p.autoApproveLimit.value), newId, held, trouble, at, s0);
        ForwardTwice(before, after, db);
        dm := err.None? && !(p.id in cfg.adt && linkFails);
      }
    }

    /** The gates both decision handlers share before their transaction. */
    method Visible(pt: Option<Playtest>) returns (err: Option<RpcError>)
      ensures err == if pt.None? || pt.value.deleted then Some(NotFound)
                     else if !pt.value.status.Open? then Some(FailedPrecondition) else None
    {
      if pt.None? || pt.value.deleted {
        return Some(NotFound);
      }
      return if pt.value.status.Open? then None else Some(FailedPrecondition);
    }

    /**
     ApproveApplicant: idempotent on an approved row; interim is the database the
     transaction runs on, beside the transactions of s0. The reservation-expired answer (Aborted) never happens.
     */
    method ApproveApplicant(call: Call, interim: Db, ghost s0: Sys) returns (r: Result<Applicant, RpcError>, dm: bool)
      requires Valid() && Forward(db, interim)
      requires BeforeTx(cfg, db, call, Approved).None? ==> Beside(cfg, s0, interim, now, call.held, Manual, call.a)
      modifies this`db
      ensures Valid() && Forward(old(db), db)
      ensures Answers(cfg, Manual, old(db), interim, call, now, db, r, dm)
      ensures r.Ok? ==> call.a in db.apps && r.value == db.apps[call.a] && GrantOk(cfg.adt, db.codes, r.value)
    {
      var a := call.a;
      if a !in db.apps {
        return Err(NotFound), false;
      }
      assert GrantOk(cfg.adt, db.codes, db.apps[a]);
      match db.apps[a].status {
        case Approved => return Ok(db.apps[a]), false;
        case Rejected => return Err(FailedPrecondition), false;
        case Pending =>
      }
      var gate := Visible(call.pt);
      if gate.Some? {
        return Err(gate.value), false;
      }
      if db.apps[a].playtest in cfg.adt && call.linkError.Some? {
        return Err(call.linkError.value), false;
      }
      db := interim;
      var err, _ := Decide(Manual, a, call.held, call.trouble, call.at, s0);
      if err.Some? {
        match err.value {
          case EmptyPool => return Err(ResourceExhausted), false;
          case Orphaned => return Err(Aborted), false;
          case CasMismatch => return Err(FailedPrecondition), false;
          case _ => return Err(Internal), false;
        }
      }
      if call.auditFails {
        return Err(Internal), false;
      }
      assert GrantOk(cfg.adt, db.codes, db.apps[a]);
      return Ok(db.apps[a]), true;
    }

    /** RejectApplicant: idempotent on a rejected row, and never touches a code. */
    method RejectApplicant(call: Call, interim: Db, ghost s0: Sys) returns (r: Result<Applicant, RpcError>)
      requires Valid() && Forward(db, interim)
      requires BeforeTx(cfg, db, call, Rejected).None? ==> Beside(cfg, s0, interim, now, call.held, Reject, call.a)
      modifies this`db
      ensures Valid() && Forward(old(db), db)
      ensures Answers(cfg, Reject, old(db), interim, call, now, db, r, false)
      ensures r.Ok? ==> call.a in db.apps && r.value == db.apps[call.a] && r.value.grantedCode == None
      ensures db.codes == old(db).codes || db.codes == interim.codes
    {
      var a := call.a;
      if a !in db.apps {
        return Err(NotFound);
      }
      assert GrantOk(cfg.adt, db.codes, db.apps[a]);
      match db.apps[a].status {
        case Rejected => return Ok(db.apps[a]);
        case Approved => return Err(FailedPrecondition);
        case Pending =>
      }
      var gate := Visible(call.pt);
      if gate.Some? {
        return Err(gate.value);
      }
      db := interim;
      var err, _ := Decide(Reject, a, call.held, call.trouble, call.at, s0);
      if err.Some? {
        return Err(if err.value.CasMismatch? then FailedPrecondition else Internal);
      }
      if call.auditFails {
        return Err(Internal);
      }
      assert GrantOk(cfg.adt, db.codes, db.apps[a]);
      return Ok(db.apps[a]);
    }
  }
}
