/**
 The approval and rejection transactions as a small-step machine over one database.

 Each statement of a transaction is one step; steps of different transactions interleave
 freely. Writes stay private until commit and hold a row lock; a statement reads committed
 rows overlaid with the transaction's own writes (READ COMMITTED); the advisory lock is
 held until commit or rollback; NOW() is the start of the transaction, as in Postgres.
 */
module Approval {
  import opened Basics
  import opened Tables

  /** What never changes: the playtests without a code pool, and the hash of a lock key. */
  datatype Config = Config(adt: set<Id>, lockKey: Id -> int)

  /** Signup's auto-approve carries the limit its playtest read returned. */
  datatype Kind = Auto(limit: int) | Manual | Reject

  /** The next statement of a transaction; AtFailed can only roll back. */
  datatype Pc = AtLock | AtCount | AtReserve | AtFinalize | AtCas | AtDone | AtFailed

  /** An uncommitted row version; it also holds the row lock. */
  datatype Version<R> = Version(id: Id, row: R)

  datatype Tx = Tx(
    kind: Kind,
    app: Id,
    playtest: Id,
    user: Id,
    start: Time,
    pc: Pc,
    code: Option<Version<Code>>,
    appl: Option<Version<Applicant>>)

  datatype Sys = Sys(db: Db, txs: map<Id, Tx>, advisory: map<int, Id>, now: Time)

  datatype Event =
    | Tick(to: Time)
    | Signup(a: Id, playtest: Id, user: Id)
    | Upload(playtest: Id, values: map<Id, string>)
    | Reclaim(ttl: Time)
    | Begin(t: Id, kind: Kind, a: Id)
    | Lock(t: Id)
    | Count(t: Id)
    | Reserve(t: Id, c: Id)
    | PoolEmpty(t: Id)
    | Finalize(t: Id)
    | Cas(t: Id, at: Time)
    | Commit(t: Id)
    | Rollback(t: Id)

  predicate UsesPool(cfg: Config, x: Tx) {
    !x.kind.Reject? && x.playtest !in cfg.adt
  }

  function FirstPc(cfg: Config, kind: Kind, playtest: Id): Pc {
    match kind
    case Auto(_) => AtLock
    case Manual => if playtest in cfg.adt then AtCas else AtReserve
    case Reject => AtCas
  }

  ghost predicate CodeLocked(txs: map<Id, Tx>, c: Id) {
    exists t :: t in txs && txs[t].code.Some? && txs[t].code.value.id == c
  }

  ghost predicate AppLocked(txs: map<Id, Tx>, a: Id) {
    exists t :: t in txs && txs[t].appl.Some? && txs[t].appl.value.id == a
  }

  /** A row the inner SELECT of Reserve may return: UNUSED and not skipped as locked. */
  ghost predicate Candidate(s: Sys, p: Id, c: Id) {
    && c in s.db.codes
    && s.db.codes[c].playtest == p
    && s.db.codes[c].state.Unused?
    && !CodeLocked(s.txs, c)
  }

  /** The row a transaction's CAS writes when the WHERE clause matches. */
  function DecidedRow(x: Tx, a: Applicant, at: Time): Applicant {
    match x.kind
    case Auto(_) => ApproveRow(a, CodeId(x), at, true)
    case Manual => ApproveRow(a, CodeId(x), at, false)
    case Reject => RejectRow(a)
  }

  function CodeId(x: Tx): Option<Id> {
    if x.code.Some? then Some(x.code.value.id) else None
  }

  ghost predicate AtPc(s: Sys, t: Id, pc: Pc) {
    t in s.txs && s.txs[t].pc == pc
  }

  /** A statement that would wait for a lock is not enabled until the lock is free. */
  ghost predicate Enabled(cfg: Config, s: Sys, e: Event) {
    match e
    case Tick(to) => s.now <= to
    case Signup(a, p, u) =>
      a !in s.db.apps && forall b | b in s.db.apps :: !(s.db.apps[b].playtest == p && s.db.apps[b].user == u)
    case Upload(p, values) =>
      && values.Keys !! s.db.codes.Keys
      && (forall c, d | c in values && d in values && values[c] == values[d] :: c == d)
      && (forall c, d | c in values && d in s.db.codes && s.db.codes[d].playtest == p ::
           s.db.codes[d].value != values[c])
    case Reclaim(ttl) =>
      forall c | c in s.db.codes && Stale(s.db.codes[c], s.now, ttl) :: !CodeLocked(s.txs, c)
    case Begin(t, kind, a) => t !in s.txs && a in s.db.apps
    case Lock(t) => AtPc(s, t, AtLock) && cfg.lockKey(s.txs[t].playtest) !in s.advisory
    case Count(t) => AtPc(s, t, AtCount)
    case Reserve(t, c) =>
      && AtPc(s, t, AtReserve)
      && Candidate(s, s.txs[t].playtest, c)
      && forall d | Candidate(s, s.txs[t].playtest, d) :: s.db.codes[c].createdAt <= s.db.codes[d].createdAt
    case PoolEmpty(t) => AtPc(s, t, AtReserve) && forall c | c in s.db.codes :: !Candidate(s, s.txs[t].playtest, c)
    case Finalize(t) => AtPc(s, t, AtFinalize) && s.txs[t].code.Some?
    case Cas(t, at) => AtPc(s, t, AtCas) && s.txs[t].app in s.db.apps && !AppLocked(s.txs, s.txs[t].app)
    case Commit(t) => AtPc(s, t, AtDone)
    case Rollback(t) => t in s.txs
  }

  ghost function Set(s: Sys, t: Id, x: Tx): Sys {
    s.(txs := s.txs[t := x])
  }

  /** Ending a transaction frees its row locks and its advisory locks. */
  ghost function End(s: Sys, t: Id): Sys {
    s.(txs := s.txs - {t}, advisory := map k | k in s.advisory && s.advisory[k] != t :: s.advisory[k])
  }

  function Written<R>(table: map<Id, R>, w: Option<Version<R>>): map<Id, R> {
    if w.Some? then table[w.value.id := w.value.row] else table
  }

  ghost function Next(cfg: Config, s: Sys, e: Event): Sys
    requires Enabled(cfg, s, e)
  {
    match e
    case Tick(to) => s.(now := to)
    case Signup(a, p, u) => s.(db := s.db.(apps := s.db.apps[a := FreshApplicant(p, u)]))
    case Upload(p, values) =>
      s.(db := s.db.(codes := s.db.codes + map c | c in values :: FreshCode(p, values[c], s.now)))
    case Reclaim(ttl) => s.(db := s.db.(codes := ReclaimAll(s.db.codes, s.now, ttl)))
    case Begin(t, kind, a) =>
      var row := s.db.apps[a];
      Set(s, t, Tx(kind, a, row.playtest, row.user, s.now, FirstPc(cfg, kind, row.playtest), None, None))
    case Lock(t) =>
      Set(s, t, s.txs[t].(pc := AtCount)).(advisory := s.advisory[cfg.lockKey(s.txs[t].playtest) := t])
    case Count(t) =>
      var x := s.txs[t];
      if x.kind.Auto? && |AutoApproved(s.db.apps, x.playtest)| >= x.kind.limit then Set(s, t, x.(pc := AtFailed))
      else if x.playtest in cfg.adt then Set(s, t, x.(pc := AtCas))
      else Set(s, t, x.(pc := AtReserve))
    case Reserve(t, c) =>
      var x := s.txs[t];
      Set(s, t, x.(pc := AtFinalize, code := Some(Version(c, ReserveRow(s.db.codes[c], x.user, x.start)))))
    case PoolEmpty(t) => Set(s, t, s.txs[t].(pc := AtFailed))
    case Finalize(t) =>
      var x := s.txs[t];
      var w := x.code.value;
      if FenceHolds(w.row, x.user, x.start) then
        Set(s, t, x.(pc := AtCas, code := Some(Version(w.id, GrantRow(w.row, x.start)))))
      else
        Set(s, t, x.(pc := AtFailed))
    case Cas(t, at) =>
      var x := s.txs[t];
      var row := s.db.apps[x.app];
      if row.status.Pending? then Set(s, t, x.(pc := AtDone, appl := Some(Version(x.app, DecidedRow(x, row, at)))))
      else Set(s, t, x.(pc := AtFailed))
    case Commit(t) =>
      var x := s.txs[t];
      End(s, t).(db := Db(Written(s.db.codes, x.code), Written(s.db.apps, x.appl)))
    case Rollback(t) => End(s, t)
  }

  // ------------------------------------------------------------------ the invariant

  ghost predicate DbOk(cfg: Config, db: Db) {
    && Bijection(cfg.adt, db)
    && AutoFlagOk(db.apps)
    && UsersUnique(db.apps)
    && ValuesUnique(db.codes)
  }

  /** The row version a pool approval holds between Reserve and the end of the transaction. */
  ghost predicate HoldsCode(s: Sys, x: Tx, granted: bool) {
    && x.code.Some?
    && x.code.value.id in s.db.codes
    && var base := s.db.codes[x.code.value.id];
    && base.state.Unused?
    && base.playtest == x.playtest
    && var reserved := ReserveRow(base, x.user, x.start);
    && x.code.value.row == if granted then GrantRow(reserved, x.start) else reserved
  }

  ghost predicate TxOk(cfg: Config, s: Sys, x: Tx) {
    && x.app in s.db.apps
    && s.db.apps[x.app].playtest == x.playtest
    && s.db.apps[x.app].user == x.user
    && match x.pc
       case AtLock => x.kind.Auto? && x.code == None && x.appl == None
       case AtCount => x.kind.Auto? && x.code == None && x.appl == None
       case AtReserve => UsesPool(cfg, x) && x.code == None && x.appl == None
       case AtFinalize => UsesPool(cfg, x) && HoldsCode(s, x, false) && x.appl == None
       case AtCas => (if UsesPool(cfg, x) then HoldsCode(s, x, true) else x.code == None) && x.appl == None
       case AtDone =>
         && (if UsesPool(cfg, x) then HoldsCode(s, x, true) else x.code == None)
         && s.db.apps[x.app].status.Pending?
         && x.appl.Some?
         && x.appl.value.id == x.app
         && exists at :: x.appl.value.row == DecidedRow(x, s.db.apps[x.app], at)
       case AtFailed => x.appl == None
  }

  ghost predicate TxsOk(cfg: Config, s: Sys) {
    forall t | t in s.txs :: TxOk(cfg, s, s.txs[t])
  }

  ghost predicate LocksDisjoint(txs: map<Id, Tx>) {
    && (forall t, u | t in txs && u in txs && t != u && txs[t].code.Some? && txs[u].code.Some? ::
          txs[t].code.value.id != txs[u].code.value.id)
    && (forall t, u | t in txs && u in txs && t != u && txs[t].appl.Some? && txs[u].appl.Some? ::
          txs[t].appl.value.id != txs[u].appl.value.id)
  }

  ghost predicate PastLock(x: Tx) {
    x.kind.Auto? && !x.pc.AtLock?
  }

  ghost predicate AdvisoryOk(cfg: Config, s: Sys) {
    && (forall t | t in s.txs && PastLock(s.txs[t]) ::
          cfg.lockKey(s.txs[t].playtest) in s.advisory && s.advisory[cfg.lockKey(s.txs[t].playtest)] == t)
    && (forall k | k in s.advisory ::
          s.advisory[k] in s.txs && PastLock(s.txs[s.advisory[k]]) && cfg.lockKey(s.txs[s.advisory[k]].playtest) == k)
  }

  ghost predicate Counted(x: Tx) {
    x.kind.Auto? && !x.pc.AtLock? && !x.pc.AtCount? && !x.pc.AtFailed?
  }

  ghost predicate CapOk(s: Sys) {
    forall t | t in s.txs && Counted(s.txs[t]) :: |AutoApproved(s.db.apps, s.txs[t].playtest)| < s.txs[t].kind.limit
  }

  ghost predicate Inv(cfg: Config, s: Sys) {
    && DbOk(cfg, s.db)
    && TxsOk(cfg, s)
    && LocksDisjoint(s.txs)
    && AdvisoryOk(cfg, s)
    && CapOk(s)
  }

  /** The events that leave every transaction alone. */
  predicate NoTxStep(e: Event) {
    e.Tick? || e.Signup? || e.Upload? || e.Reclaim?
  }

  /** An event touches one transaction, and its advisory locks, at most. */
  lemma OneTxMoves(cfg: Config, s: Sys, e: Event)
    requires Enabled(cfg, s, e)
    ensures var s' := Next(cfg, s, e);
            if NoTxStep(e) then s'.txs == s.txs && s'.advisory == s.advisory
            else if e.Commit? || e.Rollback? then s'.txs == s.txs - {e.t} && s'.advisory == End(s, e.t).advisory
            else
              && e.t in s'.txs && s'.txs == s.txs[e.t := s'.txs[e.t]]
              && s'.advisory == if e.Lock? then s.advisory[cfg.lockKey(s.txs[e.t].playtest) := e.t] else s.advisory
  {
  }

  /** A transaction may take a lock nobody else holds. */
  lemma LocksAfterWrite(txs: map<Id, Tx>, t: Id, x: Tx)
    requires LocksDisjoint(txs)
    requires x.code.Some? ==> forall u | u in txs && u != t && txs[u].code.Some? ::
        txs[u].code.value.id != x.code.value.id
    requires x.appl.Some? ==> forall u | u in txs && u != t && txs[u].appl.Some? ::
        txs[u].appl.value.id != x.appl.value.id
    ensures LocksDisjoint(txs[t := x])
  {
  }

  lemma LocksAfterEnd(txs: map<Id, Tx>, t: Id)
    requires LocksDisjoint(txs)
    ensures LocksDisjoint(txs - {t})
  {
  }

  /** What a transaction's own step may do to the locks it holds. */
  lemma StepTakesFreeLocks(cfg: Config, s: Sys, e: Event)
    requires LocksDisjoint(s.txs) && Enabled(cfg, s, e) && !NoTxStep(e) && !e.Commit? && !e.Rollback?
    ensures var x := Next(cfg, s, e).txs[e.t];
            && (x.code.Some? ==>
                  (e.t in s.txs && s.txs[e.t].code.Some? && s.txs[e.t].code.value.id == x.code.value.id)
                  || !CodeLocked(s.txs, x.code.value.id))
            && (x.appl.Some? ==>
                  (e.t in s.txs && s.txs[e.t].appl == x.appl) || !AppLocked(s.txs, x.appl.value.id))
  {
  }

  lemma StepLocks(cfg: Config, s: Sys, e: Event)
    requires LocksDisjoint(s.txs) && Enabled(cfg, s, e)
    ensures LocksDisjoint(Next(cfg, s, e).txs)
  {
    OneTxMoves(cfg, s, e);
    if e.Commit? || e.Rollback? {
      LocksAfterEnd(s.txs, e.t);
    } else if !NoTxStep(e) {
      StepTakesFreeLocks(cfg, s, e);
      LocksAfterWrite(s.txs, e.t, Next(cfg, s, e).txs[e.t]);
    }
  }

  lemma AdvisoryAfterEnd(cfg: Config, s: Sys, t: Id)
    requires AdvisoryOk(cfg, s)
    ensures AdvisoryOk(cfg, End(s, t))
  {
  }

  /** A step that neither takes nor needs the advisory lock. */
  lemma AdvisoryAfterStep(cfg: Config, s: Sys, s': Sys, t: Id, x: Tx)
    requires AdvisoryOk(cfg, s) && s'.txs == s.txs[t := x] && s'.advisory == s.advisory
    requires if t in s.txs then PastLock(x) == PastLock(s.txs[t]) && x.playtest == s.txs[t].playtest else !PastLock(x)
    ensures AdvisoryOk(cfg, s')
  {
  }

  lemma AdvisoryAfterLock(cfg: Config, s: Sys, s': Sys, t: Id, x: Tx)
    requires AdvisoryOk(cfg, s) && t in s.txs && !PastLock(s.txs[t]) && PastLock(x) && x.playtest == s.txs[t].playtest
    requires cfg.lockKey(x.playtest) !in s.advisory
    requires s'.txs == s.txs[t := x] && s'.advisory == s.advisory[cfg.lockKey(x.playtest) := t]
    ensures AdvisoryOk(cfg, s')
  {
  }

  lemma AdvisoryFrame(cfg: Config, s: Sys, s': Sys)
    requires AdvisoryOk(cfg, s) && s'.txs == s.txs && s'.advisory == s.advisory
    ensures AdvisoryOk(cfg, s')
  {
  }

  lemma StepAdvisory(cfg: Config, s: Sys, e: Event)
    requires TxsOk(cfg, s) && AdvisoryOk(cfg, s) && Enabled(cfg, s, e)
    ensures AdvisoryOk(cfg, Next(cfg, s, e))
  {
    var s' := Next(cfg, s, e);
    OneTxMoves(cfg, s, e);
    if NoTxStep(e) {
      AdvisoryFrame(cfg, s, s');
    } else if e.Commit? || e.Rollback? {
      AdvisoryAfterEnd(cfg, s, e.t);
      AdvisoryFrame(cfg, End(s, e.t), s');
    } else {
      if e.t in s.txs {
        assert TxOk(cfg, s, s.txs[e.t]);
      }
      if e.Lock? {
        AdvisoryAfterLock(cfg, s, s', e.t, s'.txs[e.t]);
      } else {
        AdvisoryAfterStep(cfg, s, s', e.t, s'.txs[e.t]);
      }
    }
  }

  /** A transaction keeps its invariant when the rows it depends on are untouched. */
  lemma TxFrame(cfg: Config, s: Sys, s': Sys, x: Tx)
    requires TxOk(cfg, s, x)
    requires x.app in s'.db.apps
    requires s'.db.apps[x.app].playtest == x.playtest && s'.db.apps[x.app].user == x.user
    requires x.pc.AtDone? ==> s'.db.apps[x.app] == s.db.apps[x.app]
    requires x.code.Some? && !x.pc.AtFailed? ==>
               x.code.value.id in s'.db.codes && s'.db.codes[x.code.value.id] == s.db.codes[x.code.value.id]
    ensures TxOk(cfg, s', x)
  {
  }

  /** A write to the committed tables leaves alone the rows another transaction has locked or read. */
  lemma CommitSparesOthers(cfg: Config, s: Sys, t: Id, u: Id)
    requires Inv(cfg, s) && Enabled(cfg, s, Commit(t)) && u in s.txs && u != t
    ensures TxOk(cfg, Next(cfg, s, Commit(t)), s.txs[u])
  {
    assert TxOk(cfg, s, s.txs[t]) && TxOk(cfg, s, s.txs[u]);
    TxFrame(cfg, s, Next(cfg, s, Commit(t)), s.txs[u]);
  }

  lemma StoreSparesTxs(cfg: Config, s: Sys, e: Event, u: Id)
    requires Inv(cfg, s) && Enabled(cfg, s, e) && NoTxStep(e) && u in s.txs
    ensures TxOk(cfg, Next(cfg, s, e), s.txs[u])
  {
    assert TxOk(cfg, s, s.txs[u]);
    TxFrame(cfg, s, Next(cfg, s, e), s.txs[u]);
  }

  lemma TxOkSameDb(cfg: Config, s: Sys, s': Sys, x: Tx)
    requires TxOk(cfg, s, x) && s'.db == s.db
    ensures TxOk(cfg, s', x)
  {
  }

  lemma StepTxs(cfg: Config, s: Sys, e: Event)
    requires Inv(cfg, s) && Enabled(cfg, s, e)
    ensures TxsOk(cfg, Next(cfg, s, e))
  {
    var s' := Next(cfg, s, e);
    OneTxMoves(cfg, s, e);
    forall u | u in s'.txs ensures TxOk(cfg, s', s'.txs[u]) {
      if NoTxStep(e) {
        StoreSparesTxs(cfg, s, e, u);
      } else if e.Commit? {
        CommitSparesOthers(cfg, s, e.t, u);
      } else if u == e.t {
        StepOwnTx(cfg, s, e);
      } else {
        TxOkSameDb(cfg, s, s', s.txs[u]);
      }
    }
  }

  /** The transaction whose statement runs reaches its next program point correctly. */
  lemma StepOwnTx(cfg: Config, s: Sys, e: Event)
    requires Inv(cfg, s) && Enabled(cfg, s, e) && !NoTxStep(e) && !e.Commit? && !e.Rollback?
    ensures e.t in Next(cfg, s, e).txs && TxOk(cfg, Next(cfg, s, e), Next(cfg, s, e).txs[e.t])
  {
    match e
    case Reserve(t, c) => OwnReserve(cfg, s, t, c);
    case Finalize(t) => OwnFinalize(cfg, s, t);
    case Cas(t, at) => OwnCas(cfg, s, t, at);
    case _ => OwnGate(cfg, s, e);
  }

  lemma OwnGate(cfg: Config, s: Sys, e: Event)
    requires TxsOk(cfg, s) && Enabled(cfg, s, e) && (e.Begin? || e.Lock? || e.Count? || e.PoolEmpty?)
    ensures TxOk(cfg, Next(cfg, s, e), Next(cfg, s, e).txs[e.t])
  {
    if e.t in s.txs {
      assert TxOk(cfg, s, s.txs[e.t]);
    }
  }

  lemma OwnReserve(cfg: Config, s: Sys, t: Id, c: Id)
    requires TxsOk(cfg, s) && Enabled(cfg, s, Reserve(t, c))
    ensures TxOk(cfg, Next(cfg, s, Reserve(t, c)), Next(cfg, s, Reserve(t, c)).txs[t])
  {
    assert TxOk(cfg, s, s.txs[t]);
  }

  lemma OwnFinalize(cfg: Config, s: Sys, t: Id)
    requires TxsOk(cfg, s) && Enabled(cfg, s, Finalize(t))
    ensures TxOk(cfg, Next(cfg, s, Finalize(t)), Next(cfg, s, Finalize(t)).txs[t])
  {
    assert TxOk(cfg, s, s.txs[t]);
  }

  lemma OwnCas(cfg: Config, s: Sys, t: Id, at: Time)
    requires TxsOk(cfg, s) && Enabled(cfg, s, Cas(t, at))
    ensures TxOk(cfg, Next(cfg, s, Cas(t, at)), Next(cfg, s, Cas(t, at)).txs[t])
  {
    var x := s.txs[t];
    var row := s.db.apps[x.app];
    assert TxOk(cfg, s, x);
    assert DecidedRow(x, row, at) == DecidedRow(Next(cfg, s, Cas(t, at)).txs[t], row, at);
  }

  /** What a commit writes: one pending applicant is decided, and in the pool case one unused code granted to it. */
  ghost predicate CommitShape(cfg: Config, s: Sys, x: Tx, db': Db) {
    && x.app in s.db.apps
    && var old_ := s.db.apps[x.app];
    && old_.status.Pending?
    && exists row: Applicant ::
      && db'.apps == s.db.apps[x.app := row]
      && row.playtest == old_.playtest
      && row.user == old_.user
      && row.status == (if x.kind.Reject? then Rejected else Approved)
      && row.autoApproved == (if x.kind.Reject? then old_.autoApproved else x.kind.Auto?)
      && if UsesPool(cfg, x) then
        && row.grantedCode.Some?
        && var c := row.grantedCode.value;
        && c in s.db.codes
        && s.db.codes[c].state.Unused?
        && s.db.codes[c].playtest == row.playtest
        && db'.codes == s.db.codes[c := GrantRow(ReserveRow(s.db.codes[c], row.user, x.start), x.start)]
      else
        && db'.codes == s.db.codes
        && row.grantedCode == None
  }

  lemma CommitIs(cfg: Config, s: Sys, t: Id)
    requires Inv(cfg, s) && AtPc(s, t, AtDone)
    ensures CommitShape(cfg, s, s.txs[t], Next(cfg, s, Commit(t)).db)
  {
    var x := s.txs[t];
    assert TxOk(cfg, s, x);
    assert GrantOk(cfg.adt, s.db.codes, s.db.apps[x.app]);
  }

  lemma AutoAfterWrite(apps: map<Id, Applicant>, a: Id, row: Applicant, p: Id)
    requires a in apps ==> !apps[a].autoApproved
    ensures AutoApproved(apps[a := row], p) ==
              AutoApproved(apps, p) + (if row.autoApproved && row.playtest == p then {a} else {})
  {
  }

  /** Other auto-approvals stay below their limits when one applicant of another lock is counted. */
  lemma CommitKeepsCap(cfg: Config, s: Sys, t: Id, u: Id)
    requires Inv(cfg, s) && AtPc(s, t, AtDone) && u in s.txs && u != t && Counted(s.txs[u])
    ensures AutoApproved(Next(cfg, s, Commit(t)).db.apps, s.txs[u].playtest) ==
        AutoApproved(s.db.apps, s.txs[u].playtest)
  {
    CommitIs(cfg, s, t);
    var x := s.txs[t];
    assert PastLock(s.txs[u]);
    if x.kind.Auto? {
      assert PastLock(x);
      assert s.txs[u].playtest != x.playtest;
    }
    AutoAfterWrite(s.db.apps, x.app, Next(cfg, s, Commit(t)).db.apps[x.app], s.txs[u].playtest);
  }

  /** A transaction is newly counted only by its own count. */
  lemma CountedBefore(cfg: Config, s: Sys, e: Event, u: Id)
    requires Enabled(cfg, s, e) && u in Next(cfg, s, e).txs && Counted(Next(cfg, s, e).txs[u])
    ensures u in s.txs && Next(cfg, s, e).txs[u].kind == s.txs[u].kind
        && Next(cfg, s, e).txs[u].playtest == s.txs[u].playtest
    ensures Counted(s.txs[u]) || (e == Count(u) && |AutoApproved(s.db.apps, s.txs[u].playtest)| < s.txs[u].kind.limit)
  {
  }

  lemma StepCap(cfg: Config, s: Sys, e: Event)
    requires Inv(cfg, s) && Enabled(cfg, s, e)
    ensures CapOk(Next(cfg, s, e))
  {
    var s' := Next(cfg, s, e);
    forall u | u in s'.txs && Counted(s'.txs[u])
      ensures |AutoApproved(s'.db.apps, s'.txs[u].playtest)| < s'.txs[u].kind.limit
    {
      CountedBefore(cfg, s, e, u);
      if e.Commit? {
        assert u != e.t;
        CommitKeepsCap(cfg, s, e.t, u);
      } else if e.Signup? {
        AutoAfterWrite(s.db.apps, e.a, FreshApplicant(e.playtest, e.user), s.txs[u].playtest);
      }
    }
  }

  lemma StepDb(cfg: Config, s: Sys, e: Event)
    requires Inv(cfg, s) && Enabled(cfg, s, e)
    ensures DbOk(cfg, Next(cfg, s, e).db)
  {
    match e
    case Signup(a, p, u) => SignupKeepsDb(cfg, s, a, p, u);
    case Upload(p, values) => UploadKeepsDb(cfg, s, p, values);
    case Reclaim(ttl) => ReclaimKeepsDb(cfg, s, ttl);
    case Commit(t) =>
      CommitIs(cfg, s, t);
      CommitKeepsDb(cfg, s, s.txs[t], Next(cfg, s, e).db);
    case _ =>
  }

  lemma SignupKeepsDb(cfg: Config, s: Sys, a: Id, p: Id, u: Id)
    requires Inv(cfg, s) && Enabled(cfg, s, Signup(a, p, u))
    ensures DbOk(cfg, Next(cfg, s, Signup(a, p, u)).db)
  {
    var db' := Next(cfg, s, Signup(a, p, u)).db;
    forall c | c in db'.codes && db'.codes[c].state.Granted? ensures Held(db'.apps, c) {
      assert Held(s.db.apps, c);
      var b :| b in s.db.apps && s.db.apps[b].grantedCode == Some(c);
      assert b in db'.apps && db'.apps[b].grantedCode == Some(c);
    }
    forall b | b in db'.apps ensures GrantOk(cfg.adt, db'.codes, db'.apps[b]) {
      if b != a { assert GrantOk(cfg.adt, s.db.codes, s.db.apps[b]); }
    }
  }

  lemma UploadKeepsDb(cfg: Config, s: Sys, p: Id, values: map<Id, string>)
    requires Inv(cfg, s) && Enabled(cfg, s, Upload(p, values))
    ensures DbOk(cfg, Next(cfg, s, Upload(p, values)).db)
  {
    var db' := Next(cfg, s, Upload(p, values)).db;
    forall c | c in db'.codes && db'.codes[c].state.Granted? ensures Held(db'.apps, c) {
      assert Held(s.db.apps, c);
    }
    forall b | b in db'.apps ensures GrantOk(cfg.adt, db'.codes, db'.apps[b]) {
      assert GrantOk(cfg.adt, s.db.codes, s.db.apps[b]);
    }
  }

  lemma ReclaimKeepsDb(cfg: Config, s: Sys, ttl: Time)
    requires Inv(cfg, s)
    ensures DbOk(cfg, Db(ReclaimAll(s.db.codes, s.now, ttl), s.db.apps))
  {
    var codes' := ReclaimAll(s.db.codes, s.now, ttl);
    assert forall c | c in s.db.codes && s.db.codes[c].state.Granted? :: codes'[c] == s.db.codes[c];
    forall b | b in s.db.apps ensures GrantOk(cfg.adt, codes', s.db.apps[b]) {
      assert GrantOk(cfg.adt, s.db.codes, s.db.apps[b]);
    }
    forall c | c in codes' && codes'[c].state.Granted? ensures Held(s.db.apps, c) {
      assert s.db.codes[c].state.Granted?;
    }
  }

  lemma CommitKeepsDb(cfg: Config, s: Sys, x: Tx, db': Db)
    requires Inv(cfg, s) && CommitShape(cfg, s, x, db')
    requires x.playtest == s.db.apps[x.app].playtest
    ensures DbOk(cfg, db')
  {
    var row := db'.apps[x.app];
    assert GrantOk(cfg.adt, s.db.codes, s.db.apps[x.app]);
    forall b | b in db'.apps ensures GrantOk(cfg.adt, db'.codes, db'.apps[b]) {
      if b != x.app { assert GrantOk(cfg.adt, s.db.codes, s.db.apps[b]); }
    }
    forall c | c in db'.codes && db'.codes[c].state.Granted? ensures Held(db'.apps, c) {
      if row.grantedCode == Some(c) {
        assert x.app in db'.apps;
      } else {
        assert Held(s.db.apps, c);
        var b :| b in s.db.apps && s.db.apps[b].grantedCode == Some(c);
        assert b != x.app;
        assert b in db'.apps && db'.apps[b].grantedCode == Some(c);
      }
    }
    forall b | b in s.db.apps && s.db.apps[b].grantedCode.Some? ensures s.db.apps[b].grantedCode != row.grantedCode {
      assert GrantOk(cfg.adt, s.db.codes, s.db.apps[b]);
    }
  }
}
