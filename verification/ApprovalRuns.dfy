/** What holds over every run of the approval machine, for every interleaving of its steps. */
module ApprovalRuns {
  import opened Basics
  import opened Tables
  import opened Approval

  ghost predicate ValidRun(cfg: Config, s: Sys, es: seq<Event>)
    decreases |es|
  {
    es == [] || (Enabled(cfg, s, es[0]) && ValidRun(cfg, Next(cfg, s, es[0]), es[1..]))
  }

  ghost function Exec(cfg: Config, s: Sys, es: seq<Event>): Sys
    requires ValidRun(cfg, s, es)
    decreases |es|
  {
    if es == [] then s else Exec(cfg, Next(cfg, s, es[0]), es[1..])
  }

  lemma {:induction false} Extend(cfg: Config, s: Sys, es: seq<Event>, e: Event)
    requires ValidRun(cfg, s, es) && Enabled(cfg, Exec(cfg, s, es), e)
    ensures ValidRun(cfg, s, es + [e])
    ensures Exec(cfg, s, es + [e]) == Next(cfg, Exec(cfg, s, es), e)
    decreases |es|
  {
    if es == [] {
      assert [] + [e] == [e];
    } else {
      assert (es + [e])[1..] == es[1..] + [e];
      Extend(cfg, Next(cfg, s, es[0]), es[1..], e);
    }
  }

  lemma Then(cfg: Config, s: Sys, es: seq<Event>, e: Event) returns (es': seq<Event>)
    requires ValidRun(cfg, s, es) && Enabled(cfg, Exec(cfg, s, es), e)
    ensures ValidRun(cfg, s, es') && Exec(cfg, s, es') == Next(cfg, Exec(cfg, s, es), e)
  {
    Extend(cfg, s, es, e);
    es' := es + [e];
  }

  const EMPTY: Sys := Sys(Db(map[], map[]), map[], map[], 0)

  lemma EmptyIsOk(cfg: Config)
    ensures Inv(cfg, EMPTY)
  {
  }

  lemma StepKeepsInv(cfg: Config, s: Sys, e: Event)
    requires Inv(cfg, s) && Enabled(cfg, s, e)
    ensures Inv(cfg, Next(cfg, s, e))
  {
    StepDb(cfg, s, e);
    StepTxs(cfg, s, e);
    StepLocks(cfg, s, e);
    StepAdvisory(cfg, s, e);
    StepCap(cfg, s, e);
  }

  /** Every reachable committed state pairs approved applicants with granted codes. */
  lemma {:induction false} RunKeepsInv(cfg: Config, s: Sys, es: seq<Event>)
    requires Inv(cfg, s) && ValidRun(cfg, s, es)
    ensures Inv(cfg, Exec(cfg, s, es))
    decreases |es|
  {
    if es != [] {
      StepKeepsInv(cfg, s, es[0]);
      RunKeepsInv(cfg, Next(cfg, s, es[0]), es[1..]);
    }
  }

  // ------------------------------------------------------------------ the cap

  /** Only the commit of an auto-approval changes the counted rows, and it adds its own applicant. */
  lemma OnlyAutoCommitsCount(cfg: Config, s: Sys, e: Event, p: Id)
    requires Inv(cfg, s) && Enabled(cfg, s, e)
    ensures AutoApproved(Next(cfg, s, e).db.apps, p) ==
              AutoApproved(s.db.apps, p) +
              (if e.Commit? && s.txs[e.t].kind.Auto? && s.txs[e.t].playtest == p then {s.txs[e.t].app} else {})
  {
    match e
    case Signup(a, q, u) => AutoAfterWrite(s.db.apps, a, FreshApplicant(q, u), p);
    case Commit(t) =>
      CommitIs(cfg, s, t);
      var s' := Next(cfg, s, e);
      AutoAfterWrite(s.db.apps, s.txs[t].app, s'.db.apps[s.txs[t].app], p);
      assert TxOk(cfg, s, s.txs[t]);
    case _ =>
  }

  /** An auto-approval never commits a count above the limit that very transaction was given. */
  lemma AutoCommitWithinLimit(cfg: Config, s: Sys, t: Id)
    requires Inv(cfg, s) && Enabled(cfg, s, Commit(t)) && s.txs[t].kind.Auto?
    ensures |AutoApproved(Next(cfg, s, Commit(t)).db.apps, s.txs[t].playtest)| ==
              |AutoApproved(s.db.apps, s.txs[t].playtest)| + 1 <= s.txs[t].kind.limit
  {
    var x := s.txs[t];
    OnlyAutoCommitsCount(cfg, s, Commit(t), x.playtest);
    assert TxOk(cfg, s, x);
    assert Counted(x);
    assert x.app !in AutoApproved(s.db.apps, x.playtest);
  }

  /** No signup on p that starts in this run, or is already running, read a limit above bound. */
  ghost predicate LimitsAtMost(cfg: Config, s: Sys, es: seq<Event>, p: Id, bound: int)
    requires ValidRun(cfg, s, es)
    decreases |es|
  {
    && (forall t | t in s.txs && s.txs[t].kind.Auto? && s.txs[t].playtest == p :: s.txs[t].kind.limit <= bound)
    && (es != [] ==> LimitsAtMost(cfg, Next(cfg, s, es[0]), es[1..], p, bound))
  }

  /**
   The cap, under every interleaving: if no signup on p reads a limit above bound, the
   committed auto-approved applicants of p never exceed bound.
   */
  lemma {:induction false} CapHolds(cfg: Config, s: Sys, es: seq<Event>, p: Id, bound: int)
    requires Inv(cfg, s) && ValidRun(cfg, s, es)
    requires |AutoApproved(s.db.apps, p)| <= bound
    requires LimitsAtMost(cfg, s, es, p, bound)
    ensures |AutoApproved(Exec(cfg, s, es).db.apps, p)| <= bound
    decreases |es|
  {
    if es != [] {
      var e := es[0];
      StepKeepsInv(cfg, s, e);
      OnlyAutoCommitsCount(cfg, s, e, p);
      if e.Commit? && s.txs[e.t].kind.Auto? && s.txs[e.t].playtest == p {
        AutoCommitWithinLimit(cfg, s, e.t);
      }
      CapHolds(cfg, Next(cfg, s, e), es[1..], p, bound);
    }
  }

  // ------------------------------------------------------------------ the fence inside a transaction

  /**
   Within a transaction the fence cannot fail: the row lock taken by Reserve lasts until
   commit, so FencedFinalize always affects one row and the orphaned-grant error is dead.
   */
  lemma FinalizeNeverOrphans(cfg: Config, s: Sys, t: Id)
    requires Inv(cfg, s) && Enabled(cfg, s, Finalize(t))
    ensures Next(cfg, s, Finalize(t)).txs[t].pc == AtCas
  {
    assert TxOk(cfg, s, s.txs[t]);
  }

  ghost predicate NothingReserved(s: Sys) {
    forall c | c in s.db.codes :: !s.db.codes[c].state.Reserved?
  }

  lemma ReclaimFindsNothing(s: Sys, ttl: Time)
    requires NothingReserved(s)
    ensures ReclaimAll(s.db.codes, s.now, ttl) == s.db.codes
  {
    assert forall c | c in s.db.codes :: ReclaimAll(s.db.codes, s.now, ttl)[c] == s.db.codes[c];
  }

  lemma StepKeepsUnreserved(cfg: Config, s: Sys, e: Event)
    requires Inv(cfg, s) && Enabled(cfg, s, e) && NothingReserved(s)
    ensures NothingReserved(Next(cfg, s, e))
  {
    if e.Commit? {
      CommitIs(cfg, s, e.t);
    }
  }

  /** No handler ever commits a RESERVED row, so the reclaim sweep finds nothing to release. */
  lemma {:induction false} ReservedNeverCommitted(cfg: Config, s: Sys, es: seq<Event>)
    requires Inv(cfg, s) && ValidRun(cfg, s, es) && NothingReserved(s)
    ensures NothingReserved(Exec(cfg, s, es))
    ensures forall ttl :: ReclaimAll(Exec(cfg, s, es).db.codes, Exec(cfg, s, es).now, ttl) == Exec(cfg, s, es).db.codes
    decreases |es|
  {
    if es == [] {
      forall ttl ensures ReclaimAll(s.db.codes, s.now, ttl) == s.db.codes { ReclaimFindsNothing(s, ttl); }
    } else {
      var e := es[0];
      StepKeepsInv(cfg, s, e);
      StepKeepsUnreserved(cfg, s, e);
      ReservedNeverCommitted(cfg, Next(cfg, s, e), es[1..]);
    }
  }

  // ------------------------------------------------------------------ terminal states, nothing lost

  /** Rows never disappear; identity columns never change; decided rows never change at all. */
  ghost predicate Forward(d: Db, d': Db) {
    && (forall c | c in d.codes ::
          && c in d'.codes
          && d'.codes[c].playtest == d.codes[c].playtest
          && d'.codes[c].value == d.codes[c].value
          && d'.codes[c].createdAt == d.codes[c].createdAt
          && (d.codes[c].state.Granted? ==> d'.codes[c] == d.codes[c]))
    && (forall a | a in d.apps ::
          && a in d'.apps
          && d'.apps[a].playtest == d.apps[a].playtest
          && d'.apps[a].user == d.apps[a].user
          && (!d.apps[a].status.Pending? ==> d'.apps[a] == d.apps[a]))
  }

  lemma CommitForward(cfg: Config, s: Sys, x: Tx, db': Db)
    requires CommitShape(cfg, s, x, db')
    ensures Forward(s.db, db')
  {
  }

  lemma StoreForward(cfg: Config, s: Sys, e: Event)
    requires Enabled(cfg, s, e) && NoTxStep(e)
    ensures Forward(s.db, Next(cfg, s, e).db)
  {
  }

  lemma StepForward(cfg: Config, s: Sys, e: Event)
    requires Inv(cfg, s) && Enabled(cfg, s, e)
    ensures Forward(s.db, Next(cfg, s, e).db)
  {
    if NoTxStep(e) {
      StoreForward(cfg, s, e);
    } else if e.Commit? {
      CommitIs(cfg, s, e.t);
      CommitForward(cfg, s, s.txs[e.t], Next(cfg, s, e).db);
    } else {
      assert Next(cfg, s, e).db == s.db;
    }
  }

  /** GRANTED, APPROVED and REJECTED are terminal and no row is lost, over every run. */
  lemma {:induction false} RunForward(cfg: Config, s: Sys, es: seq<Event>)
    requires Inv(cfg, s) && ValidRun(cfg, s, es)
    ensures Forward(s.db, Exec(cfg, s, es).db)
    decreases |es|
  {
    if es != [] {
      StepForward(cfg, s, es[0]);
      StepKeepsInv(cfg, s, es[0]);
      RunForward(cfg, Next(cfg, s, es[0]), es[1..]);
    }
  }

  /**
   From the empty tables, whatever was uploaded and however the transactions interleaved: users
   and values are unique, codes and approvals match one to one, and no code is left RESERVED.
   */
  lemma EveryReachableState(cfg: Config, es: seq<Event>, p: Id)
    requires ValidRun(cfg, EMPTY, es)
    ensures var s := Exec(cfg, EMPTY, es);
            && UsersUnique(s.db.apps) && ValuesUnique(s.db.codes)
            && Bijection(cfg.adt, s.db)
            && NothingReserved(s)
            && (p !in cfg.adt ==> |GrantedCodes(s.db, p)| == |ApprovedApps(s.db, p)|)
  {
    EmptyIsOk(cfg);
    RunKeepsInv(cfg, EMPTY, es);
    ReservedNeverCommitted(cfg, EMPTY, es);
    if p !in cfg.adt {
      GrantsEqualApprovals(cfg.adt, Exec(cfg, EMPTY, es).db, p);
    }
  }

  // ------------------------------------------------------------------ progress

  /** A step that brings a transaction closer to its end, other than giving up early. */
  ghost predicate Progress(s: Sys, e: Event) {
    match e
    case Tick(_) => false
    case Signup(_, _, _) => false
    case Upload(_, _) => false
    case Reclaim(_) => false
    case Begin(_, _, _) => false
    case Rollback(t) => AtPc(s, t, AtFailed)
    case _ => true
  }

  /** The transactions never deadlock: while one is running, some transaction can proceed. */
  lemma NoDeadlock(cfg: Config, s: Sys, t: Id) returns (e: Event)
    requires Inv(cfg, s) && t in s.txs
    ensures Enabled(cfg, s, e) && Progress(s, e)
  {
    var x := s.txs[t];
    var k := cfg.lockKey(x.playtest);
    if x.pc.AtLock? && k in s.advisory {
      e := UnlockedProgress(cfg, s, s.advisory[k]);
    } else if x.pc.AtLock? {
      e := Lock(t);
    } else {
      e := UnlockedProgress(cfg, s, t);
    }
  }

  lemma UnlockedProgress(cfg: Config, s: Sys, t: Id) returns (e: Event)
    requires Inv(cfg, s) && t in s.txs && !s.txs[t].pc.AtLock?
    ensures Enabled(cfg, s, e) && Progress(s, e)
  {
    var x := s.txs[t];
    assert TxOk(cfg, s, x);
    match x.pc
    case AtCount => e := Count(t);
    case AtReserve => e := ReserveProgress(cfg, s, t);
    case AtFinalize => e := Finalize(t);
    case AtCas =>
      if AppLocked(s.txs, x.app) {
        var u :| u in s.txs && s.txs[u].appl.Some? && s.txs[u].appl.value.id == x.app;
        assert TxOk(cfg, s, s.txs[u]);
        e := Commit(u);
      } else {
        e := Cas(t, s.now);
      }
    case AtDone => e := Commit(t);
    case AtFailed => e := Rollback(t);
  }

  lemma ReserveProgress(cfg: Config, s: Sys, t: Id) returns (e: Event)
    requires AtPc(s, t, AtReserve)
    ensures Enabled(cfg, s, e) && Progress(s, e)
  {
    var p := s.txs[t].playtest;
    var pool := set c | c in s.db.codes && Candidate(s, p, c);
    if pool == {} {
      e := PoolEmpty(t);
      assert forall c | c in s.db.codes :: c !in pool;
    } else {
      var c := Oldest(s.db.codes, pool);
      e := Reserve(t, c);
    }
  }

  // ------------------------------------------------------------------ first in, first out

  /** An upload adds exactly its codes: unused, unreserved, created now. */
  lemma UploadMeaning(cfg: Config, s: Sys, p: Id, values: map<Id, string>)
    requires Enabled(cfg, s, Upload(p, values))
    ensures var db' := Next(cfg, s, Upload(p, values)).db;
            && db'.apps == s.db.apps && db'.codes.Keys == s.db.codes.Keys + values.Keys
            && (forall c | c in s.db.codes :: db'.codes[c] == s.db.codes[c])
            && (forall c | c in values :: db'.codes[c] == Code(p, values[c], Unused, None, None, None, s.now))
  {
  }

  ghost predicate CreatedPast(s: Sys) {
    forall c | c in s.db.codes :: s.db.codes[c].createdAt <= s.now
  }

  lemma StepCreated(cfg: Config, s: Sys, e: Event)
    requires Inv(cfg, s) && CreatedPast(s) && Enabled(cfg, s, e)
    ensures CreatedPast(Next(cfg, s, e)) && s.now <= Next(cfg, s, e).now
    ensures forall c | c in Next(cfg, s, e).db.codes ::
              if c in s.db.codes then Next(cfg, s, e).db.codes[c].createdAt == s.db.codes[c].createdAt
              else Next(cfg, s, e).db.codes[c].createdAt == s.now
  {
    match e
    case Upload(p, values) => UploadMeaning(cfg, s, p, values);
    case Commit(t) => CommitIs(cfg, s, t);
    case Reclaim(ttl) =>
    case _ => assert Next(cfg, s, e).db.codes == s.db.codes;
  }

  lemma {:induction false} RunCreated(cfg: Config, s: Sys, es: seq<Event>)
    requires Inv(cfg, s) && CreatedPast(s) && ValidRun(cfg, s, es)
    ensures forall c | c in Exec(cfg, s, es).db.codes ::
              if c in s.db.codes then Exec(cfg, s, es).db.codes[c].createdAt == s.db.codes[c].createdAt
              else Exec(cfg, s, es).db.codes[c].createdAt >= s.now
    ensures forall c | c in s.db.codes :: c in Exec(cfg, s, es).db.codes
    decreases |es|
  {
    if es != [] {
      StepCreated(cfg, s, es[0]);
      StepForward(cfg, s, es[0]);
      StepKeepsInv(cfg, s, es[0]);
      RunCreated(cfg, Next(cfg, s, es[0]), es[1..]);
    }
  }

  /**
   Codes are granted in the order of their uploads: while a code uploaded by some moment is
   free, no approval reserves one of the same playtest uploaded after it, unless both came at
   that very moment.
   */
  lemma EarlierUploadsFirst(cfg: Config, s: Sys, es: seq<Event>, t: Id, c: Id, d: Id)
    requires Inv(cfg, s) && CreatedPast(s) && ValidRun(cfg, s, es)
    requires Enabled(cfg, Exec(cfg, s, es), Reserve(t, d)) && c in s.db.codes && d !in s.db.codes
    requires var s' := Exec(cfg, s, es);
             c in s'.db.codes && s'.db.codes[c].state == Unused && !CodeLocked(s'.txs, c)
             && s'.db.codes[c].playtest == s'.txs[t].playtest
    ensures s.db.codes[c].createdAt == s.now == Exec(cfg, s, es).db.codes[d].createdAt
  {
    RunCreated(cfg, s, es);
    assert Candidate(Exec(cfg, s, es), Exec(cfg, s, es).txs[t].playtest, c);
  }

  // ------------------------------------------------------------------ the pool-empty answer

  function UnusedCodes(db: Db, p: Id): set<Id> {
    set c | c in db.codes && UnusedOf(db.codes, p, c)
  }

  /** The other running transactions that hold a code of playtest p still unused in the database. */
  ghost function Holders(s: Sys, t: Id, p: Id): set<Id> {
    set u | u in s.txs && u != t && s.txs[u].code.Some? && s.txs[u].code.value.id in UnusedCodes(s.db, p)
  }

  ghost predicate HeldByOther(s: Sys, t: Id, c: Id) {
    exists u :: u in s.txs && u != t && s.txs[u].code.Some? && s.txs[u].code.value.id == c
  }

  /**
   Exactly when a transaction at Reserve is told the pool is empty: every code that is unused
   in the database is held by another running transaction, which may yet roll back.
   */
  lemma PoolEmptyExactly(cfg: Config, s: Sys, t: Id)
    requires Inv(cfg, s) && AtPc(s, t, AtReserve)
    ensures Enabled(cfg, s, PoolEmpty(t)) <==>
              forall c | c in UnusedCodes(s.db, s.txs[t].playtest) :: HeldByOther(s, t, c)
  {
    var p := s.txs[t].playtest;
    assert TxOk(cfg, s, s.txs[t]);
    forall c | c in UnusedCodes(s.db, p) ensures HeldByOther(s, t, c) <==> !Candidate(s, p, c) {
    }
  }

  ghost function HolderFor(s: Sys, t: Id, c: Id): (u: Id)
    requires HeldByOther(s, t, c)
    ensures u in s.txs && u != t && s.txs[u].code.Some? && s.txs[u].code.value.id == c
  {
    var u :| u in s.txs && u != t && s.txs[u].code.Some? && s.txs[u].code.value.id == c;
    u
  }

  /**
   How wrong that answer can be: the pool has at most as many unused codes as other running
   transactions hold. With none of them holding a code, the pool really is empty.
   */
  lemma PoolEmptyBound(cfg: Config, s: Sys, t: Id)
    requires Inv(cfg, s) && Enabled(cfg, s, PoolEmpty(t))
    ensures |UnusedCodes(s.db, s.txs[t].playtest)| <= |Holders(s, t, s.txs[t].playtest)|
  {
    var p := s.txs[t].playtest;
    var unused := UnusedCodes(s.db, p);
    PoolEmptyExactly(cfg, s, t);
    var holderOf := map c | c in unused :: HolderFor(s, t, c);
    InjectionBound(unused, holderOf, Holders(s, t, p));
  }

  /** Two pending applicants of playtest 1 and its one unused code. */
  const ONE_CODE: Sys := Sys(
    Db(map[7 := FreshCode(1, "KEY", 0)], map[3 := FreshApplicant(1, 5), 4 := FreshApplicant(1, 6)]), map[], map[], 20)

  const NO_ADT: Config := Config({}, p => p)

  /** Two manual approvals of them: the first has reserved the code, the second is about to. */
  const FIRST: Tx := Tx(
    Manual, 3, 1, 5, 20, AtFinalize, Some(Version(7, ReserveRow(FreshCode(1, "KEY", 0), 5, 20))), None)
  const SECOND: Tx := Tx(Manual, 4, 1, 6, 20, AtReserve, None, None)
  const HOLDING: Sys := ONE_CODE.(txs := map[1 := FIRST])
  const OVERLAP: Sys := ONE_CODE.(txs := map[1 := FIRST, 2 := SECOND])

  lemma FirstReserves() returns (es: seq<Event>)
    ensures ValidRun(NO_ADT, ONE_CODE, es) && Exec(NO_ADT, ONE_CODE, es) == HOLDING
    ensures Inv(NO_ADT, ONE_CODE) && Inv(NO_ADT, HOLDING)
  {
    OneCodeIsSound();
    es := Then(NO_ADT, ONE_CODE, [], Begin(1, Manual, 3));
    var s1 := Exec(NO_ADT, ONE_CODE, es);
    assert s1 == ONE_CODE.(txs := map[1 := FIRST.(pc := AtReserve, code := None)]);
    es := Then(NO_ADT, ONE_CODE, es, Reserve(1, 7));
    assert s1.txs[1 := FIRST] == HOLDING.txs;
    RunKeepsInv(NO_ADT, ONE_CODE, es);
  }

  lemma OverlapStarts() returns (es: seq<Event>)
    ensures Inv(NO_ADT, ONE_CODE) && ValidRun(NO_ADT, ONE_CODE, es) && Exec(NO_ADT, ONE_CODE, es) == OVERLAP
  {
    es := FirstReserves();
    es := Then(NO_ADT, ONE_CODE, es, Begin(2, Manual, 4));
    assert HOLDING.txs[2 := SECOND] == OVERLAP.txs;
  }

  lemma OneCodeIsSound()
    ensures Inv(NO_ADT, ONE_CODE)
  {
  }

  lemma OverlapIsDry()
    ensures Enabled(NO_ADT, OVERLAP, PoolEmpty(2)) && UnusedCodes(OVERLAP.db, 1) == {7} && Holders(OVERLAP, 2, 1) == {1}
  {
    assert OVERLAP.txs[1] == FIRST && CodeLocked(OVERLAP.txs, 7);
    assert Holders(OVERLAP, 2, 1) == {1};
  }

  lemma OverlapEnds() returns (es: seq<Event>)
    ensures ValidRun(NO_ADT, OVERLAP, es) && es != [] && es[0] == PoolEmpty(2) && Exec(NO_ADT, OVERLAP, es) == ONE_CODE
  {
    OverlapIsDry();
    es := [PoolEmpty(2), Rollback(2), Rollback(1)];
    var s1 := Next(NO_ADT, OVERLAP, es[0]);
    assert s1 == OVERLAP.(txs := map[1 := FIRST, 2 := SECOND.(pc := AtFailed)]);
    var s2 := Next(NO_ADT, s1, es[1]);
    assert s2.txs == map[1 := FIRST] && s2.advisory == map[];
    var s3 := Next(NO_ADT, s2, es[2]);
    assert s3.txs == map[] && s3.advisory == map[];
    assert es[1..][1..] == [Rollback(1)] && es[1..][1..][1..] == [];
    assert ValidRun(NO_ADT, s3, []) && Exec(NO_ADT, s3, []) == s3;
    assert ValidRun(NO_ADT, s2, es[1..][1..]) && Exec(NO_ADT, s2, es[1..][1..]) == s3;
    assert ValidRun(NO_ADT, s1, es[1..]) && Exec(NO_ADT, s1, es[1..]) == s3;
  }

  /**
   A run in which the answer is spurious: the second approval finds the pool empty while the
   first holds its one code, the first rolls back, and both applicants are pending again
   beside an unused code.
   */
  lemma SpuriousPoolEmpty() returns (before: seq<Event>, after: seq<Event>)
    ensures Inv(NO_ADT, ONE_CODE) && ValidRun(NO_ADT, ONE_CODE, before)
    ensures var s := Exec(NO_ADT, ONE_CODE, before);
            && UnusedCodes(s.db, 1) == {7} && Holders(s, 2, 1) == {1}
            && ValidRun(NO_ADT, s, after) && after != [] && after[0] == PoolEmpty(2)
            && Exec(NO_ADT, s, after) == ONE_CODE
  {
    before := OverlapStarts();
    OverlapIsDry();
    after := OverlapEnds();
  }

  lemma {:induction false} Oldest(codes: map<Id, Code>, pool: set<Id>) returns (c: Id)
    requires pool != {} && pool <= codes.Keys
    ensures c in pool && forall d | d in pool :: codes[c].createdAt <= codes[d].createdAt
    decreases pool
  {
    c := AnyOf(pool);
    var others := pool - {c};
    if others != {} {
      var d := Oldest(codes, others);
      forall b | b in pool ensures b == c || codes[d].createdAt <= codes[b].createdAt {
        assert b == c || b in others;
      }
      c := if codes[d].createdAt < codes[c].createdAt then d else c;
    } else {
      assert forall b | b in pool :: b == c || b in others;
    }
  }
}
