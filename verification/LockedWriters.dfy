/**
 The read-then-insert transactions that run under a per-playtest advisory lock: code
 uploads, code top-ups and survey edits. Each statement is one step of an interleaved
 machine; every outcome is shown to be that of the whole operation done at once.
 */
module LockedWriters {
  import opened Basics

  datatype CodeRow = CodeRow(playtest: Id, value: string)

  datatype SurveyRow = SurveyRow(playtest: Id, version: nat)

  /** The committed tables, in insertion order. */
  datatype Db = Db(codes: seq<CodeRow>, surveys: seq<SurveyRow>)

  predicate NoRepeats<T(==)>(s: seq<T>) {
    forall i, j | 0 <= i < j < |s| :: s[i] != s[j]
  }

  /** The values already in a playtest's pool. */
  function Values(codes: seq<CodeRow>, p: Id): set<string> {
    set r | r in codes && r.playtest == p :: r.value
  }

  function Rows(p: Id, values: seq<string>): (rows: seq<CodeRow>)
    ensures |rows| == |values|
    ensures forall i | 0 <= i < |rows| :: rows[i] == CodeRow(p, values[i])
  {
    seq(|values|, i requires 0 <= i < |values| => CodeRow(p, values[i]))
  }

  /** The values not in existing, in order. */
  function Without(values: seq<string>, existing: set<string>): seq<string> {
    if values == [] then [] else
      var last := |values| - 1;
      Without(values[..last], existing) + if values[last] in existing then [] else [values[last]]
  }

  /** The versions of a playtest's survey, in insertion order. */
  function Versions(surveys: seq<SurveyRow>, p: Id): seq<nat> {
    if surveys == [] then [] else
      var last := |surveys| - 1;
      Versions(surveys[..last], p) + if surveys[last].playtest == p then [surveys[last].version] else []
  }

  /** COALESCE(MAX(version), 0). */
  function MaxVersion(surveys: seq<SurveyRow>, p: Id): nat {
    if surveys == [] then 0 else
      var last := |surveys| - 1;
      var m := MaxVersion(surveys[..last], p);
      if surveys[last].playtest == p && surveys[last].version > m then surveys[last].version else m
  }

  // ------------------------------------------------------------------ the operations at once

  datatype Op = Upload(p: Id, values: seq<string>) | TopUp(p: Id, values: seq<string>) | EditSurvey(p: Id)

  datatype Answer = Inserted(n: nat) | Duplicates(values: set<string>) | NewVersion(v: nat) | NotFound | UniqueViolation

  /** What the read statement decides: an answer without writing, or the rows to insert. */
  datatype Decision = Refuse(answer: Answer) | WriteCodes(codes: seq<CodeRow>) | WriteSurvey(row: SurveyRow)

  function Decide(op: Op, db: Db): Decision {
    match op
    case Upload(p, values) =>
      var dups := Dups(values, Values(db.codes, p));
      if dups != {} then Refuse(Duplicates(dups)) else WriteCodes(Rows(p, values))
    case TopUp(p, values) => WriteCodes(Rows(p, Without(values, Values(db.codes, p))))
    case EditSurvey(p) =>
      var prev := MaxVersion(db.surveys, p);
      if prev == 0 then Refuse(NotFound) else WriteSurvey(SurveyRow(p, prev + 1))
  }

  /** The unique indexes: an insert that repeats a key, in the table or in itself, fails as a whole. */
  predicate IndexAccepts(d: Decision, db: Db) {
    match d
    case WriteCodes(rows) => NoRepeats(rows) && forall r | r in rows :: r !in db.codes
    case WriteSurvey(row) => row !in db.surveys
    case Refuse(_) => true
  }

  predicate SameKey(a: CodeRow, b: CodeRow) {
    a.playtest == b.playtest && a.value == b.value
  }

  /** In the columns: no (playtest, value) twice among codes, no (playtest, version) twice among surveys. */
  lemma IndexMeaning(db: Db, rows: seq<CodeRow>, p: Id, v: nat)
    ensures IndexAccepts(WriteCodes(rows), db) <==>
              && (forall i, j | 0 <= i < j < |rows| :: !SameKey(rows[i], rows[j]))
              && (forall i, j | 0 <= i < |rows| && 0 <= j < |db.codes| :: !SameKey(rows[i], db.codes[j]))
    ensures IndexAccepts(WriteSurvey(SurveyRow(p, v)), db) <==>
              forall j | 0 <= j < |db.surveys| :: db.surveys[j].playtest != p || db.surveys[j].version != v
  {
    assert forall a: CodeRow, b: CodeRow :: SameKey(a, b) <==> a == b;
    assert forall j | 0 <= j < |db.surveys| ::
        db.surveys[j] == SurveyRow(p, v) <==> db.surveys[j].playtest == p && db.surveys[j].version == v;
    if IndexAccepts(WriteCodes(rows), db) {
      forall i, j | 0 <= i < |rows| && 0 <= j < |db.codes| ensures !SameKey(rows[i], db.codes[j]) {
        assert rows[i] in rows;
      }
    }
  }

  function Insert(d: Decision, db: Db): Db {
    match d
    case WriteCodes(rows) => db.(codes := db.codes + rows)
    case WriteSurvey(row) => db.(surveys := db.surveys + [row])
    case Refuse(_) => db
  }

  function AnswerOf(d: Decision): Answer {
    match d
    case WriteCodes(rows) => Inserted(|rows|)
    case WriteSurvey(row) => NewVersion(row.version)
    case Refuse(a) => a
  }

  /** The operation in one step. */
  function Atomically(op: Op, db: Db): (Db, Answer) {
    var d := Decide(op, db);
    if !IndexAccepts(d, db) then (db, UniqueViolation) else (Insert(d, db), AnswerOf(d))
  }

  // ------------------------------------------------------------------ the interleaved machine

  datatype Pc = AtLock | AtRead | AtWrite | AtCommit | AtEnd

  /** decision is what the read statement saw; answer is what the caller will be told. */
  datatype Tx = Tx(op: Op, pc: Pc, decision: Decision, answer: Answer)

  datatype Sys = Sys(db: Db, txs: map<Id, Tx>, locks: map<int, Id>)

  datatype Event =
    | Begin(t: Id, op: Op)
    | Lock(t: Id)
    | Read(t: Id)
    | Write(t: Id)
    | Commit(t: Id)
    | End(t: Id)
    | CreateSurvey(p: Id)

  /** The hash of a lock key; the survey: prefix separates the two key spaces, hashing may not. */
  datatype Config = Config(lockKey: (bool, Id) -> int)

  function KeyOf(cfg: Config, op: Op): int {
    cfg.lockKey(op.EditSurvey?, op.p)
  }

  /**
   Operations wait for each other only on the same table and playtest, unless keys collide:
   with an injective hash two of them have the same key exactly then.
   */
  lemma KeyMeaning(cfg: Config, a: Op, b: Op)
    requires forall t, p, u, q :: cfg.lockKey(t, p) == cfg.lockKey(u, q) ==> t == u && p == q
    ensures KeyOf(cfg, a) == KeyOf(cfg, b) <==> a.EditSurvey? == b.EditSurvey? && a.p == b.p
  {
  }

  ghost predicate AtPc(s: Sys, t: Id, pc: Pc) {
    t in s.txs && s.txs[t].pc == pc
  }

  ghost predicate Enabled(cfg: Config, s: Sys, e: Event) {
    match e
    case Begin(t, op) => t !in s.txs
    case Lock(t) => AtPc(s, t, AtLock) && KeyOf(cfg, s.txs[t].op) !in s.locks
    case Read(t) => AtPc(s, t, AtRead)
    case Write(t) => AtPc(s, t, AtWrite)
    case Commit(t) => AtPc(s, t, AtCommit)
    case End(t) => t in s.txs && s.txs[t].pc != AtCommit
    case CreateSurvey(p) => SurveyRow(p, 1) !in s.db.surveys
  }

  ghost function Set(s: Sys, t: Id, x: Tx): Sys {
    s.(txs := s.txs[t := x])
  }

  ghost function Unlocked(s: Sys, t: Id): map<int, Id> {
    map k | k in s.locks && s.locks[k] != t :: s.locks[k]
  }

  ghost function Next(cfg: Config, s: Sys, e: Event): Sys
    requires Enabled(cfg, s, e)
  {
    match e
    case Begin(t, op) => Set(s, t, Tx(op, AtLock, Refuse(NotFound), NotFound))
    case Lock(t) => Set(s, t, s.txs[t].(pc := AtRead)).(locks := s.locks[KeyOf(cfg, s.txs[t].op) := t])
    case Read(t) =>
      var x := s.txs[t];
      var d := Decide(x.op, s.db);
      Set(s, t, x.(pc := if d.Refuse? then AtEnd else AtWrite, decision := d, answer := AnswerOf(d)))
    case Write(t) =>
      var x := s.txs[t];
      if IndexAccepts(x.decision, s.db) then Set(s, t, x.(pc := AtCommit))
      else Set(s, t, x.(pc := AtEnd, answer := UniqueViolation))
    case Commit(t) =>
      s.(db := Insert(s.txs[t].decision, s.db), txs := s.txs[t := s.txs[t].(pc := AtEnd)], locks := Unlocked(s, t))
    case End(t) => s.(txs := s.txs - {t}, locks := Unlocked(s, t))
    case CreateSurvey(p) => s.(db := s.db.(surveys := s.db.surveys + [SurveyRow(p, 1)]))
  }

  // ------------------------------------------------------------------ invariants

  predicate HoldsLock(x: Tx) {
    x.pc.AtRead? || x.pc.AtWrite? || x.pc.AtCommit?
  }

  ghost predicate LocksOk(cfg: Config, s: Sys) {
    forall t | t in s.txs && HoldsLock(s.txs[t]) ::
        KeyOf(cfg, s.txs[t].op) in s.locks && s.locks[KeyOf(cfg, s.txs[t].op)] == t
  }

  /** The part of the database a decision depends on has not changed since it was read. */
  ghost predicate DecisionFresh(s: Sys, x: Tx) {
    && (x.pc.AtWrite? || x.pc.AtCommit? ==>
         x.decision == Decide(x.op, s.db) && !x.decision.Refuse? && x.answer == AnswerOf(x.decision))
    && (x.pc.AtCommit? ==> IndexAccepts(x.decision, s.db))
  }

  ghost predicate VersionsOk(surveys: seq<SurveyRow>) {
    forall p: Id, i | 0 <= i < |Versions(surveys, p)| :: Versions(surveys, p)[i] == i + 1
  }

  ghost predicate Inv(cfg: Config, s: Sys) {
    && LocksOk(cfg, s)
    && (forall t | t in s.txs :: DecisionFresh(s, s.txs[t]))
    && NoRepeats(s.db.codes)
    && VersionsOk(s.db.surveys)
  }

  lemma NoRepeatsConcat<T>(a: seq<T>, b: seq<T>)
    requires NoRepeats(a) && NoRepeats(b) && forall x | x in b :: x !in a
    ensures NoRepeats(a + b)
  {
    forall i, j | 0 <= i < j < |a + b| ensures (a + b)[i] != (a + b)[j] {
      if i < |a| <= j {
        assert b[j - |a|] in b;
      }
    }
  }

  lemma ValuesAppend(codes: seq<CodeRow>, rows: seq<CodeRow>, p: Id)
    ensures Values(codes + rows, p) == Values(codes, p) + Values(rows, p)
  {
    assert forall r :: r in codes + rows <==> r in codes || r in rows;
  }

  lemma SurveyAppend(surveys: seq<SurveyRow>, row: SurveyRow, p: Id)
    ensures Versions(surveys + [row], p) == Versions(surveys, p) + if row.playtest == p then [row.version] else []
    ensures MaxVersion(surveys + [row], p) ==
              if row.playtest == p && row.version > MaxVersion(surveys, p) then row.version else MaxVersion(surveys, p)
  {
    assert (surveys + [row])[..|surveys|] == surveys;
  }

  lemma {:induction false} VersionsAreRows(surveys: seq<SurveyRow>, p: Id, v: nat)
    ensures v in Versions(surveys, p) <==> SurveyRow(p, v) in surveys
  {
    if surveys != [] {
      var last := |surveys| - 1;
      VersionsAreRows(surveys[..last], p, v);
      assert surveys == surveys[..last] + [surveys[last]];
    }
  }

  /** With versions 1..n in order, the maximum is n. */
  lemma {:induction false} MaxIsCount(surveys: seq<SurveyRow>, p: Id)
    requires forall i | 0 <= i < |Versions(surveys, p)| :: Versions(surveys, p)[i] == i + 1
    ensures MaxVersion(surveys, p) == |Versions(surveys, p)|
  {
    if surveys != [] {
      var last := |surveys| - 1;
      var init := surveys[..last];
      assert forall i | 0 <= i < |Versions(init, p)| :: Versions(init, p)[i] == Versions(surveys, p)[i];
      MaxIsCount(init, p);
      if surveys[last].playtest == p {
        assert Versions(surveys, p)[|Versions(init, p)|] == surveys[last].version;
      }
    }
  }

  /** Without a version 1 there is no version at all. */
  lemma FirstVersion(surveys: seq<SurveyRow>, p: Id)
    requires VersionsOk(surveys)
    ensures Versions(surveys, p) != [] <==> SurveyRow(p, 1) in surveys
  {
    VersionsAreRows(surveys, p, 1);
    if Versions(surveys, p) != [] {
      assert Versions(surveys, p)[0] == 1;
    }
  }

  lemma {:induction false} WithoutProps(values: seq<string>, existing: set<string>)
    ensures forall v :: v in Without(values, existing) <==> v in values && v !in existing
    ensures NoRepeats(values) ==> NoRepeats(Without(values, existing))
    ensures (forall v | v in values :: v in existing) ==> Without(values, existing) == []
  {
    if values != [] {
      var last := |values| - 1;
      assert values == values[..last] + [values[last]];
      WithoutProps(values[..last], existing);
    }
  }

  // ------------------------------------------------------------------ steps keep the invariant

  /** A change to other playtests' rows, or other tables, leaves a decision as it is. */
  lemma DecisionFrame(op: Op, db: Db, db': Db)
    requires if op.EditSurvey? then MaxVersion(db'.surveys, op.p) == MaxVersion(db.surveys, op.p)
             else Values(db'.codes, op.p) == Values(db.codes, op.p)
    ensures Decide(op, db') == Decide(op, db)
  {
  }

  lemma AcceptFrame(d: Decision, db: Db, db': Db, p: Id)
    requires IndexAccepts(d, db)
    requires d.WriteCodes? ==> forall r | r in d.codes :: r.playtest == p
    requires d.WriteSurvey? ==> d.row.playtest == p
    requires forall r | r in db'.codes && r !in db.codes :: d.WriteCodes? ==> r.playtest != p
    requires forall r | r in db'.surveys && r !in db.surveys :: d.WriteSurvey? ==> r.playtest != p
    ensures IndexAccepts(d, db')
  {
  }

  lemma DecisionOwnsPlaytest(op: Op, db: Db)
    ensures var d := Decide(op, db);
            && (d.WriteCodes? ==> !op.EditSurvey? && forall r | r in d.codes :: r.playtest == op.p)
            && (d.WriteSurvey? ==> op.EditSurvey? && d.row.playtest == op.p)
  {
  }

  /** An insert for one playtest changes nothing a different playtest, or the other table, depends on. */
  lemma InsertFrame(op: Op, other: Op, db: Db)
    requires op.p != other.p || op.EditSurvey? != other.EditSurvey?
    ensures var db' := Insert(Decide(other, db), db);
            && Decide(op, db') == Decide(op, db)
            && (IndexAccepts(Decide(op, db), db) ==> IndexAccepts(Decide(op, db), db'))
  {
    var d := Decide(other, db);
    var db' := Insert(d, db);
    DecisionOwnsPlaytest(other, db);
    DecisionOwnsPlaytest(op, db);
    match d {
      case WriteCodes(rows) => ValuesAppend(db.codes, rows, op.p);
      case WriteSurvey(row) => SurveyAppend(db.surveys, row, op.p);
      case Refuse(_) =>
    }
    DecisionFrame(op, db, db');
    if IndexAccepts(Decide(op, db), db) {
      AcceptFrame(Decide(op, db), db, db', op.p);
    }
  }

  /** A survey created without the lock cannot disturb an edit that has read a version. */
  lemma CreateFrame(op: Op, db: Db, p: Id)
    requires VersionsOk(db.surveys) && SurveyRow(p, 1) !in db.surveys && !Decide(op, db).Refuse?
    ensures var db' := db.(surveys := db.surveys + [SurveyRow(p, 1)]);
            && Decide(op, db') == Decide(op, db)
            && (IndexAccepts(Decide(op, db), db) ==> IndexAccepts(Decide(op, db), db'))
  {
    var db' := db.(surveys := db.surveys + [SurveyRow(p, 1)]);
    if op.EditSurvey? {
      EditedElsewhere(op.p, db.surveys, p);
      SurveyAppend(db.surveys, SurveyRow(p, 1), op.p);
      DecisionFrame(op, db, db');
    }
  }

  /** A playtest whose survey an edit found has a version 1. */
  lemma EditedElsewhere(p: Id, surveys: seq<SurveyRow>, created: Id)
    requires VersionsOk(surveys) && SurveyRow(created, 1) !in surveys && MaxVersion(surveys, p) != 0
    ensures p != created
  {
    MaxIsCount(surveys, p);
    FirstVersion(surveys, p);
  }

  lemma StepLocks(cfg: Config, s: Sys, e: Event)
    requires LocksOk(cfg, s) && Enabled(cfg, s, e)
    ensures LocksOk(cfg, Next(cfg, s, e))
  {
  }

  lemma StepDecisions(cfg: Config, s: Sys, e: Event)
    requires Inv(cfg, s) && Enabled(cfg, s, e)
    ensures forall t | t in Next(cfg, s, e).txs :: DecisionFresh(Next(cfg, s, e), Next(cfg, s, e).txs[t])
  {
    var s' := Next(cfg, s, e);
    forall t | t in s'.txs ensures DecisionFresh(s', s'.txs[t]) {
      if t in s.txs {
        assert DecisionFresh(s, s.txs[t]);
        var x := s.txs[t];
        if e.Commit? && e.t != t && (x.pc.AtWrite? || x.pc.AtCommit?) {
          assert DecisionFresh(s, s.txs[e.t]);
          InsertFrame(x.op, s.txs[e.t].op, s.db);
        }
        if e.CreateSurvey? && (x.pc.AtWrite? || x.pc.AtCommit?) {
          CreateFrame(x.op, s.db, e.p);
        }
      }
    }
  }

  /** A row numbered one past the last version keeps the versions 1..n. */
  lemma VersionsExtend(surveys: seq<SurveyRow>, row: SurveyRow)
    requires VersionsOk(surveys) && row.version == |Versions(surveys, row.playtest)| + 1
    ensures VersionsOk(surveys + [row])
  {
    forall p: Id, i | 0 <= i < |Versions(surveys + [row], p)| ensures Versions(surveys + [row], p)[i] == i + 1 {
      SurveyAppend(surveys, row, p);
    }
  }

  lemma InsertKeepsTables(op: Op, db: Db)
    requires NoRepeats(db.codes) && VersionsOk(db.surveys) && IndexAccepts(Decide(op, db), db)
    ensures var db' := Insert(Decide(op, db), db); NoRepeats(db'.codes) && VersionsOk(db'.surveys)
  {
    match Decide(op, db) {
      case WriteCodes(rows) => NoRepeatsConcat(db.codes, rows);
      case WriteSurvey(row) =>
        MaxIsCount(db.surveys, op.p);
        VersionsExtend(db.surveys, row);
      case Refuse(_) =>
    }
  }

  lemma StepTables(cfg: Config, s: Sys, e: Event)
    requires Inv(cfg, s) && Enabled(cfg, s, e)
    ensures NoRepeats(Next(cfg, s, e).db.codes) && VersionsOk(Next(cfg, s, e).db.surveys)
  {
    if e.Commit? {
      assert DecisionFresh(s, s.txs[e.t]);
      InsertKeepsTables(s.txs[e.t].op, s.db);
    } else if e.CreateSurvey? {
      FirstVersion(s.db.surveys, e.p);
      VersionsExtend(s.db.surveys, SurveyRow(e.p, 1));
    }
  }

  ghost predicate ValidRun(cfg: Config, s: Sys, es: seq<Event>)
    decreases |es|
  {
    es == [] || (Enabled(cfg, s, es[0]) && ValidRun(cfg, Next(cfg, s, es[0]), es[1..]))
  }

  ghost function Exec(cfg: Config, s: Sys, es: seq<Event>): Sys
    requires ValidRun(cfg, s, es)
    decreases |es|
  {
    if es == [] then s else Exec(cfg, Next(cfg, s, es[0]), es[1..])
  }

  const EMPTY: Sys := Sys(Db([], []), map[], map[])

  /** Over every interleaving the pools stay duplicate-free and survey versions run 1..n. */
  lemma {:induction false} RunKeepsInv(cfg: Config, s: Sys, es: seq<Event>)
    requires Inv(cfg, s) && ValidRun(cfg, s, es)
    ensures Inv(cfg, Exec(cfg, s, es))
    decreases |es|
  {
    if es != [] {
      StepLocks(cfg, s, es[0]);
      StepDecisions(cfg, s, es[0]);
      StepTables(cfg, s, es[0]);
      RunKeepsInv(cfg, Next(cfg, s, es[0]), es[1..]);
    }
  }

  /** The transaction whose answer event e fixes, if any. */
  ghost predicate Answers(cfg: Config, s: Sys, e: Event)
    requires Enabled(cfg, s, e)
  {
    e.Commit? || ((e.Read? || e.Write?) && Next(cfg, s, e).txs[e.t].pc == AtEnd)
  }

  /**
   Serializability: in every run, the step that fixes a transaction's answer gives the
   database and the answer of its whole operation done at once at that moment; every other
   step of a transaction leaves the database alone.
   */
  lemma AnswersAtomically(cfg: Config, es: seq<Event>, e: Event)
    requires ValidRun(cfg, EMPTY, es) && Enabled(cfg, Exec(cfg, EMPTY, es), e)
    ensures var s := Exec(cfg, EMPTY, es); var s' := Next(cfg, s, e);
            if Answers(cfg, s, e) then
              (s'.db, s'.txs[e.t].answer) == Atomically(s.txs[e.t].op, s.db)
            else
              e.CreateSurvey? || s'.db == s.db
  {
    RunKeepsInv(cfg, EMPTY, es);
    var s := Exec(cfg, EMPTY, es);
    if e.Commit? || e.Write? {
      assert DecisionFresh(s, s.txs[e.t]);
    }
  }

  /**
   Under the lock the unique index never fires on what another transaction inserted: a write
   fails exactly when the file repeats a value itself, and a survey edit never fails.
   */
  lemma IndexFiresOnlyOnRepeats(cfg: Config, es: seq<Event>, t: Id)
    requires ValidRun(cfg, EMPTY, es) && Enabled(cfg, Exec(cfg, EMPTY, es), Write(t))
    ensures var s := Exec(cfg, EMPTY, es); var op := s.txs[t].op;
            Next(cfg, s, Write(t)).txs[t].pc == AtCommit <==>
              match op
              case Upload(p, values) => NoRepeats(values)
              case TopUp(p, values) => NoRepeats(Without(values, Values(s.db.codes, p)))
              case EditSurvey(_) => true
  {
    RunKeepsInv(cfg, EMPTY, es);
    var s := Exec(cfg, EMPTY, es);
    var x := s.txs[t];
    assert DecisionFresh(s, x);
    match x.op {
      case EditSurvey(p) =>
        MaxIsCount(s.db.surveys, p);
        VersionsAreRows(s.db.surveys, p, x.decision.row.version);
      case Upload(p, values) => UploadAccepted(x.op, s.db);
      case TopUp(p, values) =>
        WithoutProps(values, Values(s.db.codes, p));
        RowsRepeat(p, Without(values, Values(s.db.codes, p)), s.db.codes);
    }
  }

  function Dups(values: seq<string>, existing: set<string>): (dups: set<string>)
    ensures forall v :: v in dups <==> v in values && v in existing
  {
    set v | v in values && v in existing
  }

  lemma UploadAccepted(op: Op, db: Db)
    requires op.Upload? && !Decide(op, db).Refuse?
    ensures IndexAccepts(Decide(op, db), db) <==> NoRepeats(op.values)
  {
    assert Dups(op.values, Values(db.codes, op.p)) == {};
    RowsRepeat(op.p, op.values, db.codes);
  }

  lemma RowsRepeat(p: Id, values: seq<string>, codes: seq<CodeRow>)
    requires forall v | v in values :: v !in Values(codes, p)
    ensures NoRepeats(Rows(p, values)) <==> NoRepeats(values)
    ensures forall r | r in Rows(p, values) :: r !in codes
  {
    var rows := Rows(p, values);
    if NoRepeats(rows) {
      assert forall i | 0 <= i < |values| :: rows[i] == CodeRow(p, values[i]);
    }
    forall r | r in rows ensures r !in codes {
      assert r.value in values;
    }
  }

  /** The current version is the number of versions, and is itself a row. */
  lemma SurveyVersions(cfg: Config, es: seq<Event>, p: Id)
    requires ValidRun(cfg, EMPTY, es)
    ensures var surveys := Exec(cfg, EMPTY, es).db.surveys; var versions := Versions(surveys, p);
            && (forall i | 0 <= i < |versions| :: versions[i] == i + 1)
            && MaxVersion(surveys, p) == |versions|
            && (versions != [] ==> SurveyRow(p, |versions|) in surveys)
  {
    RunKeepsInv(cfg, EMPTY, es);
    var surveys := Exec(cfg, EMPTY, es).db.surveys;
    MaxIsCount(surveys, p);
    if Versions(surveys, p) != [] {
      assert Versions(surveys, p)[|Versions(surveys, p)| - 1] == |Versions(surveys, p)|;
      VersionsAreRows(surveys, p, |Versions(surveys, p)|);
    }
  }

  /** The create or edit of a playtest's survey that event e commits, as a count. */
  ghost function Edits(cfg: Config, s: Sys, e: Event, p: Id): nat
    requires Enabled(cfg, s, e)
  {
    if e == CreateSurvey(p) || (e.Commit? && s.txs[e.t].op == EditSurvey(p)) then 1 else 0
  }

  ghost function EditsIn(cfg: Config, s: Sys, es: seq<Event>, p: Id): nat
    requires ValidRun(cfg, s, es)
    decreases |es|
  {
    if es == [] then 0 else Edits(cfg, s, es[0], p) + EditsIn(cfg, Next(cfg, s, es[0]), es[1..], p)
  }

  lemma StepVersions(cfg: Config, s: Sys, e: Event, p: Id)
    requires Inv(cfg, s) && Enabled(cfg, s, e)
    ensures |Versions(Next(cfg, s, e).db.surveys, p)| == |Versions(s.db.surveys, p)| + Edits(cfg, s, e, p)
  {
    if e.Commit? {
      assert DecisionFresh(s, s.txs[e.t]);
      CommitVersions(s.txs[e.t].op, s.db, p);
    } else if e.CreateSurvey? {
      SurveyAppend(s.db.surveys, SurveyRow(e.p, 1), p);
    } else {
      assert Next(cfg, s, e).db == s.db;
    }
  }

  /** Only an edit of p's survey that writes adds a version of p, and it adds one. */
  lemma CommitVersions(op: Op, db: Db, p: Id)
    requires !Decide(op, db).Refuse?
    ensures |Versions(Insert(Decide(op, db), db).surveys, p)| ==
              |Versions(db.surveys, p)| + if op == EditSurvey(p) then 1 else 0
  {
    var d := Decide(op, db);
    if d.WriteSurvey? {
      SurveyAppend(db.surveys, d.row, p);
    }
  }

  /** Every committed create or edit adds exactly one version, over any run. */
  lemma {:induction false} VersionsCountEdits(cfg: Config, s: Sys, es: seq<Event>, p: Id)
    requires Inv(cfg, s) && ValidRun(cfg, s, es)
    ensures |Versions(Exec(cfg, s, es).db.surveys, p)| == |Versions(s.db.surveys, p)| + EditsIn(cfg, s, es, p)
    decreases |es|
  {
    if es != [] {
      StepVersions(cfg, s, es[0], p);
      assert Inv(cfg, Next(cfg, s, es[0])) by {
        StepLocks(cfg, s, es[0]);
        StepDecisions(cfg, s, es[0]);
        StepTables(cfg, s, es[0]);
      }
      VersionsCountEdits(cfg, Next(cfg, s, es[0]), es[1..], p);
    }
  }

  // ------------------------------------------------------------------ what the operations mean

  /** A survey edit at once: NotFound without a version; else the row after the last, and its number as the answer. */
  lemma EditMeaning(db: Db, p: Id)
    requires VersionsOk(db.surveys)
    ensures var (db', answer) := Atomically(EditSurvey(p), db);
            var n := |Versions(db.surveys, p)|;
            && (n == 0 <==> answer == NotFound)
            && (n == 0 ==> db' == db)
            && (n > 0 ==> db' == Db(db.codes, db.surveys + [SurveyRow(p, n + 1)]) && answer == NewVersion(n + 1))
  {
    MaxIsCount(db.surveys, p);
    VersionsAreRows(db.surveys, p, |Versions(db.surveys, p)| + 1);
  }

  /**
   The answer of a survey edit, over every run: its commit answers the version it inserted,
   which was not there before and is the last one after; it is NotFound exactly when the read
   finds no version of that playtest.
   */
  lemma EditAnswersItsRow(cfg: Config, es: seq<Event>, t: Id, p: Id)
    requires ValidRun(cfg, EMPTY, es) && Enabled(cfg, Exec(cfg, EMPTY, es), Commit(t))
    requires Exec(cfg, EMPTY, es).txs[t].op == EditSurvey(p)
    ensures var s := Exec(cfg, EMPTY, es); var s' := Next(cfg, s, Commit(t));
            && s'.txs[t].answer.NewVersion?
            && var v := s'.txs[t].answer.v;
            && SurveyRow(p, v) !in s.db.surveys && s'.db.surveys == s.db.surveys + [SurveyRow(p, v)]
            && |Versions(s'.db.surveys, p)| == v
            && forall u: nat :: SurveyRow(p, u) in s'.db.surveys <==> 1 <= u <= v
  {
    AnswersAtomically(cfg, es, Commit(t));
    RunKeepsInv(cfg, EMPTY, es);
    var s := Exec(cfg, EMPTY, es);
    assert DecisionFresh(s, s.txs[t]);
    EditMeaning(s.db, p);
    var n := |Versions(s.db.surveys, p)|;
    SurveyAppend(s.db.surveys, SurveyRow(p, n + 1), p);
    VersionsAreRows(s.db.surveys, p, n + 1);
    forall u: nat ensures SurveyRow(p, u) in s.db.surveys + [SurveyRow(p, n + 1)] <==> 1 <= u <= n + 1 {
      RowsAreOneToN(s.db.surveys, p, u);
    }
  }

  lemma RowsAreOneToN(surveys: seq<SurveyRow>, p: Id, u: nat)
    requires VersionsOk(surveys)
    ensures SurveyRow(p, u) in surveys <==> 1 <= u <= |Versions(surveys, p)|
  {
    VersionsAreRows(surveys, p, u);
    if 1 <= u <= |Versions(surveys, p)| {
      assert Versions(surveys, p)[u - 1] == u;
    }
  }

  lemma EditNotFoundIff(cfg: Config, es: seq<Event>, t: Id, p: Id)
    requires ValidRun(cfg, EMPTY, es) && Enabled(cfg, Exec(cfg, EMPTY, es), Read(t))
    requires Exec(cfg, EMPTY, es).txs[t].op == EditSurvey(p)
    ensures var s := Exec(cfg, EMPTY, es); var x := Next(cfg, s, Read(t)).txs[t];
            (x.pc == AtEnd && x.answer == NotFound) <==> forall u: nat :: SurveyRow(p, u) !in s.db.surveys
  {
    RunKeepsInv(cfg, EMPTY, es);
    var s := Exec(cfg, EMPTY, es);
    MaxIsCount(s.db.surveys, p);
    RowsAreOneToN(s.db.surveys, p, 1);
    forall u: nat ensures SurveyRow(p, u) in s.db.surveys ==> SurveyRow(p, 1) in s.db.surveys {
      RowsAreOneToN(s.db.surveys, p, u);
    }
  }

  /**
   An upload at once: with values already in the pool it inserts nothing and reports exactly
   those; otherwise it appends the whole file in order, or fails when the file repeats itself.
   */
  lemma UploadMeaning(db: Db, p: Id, values: seq<string>)
    ensures var (db', answer) := Atomically(Upload(p, values), db);
            var present := set r | r in db.codes && r.playtest == p && r.value in values :: r.value;
            && (present != {} ==> db' == db && answer == Duplicates(present))
            && (present == {} && !NoRepeats(values) ==> db' == db && answer == UniqueViolation)
            && (present == {} && NoRepeats(values) ==>
                  && answer == Inserted(|values|) && db'.surveys == db.surveys
                  && |db'.codes| == |db.codes| + |values|
                  && (forall i | 0 <= i < |db.codes| :: db'.codes[i] == db.codes[i])
                  && (forall i | 0 <= i < |values| :: db'.codes[|db.codes| + i] == CodeRow(p, values[i])))
  {
    var present := set r | r in db.codes && r.playtest == p && r.value in values :: r.value;
    var dups := Dups(values, Values(db.codes, p));
    assert present == dups;
    if present == {} {
      UploadAccepted(Upload(p, values), db);
    }
  }

  function SetOf(values: seq<string>): set<string> {
    set v | v in values
  }

  /** How many rows an operation reports inserted. */
  function Count(a: Answer): nat {
    if a.Inserted? then a.n else 0
  }

  lemma TopUpEffect(db: Db, p: Id, values: seq<string>)
    requires NoRepeats(values)
    ensures var r := Atomically(TopUp(p, values), db); var target := Without(values, Values(db.codes, p));
            r == (db.(codes := db.codes + Rows(p, target)), Inserted(|target|))
  {
    TargetAccepted(db.codes, p, values);
  }

  lemma TargetAccepted(codes: seq<CodeRow>, p: Id, values: seq<string>)
    requires NoRepeats(values)
    ensures var rows := Rows(p, Without(values, Values(codes, p)));
            NoRepeats(rows) && forall r | r in rows :: r !in codes
  {
    WithoutProps(values, Values(codes, p));
    RowsRepeat(p, Without(values, Values(codes, p)), codes);
  }

  /** A top-up of distinct values makes the pool the union and counts the new values. */
  lemma TopUpIsUnion(db: Db, p: Id, values: seq<string>)
    requires NoRepeats(values)
    ensures var r := Atomically(TopUp(p, values), db);
            && Values(r.0.codes, p) == Values(db.codes, p) + SetOf(values)
            && r.1 == Inserted(|SetOf(values) - Values(db.codes, p)|)
  {
    var existing := Values(db.codes, p);
    var target := Without(values, existing);
    TopUpEffect(db, p, values);
    assert SetOf(target) == SetOf(values) - existing && |SetOf(target)| == |target| by {
      WithoutSet(values, existing);
    }
    assert Values(db.codes + Rows(p, target), p) == existing + SetOf(target) by {
      ValuesAppend(db.codes, Rows(p, target), p);
      ValuesOfRows(p, target);
    }
    assert existing + (SetOf(values) - existing) == existing + SetOf(values);
  }

  lemma WithoutSet(values: seq<string>, existing: set<string>)
    requires NoRepeats(values)
    ensures var target := Without(values, existing);
            SetOf(target) == SetOf(values) - existing && |SetOf(target)| == |target|
  {
    WithoutProps(values, existing);
    SizeOfDistinct(Without(values, existing));
  }

  /** A replayed top-up inserts nothing, whatever other operations committed in between. */
  lemma ReplayInsertsNothing(db: Db, p: Id, values: seq<string>)
    requires NoRepeats(values) && SetOf(values) <= Values(db.codes, p)
    ensures Atomically(TopUp(p, values), db) == (db, Inserted(0))
  {
    var again := Without(values, Values(db.codes, p));
    TopUpEffect(db, p, values);
    WithoutProps(values, Values(db.codes, p));
    assert forall v :: v in values ==> v in SetOf(values);
    assert again == [];
    assert db.codes + Rows(p, []) == db.codes;
  }

  lemma ValuesOfRows(p: Id, values: seq<string>)
    ensures Values(Rows(p, values), p) == SetOf(values)
  {
    var rows := Rows(p, values);
    forall v | v in values ensures v in Values(rows, p) {
      var i :| 0 <= i < |values| && values[i] == v;
      assert rows[i] in rows && rows[i] == CodeRow(p, v);
    }
  }

  lemma {:induction false} SizeOfDistinct(values: seq<string>)
    requires NoRepeats(values)
    ensures |SetOf(values)| == |values|
  {
    if values != [] {
      var last := |values| - 1;
      SizeOfDistinct(values[..last]);
      assert values == values[..last] + [values[last]];
      assert SetOf(values) == SetOf(values[..last]) + {values[last]};
    }
  }

  /** Two top-ups, in this order: the resulting pool and the total they report. */
  lemma TwoTopUps(db: Db, p: Id, a: seq<string>, b: seq<string>)
    requires NoRepeats(a) && NoRepeats(b)
    ensures var first := Atomically(TopUp(p, a), db); var second := Atomically(TopUp(p, b), first.0);
            && Values(second.0.codes, p) == Values(db.codes, p) + SetOf(a) + SetOf(b)
            && Count(first.1) + Count(second.1) == |(SetOf(a) + SetOf(b)) - Values(db.codes, p)|
  {
    var first := Atomically(TopUp(p, a), db);
    TopUpIsUnion(db, p, a);
    TopUpIsUnion(first.0, p, b);
    SplitUnion(SetOf(a), SetOf(b), Values(db.codes, p));
  }

  lemma SplitUnion<T>(x: set<T>, y: set<T>, z: set<T>)
    ensures |(x + y) - z| == |x - z| + |y - (z + x)|
  {
    assert (x + y) - z == (x - z) + (y - (z + x));
  }

  /** Top-ups commute: in either order the pool is the same, and so is the number of rows added. */
  lemma TopUpsCommute(db: Db, p: Id, a: seq<string>, b: seq<string>)
    requires NoRepeats(a) && NoRepeats(b)
    ensures var ra := Atomically(TopUp(p, a), db); var rab := Atomically(TopUp(p, b), ra.0);
            var rb := Atomically(TopUp(p, b), db); var rba := Atomically(TopUp(p, a), rb.0);
            && Values(rab.0.codes, p) == Values(rba.0.codes, p)
            && Count(ra.1) + Count(rab.1) == Count(rb.1) + Count(rba.1)
  {
    TwoTopUps(db, p, a, b);
    TwoTopUps(db, p, b, a);
    assert SetOf(a) + SetOf(b) == SetOf(b) + SetOf(a);
    assert Values(db.codes, p) + SetOf(a) + SetOf(b) == Values(db.codes, p) + SetOf(b) + SetOf(a);
  }

  // ------------------------------------------------------------------ the store methods

  /** UploadAtomic on a table it holds the lock for: dups is filled row by row, then all or nothing is copied. */
  method UploadAtomic(codes: seq<CodeRow>, p: Id, values: seq<string>)
    returns (codes': seq<CodeRow>, inserted: int, dups: seq<string>, failed: bool)
    requires NoRepeats(codes)
    ensures NoRepeats(codes') && NoRepeats(dups)
    ensures var r := Atomically(Upload(p, values), Db(codes, []));
            && codes' == r.0.codes
            && (failed <==> r.1.UniqueViolation?)
            && (r.1.Duplicates? <==> dups != [])
            && (r.1.Duplicates? ==> SetOf(dups) == r.1.values && inserted == 0)
            && (r.1.Inserted? ==> inserted == r.1.n == |values|)
    ensures codes' == codes || codes' == codes + Rows(p, values)
  {
    codes', inserted, dups, failed := codes, 0, [], false;
    if values == [] {
      assert Dups(values, Values(codes, p)) == {};
      assert codes + Rows(p, values) == codes;
      return;
    }
    for i := 0 to |codes|
      invariant forall v :: v in dups <==> v in values && v in Values(codes[..i], p)
      invariant NoRepeats(dups)
    {
      assert codes[..i + 1] == codes[..i] + [codes[i]];
      if codes[i].playtest == p && codes[i].value in values {
        assert codes[i].value !in Values(codes[..i], p);
        dups := dups + [codes[i].value];
      }
    }
    assert codes[..|codes|] == codes;
    assert SetOf(dups) == Dups(values, Values(codes, p));
    if dups != [] {
      assert dups[0] in SetOf(dups);
      return;
    }
    var rows := Rows(p, values);
    RowsRepeat(p, values, codes);
    if !NoRepeats(rows) {
      failed := true;
      return;
    }
    NoRepeatsConcat(codes, rows);
    codes', inserted := codes + rows, |rows|;
  }

  lemma AtomicKeepsTable(op: Op, db: Db)
    requires NoRepeats(db.codes)
    ensures NoRepeats(Atomically(op, db).0.codes)
  {
    var d := Decide(op, db);
    if d.WriteCodes? && IndexAccepts(d, db) {
      NoRepeatsConcat(db.codes, d.codes);
    }
  }

  /** The pre-read and the filtering loop of a top-up. */
  method Missing(codes: seq<CodeRow>, p: Id, values: seq<string>) returns (missing: seq<string>)
    ensures missing == Without(values, Values(codes, p))
  {
    var existing: set<string> := {};
    for i := 0 to |codes|
      invariant existing == set v | v in values && v in Values(codes[..i], p)
    {
      assert codes[..i + 1] == codes[..i] + [codes[i]];
      if codes[i].playtest == p && codes[i].value in values {
        existing := existing + {codes[i].value};
      }
    }
    assert codes[..|codes|] == codes;
    missing := [];
    for i := 0 to |values|
      invariant missing == Without(values[..i], Values(codes, p))
    {
      assert values[..i + 1][..i] == values[..i];
      if values[i] !in existing {
        missing := missing + [values[i]];
      }
    }
    assert values[..|values|] == values;
  }

  /** InsertGeneratedAtomic: only the values not in the pool are copied. */
  method InsertGeneratedAtomic(codes: seq<CodeRow>, p: Id, values: seq<string>)
    returns (codes': seq<CodeRow>, inserted: int, failed: bool)
    requires NoRepeats(codes)
    ensures NoRepeats(codes')
    ensures var r := Atomically(TopUp(p, values), Db(codes, []));
            && codes' == r.0.codes
            && (failed <==> r.1.UniqueViolation?)
            && (r.1.Inserted? ==> inserted == r.1.n)
    ensures NoRepeats(values) ==> !failed && inserted == |SetOf(values) - Values(codes, p)|
  {
    codes', inserted, failed := codes, 0, false;
    AtomicKeepsTable(TopUp(p, values), Db(codes, []));
    WithoutProps(values, Values(codes, p));
    RowsRepeat(p, Without(values, Values(codes, p)), codes);
    if NoRepeats(values) {
      TopUpIsUnion(Db(codes, []), p, values);
    }
    assert codes + Rows(p, []) == codes;
    if values == [] {
      return;
    }
    var missing := Missing(codes, p, values);
    if missing == [] {
      return;
    }
    var rows := Rows(p, missing);
    if !NoRepeats(rows) {
      failed := true;
      return;
    }
    codes', inserted := codes + rows, |rows|;
  }
}
