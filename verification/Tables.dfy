/**
 The code and applicant tables, and the row-level effect of each SQL statement that the
 code store and the applicant store issue.
 */
module Tables {
  import opened Basics

  datatype CodeState = Unused | Reserved | Granted

  datatype Code = Code(
    playtest: Id,
    value: string,
    state: CodeState,
    reservedBy: Option<Id>,
    reservedAt: Option<Time>,
    grantedAt: Option<Time>,
    createdAt: Time)

  datatype Status = Pending | Approved | Rejected

  datatype Applicant = Applicant(
    playtest: Id,
    user: Id,
    status: Status,
    grantedCode: Option<Id>,
    approvedAt: Option<Time>,
    autoApproved: bool)

  datatype Db = Db(codes: map<Id, Code>, apps: map<Id, Applicant>)

  /** What the upload paths insert: the column defaults of the code table. */
  function FreshCode(playtest: Id, value: string, now: Time): Code {
    Code(playtest, value, Unused, None, None, None, now)
  }

  /** What signup inserts: the column defaults of the applicant table. */
  function FreshApplicant(playtest: Id, user: Id): Applicant {
    Applicant(playtest, user, Pending, None, None, false)
  }

  /** The SET list of Reserve. */
  function ReserveRow(c: Code, user: Id, now: Time): Code {
    c.(state := Reserved, reservedBy := Some(user), reservedAt := Some(now))
  }

  /** The WHERE clause of FencedFinalize, apart from the row id. */
  predicate FenceHolds(c: Code, user: Id, originalReservedAt: Time) {
    c.state.Reserved? && c.reservedBy == Some(user) && c.reservedAt == Some(originalReservedAt)
  }

  /** The SET list of FencedFinalize. */
  function GrantRow(c: Code, now: Time): Code {
    c.(state := Granted, grantedAt := Some(now))
  }

  /** The WHERE clause of Reclaim; the comparison is strict. */
  predicate Stale(c: Code, now: Time, ttl: Time) {
    c.state.Reserved? && c.reservedAt.Some? && c.reservedAt.value < now - ttl
  }

  /** The SET list of Reclaim. */
  function ReleaseRow(c: Code): Code {
    c.(state := Unused, reservedBy := None, reservedAt := None)
  }

  function ReclaimAll(codes: map<Id, Code>, now: Time, ttl: Time): map<Id, Code> {
    map c | c in codes :: if Stale(codes[c], now, ttl) then ReleaseRow(codes[c]) else codes[c]
  }

  /**
   Reclaim, in the columns: a reservation older than ttl becomes unused, with its holder and
   stamp cleared; a younger or equally old one, and every other row, is unchanged.
   */
  lemma ReclaimMeaning(codes: map<Id, Code>, now: Time, ttl: Time, c: Id)
    requires c in codes
    ensures var codes' := ReclaimAll(codes, now, ttl);
            && codes'.Keys == codes.Keys
            && (codes[c].state != Reserved || codes[c].reservedAt.None? ==> codes'[c] == codes[c])
            && (codes[c].state == Reserved && codes[c].reservedAt.Some? && codes[c].reservedAt.value >= now - ttl ==>
                  codes'[c] == codes[c])
            && (codes[c].state == Reserved && codes[c].reservedAt.Some? && codes[c].reservedAt.value < now - ttl ==>
                  codes'[c] == codes[c].(state := Unused, reservedBy := None, reservedAt := None))
  {
  }

  /** The SET list of ApproveCAS, and of ApproveCASNoCode when code is None. */
  function ApproveRow(a: Applicant, code: Option<Id>, at: Time, auto: bool): Applicant {
    a.(status := Approved, grantedCode := code, approvedAt := Some(at), autoApproved := auto)
  }

  function RejectRow(a: Applicant): Applicant {
    a.(status := Rejected)
  }

  /** The rows CountAutoApprovedByPlaytest counts. */
  function AutoApproved(apps: map<Id, Applicant>, playtest: Id): set<Id> {
    set a | a in apps && apps[a].playtest == playtest && apps[a].autoApproved
  }

  /** UNIQUE (playtest_id, user_id): the applicant index that makes signup idempotent. */
  ghost predicate UsersUnique(apps: map<Id, Applicant>) {
    forall a, b | a in apps && b in apps && apps[a].playtest == apps[b].playtest && apps[a].user == apps[b].user ::
      a == b
  }

  /** UNIQUE (playtest_id, value) on the code table. */
  ghost predicate ValuesUnique(codes: map<Id, Code>) {
    forall c, d | c in codes && d in codes && codes[c].playtest == codes[d].playtest ::
      codes[c].value == codes[d].value ==> c == d
  }

  /**
   An approved applicant of a code-pool playtest holds a granted code of its own playtest,
   reserved for its own user; every other applicant holds none.
   */
  ghost predicate GrantOk(adt: set<Id>, codes: map<Id, Code>, x: Applicant) {
    if x.status.Approved? && x.playtest !in adt then
      && x.grantedCode.Some?
      && x.grantedCode.value in codes
      && codes[x.grantedCode.value].state.Granted?
      && codes[x.grantedCode.value].playtest == x.playtest
      && codes[x.grantedCode.value].reservedBy == Some(x.user)
    else
      x.grantedCode == None
  }

  ghost predicate Held(apps: map<Id, Applicant>, c: Id) {
    exists a :: a in apps && apps[a].grantedCode == Some(c)
  }

  /** The committed state pairs approved applicants and granted codes one to one. */
  ghost predicate Bijection(adt: set<Id>, db: Db) {
    && (forall a | a in db.apps :: GrantOk(adt, db.codes, db.apps[a]))
    && (forall c | c in db.codes && db.codes[c].state.Granted? :: Held(db.apps, c))
    && (forall a, b | a in db.apps && b in db.apps && db.apps[a].grantedCode.Some? ::
          db.apps[a].grantedCode == db.apps[b].grantedCode ==> a == b)
  }

  /** Only approved rows carry auto_approved = true (the column default is false). */
  ghost predicate AutoFlagOk(apps: map<Id, Applicant>) {
    forall a | a in apps && apps[a].autoApproved :: apps[a].status.Approved?
  }

  function GrantedCodes(db: Db, playtest: Id): set<Id> {
    set c | c in db.codes && db.codes[c].playtest == playtest && db.codes[c].state.Granted?
  }

  function ApprovedApps(db: Db, playtest: Id): set<Id> {
    set a | a in db.apps && db.apps[a].playtest == playtest && db.apps[a].status.Approved?
  }

  /**
   Conservation: for a code-pool playtest the number of granted codes is the number of
   approved applicants.
   */
  lemma GrantsEqualApprovals(adt: set<Id>, db: Db, p: Id)
    requires Bijection(adt, db)
    requires p !in adt
    ensures |GrantedCodes(db, p)| == |ApprovedApps(db, p)|
  {
    var g, a := GrantedCodes(db, p), ApprovedApps(db, p);
    forall x | x in a ensures db.apps[x].grantedCode.Some? && db.apps[x].grantedCode.value in g {
      assert GrantOk(adt, db.codes, db.apps[x]);
    }
    var codeOf := map x | x in a :: db.apps[x].grantedCode.value;
    forall x, y | x in a && y in a && codeOf[x] == codeOf[y] ensures x == y {
      assert db.apps[x].grantedCode == db.apps[y].grantedCode;
    }
    InjectionBound(a, codeOf, g);
    forall c | c in g ensures exists x :: x in a && db.apps[x].grantedCode == Some(c) {
      assert Held(db.apps, c);
      var x :| x in db.apps && db.apps[x].grantedCode == Some(c);
      assert GrantOk(adt, db.codes, db.apps[x]);
      assert x in a;
    }
    var holderOf := map c | c in g :: HolderOf(db, p, c);
    InjectionBound(g, holderOf, a);
  }

  ghost function HolderOf(db: Db, p: Id, c: Id): (x: Id)
    requires exists x :: x in ApprovedApps(db, p) && db.apps[x].grantedCode == Some(c)
    ensures x in ApprovedApps(db, p) && db.apps[x].grantedCode == Some(c)
  {
    var x :| x in ApprovedApps(db, p) && db.apps[x].grantedCode == Some(c);
    x
  }

  predicate UnusedOf(codes: map<Id, Code>, playtest: Id, c: Id) {
    c in codes && codes[c].playtest == playtest && codes[c].state.Unused?
  }

  /** An UNUSED row of the playtest that no other transaction has locked. */
  predicate FreeOf(codes: map<Id, Code>, held: set<Id>, playtest: Id, c: Id) {
    UnusedOf(codes, playtest, c) && c !in held
  }

  /** ORDER BY created_at ASC LIMIT 1 FOR UPDATE SKIP LOCKED over the UNUSED rows of a playtest, as a scan. */
  method OldestUnused(codes: map<Id, Code>, held: set<Id>, playtest: Id) returns (r: Option<Id>)
    ensures r.None? ==> forall c | c in codes :: !FreeOf(codes, held, playtest, c)
    ensures r.Some? ==> FreeOf(codes, held, playtest, r.value)
    ensures r.Some? ==> forall c | FreeOf(codes, held, playtest, c) :: codes[r.value].createdAt <= codes[c].createdAt
  {
    r := None;
    var rest := codes.Keys;
    while rest != {}
      invariant rest <= codes.Keys
      invariant r.None? ==> forall c | c in codes && c !in rest :: !FreeOf(codes, held, playtest, c)
      invariant r.Some? ==> FreeOf(codes, held, playtest, r.value)
      invariant r.Some? ==> forall c | c !in rest && FreeOf(codes, held, playtest, c) ::
          codes[r.value].createdAt <= codes[c].createdAt
      decreases |rest|
    {
      var c := TakeAny(rest);
      rest := rest - {c};
      if FreeOf(codes, held, playtest, c) && (r.None? || codes[c].createdAt < codes[r.value].createdAt) {
        r := Some(c);
      }
    }
  }
}
