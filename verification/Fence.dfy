/**
 Reserve, FencedFinalize and Reclaim issued as separate statements by any number of
 callers. A ticket is what one Reserve handed to its caller: the code, the user and the
 reserved_at it returned. The fence must accept a ticket exactly while the row is still in
 the reservation that issued it.
 */
module Fence {
  import opened Basics
  import opened Tables

  datatype Ticket = Ticket(code: Id, user: Id, at: Time)

  /** The table, the clock, and as history every ticket issued and the one each RESERVED row is in. */
  datatype State = State(codes: map<Id, Code>, now: Time, issued: seq<Ticket>, current: map<Id, nat>)

  /** A statement's stamp is its NOW(), the start of its transaction: never after the step itself. */
  datatype Event =
    | Tick(to: Time)
    | Reserve(c: Id, user: Id, stamp: Time)
    | Finalize(c: Id, user: Id, token: Time, stamp: Time)
    | Reclaim(ttl: Time, stamp: Time)

  predicate Enabled(s: State, e: Event) {
    match e
    case Tick(to) => s.now <= to
    case Reserve(c, _, stamp) => c in s.codes && s.codes[c].state.Unused? && stamp <= s.now
    case Finalize(c, _, _, stamp) => c in s.codes && stamp <= s.now
    case Reclaim(ttl, stamp) => 0 <= ttl && stamp <= s.now
  }

  function Next(s: State, e: Event): State
    requires Enabled(s, e)
  {
    match e
    case Tick(to) => s.(now := to)
    case Reserve(c, user, stamp) =>
      s.(codes := s.codes[c := ReserveRow(s.codes[c], user, stamp)],
         issued := s.issued + [Ticket(c, user, stamp)],
         current := s.current[c := |s.issued|])
    case Finalize(c, user, token, stamp) =>
      if FenceHolds(s.codes[c], user, token) then
        s.(codes := s.codes[c := GrantRow(s.codes[c], stamp)], current := s.current - {c})
      else s
    case Reclaim(ttl, stamp) =>
      s.(codes := ReclaimAll(s.codes, stamp, ttl),
         current := map c | c in s.current && !(c in s.codes && Stale(s.codes[c], stamp, ttl)) :: s.current[c])
  }

  /** Ticket i is live: its row is RESERVED by the very Reserve that issued it. */
  predicate Live(s: State, i: nat)
    requires i < |s.issued|
  {
    s.issued[i].code in s.current && s.current[s.issued[i].code] == i
  }

  /** FencedFinalize with ticket i would affect a row. */
  predicate Accepts(s: State, i: nat)
    requires i < |s.issued|
  {
    s.issued[i].code in s.codes && FenceHolds(s.codes[s.issued[i].code], s.issued[i].user, s.issued[i].at)
  }

  /** Every RESERVED row carries the columns of its current ticket; no other row has one. */
  ghost predicate Tracked(s: State) {
    && (forall c | c in s.codes :: s.codes[c].state.Reserved? <==> c in s.current)
    && (forall c | c in s.current ::
          && c in s.codes
          && s.current[c] < |s.issued|
          && var t := s.issued[s.current[c]];
          && t.code == c
          && s.codes[c].reservedBy == Some(t.user)
          && s.codes[c].reservedAt == Some(t.at))
  }

  /** Tickets of one code have strictly increasing stamps, all of them past once the code is free. */
  ghost predicate Increasing(s: State) {
    && (forall i, j | 0 <= i < j < |s.issued| && s.issued[i].code == s.issued[j].code ::
         s.issued[i].at < s.issued[j].at)
    && (forall i | 0 <= i < |s.issued| :: s.issued[i].at <= s.now && s.issued[i].code in s.codes)
    && (forall i | 0 <= i < |s.issued| && s.codes[s.issued[i].code].state.Unused? :: s.issued[i].at < s.now)
    && (forall i | 0 <= i < |s.issued| && s.issued[i].code in s.current :: i <= s.current[s.issued[i].code])
  }

  /** NOW() is read at the step: the statement's transaction did not wait. */
  predicate Prompt(s: State, e: Event) {
    match e
    case Reserve(_, _, stamp) => stamp == s.now
    case Reclaim(_, stamp) => stamp == s.now
    case _ => true
  }

  ghost predicate ValidRun(s: State, es: seq<Event>)
    decreases |es|
  {
    es == [] || (Enabled(s, es[0]) && ValidRun(Next(s, es[0]), es[1..]))
  }

  ghost function Exec(s: State, es: seq<Event>): State
    requires ValidRun(s, es)
    decreases |es|
  {
    if es == [] then s else Exec(Next(s, es[0]), es[1..])
  }

  ghost predicate PromptRun(s: State, es: seq<Event>)
    requires ValidRun(s, es)
    decreases |es|
  {
    es == [] || (Prompt(s, es[0]) && PromptRun(Next(s, es[0]), es[1..]))
  }

  /** A table on which nothing has been reserved yet. */
  ghost predicate Fresh(s: State) {
    && s.issued == [] && s.current == map[]
    && forall c | c in s.codes :: !s.codes[c].state.Reserved?
  }

  lemma StepTracked(s: State, e: Event)
    requires Tracked(s) && Enabled(s, e)
    ensures Tracked(Next(s, e))
  {
  }

  lemma StepIncreasing(s: State, e: Event)
    requires Tracked(s) && Increasing(s) && Enabled(s, e) && Prompt(s, e)
    ensures Increasing(Next(s, e))
  {
    if e.Reclaim? {
      ReclaimIncreasing(s, e.ttl, e.stamp);
    }
  }

  /** The strict comparison: what a reclaim frees was stamped before now. */
  lemma ReclaimIncreasing(s: State, ttl: Time, stamp: Time)
    requires Tracked(s) && Increasing(s) && 0 <= ttl && stamp == s.now
    ensures Increasing(Next(s, Reclaim(ttl, stamp)))
  {
    var s' := Next(s, Reclaim(ttl, stamp));
    forall i | 0 <= i < |s'.issued| && s'.codes[s'.issued[i].code].state.Unused?
      ensures s'.issued[i].at < s'.now
    {
      var c := s.issued[i].code;
      if Stale(s.codes[c], stamp, ttl) {
        var k := s.current[c];
        assert s.issued[k].at < s.now;
        assert i == k || (i < k && s.issued[i].at < s.issued[k].at);
      }
    }
  }

  /** The fence never turns away the live reservation, whatever the stamps. */
  lemma {:induction false} LiveIsAccepted(s: State, es: seq<Event>, i: nat)
    requires Tracked(s) && ValidRun(s, es)
    requires i < |Exec(s, es).issued| && Live(Exec(s, es), i)
    ensures Accepts(Exec(s, es), i)
    decreases |es|
  {
    if es != [] {
      StepTracked(s, es[0]);
      LiveIsAccepted(Next(s, es[0]), es[1..], i);
    }
  }

  /** When a dead ticket is accepted: exactly if the row's live ticket repeats its user and stamp. */
  lemma DeadAcceptedIffAliased(s: State, i: nat)
    requires Tracked(s) && i < |s.issued| && !Live(s, i)
    ensures Accepts(s, i) <==>
              s.issued[i].code in s.current && s.issued[s.current[s.issued[i].code]] == s.issued[i]
  {
  }

  lemma {:induction false} PromptRunInvariant(s: State, es: seq<Event>)
    requires Tracked(s) && Increasing(s) && ValidRun(s, es) && PromptRun(s, es)
    ensures Tracked(Exec(s, es)) && Increasing(Exec(s, es))
    decreases |es|
  {
    if es != [] {
      StepTracked(s, es[0]);
      StepIncreasing(s, es[0]);
      PromptRunInvariant(Next(s, es[0]), es[1..]);
    }
  }

  /** No two reservations were handed the same ticket: what callers can compare among themselves. */
  ghost predicate Distinct(issued: seq<Ticket>) {
    forall i, j | 0 <= i < j < |issued| :: issued[i] != issued[j]
  }

  ghost predicate Exact(s: State) {
    forall i | 0 <= i < |s.issued| :: Accepts(s, i) <==> Live(s, i)
  }

  /** At the start and after every event of a run the fence accepts exactly the live tickets. */
  ghost predicate ExactThroughout(s: State, es: seq<Event>)
    requires ValidRun(s, es)
    decreases |es|
  {
    Exact(s) && (es != [] ==> ExactThroughout(Next(s, es[0]), es[1..]))
  }

  lemma DistinctIsExact(s: State)
    requires Tracked(s) && Distinct(s.issued)
    ensures Exact(s)
  {
    forall i | 0 <= i < |s.issued| ensures Accepts(s, i) <==> Live(s, i) {
      if !Live(s, i) {
        DeadAcceptedIffAliased(s, i);
      } else {
        LiveIsAccepted(s, [], i);
      }
    }
  }

  /** A Reserve that repeats a ticket makes the old one accepted although it is dead. */
  lemma RepeatIsInexact(s: State, e: Event, i: nat)
    requires Tracked(s) && Enabled(s, e) && e.Reserve?
    requires i < |s.issued| && s.issued[i] == Ticket(e.c, e.user, e.stamp)
    ensures !Exact(Next(s, e))
  {
    var s' := Next(s, e);
    assert s'.issued[i] == s'.issued[|s.issued|];
    assert Accepts(s', i) && !Live(s', i);
  }

  lemma {:induction false} IssuedGrows(s: State, es: seq<Event>)
    requires ValidRun(s, es)
    ensures s.issued <= Exec(s, es).issued
    decreases |es|
  {
    if es != [] {
      IssuedGrows(Next(s, es[0]), es[1..]);
    }
  }

  lemma DistinctPrefix(issued: seq<Ticket>, more: seq<Ticket>)
    requires issued <= more && Distinct(more)
    ensures Distinct(issued)
  {
    assert forall i | 0 <= i < |issued| :: issued[i] == more[i];
  }

  lemma {:induction false} ExactIffFrom(s: State, es: seq<Event>)
    requires Tracked(s) && Distinct(s.issued) && ValidRun(s, es)
    ensures ExactThroughout(s, es) <==> Distinct(Exec(s, es).issued)
    decreases |es|
  {
    DistinctIsExact(s);
    if es != [] {
      var e, s' := es[0], Next(s, es[0]);
      StepTracked(s, e);
      IssuedGrows(s', es[1..]);
      if Distinct(s'.issued) {
        ExactIffFrom(s', es[1..]);
      } else {
        var i, j :| 0 <= i < j < |s'.issued| && s'.issued[i] == s'.issued[j];
        assert j == |s.issued|;
        RepeatIsInexact(s, e, i);
        if Distinct(Exec(s, es).issued) {
          DistinctPrefix(s'.issued, Exec(s, es).issued);
        }
      }
    }
  }

  /**
   Exactly when the fence is exact: over any run from an unreserved table, whatever the
   stamps, it accepts precisely the live tickets at every point if and only if no two
   reservations were handed the same code, user and reserved_at.
   */
  lemma FenceExactIff(s: State, es: seq<Event>)
    requires Fresh(s) && ValidRun(s, es)
    ensures ExactThroughout(s, es) <==> Distinct(Exec(s, es).issued)
  {
    ExactIffFrom(s, es);
  }

  /**
   No ABA: statements that read NOW() at their own step, over a clock that never goes back and
   any ttl >= 0, never repeat a reserved_at of a code, so the fence is exact throughout.
   */
  lemma FenceExact(s: State, es: seq<Event>)
    requires Fresh(s) && ValidRun(s, es) && PromptRun(s, es)
    ensures ExactThroughout(s, es)
    ensures var issued := Exec(s, es).issued;
            forall i, j | 0 <= i < j < |issued| && issued[i].code == issued[j].code :: issued[i].at != issued[j].at
  {
    PromptRunInvariant(s, es);
    FenceExactIff(s, es);
  }

  /** Nothing but reclaims of this ttl, or longer ones, and nobody else using the ticket. */
  ghost predicate LeavesTicket(es: seq<Event>, t: Ticket, ttl: Time) {
    forall k | 0 <= k < |es| ::
      && (es[k].Reclaim? ==> es[k].ttl >= ttl)
      && (es[k].Finalize? ==> !(es[k].c == t.code && es[k].user == t.user && es[k].token == t.at))
  }

  /**
   A young reservation survives: whatever Reserves, Finalizes of other tickets and Reclaims
   come in between, a holder who finalizes within ttl of its reserved_at is never turned away.
   */
  lemma {:induction false} YoungTicketAccepted(s: State, es: seq<Event>, i: nat, ttl: Time)
    requires Tracked(s) && ValidRun(s, es) && i < |s.issued| && Live(s, i)
    requires LeavesTicket(es, s.issued[i], ttl)
    requires Exec(s, es).now <= s.issued[i].at + ttl
    ensures i < |Exec(s, es).issued| && Live(Exec(s, es), i) && Accepts(Exec(s, es), i)
    decreases |es|
  {
    if es == [] {
      LiveIsAccepted(s, [], i);
    } else {
      NowGrows(Next(s, es[0]), es[1..]);
      YoungTicketStep(s, es[0], i, ttl);
      assert LeavesTicket(es[1..], s.issued[i], ttl) by {
        assert forall k | 0 <= k < |es| - 1 :: es[1..][k] == es[k + 1];
      }
      StepTracked(s, es[0]);
      YoungTicketAccepted(Next(s, es[0]), es[1..], i, ttl);
    }
  }

  lemma YoungTicketStep(s: State, e: Event, i: nat, ttl: Time)
    requires Tracked(s) && Enabled(s, e) && i < |s.issued| && Live(s, i)
    requires e.Reclaim? ==> e.ttl >= ttl
    requires e.Finalize? ==> !(e.c == s.issued[i].code && e.user == s.issued[i].user && e.token == s.issued[i].at)
    requires Next(s, e).now <= s.issued[i].at + ttl
    ensures i < |Next(s, e).issued| && Next(s, e).issued[i] == s.issued[i] && Live(Next(s, e), i)
  {
    if e.Reclaim? {
      ReclaimMeaning(s.codes, e.stamp, e.ttl, s.issued[i].code);
    }
  }

  lemma {:induction false} NowGrows(s: State, es: seq<Event>)
    requires ValidRun(s, es)
    ensures s.now <= Exec(s, es).now
    decreases |es|
  {
    if es != [] {
      NowGrows(Next(s, es[0]), es[1..]);
    }
  }

  /** One unused code, and a reservation, its reclaim, and a second reservation of the same user. */
  const START: State := State(map[7 := FreshCode(1, "KEY", 0)], 10, [], map[])
  const STEAL: seq<Event> := [Reserve(7, 5, 10), Tick(100), Reclaim(60, 100), Reserve(7, 5, 10)]

  /**
   The exactness needs prompt stamps: NOW() is the start of the transaction, so a second
   Reserve whose transaction began before the first reservation was reclaimed repeats its
   reserved_at, and the dead first ticket is accepted.
   */
  lemma LateStampDefeatsFence()
    ensures Fresh(START) && ValidRun(START, STEAL)
    ensures |Exec(START, STEAL).issued| == 2
    ensures !Live(Exec(START, STEAL), 0) && Accepts(Exec(START, STEAL), 0)
    ensures !ExactThroughout(START, STEAL)
  {
    var s1 := Next(START, STEAL[0]);
    var s2 := Next(s1, STEAL[1]);
    var s3 := Next(s2, STEAL[2]);
    assert s3.codes[7].state.Unused?;
    var s4 := Next(s3, STEAL[3]);
    assert STEAL[1..][0] == STEAL[1] && STEAL[1..][1..] == STEAL[2..] && STEAL[2..][1..] == STEAL[3..]
        && STEAL[3..][1..] == [];
    assert ValidRun(s4, []) && Exec(s4, []) == s4;
    assert ValidRun(s3, STEAL[3..]) && Exec(s3, STEAL[3..]) == s4;
    assert ValidRun(s2, STEAL[2..]) && Exec(s2, STEAL[2..]) == s4;
    assert ValidRun(s1, STEAL[1..]) && Exec(s1, STEAL[1..]) == s4;
    assert s4.issued[0] == s4.issued[1];
    FenceExactIff(START, STEAL);
  }

  /** The row of the ticket is RESERVED by a Reserve that issued exactly this ticket. */
  predicate InReservation(s: State, t: Ticket) {
    t.code in s.current && s.current[t.code] < |s.issued| && s.issued[s.current[t.code]] == t
  }

  /** The code store. Its methods are the statements; any caller may issue them in any order. */
  class CodeStore {
    var rows: map<Id, Code>
    var now: Time
    ghost var issued: seq<Ticket>
    ghost var current: map<Id, nat>

    constructor (rows: map<Id, Code>, now: Time)
      requires forall c | c in rows :: !rows[c].state.Reserved?
      ensures Valid() && Abs() == State(rows, now, [], map[])
    {
      this.rows, this.now, this.issued, this.current := rows, now, [], map[];
    }

    ghost function Abs(): State
      reads this
    {
      State(rows, now, issued, current)
    }

    ghost predicate Valid()
      reads this
    {
      Tracked(Abs())
    }

    /**
     Takes the oldest unused code of the playtest, or reports the pool empty; stamp is the
     start of the caller's transaction.
     */
    method Reserve(playtest: Id, user: Id, stamp: Time) returns (r: Option<Id>)
      requires Valid() && stamp <= now
      modifies this
      ensures Valid()
      ensures r.None? ==> Abs() == old(Abs()) && forall c | c in rows :: !UnusedOf(rows, playtest, c)
      ensures r.Some? ==>
                && UnusedOf(old(rows), playtest, r.value)
                && (forall c | UnusedOf(old(rows), playtest, c) ::
                     old(rows)[r.value].createdAt <= old(rows)[c].createdAt)
                && Abs() == Next(old(Abs()), Event.Reserve(r.value, user, stamp))
    {
      ghost var before := Abs();
      r := OldestUnused(rows, {}, playtest);
      assert forall c :: FreeOf(rows, {}, playtest, c) <==> UnusedOf(rows, playtest, c);
      if r.Some? {
        StepTracked(before, Event.Reserve(r.value, user, stamp));
        rows := rows[r.value := ReserveRow(rows[r.value], user, stamp)];
        issued, current := issued + [Ticket(r.value, user, stamp)], current[r.value := |issued|];
      }
    }

    /**
     Returns the rows affected: 1 exactly when the code is in a reservation that was handed
     these very arguments. While tickets are distinct that is: exactly for its own holder.
     */
    method FencedFinalize(c: Id, user: Id, originalReservedAt: Time, stamp: Time) returns (affected: int)
      requires Valid() && stamp <= now
      modifies this
      ensures Valid()
      ensures affected == if InReservation(old(Abs()), Ticket(c, user, originalReservedAt)) then 1 else 0
      ensures Distinct(old(issued)) ==>
                forall i | 0 <= i < |old(issued)| && old(issued)[i] == Ticket(c, user, originalReservedAt) ::
                  affected == if Live(old(Abs()), i) then 1 else 0
      ensures affected == 0 ==> Abs() == old(Abs())
      ensures affected == 1 ==>
                && c in old(rows)
                && Abs() == Next(old(Abs()), Finalize(c, user, originalReservedAt, stamp))
    {
      ghost var before := Abs();
      if Distinct(issued) {
        DistinctIsExact(before);
      }
      if c in rows && FenceHolds(rows[c], user, originalReservedAt) {
        StepTracked(before, Finalize(c, user, originalReservedAt, stamp));
        rows := rows[c := GrantRow(rows[c], stamp)];
        current := current - {c};
        return 1;
      }
      return 0;
    }

    /** Releases every reservation older than ttl and returns how many there were. */
    method Reclaim(ttl: Time, stamp: Time) returns (released: int)
      requires Valid() && 0 <= ttl && stamp <= now
      modifies this
      ensures Valid()
      ensures Abs() == Next(old(Abs()), Event.Reclaim(ttl, stamp))
      ensures rows.Keys == old(rows).Keys
      ensures forall c | c in rows ::
                var row := old(rows)[c];
                rows[c] == if row.state == Reserved && row.reservedAt.Some? && row.reservedAt.value < stamp - ttl
                           then row.(state := Unused, reservedBy := None, reservedAt := None) else row
      ensures released == |set c | c in old(rows) && rows[c] != old(rows)[c]|
    {
      StepTracked(Abs(), Event.Reclaim(ttl, stamp));
      ghost var before := rows;
      var stale := set c | c in rows && Stale(rows[c], stamp, ttl);
      released := |stale|;
      current := map c | c in current && !(c in rows && Stale(rows[c], stamp, ttl)) :: current[c];
      rows := ReclaimAll(rows, stamp, ttl);
      forall c | c in before ensures c in stale <==> rows[c] != before[c] {
        ReclaimMeaning(before, stamp, ttl, c);
      }
      assert stale == set c | c in before && rows[c] != before[c];
    }

    /** The database clock moves on; stamps of later transactions may be later. */
    method Wait(to: Time)
      requires Valid() && now <= to
      modifies this`now
      ensures Valid() && Abs() == Next(old(Abs()), Tick(to))
    {
      now := to;
    }
  }
}
