/**
 Window-driven status changes: any number of window workers and admins racing on the
 playtest rows through compare-and-swap, and the sweep of one worker.
 */
module WindowWorker {
  import opened Basics
  import R = ReclaimWorker

  datatype Status = Draft | Open | Closed

  function Rank(s: Status): int {
    match s case Draft => 0 case Open => 1 case Closed => 2
  }

  datatype Playtest = Playtest(namespace: Id, status: Status, startsAt: Option<Time>, endsAt: Option<Time>,
      deleted: bool)

  type Table = map<Id, Playtest>

  function NextStatus(s: Status): Option<Status> {
    match s case Draft => Some(Open) case Open => Some(Closed) case Closed => None
  }

  /** isValidTransition of the admin handler. */
  predicate IsValidTransition(from: Status, to: Status) {
    (from.Draft? && to.Open?) || (from.Open? && to.Closed?)
  }

  /** The WHERE clause of ListDueForAutoTransition. */
  predicate Due(p: Playtest, namespace: Id, now: Time) {
    && p.namespace == namespace && !p.deleted
    && (|| (p.status.Draft? && p.startsAt.Some? && p.startsAt.value <= now)
        || (p.status.Open? && p.endsAt.Some? && p.endsAt.value <= now))
  }

  /** The WHERE clause of TransitionStatus. */
  predicate CasMatches(t: Table, namespace: Id, id: Id, from: Status) {
    id in t && t[id].namespace == namespace && t[id].status == from && !t[id].deleted
  }

  // ------------------------------------------------------------------ the interleaved machine

  /** A compare-and-swap that succeeded, and whether a worker did it. */
  datatype Move = Move(id: Id, from: Status, to: Status, system: bool)

  /**
   A worker's remaining due rows, as listed, and the move whose audit row it writes next. A
   call of the admin handler is a worker too: it lists nothing, and moves through Admin.
   */
  datatype Worker = Worker(namespace: Id, todo: seq<(Id, Status)>, unaudited: Option<nat>)

  /** audit holds positions in moved: the move each audit row reports. */
  datatype Sys = Sys(plays: Table, workers: map<Id, Worker>, moved: seq<Move>, audit: seq<nat>)

  datatype Event =
    | Create(id: Id, p: Playtest)
    | Edit(id: Id, startsAt: Option<Time>, endsAt: Option<Time>)
    | Delete(id: Id)
    | Start(w: Id, namespace: Id)
    | List(w: Id, now: Time, due: seq<(Id, Status)>)
    | Cas(w: Id)
    | Audit(w: Id, ok: bool)
    | Admin(w: Id, id: Id, seen: Status, target: Status)
    | Crash(w: Id)

  ghost predicate Idle(s: Sys, w: Id) {
    w in s.workers && s.workers[w].unaudited == None
  }

  ghost predicate Enabled(s: Sys, e: Event) {
    match e
    case Create(id, p) => id !in s.plays && p.status.Draft?
    case Edit(id, _, _) => id in s.plays && !s.plays[id].deleted
    case Delete(id) => id in s.plays && !s.plays[id].deleted
    case Start(w, _) => w !in s.workers
    case List(w, now, due) =>
      && Idle(s, w) && s.workers[w].todo == []
      && forall d | d in due ::
           d.0 in s.plays && s.plays[d.0].status == d.1 && Due(s.plays[d.0], s.workers[w].namespace, now)
    case Cas(w) => Idle(s, w) && s.workers[w].todo != []
    case Audit(w, _) => w in s.workers && s.workers[w].unaudited.Some?
    case Admin(w, _, seen, target) => Idle(s, w) && IsValidTransition(seen, target)
    case Crash(w) => w in s.workers
  }

  ghost function Next(s: Sys, e: Event): Sys
    requires Enabled(s, e)
  {
    match e
    case Create(id, p) => s.(plays := s.plays[id := p])
    case Edit(id, a, b) => s.(plays := s.plays[id := s.plays[id].(startsAt := a, endsAt := b)])
    case Delete(id) => s.(plays := s.plays[id := s.plays[id].(deleted := true)])
    case Start(w, ns) => s.(workers := s.workers[w := Worker(ns, [], None)])
    case List(w, now, due) => s.(workers := s.workers[w := s.workers[w].(todo := due)])
    case Cas(w) =>
      var x := s.workers[w];
      var id, from, rest := x.todo[0].0, x.todo[0].1, x.(todo := x.todo[1..]);
      var to := NextStatus(from);
      if to.Some? && CasMatches(s.plays, x.namespace, id, from) then
        s.(plays := s.plays[id := s.plays[id].(status := to.value)],
           workers := s.workers[w := rest.(unaudited := Some(|s.moved|))],
           moved := s.moved + [Move(id, from, to.value, true)])
      else
        s.(workers := s.workers[w := rest])
    case Audit(w, ok) =>
      var s' := s.(workers := s.workers[w := s.workers[w].(unaudited := None)]);
      if ok then s'.(audit := s.audit + [s.workers[w].unaudited.value]) else s'
    case Admin(w, id, seen, target) =>
      var x := s.workers[w];
      if CasMatches(s.plays, x.namespace, id, seen) then
        s.(plays := s.plays[id := s.plays[id].(status := target)],
           workers := s.workers[w := x.(unaudited := Some(|s.moved|))],
           moved := s.moved + [Move(id, seen, target, false)])
      else s
    case Crash(w) => s.(workers := s.workers - {w})
  }

  /**
   Moves go one step forward, each starts where the previous one of its playtest ended or
   later, and the row is at least there.
   */
  ghost predicate MovesOk(plays: Table, moved: seq<Move>) {
    && (forall i | 0 <= i < |moved| ::
          && IsValidTransition(moved[i].from, moved[i].to)
          && moved[i].id in plays
          && Rank(moved[i].to) <= Rank(plays[moved[i].id].status))
    && (forall i, j | 0 <= i < j < |moved| && moved[i].id == moved[j].id :: Rank(moved[i].to) <= Rank(moved[j].from))
  }

  /** No two audit rows, written or about to be, report the same move. */
  ghost predicate AuditOk(s: Sys) {
    && (forall i | 0 <= i < |s.audit| :: s.audit[i] < |s.moved|)
    && (forall i, j | 0 <= i < j < |s.audit| :: s.audit[i] != s.audit[j])
    && (forall w | w in s.workers && s.workers[w].unaudited.Some? ::
          s.workers[w].unaudited.value < |s.moved| && s.workers[w].unaudited.value !in s.audit)
    && (forall w, v | w in s.workers && v in s.workers && w != v && s.workers[w].unaudited.Some? ::
         s.workers[w].unaudited != s.workers[v].unaudited)
  }

  /** Each row of t is still in t', its status no further back, and unchanged once deleted. */
  ghost predicate Forward(t: Table, t': Table) {
    forall id | id in t ::
      && id in t'
      && Rank(t[id].status) <= Rank(t'[id].status)
      && (t[id].deleted ==> t'[id] == t[id])
  }

  lemma MovesFrame(plays: Table, plays': Table, moved: seq<Move>)
    requires MovesOk(plays, moved) && Forward(plays, plays')
    ensures MovesOk(plays', moved)
  {
    forall i | 0 <= i < |moved| ensures moved[i].id in plays' && Rank(moved[i].to) <= Rank(plays'[moved[i].id].status) {
      assert moved[i].id in plays;
    }
  }

  lemma CasKeepsMoves(plays: Table, moved: seq<Move>, m: Move)
    requires MovesOk(plays, moved) && m.id in plays && !plays[m.id].deleted
    requires plays[m.id].status == m.from && IsValidTransition(m.from, m.to)
    ensures var plays' := plays[m.id := plays[m.id].(status := m.to)];
            MovesOk(plays', moved + [m]) && Forward(plays, plays')
  {
    var plays' := plays[m.id := plays[m.id].(status := m.to)];
    MovesFrame(plays, plays', moved);
  }

  lemma StepMoves(s: Sys, e: Event)
    requires MovesOk(s.plays, s.moved) && Enabled(s, e)
    ensures MovesOk(Next(s, e).plays, Next(s, e).moved) && Forward(s.plays, Next(s, e).plays)
  {
    var s' := Next(s, e);
    if s'.moved != s.moved {
      CasKeepsMoves(s.plays, s.moved, s'.moved[|s.moved|]);
    } else {
      MovesFrame(s.plays, s'.plays, s.moved);
    }
  }

  /** Nothing was moved or audited, and no worker has a new move to report. */
  lemma AuditFrame(s: Sys, s': Sys)
    requires AuditOk(s) && s'.moved == s.moved && s'.audit == s.audit
    requires forall w | w in s'.workers && s'.workers[w].unaudited.Some? ::
               w in s.workers && s.workers[w].unaudited == s'.workers[w].unaudited
    ensures AuditOk(s')
  {
  }

  lemma CasAudit(s: Sys, w: Id)
    requires AuditOk(s) && Enabled(s, Cas(w))
    ensures AuditOk(Next(s, Cas(w)))
  {
  }

  lemma WriteAudit(s: Sys, w: Id, ok: bool)
    requires AuditOk(s) && Enabled(s, Audit(w, ok))
    ensures AuditOk(Next(s, Audit(w, ok)))
  {
  }

  lemma AdminAudit(s: Sys, e: Event)
    requires AuditOk(s) && Enabled(s, e) && e.Admin?
    ensures AuditOk(Next(s, e))
  {
  }

  lemma StepAudit(s: Sys, e: Event)
    requires AuditOk(s) && Enabled(s, e)
    ensures AuditOk(Next(s, e))
  {
    match e
    case Cas(w) => CasAudit(s, w);
    case Audit(w, ok) => WriteAudit(s, w, ok);
    case Admin(_, _, _, _) => AdminAudit(s, e);
    case _ => AuditFrame(s, Next(s, e));
  }

  ghost predicate ValidRun(s: Sys, es: seq<Event>)
    decreases |es|
  {
    es == [] || (Enabled(s, es[0]) && ValidRun(Next(s, es[0]), es[1..]))
  }

  ghost function Exec(s: Sys, es: seq<Event>): Sys
    requires ValidRun(s, es)
    decreases |es|
  {
    if es == [] then s else Exec(Next(s, es[0]), es[1..])
  }

  lemma {:induction false} RunKeepsInv(s: Sys, es: seq<Event>)
    requires MovesOk(s.plays, s.moved) && AuditOk(s) && ValidRun(s, es)
    ensures MovesOk(Exec(s, es).plays, Exec(s, es).moved) && AuditOk(Exec(s, es)) && Forward(s.plays, Exec(s, es).plays)
    decreases |es|
  {
    if es != [] {
      StepMoves(s, es[0]);
      StepAudit(s, es[0]);
      RunKeepsInv(Next(s, es[0]), es[1..]);
    }
  }

  const EMPTY: Sys := Sys(map[], map[], [], [])

  /**
   However workers and admins interleave, a playtest only moves DRAFT, OPEN, CLOSED; each of
   the two edges is taken at most once, and each taking is reported by at most one audit row.
   */
  lemma EdgesTakenOnce(es: seq<Event>, more: seq<Event>, i: nat, j: nat)
    requires ValidRun(EMPTY, es) && ValidRun(Exec(EMPTY, es), more)
    ensures Forward(Exec(EMPTY, es).plays, Exec(Exec(EMPTY, es), more).plays)
    ensures var m := Exec(EMPTY, es).moved;
            i < j < |m| && m[i].id == m[j].id ==>
                m[i].from.Draft? && m[i].to.Open? && m[j].from.Open? && m[j].to.Closed?
    ensures var m := Exec(EMPTY, es).moved;
            i < |m| ==> (m[i].from == Draft && m[i].to == Open) || (m[i].from == Open && m[i].to == Closed)
    ensures var a := Exec(EMPTY, es).audit;
            i < j < |a| ==> a[i] != a[j] && a[i] < |Exec(EMPTY, es).moved|
  {
    RunKeepsInv(EMPTY, es);
    RunKeepsInv(Exec(EMPTY, es), more);
  }

  // ------------------------------------------------------------------ the sweep of one worker

  function Advanced(p: Playtest): Playtest {
    match NextStatus(p.status)
    case Some(to) => p.(status := to)
    case None => p
  }

  /** What an undisturbed sweep does to the table. */
  function SweepOf(t: Table, namespace: Id, now: Time): Table {
    map id | id in t :: if Due(t[id], namespace, now) then Advanced(t[id]) else t[id]
  }

  ghost predicate NothingDue(t: Table, namespace: Id, now: Time) {
    forall id | id in t :: !Due(t[id], namespace, now)
  }

  /** The sweep: list the due rows, then advance and audit them one by one. */
  method Sweep(plays: Table, namespace: Id, now: Time) returns (plays': Table, audit: seq<Move>)
    ensures plays' == SweepOf(plays, namespace, now)
    ensures |audit| == |set id | id in plays && Due(plays[id], namespace, now)|
    ensures forall i | 0 <= i < |audit| :: audit[i].id in plays && Due(plays[audit[i].id], namespace, now)
    ensures forall i | 0 <= i < |audit| ::
              audit[i] == Move(audit[i].id, plays[audit[i].id].status, plays'[audit[i].id].status, true)
                  && audit[i].from != audit[i].to
    ensures forall i, j | 0 <= i < j < |audit| :: audit[i].id != audit[j].id
  {
    plays', audit := plays, [];
    var due := set id | id in plays && Due(plays[id], namespace, now);
    var todo := due;
    while todo != {}
      invariant todo <= due && plays'.Keys == plays.Keys
      invariant forall id | id in plays ::
          plays'[id] == if id in due && id !in todo then Advanced(plays[id]) else plays[id]
      invariant |audit| == |due| - |todo|
      invariant forall i | 0 <= i < |audit| :: audit[i].id in due && audit[i].id !in todo
      invariant forall i | 0 <= i < |audit| ::
                  audit[i] == Move(audit[i].id, plays[audit[i].id].status, plays'[audit[i].id].status, true)
                      && audit[i].from != audit[i].to
      invariant forall i, j | 0 <= i < j < |audit| :: audit[i].id != audit[j].id
      decreases |todo|
    {
      var id := TakeAny(todo);
      todo := todo - {id};
      var from := plays[id].status;
      var to := NextStatus(from);
      if to.Some? && CasMatches(plays', namespace, id, from) {
        plays' := plays'[id := plays'[id].(status := to.value)];
        audit := audit + [Move(id, from, to.value, true)];
      }
    }
    ghost var target := SweepOf(plays, namespace, now);
    assert plays'.Keys == target.Keys;
    assert forall id | id in plays' :: plays'[id] == target[id];
  }

  /**
   One sweep, in the columns: a live draft of the namespace opens exactly when its start time
   has come, an open one closes exactly when its end time has; everything else stays.
   */
  lemma SweepMeaning(t: Table, namespace: Id, now: Time, id: Id)
    requires id in t
    ensures var p, after := t[id], SweepOf(t, namespace, now);
            var live := p.namespace == namespace && !p.deleted;
            var opens := live && p.status == Draft && p.startsAt.Some? && p.startsAt.value <= now;
            var closes := live && p.status == Open && p.endsAt.Some? && p.endsAt.value <= now;
            && after.Keys == t.Keys
            && after[id] == (if opens then p.(status := Open) else if closes then p.(status := Closed) else p)
  {
  }

  /** The admin and worker step: a live row of the namespace still in the status seen, and nothing else, moves. */
  lemma CasMeaning(s: Sys, w: Id, id: Id, seen: Status, target: Status)
    requires Enabled(s, Admin(w, id, seen, target))
    ensures var s' := Next(s, Admin(w, id, seen, target));
            var moves := id in s.plays && s.plays[id].namespace == s.workers[w].namespace
                && s.plays[id].status == seen && !s.plays[id].deleted;
            && ((target == Open && seen == Draft) || (target == Closed && seen == Open))
            && s'.plays == (if moves then s.plays[id := s.plays[id].(status := target)] else s.plays)
            && s'.moved == s.moved + if moves then [Move(id, seen, target, false)] else []
  {
  }

  lemma WorkerCasMeaning(s: Sys, w: Id)
    requires Enabled(s, Cas(w))
    ensures var s' := Next(s, Cas(w));
            var (id, from) := s.workers[w].todo[0];
            var moves := id in s.plays && s.plays[id].namespace == s.workers[w].namespace
                && s.plays[id].status == from && !s.plays[id].deleted && from != Closed;
            var to := if from == Draft then Open else Closed;
            && s'.moved == s.moved + (if moves then [Move(id, from, to, true)] else [])
            && s'.plays == if moves then s.plays[id := s.plays[id].(status := to)] else s.plays
  {
  }

  /** With time fixed and no other writer, two sweeps reach a table where nothing is due. */
  lemma TwoSweepsSettle(t: Table, namespace: Id, now: Time)
    ensures NothingDue(SweepOf(SweepOf(t, namespace, now), namespace, now), namespace, now)
  {
  }

  /** One sweep is enough exactly when no due draft is already past its end. */
  lemma OneSweepSettlesIff(t: Table, namespace: Id, now: Time)
    ensures NothingDue(SweepOf(t, namespace, now), namespace, now) <==>
              forall id | id in t && t[id].status.Draft? && Due(t[id], namespace, now) ::
                  t[id].endsAt.None? || t[id].endsAt.value > now
  {
    var t' := SweepOf(t, namespace, now);
    forall id | id in t
      ensures Due(t'[id], namespace, now) <==>
                t[id].status.Draft? && Due(t[id], namespace, now) && t[id].endsAt.Some? && t[id].endsAt.value <= now
    {
    }
  }

  // ------------------------------------------------------------------ its lease

  /** tickPeriod of the window worker: a heartbeat of the interval or longer is ignored too. */
  function TickPeriod(heartbeat: Time, interval: Time): Time {
    if 0 < heartbeat < interval then heartbeat else interval
  }

  /** Its election is the reclaim worker's, ticking at this period and sweeping at the interval. */
  function Election(heartbeat: Time, interval: Time, ttl: Time): R.Config {
    R.Config(1, ttl, TickPeriod(heartbeat, interval), interval, 60)
  }

  /**
   A window leader whose ticks are all on time keeps its lease over every run exactly when the
   interval, or a heartbeat below it, is shorter than the TTL.
   */
  lemma OnTimeKeepsLeaseIff(heartbeat: Time, interval: Time, ttl: Time, s: R.Sys)
    requires 0 < interval && 0 < ttl && R.Started(Election(heartbeat, interval, ttl), s)
    ensures R.AlwaysKeepsLease(Election(heartbeat, interval, ttl), TickPeriod(heartbeat, interval), s) <==>
              interval < ttl || 0 < heartbeat < Min(interval, ttl)
  {
    R.LeaseKeptIff(Election(heartbeat, interval, ttl), TickPeriod(heartbeat, interval), s);
  }

  /** A heartbeat counts only when it is positive and below the interval. */
  lemma TickPeriodMeaning(heartbeat: Time, interval: Time)
    ensures heartbeat <= 0 || heartbeat >= interval ==> TickPeriod(heartbeat, interval) == interval
    ensures 0 < heartbeat < interval ==> TickPeriod(heartbeat, interval) == heartbeat
  {
  }

  /** The stock 60 s interval and 30 s TTL in seconds: safe with the stock 10 s heartbeat, not with one of 0 or less. */
  lemma StockWindow(heartbeat: Time)
    requires heartbeat <= 0
    ensures R.AlwaysKeepsLease(Election(10, 60, 30), 10, R.BOOTED)
    ensures TickPeriod(heartbeat, 60) == 60
    ensures !R.AlwaysKeepsLease(Election(heartbeat, 60, 30), 60, R.BOOTED)
  {
    OnTimeKeepsLeaseIff(10, 60, 30, R.BOOTED);
    OnTimeKeepsLeaseIff(heartbeat, 60, 30, R.BOOTED);
  }
}
