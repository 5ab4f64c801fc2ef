/**
 The leader_lease row of one name and the statements of the leader store, and the
 interleaved machine of the workers that race on it: every lease statement, the clock read
 and the sweep of a tick are separate steps, with time and other workers in between.
 */
module Lease {
  import opened Basics

  /** The row; holder is unique per replica. */
  datatype Row = Row(holder: Id, acquiredAt: Time, expiresAt: Time)

  predicate CanAcquire(r: Option<Row>, h: Id, now: Time) {
    r.None? || r.value.expiresAt <= now || r.value.holder == h
  }

  function TryAcquire(r: Option<Row>, h: Id, ttl: Time, now: Time): Option<Row> {
    if CanAcquire(r, h, now) then Some(Row(h, now, now + ttl)) else r
  }

  predicate CanRefresh(r: Option<Row>, h: Id, now: Time) {
    r.Some? && r.value.holder == h && r.value.expiresAt > now
  }

  function Refresh(r: Option<Row>, h: Id, ttl: Time, now: Time): Option<Row> {
    if CanRefresh(r, h, now) then Some(r.value.(expiresAt := now + ttl)) else r
  }

  function Release(r: Option<Row>, h: Id): Option<Row> {
    if r.Some? && r.value.holder == h then None else r
  }

  /**
   The three statements, in the columns. Acquire takes a row that is missing, expired by now or
   the caller's own; refresh moves the expiry of the caller's own row that has not expired, and
   nothing else; release removes only the caller's own row.
   */
  lemma StatementMeaning(r: Option<Row>, h: Id, ttl: Time, now: Time)
    ensures CanAcquire(r, h, now) <==> r == None || r.value.expiresAt <= now || r.value.holder == h
    ensures TryAcquire(r, h, ttl, now) ==
              if r == None || r.value.expiresAt <= now || r.value.holder == h then Some(Row(h, now, now + ttl)) else r
    ensures CanRefresh(r, h, now) <==> r != None && r.value.holder == h && now < r.value.expiresAt
    ensures Refresh(r, h, ttl, now) ==
              if r != None && r.value.holder == h && now < r.value.expiresAt then
                  Some(Row(h, r.value.acquiredAt, now + ttl)) else r
    ensures Release(r, h) == if r != None && r.value.holder == h then None else r
  {
  }

  /** A call succeeds, fails without effect, or takes effect while its answer is lost. */
  datatype Outcome = Done | Failed | AnswerLost

  // ------------------------------------------------------------------ logs of lease events

  /** Swept remembers the position of the refresh that opened its tick. */
  datatype Entry =
    | Granted(holder: Id, at: Time, refresh: bool)
    | Released(holder: Id, at: Time)
    | Swept(holder: Id, at: Time, beat: nat)

  /** The holder and expiry the entries so far leave in the row. */
  function RowOf(log: seq<Entry>, ttl: Time): Option<(Id, Time)> {
    if log == [] then None else
      match log[|log| - 1]
      case Granted(h, at, _) => Some((h, at + ttl))
      case Released(_, _) => None
      case Swept(_, _, _) => RowOf(log[..|log| - 1], ttl)
  }

  predicate Admissible(log: seq<Entry>, ttl: Time, e: Entry) {
    var r := RowOf(log, ttl);
    match e
    case Granted(h, at, refresh) =>
      if refresh then r.Some? && r.value.0 == h && at < r.value.1
      else r.None? || r.value.1 <= at || r.value.0 == h
    case Released(h, _) => r.Some? && r.value.0 == h
    case Swept(_, _, _) => true
  }

  ghost predicate Legal(log: seq<Entry>, ttl: Time) {
    && (forall j | 0 <= j < |log| :: Admissible(log[..j], ttl, log[j]))
    && (forall i, j | 0 <= i < j < |log| :: log[i].at <= log[j].at)
  }

  predicate GrantAt(log: seq<Entry>, i: nat, h: Id) {
    i < |log| && log[i].Granted? && log[i].holder == h
  }

  /** Between positions i and j, h neither released nor renewed. */
  ghost predicate Quiet(log: seq<Entry>, i: nat, j: nat, h: Id)
    requires j <= |log|
  {
    forall k | i < k < j && !log[k].Swept? :: log[k].holder != h
  }

  /** What the row holds after a grant that nobody else's grant followed. */
  lemma {:induction false} RowAfterGrant(log: seq<Entry>, ttl: Time, i: nat, j: nat, h: Id)
    requires Legal(log, ttl) && i < j <= |log| && GrantAt(log, i, h) && Quiet(log, i, j, h)
    requires forall k | i < k < j :: !log[k].Granted?
    ensures RowOf(log[..j], ttl) == Some((h, log[i].at + ttl))
  {
    assert log[..j][..j - 1] == log[..j - 1];
    if i + 1 < j {
      RowAfterGrant(log, ttl, i, j - 1, h);
      assert Admissible(log[..j - 1], ttl, log[j - 1]);
    }
  }

  /**
   Lease exclusion: after the latest acquire or refresh of h, and unless h releases, no
   other holder's acquire or refresh succeeds before that time plus the TTL.
   */
  lemma {:induction false} LeaseExclusion(log: seq<Entry>, ttl: Time, i: nat, j: nat, h: Id, other: Id)
    requires Legal(log, ttl) && i < j && GrantAt(log, i, h) && GrantAt(log, j, other) && h != other
    requires Quiet(log, i, j, h)
    ensures log[i].at + ttl <= log[j].at
    decreases j
  {
    if k :| i < k < j && log[k].Granted? {
      LeaseExclusion(log, ttl, i, k, h, log[k].holder);
    } else {
      RowAfterGrant(log, ttl, i, j, h);
      assert Admissible(log[..j], ttl, log[j]);
    }
  }

  // ------------------------------------------------------------------ the workers

  /** Where a worker is inside its tick. */
  datatype Pc = Idle | Acquiring | Beating | Gating | Sweeping

  /** leading may be stale; beat is the log position of this tick's refresh. */
  datatype Worker = Worker(leading: bool, lastSweepAt: Option<Time>, pc: Pc, beat: nat)

  datatype Config = Config(ttl: Time, interval: Time)

  datatype Sys = Sys(row: Option<Row>, now: Time, workers: map<Id, Worker>, log: seq<Entry>)

  datatype Event =
    | Tick(to: Time)
    | Boot(h: Id)
    | Wake(h: Id)
    | Acquire(h: Id, outcome: Outcome)
    | Beat(h: Id, outcome: Outcome)
    | Gate(h: Id)
    | Sweep(h: Id)
    | Stop(h: Id, outcome: Outcome)
    | Crash(h: Id)

  predicate AtPc(s: Sys, h: Id, pc: Pc) {
    h in s.workers && s.workers[h].pc == pc
  }

  predicate Enabled(s: Sys, e: Event) {
    match e
    case Tick(to) => s.now <= to
    case Boot(h) => h !in s.workers
    case Wake(h) => AtPc(s, h, Idle)
    case Acquire(h, _) => AtPc(s, h, Acquiring)
    case Beat(h, _) => AtPc(s, h, Beating)
    case Gate(h) => AtPc(s, h, Gating)
    case Sweep(h) => AtPc(s, h, Sweeping)
    case Stop(h, _) => (AtPc(s, h, Idle) || AtPc(s, h, Beating)) && s.workers[h].leading
    case Crash(h) => h in s.workers
  }

  function Set(s: Sys, h: Id, w: Worker): Sys {
    s.(workers := s.workers[h := w])
  }

  /** The first sweep is always due; later ones only when the interval has passed. */
  predicate Due(cfg: Config, w: Worker, now: Time) {
    w.lastSweepAt.None? || now - w.lastSweepAt.value >= cfg.interval
  }

  function Next(cfg: Config, s: Sys, e: Event): Sys
    requires Enabled(s, e)
  {
    match e
    case Tick(to) => s.(now := to)
    case Boot(h) => Set(s, h, Worker(false, None, Idle, 0))
    case Wake(h) => Set(s, h, s.workers[h].(pc := if s.workers[h].leading then Beating else Acquiring))
    case Acquire(h, outcome) =>
      var ok := !outcome.Failed? && CanAcquire(s.row, h, s.now);
      var leads := ok && outcome.Done?;
      var s' := Set(s, h, s.workers[h].(leading := leads, pc := if leads then Beating else Idle));
      if ok then s'.(row := TryAcquire(s.row, h, cfg.ttl, s.now), log := s.log + [Granted(h, s.now, false)]) else s'
    case Beat(h, outcome) =>
      var ok := !outcome.Failed? && CanRefresh(s.row, h, s.now);
      var leads := ok && outcome.Done?;
      var s' := Set(s, h, s.workers[h].(leading := leads, pc := if leads then Gating else Idle, beat := |s.log|));
      if ok then s'.(row := Refresh(s.row, h, cfg.ttl, s.now), log := s.log + [Granted(h, s.now, true)]) else s'
    case Gate(h) =>
      var w := s.workers[h];
      Set(s, h, if Due(cfg, w, s.now) then w.(lastSweepAt := Some(s.now), pc := Sweeping) else w.(pc := Idle))
    case Sweep(h) =>
      Set(s, h, s.workers[h].(pc := Idle)).(log := s.log + [Swept(h, s.now, s.workers[h].beat)])
    case Stop(h, outcome) =>
      var s' := Set(s, h, s.workers[h].(leading := false, pc := Idle));
      if !outcome.Failed? && s.row.Some? && s.row.value.holder == h then
        s'.(row := Release(s.row, h), log := s.log + [Released(h, s.now)])
      else s'
    case Crash(h) => s.(workers := s.workers - {h})
  }

  /** The refresh at position b opened a tick of h that is still open at the end of the log. */
  ghost predicate OpenTick(log: seq<Entry>, b: nat, h: Id) {
    GrantAt(log, b, h) && log[b].refresh && Quiet(log, b, |log|, h)
  }

  ghost predicate LogMatchesRow(cfg: Config, s: Sys) {
    && Legal(s.log, cfg.ttl)
    && (forall i | 0 <= i < |s.log| :: s.log[i].at <= s.now)
    && RowOf(s.log, cfg.ttl) == (if s.row.Some? then Some((s.row.value.holder, s.row.value.expiresAt)) else None)
  }

  ghost predicate TicksOpen(s: Sys) {
    forall h | h in s.workers && (s.workers[h].pc.Gating? || s.workers[h].pc.Sweeping?) ::
        OpenTick(s.log, s.workers[h].beat, h)
  }

  ghost predicate SweepsOpened(log: seq<Entry>) {
    forall j | 0 <= j < |log| && log[j].Swept? :: log[j].beat < j && OpenTick(log[..j], log[j].beat, log[j].holder)
  }

  ghost predicate Inv(cfg: Config, s: Sys) {
    LogMatchesRow(cfg, s) && TicksOpen(s) && SweepsOpened(s.log)
  }

  lemma LegalSnoc(log: seq<Entry>, ttl: Time, e: Entry)
    requires Legal(log, ttl) && Admissible(log, ttl, e)
    requires forall i | 0 <= i < |log| :: log[i].at <= e.at
    ensures Legal(log + [e], ttl)
  {
    var log' := log + [e];
    forall j | 0 <= j < |log'| ensures Admissible(log'[..j], ttl, log'[j]) {
      assert log'[..j] == if j < |log| then log[..j] else log;
    }
  }

  /** What an appended entry leaves in the row. */
  lemma RowSnoc(log: seq<Entry>, ttl: Time, e: Entry)
    ensures RowOf(log + [e], ttl) ==
              match e
              case Granted(h, at, _) => Some((h, at + ttl))
              case Released(_, _) => None
              case Swept(_, _, _) => RowOf(log, ttl)
  {
    assert (log + [e])[..|log|] == log;
  }

  lemma LogSnoc(cfg: Config, s: Sys, s': Sys, x: Entry)
    requires LogMatchesRow(cfg, s) && Admissible(s.log, cfg.ttl, x) && x.at == s.now == s'.now && s'.log == s.log + [x]
    requires match x
             case Granted(h, at, _) => s'.row.Some? && s'.row.value.holder == h
                 && s'.row.value.expiresAt == at + cfg.ttl
             case Released(_, _) => s'.row == None
             case Swept(_, _, _) => s'.row == s.row
    ensures LogMatchesRow(cfg, s')
  {
    assert Legal(s'.log, cfg.ttl) by {
      LegalSnoc(s.log, cfg.ttl, x);
    }
    RowSnoc(s.log, cfg.ttl, x);
  }

  lemma StepLog(cfg: Config, s: Sys, e: Event)
    requires LogMatchesRow(cfg, s) && Enabled(s, e)
    ensures LogMatchesRow(cfg, Next(cfg, s, e))
  {
    var s' := Next(cfg, s, e);
    if s'.log != s.log {
      LogSnoc(cfg, s, s', s'.log[|s.log|]);
    }
  }

  /** An open tick stays open when another holder's event, or a sweep, is logged. */
  lemma OpenTickSnoc(log: seq<Entry>, b: nat, h: Id, e: Entry)
    requires OpenTick(log, b, h) && (e.Swept? || e.holder != h)
    ensures OpenTick(log + [e], b, h)
  {
  }

  lemma StepTicks(cfg: Config, s: Sys, e: Event)
    requires TicksOpen(s) && Enabled(s, e)
    ensures TicksOpen(Next(cfg, s, e))
  {
    var s' := Next(cfg, s, e);
    forall h | h in s'.workers && (s'.workers[h].pc.Gating? || s'.workers[h].pc.Sweeping?)
      ensures OpenTick(s'.log, s'.workers[h].beat, h)
    {
      if |s'.log| > |s.log| && !(e.Beat? && e.h == h) {
        OpenTickSnoc(s.log, s.workers[h].beat, h, s'.log[|s.log|]);
        assert s'.log == s.log + [s'.log[|s.log|]];
      }
    }
  }

  lemma StepSweeps(cfg: Config, s: Sys, e: Event)
    requires TicksOpen(s) && SweepsOpened(s.log) && Enabled(s, e)
    ensures SweepsOpened(Next(cfg, s, e).log)
  {
    var log' := Next(cfg, s, e).log;
    forall j | 0 <= j < |log'| && log'[j].Swept?
      ensures log'[j].beat < j && OpenTick(log'[..j], log'[j].beat, log'[j].holder)
    {
      assert log'[..j] == if j < |s.log| then s.log[..j] else s.log;
    }
  }

  lemma StepKeepsInv(cfg: Config, s: Sys, e: Event)
    requires Inv(cfg, s) && Enabled(s, e)
    ensures Inv(cfg, Next(cfg, s, e))
  {
    StepLog(cfg, s, e);
    StepTicks(cfg, s, e);
    StepSweeps(cfg, s, e);
  }

  ghost predicate ValidRun(cfg: Config, s: Sys, es: seq<Event>)
    decreases |es|
  {
    es == [] || (Enabled(s, es[0]) && ValidRun(cfg, Next(cfg, s, es[0]), es[1..]))
  }

  ghost function Exec(cfg: Config, s: Sys, es: seq<Event>): Sys
    requires ValidRun(cfg, s, es)
    decreases |es|
  {
    if es == [] then s else Exec(cfg, Next(cfg, s, es[0]), es[1..])
  }

  lemma {:induction false} RunKeepsInv(cfg: Config, s: Sys, es: seq<Event>)
    requires Inv(cfg, s) && ValidRun(cfg, s, es)
    ensures Inv(cfg, Exec(cfg, s, es))
    decreases |es|
  {
    if es != [] {
      StepKeepsInv(cfg, s, es[0]);
      RunKeepsInv(cfg, Next(cfg, s, es[0]), es[1..]);
    }
  }

  const EMPTY: Sys := Sys(None, 0, map[], [])

  /** A sweep that runs before the lease its tick refreshed has expired. */
  predicate Timely(log: seq<Entry>, ttl: Time, j: nat)
    requires j < |log| && log[j].Swept?
  {
    log[j].beat < |log| && log[j].at < log[log[j].beat].at + ttl
  }

  /**
   A worker sweeps only after a successful refresh of its own in that tick, and while the
   sweep is timely no other holder acquires or refreshes between the two.
   */
  lemma SweepIsCovered(cfg: Config, es: seq<Event>, j: nat, k: nat)
    requires ValidRun(cfg, EMPTY, es)
    requires j < |Exec(cfg, EMPTY, es).log| && Exec(cfg, EMPTY, es).log[j].Swept?
    ensures var log := Exec(cfg, EMPTY, es).log; var b := log[j].beat;
            && b < j && GrantAt(log, b, log[j].holder) && log[b].refresh
            && (b < k < j && Timely(log, cfg.ttl, j) ==> !log[k].Granted?)
  {
    RunKeepsInv(cfg, EMPTY, es);
    var log := Exec(cfg, EMPTY, es).log;
    OpenedBy(log, j);
    if log[j].beat < k < j && Timely(log, cfg.ttl, j) {
      NothingBetween(log, cfg.ttl, j, k);
    }
  }

  /** The tick of a sweep, seen from the whole log. */
  lemma OpenedBy(log: seq<Entry>, j: nat)
    requires SweepsOpened(log) && j < |log| && log[j].Swept?
    ensures var b, h := log[j].beat, log[j].holder; b < j && GrantAt(log, b, h) && log[b].refresh && Quiet(log, b, j, h)
  {
    var prefix, b, h := log[..j], log[j].beat, log[j].holder;
    assert OpenTick(prefix, b, h);
    assert forall k | 0 <= k < j :: prefix[k] == log[k];
  }

  lemma NothingBetween(log: seq<Entry>, ttl: Time, j: nat, k: nat)
    requires Legal(log, ttl) && SweepsOpened(log)
    requires j < |log| && log[j].Swept? && log[j].beat < k < j && Timely(log, ttl, j)
    ensures !log[k].Granted?
  {
    OpenedBy(log, j);
    if log[k].Granted? {
      var b, h := log[j].beat, log[j].holder;
      assert log[k].at <= log[j].at;
      assert Quiet(log, b, k, h);
      LeaseExclusion(log, ttl, b, k, h, log[k].holder);
    }
  }

  /**
   Sweep-level mutual exclusion, in every run: the refresh-to-sweep spans of two timely
   sweeps by different holders never overlap, however stale the leading flags are.
   */
  lemma SweepsExclusive(cfg: Config, es: seq<Event>, i: nat, j: nat)
    requires ValidRun(cfg, EMPTY, es)
    requires var log := Exec(cfg, EMPTY, es).log;
             && i < |log| && j < |log| && log[i].Swept? && log[j].Swept? && log[i].holder != log[j].holder
             && Timely(log, cfg.ttl, i) && Timely(log, cfg.ttl, j)
    ensures var log := Exec(cfg, EMPTY, es).log; i < log[j].beat || j < log[i].beat
  {
    var log := Exec(cfg, EMPTY, es).log;
    SweepIsCovered(cfg, es, i, log[j].beat);
    SweepIsCovered(cfg, es, j, log[i].beat);
  }

  lemma {:induction false} Extend(cfg: Config, s: Sys, es: seq<Event>, e: Event)
    requires ValidRun(cfg, s, es) && Enabled(Exec(cfg, s, es), e)
    ensures ValidRun(cfg, s, es + [e])
    ensures Exec(cfg, s, es + [e]) == Next(cfg, Exec(cfg, s, es), e)
    decreases |es|
  {
    if es == [] {
      assert [] + [e] == [e];
    } else {
      assert (es + [e])[1..] == es[1..] + [e];
      Extend(cfg, Next(cfg, s, es[0]), es[1..], e);
    }
  }

  lemma Then(cfg: Config, s: Sys, es: seq<Event>, e: Event) returns (es': seq<Event>)
    requires ValidRun(cfg, s, es) && Enabled(Exec(cfg, s, es), e)
    ensures ValidRun(cfg, s, es') && Exec(cfg, s, es') == Next(cfg, Exec(cfg, s, es), e)
  {
    Extend(cfg, s, es, e);
    es' := es + [e];
  }

  /** Every sweep comes at most d after the refresh that opened its tick. */
  predicate SweepsWithin(log: seq<Entry>, d: Time) {
    forall j | 0 <= j < |log| && log[j].Swept? :: log[j].beat < |log| && log[j].at <= log[log[j].beat].at + d
  }

  /** Positions i and j hold sweeps of different holders. */
  predicate Rivals(log: seq<Entry>, i: nat, j: nat) {
    i < |log| && j < |log| && log[i].Swept? && log[j].Swept? && log[i].holder != log[j].holder
  }

  /** The refresh-to-sweep spans of different holders never overlap. */
  ghost predicate Exclusive(log: seq<Entry>) {
    forall i: nat, j: nat | Rivals(log, i, j) :: i < log[j].beat || j < log[i].beat
  }

  /**
   When worker 1 stalls for the TTL between its refresh and its sweep, worker 2 takes the
   lease, both believe they lead and both are about to sweep.
   */
  lemma StalledTicksOverlap(cfg: Config, stall: Time) returns (es: seq<Event>)
    requires 0 < cfg.ttl <= stall
    ensures ValidRun(cfg, EMPTY, es)
    ensures var s := Exec(cfg, EMPTY, es);
            && (forall h | h in {1, 2} :: AtPc(s, h, Sweeping) && s.workers[h].leading)
            && s.now == stall && 1 in s.workers && 2 in s.workers && s.workers[1].beat == 1 && s.workers[2].beat == 3
            && s.log == [Granted(1, 0, false), Granted(1, 0, true), Granted(2, stall, false), Granted(2, stall, true)]
  {
    es := [];
    es := Then(cfg, EMPTY, es, Boot(1));
    es := Then(cfg, EMPTY, es, Boot(2));
    es := Then(cfg, EMPTY, es, Wake(1));
    es := Then(cfg, EMPTY, es, Acquire(1, Done));
    es := Then(cfg, EMPTY, es, Beat(1, Done));
    es := Then(cfg, EMPTY, es, Gate(1));
    es := Then(cfg, EMPTY, es, Tick(stall));
    es := Then(cfg, EMPTY, es, Wake(2));
    es := Then(cfg, EMPTY, es, Acquire(2, Done));
    es := Then(cfg, EMPTY, es, Beat(2, Done));
    es := Then(cfg, EMPTY, es, Gate(2));
  }

  /** Both then sweep, each within the stall of its refresh, and the two spans overlap. */
  lemma StalledSweepsOverlap(cfg: Config, stall: Time) returns (es: seq<Event>)
    requires 0 < cfg.ttl <= stall
    ensures ValidRun(cfg, EMPTY, es)
    ensures SweepsWithin(Exec(cfg, EMPTY, es).log, stall) && !Exclusive(Exec(cfg, EMPTY, es).log)
  {
    es := StalledTicksOverlap(cfg, stall);
    ghost var before := Exec(cfg, EMPTY, es).log;
    es := Then(cfg, EMPTY, es, Sweep(1));
    es := Then(cfg, EMPTY, es, Sweep(2));
    var log := Exec(cfg, EMPTY, es).log;
    assert log == before + [Swept(1, stall, 1)] + [Swept(2, stall, 3)];
    assert Rivals(log, 4, 5);
  }

  lemma WithinIsTimely(log: seq<Entry>, ttl: Time, d: Time, j: nat)
    requires d < ttl && SweepsWithin(log, d) && j < |log| && log[j].Swept?
    ensures Timely(log, ttl, j)
  {
  }

  lemma PromptSweepsExclusive(cfg: Config, es: seq<Event>, d: Time)
    requires d < cfg.ttl && ValidRun(cfg, EMPTY, es) && SweepsWithin(Exec(cfg, EMPTY, es).log, d)
    ensures Exclusive(Exec(cfg, EMPTY, es).log)
  {
    var log := Exec(cfg, EMPTY, es).log;
    forall i: nat, j: nat | Rivals(log, i, j) ensures i < log[j].beat || j < log[i].beat {
      WithinIsTimely(log, cfg.ttl, d, i);
      WithinIsTimely(log, cfg.ttl, d, j);
      SweepsExclusive(cfg, es, i, j);
    }
  }

  /** Sweeps that come at most d after the refresh of their tick are exclusive in every run. */
  ghost predicate AlwaysExclusive(cfg: Config, d: Time) {
    forall es | ValidRun(cfg, EMPTY, es) && SweepsWithin(Exec(cfg, EMPTY, es).log, d) ::
      Exclusive(Exec(cfg, EMPTY, es).log)
  }

  /** That is so exactly when d is below the TTL. */
  lemma SweepsExclusiveIff(cfg: Config, d: Time)
    requires 0 < cfg.ttl
    ensures AlwaysExclusive(cfg, d) <==> d < cfg.ttl
  {
    if d < cfg.ttl {
      forall es | ValidRun(cfg, EMPTY, es) && SweepsWithin(Exec(cfg, EMPTY, es).log, d)
        ensures Exclusive(Exec(cfg, EMPTY, es).log)
      {
        PromptSweepsExclusive(cfg, es, d);
      }
    } else {
      var es := StalledSweepsOverlap(cfg, d);
      assert ValidRun(cfg, EMPTY, es);
    }
  }
}
