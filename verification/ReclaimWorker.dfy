/**
 The reclaim worker: its tick as a method on the shared database, and the timing of one
 punctual leader among competing replicas and approval traffic.
 */
module ReclaimWorker {
  import opened Basics
  import opened Tables
  import L = Lease

  datatype Config = Config(holder: Id, leaseTTL: Time, heartbeatInterval: Time, reclaimInterval: Time,
      reservationTTL: Time)

  /** The part of the database the worker touches, with its clock. */
  datatype World = World(row: Option<L.Row>, codes: map<Id, Code>, now: Time)

  /** The worker's fields; lastReclaimAt is None before the first sweep (the zero time). */
  datatype Flags = Flags(leading: bool, lastReclaimAt: Option<Time>)

  /** How the three calls of a tick go. */
  datatype Calls = Calls(acquire: L.Outcome, refresh: L.Outcome, reclaim: L.Outcome)

  function TickPeriod(cfg: Config): Time {
    if cfg.heartbeatInterval <= 0 then cfg.reclaimInterval else cfg.heartbeatInterval
  }

  predicate SweepDue(cfg: Config, f: Flags, now: Time) {
    f.lastReclaimAt.None? || now - f.lastReclaimAt.value >= cfg.reclaimInterval
  }

  function AfterAcquire(cfg: Config, w: World, f: Flags, outcome: L.Outcome): (World, Flags) {
    var took := !outcome.Failed? && L.CanAcquire(w.row, cfg.holder, w.now);
    (if took then w.(row := L.TryAcquire(w.row, cfg.holder, cfg.leaseTTL, w.now)) else w,
     f.(leading := took && outcome.Done?))
  }

  function AfterHeartbeat(cfg: Config, w: World, f: Flags, outcome: L.Outcome): (World, Flags) {
    var kept := !outcome.Failed? && L.CanRefresh(w.row, cfg.holder, w.now);
    (if kept then w.(row := L.Refresh(w.row, cfg.holder, cfg.leaseTTL, w.now)) else w,
     if kept && outcome.Done? then f else f.(leading := false))
  }

  function AfterSweep(cfg: Config, w: World, f: Flags, outcome: L.Outcome): (World, Flags) {
    (if outcome.Failed? then w else w.(codes := ReclaimAll(w.codes, w.now, cfg.reservationTTL)),
     f.(lastReclaimAt := Some(w.now)))
  }

  /** One tick as the composition of its calls. */
  function TickSpec(cfg: Config, w: World, f: Flags, calls: Calls): (World, Flags) {
    var a := if f.leading then (w, f) else AfterAcquire(cfg, w, f, calls.acquire);
    if !a.1.leading then a else
      var b := AfterHeartbeat(cfg, a.0, a.1, calls.refresh);
      if !b.1.leading || !SweepDue(cfg, b.1, b.0.now) then b else AfterSweep(cfg, b.0, b.1, calls.reclaim)
  }

  /** The ticker runs at the heartbeat interval, or at the reclaim interval when that is not positive. */
  lemma TickPeriodMeaning(cfg: Config)
    ensures cfg.heartbeatInterval > 0 ==> TickPeriod(cfg) == cfg.heartbeatInterval
    ensures cfg.heartbeatInterval <= 0 ==> TickPeriod(cfg) == cfg.reclaimInterval
  {
  }

  /**
   A tick, in the columns. A worker that does not lead tries to take the row and stops unless
   told it did; one that leads refreshes the row and stops unless told it did; then, the first
   time or when the interval has passed, it notes the time and releases the stale reservations.
   Nothing else is touched.
   */
  lemma TickMeaning(cfg: Config, w: World, f: Flags, calls: Calls)
    ensures var (w', f') := TickSpec(cfg, w, f, calls);
            var takes := !f.leading && calls.acquire != L.Failed &&
              (w.row == None || w.row.value.expiresAt <= w.now || w.row.value.holder == cfg.holder);
            var row1 := if takes then Some(L.Row(cfg.holder, w.now, w.now + cfg.leaseTTL)) else w.row;
            var leads1 := f.leading || (takes && calls.acquire == L.Done);
            var beats := leads1 && calls.refresh != L.Failed && row1 != None && row1.value.holder == cfg.holder
                && row1.value.expiresAt > w.now;
            var leads2 := beats && calls.refresh == L.Done;
            var sweeps := leads2 && (f.lastReclaimAt == None || w.now - f.lastReclaimAt.value >= cfg.reclaimInterval);
            && w'.now == w.now
            && w'.row == (if beats then Some(L.Row(cfg.holder, row1.value.acquiredAt, w.now + cfg.leaseTTL)) else row1)
            && f' == Flags(leads2, if sweeps then Some(w.now) else f.lastReclaimAt)
            && w'.codes.Keys == w.codes.Keys
            && (!sweeps || calls.reclaim == L.Failed ==> w'.codes == w.codes)
            && (sweeps && calls.reclaim != L.Failed ==>
                  forall c | c in w.codes ::
                    w'.codes[c] == if w.codes[c].state == Reserved && w.codes[c].reservedAt.Some?
                                      && w.codes[c].reservedAt.value < w.now - cfg.reservationTTL
                                   then w.codes[c].(state := Unused, reservedBy := None, reservedAt := None)
                                       else w.codes[c])
  {
  }

  /** The shared database; each method is one statement. */
  class Database {
    var row: Option<L.Row>
    var codes: map<Id, Code>
    var now: Time

    function Abs(): World
      reads this
    {
      World(row, codes, now)
    }

    /** Returns whether the caller is told it holds the lease. */
    method TryAcquire(holder: Id, ttl: Time, outcome: L.Outcome) returns (ok: bool)
      modifies this`row
      ensures ok <==> outcome.Done? && L.CanAcquire(old(row), holder, now)
      ensures row == if outcome.Failed? then old(row) else L.TryAcquire(old(row), holder, ttl, now)
    {
      if outcome.Failed? || !(row.None? || row.value.expiresAt <= now || row.value.holder == holder) {
        return false;
      }
      row := Some(L.Row(holder, now, now + ttl));
      return outcome.Done?;
    }

    method Refresh(holder: Id, ttl: Time, outcome: L.Outcome) returns (ok: bool)
      modifies this`row
      ensures ok <==> outcome.Done? && L.CanRefresh(old(row), holder, now)
      ensures row == if outcome.Failed? then old(row) else L.Refresh(old(row), holder, ttl, now)
    {
      if outcome.Failed? || row.None? || row.value.holder != holder || row.value.expiresAt <= now {
        return false;
      }
      row := Some(row.value.(expiresAt := now + ttl));
      return outcome.Done?;
    }

    method Release(holder: Id, outcome: L.Outcome)
      modifies this`row
      ensures row == if outcome.Failed? then old(row) else L.Release(old(row), holder)
    {
      if !outcome.Failed? && row.Some? && row.value.holder == holder {
        row := None;
      }
    }

    method Reclaim(ttl: Time, outcome: L.Outcome)
      modifies this`codes
      ensures codes == if outcome.Failed? then old(codes) else ReclaimAll(old(codes), now, ttl)
    {
      if !outcome.Failed? {
        codes := ReclaimAll(codes, now, ttl);
      }
    }
  }

  class Worker {
    const cfg: Config
    const db: Database
    var leading: bool
    var lastReclaimAt: Option<Time>

    constructor (cfg: Config, db: Database)
      ensures this.cfg == cfg && this.db == db && Abs() == Flags(false, None)
    {
      this.cfg, this.db, leading, lastReclaimAt := cfg, db, false, None;
    }

    function Abs(): Flags
      reads this
    {
      Flags(leading, lastReclaimAt)
    }

    method TryAcquire(outcome: L.Outcome)
      modifies this`leading, db`row
      ensures (db.Abs(), Abs()) == AfterAcquire(cfg, old(db.Abs()), old(Abs()), outcome)
    {
      leading := db.TryAcquire(cfg.holder, cfg.leaseTTL, outcome);
    }

    method Heartbeat(outcome: L.Outcome) returns (ok: bool)
      modifies this`leading, db`row
      ensures (db.Abs(), Abs()) == AfterHeartbeat(cfg, old(db.Abs()), old(Abs()), outcome)
      ensures ok <==> outcome.Done? && L.CanRefresh(old(db.row), cfg.holder, db.now)
    {
      ok := db.Refresh(cfg.holder, cfg.leaseTTL, outcome);
      if !ok {
        leading := false;
      }
    }

    method ReleaseIfLeading(outcome: L.Outcome)
      modifies this`leading, db`row
      ensures !leading && lastReclaimAt == old(lastReclaimAt)
      ensures db.row == if old(leading) && !outcome.Failed? then L.Release(old(db.row), cfg.holder) else old(db.row)
    {
      if !leading {
        return;
      }
      db.Release(cfg.holder, outcome);
      leading := false;
    }

    method Tick(calls: Calls)
      modifies this, db`row, db`codes
      ensures (db.Abs(), Abs()) == TickSpec(cfg, old(db.Abs()), old(Abs()), calls)
    {
      if !leading {
        TryAcquire(calls.acquire);
        if !leading {
          return;
        }
      }
      var ok := Heartbeat(calls.refresh);
      if !ok {
        return;
      }
      var now := db.now;
      if lastReclaimAt.Some? && now - lastReclaimAt.value < cfg.reclaimInterval {
        return;
      }
      lastReclaimAt := Some(now);
      db.Reclaim(cfg.reservationTTL, calls.reclaim);
    }
  }

  /** An uninterrupted tick is a run of the interleaved worker machine. */
  lemma TickIsARun(cfg: Config, s: L.Sys, w: World, f: Flags, calls: Calls) returns (es: seq<L.Event>)
    requires w.row == s.row && w.now == s.now
    requires L.AtPc(s, cfg.holder, L.Idle)
    requires s.workers[cfg.holder].leading == f.leading && s.workers[cfg.holder].lastSweepAt == f.lastReclaimAt
    ensures var lc := L.Config(cfg.leaseTTL, cfg.reclaimInterval);
            L.ValidRun(lc, s, es)
            && var s' := L.Exec(lc, s, es);
               var t := TickSpec(cfg, w, f, calls);
               && s'.row == t.0.row && s'.now == s.now
               && L.AtPc(s', cfg.holder, L.Idle)
               && s'.workers[cfg.holder].leading == t.1.leading
               && s'.workers[cfg.holder].lastSweepAt == t.1.lastReclaimAt
  {
    var lc, h := L.Config(cfg.leaseTTL, cfg.reclaimInterval), cfg.holder;
    es := L.Then(lc, s, [], L.Wake(h));
    if !f.leading {
      es := L.Then(lc, s, es, L.Acquire(h, calls.acquire));
    }
    if L.AtPc(L.Exec(lc, s, es), h, L.Beating) {
      es := BeatIsARun(lc, s, es, h, calls.refresh);
    }
  }

  /** The heartbeat and the gated sweep as steps, from a worker about to beat. */
  lemma BeatIsARun(lc: L.Config, s: L.Sys, es: seq<L.Event>, h: Id, refresh: L.Outcome) returns (es': seq<L.Event>)
    requires L.ValidRun(lc, s, es) && L.AtPc(L.Exec(lc, s, es), h, L.Beating)
    ensures L.ValidRun(lc, s, es')
    ensures var s1, s2 := L.Exec(lc, s, es), L.Exec(lc, s, es');
            && var kept := !refresh.Failed? && L.CanRefresh(s1.row, h, s1.now);
            && L.AtPc(s2, h, L.Idle) && s2.now == s1.now
            && s2.row == (if kept then L.Refresh(s1.row, h, lc.ttl, s1.now) else s1.row)
            && s2.workers[h].leading == (kept && refresh.Done?)
            && s2.workers[h].lastSweepAt ==
                 if kept && refresh.Done? && L.Due(lc, s1.workers[h], s1.now) then Some(s1.now)
                     else s1.workers[h].lastSweepAt
  {
    es' := L.Then(lc, s, es, L.Beat(h, refresh));
    if L.AtPc(L.Exec(lc, s, es'), h, L.Gating) {
      es' := L.Then(lc, s, es', L.Gate(h));
      if L.AtPc(L.Exec(lc, s, es'), h, L.Sweeping) {
        es' := L.Then(lc, s, es', L.Sweep(h));
      }
    }
  }

  // ------------------------------------------------------------------ one punctual leader

  datatype Sys = Sys(w: World, f: Flags, lastTick: Time)

  datatype Event =
    | Pass(to: Time)
    | OtherAcquire(h: Id)
    | OtherRefresh(h: Id)
    | OtherRelease(h: Id)
    | Reserve(c: Id, user: Id)
    | Finalize(c: Id, user: Id, token: Time)
    | LeaderTick

  const ALL_DONE: Calls := Calls(L.Done, L.Done, L.Done)

  /** Time never passes the moment by which the leader has ticked again: at most gap after its last tick. */
  predicate Enabled(cfg: Config, gap: Time, s: Sys, e: Event) {
    match e
    case Pass(to) => s.w.now <= to <= s.lastTick + gap
    case OtherAcquire(h) => h != cfg.holder
    case OtherRefresh(h) => h != cfg.holder
    case OtherRelease(h) => h != cfg.holder
    case Reserve(c, _) => c in s.w.codes && s.w.codes[c].state.Unused?
    case Finalize(c, user, token) => c in s.w.codes && FenceHolds(s.w.codes[c], user, token)
    case LeaderTick => true
  }

  function Next(cfg: Config, gap: Time, s: Sys, e: Event): Sys
    requires Enabled(cfg, gap, s, e)
  {
    var w := s.w;
    match e
    case Pass(to) => s.(w := w.(now := to))
    case OtherAcquire(h) => s.(w := w.(row := L.TryAcquire(w.row, h, cfg.leaseTTL, w.now)))
    case OtherRefresh(h) => s.(w := w.(row := L.Refresh(w.row, h, cfg.leaseTTL, w.now)))
    case OtherRelease(h) => s.(w := w.(row := L.Release(w.row, h)))
    case Reserve(c, user) => s.(w := w.(codes := w.codes[c := ReserveRow(w.codes[c], user, w.now)]))
    case Finalize(c, user, token) => s.(w := w.(codes := w.codes[c := GrantRow(w.codes[c], w.now)]))
    case LeaderTick =>
      var t := TickSpec(cfg, w, s.f, ALL_DONE);
      Sys(t.0, t.1, w.now)
  }

  ghost predicate ValidRun(cfg: Config, gap: Time, s: Sys, es: seq<Event>)
    decreases |es|
  {
    es == [] || (Enabled(cfg, gap, s, es[0]) && ValidRun(cfg, gap, Next(cfg, gap, s, es[0]), es[1..]))
  }

  ghost function Exec(cfg: Config, gap: Time, s: Sys, es: seq<Event>): Sys
    requires ValidRun(cfg, gap, s, es)
    decreases |es|
  {
    if es == [] then s else Exec(cfg, gap, Next(cfg, gap, s, es[0]), es[1..])
  }

  /** Ticks come within gap, which covers the ticker's period, and the lease outlives a gap. */
  predicate Punctual(cfg: Config, gap: Time) {
    0 < TickPeriod(cfg) <= gap < cfg.leaseTTL && 0 < cfg.reclaimInterval && 0 <= cfg.reservationTTL
  }

  predicate HoldsLease(cfg: Config, s: Sys) {
    s.f.leading && s.w.row.Some? && s.w.row.value.holder == cfg.holder
        && s.w.row.value.expiresAt == s.lastTick + cfg.leaseTTL
  }

  /** The leader has just acquired the lease; reserved rows carry a reserved_at. */
  ghost predicate Started(cfg: Config, s: Sys) {
    && HoldsLease(cfg, s) && s.lastTick == s.w.now && s.f.lastReclaimAt == None
    && (forall c | c in s.w.codes && s.w.codes[c].state.Reserved? :: s.w.codes[c].reservedAt.Some?)
  }

  ghost predicate Inv(cfg: Config, gap: Time, s: Sys) {
    && HoldsLease(cfg, s)
    && s.lastTick <= s.w.now <= s.lastTick + gap
    && (s.f.lastReclaimAt.Some? ==>
         s.f.lastReclaimAt.value <= s.lastTick < s.f.lastReclaimAt.value + cfg.reclaimInterval)
    && (forall c | c in s.w.codes && s.w.codes[c].state.Reserved? ::
          && s.w.codes[c].reservedAt.Some?
          && (s.f.lastReclaimAt.Some? ==>
               s.f.lastReclaimAt.value - cfg.reservationTTL <= s.w.codes[c].reservedAt.value))
  }

  lemma StepKeepsInv(cfg: Config, gap: Time, s: Sys, e: Event)
    requires Punctual(cfg, gap) && Inv(cfg, gap, s) && Enabled(cfg, gap, s, e)
    ensures Inv(cfg, gap, Next(cfg, gap, s, e))
  {
  }

  lemma {:induction false} RunKeepsInv(cfg: Config, gap: Time, s: Sys, es: seq<Event>)
    requires Punctual(cfg, gap) && Inv(cfg, gap, s) && ValidRun(cfg, gap, s, es)
    ensures Inv(cfg, gap, Exec(cfg, gap, s, es))
    decreases |es|
  {
    if es != [] {
      StepKeepsInv(cfg, gap, s, es[0]);
      RunKeepsInv(cfg, gap, Next(cfg, gap, s, es[0]), es[1..]);
    }
  }

  /** A punctual leader never loses the lease: no competing statement has any effect on it. */
  lemma LeaseNeverLost(cfg: Config, gap: Time, s: Sys, es: seq<Event>, h: Id)
    requires Punctual(cfg, gap) && Started(cfg, s) && ValidRun(cfg, gap, s, es) && h != cfg.holder
    ensures var s' := Exec(cfg, gap, s, es);
            && HoldsLease(cfg, s')
            && L.CanRefresh(s'.w.row, cfg.holder, s'.w.now)
            && !L.CanAcquire(s'.w.row, h, s'.w.now) && !L.CanRefresh(s'.w.row, h, s'.w.now)
            && L.Release(s'.w.row, h) == s'.w.row
  {
    RunKeepsInv(cfg, gap, s, es);
  }

  /**
   Past the TTL the lease can be lost: a leader that lets a whole TTL pass between two ticks
   has a run in which a rival takes the row.
   */
  lemma RivalTakesOver(cfg: Config, gap: Time, s: Sys, h: Id) returns (es: seq<Event>)
    requires Started(cfg, s) && 0 < cfg.leaseTTL <= gap && h != cfg.holder
    ensures ValidRun(cfg, gap, s, es) && !HoldsLease(cfg, Exec(cfg, gap, s, es))
    ensures Exec(cfg, gap, s, es).w.row.Some? && Exec(cfg, gap, s, es).w.row.value.holder == h
  {
    var late, take := Pass(s.lastTick + cfg.leaseTTL), OtherAcquire(h);
    es := [late, take];
    var s1 := Next(cfg, gap, s, late);
    var s2 := Next(cfg, gap, s1, take);
    assert es[1..] == [take] && es[1..][1..] == [];
    assert ValidRun(cfg, gap, s2, []) && Exec(cfg, gap, s2, []) == s2;
    assert ValidRun(cfg, gap, s1, [take]) && Exec(cfg, gap, s1, [take]) == s2;
  }

  ghost predicate AlwaysKeepsLease(cfg: Config, gap: Time, s: Sys) {
    forall es | ValidRun(cfg, gap, s, es) :: HoldsLease(cfg, Exec(cfg, gap, s, es))
  }

  /** The lease is kept over every run exactly when the time between ticks stays below the TTL. */
  lemma LeaseKeptIff(cfg: Config, gap: Time, s: Sys)
    requires Started(cfg, s) && 0 < TickPeriod(cfg) <= gap
    requires 0 < cfg.leaseTTL && 0 < cfg.reclaimInterval && 0 <= cfg.reservationTTL
    ensures AlwaysKeepsLease(cfg, gap, s) <==> gap < cfg.leaseTTL
  {
    if gap < cfg.leaseTTL {
      forall es | ValidRun(cfg, gap, s, es) ensures HoldsLease(cfg, Exec(cfg, gap, s, es)) {
        RunKeepsInv(cfg, gap, s, es);
      }
    } else {
      var es := RivalTakesOver(cfg, gap, s, cfg.holder + 1);
      assert ValidRun(cfg, gap, s, es);
    }
  }

  /** The stock settings in seconds, with the heartbeat given. */
  function Settings(heartbeat: Time): Config {
    Config(1, 30, heartbeat, 30, 60)
  }

  /** A leader that has just booted on an empty database. */
  const BOOTED: Sys := Sys(World(Some(L.Row(1, 0, 30)), map[], 0), Flags(true, None), 0)

  /**
   The stock settings: the default heartbeat of 10 s keeps the lease with any delay under 20 s,
   while a heartbeat of 0 or less falls back to the 30 s interval, which is the TTL, and even a
   leader whose every tick is on time can lose it.
   */
  lemma StockSettings(delay: Time, heartbeat: Time)
    requires 0 <= delay && heartbeat <= 0
    ensures AlwaysKeepsLease(Settings(10), 10 + delay, BOOTED) <==> delay < 20
    ensures TickPeriod(Settings(heartbeat)) == 30
    ensures !AlwaysKeepsLease(Settings(heartbeat), 30, BOOTED)
  {
    LeaseKeptIff(Settings(10), 10 + delay, BOOTED);
    LeaseKeptIff(Settings(heartbeat), 30, BOOTED);
  }

  /** Consecutive sweeps are at least the interval and less than interval plus gap apart. */
  lemma SweepCadence(cfg: Config, gap: Time, s: Sys, es: seq<Event>)
    requires Punctual(cfg, gap) && Started(cfg, s) && ValidRun(cfg, gap, s, es)
    ensures var s1 := Exec(cfg, gap, s, es); var s2 := Next(cfg, gap, s1, LeaderTick);
            && s2.f.lastReclaimAt.Some?
            && (s1.f.lastReclaimAt.Some? && s2.f.lastReclaimAt != s1.f.lastReclaimAt ==>
                  var apart := s2.f.lastReclaimAt.value - s1.f.lastReclaimAt.value;
                  cfg.reclaimInterval <= apart < cfg.reclaimInterval + gap)
  {
    RunKeepsInv(cfg, gap, s, es);
  }

  /**
   Stranded reservations: once the leader has swept, at no moment of any run is a row still
   RESERVED at reserved_at + ReservationTTL + ReclaimInterval + gap or later.
   */
  lemma StrandedBound(cfg: Config, gap: Time, s: Sys, es: seq<Event>, c: Id)
    requires Punctual(cfg, gap) && Started(cfg, s) && ValidRun(cfg, gap, s, es)
    requires var s' := Exec(cfg, gap, s, es);
             s'.f.lastReclaimAt.Some? && c in s'.w.codes && s'.w.codes[c].state.Reserved?
    ensures var s' := Exec(cfg, gap, s, es);
            && s'.w.codes[c].reservedAt.Some?
            && s'.w.now < s'.w.codes[c].reservedAt.value + cfg.reservationTTL + cfg.reclaimInterval + gap
  {
    RunKeepsInv(cfg, gap, s, es);
  }
}
