/**
 The circuit breaker of the DM queue as functions on its two fields, and what they mean for
 the log of sends: the pruned window is a filter of the failures, the breaker trips on the
 fiftieth of them within the window, and the rate of failed sends is bounded.
 */
module Breaker {
  import opened Basics

  const SECOND: Time := 1_000_000_000
  const TRIP_COUNT: nat := 50
  const TRIP_WINDOW: Time := 60 * SECOND
  const OPEN_DURATION: Time := 300 * SECOND

  /** The fields guarded by the mutex; openAt is 0, the zero time, while closed. */
  datatype State = State(window: seq<Time>, openAt: Time)

  /** The elements after cutoff, in order. */
  function Recent(ts: seq<Time>, cutoff: Time): (r: seq<Time>)
    ensures |r| <= |ts|
  {
    if ts == [] then [] else
      var last := |ts| - 1;
      if ts[last] > cutoff then Recent(ts[..last], cutoff) + [ts[last]] else Recent(ts[..last], cutoff)
  }

  predicate StillOpen(b: State, now: Time) {
    b.openAt != 0 && now - b.openAt < OPEN_DURATION
  }

  predicate Closes(b: State, now: Time) {
    b.openAt != 0 && now - b.openAt >= OPEN_DURATION
  }

  /** transitionCircuitClosedIfElapsed. */
  function AfterCheck(b: State, now: Time): State {
    if Closes(b, now) then State([], 0) else b
  }

  predicate Trips(b: State, now: Time) {
    |Recent(b.window, now - TRIP_WINDOW)| + 1 >= TRIP_COUNT && b.openAt == 0
  }

  /** transitionCircuitOpenedIfThresholdReached. */
  function AfterFailure(b: State, now: Time): State {
    State(Recent(b.window, now - TRIP_WINDOW) + [now], if Trips(b, now) then now else b.openAt)
  }

  /** resetFailures. */
  function AfterSuccess(b: State): State {
    b.(window := [])
  }

  /** One job: whether it has a recipient, whether its send works, and the clock readings it causes. */
  datatype Attempt = Attempt(recipient: bool, check: Time, closed: Time, ok: bool, record: Time)

  datatype Entry =
    | Send(at: Time)
    | Sent(at: Time)
    | Failed(at: Time)
    | Opened(at: Time)
    | Closed(at: Time)

  /** The entries up to the start of the send. */
  function StartEntries(b: State, a: Attempt): seq<Entry> {
    (if Closes(b, a.check) then [Closed(a.closed)] else []) + [Send(a.closed)]
  }

  function FinishEntries(b: State, a: Attempt): seq<Entry> {
    if a.ok then [Sent(a.record)] else [Failed(a.record)] + if Trips(b, a.record) then [Opened(a.record)] else []
  }

  function AfterSend(b: State, a: Attempt): State {
    if a.ok then AfterSuccess(b) else AfterFailure(b, a.record)
  }

  predicate Skipped(b: State, a: Attempt) {
    !a.recipient || StillOpen(b, a.check)
  }

  /** What a job does to the breaker, and the entries it logs. */
  function Process(b: State, a: Attempt): (State, seq<Entry>) {
    if Skipped(b, a) then (b, []) else
      var b1 := AfterCheck(b, a.check);
      (AfterSend(b1, a), StartEntries(b, a) + FinishEntries(b1, a))
  }

  /** The clock never goes back and is past the zero time. */
  predicate Ordered(now: Time, a: Attempt) {
    0 < now <= a.check <= a.closed <= a.record
  }

  // ------------------------------------------------------------------ reading the log

  /** Failures since the last success or close of the breaker. */
  function Fails(log: seq<Entry>): seq<Time> {
    if log == [] then [] else
      var init := log[..|log| - 1];
      match log[|log| - 1]
      case Sent(_) => []
      case Closed(_) => []
      case Failed(t) => Fails(init) + [t]
      case _ => Fails(init)
  }

  /** When the breaker opened, or 0 when it is closed. */
  function OpenSince(log: seq<Entry>): Time {
    if log == [] then 0 else
      match log[|log| - 1]
      case Opened(t) => t
      case Closed(_) => 0
      case _ => OpenSince(log[..|log| - 1])
  }

  /** The times still inside the window at the last of them. */
  function WindowOf(f: seq<Time>): seq<Time> {
    if f == [] then [] else Recent(f, f[|f| - 1] - TRIP_WINDOW)
  }

  function InWindow(log: seq<Entry>): seq<Time> {
    WindowOf(Fails(log))
  }

  /** The log ends with the failure that fills the window. */
  predicate Tripping(log: seq<Entry>) {
    log != [] && log[|log| - 1].Failed? && |InWindow(log)| == TRIP_COUNT
  }

  predicate EndsOpened(log: seq<Entry>) {
    log != [] && log[|log| - 1].Opened?
  }

  /**
   The rules of the log: an opening follows exactly the failure that fills the window, a
   close follows exactly an opening, at least OPEN_DURATION later, and sends happen only
   while the breaker is closed.
   */
  predicate Follows(log: seq<Entry>, e: Entry) {
    && (e.Opened? <==> Tripping(log))
    && (e.Closed? <==> EndsOpened(log))
    && match e
       case Opened(t) => OpenSince(log) == 0 && t == log[|log| - 1].at
       case Closed(t) => t >= log[|log| - 1].at + OPEN_DURATION
       case Failed(t) => OpenSince(log) == 0 && log != [] && log[|log| - 1].Send? && |InWindow(log + [e])| <= TRIP_COUNT
       case Sent(t) => OpenSince(log) == 0 && log != [] && log[|log| - 1].Send?
       case Send(t) => OpenSince(log) == 0
  }

  ghost predicate LogOk(log: seq<Entry>) {
    && (forall j | 0 <= j < |log| :: Follows(log[..j], log[j]))
    && (forall i, j | 0 <= i < j < |log| :: log[i].at <= log[j].at)
  }

  ghost predicate LogUpTo(log: seq<Entry>, now: Time) {
    LogOk(log) && forall i | 0 <= i < |log| :: 0 < log[i].at <= now
  }

  /** The fields of the breaker are those the log determines. */
  ghost predicate Matches(b: State, log: seq<Entry>) {
    && b.window == InWindow(log)
    && b.openAt == OpenSince(log)
    && !Tripping(log)
    && (b.openAt != 0 <==> EndsOpened(log))
    && (b.openAt == 0 ==> |b.window| < TRIP_COUNT)
    && (b.openAt != 0 ==> |b.window| == TRIP_COUNT && b.window[TRIP_COUNT - 1] == b.openAt)
  }

  ghost predicate Inv(b: State, log: seq<Entry>, now: Time) {
    LogUpTo(log, now) && Matches(b, log)
  }

  // ------------------------------------------------------------------ what the functions say

  /** Recent keeps each time after the cutoff as often as it occurs, and no other. */
  lemma {:induction false} RecentCounts(ts: seq<Time>, cutoff: Time, t: Time)
    ensures multiset(Recent(ts, cutoff))[t] == if t > cutoff then multiset(ts)[t] else 0
  {
    if ts != [] {
      var last := |ts| - 1;
      assert ts == ts[..last] + [ts[last]];
      RecentCounts(ts[..last], cutoff, t);
    }
  }

  /** Of times in order it keeps a suffix, so the order too. */
  lemma {:induction false} RecentIsSuffix(ts: seq<Time>, cutoff: Time) returns (k: nat)
    requires forall i, j | 0 <= i < j < |ts| :: ts[i] <= ts[j]
    ensures k <= |ts| && Recent(ts, cutoff) == ts[k..]
    ensures forall i | 0 <= i < |ts| :: i < k <==> ts[i] <= cutoff
  {
    k := |ts|;
    if ts != [] {
      var last := |ts| - 1;
      k := RecentIsSuffix(ts[..last], cutoff);
      if ts[last] <= cutoff {
        k := |ts|;
      } else {
        assert ts[k..] == ts[..last][k..] + [ts[last]];
      }
    }
  }

  /**
   A job, step by step: without a recipient, or within 5 minutes of the opening, it is skipped
   and leaves no trace. Otherwise it is sent; an open breaker closes first and forgets its
   window. A success empties the window. A failure adds itself to the failures less than a
   minute old, and opens the breaker when they come to 50.
   */
  lemma JobMeaning(b: State, a: Attempt)
    ensures var (b', es) := Process(b, a);
            var skipped := !a.recipient || (b.openAt != 0 && a.check - b.openAt < 300_000_000_000);
            var young := Recent(if b.openAt != 0 then [] else b.window, a.record - 60_000_000_000);
            var start := (if b.openAt != 0 then [Closed(a.closed)] else []) + [Send(a.closed)];
            && (skipped ==> b' == b && es == [])
            && (!skipped && a.ok ==> b' == State([], 0) && es == start + [Sent(a.record)])
            && (!skipped && !a.ok && |young| + 1 < 50 ==>
                  b' == State(young + [a.record], 0) && es == start + [Failed(a.record)])
            && (!skipped && !a.ok && |young| + 1 >= 50 ==>
                  b' == State(young + [a.record], a.record) && es == start + [Failed(a.record), Opened(a.record)])
  {
  }

  function SentCount(log: seq<Entry>): nat {
    if log == [] then 0 else SentCount(log[..|log| - 1]) + if log[|log| - 1].Sent? then 1 else 0
  }

  lemma {:induction false} SentCountConcat(a: seq<Entry>, b: seq<Entry>)
    ensures SentCount(a + b) == SentCount(a) + SentCount(b)
  {
    if b == [] {
      assert a + b == a;
    } else {
      assert (a + b)[..|a + b| - 1] == a + b[..|b| - 1];
      SentCountConcat(a, b[..|b| - 1]);
    }
  }

  lemma {:induction false} FailCountConcat(a: seq<Entry>, b: seq<Entry>)
    ensures FailCount(a + b) == FailCount(a) + FailCount(b)
  {
    if b == [] {
      assert a + b == a;
    } else {
      assert (a + b)[..|a + b| - 1] == a + b[..|b| - 1];
      FailCountConcat(a, b[..|b| - 1]);
    }
  }

  /** A job appends at most one Sent or Failed, for the send it makes. */
  lemma JobCounts(b: State, a: Attempt)
    ensures var es := Process(b, a).1;
            var skipped := !a.recipient || (b.openAt != 0 && a.check - b.openAt < 300_000_000_000);
            && SentCount(es) == (if !skipped && a.ok then 1 else 0)
            && FailCount(es) == (if !skipped && !a.ok then 1 else 0)
            && (skipped <==> es == [])
  {
    if !Skipped(b, a) {
      var start, end := StartEntries(b, a), FinishEntries(AfterCheck(b, a.check), a);
      SentCountConcat(start, end);
      FailCountConcat(start, end);
      StartCounts(b, a);
      FinishCounts(AfterCheck(b, a.check), a);
    }
  }

  lemma JobEntries(b: State, a: Attempt)
    ensures var es := Process(b, a).1;
            var skipped := !a.recipient || (b.openAt != 0 && a.check - b.openAt < 300_000_000_000);
            && ((exists e :: e in es && e.Sent?) <==> !skipped && a.ok)
            && ((exists e :: e in es && e.Failed?) <==> !skipped && !a.ok)
  {
    if !Skipped(b, a) {
      var start, end := StartEntries(b, a), FinishEntries(AfterCheck(b, a.check), a);
      StartCounts(b, a);
      FinishCounts(AfterCheck(b, a.check), a);
      assert end[0] == if a.ok then Sent(a.record) else Failed(a.record);
      InEither(start, end, end[0]);
      forall e | e in start + end ensures if a.ok then !e.Failed? else !e.Sent? {
        InEither(start, end, e);
      }
    }
  }

  lemma InEither(a: seq<Entry>, b: seq<Entry>, e: Entry)
    ensures e in a + b <==> e in a || e in b
  {
  }

  lemma CountsOfOne(e: Entry)
    ensures SentCount([e]) == if e.Sent? then 1 else 0
    ensures FailCount([e]) == if e.Failed? then 1 else 0
  {
    assert [e][..0] == [];
    assert SentCount([]) == 0 && FailTimes([]) == [];
  }

  lemma StartCounts(b: State, a: Attempt)
    ensures SentCount(StartEntries(b, a)) == 0 && FailCount(StartEntries(b, a)) == 0
    ensures forall e | e in StartEntries(b, a) :: e.Closed? || e.Send?
  {
    var close := if Closes(b, a.check) then [Closed(a.closed)] else [];
    CountsOfOne(Closed(a.closed));
    CountsOfOne(Send(a.closed));
    SentCountConcat(close, [Send(a.closed)]);
    FailCountConcat(close, [Send(a.closed)]);
  }

  lemma FinishCounts(b: State, a: Attempt)
    ensures SentCount(FinishEntries(b, a)) == if a.ok then 1 else 0
    ensures FailCount(FinishEntries(b, a)) == if a.ok then 0 else 1
    ensures forall e | e in FinishEntries(b, a) :: if a.ok then e.Sent? else e.Failed? || e.Opened?
  {
    CountsOfOne(if a.ok then Sent(a.record) else Failed(a.record));
    CountsOfOne(Opened(a.record));
    if !a.ok {
      var open := if Trips(b, a.record) then [Opened(a.record)] else [];
      SentCountConcat([Failed(a.record)], open);
      FailCountConcat([Failed(a.record)], open);
    }
  }

  /** The failures since the last success or close, as a part of the log. */
  lemma FailsSince(log: seq<Entry>, r: nat)
    requires r <= |log| && (r == 0 || log[r - 1].Sent? || log[r - 1].Closed?)
    requires forall k | r <= k < |log| :: !log[k].Sent? && !log[k].Closed?
    ensures Fails(log) == FailTimes(log[r..])
  {
    assert log == log[..r] + log[r..];
    if r > 0 {
      assert log[..r] == log[..r - 1] + [log[r - 1]];
      FailsSnoc(log[..r - 1], log[r - 1]);
    }
    FailsOfSpan(log[..r], log[r..]);
  }

  /** The failures of a stretch of the log are the times of its Failed entries. */
  lemma {:induction false} FailTimesMeaning(log: seq<Entry>, t: Time)
    ensures multiset(FailTimes(log))[t] == multiset(log)[Failed(t)]
  {
    if log != [] {
      var last := |log| - 1;
      assert log == log[..last] + [log[last]];
      FailTimesMeaning(log[..last], t);
    }
  }

  // ------------------------------------------------------------------ lemmas on Recent and Fails

  lemma {:induction false} RecentConcat(a: seq<Time>, b: seq<Time>, cutoff: Time)
    ensures Recent(a + b, cutoff) == Recent(a, cutoff) + Recent(b, cutoff)
  {
    if b == [] {
      assert a + b == a;
    } else {
      var last := |b| - 1;
      assert (a + b)[..|a + b| - 1] == a + b[..last];
      RecentConcat(a, b[..last], cutoff);
    }
  }

  lemma {:induction false} RecentTwice(a: seq<Time>, c: Time, d: Time)
    requires c <= d
    ensures Recent(Recent(a, c), d) == Recent(a, d)
  {
    if a != [] {
      var last := |a| - 1;
      var r := Recent(a[..last], c);
      RecentTwice(a[..last], c, d);
      if a[last] > c {
        assert (r + [a[last]])[..|r|] == r;
      }
    }
  }

  predicate AllAfter(ts: seq<Time>, cutoff: Time) {
    forall i | 0 <= i < |ts| :: ts[i] > cutoff
  }

  lemma {:induction false} RecentAll(a: seq<Time>, cutoff: Time)
    requires AllAfter(a, cutoff)
    ensures Recent(a, cutoff) == a
  {
    if a != [] {
      RecentAll(a[..|a| - 1], cutoff);
    }
  }

  lemma FailsSnoc(log: seq<Entry>, e: Entry)
    ensures Fails(log + [e]) ==
              if e.Sent? || e.Closed? then [] else if e.Failed? then Fails(log) + [e.at] else Fails(log)
    ensures OpenSince(log + [e]) == if e.Opened? then e.at else if e.Closed? then 0 else OpenSince(log)
  {
    assert (log + [e])[..|log|] == log;
  }

  lemma WindowSnoc(f: seq<Time>, now: Time)
    requires forall i | 0 <= i < |f| :: f[i] <= now
    ensures WindowOf(f + [now]) == Recent(f, now - TRIP_WINDOW) + [now] ==
        Recent(WindowOf(f), now - TRIP_WINDOW) + [now]
  {
    var cutoff := now - TRIP_WINDOW;
    assert Recent(WindowOf(f), cutoff) == Recent(f, cutoff) by {
      if f != [] {
        RecentTwice(f, f[|f| - 1] - TRIP_WINDOW, cutoff);
      }
    }
    assert Recent(f + [now], cutoff) == Recent(f, cutoff) + [now] by {
      RecentConcat(f, [now], cutoff);
      RecentAll([now], cutoff);
    }
  }

  /** Pruning the pruned window is the same as filtering every failure since the last reset. */
  lemma PrunedIsFiltered(log: seq<Entry>, now: Time)
    requires forall i | 0 <= i < |Fails(log)| :: Fails(log)[i] <= now
    ensures InWindow(log + [Failed(now)]) == Recent(InWindow(log), now - TRIP_WINDOW) + [now]
  {
    FailsSnoc(log, Failed(now));
    WindowSnoc(Fails(log), now);
  }

  lemma {:induction false} FailsAreLogged(log: seq<Entry>, now: Time)
    requires forall i | 0 <= i < |log| :: log[i].at <= now
    ensures forall i | 0 <= i < |Fails(log)| :: Fails(log)[i] <= now
  {
    if log != [] {
      FailsAreLogged(log[..|log| - 1], now);
    }
  }

  lemma LogSnoc(log: seq<Entry>, e: Entry, now: Time)
    requires LogUpTo(log, now) && Follows(log, e) && 0 < now <= e.at
    ensures LogUpTo(log + [e], e.at)
  {
    var log' := log + [e];
    forall j | 0 <= j < |log'| ensures Follows(log'[..j], log'[j]) {
      assert log'[..j] == if j < |log| then log[..j] else log;
    }
  }

  // ------------------------------------------------------------------ every job keeps the invariant

  lemma ClosedMatches(b: State, log: seq<Entry>, check: Time, at: Time)
    requires Matches(b, log) && Closes(b, check)
    ensures Matches(AfterCheck(b, check), log + [Closed(at)])
  {
    FailsSnoc(log, Closed(at));
  }

  lemma SendMatches(b: State, log: seq<Entry>, at: Time)
    requires Matches(b, log) && b.openAt == 0
    ensures Matches(b, log + [Send(at)])
  {
    FailsSnoc(log, Send(at));
  }

  lemma SuccessMatches(b: State, log: seq<Entry>, at: Time)
    requires Matches(b, log) && b.openAt == 0
    ensures Matches(AfterSuccess(b), log + [Sent(at)])
  {
    FailsSnoc(log, Sent(at));
  }

  lemma OpenedWindow(log: seq<Entry>, at: Time)
    ensures InWindow(log + [Opened(at)]) == InWindow(log)
    ensures OpenSince(log + [Opened(at)]) == at
  {
    FailsSnoc(log, Opened(at));
  }

  lemma FailureMatches(b: State, log: seq<Entry>, now: Time, at: Time)
    requires Matches(b, log) && b.openAt == 0 && LogUpTo(log, now) && 0 < now <= at
    ensures var log1 := log + [Failed(at)];
            && AfterFailure(b, at).window == InWindow(log1)
            && OpenSince(log1) == 0
            && (Tripping(log1) <==> Trips(b, at))
            && |InWindow(log1)| <= TRIP_COUNT
            && Matches(AfterFailure(b, at), if Trips(b, at) then log1 + [Opened(at)] else log1)
  {
    var log1 := log + [Failed(at)];
    FailsAreLogged(log, at);
    PrunedIsFiltered(log, at);
    FailsSnoc(log, Failed(at));
    assert |Recent(b.window, at - TRIP_WINDOW)| <= |b.window|;
    if Trips(b, at) {
      OpenedWindow(log1, at);
    }
  }

  // Each entry the log may end with: that it follows, and that the invariant survives it.

  lemma InvSnoc(b: State, log: seq<Entry>, now: Time, e: Entry)
    requires LogUpTo(log, now) && Follows(log, e) && 0 < now <= e.at && Matches(b, log + [e])
    ensures Inv(b, log + [e], e.at)
  {
    LogSnoc(log, e, now);
  }

  lemma ClosedFollows(b: State, log: seq<Entry>, now: Time, check: Time, at: Time)
    requires Matches(b, log) && LogUpTo(log, now) && now <= check <= at && Closes(b, check)
    ensures Follows(log, Closed(at))
  {
    OpenedAtEnd(log);
  }

  /** While the log ends with an opening, that is when the breaker opened. */
  lemma OpenedAtEnd(log: seq<Entry>)
    ensures EndsOpened(log) ==> OpenSince(log) == log[|log| - 1].at
  {
  }

  lemma SendFollows(b: State, log: seq<Entry>, at: Time)
    requires Matches(b, log) && b.openAt == 0
    ensures Follows(log, Send(at))
  {
  }

  lemma SentFollows(b: State, log: seq<Entry>, at: Time)
    requires Matches(b, log) && b.openAt == 0 && log != [] && log[|log| - 1].Send?
    ensures Follows(log, Sent(at))
  {
  }

  lemma FailedFollows(b: State, log: seq<Entry>, now: Time, at: Time)
    requires Matches(b, log) && LogUpTo(log, now) && b.openAt == 0 && 0 < now <= at && log != [] && log[|log| - 1].Send?
    ensures Follows(log, Failed(at))
  {
    FailureMatches(b, log, now, at);
  }

  lemma OpenedFollows(b: State, log: seq<Entry>, now: Time, at: Time)
    requires Matches(b, log) && LogUpTo(log, now) && b.openAt == 0 && 0 < now <= at && Trips(b, at)
    ensures Follows(log + [Failed(at)], Opened(at))
  {
    FailureMatches(b, log, now, at);
  }

  lemma AddClosed(b: State, log: seq<Entry>, now: Time, check: Time, at: Time)
    requires Inv(b, log, now) && 0 < now <= check <= at && Closes(b, check)
    ensures Inv(AfterCheck(b, check), log + [Closed(at)], at)
  {
    ClosedFollows(b, log, now, check, at);
    ClosedMatches(b, log, check, at);
    InvSnoc(AfterCheck(b, check), log, now, Closed(at));
  }

  lemma AddSend(b: State, log: seq<Entry>, now: Time, at: Time)
    requires Inv(b, log, now) && 0 < now <= at && b.openAt == 0
    ensures Inv(b, log + [Send(at)], at)
  {
    SendFollows(b, log, at);
    SendMatches(b, log, at);
    InvSnoc(b, log, now, Send(at));
  }

  lemma AddSent(b: State, log: seq<Entry>, now: Time, at: Time)
    requires Inv(b, log, now) && 0 < now <= at && b.openAt == 0 && log != [] && log[|log| - 1].Send?
    ensures Inv(AfterSuccess(b), log + [Sent(at)], at)
  {
    SentFollows(b, log, at);
    SuccessMatches(b, log, at);
    InvSnoc(AfterSuccess(b), log, now, Sent(at));
  }

  lemma AddFailed(b: State, log: seq<Entry>, now: Time, at: Time)
    requires Inv(b, log, now) && 0 < now <= at && b.openAt == 0 && log != [] && log[|log| - 1].Send?
    ensures Inv(AfterFailure(b, at), log + [Failed(at)] + if Trips(b, at) then [Opened(at)] else [], at)
  {
    var log1 := log + [Failed(at)];
    FailedFollows(b, log, now, at);
    FailureMatches(b, log, now, at);
    LogSnoc(log, Failed(at), now);
    if Trips(b, at) {
      OpenedFollows(b, log, now, at);
      InvSnoc(AfterFailure(b, at), log1, at, Opened(at));
    } else {
      assert log1 + [] == log1;
    }
  }

  lemma Assoc(log: seq<Entry>, x: seq<Entry>, y: seq<Entry>)
    ensures log + (x + y) == log + x + y
  {
  }

  lemma StartKeepsInv(b: State, log: seq<Entry>, now: Time, a: Attempt)
    requires Inv(b, log, now) && Ordered(now, a) && !Skipped(b, a)
    ensures Inv(AfterCheck(b, a.check), log + StartEntries(b, a), a.closed)
  {
    if Closes(b, a.check) {
      AddClosed(b, log, now, a.check, a.closed);
      AddSend(AfterCheck(b, a.check), log + [Closed(a.closed)], a.closed, a.closed);
      Assoc(log, [Closed(a.closed)], [Send(a.closed)]);
    } else {
      AddSend(b, log, now, a.closed);
      assert StartEntries(b, a) == [Send(a.closed)];
    }
  }

  lemma FinishKeepsInv(b: State, log: seq<Entry>, now: Time, a: Attempt)
    requires Inv(b, log, now) && b.openAt == 0 && 0 < now <= a.record && log != [] && log[|log| - 1].Send?
    ensures Inv(AfterSend(b, a), log + FinishEntries(b, a), a.record)
  {
    if a.ok {
      AddSent(b, log, now, a.record);
    } else {
      AddFailed(b, log, now, a.record);
      FinishConcat(log, b, a);
    }
  }

  lemma FinishConcat(log: seq<Entry>, b: State, a: Attempt)
    requires !a.ok
    ensures log + FinishEntries(b, a) ==
              log + [Failed(a.record)] + if Trips(b, a.record) then [Opened(a.record)] else []
  {
  }

  lemma StartEnds(b: State, log: seq<Entry>, a: Attempt)
    requires !Skipped(b, a)
    ensures var log1 := log + StartEntries(b, a); log1 != [] && log1[|log1| - 1].Send?
    ensures AfterCheck(b, a.check).openAt == 0
  {
  }

  /** A job that is not skipped is a start and a finish. */
  lemma SentKeepsInv(b: State, log: seq<Entry>, now: Time, a: Attempt)
    requires Inv(b, log, now) && Ordered(now, a) && !Skipped(b, a)
    ensures var b1 := AfterCheck(b, a.check);
            Inv(AfterSend(b1, a), log + StartEntries(b, a) + FinishEntries(b1, a), a.record)
  {
    StartKeepsInv(b, log, now, a);
    StartEnds(b, log, a);
    FinishKeepsInv(AfterCheck(b, a.check), log + StartEntries(b, a), a.closed, a);
  }

  lemma ProcessKeepsInv(b: State, log: seq<Entry>, now: Time, a: Attempt)
    requires Inv(b, log, now) && Ordered(now, a)
    ensures Inv(Process(b, a).0, log + Process(b, a).1, a.record)
  {
    if Skipped(b, a) {
      SkippedKeepsInv(b, log, now, a.record);
    } else {
      SentKeepsInv(b, log, now, a);
      Assoc(log, StartEntries(b, a), FinishEntries(AfterCheck(b, a.check), a));
    }
  }

  lemma SkippedKeepsInv(b: State, log: seq<Entry>, now: Time, later: Time)
    requires Inv(b, log, now) && now <= later
    ensures Inv(b, log + [], later)
  {
    assert log + [] == log;
  }

  // ------------------------------------------------------------------ runs

  ghost predicate OrderedRun(now: Time, jobs: seq<Attempt>)
    decreases |jobs|
  {
    jobs == [] || (Ordered(now, jobs[0]) && OrderedRun(jobs[0].record, jobs[1..]))
  }

  function Run(b: State, log: seq<Entry>, jobs: seq<Attempt>): (State, seq<Entry>)
    decreases |jobs|
  {
    if jobs == [] then (b, log) else Run(Process(b, jobs[0]).0, log + Process(b, jobs[0]).1, jobs[1..])
  }

  const START: State := State([], 0)

  lemma {:induction false} RunKeepsInv(b: State, log: seq<Entry>, now: Time, jobs: seq<Attempt>) returns (end: Time)
    requires Inv(b, log, now) && 0 < now && OrderedRun(now, jobs)
    ensures Inv(Run(b, log, jobs).0, Run(b, log, jobs).1, end)
    decreases |jobs|
  {
    end := now;
    if jobs != [] {
      ProcessKeepsInv(b, log, now, jobs[0]);
      end := RunKeepsInv(Process(b, jobs[0]).0, log + Process(b, jobs[0]).1, jobs[0].record, jobs[1..]);
    }
  }

  /** The number of failed sends among some entries. */
  function FailCount(log: seq<Entry>): nat {
    |FailTimes(log)|
  }

  function FailTimes(log: seq<Entry>): seq<Time> {
    if log == [] then [] else
      FailTimes(log[..|log| - 1]) + if log[|log| - 1].Failed? then [log[|log| - 1].at] else []
  }

  /** With no reset in between, the failures so far are the earlier ones and those of the span. */
  lemma {:induction false} FailsOfSpan(a: seq<Entry>, b: seq<Entry>)
    requires forall k | 0 <= k < |b| :: !b[k].Sent? && !b[k].Closed?
    ensures Fails(a + b) == Fails(a) + FailTimes(b)
  {
    if b == [] {
      assert a + b == a;
    } else {
      var last := |b| - 1;
      assert (a + b)[..|a + b| - 1] == a + b[..last];
      FailsOfSpan(a, b[..last]);
    }
  }

  lemma {:induction false} FailTimesIn(b: seq<Entry>, cutoff: Time)
    requires forall k | 0 <= k < |b| :: b[k].at > cutoff
    ensures AllAfter(FailTimes(b), cutoff)
  {
    if b != [] {
      FailTimesIn(b[..|b| - 1], cutoff);
    }
  }

  /** The breaker cannot close inside a span of failures shorter than the window. */
  lemma NoCloseInside(log: seq<Entry>, i: nat, j: nat, k: nat)
    requires LogOk(log) && i < k < j < |log| && log[i].Failed?
    requires log[j].at - log[i].at < TRIP_WINDOW
    ensures !log[k].Closed?
  {
    FollowsAt(log, k);
    assert log[i].at <= log[k - 1].at;
  }

  /**
   The rate bound: over every job sequence and every clock that never goes back, a span of
   the log that starts and ends with failures less than the window apart, with no
   successful send inside, holds at most TRIP_COUNT failed sends.
   */
  lemma RateBound(jobs: seq<Attempt>, now: Time, i: nat, j: nat)
    requires 0 < now && OrderedRun(now, jobs)
    requires var log := Run(START, [], jobs).1;
             && i <= j < |log| && log[i].Failed? && log[j].Failed? && log[j].at - log[i].at < TRIP_WINDOW
             && forall k | i <= k <= j :: !log[k].Sent?
    ensures FailCount(Run(START, [], jobs).1[i..j + 1]) <= TRIP_COUNT
  {
    var _ := RunKeepsInv(START, [], now, jobs);
    var log := Run(START, [], jobs).1;
    SpanBound(log, i, j);
  }

  lemma SpanIsRecent(log: seq<Entry>, i: nat, j: nat)
    requires LogOk(log)
    requires i <= j < |log| && log[i].Failed? && log[j].Failed? && log[j].at - log[i].at < TRIP_WINDOW
    ensures forall k | i <= k <= j :: !log[k].Closed? && log[k].at > log[j].at - TRIP_WINDOW
  {
    forall k | i <= k <= j ensures !log[k].Closed? && log[k].at > log[j].at - TRIP_WINDOW {
      if i < k < j {
        NoCloseInside(log, i, j, k);
      }
    }
  }

  lemma LastInWindow(log: seq<Entry>, j: nat)
    requires LogOk(log) && j < |log| && log[j].Failed?
    ensures |InWindow(log[..j + 1])| <= TRIP_COUNT
    ensures Fails(log[..j + 1]) != [] && Fails(log[..j + 1])[|Fails(log[..j + 1])| - 1] == log[j].at
  {
    assert log[..j + 1] == log[..j] + [log[j]];
    assert Follows(log[..j], log[j]);
    FailsSnoc(log[..j], log[j]);
  }

  lemma CountBound(f: seq<Time>, g: seq<Time>, cutoff: Time)
    requires AllAfter(g, cutoff)
    ensures |g| <= |Recent(f + g, cutoff)|
  {
    RecentConcat(f, g, cutoff);
    RecentAll(g, cutoff);
  }

  lemma SpanFails(log: seq<Entry>, i: nat, j: nat, cutoff: Time)
    requires i <= j < |log|
    requires forall k | i <= k <= j :: !log[k].Sent? && !log[k].Closed? && log[k].at > cutoff
    ensures Fails(log[..j + 1]) == Fails(log[..i]) + FailTimes(log[i..j + 1])
    ensures AllAfter(FailTimes(log[i..j + 1]), cutoff)
  {
    var span := log[i..j + 1];
    assert forall k | 0 <= k < |span| :: span[k] == log[i + k];
    FailsOfSpan(log[..i], span);
    FailTimesIn(span, cutoff);
    assert log[..j + 1] == log[..i] + span;
  }

  /** A full window bounds every tail of the failures that lies inside it. */
  lemma TailInWindow(f: seq<Time>, g: seq<Time>, t: Time)
    requires f + g != [] && (f + g)[|f + g| - 1] == t && AllAfter(g, t - TRIP_WINDOW)
    ensures |g| <= |WindowOf(f + g)|
  {
    CountBound(f, g, t - TRIP_WINDOW);
  }

  lemma SpanBound(log: seq<Entry>, i: nat, j: nat)
    requires LogOk(log)
    requires i <= j < |log| && log[i].Failed? && log[j].Failed? && log[j].at - log[i].at < TRIP_WINDOW
    requires forall k | i <= k <= j :: !log[k].Sent?
    ensures FailCount(log[i..j + 1]) <= TRIP_COUNT
  {
    assert |InWindow(log[..j + 1])| <= TRIP_COUNT by { LastInWindow(log, j); }
    assert FailCount(log[i..j + 1]) <= |InWindow(log[..j + 1])| by {
      SpanIsRecent(log, i, j);
      LastInWindow(log, j);
      SpanIsCounted(log, i, j);
    }
  }

  lemma SpanIsCounted(log: seq<Entry>, i: nat, j: nat)
    requires i <= j < |log|
    requires forall k | i <= k <= j :: !log[k].Sent? && !log[k].Closed? && log[k].at > log[j].at - TRIP_WINDOW
    requires var f := Fails(log[..j + 1]); f != [] && f[|f| - 1] == log[j].at
    ensures FailCount(log[i..j + 1]) <= |InWindow(log[..j + 1])|
  {
    SpanFails(log, i, j, log[j].at - TRIP_WINDOW);
    TailInWindow(Fails(log[..i]), FailTimes(log[i..j + 1]), log[j].at);
  }

  /** What the rules of the log say at a position. */
  lemma FollowsAt(log: seq<Entry>, j: nat)
    requires LogOk(log) && 0 < j < |log|
    ensures log[j].Opened? <==> log[j - 1].Failed? && |InWindow(log[..j])| == TRIP_COUNT
    ensures log[j].Closed? <==> log[j - 1].Opened?
    ensures log[j].Closed? ==> log[j].at >= log[j - 1].at + OPEN_DURATION
  {
    var init := log[..j];
    assert Follows(init, log[j]);
    assert init[|init| - 1] == log[j - 1];
  }

  /** No send starts while the breaker has been open for less than OPEN_DURATION. */
  lemma SilenceWhileOpen(jobs: seq<Attempt>, now: Time, i: nat, j: nat)
    requires 0 < now && OrderedRun(now, jobs)
    requires var log := Run(START, [], jobs).1; i < j < |log| && log[i].Opened? && log[j].Send?
    ensures var log := Run(START, [], jobs).1; log[j].at >= log[i].at + OPEN_DURATION
  {
    var _ := RunKeepsInv(START, [], now, jobs);
    SilentSince(Run(START, [], jobs).1, i, j);
  }

  lemma SilentSince(log: seq<Entry>, i: nat, j: nat)
    requires LogOk(log) && i < j < |log| && log[i].Opened? && log[j].Send?
    ensures log[j].at >= log[i].at + OPEN_DURATION
  {
    FollowsAt(log, i + 1);
    assert log[i + 1].at <= log[j].at;
  }

  /**
   The breaker's state and events after any run: the window is the filter of the failures
   since the last success or close, it holds fewer than TRIP_COUNT entries when closed and
   exactly TRIP_COUNT when open, an opening comes exactly after the failure that fills the
   window, and openings and closes alternate.
   */
  lemma BreakerMeaning(jobs: seq<Attempt>, now: Time, j: nat)
    requires 0 < now && OrderedRun(now, jobs)
    ensures var b := Run(START, [], jobs).0; var log := Run(START, [], jobs).1;
            && b.window == InWindow(log)
            && (if b.openAt == 0 then |b.window| < TRIP_COUNT else |b.window| == TRIP_COUNT)
            && (0 < j < |log| ==> (log[j].Opened? <==> log[j - 1].Failed? && |InWindow(log[..j])| == TRIP_COUNT))
            && (0 < j < |log| ==> (log[j].Closed? <==> log[j - 1].Opened?))
            && (0 < j < |log| && log[j].Closed? ==> log[j].at >= log[j - 1].at + OPEN_DURATION)
  {
    var _ := RunKeepsInv(START, [], now, jobs);
    var log := Run(START, [], jobs).1;
    if 0 < j < |log| {
      FollowsAt(log, j);
    }
  }
}
