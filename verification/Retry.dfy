/** The retry loop both remote clients share, with Go's 64-bit durations, and their error classifiers. */
module Retry {
  import opened Basics

  // ------------------------------------------------------------------ errors

  /** What errors.Is and errors.As can find in an error; code is 0 when the body carries none. */
  datatype OpError = OpError(deadline: bool, canceled: bool, status: Option<int>, code: int)

  datatype Fault =
    | RateLimited
    | LinkageMissing
    | Unauthenticated
    | PermissionDenied
    | BuildNotFound
    | ClientError(status: int)
    | Unavailable

  datatype Api = Ags | Adt

  predicate ShouldRetry(e: OpError) {
    e.deadline || (e.status.Some? ==> 500 <= e.status.value <= 599)
  }

  function ByStatus(e: OpError): Fault {
    if e.status.None? then Unavailable
    else if e.status.value == 429 then RateLimited
    else if 400 <= e.status.value <= 499 then ClientError(e.status.value)
    else Unavailable
  }

  function Classify(api: Api, e: OpError): Fault {
    if e.canceled || e.deadline then Unavailable
    else if api.Ags? then ByStatus(e)
    else if e.code == 99 then LinkageMissing
    else if e.code == 401 then Unauthenticated
    else if e.code == 20001 then PermissionDenied
    else if e.code == 1003303402 then BuildNotFound
    else ByStatus(e)
  }

  const ADT_CODES: set<int> := {99, 401, 20001, 1003303402}

  /** The two classifiers agree exactly on the errors that carry none of the four codes, and on context errors. */
  lemma ClassifiersAgree(e: OpError)
    ensures Classify(Ags, e) == Classify(Adt, e) <==> e.canceled || e.deadline || e.code !in ADT_CODES
  {
  }

  /**
   The classes, value by value: context errors are Unavailable; the ADT client, and it alone,
   looks at its four codes next; then 429, every other 4xx with its status, and Unavailable.
   */
  lemma ClassMeaning(api: Api, e: OpError)
    ensures e.canceled || e.deadline ==> Classify(api, e) == Unavailable
    ensures !e.canceled && !e.deadline && api == Adt ==>
              && (Classify(api, e) == LinkageMissing <==> e.code == 99)
              && (Classify(api, e) == Unauthenticated <==> e.code == 401)
              && (Classify(api, e) == PermissionDenied <==> e.code == 20001)
              && (Classify(api, e) == BuildNotFound <==> e.code == 1003303402)
    ensures !e.canceled && !e.deadline && (api == Ags || e.code !in {99, 401, 20001, 1003303402}) ==>
              && (Classify(api, e) == RateLimited <==> e.status == Some(429))
              && (forall s :: Classify(api, e) == ClientError(s) <==>
                   e.status == Some(s) && 400 <= s <= 499 && s != 429)
              && (Classify(api, e) == Unavailable <==> e.status.None? || e.status.value < 400 || e.status.value > 499)
  {
  }

  /** What is retried, value by value: a timeout, any 5xx, and whatever has no HTTP status. */
  lemma RetryMeaning(e: OpError)
    ensures e.deadline || e.status == None ==> ShouldRetry(e)
    ensures !e.deadline && e.status.Some? ==> (ShouldRetry(e) <==> 500 <= e.status.value <= 599)
  {
  }

  /** What the policies say is retried: HTTP 5xx and timeouts, nothing else. */
  predicate DocumentedRetry(e: OpError) {
    e.deadline || (e.status.Some? && 500 <= e.status.value <= 599)
  }

  /**
   Where the code departs from that: it retries more exactly on the errors without an HTTP
   status that are no timeout, and answers one as Unavailable unless the ADT client finds one
   of its four codes in it and it is no context error.
   */
  lemma NonHttpErrors(api: Api, e: OpError)
    ensures DocumentedRetry(e) ==> ShouldRetry(e)
    ensures ShouldRetry(e) && !DocumentedRetry(e) <==> e.status.None? && !e.deadline
    ensures e.status.None? ==>
              (Classify(api, e) == Unavailable <==> api.Ags? || e.canceled || e.deadline || e.code !in ADT_CODES)
  {
  }

  // ------------------------------------------------------------------ backoff

  const TWO62: int := 0x4000_0000_0000_0000
  const TWO63: int := 0x8000_0000_0000_0000

  /** time.Duration is an int64 count of nanoseconds. */
  type Duration = d: int | -TWO63 <= d < TWO63 witness 0

  /** Doubling wraps around. */
  function Doubled(d: Duration): Duration
    requires d > 0
  {
    if d < TWO62 then 2 * d else 2 * d - 2 * TWO63
  }

  /** The backoff after one more retry; the loop only touches a positive one. */
  function NextBackoff(b: Duration, max: Duration): Duration {
    if b <= 0 then b else if Doubled(b) > max then max else Doubled(b)
  }

  /** The backoff variable when the (k+1)-th retry is due. */
  function Backoff(b: Duration, max: Duration, k: nat): Duration
    decreases k
  {
    if k == 0 then b else NextBackoff(Backoff(b, max, k - 1), max)
  }

  /** b * 2^k, unbounded. */
  function Scaled(b: int, k: nat): int
    decreases k
  {
    if k == 0 then b else 2 * Scaled(b, k - 1)
  }

  lemma {:induction false} ScaledSign(b: int, k: nat)
    ensures if b > 0 then Scaled(b, k) >= b else Scaled(b, k) <= b
    decreases k
  {
    if k > 0 {
      ScaledSign(b, k - 1);
    }
  }

  /** The wait the documentation describes: the initial backoff, doubled each retry, capped from the second on. */
  function Documented(b: Duration, max: Duration, k: nat): int {
    if k == 0 then b else Min(Scaled(b, k), max)
  }

  /** The time slept for a backoff value; none when it is not positive. */
  function Wait(b: int): nat {
    if b > 0 then b else 0
  }

  /** Without room to wrap, every wait is the documented one. */
  lemma WaitIsDocumented(b: Duration, max: Duration, k: nat)
    requires b <= 0 || max <= 0 || (b < TWO62 && max < TWO62)
    ensures Wait(Backoff(b, max, k)) == Wait(Documented(b, max, k))
  {
    ScaledSign(b, k);
    if b <= 0 {
      NeverWaits(b, max, k);
    } else if k > 0 && max <= 0 {
      LaterWait(b, max, k);
    } else if k > 0 {
      NoWrap(b, max, k);
    }
  }

  lemma {:induction false} NoWrap(b: Duration, max: Duration, k: nat)
    requires 0 < b < TWO62 && 0 < max < TWO62
    ensures 0 < Backoff(b, max, k) < TWO62
    ensures Backoff(b, max, k) == Documented(b, max, k)
    decreases k
  {
    if k > 0 {
      NoWrap(b, max, k - 1);
      ScaledSign(b, k - 1);
    }
  }

  lemma {:induction false} NeverWaits(b: Duration, max: Duration, k: nat)
    requires b <= 0
    ensures Backoff(b, max, k) == b
    decreases k
  {
    if k > 0 {
      NeverWaits(b, max, k - 1);
    }
  }

  /** A positive backoff that can reach 2^62 does, and the doubling after that wraps: no wait at all. */
  lemma {:induction false} WrapsAt(b: Duration, max: Duration, k: nat) returns (n: nat)
    requires b > 0 && max > 0 && Backoff(b, max, k) > 0
    requires Backoff(b, max, k) >= TWO62 || max >= TWO62
    ensures n > 0 && Backoff(b, max, n) < 0
    decreases TWO63 - Backoff(b, max, k)
  {
    assert Backoff(b, max, k + 1) == NextBackoff(Backoff(b, max, k), max);
    if Backoff(b, max, k) >= TWO62 {
      n := k + 1;
    } else {
      n := WrapsAt(b, max, k + 1);
    }
  }

  /** Every wait is the documented one exactly when the durations leave no room to wrap. */
  lemma DocumentedExactly(b: Duration, max: Duration)
    ensures (forall k: nat :: Wait(Backoff(b, max, k)) == Wait(Documented(b, max, k))) <==>
              b <= 0 || max <= 0 || (b < TWO62 && max < TWO62)
  {
    if b <= 0 || max <= 0 || (b < TWO62 && max < TWO62) {
      forall k: nat ensures Wait(Backoff(b, max, k)) == Wait(Documented(b, max, k)) {
        WaitIsDocumented(b, max, k);
      }
    } else {
      var n := WrapsAt(b, max, 0);
      ScaledSign(b, n);
      assert Wait(Backoff(b, max, n)) == 0 < Wait(Documented(b, max, n));
    }
  }

  /** The total slept before the (n+1)-th call. */
  function TotalWait(b: Duration, max: Duration, n: nat): nat {
    if n == 0 then 0 else TotalWait(b, max, n - 1) + Wait(Backoff(b, max, n - 1))
  }

  /** A bound that holds whatever the durations, wrapped or not. */
  lemma {:induction false} TotalWaitBound(b: Duration, max: Duration, n: nat)
    requires n > 0
    ensures TotalWait(b, max, n) <= Wait(b) + (n - 1) * Wait(max)
    decreases n
  {
    if n == 1 {
      assert TotalWait(b, max, 1) == TotalWait(b, max, 0) + Wait(b);
    } else {
      TotalWaitBound(b, max, n - 1);
      LaterWait(b, max, n - 1);
      OneMore(n - 1, Wait(max));
    }
  }

  lemma OneMore(n: int, m: int)
    ensures n * m == (n - 1) * m + m
  {
  }

  lemma {:induction false} LaterWait(b: Duration, max: Duration, k: nat)
    requires k >= 1
    ensures Wait(Backoff(b, max, k)) <= Wait(max)
    decreases k
  {
    if k > 1 {
      LaterWait(b, max, k - 1);
    }
    assert Backoff(b, max, k) == NextBackoff(Backoff(b, max, k - 1), max);
    if Backoff(b, max, k - 1) <= 0 {
      assert Backoff(b, max, k) <= 0;
    }
  }

  // ------------------------------------------------------------------ the loop

  datatype Policy = Policy(maxAttempts: int, initialBackoff: Duration, maxBackoff: Duration)

  /** 4 attempts, 250 ms doubling up to 5 s, in nanoseconds. */
  const DEFAULT: Policy := Policy(4, 250_000_000, 5_000_000_000)

  const WITHOUT_RETRIES: Policy := Policy(1, 0, 0)

  /**
   What the outside world does: the answer of the k-th call (None is success), whether the
   context is over when the k-th attempt starts, and whether it ends during the k-th wait.
   */
  datatype World = World(answer: nat -> Option<OpError>, overBefore: nat -> bool, overDuring: nat -> bool)

  datatype Ending = Success | Failed(fault: Fault) | Interrupted

  function Attempts(p: Policy): int {
    if p.maxAttempts < 1 then 1 else p.maxAttempts
  }

  /** At least one attempt is made, and otherwise as many as the policy says. */
  lemma AttemptsMeaning(p: Policy)
    ensures p.maxAttempts >= 1 ==> Attempts(p) == p.maxAttempts
    ensures p.maxAttempts <= 0 ==> Attempts(p) == 1
  {
  }

  predicate Retried(w: World, k: nat) {
    w.answer(k).Some? && ShouldRetry(w.answer(k).value)
  }

  /** The context ends during the wait after the k-th call. */
  predicate CutShort(p: Policy, w: World, k: nat) {
    Backoff(p.initialBackoff, p.maxBackoff, k) > 0 && w.overDuring(k)
  }

  /** The k-th call is answered with a plain 4xx. */
  predicate ClientRefusal(w: World, k: nat) {
    && w.answer(k).Some?
    && var e := w.answer(k).value;
    && !e.deadline && e.status.Some? && 400 <= e.status.value <= 499
  }

  /** What the loop knows when attempt number n (from 0) is about to start. */
  ghost predicate Reached(p: Policy, w: World, n: nat) {
    && n < Attempts(p)
    && (forall k: nat | k < n :: Retried(w, k) && !ClientRefusal(w, k))
    && (forall k: nat | k < n :: !w.overBefore(k) && !CutShort(p, w, k))
  }

  lemma ReachedNext(p: Policy, w: World, n: nat)
    requires Reached(p, w, n) && n + 1 < Attempts(p)
    requires Retried(w, n) && !w.overBefore(n) && !CutShort(p, w, n)
    ensures Reached(p, w, n + 1)
  {
  }

  /** How the loop may end after it has started calls attempts. */
  ghost predicate EndsProperly(api: Api, p: Policy, w: World, r: Ending, calls: nat) {
    match r
    case Success => calls > 0 && Reached(p, w, calls - 1) && !w.overBefore(calls - 1) && w.answer(calls - 1).None?
    case Failed(f) =>
      && calls > 0 && Reached(p, w, calls - 1) && !w.overBefore(calls - 1)
      && w.answer(calls - 1).Some? && f == Classify(api, w.answer(calls - 1).value)
      && (calls == Attempts(p) || !Retried(w, calls - 1))
    case Interrupted =>
      || (Reached(p, w, calls) && w.overBefore(calls))
      || (calls > 0 && Reached(p, w, calls - 1) && !w.overBefore(calls - 1) && Retried(w, calls - 1)
          && calls < Attempts(p) && CutShort(p, w, calls - 1))
  }

  /** slept is the total of the completed waits. */
  method Run(api: Api, p: Policy, w: World) returns (r: Ending, calls: nat, slept: nat)
    ensures calls <= Attempts(p) && EndsProperly(api, p, w, r, calls)
    ensures !r.Interrupted? ==> slept == TotalWait(p.initialBackoff, p.maxBackoff, calls - 1)
    ensures slept <= TotalWait(p.initialBackoff, p.maxBackoff, Attempts(p) - 1)
  {
    var max, backoff := Attempts(p), p.initialBackoff;
    calls, slept := 0, 0;
    while true
      invariant Reached(p, w, calls)
      invariant backoff == Backoff(p.initialBackoff, p.maxBackoff, calls)
      invariant slept == TotalWait(p.initialBackoff, p.maxBackoff, calls)
      decreases max - calls
    {
      TotalWaitMonotone(p.initialBackoff, p.maxBackoff, calls, max - 1);
      if w.overBefore(calls) {
        return Interrupted, calls, slept;
      }
      var answer := w.answer(calls);
      calls := calls + 1;
      if answer.None? {
        return Success, calls, slept;
      }
      if !ShouldRetry(answer.value) || calls == max {
        return Failed(Classify(api, answer.value)), calls, slept;
      }
      if backoff > 0 {
        if w.overDuring(calls - 1) {
          return Interrupted, calls, slept;
        }
        slept := slept + backoff;
        backoff := NextBackoff(backoff, p.maxBackoff);
      }
      ReachedNext(p, w, calls - 1);
    }
  }

  /** What any ending says of an earlier attempt k. */
  lemma EarlierAttempt(api: Api, p: Policy, w: World, r: Ending, n: nat, k: nat)
    requires EndsProperly(api, p, w, r, n) && k < n
    ensures !w.overBefore(k)
    ensures k + 1 < n || (r.Interrupted? && w.overBefore(n) && Reached(p, w, n)) ==> Retried(w, k) && !CutShort(p, w, k)
  {
  }

  /**
   The ending is a function of the world: two endings of one loop are the same, so the clauses
   above pin down the number of calls and the result.
   */
  lemma EndingUnique(api: Api, p: Policy, w: World, r: Ending, n: nat, r': Ending, n': nat)
    requires EndsProperly(api, p, w, r, n) && EndsProperly(api, p, w, r', n')
    ensures r == r' && n == n'
  {
    if n < n' {
      NotLater(api, p, w, r, n, r', n');
    } else if n' < n {
      NotLater(api, p, w, r', n', r, n);
    } else if n > 0 {
      EarlierAttempt(api, p, w, r, n, n - 1);
      EarlierAttempt(api, p, w, r', n, n - 1);
    }
  }

  lemma NotLater(api: Api, p: Policy, w: World, r: Ending, n: nat, r': Ending, n': nat)
    requires EndsProperly(api, p, w, r, n) && EndsProperly(api, p, w, r', n')
    ensures n' <= n
  {
    if n < n' {
      EarlierAttempt(api, p, w, r', n', n);
      if n > 0 {
        EarlierAttempt(api, p, w, r', n', n - 1);
      }
    }
  }

  /**
   A run of errors without an HTTP status, the context staying live: every attempt is used and
   the answer is the class of the last error, never the error itself.
   */
  lemma NonHttpExhausts(api: Api, p: Policy, w: World, r: Ending, calls: nat)
    requires forall k: nat | k < Attempts(p) :: w.answer(k).Some? && w.answer(k).value.status.None?
    requires forall k: nat :: !w.overBefore(k) && !w.overDuring(k)
    requires EndsProperly(api, p, w, r, calls)
    ensures calls == Attempts(p) && r == Failed(Classify(api, w.answer(calls - 1).value))
  {
    if calls > 0 {
      assert w.answer(calls - 1).Some?;
      assert Retried(w, calls - 1);
    }
  }

  /** A host name that never resolves, for instance: the standard policy calls 4 times and answers Unavailable. */
  const NO_HOST: OpError := OpError(false, false, None, 0)

  lemma UnresolvedHost(api: Api, r: Ending, calls: nat)
    requires EndsProperly(api, DEFAULT, World(_ => Some(NO_HOST), _ => false, _ => false), r, calls)
    ensures calls == 4 && r == Failed(Unavailable)
  {
    NonHttpExhausts(api, DEFAULT, World(_ => Some(NO_HOST), _ => false, _ => false), r, calls);
  }

  /** A plain 4xx is always the last call. */
  lemma NoRetryAfterClientError(api: Api, p: Policy, w: World, r: Ending, calls: nat, k: nat)
    requires EndsProperly(api, p, w, r, calls) && ClientRefusal(w, k)
    ensures calls <= k + 1
    ensures calls == k + 1 ==> r.Failed?
  {
    if k < calls {
      assert !Retried(w, k);
    }
  }

  lemma {:induction false} TotalWaitMonotone(b: Duration, max: Duration, m: nat, n: nat)
    requires m <= n
    ensures TotalWait(b, max, m) <= TotalWait(b, max, n)
    decreases n
  {
    if m < n {
      TotalWaitMonotone(b, max, m, n - 1);
    }
  }

  /** The standard policy sleeps at most 1.75 s in all; the create policy calls once and never sleeps. */
  lemma StandardPolicies()
    ensures TotalWait(DEFAULT.initialBackoff, DEFAULT.maxBackoff, Attempts(DEFAULT) - 1) == 1_750_000_000
    ensures TotalWait(WITHOUT_RETRIES.initialBackoff, WITHOUT_RETRIES.maxBackoff, Attempts(WITHOUT_RETRIES) - 1) == 0
  {
    var b, m := DEFAULT.initialBackoff, DEFAULT.maxBackoff;
    assert Backoff(b, m, 1) == 500_000_000;
    assert Backoff(b, m, 2) == 1_000_000_000;
    assert TotalWait(b, m, 2) == 750_000_000;
  }
}
