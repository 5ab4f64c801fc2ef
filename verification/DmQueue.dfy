/**
 The DM queue: a bounded FIFO, one worker, the circuit breaker's fields pruned in place, and
 the restart sweep. Each public method is one atomic step of the process; Enqueue may be
 called between any two steps of the worker.
 */
module DmQueue {
  import opened Basics
  import U = Utf8
  import B = Breaker

  datatype Job = Job(applicant: Id, hasRecipient: bool)

  const DEFAULT_MAX_DEPTH: nat := 10_000
  const ERROR_MAX_BYTES: nat := 500

  /** last_dm_error: the reasons of this package, or the sender's own text. */
  datatype Reason = QueueOverflow | CircuitOpen | LostOnRestart | MissingRecipient | SendError(text: seq<U.Byte>)

  datatype DmStatus = Unset | Pending | Sent | Failed(reason: Reason)

  /** UpdateDMStatus truncates the text it stores. */
  function Stored(r: Reason): Reason {
    if r.SendError? then SendError(U.Truncated(r.text, ERROR_MAX_BYTES)) else r
  }

  /** The columns of an applicant row the queue reads and writes, with its playtest's scope. */
  datatype Row = Row(approved: bool, live: bool, namespace: Id, dm: DmStatus)

  /** The row ListLostDMOnRestart selects. */
  predicate Lost(r: Row, namespace: Id) {
    r.namespace == namespace && r.live && r.approved && (r.dm.Unset? || r.dm.Pending?)
  }

  function Mark(rows: map<Id, Row>, a: Id, dm: DmStatus): map<Id, Row> {
    if a in rows then rows[a := rows[a].(dm := dm)] else rows
  }

  /** A status write touches one row, and its status only. */
  lemma MarkMeaning(rows: map<Id, Row>, a: Id, dm: DmStatus)
    ensures var rows' := Mark(rows, a, dm);
            && rows'.Keys == rows.Keys
            && (forall b | b in rows && b != a :: rows'[b] == rows[b])
            && (a in rows ==> rows'[a] == Row(rows[a].approved, rows[a].live, rows[a].namespace, dm))
  {
  }

  /** What the restart sweep leaves behind. */
  function Swept(rows: map<Id, Row>, namespace: Id): map<Id, Row> {
    map a | a in rows :: if Lost(rows[a], namespace) then rows[a].(dm := Failed(LostOnRestart)) else rows[a]
  }

  function LostRows(rows: map<Id, Row>, namespace: Id): set<Id> {
    set a | a in rows && Lost(rows[a], namespace)
  }

  /** The table once the sweep has come through the rows in done. */
  function SweptSoFar(rows: map<Id, Row>, done: set<Id>): map<Id, Row> {
    map a | a in rows :: if a in done then rows[a].(dm := Failed(LostOnRestart)) else rows[a]
  }

  lemma SweepOne(rows: map<Id, Row>, done: set<Id>, a: Id)
    requires a in rows
    ensures Mark(SweptSoFar(rows, done), a, Failed(LostOnRestart)) == SweptSoFar(rows, done + {a})
  {
  }

  lemma SweepDone(rows: map<Id, Row>, namespace: Id)
    ensures SweptSoFar(rows, {}) == rows
    ensures SweptSoFar(rows, LostRows(rows, namespace)) == Swept(rows, namespace)
  {
    var done, target := SweptSoFar(rows, LostRows(rows, namespace)), Swept(rows, namespace);
    assert forall a | a in rows :: done[a] == target[a];
  }

  /** What happened to a job: every offered job has one serial number. */
  datatype Outcome = Delivered | Dropped(reason: Reason)

  /** The outcome of a job the worker processes. */
  function OutcomeOf(b: B.State, a: B.Attempt, text: seq<U.Byte>): Outcome {
    if !a.recipient then Dropped(MissingRecipient)
    else if B.StillOpen(b, a.check) then Dropped(CircuitOpen)
    else if a.ok then Delivered
    else Dropped(SendError(text))
  }

  function StatusOf(o: Outcome): DmStatus {
    match o
    case Delivered => Sent
    case Dropped(r) => Failed(Stored(r))
  }

  /**
   A job's outcome against the log of sends: delivered exactly when the job logs a success, a
   send error exactly when it logs a failure. A job without recipient, or within 5 minutes of
   the opening, logs nothing and fails for that reason. The row says sent for a delivered job
   and otherwise the reason, a sender's text cut to 500 bytes.
   */
  lemma OutcomeMeaning(b: B.State, a: B.Attempt, text: seq<U.Byte>)
    ensures var o, es := OutcomeOf(b, a, text), B.Process(b, a).1;
            && (o == Delivered <==> exists e :: e in es && e.Sent?)
            && (o == Dropped(SendError(text)) <==> exists e :: e in es && e.Failed?)
            && (!a.recipient ==> o == Dropped(MissingRecipient) && es == [])
            && (a.recipient && b.openAt != 0 && a.check - b.openAt < 300_000_000_000 ==>
                 o == Dropped(CircuitOpen) && es == [])
            && (a.recipient && (b.openAt == 0 || a.check - b.openAt >= 300_000_000_000) ==>
                  o == (if a.ok then Delivered else Dropped(SendError(text))) && es != [])
    ensures StatusOf(Delivered) == Sent
    ensures StatusOf(Dropped(SendError(text))) == Failed(SendError(U.Truncated(text, 500)))
    ensures forall r: Reason | !r.SendError? :: StatusOf(Dropped(r)) == Failed(r)
  {
    B.JobCounts(b, a);
    B.JobEntries(b, a);
  }

  function Delivereds(outcomes: map<nat, Outcome>): set<nat> {
    set k | k in outcomes && outcomes[k] == Delivered
  }

  function SendErrors(outcomes: map<nat, Outcome>): set<nat> {
    set k | k in outcomes && outcomes[k].Dropped? && outcomes[k].reason.SendError?
  }

  lemma OneMoreDelivered(outcomes: map<nat, Outcome>, k: nat, o: Outcome)
    requires k !in outcomes
    ensures |Delivereds(outcomes[k := o])| == |Delivereds(outcomes)| + if o == Delivered then 1 else 0
  {
    var after := Delivereds(outcomes[k := o]);
    if o == Delivered {
      assert after == Delivereds(outcomes) + {k};
    } else {
      assert after == Delivereds(outcomes);
    }
  }

  lemma OneMoreError(outcomes: map<nat, Outcome>, k: nat, o: Outcome)
    requires k !in outcomes
    ensures |SendErrors(outcomes[k := o])| == |SendErrors(outcomes)| + if o.Dropped? && o.reason.SendError? then 1
        else 0
  {
    var after := SendErrors(outcomes[k := o]);
    if o.Dropped? && o.reason.SendError? {
      assert after == SendErrors(outcomes) + {k};
    } else {
      assert after == SendErrors(outcomes);
    }
  }

  /** One more settled job and its entries: the counts of both move together. */
  lemma CountsMove(outcomes: map<nat, Outcome>, log: seq<B.Entry>, k: nat, b: B.State, a: B.Attempt, text: seq<U.Byte>)
    requires k !in outcomes
    requires |Delivereds(outcomes)| == B.SentCount(log) && |SendErrors(outcomes)| == B.FailCount(log)
    ensures var outcomes', log' := outcomes[k := OutcomeOf(b, a, text)], log + B.Process(b, a).1;
            |Delivereds(outcomes')| == B.SentCount(log') && |SendErrors(outcomes')| == B.FailCount(log')
  {
    var o := OutcomeOf(b, a, text);
    OneMoreDelivered(outcomes, k, o);
    OneMoreError(outcomes, k, o);
    B.SentCountConcat(log, B.Process(b, a).1);
    B.FailCountConcat(log, B.Process(b, a).1);
    B.JobCounts(b, a);
  }

  class Queue {
    const maxDepth: nat
    const namespace: Id
    var ch: seq<Job>
    var buf: array<Time>
    var count: nat
    var circuitOpenAt: Time
    var rows: map<Id, Row>

    // History: the jobs offered so far by serial number, the accepted and processed serials
    // in order, those in the channel, the one in hand, and every job's outcome.
    ghost var jobs: seq<Job>
    ghost var accepted: seq<nat>
    ghost var processed: seq<nat>
    ghost var inHand: Option<nat>
    ghost var queued: seq<nat>
    ghost var outcomes: map<nat, Outcome>
    ghost var log: seq<B.Entry>
    ghost var now: Time

    /** The breaker's fields. */
    ghost function Circuit(): B.State
      reads this`buf, this`count, this`circuitOpenAt, buf
      requires count <= buf.Length
    {
      B.State(buf[..count], circuitOpenAt)
    }

    ghost predicate FifoOk()
      reads this`ch, this`jobs, this`accepted, this`processed, this`inHand, this`queued
    {
      && |ch| <= maxDepth
      && |queued| == |ch|
      && (forall i | 0 <= i < |queued| :: queued[i] < |jobs| && jobs[queued[i]] == ch[i])
      && accepted == processed + (if inHand.Some? then [inHand.value] else []) + queued
      && (forall i, j | 0 <= i < j < |accepted| :: accepted[i] < accepted[j])
      && (forall i | 0 <= i < |accepted| :: accepted[i] < |jobs|)
      && (inHand.Some? ==> inHand.value < |jobs|)
    }

    ghost predicate OutcomesOk()
      reads this`jobs, this`accepted, this`inHand, this`queued, this`outcomes
    {
      && (forall k | 0 <= k < |jobs| :: k in outcomes <==> k !in queued && inHand != Some(k))
      && (forall k | k in outcomes :: k < |jobs|)
      && (forall k | k in outcomes :: k !in accepted <==> outcomes[k] == Dropped(QueueOverflow))
    }

    ghost predicate CircuitOk()
      reads this`buf, this`count, this`circuitOpenAt, this`log, this`now, buf
    {
      count <= buf.Length && 0 < now && B.Inv(Circuit(), log, now)
    }

    /** Every success in the log is one delivered job, every failure one job with a send error. */
    ghost predicate CountsOk()
      reads this`outcomes, this`log
    {
      |Delivereds(outcomes)| == B.SentCount(log) && |SendErrors(outcomes)| == B.FailCount(log)
    }

    ghost predicate Valid()
      reads this`ch, this`jobs, this`accepted, this`processed, this`inHand, this`queued, this`outcomes
      reads this`buf, this`count, this`circuitOpenAt, this`log, this`now, buf
    {
      CircuitOk() && FifoOk() && OutcomesOk() && CountsOk()
    }

    /** New fills in the default depth. */
    constructor (maxDepth: int, namespace: Id, rows: map<Id, Row>, now: Time)
      requires 0 < now
      ensures Valid()
      ensures this.maxDepth == if maxDepth <= 0 then 10_000 else maxDepth
      ensures this.namespace == namespace && this.rows == rows
      ensures ch == [] && log == [] && jobs == [] && accepted == [] && fresh(buf)
    {
      this.maxDepth := if maxDepth <= 0 then DEFAULT_MAX_DEPTH else maxDepth;
      this.namespace, this.rows, this.now := namespace, rows, now;
      ch, buf, count, circuitOpenAt := [], new Time[0], 0, 0;
      jobs, accepted, processed, inHand, queued, outcomes, log := [], [], [], None, [], map[], [];
    }

    method Depth() returns (n: nat)
      requires Valid()
      ensures n == |ch| <= maxDepth
    {
      n := |ch|;
    }

    method MarkFailed(j: Job, reason: Reason)
      modifies this`rows
      ensures rows == Mark(old(rows), j.applicant, StatusOf(Dropped(reason)))
    {
      var stored := reason;
      if reason.SendError? {
        var text := U.TruncateUTF8(reason.text, ERROR_MAX_BYTES);
        stored := SendError(text);
      }
      rows := Mark(rows, j.applicant, Failed(stored));
    }

    /** Non-blocking: a full channel fails the job on the spot. */
    method Enqueue(j: Job) returns (ok: bool)
      requires Valid()
      modifies this`ch, this`rows, this`jobs, this`accepted, this`queued, this`outcomes
      ensures Valid()
      ensures ok <==> |old(ch)| < maxDepth
      ensures jobs == old(jobs) + [j]
      ensures ok ==>
                && ch == old(ch) + [j] && accepted == old(accepted) + [|old(jobs)|]
                && rows == old(rows) && outcomes == old(outcomes)
      ensures !ok ==>
                && ch == old(ch) && accepted == old(accepted)
                && rows == Mark(old(rows), j.applicant, Failed(QueueOverflow))
                && outcomes == old(outcomes)[|old(jobs)| := Dropped(QueueOverflow)]
    {
      if |ch| < maxDepth {
        Push(j);
        return true;
      }
      Overflow(j);
      return false;
    }

    method Push(j: Job)
      requires FifoOk() && OutcomesOk() && |ch| < maxDepth
      modifies this`ch, this`jobs, this`accepted, this`queued
      ensures FifoOk() && OutcomesOk()
      ensures ch == old(ch) + [j] && jobs == old(jobs) + [j] && accepted == old(accepted) + [|old(jobs)|]
    {
      ghost var k := |jobs|;
      jobs, ch := jobs + [j], ch + [j];
      queued, accepted := queued + [k], accepted + [k];
    }

    method Overflow(j: Job)
      requires FifoOk() && OutcomesOk()
      modifies this`rows, this`jobs, this`outcomes
      ensures FifoOk() && OutcomesOk() && (old(CountsOk()) ==> CountsOk())
      ensures jobs == old(jobs) + [j] && outcomes == old(outcomes)[|old(jobs)| := Dropped(QueueOverflow)]
      ensures rows == Mark(old(rows), j.applicant, Failed(QueueOverflow))
    {
      ghost var k := |jobs|;
      assert k !in queued && k !in accepted && k !in outcomes;
      OneMoreDelivered(outcomes, k, Dropped(QueueOverflow));
      OneMoreError(outcomes, k, Dropped(QueueOverflow));
      jobs, outcomes := jobs + [j], outcomes[k := Dropped(QueueOverflow)];
      MarkFailed(j, QueueOverflow);
    }

    /** The receive of the Run loop; the single worker holds no job when it receives. */
    method Take() returns (r: Option<Job>)
      requires Valid() && inHand == None
      modifies this`ch, this`inHand, this`queued
      ensures Valid()
      ensures r.None? <==> old(ch) == []
      ensures r.None? ==> ch == [] && inHand == None
      ensures r.Some? ==>
                && r.value == old(ch)[0] && ch == old(ch)[1..]
                && inHand == Some(old(queued)[0]) && jobs[inHand.value] == r.value
    {
      if ch == [] {
        return None;
      }
      r := Some(ch[0]);
      Pop();
    }

    /** The head of the channel moves into the worker's hand. */
    method Pop()
      requires FifoOk() && OutcomesOk() && inHand == None && ch != []
      modifies this`ch, this`inHand, this`queued
      ensures FifoOk() && OutcomesOk()
      ensures ch == old(ch)[1..] && inHand == Some(old(queued)[0]) && jobs[inHand.value] == old(ch)[0]
    {
      assert accepted[|processed|] == queued[0];
      inHand := Some(queued[0]);
      ch, queued := ch[1..], queued[1..];
    }

    /** transitionCircuitClosedIfElapsed, with its first clock reading. */
    method CheckCircuit(check: Time) returns (open: bool)
      requires count <= buf.Length
      modifies this`buf, this`count, this`circuitOpenAt
      ensures count <= buf.Length && (buf == old(buf) || fresh(buf))
      ensures Circuit() == B.AfterCheck(old(Circuit()), check)
      ensures open <==> B.StillOpen(old(Circuit()), check)
    {
      if circuitOpenAt == 0 {
        return false;
      }
      if check - circuitOpenAt < B.OPEN_DURATION {
        return true;
      }
      circuitOpenAt := 0;
      buf, count := new Time[0], 0;
      return false;
    }

    /** failuresWindow[:0] refilled with the elements after cutoff: a compaction of the same buffer. */
    method PruneInPlace(cutoff: Time)
      requires count <= buf.Length
      modifies this`count, buf
      ensures count <= buf.Length
      ensures buf[..count] == B.Recent(old(buf[..count]), cutoff)
    {
      ghost var window := buf[..count];
      var kept, i := 0, 0;
      while i < count
        invariant 0 <= kept <= i <= count
        invariant buf[..kept] == B.Recent(window[..i], cutoff)
        invariant buf[i..count] == window[i..]
        modifies buf
      {
        assert buf[i] == buf[i..count][0] == window[i];
        assert window[..i + 1][..i] == window[..i];
        assert window[i + 1..] == window[i..][1..];
        if buf[i] > cutoff {
          buf[kept] := buf[i];
          kept := kept + 1;
        }
        i := i + 1;
      }
      count := kept;
      assert window[..i] == window;
    }

    /** append: the buffer is reallocated when it is full. */
    method Append(t: Time)
      requires count <= buf.Length
      modifies this`buf, this`count, buf
      ensures count <= buf.Length && (buf == old(buf) || fresh(buf))
      ensures buf[..count] == old(buf[..count]) + [t]
    {
      if count == buf.Length {
        var bigger := new Time[2 * count + 1];
        for i := 0 to count
          invariant bigger[..i] == buf[..i]
          modifies bigger
        {
          bigger[i] := buf[i];
        }
        buf := bigger;
      }
      buf[count] := t;
      count := count + 1;
    }

    /** transitionCircuitOpenedIfThresholdReached. */
    method RecordFailure(at: Time) returns (tripped: bool)
      requires count <= buf.Length
      modifies this`buf, this`count, this`circuitOpenAt, buf
      ensures count <= buf.Length && (buf == old(buf) || fresh(buf))
      ensures Circuit() == B.AfterFailure(old(Circuit()), at)
      ensures tripped <==> B.Trips(old(Circuit()), at)
    {
      PruneInPlace(at - B.TRIP_WINDOW);
      Append(at);
      if count < B.TRIP_COUNT || circuitOpenAt != 0 {
        return false;
      }
      circuitOpenAt := at;
      return true;
    }

    method ResetFailures()
      requires count <= buf.Length
      modifies this`buf, this`count
      ensures count <= buf.Length && fresh(buf)
      ensures Circuit() == B.AfterSuccess(old(Circuit()))
    {
      buf, count := new Time[0], 0;
    }

    /**
     The per-job pipeline. The attempt a says how the send would go and which clock values
     it reads; text is the sender's error.
     */
    method Process(j: Job, a: B.Attempt, text: seq<U.Byte>)
      requires Valid() && inHand.Some? && j == jobs[inHand.value]
      requires a.recipient == j.hasRecipient && B.Ordered(now, a)
      modifies this`buf, this`count, this`circuitOpenAt, this`rows, this`processed, this`inHand, this`outcomes,
          this`log, this`now, buf
      ensures Valid() && (buf == old(buf) || fresh(buf))
      ensures var o := OutcomeOf(old(Circuit()), a, text);
              && rows == Mark(old(rows), j.applicant, StatusOf(o))
              && outcomes == old(outcomes)[old(inHand.value) := o]
      ensures (Circuit(), log) == (B.Process(old(Circuit()), a).0, old(log) + B.Process(old(Circuit()), a).1)
      ensures inHand == None && processed == old(processed) + [old(inHand.value)] && now == a.record
    {
      ghost var before, k := Circuit(), inHand.value;
      Deliver(j, a, text);
      Record(k, before, a, text);
    }

    /** History catches up with a processed job. */
    ghost method Record(k: nat, before: B.State, a: B.Attempt, text: seq<U.Byte>)
      requires count <= buf.Length && Circuit() == B.Process(before, a).0
      requires B.Inv(before, log, now) && B.Ordered(now, a)
      requires FifoOk() && OutcomesOk() && CountsOk() && inHand == Some(k)
      modifies this`processed, this`inHand, this`outcomes, this`log, this`now
      ensures Valid()
      ensures inHand == None && processed == old(processed) + [k]
      ensures outcomes == old(outcomes)[k := OutcomeOf(before, a, text)]
      ensures log == old(log) + B.Process(before, a).1 && now == a.record
    {
      B.ProcessKeepsInv(before, log, now, a);
      InHandIsOpen(k);
      CountsMove(outcomes, log, k, before, a, text);
      FinishJob(k, OutcomeOf(before, a, text));
      RecordLog(B.Process(before, a).1, a.record);
    }

    /** The job in hand has no outcome yet. */
    lemma InHandIsOpen(k: nat)
      requires FifoOk() && OutcomesOk() && inHand == Some(k)
      ensures k !in outcomes
    {
    }

    ghost method RecordLog(entries: seq<B.Entry>, to: Time)
      requires count <= buf.Length && 0 < to && B.Inv(Circuit(), log + entries, to)
      modifies this`log, this`now
      ensures CircuitOk() && log == old(log) + entries && now == to
    {
      log, now := log + entries, to;
    }

    /** The sends and writes of process, without the bookkeeping of history. */
    method Deliver(j: Job, a: B.Attempt, text: seq<U.Byte>)
      requires count <= buf.Length && a.recipient == j.hasRecipient
      modifies this`buf, this`count, this`circuitOpenAt, this`rows, buf
      ensures count <= buf.Length && (buf == old(buf) || fresh(buf))
      ensures rows == Mark(old(rows), j.applicant, StatusOf(OutcomeOf(old(Circuit()), a, text)))
      ensures Circuit() == B.Process(old(Circuit()), a).0
    {
      if !j.hasRecipient {
        MarkFailed(j, MissingRecipient);
        return;
      }
      var open := CheckCircuit(a.check);
      if open {
        MarkFailed(j, CircuitOpen);
        return;
      }
      if !a.ok {
        MarkFailed(j, SendError(text));
        var _ := RecordFailure(a.record);
        return;
      }
      rows := Mark(rows, j.applicant, Sent);
      ResetFailures();
    }

    /** The job in hand gets its one outcome. */
    ghost method FinishJob(k: nat, o: Outcome)
      requires FifoOk() && OutcomesOk() && inHand == Some(k) && o != Dropped(QueueOverflow)
      modifies this`processed, this`inHand, this`outcomes
      ensures FifoOk() && OutcomesOk()
      ensures inHand == None && processed == old(processed) + [k] && outcomes == old(outcomes)[k := o]
    {
      assert accepted[|processed|] == k;
      forall i | 0 <= i < |queued| ensures queued[i] != k {
        assert queued[i] == accepted[|processed| + 1 + i];
      }
      processed, inHand, outcomes := processed + [k], None, outcomes[k := o];
    }

    /** The restart sweep: lists the lost rows, then marks them one by one. */
    method Sweep() returns (affected: nat)
      requires Valid()
      modifies this`rows
      ensures Valid()
      ensures rows == Swept(old(rows), namespace)
      ensures affected == |LostRows(old(rows), namespace)|
    {
      affected := SweepRows();
    }

    method SweepRows() returns (affected: nat)
      modifies this`rows
      ensures rows == Swept(old(rows), namespace) && affected == |LostRows(old(rows), namespace)|
    {
      var lost := LostRows(rows, namespace);
      var todo := lost;
      SweepDone(rows, namespace);
      while todo != {}
        invariant todo <= lost
        invariant rows == SweptSoFar(old(rows), lost - todo)
        decreases |todo|
      {
        var a := TakeAny(todo);
        SweepOne(old(rows), lost - todo, a);
        assert lost - todo + {a} == lost - (todo - {a});
        MarkFailed(Job(a, false), LostOnRestart);
        todo := todo - {a};
      }
      assert lost - {} == lost;
      affected := |lost|;
    }

    /** The rate bound holds for the sends of every reachable queue. */
    lemma RateOfSends(i: nat, j: nat)
      requires Valid() && i <= j < |log| && log[i].Failed? && log[j].Failed? && log[j].at - log[i].at < B.TRIP_WINDOW
      requires forall k | i <= k <= j :: !log[k].Sent?
      ensures B.FailCount(log[i..j + 1]) <= B.TRIP_COUNT
    {
      B.SpanBound(log, i, j);
    }

    /** Every success in the log is one delivered job, and every failure one job with a send error. */
    lemma DeliveriesAreSends()
      requires Valid()
      ensures |set k | k in outcomes && outcomes[k] == Delivered| == B.SentCount(log)
      ensures |set k | k in outcomes && outcomes[k].Dropped? && outcomes[k].reason.SendError?| == B.FailCount(log)
    {
      assert Delivereds(outcomes) == set k | k in outcomes && outcomes[k] == Delivered;
      assert SendErrors(outcomes) == set k | k in outcomes && outcomes[k].Dropped? && outcomes[k].reason.SendError?;
    }

    /**
     Conservation: a job offered is queued, in hand or has its one outcome, never two of
     these; the worker processes accepted jobs in the order they were offered.
     */
    lemma EveryJobOnce(k: nat)
      requires Valid() && k < |jobs|
      ensures 1 ==
                (if k in queued then 1 else 0) + (if inHand == Some(k) then 1 else 0) + (if k in outcomes then 1 else 0)
      ensures processed <= accepted && |ch| <= maxDepth
      ensures |accepted| == |processed| + (if inHand.Some? then 1 else 0) + |ch|
    {
      if inHand == Some(k) {
        assert accepted[|processed|] == k;
        forall i | 0 <= i < |queued| ensures queued[i] != k {
          assert queued[i] == accepted[|processed| + 1 + i];
        }
      }
    }
  }

  /**
   Crash recovery: whatever rows a crash leaves, the sweep fails exactly the approved rows of
   live playtests of the namespace whose DM is unset or pending, as lost on restart. Every
   other row keeps its status and reason, and a second sweep finds nothing and changes nothing.
   */
  lemma SweepRecovers(rows: map<Id, Row>, namespace: Id, a: Id)
    requires a in rows
    ensures var after := Swept(rows, namespace);
            var lost := rows[a].namespace == namespace && rows[a].live && rows[a].approved
                && (rows[a].dm == Unset || rows[a].dm == Pending);
            && after.Keys == rows.Keys
            && after[a] == (if lost then rows[a].(dm := Failed(LostOnRestart)) else rows[a])
            && Swept(after, namespace) == after
            && LostRows(after, namespace) == {}
    ensures a in LostRows(rows, namespace) <==>
              rows[a].namespace == namespace && rows[a].live && rows[a].approved
                  && (rows[a].dm == Unset || rows[a].dm == Pending)
  {
    var after := Swept(rows, namespace);
    assert forall b | b in after :: !Lost(after[b], namespace);
    assert forall b | b in after :: Swept(after, namespace)[b] == after[b];
  }
}
