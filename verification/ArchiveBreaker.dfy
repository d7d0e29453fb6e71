/** What the circuit breaker guarantees over whole runs of the archive pipeline. */
module ArchiveBreaker {
  import opened ArchiveModel

  /** Closed means fewer than five failures in a row and no escalation; open and half-open mean at
      least five, with the pause escalated once per failed probe. The delivery loop is past its gate
      only while the circuit is not open. */
  ghost predicate Inv(s: System) {
    && var b := s.breaker;
    && (b.state.Closed? ==> b.fails < FAIL_THRESHOLD && b.pauseLevel == 0)
    && (!b.state.Closed? ==> b.fails >= FAIL_THRESHOLD && b.pauseLevel == Min(b.fails - FAIL_THRESHOLD, 2))
    && b.openedAt <= s.now
    && (!s.phase.Idle? ==> !b.state.Open?)
  }

  function Min(a: int, b: int): int { if a < b then a else b }

  lemma StepKeepsInv(s: System, e: Event)
    requires Inv(s) && Enabled(s, e)
    ensures Inv(Apply(s, e))
  {
  }

  /** Breaker consistency holds in every reachable state, whatever administrators do in between. */
  lemma {:induction false} ReachableInv(ss: seq<System>, es: seq<Event>, i: nat)
    requires IsRun(ss, es) && i < |ss|
    ensures Inv(ss[i])
  {
    if i == 0 {
    } else {
      ReachableInv(ss, es, i - 1);
      StepKeepsInv(ss[i - 1], es[i - 1]);
    }
  }

  /** Nothing is sent from the queue while the circuit is open. */
  lemma NoSendWhileOpen(ss: seq<System>, es: seq<Event>, i: nat)
    requires IsRun(ss, es) && i < |es| && es[i].Attempt?
    ensures !ss[i].breaker.state.Open?
  {
    ReachableInv(ss, es, i);
  }

  lemma PastGate(ss: seq<System>, es: seq<Event>)
    requires IsRun(ss, es) && !ss[|es|].phase.Idle?
    ensures !ss[|es|].breaker.state.Open?
    ensures ss[|es|].breaker.state.Closed? ==> ss[|es|].breaker.pauseLevel == 0
  {
    ReachableInv(ss, es, |es|);
  }

  lemma ClosedIsCalm(ss: seq<System>, es: seq<Event>)
    requires IsRun(ss, es)
    ensures ss[|es|].breaker.state.Closed? ==> ss[|es|].breaker.pauseLevel == 0
  {
    ReachableInv(ss, es, |es|);
  }

  /** What one outcome does to a circuit that let the item through. A success closes it and forgets the failures; a
      failure counts, and opens it if it was a probe's or the fifth in a row. */
  lemma RecordExactly(b: Breaker, ok: bool, now: nat)
    requires !b.state.Open? && (b.state.Closed? ==> b.pauseLevel == 0)
    ensures var b' := Record(b, ok, now);
      && b'.fails == (if ok then 0 else b.fails + 1)
      && (ok ==> b'.state.Closed? && b'.pauseLevel == 0)
      && (Trips(b, ok) <==> !ok && (b.state.HalfOpen? || b.fails >= 4))
      && (Trips(b, ok) ==> b'.state.Open? && b'.openedAt == now)
      && (!ok && !Trips(b, ok) ==> b'.state == b.state)
  {
  }

  /** Least time between the fifth failure in a row and the (5 + k)-th. */
  function Quiet(k: nat): nat {
    if k == 0 then 0 else if k == 1 then MINUTE else 6 * MINUTE + 15 * MINUTE * (k - 2)
  }

  lemma QuietStep(k: nat)
    ensures Quiet(k + 1) == Quiet(k) + PauseFor(Min(k, 2))
  {
  }

  /** The breaker's clock relative to `start`, the moment the circuit opened: the pauses that have
      already been sat out add up to `Quiet`. */
  ghost predicate Paced(s: System, start: nat) {
    && s.breaker.fails >= FAIL_THRESHOLD
    && !s.breaker.state.Closed?
    && var k := s.breaker.fails - FAIL_THRESHOLD;
    && (s.breaker.state.Open? ==> s.breaker.openedAt >= start + Quiet(k))
    && (s.breaker.state.HalfOpen? ==> s.now >= start + Quiet(k + 1))
  }

  /** An event that ends a streak of failures: a delivery that succeeded, an administrator's reset, a
      successful test, or a restart. */
  ghost predicate EndsStreak(s: System, e: Event) {
    (e.RecordOutcome? && s.phase.Settled? && s.phase.ok) || e.ResetCircuit? || e.TestOk? || e.Restart?
  }

  lemma StepKeepsPace(s: System, e: Event, start: nat)
    requires Inv(s) && Enabled(s, e) && Paced(s, start) && !EndsStreak(s, e)
    ensures Paced(Apply(s, e), start)
  {
    QuietStep(s.breaker.fails - FAIL_THRESHOLD);
    QuietStep(s.breaker.fails - FAIL_THRESHOLD + 1);
  }

  /** The fifth failure in a row happens in step `i`. */
  ghost predicate OpensAt(ss: seq<System>, es: seq<Event>, i: nat)
    requires IsRun(ss, es)
  {
    i < |es| && es[i].RecordOutcome? && !ss[i].phase.ok && ss[i + 1].breaker.fails == FAIL_THRESHOLD
  }

  lemma OpenedIsPaced(ss: seq<System>, es: seq<Event>, i: nat)
    requires IsRun(ss, es) && OpensAt(ss, es, i)
    ensures Paced(ss[i + 1], ss[i].now)
  {
    ReachableInv(ss, es, i);
  }

  lemma PacedNext(ss: seq<System>, es: seq<Event>, j: nat, start: nat)
    requires IsRun(ss, es) && j < |es| && Paced(ss[j], start) && !EndsStreak(ss[j], es[j])
    ensures Paced(ss[j + 1], start)
  {
    ReachableInv(ss, es, j);
    StepKeepsPace(ss[j], es[j], start);
  }

  lemma PacedSince(ss: seq<System>, es: seq<Event>, i: nat, j: nat)
    requires IsRun(ss, es) && OpensAt(ss, es, i) && i < j < |ss|
    requires forall m {:trigger es[m]} | i < m < j :: !EndsStreak(ss[m], es[m])
    ensures Paced(ss[j], ss[i].now)
  {
    OpenedIsPaced(ss, es, i);
    for m := i + 1 to j
      invariant Paced(ss[m], ss[i].now)
    {
      PacedNext(ss, es, m, ss[i].now);
    }
  }

  /** Breaker timing. When, counting from the fifth failure in a row, the failure count has reached
      5 + k with no success, reset, successful test or restart in between, at least one minute (k = 1) or
      6 + 15 (k - 2) minutes (k >= 2) have passed. */
  lemma FailureSpacing(ss: seq<System>, es: seq<Event>, i: nat, j: nat, k: nat)
    requires IsRun(ss, es) && OpensAt(ss, es, i) && i < j < |ss|
    requires forall m {:trigger es[m]} | i < m < j :: !EndsStreak(ss[m], es[m])
    requires ss[j].breaker.fails == FAIL_THRESHOLD + k
    ensures ss[j].now - ss[i].now >= Quiet(k)
  {
    PacedSince(ss, es, i, j);
    ReachableInv(ss, es, j);
    QuietStep(k);
  }

  // ---------------------------------------------------------------- the breaker in terms of the log

  /** Failures in a row. A passed test ends a row only once it has opened the circuit. */
  ghost function Row(ss: seq<System>, es: seq<Event>, j: nat): nat
    requires IsRun(ss, es) && j <= |es|
  {
    if j == 0 then 0
    else
      var row := Row(ss, es, j - 1);
      match es[j - 1]
      case RecordOutcome => assert Step(ss[j - 1], es[j - 1], ss[j]); if ss[j - 1].phase.ok then 0 else row + 1
      case ResetCircuit => 0
      case Restart => 0
      case TestOk => if row >= 5 then 0 else row
      case _ => row
  }

  /** When the last of them was recorded. */
  ghost function LastFailure(ss: seq<System>, es: seq<Event>, j: nat): nat
    requires IsRun(ss, es) && j <= |es|
  {
    if j == 0 then 0
    else if es[j - 1].RecordOutcome? && (assert Step(ss[j - 1], es[j - 1], ss[j]); !ss[j - 1].phase.ok) then ss[j - 1].now
    else LastFailure(ss, es, j - 1)
  }

  /** One, five and fifteen minutes, in nanoseconds. */
  function Pause(level: nat): nat {
    if level == 0 then 60_000_000_000 else if level == 1 then 300_000_000_000 else 900_000_000_000
  }

  /** The circuit is closed exactly while fewer than five failures stand in a row; each further one lengthens the
      pause, which counts from the last failure. */
  lemma {:induction false} BreakerFollowsLog(ss: seq<System>, es: seq<Event>, j: nat)
    requires IsRun(ss, es) && j <= |es|
    ensures var b, row := ss[j].breaker, Row(ss, es, j);
      && b.fails == row && (b.state.Closed? <==> row < 5)
      && (row >= 5 ==> b.openedAt == LastFailure(ss, es, j) && b.pauseLevel == Min(row - 5, 2))
  {
    ReachableInv(ss, es, j);
    if j == 0 {
    } else {
      BreakerFollowsLog(ss, es, j - 1);
      ReachableInv(ss, es, j - 1);
      assert Step(ss[j - 1], es[j - 1], ss[j]);
    }
  }

  /** The gate lets the loop through exactly when the circuit is closed, a probe is under way already, or the pause
      is over; and what comes through after five failures is a probe. */
  lemma GateExactly(ss: seq<System>, es: seq<Event>, j: nat)
    requires IsRun(ss, es) && j < |es| && es[j].Gate?
    ensures var row := Row(ss, es, j);
      && (ss[j + 1].phase.Gated? <==>
            row < 5 || ss[j].breaker.state.HalfOpen? || ss[j].now - LastFailure(ss, es, j) >= Pause(row - 5))
      && (ss[j + 1].phase.Gated? && row >= 5 ==> ss[j + 1].breaker.state.HalfOpen?)
      && (!ss[j + 1].phase.Gated? ==> ss[j + 1].phase.Idle? && ss[j + 1].rows == ss[j].rows)
  {
    BreakerFollowsLog(ss, es, j);
    assert Step(ss[j], es[j], ss[j + 1]);
  }
}
