/** The health monitor: probes, recovery attempts and their budget (internal/proxy/health.go). One loop probes
    and starts recoveries; background recoveries and manual resets run beside it. */
module HealthModel {

  const FAIL_THRESHOLD := 3
  const COOLDOWN := 300.0
  const MAX_ATTEMPTS := 3

  /** Where the monitor's loop is: a failing probe was counted and its server is about to be marked, or a
      stateless server is being retried. */
  datatype Loop = Idle | Marking(server: string) | Retrying(server: string)

  /** The guarded maps, the loop, and the background recoveries: at work, or done but not yet signed off. */
  datatype State = State(
    failCounts: map<string, nat>, lastRecover: map<string, real>, attempts: map<string, nat>, recovering: set<string>,
    loop: Loop, working: multiset<string>, leaving: multiset<string>, clock: real)

  const INITIAL: State := State(map[], map[], map[], {}, Idle, multiset{}, multiset{}, 0.0)

  /** An attempt reads the clock twice: when it checks the cooldown and when it stamps the attempt. */
  datatype Event =
    | ProbePassed(server: string)
    | BackendMissing(server: string)
    | ProbeFailed(server: string)
    | MarkError(server: string)
    | StartRetry(server: string, checked: real, stamped: real)
    | RetryFailed(server: string)
    | RetrySucceeded(server: string)
    | StartBackground(server: string, checked: real, stamped: real)
    | BackgroundFailed(server: string)
    | BackgroundSucceeded(server: string)
    | SignOff(server: string)
    | ManualReset(server: string)

  function FailCount(s: State, id: string): nat {
    if id in s.failCounts then s.failCounts[id] else 0
  }

  function Attempts(s: State, id: string): nat {
    if id in s.attempts then s.attempts[id] else 0
  }

  /** The three checks before an attempt. */
  predicate MayStart(s: State, id: string, now: real) {
    && id !in s.recovering
    && (id in s.lastRecover ==> now - s.lastRecover[id] >= COOLDOWN)
    && Attempts(s, id) < MAX_ATTEMPTS
  }

  predicate Starts(e: Event) {
    e.StartRetry? || e.StartBackground?
  }

  /** Clears the recovery budget of its server. */
  predicate Resets(e: Event) {
    e.RetrySucceeded? || e.BackgroundSucceeded? || e.ManualReset?
  }

  /** Ends a row of failing probes. */
  predicate Clears(e: Event) {
    Resets(e) || e.ProbePassed? || e.BackendMissing?
  }

  /** Steps of the monitor's own loop. */
  predicate OfLoop(e: Event) {
    e.ProbePassed? || e.BackendMissing? || e.ProbeFailed? || e.MarkError? || Starts(e) || e.RetryFailed? || e.RetrySucceeded?
  }

  predicate Enabled(s: State, e: Event) {
    match e
    case ProbePassed(_) => s.loop.Idle?
    case BackendMissing(_) => s.loop.Idle?
    case ProbeFailed(_) => s.loop.Idle?
    case MarkError(id) => s.loop == Marking(id)
    case StartRetry(id, t, u) => s.loop.Idle? && s.clock <= t <= u && MayStart(s, id, t)
    case RetryFailed(id) => s.loop == Retrying(id)
    case RetrySucceeded(id) => s.loop == Retrying(id)
    case StartBackground(id, t, u) => s.loop.Idle? && s.clock <= t <= u && MayStart(s, id, t)
    case BackgroundFailed(id) => id in s.working
    case BackgroundSucceeded(id) => id in s.working
    case SignOff(id) => id in s.leaving
    case ManualReset(_) => true
  }

  function Without<T>(m: map<string, T>, id: string): map<string, T> {
    map k | k in m && k != id :: m[k]
  }

  function FailCountsAfter(s: State, e: Event): map<string, nat> {
    if Clears(e) then Without(s.failCounts, e.server)
    else if e.ProbeFailed? then s.failCounts[e.server := FailCount(s, e.server) + 1]
    else s.failCounts
  }

  function LastAfter(s: State, e: Event): map<string, real> {
    if Resets(e) then Without(s.lastRecover, e.server)
    else if Starts(e) then s.lastRecover[e.server := e.stamped]
    else s.lastRecover
  }

  function AttemptsAfter(s: State, e: Event): map<string, nat> {
    if Resets(e) then Without(s.attempts, e.server)
    else if Starts(e) then s.attempts[e.server := Attempts(s, e.server) + 1]
    else s.attempts
  }

  function LoopAfter(s: State, e: Event): Loop {
    if e.ProbeFailed? then if FailCount(s, e.server) + 1 >= FAIL_THRESHOLD then Marking(e.server) else Idle
    else if e.StartRetry? then Retrying(e.server)
    else if OfLoop(e) then Idle
    else s.loop
  }

  function RecoveringAfter(s: State, e: Event): set<string> {
    if e.StartBackground? then s.recovering + {e.server}
    else if e.SignOff? then s.recovering - {e.server}
    else s.recovering
  }

  function WorkingAfter(s: State, e: Event): multiset<string> {
    if e.StartBackground? then s.working + multiset{e.server}
    else if e.BackgroundFailed? || e.BackgroundSucceeded? then s.working - multiset{e.server}
    else s.working
  }

  function LeavingAfter(s: State, e: Event): multiset<string> {
    if e.BackgroundFailed? || e.BackgroundSucceeded? then s.leaving + multiset{e.server}
    else if e.SignOff? then s.leaving - multiset{e.server}
    else s.leaving
  }

  function Apply(s: State, e: Event): State {
    State(FailCountsAfter(s, e), LastAfter(s, e), AttemptsAfter(s, e), RecoveringAfter(s, e),
          LoopAfter(s, e), WorkingAfter(s, e), LeavingAfter(s, e), if Starts(e) then e.stamped else s.clock)
  }

  ghost predicate Step(s: State, e: Event, s': State) {
    Enabled(s, e) && s' == Apply(s, e)
  }

  ghost predicate StepAt(ss: seq<State>, es: seq<Event>, i: nat)
    requires |ss| == |es| + 1 && i < |es|
  {
    Step(ss[i], es[i], ss[i + 1])
  }

  ghost predicate IsRun(ss: seq<State>, es: seq<Event>) {
    && |ss| == |es| + 1
    && ss[0] == INITIAL
    && forall i: nat | i < |es| :: StepAt(ss, es, i)
  }

  lemma RunExtends(ss: seq<State>, es: seq<Event>, e: Event)
    requires IsRun(ss, es) && Enabled(ss[|es|], e)
    ensures IsRun(ss + [Apply(ss[|es|], e)], es + [e])
  {
    var ts, fs := ss + [Apply(ss[|es|], e)], es + [e];
    forall i: nat | i < |fs| ensures StepAt(ts, fs, i) {
      if i < |es| { assert StepAt(ss, es, i); }
    }
  }
}

/** The recovery budget, over every interleaving. */
module HealthBudget {
  import opened HealthModel

  // ---------------------------------------------------------------- one recovery at a time

  /** The flag stands for exactly one background recovery. */
  ghost predicate FlagInv(s: State, id: string) {
    s.working[id] + s.leaving[id] == if id in s.recovering then 1 else 0
  }

  lemma StepFlag(s: State, e: Event, s': State, id: string)
    requires Step(s, e, s') && FlagInv(s, id)
    ensures FlagInv(s', id)
  {
  }

  lemma {:induction false} OneRecovery(ss: seq<State>, es: seq<Event>, i: nat, id: string)
    requires IsRun(ss, es) && i < |ss|
    ensures FlagInv(ss[i], id)
    ensures ss[i].working[id] <= 1
  {
    if i == 0 {
    } else {
      OneRecovery(ss, es, i - 1, id);
      assert StepAt(ss, es, i - 1);
      StepFlag(ss[i - 1], es[i - 1], ss[i], id);
    }
  }

  // ---------------------------------------------------------------- one step, one server

  lemma StepAttempts(ss: seq<State>, es: seq<Event>, i: nat, id: string)
    requires IsRun(ss, es) && i < |es|
    ensures Attempts(ss[i + 1], id) ==
            if es[i].server != id then Attempts(ss[i], id)
            else if Resets(es[i]) then 0 else Attempts(ss[i], id) + if Starts(es[i]) then 1 else 0
    ensures es[i].server == id && Starts(es[i]) ==> Attempts(ss[i], id) < MAX_ATTEMPTS
  {
    assert StepAt(ss, es, i);
  }

  lemma StepFails(ss: seq<State>, es: seq<Event>, i: nat, id: string)
    requires IsRun(ss, es) && i < |es|
    ensures FailCount(ss[i + 1], id) ==
            if es[i].server != id then FailCount(ss[i], id)
            else if Clears(es[i]) then 0 else FailCount(ss[i], id) + if es[i].ProbeFailed? then 1 else 0
  {
    assert StepAt(ss, es, i);
  }

  lemma StepStamp(ss: seq<State>, es: seq<Event>, i: nat, id: string)
    requires IsRun(ss, es) && i < |es|
    ensures ss[i + 1].clock >= ss[i].clock
    ensures Starts(es[i]) ==> es[i].checked >= ss[i].clock && ss[i + 1].clock == es[i].stamped >= es[i].checked
    ensures es[i].server == id && Starts(es[i]) ==> id in ss[i + 1].lastRecover && ss[i + 1].lastRecover[id] == es[i].stamped
    ensures !(es[i].server == id && (Starts(es[i]) || Resets(es[i]))) && id in ss[i].lastRecover ==>
              id in ss[i + 1].lastRecover && ss[i + 1].lastRecover[id] == ss[i].lastRecover[id]
    ensures es[i].server == id && Starts(es[i]) && id in ss[i].lastRecover ==>
              es[i].checked >= ss[i].lastRecover[id] + COOLDOWN
  {
    assert StepAt(ss, es, i);
  }

  lemma StepLoop(ss: seq<State>, es: seq<Event>, i: nat, id: string)
    requires IsRun(ss, es) && i < |es| && ss[i + 1].loop == Marking(id)
    ensures if OfLoop(es[i]) then es[i] == ProbeFailed(id) && FailCount(ss[i], id) + 1 >= FAIL_THRESHOLD
            else ss[i].loop == Marking(id)
  {
    assert StepAt(ss, es, i);
  }

  // ---------------------------------------------------------------- at most three attempts

  /** Attempts of `id` begun since its budget was last reset. */
  ghost function Started(es: seq<Event>, id: string, j: nat): nat
    requires j <= |es|
  {
    if j == 0 then 0
    else if es[j - 1].server != id then Started(es, id, j - 1)
    else if Resets(es[j - 1]) then 0
    else if Starts(es[j - 1]) then Started(es, id, j - 1) + 1
    else Started(es, id, j - 1)
  }

  /** At most three attempts start between resets, and after the third none may. */
  lemma {:induction false} AttemptBudget(ss: seq<State>, es: seq<Event>, id: string, j: nat)
    requires IsRun(ss, es) && j < |ss|
    ensures Attempts(ss[j], id) == Started(es, id, j) <= 3
    ensures Started(es, id, j) == 3 ==> forall now :: !MayStart(ss[j], id, now)
  {
    if j == 0 {
    } else {
      AttemptBudget(ss, es, id, j - 1);
      StepAttempts(ss, es, j - 1, id);
    }
  }

  // ---------------------------------------------------------------- spacing

  /** `id` was not reset in [i, j). */
  ghost predicate Unreset(es: seq<Event>, id: string, i: nat, j: nat)
    requires i <= j <= |es|
  {
    forall k | i <= k < j :: !(Resets(es[k]) && es[k].server == id)
  }

  lemma {:induction false} StampKept(ss: seq<State>, es: seq<Event>, id: string, i: nat, j: nat)
    requires IsRun(ss, es) && i < j <= |es| && Starts(es[i]) && es[i].server == id && Unreset(es, id, i + 1, j)
    ensures id in ss[j].lastRecover && ss[j].lastRecover[id] >= es[i].stamped
    ensures ss[j].clock >= ss[j].lastRecover[id]
  {
    StepStamp(ss, es, j - 1, id);
    if i + 1 < j {
      StampKept(ss, es, id, i, j - 1);
      assert !(Resets(es[j - 1]) && es[j - 1].server == id);
    }
  }

  /** Attempts between resets are at least five minutes apart. */
  lemma AttemptSpacing(ss: seq<State>, es: seq<Event>, id: string, i: nat, j: nat)
    requires IsRun(ss, es) && i < j < |es| && Starts(es[i]) && es[i].server == id && Starts(es[j]) && es[j].server == id
    requires Unreset(es, id, i + 1, j)
    ensures es[j].stamped >= es[j].checked >= es[i].stamped + 300.0
  {
    StampKept(ss, es, id, i, j);
    StepStamp(ss, es, j, id);
  }

  // ---------------------------------------------------------------- marking errors

  /** Failing probes of `id` in a row. */
  ghost function FailRow(es: seq<Event>, id: string, j: nat): nat
    requires j <= |es|
  {
    if j == 0 then 0
    else if es[j - 1].server != id then FailRow(es, id, j - 1)
    else if Clears(es[j - 1]) then 0
    else if es[j - 1].ProbeFailed? then FailRow(es, id, j - 1) + 1
    else FailRow(es, id, j - 1)
  }

  lemma {:induction false} FailCountIsRow(ss: seq<State>, es: seq<Event>, id: string, j: nat)
    requires IsRun(ss, es) && j < |ss|
    ensures FailCount(ss[j], id) == FailRow(es, id, j)
  {
    if j == 0 {
    } else {
      FailCountIsRow(ss, es, id, j - 1);
      StepFails(ss, es, j - 1, id);
    }
  }

  /** The loop makes no step in [i, j). */
  ghost predicate LoopQuiet(es: seq<Event>, i: nat, j: nat)
    requires i <= j <= |es|
  {
    forall k | i <= k < j :: !OfLoop(es[k])
  }

  lemma {:induction false} MarkingSince(ss: seq<State>, es: seq<Event>, id: string, j: nat) returns (p: nat)
    requires IsRun(ss, es) && j < |ss| && ss[j].loop == Marking(id)
    ensures p < j && es[p] == ProbeFailed(id) && LoopQuiet(es, p + 1, j) && FailRow(es, id, p + 1) >= FAIL_THRESHOLD
  {
    assert j > 0;
    StepLoop(ss, es, j - 1, id);
    if OfLoop(es[j - 1]) {
      p := j - 1;
      FailCountIsRow(ss, es, id, j - 1);
    } else {
      p := MarkingSince(ss, es, id, j - 1);
    }
  }

  /** A server is marked only after three failing probes in a row, the last of which the loop has just made. */
  lemma ErrorNeedsFailures(ss: seq<State>, es: seq<Event>, id: string, j: nat) returns (p: nat)
    requires IsRun(ss, es) && j < |es| && es[j] == MarkError(id)
    ensures p < j && es[p] == ProbeFailed(id) && LoopQuiet(es, p + 1, j) && FailRow(es, id, p + 1) >= 3
  {
    assert StepAt(ss, es, j);
    p := MarkingSince(ss, es, id, j);
  }

  lemma {:induction false} RowAfterProbe(es: seq<Event>, id: string, p: nat, j: nat)
    requires p < j <= |es| && LoopQuiet(es, p + 1, j)
    ensures FailRow(es, id, j) == if Unreset(es, id, p + 1, j) then FailRow(es, id, p + 1) else 0
    decreases j
  {
    if p + 1 < j {
      RowAfterProbe(es, id, p, j - 1);
      assert !OfLoop(es[j - 1]);
      if Resets(es[j - 1]) && es[j - 1].server == id { assert !Unreset(es, id, p + 1, j); }
    }
  }

  /** The count behind the mark still stands when the mark is made if and only if no reset came between. */
  lemma MarkStandsExactly(ss: seq<State>, es: seq<Event>, id: string, j: nat) returns (p: nat)
    requires IsRun(ss, es) && j < |es| && es[j] == MarkError(id)
    ensures p < j && es[p] == ProbeFailed(id) && LoopQuiet(es, p + 1, j)
    ensures FailRow(es, id, j) >= 3 <==> Unreset(es, id, p + 1, j)
  {
    p := ErrorNeedsFailures(ss, es, id, j);
    RowAfterProbe(es, id, p, j);
  }

  /** It can come between: a manual reset, and the server is marked all the same. */
  lemma MarkedAfterReset(id: string) returns (ss: seq<State>, es: seq<Event>)
    ensures IsRun(ss, es) && es == [ProbeFailed(id), ProbeFailed(id), ProbeFailed(id), ManualReset(id), MarkError(id)]
    ensures FailCount(ss[4], id) == 0
  {
    ss, es := [INITIAL], [];
    var e := ProbeFailed(id);
    RunExtends(ss, es, e);
    ss, es := ss + [Apply(INITIAL, e)], es + [e];
    RunExtends(ss, es, e);
    ss, es := ss + [Apply(ss[1], e)], es + [e];
    assert FailCount(ss[2], id) == 2;
    RunExtends(ss, es, e);
    ss, es := ss + [Apply(ss[2], e)], es + [e];
    assert ss[3].loop == Marking(id);
    RunExtends(ss, es, ManualReset(id));
    ss, es := ss + [Apply(ss[3], ManualReset(id))], es + [ManualReset(id)];
    RunExtends(ss, es, MarkError(id));
    ss, es := ss + [Apply(ss[4], MarkError(id))], es + [MarkError(id)];
  }
}

/** The monitor as an object; every method is a stretch under its mutex or between two of them. */
module HealthMonitor {
  import opened HealthModel
  import opened HealthBudget

  /** A probe's count while the loop stands still. */
  lemma CountStands(ss: seq<State>, es: seq<Event>, id: string, j: nat)
    requires IsRun(ss, es) && 0 < j <= |es| && es[j - 1] == ProbeFailed(id) && LoopQuiet(es, j, |es|)
    ensures FailCount(ss[|es|], id) == if Unreset(es, id, j, |es|) then FailCount(ss[j], id) else 0
  {
    RowAfterProbe(es, id, j - 1, |es|);
    FailCountIsRow(ss, es, id, |es|);
    FailCountIsRow(ss, es, id, j);
  }

  lemma UnresetNext(es: seq<Event>, e: Event, id: string, i: nat)
    requires i <= |es| && !Resets(e)
    ensures Unreset(es + [e], id, i, |es| + 1) <==> Unreset(es, id, i, |es|)
  {
    assert forall k | 0 <= k < |es| :: (es + [e])[k] == es[k];
    if Unreset(es + [e], id, i, |es| + 1) {
      forall k | i <= k < |es| ensures !(Resets(es[k]) && es[k].server == id) { assert (es + [e])[k] == es[k]; }
    }
  }

  class HealthMonitor {
    var failCounts: map<string, nat>
    var lastRecover: map<string, real>
    var attempts: map<string, nat>
    var recovering: set<string>
    var working: multiset<string> // background recoveries
    var leaving: multiset<string>
    ghost var loop: Loop
    ghost var clock: real
    ghost var states: seq<State>
    ghost var events: seq<Event>

    ghost predicate Valid()
      reads this
    {
      IsRun(states, events) && states[|events|] == Now()
    }

    ghost function Now(): State
      reads this
    {
      State(failCounts, lastRecover, attempts, recovering, loop, working, leaving, clock)
    }

    twostate predicate Did(e: Event)
      reads this
    {
      && events == old(events) + [e] && |states| == |events| + 1 && states == old(states) + [Now()]
      && Enabled(old(Now()), e) && Now() == Apply(old(Now()), e)
    }

    constructor ()
      ensures Valid() && Now() == INITIAL && events == []
    {
      failCounts, lastRecover, attempts, recovering := map[], map[], map[], {};
      working, leaving := multiset{}, multiset{};
      loop, clock := Idle, 0.0;
      states, events := [INITIAL], [];
    }

    ghost method Note(e: Event)
      requires IsRun(states, events) && Enabled(states[|events|], e)
      requires var s := Apply(states[|events|], e);
        && failCounts == s.failCounts && lastRecover == s.lastRecover && attempts == s.attempts && recovering == s.recovering
        && working == s.working && leaving == s.leaving
      modifies `loop, `clock, `states, `events
      ensures Valid() && events == old(events) + [e] && |states| == |events| + 1 && states == old(states) + [Now()]
      ensures Now() == Apply(old(states[|events|]), e)
    {
      var s := Apply(states[|events|], e);
      RunExtends(states, events, e);
      loop, clock := s.loop, s.clock;
      states, events := states + [s], events + [e];
    }

    method ResetFailCount(id: string, ghost e: Event)
      requires Valid() && Enabled(Now(), e) && (e == ProbePassed(id) || e == BackendMissing(id))
      modifies this
      ensures Valid() && Did(e)
    {
      failCounts := Without(failCounts, id);
      Note(e);
    }

    /** A step of a background recovery or a manual reset, if it is possible now. */
    method Perform(e: Event)
      requires Valid()
      modifies this
      ensures Valid() && loop == old(loop) && clock == old(clock)
      ensures old(events) <= events && old(states) <= states && LoopQuiet(events, |old(events)|, |events|)
    {
      match e {
        case ManualReset(id) => ResetRecoveryState(id);
        case BackgroundFailed(id) => if id in working { FinishBackground(id, false); }
        case BackgroundSucceeded(id) => if id in working { FinishBackground(id, true); }
        case SignOff(id) => if id in leaving { LeaveBackground(id); }
        case _ => {}
      }
    }

    method PerformAll(es: seq<Event>)
      requires Valid()
      modifies this
      ensures Valid() && loop == old(loop) && clock == old(clock)
      ensures old(events) <= events && old(states) <= states && LoopQuiet(events, |old(events)|, |events|)
      ensures es == [] ==> Now() == old(Now())
    {
      for i := 0 to |es|
        invariant Valid() && loop == old(loop) && clock == old(clock)
        invariant old(events) <= events && old(states) <= states && LoopQuiet(events, |old(events)|, |events|)
        invariant i == 0 ==> Now() == old(Now())
      {
        Perform(es[i]);
      }
    }

    /** One probe of a running server; `between` is what others do between the count and the mark. The server is marked
        exactly when this was the third failure in a row or a later one, whatever others do; the count it was
        marked for still stands exactly when nobody reset it meanwhile. */
    method CheckRunning(id: string, hasBackend: bool, pingOk: bool, between: seq<Event>) returns (marked: bool)
      requires Valid() && loop.Idle?
      modifies this
      ensures Valid() && loop.Idle? && clock == old(clock) && old(events) < events
      ensures marked <==> hasBackend && !pingOk && old(FailCount(Now(), id)) + 1 >= 3
      ensures FailCount(Now(), id) ==
              if hasBackend && !pingOk && Unreset(events, id, |old(events)| + 1, |events|) then old(FailCount(Now(), id)) + 1 else 0
      ensures !marked || between == [] ==>
                lastRecover == old(lastRecover) && attempts == old(attempts) && recovering == old(recovering)
    {
      marked := false;
      if !hasBackend {
        ResetFailCount(id, BackendMissing(id));
        return;
      }
      if pingOk {
        ResetFailCount(id, ProbePassed(id));
        return;
      }
      var count := CountFailure(id);
      if count >= FAIL_THRESHOLD {
        marked := true;
        MarkLater(id, between);
      }
    }

    /** From the count to the mark. */
    method MarkLater(id: string, between: seq<Event>)
      requires Valid() && loop == Marking(id) && events != [] && events[|events| - 1] == ProbeFailed(id)
      modifies this
      ensures Valid() && loop.Idle? && clock == old(clock) && old(events) < events
      ensures FailCount(Now(), id) == if Unreset(events, id, |old(events)|, |events|) then old(FailCount(Now(), id)) else 0
      ensures between == [] ==> lastRecover == old(lastRecover) && attempts == old(attempts) && recovering == old(recovering)
    {
      PerformAll(between);
      CountStands(states, events, id, |old(events)|);
      UnresetNext(events, MarkError(id), id, |old(events)|);
      Note(MarkError(id));
    }

    method CountFailure(id: string) returns (count: nat)
      requires Valid() && loop.Idle?
      modifies this
      ensures Valid() && Did(ProbeFailed(id))
      ensures count == FailCount(Now(), id) == old(FailCount(Now(), id)) + 1
    {
      count := (if id in failCounts then failCounts[id] else 0) + 1;
      failCounts := failCounts[id := count];
      Note(ProbeFailed(id));
    }

    /** Tries to recover an errored server; `success` is the outcome of an inline retry. */
    method TryRecover(id: string, stateless: bool, checked: real, stamped: real, success: bool) returns (started: bool)
      requires Valid() && loop.Idle? && clock <= checked <= stamped
      modifies this
      ensures Valid() && loop.Idle?
      ensures started <==> old(MayStart(Now(), id, checked))
      ensures started <==>
                && id !in old(recovering) && (id in old(attempts) ==> old(attempts)[id] < 3)
                && (id in old(lastRecover) ==> checked - old(lastRecover)[id] >= 300.0)
      ensures !started ==> Now() == old(Now())
      ensures started && !(stateless && success) ==>
                && attempts == old(attempts)[id := (if id in old(attempts) then old(attempts)[id] else 0) + 1]
                && lastRecover == old(lastRecover)[id := stamped] && failCounts == old(failCounts)
      ensures started && stateless && success ==> id !in attempts && id !in lastRecover && id !in failCounts
      ensures recovering == if started && !stateless then old(recovering) + {id} else old(recovering)
      ensures started && !stateless ==> Did(StartBackground(id, checked, stamped))
      ensures started && stateless ==>
                Now() == Apply(Apply(old(Now()), StartRetry(id, checked, stamped)), if success then RetrySucceeded(id) else RetryFailed(id))
    {
      started := false;
      if id in recovering { return; }
      if id in lastRecover && checked - lastRecover[id] < COOLDOWN { return; }
      var n := if id in attempts then attempts[id] else 0;
      if n >= MAX_ATTEMPTS { return; }
      started := true;
      BeginAttempt(id, stateless, checked, stamped);
      if stateless { FinishRetry(id, success); }
    }

    /** The end of an inline retry. */
    method FinishRetry(id: string, success: bool)
      requires Valid() && loop == Retrying(id)
      modifies this
      ensures Valid() && Did(if success then RetrySucceeded(id) else RetryFailed(id)) && loop.Idle?
      ensures recovering == old(recovering)
      ensures if success then id !in attempts && id !in lastRecover && id !in failCounts
              else attempts == old(attempts) && lastRecover == old(lastRecover) && failCounts == old(failCounts)
    {
      if success { ClearState(id, RetrySucceeded(id)); } else { Note(RetryFailed(id)); }
    }

    method BeginAttempt(id: string, stateless: bool, ghost checked: real, stamped: real)
      requires Valid() && loop.Idle? && clock <= checked <= stamped && MayStart(Now(), id, checked)
      modifies this
      ensures Valid() && Did(if stateless then StartRetry(id, checked, stamped) else StartBackground(id, checked, stamped))
      ensures loop == if stateless then Retrying(id) else Idle
      ensures attempts == old(attempts)[id := (if id in old(attempts) then old(attempts)[id] else 0) + 1]
      ensures lastRecover == old(lastRecover)[id := stamped] && failCounts == old(failCounts)
      ensures recovering == if stateless then old(recovering) else old(recovering) + {id}
    {
      if stateless { BeginRetry(id, StartRetry(id, checked, stamped), stamped); }
      else { BeginBackground(id, StartBackground(id, checked, stamped), stamped); }
    }

    method BeginRetry(id: string, ghost e: Event, stamped: real)
      requires Valid() && Enabled(Now(), e) && e.StartRetry? && e.server == id && e.stamped == stamped
      modifies this
      ensures Valid() && Did(e)
    {
      StampAttempt(id, stamped);
      Note(e);
    }

    method BeginBackground(id: string, ghost e: Event, stamped: real)
      requires Valid() && Enabled(Now(), e) && e.StartBackground? && e.server == id && e.stamped == stamped
      modifies this
      ensures Valid() && Did(e)
    {
      StampAttempt(id, stamped);
      recovering, working := recovering + {id}, working + multiset{id};
      Note(e);
    }

    method StampAttempt(id: string, stamped: real)
      modifies `lastRecover, `attempts
      ensures lastRecover == old(lastRecover)[id := stamped]
      ensures attempts == old(attempts)[id := old(Attempts(Now(), id)) + 1]
    {
      lastRecover := lastRecover[id := stamped];
      attempts := attempts[id := (if id in attempts then attempts[id] else 0) + 1];
    }

    method ClearState(id: string, ghost e: Event)
      requires Valid() && Enabled(Now(), e) && (e == RetrySucceeded(id) || e == ManualReset(id))
      modifies this
      ensures Valid() && Did(e)
    {
      ForgetServer(id);
      Note(e);
    }

    method ForgetServer(id: string)
      modifies `failCounts, `attempts, `lastRecover
      ensures failCounts == Without(old(failCounts), id)
      ensures attempts == Without(old(attempts), id) && lastRecover == Without(old(lastRecover), id)
    {
      failCounts := Without(failCounts, id);
      attempts := Without(attempts, id);
      lastRecover := Without(lastRecover, id);
    }

    method ResetRecoveryState(id: string)
      requires Valid()
      modifies this
      ensures Valid() && Did(ManualReset(id))
      ensures FailCount(Now(), id) == 0 && Attempts(Now(), id) == 0 && id !in lastRecover
    {
      ClearState(id, ManualReset(id));
    }

    /** The end of a background recovery, before it signs off. */
    method FinishBackground(id: string, success: bool)
      requires Valid() && id in working
      modifies this
      ensures Valid() && Did(if success then BackgroundSucceeded(id) else BackgroundFailed(id))
      ensures recovering == old(recovering)
      ensures if success then id !in attempts && id !in lastRecover && id !in failCounts
              else attempts == old(attempts) && lastRecover == old(lastRecover) && failCounts == old(failCounts)
    {
      ghost var s := Apply(Now(), if success then BackgroundSucceeded(id) else BackgroundFailed(id));
      working, leaving := working - multiset{id}, leaving + multiset{id};
      if success { ForgetServer(id); }
      assert failCounts == s.failCounts && lastRecover == s.lastRecover && attempts == s.attempts;
      Note(if success then BackgroundSucceeded(id) else BackgroundFailed(id));
    }

    method LeaveBackground(id: string)
      requires Valid() && id in leaving
      modifies this
      ensures Valid() && Did(SignOff(id))
      ensures working[id] == 0 && leaving[id] == 0 && recovering == old(recovering) - {id}
    {
      OneRecovery(states, events, |events|, id);
      recovering, leaving := recovering - {id}, leaving - multiset{id};
      Note(SignOff(id));
    }
  }
}
