/** The archive delivery pipeline as a state machine: the durable queue
    (internal/store/archive_queue.go), the circuit breaker and the delivery loop
    (internal/middleware/archive_dispatcher.go).

    Every event is one critical section or one store statement. A run is a sequence of
    events together with the states it leads through. Delivery steps, administrator actions and the clock
    interleave freely, restricted only by `Enabled`. */
module ArchiveModel {

  // Time is counted in nanoseconds; the queue stores whole seconds.
  const SECOND: nat := 1_000_000_000
  const MINUTE: nat := 60 * SECOND
  const HOUR: nat := 60 * MINUTE

  const BACKOFF_SCHEDULE: seq<nat> :=
    [0, 15 * SECOND, MINUTE, 5 * MINUTE, 15 * MINUTE, HOUR, 6 * HOUR]
  const PAUSE_DURATIONS: seq<nat> := [MINUTE, 5 * MINUTE, 15 * MINUTE]
  const FAIL_THRESHOLD: nat := 5
  const DRAIN_BATCH_SIZE: nat := 50

  /** `sqliteTime`: the stored form keeps no fraction of a second. */
  function StoredTime(t: nat): nat { t / SECOND }

  /** The delay `nextAttemptTime` adds for an item that was already tried `attempts` times. */
  function BackoffAfter(attempts: nat): nat {
    var idx := attempts + 1;
    BACKOFF_SCHEDULE[if idx >= |BACKOFF_SCHEDULE| then |BACKOFF_SCHEDULE| - 1 else idx]
  }

  function PauseFor(level: nat): nat {
    PAUSE_DURATIONS[if level >= |PAUSE_DURATIONS| then |PAUSE_DURATIONS| - 1 else level]
  }

  // ---------------------------------------------------------------- circuit breaker

  datatype CircuitState = Closed | Open | HalfOpen

  datatype Breaker = Breaker(state: CircuitState, fails: nat, openedAt: nat, pauseLevel: nat)

  /** The check at the head of `drainDue`. */
  function Probe(b: Breaker, now: nat): Breaker {
    if b.state.Open? && now - b.openedAt >= PauseFor(b.pauseLevel)
    then b.(state := HalfOpen)
    else b
  }

  /** The bookkeeping after one send. */
  function Record(b: Breaker, ok: bool, now: nat): Breaker {
    if ok then
      if b.state.HalfOpen? then Breaker(Closed, 0, b.openedAt, 0) else b.(fails := 0)
    else if b.state.HalfOpen? then
      Breaker(Open, b.fails + 1, now,
              if b.pauseLevel < |PAUSE_DURATIONS| - 1 then b.pauseLevel + 1 else b.pauseLevel)
    else if b.fails + 1 >= FAIL_THRESHOLD then
      Breaker(Open, b.fails + 1, now, b.pauseLevel)
    else
      b.(fails := b.fails + 1)
  }

  /** Does the delivery loop leave the batch after recording this outcome? */
  predicate Trips(b: Breaker, ok: bool) {
    !ok && (b.state.HalfOpen? || b.fails + 1 >= FAIL_THRESHOLD)
  }

  /** A successful `SendTest`. */
  function TestSucceeded(b: Breaker): Breaker {
    if b.state.Closed? then b else Breaker(Closed, 0, b.openedAt, 0)
  }

  function ResetBreaker(b: Breaker): Breaker { Breaker(Closed, 0, b.openedAt, 0) }

  // ---------------------------------------------------------------- queue rows

  type Id = string

  datatype Status = Pending | Hold

  datatype Destination = Destination(url: string, authType: string, authValue: string, apiKeyHeader: string)

  datatype Row = Row(payload: string, dest: Destination, status: Status, attempts: nat,
                     createdAt: nat, nextAttemptAt: nat)

  /** A row as it was read when the batch was taken. */
  datatype Item = Item(id: Id, row: Row)

  type Table = map<Id, Row>

  /** What the destination (or the attempt to reach it) answered. */
  datatype Reply = InvalidRequest | NetworkError | Http(code: int)

  predicate IsTransient(code: int) { code >= 500 || code == 408 || code == 429 }

  predicate Accepted(r: Reply) { r.Http? && r.code < 300 }

  predicate Retryable(r: Reply) { r.NetworkError? || (r.Http? && r.code >= 300 && IsTransient(r.code)) }

  function InsertRow(t: Table, id: Id, payload: string, dest: Destination, now: nat): Table {
    t[id := Row(payload, dest, Pending, 0, StoredTime(now), StoredTime(now))]
  }

  function RescheduleRow(t: Table, id: Id, next: nat): Table {
    if id in t then t[id := t[id].(attempts := t[id].attempts + 1, nextAttemptAt := StoredTime(next))] else t
  }

  function HoldRow(t: Table, id: Id): Table {
    if id in t then t[id := t[id].(status := Hold, attempts := t[id].attempts + 1)] else t
  }

  function HoldRows(t: Table, ids: set<Id>): Table {
    map id | id in t :: if id in ids then t[id].(status := Hold, attempts := t[id].attempts + 1) else t[id]
  }

  /** The one store statement `sendOne` issues once the reply is known. */
  function Settle(t: Table, item: Item, r: Reply, now: nat): Table {
    if Accepted(r) then t - {item.id}
    else if Retryable(r) then RescheduleRow(t, item.id, now + BackoffAfter(item.row.attempts))
    else HoldRow(t, item.id)
  }

  function RetryHeldRows(t: Table, now: nat): Table {
    map id | id in t ::
      if t[id].status.Hold? then t[id].(status := Pending, nextAttemptAt := StoredTime(now), attempts := 0) else t[id]
  }

  function RewriteRows(t: Table, dest: Destination, now: nat): Table {
    map id | id in t ::
      if t[id].dest.url != dest.url
      then t[id].(dest := dest, attempts := 0, nextAttemptAt := StoredTime(now)) else t[id]
  }

  function ClearHeldRows(t: Table): Table {
    map id | id in t && !t[id].status.Hold? :: t[id]
  }

  function PruneRows(t: Table, cutoff: nat): Table {
    map id | id in t && t[id].createdAt >= cutoff :: t[id]
  }

  predicate Due(row: Row, now: nat) {
    row.status.Pending? && row.nextAttemptAt <= StoredTime(now)
  }

  predicate NoLaterThan(a: Row, b: Row) {
    a.nextAttemptAt < b.nextAttemptAt || (a.nextAttemptAt == b.nextAttemptAt && a.createdAt <= b.createdAt)
  }

  /** The answers SQLite may give to the `DequeueDue` query: due rows without repetition, oldest
      first, at most `limit`, and no due row left out that should have come before a returned one. */
  predicate IsDueSelection(t: Table, now: nat, limit: nat, due: seq<Id>) {
    && |due| <= limit
    && (forall i | 0 <= i < |due| :: due[i] in t && Due(t[due[i]], now))
    && (forall i, j | 0 <= i < j < |due| :: due[i] != due[j])
    && (forall i, j | 0 <= i < j < |due| :: NoLaterThan(t[due[i]], t[due[j]]))
    && (forall id | id in t && Due(t[id], now) && id !in due ::
          |due| == limit && forall i | 0 <= i < |due| :: NoLaterThan(t[due[i]], t[id]))
  }

  /** Rows whose credentials decrypt, in order. */
  function Readable(t: Table, due: seq<Id>, bad: set<Id>): (items: seq<Item>)
    requires forall i | 0 <= i < |due| :: due[i] in t
  {
    if due == [] then []
    else (if due[0] in bad then [] else [Item(due[0], t[due[0]])]) + Readable(t, due[1..], bad)
  }

  // ---------------------------------------------------------------- the whole system

  /** Where the delivery loop stands. */
  datatype Phase =
    | Idle
    | Gated
    | Draining(batch: seq<Item>)
    | Replied(item: Item, reply: Reply, rest: seq<Item>)
    | Settled(ok: bool, rest: seq<Item>)

  datatype System = System(now: nat, breaker: Breaker, phase: Phase, rows: Table, used: set<Id>)

  const INITIAL: System := System(0, Breaker(Closed, 0, 0, 0), Idle, map[], {})

  datatype Event =
    | Tick(to: nat)
      // producers
    | Enqueue(id: Id, payload: string, dest: Destination, stored: bool)
      // the delivery loop
    | Gate
    | Dequeue(due: seq<Id>, bad: set<Id>, held: set<Id>)
    | DequeueFailed(held: set<Id>) // by the time a row cannot be read, some others were held
    | Attempt(reply: Reply)
    | Store(written: bool)
    | RecordOutcome
    | Finish
      // administrators and maintenance
    | RetryHeld(written: bool)
    | Rewrite(to_: Destination, written: bool)
    | ClearHeld(written: bool)
    | Prune(cutoff: nat, written: bool)
    | ResetCircuit
    | TestOk
    | Restart // of the whole process: the table survives, the loop and the breaker start over

  /** Events that may happen at any point, whatever the delivery loop is doing. */
  predicate External(e: Event) {
    e.Tick? || e.Enqueue? || e.RetryHeld? || e.Rewrite? || e.ClearHeld? || e.Prune? || e.ResetCircuit? || e.TestOk?
  }

  predicate Enabled(s: System, e: Event) {
    match e
    case Tick(to) => s.now <= to
    case Enqueue(id, _, _, _) => id !in s.used
    case Gate => s.phase.Idle?
    case Dequeue(due, bad, held) =>
      s.phase.Gated? && IsDueSelection(s.rows, s.now, DRAIN_BATCH_SIZE, due) && held <= bad && (forall id | id in bad :: id in due)
    case DequeueFailed(held) => s.phase.Gated? && forall id | id in held :: id in s.rows && Due(s.rows[id], s.now)
    case Attempt(_) => s.phase.Draining? && s.phase.batch != []
    case Store(_) => s.phase.Replied?
    case RecordOutcome => s.phase.Settled?
    case Finish => s.phase.Draining?
    case _ => true
  }

  function BreakerAfter(s: System, e: Event): Breaker
    requires Enabled(s, e)
  {
    match e
    case Gate => Probe(s.breaker, s.now)
    case RecordOutcome => Record(s.breaker, s.phase.ok, s.now)
    case ResetCircuit => ResetBreaker(s.breaker)
    case TestOk => TestSucceeded(s.breaker)
    case Restart => INITIAL.breaker
    case _ => s.breaker
  }

  function PhaseAfter(s: System, e: Event): Phase
    requires Enabled(s, e)
  {
    match e
    case Gate => if Probe(s.breaker, s.now).state.Open? then Idle else Gated
    case Dequeue(due, bad, _) => Draining(Readable(s.rows, due, bad))
    case DequeueFailed(_) => Idle
    case Restart => Idle
    case Attempt(reply) => Replied(s.phase.batch[0], reply, s.phase.batch[1..])
    case Store(_) => Settled(Accepted(s.phase.reply), s.phase.rest)
    case RecordOutcome => if Trips(s.breaker, s.phase.ok) then Idle else Draining(s.phase.rest)
    case Finish => Idle
    case _ => s.phase
  }

  function RowsAfter(s: System, e: Event): Table
    requires Enabled(s, e)
  {
    match e
    case Enqueue(id, payload, dest, true) => InsertRow(s.rows, id, payload, dest, s.now)
    case Dequeue(_, _, held) => HoldRows(s.rows, held)
    case DequeueFailed(held) => HoldRows(s.rows, held)
    case Store(true) => Settle(s.rows, s.phase.item, s.phase.reply, s.now)
    case RetryHeld(true) => RetryHeldRows(s.rows, s.now)
    case Rewrite(dest, true) => RewriteRows(s.rows, dest, s.now)
    case ClearHeld(true) => ClearHeldRows(s.rows)
    case Prune(cutoff, true) => PruneRows(s.rows, cutoff)
    case _ => s.rows
  }

  function Apply(s: System, e: Event): (s': System)
    requires Enabled(s, e)
  {
    System(if e.Tick? then e.to else s.now, BreakerAfter(s, e), PhaseAfter(s, e), RowsAfter(s, e),
           if e.Enqueue? then s.used + {e.id} else s.used)
  }

  // ---------------------------------------------------------------- runs

  ghost predicate Step(s: System, e: Event, s': System) {
    Enabled(s, e) && s' == Apply(s, e)
  }

  /** `ss` are the states that the events `es` lead through. */
  ghost predicate IsRun(ss: seq<System>, es: seq<Event>) {
    && |ss| == |es| + 1
    && ss[0] == INITIAL
    && forall i {:trigger es[i]} | 0 <= i < |es| :: Step(ss[i], es[i], ss[i + 1])
  }

  lemma RunExtends(ss: seq<System>, es: seq<Event>, e: Event, s': System)
    requires IsRun(ss, es) && Step(ss[|es|], e, s')
    ensures IsRun(ss + [s'], es + [e])
  {
    var ss', es' := ss + [s'], es + [e];
    forall i | 0 <= i < |es'| ensures Step(ss'[i], es'[i], ss'[i + 1]) {
      assert i < |es| ==> Step(ss[i], es[i], ss[i + 1]);
    }
  }
}
