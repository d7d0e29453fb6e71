/** The queue store and the dispatcher as objects updated in place. The dispatcher keeps a ghost log
    of what it did; its invariant says that the log is a run of the archive state machine, so every
    theorem about runs is a theorem about this object. */
module ArchiveDispatcher {
  import opened Options
  import opened ArchiveModel
  import ArchiveBreaker
  import ArchiveQueue

  lemma HoldOneMore(t: Table, held: set<Id>, id: Id)
    requires id in t && id !in held
    ensures HoldRow(HoldRows(t, held), id) == HoldRows(t, held + {id})
  {
  }

  lemma {:induction false} ReadableGrows(t: Table, due: seq<Id>, bad: set<Id>, i: nat)
    requires i < |due| && forall k | 0 <= k < |due| :: due[k] in t
    ensures Readable(t, due[..i + 1], bad) == Readable(t, due[..i], bad) + if due[i] in bad then [] else [Item(due[i], t[due[i]])]
  {
    var more := due[..i + 1];
    assert more[1..] == due[1..][..i];
    if i > 0 {
      ReadableGrows(t, due[1..], bad, i - 1);
      assert due[..i][1..] == due[1..][..i - 1];
    }
  }

  ghost function Unreadable(due: seq<Id>, bad: set<Id>, writes: set<Id>): set<Id> {
    set id | id in due && id in bad && id in writes
  }

  lemma UnreadableNext(due: seq<Id>, bad: set<Id>, writes: set<Id>, i: nat)
    requires i < |due| && forall j, k | 0 <= j < k < |due| :: due[j] != due[k]
    ensures due[i] !in Unreadable(due[..i], bad, writes)
    ensures Unreadable(due[..i + 1], bad, writes) ==
            Unreadable(due[..i], bad, writes) + if due[i] in bad && due[i] in writes then {due[i]} else {}
  {
    assert due[..i + 1] == due[..i] + [due[i]];
  }

  /** Two tables that differ at most at `id`. */
  ghost predicate SameBut(t: Table, u: Table, id: Id) {
    forall other | other != id :: (other in t <==> other in u) && (other in t && other in u ==> t[other] == u[other])
  }

  /** The row still carries the same message to the same place. */
  ghost predicate SameMessage(a: Row, b: Row) {
    a.payload == b.payload && a.dest == b.dest && a.createdAt == b.createdAt
  }

  class QueueStore {
    var rows: Table

    constructor ()
      ensures rows == map[]
    {
      rows := map[];
    }

    /** A stored payload is there, unaltered and due at once, and no other row changes. */
    method Enqueue(id: Id, payload: string, dest: Destination, now: nat, writes: bool) returns (ok: bool)
      modifies this
      ensures ok == writes && SameBut(rows, old(rows), id)
      ensures ok ==> id in rows && rows[id].payload == payload && rows[id].dest == dest && rows[id].attempts == 0
      ensures ok ==> Due(rows[id], now)
      ensures rows == if ok then InsertRow(old(rows), id, payload, dest, now) else old(rows)
    {
      if writes {
        rows := rows[id := Row(payload, dest, Pending, 0, StoredTime(now), StoredTime(now))];
      }
      ok := writes;
    }

    /** `due` is the answer of the database; rows in `bad` do not decrypt and are held, as far as the
        write for them succeeds. When reading breaks off after `broken` rows, the caller gets nothing, and
        what was held until then stays held. */
    method DequeueDue(due: seq<Id>, bad: set<Id>, writes: set<Id>, broken: Option<nat>) returns (ok: bool, items: seq<Item>)
      requires forall i | 0 <= i < |due| :: due[i] in rows
      requires forall i, j | 0 <= i < j < |due| :: due[i] != due[j]
      modifies this
      ensures ok == !(broken.Some? && broken.value <= |due|)
      ensures items == if ok then Readable(old(rows), due, bad) else []
      ensures var seen := if ok then due else due[..broken.value];
        rows == HoldRows(old(rows), set id | id in seen && id in bad && id in writes)
    {
      ok := !(broken.Some? && broken.value <= |due|);
      ghost var before := rows;
      ghost var held: set<Id> := {};
      var seen := if ok then due else due[..broken.value];
      items := [];
      for i := 0 to |seen|
        invariant items == Readable(before, seen[..i], bad)
        invariant held == Unreadable(seen[..i], bad, writes)
        invariant rows == HoldRows(before, held)
      {
        var id := seen[i];
        ReadableGrows(before, seen, bad, i);
        UnreadableNext(seen, bad, writes, i);
        if id in bad {
          if id in writes {
            HoldOneMore(before, held, id);
            held := held + {id};
            MarkHold(id, true);
          }
        } else {
          items := items + [Item(id, rows[id])];
        }
      }
      assert seen[..|seen|] == seen;
      if !ok { items := []; }
    }

    /** The row is gone, and no other row changes. */
    method MarkDelivered(id: Id, writes: bool)
      modifies this
      ensures SameBut(rows, old(rows), id) && (writes ==> id !in rows)
      ensures rows == if writes then old(rows) - {id} else old(rows)
    {
      if writes {
        rows := rows - {id};
      }
    }

    /** The row keeps its message and status, counts the attempt, and is not due before `next`; a row that
        is gone does not come back. */
    method Reschedule(id: Id, next: nat, writes: bool)
      modifies this
      ensures SameBut(rows, old(rows), id) && (id in rows <==> id in old(rows))
      ensures writes && id in rows ==>
        && SameMessage(rows[id], old(rows)[id]) && rows[id].status == old(rows)[id].status
        && rows[id].attempts == old(rows)[id].attempts + 1
        && forall at: nat | StoredTime(at) < StoredTime(next) :: !Due(rows[id], at)
      ensures rows == if writes then RescheduleRow(old(rows), id, next) else old(rows)
    {
      if writes && id in rows {
        rows := rows[id := rows[id].(attempts := rows[id].attempts + 1, nextAttemptAt := StoredTime(next))];
      }
    }

    /** The row keeps its message, counts the attempt, and is due at no time. */
    method MarkHold(id: Id, writes: bool)
      modifies this
      ensures SameBut(rows, old(rows), id) && (id in rows <==> id in old(rows))
      ensures writes && id in rows ==>
        && SameMessage(rows[id], old(rows)[id]) && rows[id].attempts == old(rows)[id].attempts + 1
        && forall at: nat :: !Due(rows[id], at)
      ensures rows == if writes then HoldRow(old(rows), id) else old(rows)
    {
      if writes && id in rows {
        rows := rows[id := rows[id].(status := Hold, attempts := rows[id].attempts + 1)];
      }
    }

    /** No row is held any more: those that were are due now, with their message and no attempts; the others
        are as they were. */
    method RetryHeld(now: nat, writes: bool)
      modifies this
      ensures rows.Keys == old(rows).Keys
      ensures writes ==> forall id | id in rows ::
        if old(rows)[id].status.Hold?
        then Due(rows[id], now) && rows[id].attempts == 0 && SameMessage(rows[id], old(rows)[id])
        else rows[id] == old(rows)[id]
      ensures rows == if writes then RetryHeldRows(old(rows), now) else old(rows)
    {
      if writes {
        rows := RetryHeldRows(rows, now);
      }
    }

    /** Every row goes to the new place with the payload and status it had; pending rows that went elsewhere
        are due now, and rows that went there already are as they were. */
    method RewriteHeldDelivery(dest: Destination, now: nat, writes: bool)
      modifies this
      ensures rows.Keys == old(rows).Keys
      ensures writes ==> forall id | id in rows ::
        && rows[id].dest.url == dest.url && rows[id].payload == old(rows)[id].payload && rows[id].status == old(rows)[id].status
        && (old(rows)[id].dest.url == dest.url ==> rows[id] == old(rows)[id])
        && (old(rows)[id].dest.url != dest.url && rows[id].status.Pending? ==> Due(rows[id], now) && rows[id].attempts == 0)
      ensures rows == if writes then RewriteRows(old(rows), dest, now) else old(rows)
    {
      if writes {
        rows := RewriteRows(rows, dest, now);
      }
    }

    /** Exactly the held rows go; the others are as they were. */
    method ClearHeld(writes: bool)
      modifies this
      ensures forall id | id in rows :: id in old(rows) && rows[id] == old(rows)[id]
      ensures writes ==> forall id | id in old(rows) :: id in rows <==> old(rows)[id].status.Pending?
      ensures rows == if writes then ClearHeldRows(old(rows)) else old(rows)
    {
      if writes {
        rows := ClearHeldRows(rows);
      }
    }

    /** Exactly the rows created before the cutoff go; the others are as they were. */
    method Prune(cutoff: nat, writes: bool)
      modifies this
      ensures forall id | id in rows :: id in old(rows) && rows[id] == old(rows)[id]
      ensures writes ==> forall id | id in old(rows) :: id in rows <==> old(rows)[id].createdAt >= cutoff
      ensures rows == if writes then PruneRows(old(rows), cutoff) else old(rows)
    {
      if writes {
        rows := PruneRows(rows, cutoff);
      }
    }
  }

  /** What the surroundings do during one iteration of the delivery loop: other events before the
      request goes out, while the reply is handled, and before the outcome is recorded. */
  datatype Turn = Turn(stop: bool, before: seq<Event>, reply: Reply, during: seq<Event>, writes: bool, after: seq<Event>)

  datatype QueryAnswer = QueryError | Rows(due: seq<Id>, bad: set<Id>, writes: set<Id>, broken: Option<nat>)

  datatype DrainEnd = Paused | QueryFailed | Stopped | Tripped | Exhausted

  function CountAttempts(es: seq<Event>): nat {
    if es == [] then 0 else CountAttempts(es[..|es| - 1]) + if es[|es| - 1].Attempt? then 1 else 0
  }

  predicate OnTable(e: Event) { e.RetryHeld? || e.Rewrite? || e.ClearHeld? || e.Prune? }

  class Dispatcher {
    const store: QueueStore
    var clock: nat
    var issued: set<Id> // the random id generator never repeats itself
    var consecutiveFails: nat
    var cbState: CircuitState
    var cbOpenedAt: nat
    var cbPauseLevel: nat

    ghost var states: seq<System>
    ghost var log: seq<Event>
    ghost var attemptsMade: nat

    ghost function Now(): System
      requires states != []
      reads this
    {
      states[|states| - 1]
    }

    ghost predicate Valid()
      reads this, store
    {
      && IsRun(states, log)
      && Now().now == clock
      && Now().breaker == Breaker(cbState, consecutiveFails, cbOpenedAt, cbPauseLevel)
      && Now().rows == store.rows
      && Now().used == issued
      && attemptsMade == CountAttempts(log)
    }

    /** Everything that happened since `before` came from outside the delivery loop. */
    ghost predicate OnlyExternalSince(before: seq<Event>, madeBefore: nat)
      reads this
    {
      && before <= log && attemptsMade == madeBefore
      && forall i | |before| <= i < |log| :: External(log[i])
    }

    /** A new process on the old table. */
    method Restart()
      requires Valid()
      modifies this
      ensures Valid() && log == old(log) + [ArchiveModel.Restart] && Now() == Apply(old(Now()), ArchiveModel.Restart)
      ensures store.rows == old(store.rows) && Now().phase.Idle? && cbState.Closed?
    {
      consecutiveFails, cbState, cbOpenedAt, cbPauseLevel := 0, Closed, 0, 0;
      Note(ArchiveModel.Restart);
    }

    constructor ()
      ensures Valid() && fresh(store) && Now() == INITIAL && log == []
    {
      store := new QueueStore();
      clock, consecutiveFails, cbState, cbOpenedAt, cbPauseLevel := 0, 0, Closed, 0, 0;
      issued := {};
      states, log, attemptsMade := [INITIAL], [], 0;
    }

    ghost method Note(e: Event)
      requires IsRun(states, log) && attemptsMade == CountAttempts(log) && Enabled(Now(), e)
      modifies `states, `log, `attemptsMade
      ensures IsRun(states, log) && attemptsMade == CountAttempts(log)
      ensures log == old(log) + [e] && Now() == Apply(old(Now()), e)
      ensures attemptsMade == old(attemptsMade) + if e.Attempt? then 1 else 0
    {
      RunExtends(states, log, e, Apply(Now(), e));
      states, log := states + [Apply(Now(), e)], log + [e];
      attemptsMade := attemptsMade + if e.Attempt? then 1 else 0;
      assert log[..|log| - 1] == old(log);
    }

    method ResetCircuit()
      requires Valid()
      modifies this
      ensures Valid() && log == old(log) + [ArchiveModel.ResetCircuit] && Now() == Apply(old(Now()), ArchiveModel.ResetCircuit)
      ensures cbState.Closed? && cbPauseLevel == 0 && consecutiveFails == 0 && store.rows == old(store.rows)
      ensures attemptsMade == old(attemptsMade)
    {
      cbState := Closed;
      cbPauseLevel := 0;
      consecutiveFails := 0;
      Note(ArchiveModel.ResetCircuit);
    }

    /** The end of `SendTest`, after the destination accepted the test payload. */
    method TestDelivered()
      requires Valid()
      modifies this
      ensures Valid() && log == old(log) + [TestOk] && Now() == Apply(old(Now()), TestOk)
      ensures cbState.Closed? && cbPauseLevel == 0 && consecutiveFails == if old(cbState).Closed? then old(consecutiveFails) else 0
      ensures attemptsMade == old(attemptsMade)
    {
      ArchiveBreaker.ClosedIsCalm(states, log);
      if cbState.HalfOpen? || cbState.Open? {
        cbState := Closed;
        cbPauseLevel := 0;
        consecutiveFails := 0;
      }
      Note(TestOk);
    }

    /** Performs one event from outside the delivery loop, if it is possible now. */
    method Perform(e: Event)
      requires Valid()
      modifies this, store
      ensures Valid() && OnlyExternalSince(old(log), old(attemptsMade)) && Now().phase == old(Now().phase)
      ensures External(e) && Enabled(old(Now()), e) ==> log == old(log) + [e] && Now() == Apply(old(Now()), e)
    {
      if OnTable(e) {
        Maintain(e);
      } else if e.Tick? {
        if clock <= e.to { clock := e.to; Note(e); }
      } else if e.Enqueue? {
        if e.id !in issued { Accept(e); }
      } else if e.ResetCircuit? {
        ResetCircuit();
      } else if e.TestOk? {
        TestDelivered();
      }
    }

    /** A producer's payload. */
    method Accept(e: Event)
      requires Valid() && e.Enqueue? && e.id !in issued
      modifies this, store
      ensures Valid() && OnlyExternalSince(old(log), old(attemptsMade))
      ensures log == old(log) + [e] && Now() == Apply(old(Now()), e)
    {
      issued := issued + {e.id};
      var _ := store.Enqueue(e.id, e.payload, e.dest, clock, e.stored);
      Note(e);
    }

    /** The statements of administrators and maintenance. */
    method Maintain(e: Event)
      requires Valid() && OnTable(e)
      modifies this, store
      ensures Valid() && OnlyExternalSince(old(log), old(attemptsMade))
      ensures log == old(log) + [e] && Now() == Apply(old(Now()), e)
    {
      match e
      case RetryHeld(writes) => store.RetryHeld(clock, writes); Note(e);
      case Rewrite(dest, writes) => store.RewriteHeldDelivery(dest, clock, writes); Note(e);
      case ClearHeld(writes) => store.ClearHeld(writes); Note(e);
      case Prune(cutoff, writes) => store.Prune(cutoff, writes); Note(e);
    }

    method PerformAll(acts: seq<Event>)
      requires Valid()
      modifies this, store
      ensures Valid() && OnlyExternalSince(old(log), old(attemptsMade)) && Now().phase == old(Now().phase)
    {
      for i := 0 to |acts|
        invariant Valid() && OnlyExternalSince(old(log), old(attemptsMade)) && Now().phase == old(Now().phase)
      {
        Perform(acts[i]);
      }
    }

    /** The head of `drainDue`: may the loop go on? */
    method PassGate() returns (pass: bool)
      requires Valid() && Now().phase.Idle?
      modifies this
      ensures Valid() && log == old(log) + [Gate] && Now() == Apply(old(Now()), Gate)
      ensures pass == !Probe(old(Now().breaker), clock).state.Open?
      ensures pass <==> !old(cbState).Open? || clock - old(cbOpenedAt) >= ArchiveBreaker.Pause(old(cbPauseLevel))
      ensures cbState == if old(cbState).Open? && pass then HalfOpen else old(cbState)
      ensures attemptsMade == old(attemptsMade)
    {
      var state := cbState;
      if state.Open? {
        var pauseIdx := cbPauseLevel;
        if pauseIdx >= |PAUSE_DURATIONS| {
          pauseIdx := |PAUSE_DURATIONS| - 1;
        }
        var elapsed: int := clock - cbOpenedAt;
        if elapsed >= PAUSE_DURATIONS[pauseIdx] {
          cbState := HalfOpen;
          state := HalfOpen;
        }
      }
      pass := !state.Open?;
      Note(Gate);
    }

    /** The last part of `sendOne`: what happens to the row for each kind of reply. */
    method StoreOutcome(item: Item, reply: Reply, writes: bool) returns (ok: bool)
      modifies store
      ensures ok == Accepted(reply)
      ensures store.rows == if writes then Settle(old(store.rows), item, reply, clock) else old(store.rows)
      ensures writes ==> ArchiveQueue.FollowsReply(old(store.rows), store.rows, item, reply, clock)
      ensures ok <==> reply.Http? && reply.code < 300
    {
      ArchiveQueue.SettleFollows(store.rows, item, reply, clock);
      match reply {
        case InvalidRequest =>
          store.MarkHold(item.id, writes);
          ok := false;
        case NetworkError =>
          store.Reschedule(item.id, clock + BackoffAfter(item.row.attempts), writes);
          ok := false;
        case Http(code) =>
          if code < 300 {
            store.MarkDelivered(item.id, writes);
            ok := true;
          } else if IsTransient(code) {
            store.Reschedule(item.id, clock + BackoffAfter(item.row.attempts), writes);
            ok := false;
          } else {
            store.MarkHold(item.id, writes);
            ok := false;
          }
      }
    }

    /** Sends one item: the exchange with the destination, then the statement that stores its outcome. */
    method SendOne(item: Item, turn: Turn) returns (ok: bool)
      requires Valid() && Now().phase.Draining? && Now().phase.batch != [] && Now().phase.batch[0] == item
      modifies this, store
      ensures Valid() && old(log) <= log && attemptsMade == old(attemptsMade) + 1
      ensures ok == Accepted(turn.reply)
      ensures Now().phase == Settled(ok, old(Now().phase.batch[1..]))
    {
      Note(Attempt(turn.reply));
      PerformAll(turn.during);
      ok := StoreOutcome(item, turn.reply, turn.writes);
      Note(Store(turn.writes));
    }

    /** The bookkeeping after a send; `leave` tells the loop to give up the batch. */
    method RecordSend(ok: bool) returns (leave: bool)
      requires Valid() && Now().phase.Settled? && Now().phase.ok == ok
      modifies this
      ensures Valid() && log == old(log) + [RecordOutcome] && Now() == Apply(old(Now()), RecordOutcome)
      ensures leave == Trips(old(Now().breaker), ok)
      ensures leave <==> !ok && (old(cbState).HalfOpen? || old(consecutiveFails) >= 4)
      ensures consecutiveFails == if ok then 0 else old(consecutiveFails) + 1
      ensures ok ==> cbState.Closed? && cbPauseLevel == 0
      ensures leave ==> cbState.Open? && cbOpenedAt == clock
      ensures !ok && !leave ==> cbState == old(cbState)
      ensures attemptsMade == old(attemptsMade)
    {
      ArchiveBreaker.PastGate(states, log);
      ArchiveBreaker.RecordExactly(Breaker(cbState, consecutiveFails, cbOpenedAt, cbPauseLevel), ok, clock);
      leave := false;
      if ok {
        consecutiveFails := 0;
        if cbState.HalfOpen? {
          cbState := Closed;
          cbPauseLevel := 0;
        }
      } else {
        consecutiveFails := consecutiveFails + 1;
        if cbState.HalfOpen? {
          cbState := Open;
          cbOpenedAt := clock;
          if cbPauseLevel < |PAUSE_DURATIONS| - 1 {
            cbPauseLevel := cbPauseLevel + 1;
          }
          leave := true;
        } else if consecutiveFails >= FAIL_THRESHOLD {
          cbState := Open;
          cbOpenedAt := clock;
          leave := true;
        }
      }
      Note(RecordOutcome);
    }

    /** One pass of the delivery loop. The log stays a run of the state machine; a paused circuit sends
        nothing; a batch is given up only on a trip of the circuit or a stop request, and otherwise
        every item taken is attempted. */
    method DrainDue(gap: seq<Event>, answer: QueryAnswer, turns: seq<Turn>) returns (end: DrainEnd, taken: nat, sent: nat)
      requires Valid() && Now().phase.Idle?
      modifies this, store
      ensures Valid() && Now().phase.Idle? && old(log) < log && log[|old(log)|].Gate?
      ensures end.Paused? <==> Probe(old(Now().breaker), old(clock)).state.Open?
      ensures attemptsMade == old(attemptsMade) + sent
      ensures sent <= taken <= DRAIN_BATCH_SIZE
      ensures end.Paused? || end.QueryFailed? ==> taken == 0
      ensures end.Exhausted? ==> sent == taken
      ensures end.Stopped? ==> sent < |turns| && turns[sent].stop
      ensures end.Tripped? ==> sent > 0 && log[|log| - 1].RecordOutcome? && Now().breaker.state.Open?
    {
      var pass := PassGate();
      if !pass {
        return Paused, 0, 0;
      }
      PerformAll(gap);
      var ok, items := TakeBatch(answer);
      if !ok {
        return QueryFailed, 0, 0;
      }
      end, sent := Deliver(items, turns);
      taken := |items|;
    }

    /** Takes a batch, or fails when the query does. */
    method TakeBatch(answer: QueryAnswer) returns (ok: bool, items: seq<Item>)
      requires Valid() && Now().phase.Gated?
      modifies this, store
      ensures Valid() && old(log) <= log && |log| == |old(log)| + 1
      ensures attemptsMade == old(attemptsMade)
      ensures Now().phase == if ok then Draining(items) else Idle
      ensures |items| <= 50
      ensures ok <==> Answers(answer, old(store.rows)) && !(answer.broken.Some? && answer.broken.value <= |answer.due|)
      ensures ok ==> items == Readable(old(store.rows), answer.due, answer.bad)
    {
      if !Answers(answer, store.rows) {
        Note(DequeueFailed({}));
        assert HoldRows(store.rows, {}) == store.rows;
        return false, [];
      }
      ReadableLength(store.rows, answer.due, answer.bad);
      ok, items := store.DequeueDue(answer.due, answer.bad, answer.writes, answer.broken);
      if ok {
        Note(Dequeue(answer.due, answer.bad, set id | id in answer.due && id in answer.bad && id in answer.writes));
      } else {
        ghost var seen := answer.due[..answer.broken.value];
        Note(DequeueFailed(set id | id in seen && id in answer.bad && id in answer.writes));
      }
    }

    /** The database gave the answer the query asks for. */
    predicate Answers(answer: QueryAnswer, rows: Table)
      reads this
    {
      answer.Rows? && IsDueSelection(rows, clock, DRAIN_BATCH_SIZE, answer.due) && forall id | id in answer.bad :: id in answer.due
    }

    /** One iteration over the batch. */
    method DeliverOne(item: Item, ghost rest: seq<Item>, turn: Turn) returns (leave: bool)
      requires Valid() && Now().phase.Draining?
      requires Now().phase.batch != [] && Now().phase.batch[0] == item && Now().phase.batch[1..] == rest
      modifies this, store
      ensures Valid() && old(log) <= log && attemptsMade == old(attemptsMade) + 1
      ensures Now().phase == if leave then Idle else Draining(rest)
      ensures log[|log| - 1].RecordOutcome? && (leave ==> Now().breaker.state.Open?)
    {
      PerformAll(turn.before);
      var ok := SendOne(item, turn);
      PerformAll(turn.after);
      leave := RecordSend(ok);
    }

    /** The loop over the batch. */
    method Deliver(items: seq<Item>, turns: seq<Turn>) returns (end: DrainEnd, sent: nat)
      requires Valid() && Now().phase == Draining(items)
      modifies this, store
      ensures Valid() && Now().phase.Idle? && old(log) <= log
      ensures attemptsMade == old(attemptsMade) + sent && sent <= |items|
      ensures end.Stopped? || end.Tripped? || end.Exhausted?
      ensures end.Exhausted? ==> sent == |items|
      ensures end.Stopped? ==> sent < |turns| && turns[sent].stop
      ensures end.Tripped? ==> sent > 0 && log[|log| - 1].RecordOutcome? && Now().breaker.state.Open?
    {
      sent := 0;
      for i := 0 to |items|
        invariant Valid() && Now().phase == Draining(items[i..]) && old(log) <= log
        invariant sent == i && attemptsMade == old(attemptsMade) + sent
      {
        var turn := if i < |turns| then turns[i] else Turn(false, [], NetworkError, [], true, []);
        if turn.stop {
          Note(Finish);
          return Stopped, sent;
        }
        assert items[i..][1..] == items[i + 1..];
        var leave := DeliverOne(items[i], items[i + 1..], turn);
        sent := sent + 1;
        if leave {
          return Tripped, sent;
        }
      }
      Note(Finish);
      end := Exhausted;
    }
  }

  lemma {:induction false} ReadableLength(t: Table, due: seq<Id>, bad: set<Id>)
    requires forall i | 0 <= i < |due| :: due[i] in t
    ensures |Readable(t, due, bad)| <= |due|
  {
    if due == [] {
    } else {
      ReadableLength(t, due[1..], bad);
    }
  }
}
