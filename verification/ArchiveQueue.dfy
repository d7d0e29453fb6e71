/** What the durable queue guarantees over whole runs: nothing is lost, nothing is altered, one
    outcome per drain, and retries keep their distance. */
module ArchiveQueue {
  import opened ArchiveModel

  /** Items the delivery loop still holds and has not yet attempted. */
  function Ahead(p: Phase): seq<Item> {
    match p
    case Draining(batch) => batch
    case Replied(_, _, rest) => rest
    case Settled(_, rest) => rest
    case _ => []
  }

  /** All items the delivery loop holds, including the one being sent. */
  function InHand(p: Phase): seq<Item> {
    if p.Replied? then [p.item] + p.rest else Ahead(p)
  }

  predicate Distinct(items: seq<Item>) {
    forall i, j | 0 <= i < j < |items| :: items[i].id != items[j].id
  }

  predicate Absent(id: Id, items: seq<Item>) {
    forall i | 0 <= i < |items| :: items[i].id != id
  }

  ghost predicate Inv(s: System) {
    && s.rows.Keys <= s.used
    && Distinct(InHand(s.phase))
    && (forall i | 0 <= i < |InHand(s.phase)| :: InHand(s.phase)[i].id in s.used)
  }

  lemma {:induction false} ReadableSound(t: Table, due: seq<Id>, bad: set<Id>, i: nat)
    requires forall k | 0 <= k < |due| :: due[k] in t
    requires i < |Readable(t, due, bad)|
    ensures var item := Readable(t, due, bad)[i]; item.id in due && item.id !in bad && item.row == t[item.id]
  {
    var rest := Readable(t, due[1..], bad);
    var skipped := |Readable(t, due, bad)| - |rest|;
    if i >= skipped { ReadableSound(t, due[1..], bad, i - skipped); }
  }

  lemma {:induction false} ReadableDistinct(t: Table, due: seq<Id>, bad: set<Id>)
    requires forall i | 0 <= i < |due| :: due[i] in t
    requires forall i, j | 0 <= i < j < |due| :: due[i] != due[j]
    ensures Distinct(Readable(t, due, bad))
  {
    if due == [] {
    } else {
      var rest := Readable(t, due[1..], bad);
      ReadableDistinct(t, due[1..], bad);
      forall i | 0 <= i < |rest| ensures rest[i].id != due[0] { ReadableSound(t, due[1..], bad, i); }
    }
  }

  lemma {:induction false} ReadableComplete(t: Table, due: seq<Id>, bad: set<Id>, id: Id)
    requires forall i | 0 <= i < |due| :: due[i] in t
    requires id in due && id !in bad
    ensures Item(id, t[id]) in Readable(t, due, bad)
  {
    if id != due[0] { ReadableComplete(t, due[1..], bad, id); }
  }

  /** The batch holds exactly the selected rows that decrypt, each once, as they stood in the table. */
  lemma ReadableItems(t: Table, due: seq<Id>, bad: set<Id>)
    requires forall i | 0 <= i < |due| :: due[i] in t
    requires forall i, j | 0 <= i < j < |due| :: due[i] != due[j]
    ensures var items := Readable(t, due, bad);
      && Distinct(items)
      && (forall i | 0 <= i < |items| :: items[i].id in due && items[i].id !in bad && items[i].row == t[items[i].id])
      && (forall id | id in due && id !in bad :: exists i :: 0 <= i < |items| && items[i] == Item(id, t[id]))
  {
    var items := Readable(t, due, bad);
    ReadableDistinct(t, due, bad);
    forall i | 0 <= i < |items| ensures items[i].id in due && items[i].id !in bad && items[i].row == t[items[i].id] {
      ReadableSound(t, due, bad, i);
    }
    forall id | id in due && id !in bad ensures exists i :: 0 <= i < |items| && items[i] == Item(id, t[id]) {
      ReadableComplete(t, due, bad, id);
    }
  }

  lemma StepKeepsInv(s: System, e: Event)
    requires Inv(s) && Enabled(s, e)
    ensures Inv(Apply(s, e))
  {
    var s' := Apply(s, e);
    match e
    case Dequeue(due, bad, held) =>
      ReadableItems(s.rows, due, bad);
      assert InHand(s'.phase) == Readable(s.rows, due, bad);
    case Attempt(_) =>
      assert InHand(s'.phase) == InHand(s.phase);
    case Store(_) =>
      assert InHand(s'.phase) == InHand(s.phase)[1..];
    case RecordOutcome =>
      assert InHand(s'.phase) == InHand(s.phase) || InHand(s'.phase) == [];
    case Gate => assert InHand(s'.phase) == [];
    case DequeueFailed(_) => assert InHand(s'.phase) == [];
    case Restart => assert InHand(s'.phase) == [];
    case Finish => assert InHand(s'.phase) == [];
    case _ =>
      assert s'.phase == s.phase;
  }

  lemma {:induction false} ReachableInv(ss: seq<System>, es: seq<Event>, i: nat)
    requires IsRun(ss, es) && i < |ss|
    ensures Inv(ss[i])
  {
    if i == 0 {
    } else {
      ReachableInv(ss, es, i - 1);
      StepKeepsInv(ss[i - 1], es[i - 1]);
    }
  }

  // ---------------------------------------------------------------- conservation

  /** Wherever `id` is found, in the table or in the loop's hands, it carries `payload`. */
  ghost predicate Carries(s: System, id: Id, payload: string) {
    && id in s.used
    && (id in s.rows ==> s.rows[id].payload == payload)
    && (forall i | 0 <= i < |InHand(s.phase)| :: InHand(s.phase)[i].id == id ==> InHand(s.phase)[i].row.payload == payload)
  }

  lemma StepCarries(s: System, e: Event, id: Id, payload: string)
    requires Inv(s) && Enabled(s, e) && Carries(s, id, payload)
    ensures Carries(Apply(s, e), id, payload)
    ensures id !in s.rows ==> id !in Apply(s, e).rows
  {
    var s' := Apply(s, e);
    match e
    case Dequeue(due, bad, held) =>
      ReadableItems(s.rows, due, bad);
      assert InHand(s'.phase) == Readable(s.rows, due, bad);
    case Attempt(_) =>
      assert InHand(s'.phase) == InHand(s.phase);
    case Store(_) =>
      assert InHand(s'.phase) == InHand(s.phase)[1..];
    case RecordOutcome =>
      assert InHand(s'.phase) == InHand(s.phase) || InHand(s'.phase) == [];
    case _ =>
      assert InHand(s'.phase) == InHand(s.phase) || InHand(s'.phase) == [];
  }

  /** Step `k` takes `id` out of the table, and for one of the three legitimate reasons: the
      destination answered below 300 to this very item, an administrator cleared it while held, or
      it was pruned by age. */
  ghost predicate LeavesAt(ss: seq<System>, es: seq<Event>, k: nat, id: Id, payload: string)
    requires IsRun(ss, es)
  {
    && k < |es|
    && id in ss[k].rows && id !in ss[k + 1].rows
    && match es[k]
       case Store(written) =>
         written && Accepted(ss[k].phase.reply)
         && ss[k].phase.item.id == id && ss[k].phase.item.row.payload == payload
       case ClearHeld(_) => ss[k].rows[id].status.Hold?
       case Prune(cutoff, _) => ss[k].rows[id].createdAt < cutoff
       case _ => false
  }

  /** A payload was accepted into the queue in step `i`. */
  ghost predicate EnqueuedAt(ss: seq<System>, es: seq<Event>, i: nat, id: Id, payload: string)
    requires IsRun(ss, es)
  {
    i < |es| && es[i].Enqueue? && es[i].id == id && es[i].payload == payload && es[i].stored
  }

  lemma {:induction false} CarriesSince(ss: seq<System>, es: seq<Event>, i: nat, j: nat, id: Id, payload: string)
    requires IsRun(ss, es) && EnqueuedAt(ss, es, i, id, payload) && i < j < |ss|
    ensures Carries(ss[j], id, payload)
  {
    ReachableInv(ss, es, j - 1);
    if j == i + 1 {
      assert InHand(ss[j].phase) == InHand(ss[i].phase);
    } else {
      CarriesSince(ss, es, i, j - 1, id, payload);
      StepCarries(ss[j - 1], es[j - 1], id, payload);
    }
  }

  lemma {:induction false} OutStaysOut(ss: seq<System>, es: seq<Event>, i: nat, k: nat, j: nat, id: Id, payload: string)
    requires IsRun(ss, es) && EnqueuedAt(ss, es, i, id, payload) && i < k <= j < |ss|
    requires id !in ss[k].rows
    ensures id !in ss[j].rows
  {
    if k < j {
      OutStaysOut(ss, es, i, k, j - 1, id, payload);
      CarriesSince(ss, es, i, j - 1, id, payload);
      ReachableInv(ss, es, j - 1);
      StepCarries(ss[j - 1], es[j - 1], id, payload);
    }
  }

  /** Conservation: whatever fails in between, store writes included, a payload that was accepted is
      either still in the queue, unaltered, or has left it exactly once and for a legitimate reason.
      Delivery is therefore at least once. */
  lemma {:induction false} Conserved(ss: seq<System>, es: seq<Event>, i: nat, j: nat, id: Id, payload: string)
    requires IsRun(ss, es) && EnqueuedAt(ss, es, i, id, payload) && i < j < |ss|
    ensures id in ss[j].rows ==> ss[j].rows[id].payload == payload
    ensures id in ss[j].rows <==> forall k | i < k < j :: !LeavesAt(ss, es, k, id, payload)
    ensures forall k, m | i < k < m < j :: !(LeavesAt(ss, es, k, id, payload) && LeavesAt(ss, es, m, id, payload))
  {
    CarriesSince(ss, es, i, j, id, payload);
    if id !in ss[j].rows {
      var k := DepartureOf(ss, es, i, j, id, payload);
      assert LeavesAt(ss, es, k, id, payload);
    }
    forall k, m | i < k < m <= j && LeavesAt(ss, es, k, id, payload) ensures id !in ss[m].rows {
      OutStaysOut(ss, es, i, k + 1, m, id, payload);
    }
  }

  /** Finds the step in which a payload that is gone left the queue. */
  lemma {:induction false} DepartureOf(ss: seq<System>, es: seq<Event>, i: nat, j: nat, id: Id, payload: string) returns (k: nat)
    requires IsRun(ss, es) && EnqueuedAt(ss, es, i, id, payload) && i < j < |ss|
    requires id !in ss[j].rows
    ensures i < k < j && LeavesAt(ss, es, k, id, payload)
  {
    if j == i + 1 {
      assert false;
    } else if id !in ss[j - 1].rows {
      k := DepartureOf(ss, es, i, j - 1, id, payload);
    } else {
      k := j - 1;
      CarriesSince(ss, es, i, k, id, payload);
      if es[k].Store? { assert InHand(ss[k].phase)[0] == ss[k].phase.item; }
    }
  }

  /** The reply a store statement acts on is the answer the destination gave to that item, in an
      attempt made earlier in the same drain. */
  lemma {:induction false} ReplyWasReceived(ss: seq<System>, es: seq<Event>, k: nat) returns (a: nat)
    requires IsRun(ss, es) && k < |ss| && ss[k].phase.Replied?
    ensures a < k && es[a] == Attempt(ss[k].phase.reply)
    ensures ss[a].phase.Draining? && ss[a].phase.batch != [] && ss[a].phase.batch[0] == ss[k].phase.item
    ensures forall m | a < m < k :: External(es[m])
  {
    if es[k - 1].Attempt? { a := k - 1; } else { a := ReplyWasReceived(ss, es, k - 1); }
  }

  // ---------------------------------------------------------------- one outcome per drain

  /** Step `i` sends the item with this id. */
  ghost predicate SendsAt(ss: seq<System>, es: seq<Event>, i: nat, id: Id)
    requires IsRun(ss, es)
  {
    i < |es| && es[i].Attempt? && ss[i].phase.batch[0].id == id
  }

  lemma {:induction false} NotAheadUntilDequeued(ss: seq<System>, es: seq<Event>, i: nat, j: nat, id: Id)
    requires IsRun(ss, es) && SendsAt(ss, es, i, id) && i < j < |ss|
    requires forall m | i < m < j :: !es[m].Dequeue?
    ensures Absent(id, Ahead(ss[j].phase))
  {
    if j == i + 1 {
      ReachableInv(ss, es, i);
    } else {
      NotAheadUntilDequeued(ss, es, i, j - 1, id);
      assert Step(ss[j - 1], es[j - 1], ss[j]);
    }
  }

  /** A row taken by a drain is sent at most once in that drain: between two sends of the same row a
      new batch was taken. */
  lemma OneOutcomePerDrain(ss: seq<System>, es: seq<Event>, i: nat, j: nat, id: Id)
    requires IsRun(ss, es) && SendsAt(ss, es, i, id) && SendsAt(ss, es, j, id) && i < j
    ensures exists m :: i < m < j && es[m].Dequeue?
  {
    assert Ahead(ss[j].phase)[0].id == id;
    if forall m | i < m < j :: !es[m].Dequeue? {
      NotAheadUntilDequeued(ss, es, i, j, id);
    }
  }

  // ---------------------------------------------------------------- retry spacing

  // ---------------------------------------------------------------- which rows a drain takes

  /** The row may be sent: it is pending and its second has come. */
  predicate Ripe(t: Table, now: nat, id: Id) {
    id in t && t[id].status == Pending && t[id].nextAttemptAt <= now / 1_000_000_000
  }

  /** Ripe rows that are as old as `id` or older: scheduled earlier, or for the same second and not stored later. */
  ghost function NotYounger(t: Table, now: nat, id: Id): set<Id>
    requires id in t
  {
    set y | y in t && y != id && Ripe(t, now, y)
            && (t[y].nextAttemptAt < t[id].nextAttemptAt
                || (t[y].nextAttemptAt == t[id].nextAttemptAt && t[y].createdAt <= t[id].createdAt))
  }

  lemma {:induction false} DistinctIds(due: seq<Id>)
    requires forall i, j | 0 <= i < j < |due| :: due[i] != due[j]
    ensures |(set y | y in due)| == |due|
  {
    if due == [] {
    } else {
      var init, last := due[..|due| - 1], due[|due| - 1];
      DistinctIds(init);
      assert (set y | y in due) == (set y | y in init) + {last};
    }
  }

  lemma FewerOf(a: set<Id>, b: set<Id>)
    requires a <= b
    ensures |a| <= |b|
  {
    assert b == a + (b - a);
  }

  /** A drain takes ripe rows only, no more than fifty, and passes a ripe row over only for fifty that are not younger;
      so nothing young can keep a row from being sent. */
  lemma OldestFirst(s: System, e: Event, id: Id)
    requires Enabled(s, e) && e.Dequeue? && id in s.rows
    ensures |e.due| <= 50 && (id in e.due ==> Ripe(s.rows, s.now, id))
    ensures Ripe(s.rows, s.now, id) && |NotYounger(s.rows, s.now, id)| < 50 ==> id in e.due
  {
    if Ripe(s.rows, s.now, id) && id !in e.due {
      var taken := set y | y in e.due;
      DistinctIds(e.due);
      forall y | y in taken ensures y in NotYounger(s.rows, s.now, id) {
        var i :| 0 <= i < |e.due| && e.due[i] == y;
        assert NoLaterThan(s.rows[e.due[i]], s.rows[id]);
      }
      FewerOf(taken, NotYounger(s.rows, s.now, id));
    }
  }

  /** And in that order. */
  lemma InOrder(s: System, e: Event, i: nat, j: nat)
    requires Enabled(s, e) && e.Dequeue? && i < j < |e.due|
    ensures e.due[j] in s.rows && e.due[i] in NotYounger(s.rows, s.now, e.due[j])
  {
    assert NoLaterThan(s.rows[e.due[i]], s.rows[e.due[j]]);
  }

  /** The oldest of some ripe rows. */
  lemma {:induction false} Oldest(t: Table, ids: set<Id>) returns (x: Id)
    requires ids != {} && forall y | y in ids :: y in t
    ensures x in ids && forall y | y in ids :: NoLaterThan(t[x], t[y])
    decreases |ids|
  {
    x :| x in ids;
    if ids != {x} {
      var z := Oldest(t, ids - {x});
      if !NoLaterThan(t[x], t[z]) { x := z; }
    }
  }

  /** Every table has a selection, so a drain that passed its gate can always go on. */
  lemma SomeSelection(t: Table, now: nat, limit: nat) returns (due: seq<Id>)
    ensures IsDueSelection(t, now, limit, due)
  {
    due := [];
    var left := set y | y in t && Due(t[y], now);
    while |due| < limit && left != {}
      invariant |due| <= limit
      invariant forall y | y in left :: y in t && Due(t[y], now) && y !in due
      invariant forall y | y in t && Due(t[y], now) && y !in due :: y in left
      invariant forall i | 0 <= i < |due| :: due[i] in t && Due(t[due[i]], now)
      invariant forall i, j | 0 <= i < j < |due| :: due[i] != due[j] && NoLaterThan(t[due[i]], t[due[j]])
      invariant forall i, y | 0 <= i < |due| && y in left :: NoLaterThan(t[due[i]], t[y])
      decreases |left|
    {
      var x := Oldest(t, left);
      due := due + [x];
      left := left - {x};
    }
  }

  /** What the documentation promises after so many earlier attempts: 15 seconds, then 1, 5 and 15 minutes, an
      hour, and six hours from then on; in nanoseconds. */
  function Delay(earlier: nat): nat {
    if earlier == 0 then 15_000_000_000
    else if earlier == 1 then 60_000_000_000
    else if earlier == 2 then 300_000_000_000
    else if earlier == 3 then 900_000_000_000
    else if earlier == 4 then 3_600_000_000_000
    else 21_600_000_000_000
  }

  /** Retry delays follow the table, never shrink, and stay at six hours from the sixth attempt on. */
  lemma BackoffGrows(n: nat, m: nat)
    requires n <= m
    ensures BackoffAfter(n) == Delay(n) && BackoffAfter(n) <= BackoffAfter(m) <= 6 * HOUR
    ensures BackoffAfter(n) == 6 * HOUR <==> n >= 5
  {
  }

  /** Replies that promise better luck later: no connection, 408, 429 and everything from 500 on. */
  predicate MayPass(r: Reply) {
    r.NetworkError? || (r.Http? && (r.code >= 500 || r.code == 408 || r.code == 429))
  }

  /** Replies that do not: the request could not even be made, or any other code from 300 on. */
  predicate IsFinal(r: Reply) {
    r.InvalidRequest? || (r.Http? && r.code >= 300 && r.code < 500 && r.code != 408 && r.code != 429)
  }

  /** What a reply to `item` makes of the table: a code below 300 removes the row; otherwise the row stays with its
      message and one attempt more, waiting for its delay if the reply may pass, and held if it is final. */
  ghost predicate FollowsReply(t: Table, t': Table, item: Item, r: Reply, now: nat) {
    && (forall other | other != item.id :: (other in t <==> other in t') && (other in t ==> t'[other] == t[other]))
    && (item.id in t' <==> item.id in t && !(r.Http? && r.code < 300))
    && (item.id in t' ==>
          var was, row := t[item.id], t'[item.id];
          && row.payload == was.payload && row.dest == was.dest && row.createdAt == was.createdAt
          && row.attempts == was.attempts + 1
          && (MayPass(r) ==> row.status == was.status && row.nextAttemptAt == (now + Delay(item.row.attempts)) / 1_000_000_000)
          && (IsFinal(r) ==> row.status == Hold))
  }

  /** Every reply is of one of these kinds, and the statement does what its kind asks for. */
  lemma SettleFollows(t: Table, item: Item, r: Reply, now: nat)
    ensures (r.Http? && r.code < 300) || MayPass(r) || IsFinal(r)
    ensures FollowsReply(t, Settle(t, item, r, now), item, r, now)
  {
    BackoffGrows(item.row.attempts, item.row.attempts);
  }

  /** An administrator puts rows back on the clock. */
  predicate ResetsSchedule(e: Event) {
    (e.RetryHeld? && e.written) || (e.Rewrite? && e.written)
  }

  /** Step `i` writes the outcome `r` of sending `id` into the table. */
  ghost predicate StoresAt(ss: seq<System>, es: seq<Event>, i: nat, id: Id)
    requires IsRun(ss, es)
  {
    i < |es| && es[i] == Store(true) && ss[i].phase.item.id == id && id in ss[i].rows
  }

  /** `id` stays out of the loop's hands until the clock has reached the second `due`, and is then
      read with `attempts` attempts behind it. */
  ghost predicate Waits(s: System, id: Id, due: nat, attempts: nat) {
    && (id in s.rows && s.rows[id].status.Pending? ==> s.rows[id].nextAttemptAt >= due && s.rows[id].attempts == attempts)
    && (forall i | 0 <= i < |Ahead(s.phase)| :: Ahead(s.phase)[i].id == id ==>
          StoredTime(s.now) >= due && Ahead(s.phase)[i].row.attempts == attempts)
  }

  lemma StoredTimeMonotone(a: nat, b: nat)
    requires a <= b
    ensures StoredTime(a) <= StoredTime(b)
  {
  }

  lemma StepKeepsWaiting(s: System, e: Event, id: Id, due: nat, attempts: nat)
    requires Inv(s) && Enabled(s, e) && Waits(s, id, due, attempts) && id in s.used
    requires !ResetsSchedule(e)
    requires e.Store? ==> s.phase.item.id != id
    ensures Waits(Apply(s, e), id, due, attempts)
  {
    var s' := Apply(s, e);
    StoredTimeMonotone(s.now, s'.now);
    match e
    case Dequeue(dueIds, bad, held) =>
      ReadableItems(s.rows, dueIds, bad);
      assert Ahead(s'.phase) == Readable(s.rows, dueIds, bad);
    case Attempt(_) =>
      assert Ahead(s'.phase) == Ahead(s.phase)[1..];
    case _ =>
      assert Ahead(s'.phase) == Ahead(s.phase) || Ahead(s'.phase) == [];
  }

  lemma {:induction false} WaitsSince(ss: seq<System>, es: seq<Event>, i: nat, j: nat, id: Id)
    requires IsRun(ss, es) && StoresAt(ss, es, i, id) && MayPass(ss[i].phase.reply) && i < j < |ss|
    requires forall m | i < m < j :: !ResetsSchedule(es[m]) && !SendsAt(ss, es, m, id)
    ensures Waits(ss[j], id, StoredTime(ss[i].now + Delay(ss[i].phase.item.row.attempts)), ss[i].rows[id].attempts + 1)
    ensures id in ss[j].used
    ensures ss[j].phase.Replied? ==> ss[j].phase.item.id != id
  {
    ReachableInv(ss, es, i);
    ReachableInv(ss, es, j - 1);
    if j == i + 1 {
      assert InHand(ss[i].phase)[0] == ss[i].phase.item;
      assert Ahead(ss[j].phase) == InHand(ss[i].phase)[1..];
      SettleFollows(ss[i].rows, ss[i].phase.item, ss[i].phase.reply, ss[i].now);
    } else {
      WaitsSince(ss, es, i, j - 1, id);
      StepKeepsWaiting(ss[j - 1], es[j - 1], id,
                       StoredTime(ss[i].now + Delay(ss[i].phase.item.row.attempts)), ss[i].rows[id].attempts + 1);
    }
  }

  /** Retry spacing. A row whose send failed transiently after n earlier attempts is not sent again
      until more than the scheduled delay less one second has passed (the stored times drop fractions
      of a second), unless an administrator retries or rewrites it. The next send sees one attempt
      more than the table held. */
  lemma RetrySpacing(ss: seq<System>, es: seq<Event>, i: nat, j: nat, id: Id)
    requires IsRun(ss, es) && StoresAt(ss, es, i, id) && MayPass(ss[i].phase.reply)
    requires i < j && SendsAt(ss, es, j, id)
    requires forall m | i < m < j :: !ResetsSchedule(es[m]) && !SendsAt(ss, es, m, id)
    ensures ss[j].now - ss[i].now > Delay(ss[i].phase.item.row.attempts) - SECOND
    ensures ss[j].phase.batch[0].row.attempts == ss[i].rows[id].attempts + 1
  {
    WaitsSince(ss, es, i, j, id);
    assert Ahead(ss[j].phase)[0].id == id;
  }

  // ---------------------------------------------------------------- held rows

  ghost predicate Parked(s: System, id: Id) {
    && (id in s.rows ==> s.rows[id].status.Hold?)
    && Absent(id, Ahead(s.phase))
    && id in s.used
    && (s.phase.Replied? ==> s.phase.item.id != id)
  }

  lemma StepKeepsParked(s: System, e: Event, id: Id)
    requires Enabled(s, e) && Parked(s, id) && e != RetryHeld(true)
    ensures Parked(Apply(s, e), id)
  {
    var s' := Apply(s, e);
    match e
    case Dequeue(due, bad, held) =>
      ReadableItems(s.rows, due, bad);
      assert Ahead(s'.phase) == Readable(s.rows, due, bad);
    case Attempt(_) =>
      assert Ahead(s.phase)[0] == s'.phase.item;
      assert Ahead(s'.phase) == Ahead(s.phase)[1..];
    case _ => assert Ahead(s'.phase) == Ahead(s.phase) || Ahead(s'.phase) == [];
  }

  lemma {:induction false} ParkedSince(ss: seq<System>, es: seq<Event>, i: nat, j: nat, id: Id)
    requires IsRun(ss, es) && StoresAt(ss, es, i, id) && i < j < |ss|
    requires IsFinal(ss[i].phase.reply)
    requires forall m | i < m < j :: es[m] != RetryHeld(true)
    ensures Parked(ss[j], id)
  {
    ReachableInv(ss, es, i);
    if j == i + 1 {
      assert InHand(ss[i].phase)[0] == ss[i].phase.item;
      assert Ahead(ss[j].phase) == InHand(ss[i].phase)[1..];
    } else {
      ParkedSince(ss, es, i, j - 1, id);
      StepKeepsParked(ss[j - 1], es[j - 1], id);
    }
  }

  /** A permanent failure parks the row: it is never sent again before an administrator retries held
      rows. */
  lemma HeldUntilRetried(ss: seq<System>, es: seq<Event>, i: nat, j: nat, id: Id)
    requires IsRun(ss, es) && StoresAt(ss, es, i, id) && i < j && SendsAt(ss, es, j, id)
    requires IsFinal(ss[i].phase.reply)
    ensures exists m :: i < m < j && es[m] == RetryHeld(true)
  {
    assert Ahead(ss[j].phase)[0].id == id;
    if forall m | i < m < j :: es[m] != RetryHeld(true) {
      ParkedSince(ss, es, i, j, id);
    }
  }
}
