/** Extraction passes over the message store: a pass loads the messages above the session's watermark and
    ends by completing, failing, or giving the range up. Ingest goes on between any two of its statements
    (internal/memory/extractor/extractor.go, internal/store/memory_messages_range.go,
    internal/store/memory_sessions_extract.go). */
module MemoryExtract {
  import opened Options
  import opened MemoryModel

  // ---------------------------------------------------------------- queries

  function RowsOf(rows: seq<MessageRow>, session: string): seq<MessageRow> {
    if rows == [] then []
    else RowsOf(rows[..|rows| - 1], session) + if rows[|rows| - 1].session == session then [rows[|rows| - 1]] else []
  }

  function Above(rows: seq<MessageRow>, after: nat): seq<MessageRow> {
    if rows == [] then []
    else Above(rows[..|rows| - 1], after) + if rows[|rows| - 1].id > after then [rows[|rows| - 1]] else []
  }

  function UpTo(rows: seq<MessageRow>, through: nat): seq<MessageRow> {
    if rows == [] then []
    else UpTo(rows[..|rows| - 1], through) + if rows[|rows| - 1].id <= through then [rows[|rows| - 1]] else []
  }

  const DEFAULT_LIMIT := 400

  function Limit(limit: int): (n: nat)
    ensures n > 0
  {
    if limit <= 0 then DEFAULT_LIMIT else limit
  }

  /** The bounded range query of one pass. */
  function Range(rows: seq<MessageRow>, session: string, after: nat, limit: int): seq<MessageRow> {
    var found := Above(RowsOf(rows, session), after);
    if |found| <= Limit(limit) then found else found[..Limit(limit)]
  }

  // ---------------------------------------------------------------- the machine

  datatype Config = Config(passLimit: int, poisonAfter: int)

  datatype Phase = Loaded | Attempting | GivingUp

  /** A pass in progress; the per-session mutex allows one. */
  datatype Pass = Pass(window: seq<MessageRow>, phase: Phase)

  datatype State = State(store: Store, passes: map<string, Pass>)

  const INITIAL: State := State(EMPTY, map[])

  datatype Event =
    | Receive(call: Call)
    | Load(session: string)
    | Begin(session: string, now: real)
    | Complete(session: string, now: real)
    | Fail(session: string)
    | Poison(session: string, now: real)
    | Leave(session: string)

  function Watermark(s: Store, session: string): nat {
    if session in s.sessions && s.sessions[session].extraction.through.Some?
    then s.sessions[session].extraction.through.value else 0
  }

  function Attempts(s: Store, session: string): nat {
    if session in s.sessions then s.sessions[session].extraction.attempts else 0
  }

  predicate InPhase(s: State, session: string, phase: Phase) {
    session in s.passes && session in s.store.sessions && s.passes[session].phase == phase
    && s.passes[session].window != []
  }

  /** A window whose messages are all filtered out completes without an attempt. */
  predicate Enabled(s: State, e: Event) {
    match e
    case Receive(_) => true
    case Load(id) => id in s.store.sessions && id !in s.passes
    case Begin(id, _) => InPhase(s, id, Loaded)
    case Complete(id, _) => InPhase(s, id, Loaded) || InPhase(s, id, Attempting)
    case Fail(id) => InPhase(s, id, Attempting)
    case Poison(id, _) => InPhase(s, id, GivingUp)
    case Leave(id) => id in s.passes
  }

  function LastId(window: seq<MessageRow>): nat
    requires window != []
  {
    window[|window| - 1].id
  }

  function BookAfter(x: Extraction, e: Event, last: nat): Extraction {
    match e
    case Begin(_, now) => x.(lastAttemptAt := Some(now))
    case Complete(_, now) => x.(through := Some(last), extractedAt := Some(now), attempts := 0)
    case Fail(_) => x.(attempts := x.attempts + 1)
    case Poison(_, now) => x.(through := Some(last), poisonedAt := Some(now), attempts := 0)
    case _ => x
  }

  function SetBook(s: Store, session: string, e: Event, last: nat): Store
    requires session in s.sessions
  {
    var row := s.sessions[session];
    s.(sessions := s.sessions[session := row.(extraction := BookAfter(row.extraction, e, last))])
  }

  function StoreAfter(s: State, e: Event, parse: string -> Option<real>): Store
    requires Enabled(s, e)
  {
    match e
    case Receive(c) => Ingest(s.store, c, parse)
    case Load(_) => s.store
    case Leave(_) => s.store
    case _ => SetBook(s.store, e.session, e, LastId(s.passes[e.session].window))
  }

  function PassesAfter(s: State, e: Event, cfg: Config): map<string, Pass>
    requires Enabled(s, e)
  {
    match e
    case Receive(_) => s.passes
    case Load(id) =>
      var window := Range(s.store.messages, id, Watermark(s.store, id), cfg.passLimit);
      if window == [] then s.passes else s.passes[id := Pass(window, Loaded)]
    case Begin(id, _) => s.passes[id := s.passes[id].(phase := Attempting)]
    case Fail(id) =>
      if Attempts(s.store, id) + 1 >= cfg.poisonAfter
      then s.passes[id := s.passes[id].(phase := GivingUp)] else s.passes - {id}
    case _ => s.passes - {e.session}
  }

  function Apply(s: State, e: Event, cfg: Config, parse: string -> Option<real>): State
    requires Enabled(s, e)
  {
    State(StoreAfter(s, e, parse), PassesAfter(s, e, cfg))
  }

  ghost predicate Step(s: State, e: Event, s': State, cfg: Config, parse: string -> Option<real>) {
    Enabled(s, e) && s' == Apply(s, e, cfg, parse)
  }

  ghost predicate IsRun(ss: seq<State>, es: seq<Event>, cfg: Config, parse: string -> Option<real>) {
    && |ss| == |es| + 1
    && ss[0] == INITIAL
    && forall i {:trigger es[i]} | 0 <= i < |es| :: Step(ss[i], es[i], ss[i + 1], cfg, parse)
  }

  // ---------------------------------------------------------------- sorted rows

  ghost predicate Ascending(rows: seq<MessageRow>) {
    forall i, j | 0 <= i < j < |rows| :: rows[i].id < rows[j].id
  }

  /** Position `k` separates the rows at or below `through` from the later ones. */
  ghost predicate Cut(rows: seq<MessageRow>, through: nat, k: nat) {
    && k <= |rows|
    && (forall i | 0 <= i < k :: rows[i].id <= through)
    && (forall i | k <= i < |rows| :: rows[i].id > through)
  }

  lemma {:induction false} CutExists(rows: seq<MessageRow>, through: nat) returns (k: nat)
    requires Ascending(rows)
    ensures Cut(rows, through, k)
  {
    k := |rows|;
    while k > 0 && rows[k - 1].id > through
      invariant k <= |rows| && forall i | k <= i < |rows| :: rows[i].id > through
    {
      k := k - 1;
    }
  }

  lemma {:induction false} CutBelow(rows: seq<MessageRow>, through: nat, k: nat)
    requires Cut(rows, through, k)
    ensures UpTo(rows, through) == rows[..k]
    decreases |rows|
  {
    if rows == [] {
    } else {
      var init := rows[..|rows| - 1];
      if k == |rows| {
        CutBelow(init, through, k - 1);
        assert rows[..k] == init[..k - 1] + [rows[k - 1]];
      } else {
        CutBelow(init, through, k);
        assert rows[..k] == init[..k];
      }
    }
  }

  lemma {:induction false} NoneAbove(rows: seq<MessageRow>, through: nat)
    requires forall i | 0 <= i < |rows| :: rows[i].id <= through
    ensures Above(rows, through) == []
  {
    if rows == [] {
    } else {
      NoneAbove(rows[..|rows| - 1], through);
    }
  }

  lemma {:induction false} CutAbove(rows: seq<MessageRow>, through: nat, k: nat)
    requires Cut(rows, through, k)
    ensures Above(rows, through) == rows[k..]
    decreases |rows|
  {
    if k == |rows| {
      NoneAbove(rows, through);
    } else {
      var init, last := rows[..|rows| - 1], rows[|rows| - 1];
      CutAbove(init, through, k);
      assert rows[k..] == init[k..] + [last];
    }
  }

  lemma {:induction false} RowsOfSound(rows: seq<MessageRow>, session: string)
    requires Ascending(rows)
    ensures Ascending(RowsOf(rows, session))
    ensures forall i | 0 <= i < |RowsOf(rows, session)| :: RowsOf(rows, session)[i] in rows
  {
    if rows == [] {
    } else {
      var init, last := rows[..|rows| - 1], rows[|rows| - 1];
      RowsOfSound(init, session);
      var mine := RowsOf(init, session);
      forall i | 0 <= i < |mine| ensures mine[i] in rows && mine[i].id < last.id {
        var k :| 0 <= k < |init| && init[k] == mine[i];
        assert rows[k] == init[k];
      }
    }
  }

  lemma {:induction false} RowsOfExactly(rows: seq<MessageRow>, session: string, m: MessageRow)
    ensures m in RowsOf(rows, session) <==> m in rows && m.session == session
  {
    if rows == [] {
    } else {
      RowsOfExactly(rows[..|rows| - 1], session, m);
      assert rows == rows[..|rows| - 1] + [rows[|rows| - 1]];
    }
  }

  lemma AboveExactly(rows: seq<MessageRow>, after: nat, m: MessageRow)
    requires Ascending(rows)
    ensures m in Above(rows, after) <==> m in rows && m.id > after
    ensures Ascending(Above(rows, after))
  {
    var k := CutExists(rows, after);
    CutAbove(rows, after, k);
    if m in rows && m.id > after {
      var i :| 0 <= i < |rows| && rows[i] == m;
      assert rows[k..][i - k] == m;
    }
  }

  /** The window of a pass: messages of the session above the watermark, oldest first, as many as there are or as the
      limit allows (400 when none is set), and none left out that is older than one of them. */
  ghost predicate IsWindow(rows: seq<MessageRow>, session: string, after: nat, limit: int, window: seq<MessageRow>) {
    && Ascending(window)
    && |window| <= (if limit <= 0 then 400 else limit)
    && (forall m | m in window :: m in rows && m.session == session && m.id > after)
    && (forall m | m in rows && m.session == session && m.id > after && m !in window ::
          |window| == (if limit <= 0 then 400 else limit) && forall x | x in window :: x.id < m.id)
  }

  lemma RangeIsWindow(rows: seq<MessageRow>, session: string, after: nat, limit: int)
    requires Ascending(rows)
    ensures IsWindow(rows, session, after, limit, Range(rows, session, after, limit))
  {
    var mine, window := RowsOf(rows, session), Range(rows, session, after, limit);
    var found := Above(mine, after);
    RowsOfSound(rows, session);
    forall m ensures m in found <==> m in rows && m.session == session && m.id > after {
      RowsOfExactly(rows, session, m);
      AboveExactly(mine, after, m);
    }
    assert Ascending(found) by { if rows != [] { AboveExactly(mine, after, rows[0]); } }
    forall m | m in found && m !in window ensures |window| == Limit(limit) && forall x | x in window :: x.id < m.id {
      var i :| 0 <= i < |found| && found[i] == m;
      assert |found| > Limit(limit) && window == found[..Limit(limit)];
    }
  }

  lemma {:induction false} RowsOfGrows(rows: seq<MessageRow>, more: seq<MessageRow>, session: string)
    requires rows <= more
    ensures RowsOf(rows, session) <= RowsOf(more, session)
    decreases |more|
  {
    if |rows| == |more| {
      assert rows == more;
    } else {
      RowsOfGrows(rows, more[..|more| - 1], session);
    }
  }
}

/** What the watermark means, in every reachable state. */
module MemoryWatermark {
  import opened Options
  import opened MemoryModel
  import MemoryIngest
  import opened MemoryExtract

  // ---------------------------------------------------------------- invariant

  /** The window of a pass is the next stretch of its session above the watermark. */
  ghost predicate IsNext(rows: seq<MessageRow>, mark: nat, window: seq<MessageRow>) {
    forall k: nat | Cut(rows, mark, k) :: k + |window| <= |rows| && window == rows[k..k + |window|]
  }

  ghost predicate SessionInv(s: State, id: string) {
    && Watermark(s.store, id) < s.store.nextId
    && (id in s.passes ==> id in s.store.sessions && s.passes[id].window != [])
    && (id in s.passes ==> IsNext(RowsOf(s.store.messages, id), Watermark(s.store, id), s.passes[id].window))
  }

  ghost predicate Inv(s: State) {
    s.store.nextId > 0 && MemoryIngest.RowsInv(s.store.messages, s.store.nextId)
  }

  lemma {:induction false} InsertsAreNew(s: Store, session: string, platform: string, ms: seq<Message>)
    ensures var t := InsertAll(s, session, platform, ms);
      && s.nextId <= t.nextId && |s.messages| <= |t.messages|
      && forall i | |s.messages| <= i < |t.messages| :: t.messages[i].id >= s.nextId
  {
    if ms == [] {
    } else {
      InsertsAreNew(s, session, platform, ms[..|ms| - 1]);
    }
  }

  /** Only ingest touches the messages, and it only appends rows with new ids. */
  lemma StepMessages(s: State, e: Event, s': State, cfg: Config, parse: string -> Option<real>)
    requires Step(s, e, s', cfg, parse)
    ensures s.store.messages <= s'.store.messages && s.store.nextId <= s'.store.nextId
    ensures forall i | |s.store.messages| <= i < |s'.store.messages| :: s'.store.messages[i].id >= s.store.nextId
    ensures !e.Receive? ==> s'.store.messages == s.store.messages && s'.store.nextId == s.store.nextId
    ensures Inv(s) ==> Inv(s')
  {
    if e.Receive? && Accepted(s.store, e.call) {
      var c := e.call;
      MemoryIngest.InsertAllGrows(s.store, c.request.session, c.request.platform, c.parsed.value);
      InsertsAreNew(s.store, c.request.session, c.request.platform, c.parsed.value);
      if Inv(s) { MemoryIngest.InsertAllKeepsRows(s.store, c.request.session, c.request.platform, c.parsed.value); }
    }
  }

  /** Which events move a session's bookkeeping. */
  lemma StepBook(s: State, e: Event, s': State, cfg: Config, parse: string -> Option<real>, id: string)
    requires Step(s, e, s', cfg, parse)
    ensures id in s.store.sessions ==> id in s'.store.sessions
    ensures Watermark(s'.store, id) ==
            if Closes(e, id) then LastId(s.passes[id].window) else Watermark(s.store, id)
    ensures Attempts(s'.store, id) ==
            if Closes(e, id) then 0 else if e == Fail(id) then Attempts(s.store, id) + 1 else Attempts(s.store, id)
  {
  }

  /** The events that account for a window: it was extracted, or given up. */
  predicate Closes(e: Event, id: string) {
    (e.Complete? || e.Poison?) && e.session == id
  }

  lemma LoadIsNext(rows: seq<MessageRow>, id: string, mark: nat, limit: int)
    requires Ascending(RowsOf(rows, id))
    ensures IsNext(RowsOf(rows, id), mark, Range(rows, id, mark, limit))
  {
    var mine := RowsOf(rows, id);
    forall k: nat | Cut(mine, mark, k)
      ensures var window := Range(rows, id, mark, limit); k + |window| <= |mine| && window == mine[k..k + |window|]
    {
      CutAbove(mine, mark, k);
    }
  }

  lemma NextSurvives(rows: seq<MessageRow>, more: seq<MessageRow>, mark: nat, window: seq<MessageRow>)
    requires Ascending(rows) && rows <= more && IsNext(rows, mark, window) && window != []
    ensures IsNext(more, mark, window)
  {
    forall k: nat | Cut(more, mark, k) ensures k + |window| <= |more| && window == more[k..k + |window|] {
      var h := CutExists(rows, mark);
      assert h < |rows| && more[h] == rows[h];
      assert h == k by {
        assert h > 0 ==> more[h - 1] == rows[h - 1];
      }
      assert more[k..k + |window|] == rows[k..k + |window|];
    }
  }

  /** Closing the window moves the cut to its end. */
  lemma CloseMoves(rows: seq<MessageRow>, mark: nat, window: seq<MessageRow>)
    requires Ascending(rows) && IsNext(rows, mark, window) && window != []
    ensures UpTo(rows, LastId(window)) == UpTo(rows, mark) + window
    ensures LastId(window) > mark
  {
    var k := CutExists(rows, mark);
    var n := k + |window|;
    assert LastId(window) == rows[n - 1].id;
    assert Cut(rows, LastId(window), n);
    CutBelow(rows, mark, k);
    CutBelow(rows, LastId(window), n);
    assert rows[..n] == rows[..k] + rows[k..n];
  }

  lemma LastIdIsStored(s: State, id: string)
    requires Inv(s) && SessionInv(s, id) && id in s.passes
    ensures LastId(s.passes[id].window) < s.store.nextId
  {
    var rows, mark, window := RowsOf(s.store.messages, id), Watermark(s.store, id), s.passes[id].window;
    RowsOfSound(s.store.messages, id);
    var k := CutExists(rows, mark);
    assert window[|window| - 1] == rows[k + |window| - 1];
    assert rows[k + |window| - 1] in s.store.messages;
  }

  lemma StepPass(s: State, e: Event, s': State, cfg: Config, parse: string -> Option<real>, id: string)
    requires Step(s, e, s', cfg, parse) && id in s'.passes
    ensures if id in s.passes then s'.passes[id].window == s.passes[id].window && !Closes(e, id)
            else e == Load(id) && s'.passes[id].window == Range(s.store.messages, id, Watermark(s.store, id), cfg.passLimit)
                 && s'.passes[id].window != [] && id in s.store.sessions
  {
  }

  lemma StepSession(s: State, e: Event, s': State, cfg: Config, parse: string -> Option<real>, id: string)
    requires Step(s, e, s', cfg, parse) && Inv(s) && SessionInv(s, id)
    ensures SessionInv(s', id)
  {
    StepMessages(s, e, s', cfg, parse);
    StepBook(s, e, s', cfg, parse, id);
    if Closes(e, id) { LastIdIsStored(s, id); }
    if id in s'.passes {
      StepPass(s, e, s', cfg, parse, id);
      RowsOfSound(s.store.messages, id);
      if id in s.passes {
        RowsOfGrows(s.store.messages, s'.store.messages, id);
        NextSurvives(RowsOf(s.store.messages, id), RowsOf(s'.store.messages, id), Watermark(s.store, id), s.passes[id].window);
      } else {
        LoadIsNext(s.store.messages, id, Watermark(s.store, id), cfg.passLimit);
      }
    }
  }

  lemma {:induction false} ReachableInv(ss: seq<State>, es: seq<Event>, cfg: Config, parse: string -> Option<real>, i: nat, id: string)
    requires IsRun(ss, es, cfg, parse) && i < |ss|
    ensures Inv(ss[i]) && SessionInv(ss[i], id)
  {
    if i == 0 {
    } else {
      ReachableInv(ss, es, cfg, parse, i - 1, id);
      assert Step(ss[i - 1], es[i - 1], ss[i], cfg, parse);
      StepMessages(ss[i - 1], es[i - 1], ss[i], cfg, parse);
      StepSession(ss[i - 1], es[i - 1], ss[i], cfg, parse, id);
    }
  }

  // ---------------------------------------------------------------- theorems

  /** The messages of a session at or below its watermark. */
  ghost function Behind(s: State, id: string): seq<MessageRow> {
    UpTo(RowsOf(s.store.messages, id), Watermark(s.store, id))
  }

  /** The window that an event accounts for. */
  ghost function Closed(s: State, e: Event, id: string): seq<MessageRow> {
    if Closes(e, id) && id in s.passes then s.passes[id].window else []
  }

  ghost function Joined(parts: seq<seq<MessageRow>>, j: nat): seq<MessageRow>
    requires j <= |parts|
  {
    if j == 0 then [] else Joined(parts, j - 1) + parts[j - 1]
  }

  /** The windows accounted for among the first `j` events, one after the other. */
  ghost function Accounted(ss: seq<State>, es: seq<Event>, id: string, j: nat): seq<MessageRow>
    requires |ss| == |es| + 1 && j <= |es|
  {
    Joined(seq(|es|, i requires 0 <= i < |es| => Closed(ss[i], es[i], id)), j)
  }

  /** Partition: the windows that were extracted or given up, laid end to end, are exactly the session's
      messages up to the watermark. No message is skipped, taken twice or taken out of order, whatever is
      ingested in between. */
  lemma WatermarkPartitions(ss: seq<State>, es: seq<Event>, cfg: Config, parse: string -> Option<real>, id: string, j: nat)
    requires IsRun(ss, es, cfg, parse) && j < |ss|
    ensures Accounted(ss, es, id, j) == Behind(ss[j], id)
  {
    var behind := EachStepAdds(ss, es, cfg, parse, id);
    Accumulate(behind, ss, es, id, j);
  }

  lemma EachStepAdds(ss: seq<State>, es: seq<Event>, cfg: Config, parse: string -> Option<real>, id: string)
    returns (behind: seq<seq<MessageRow>>)
    requires IsRun(ss, es, cfg, parse)
    ensures |behind| == |ss| && behind[0] == []
    ensures forall i | 0 <= i < |ss| :: behind[i] == Behind(ss[i], id)
    ensures forall i {:trigger es[i]} | 0 <= i < |es| :: behind[i + 1] == behind[i] + Closed(ss[i], es[i], id)
  {
    NothingBehind(id);
    behind := seq(|ss|, i requires 0 <= i < |ss| => Behind(ss[i], id));
    forall i | 0 <= i < |es| ensures behind[i + 1] == behind[i] + Closed(ss[i], es[i], id) {
      PartitionAt(ss, es, cfg, parse, id, i);
    }
  }

  lemma Accumulate(behind: seq<seq<MessageRow>>, ss: seq<State>, es: seq<Event>, id: string, j: nat)
    requires |behind| == |ss| == |es| + 1 && j < |ss| && behind[0] == []
    requires forall i {:trigger es[i]} | 0 <= i < |es| :: behind[i + 1] == behind[i] + Closed(ss[i], es[i], id)
    ensures Accounted(ss, es, id, j) == behind[j]
  {
    var parts := seq(|es|, i requires 0 <= i < |es| => Closed(ss[i], es[i], id));
    forall i | 0 <= i < |es| ensures behind[i + 1] == behind[i] + parts[i] {
      assert parts[i] == Closed(ss[i], es[i], id);
    }
    Telescope(behind, parts, j);
  }

  lemma {:induction false} Telescope(sums: seq<seq<MessageRow>>, parts: seq<seq<MessageRow>>, j: nat)
    requires |sums| == |parts| + 1 && j < |sums| && sums[0] == []
    requires forall i {:trigger parts[i]} | 0 <= i < |parts| :: sums[i + 1] == sums[i] + parts[i]
    ensures Joined(parts, j) == sums[j]
  {
    if j == 0 {
    } else {
      Telescope(sums, parts, j - 1);
    }
  }

  ghost predicate Adds(s: State, e: Event, s': State, id: string) {
    Behind(s', id) == Behind(s, id) + Closed(s, e, id)
  }

  lemma NothingBehind(id: string)
    ensures Behind(INITIAL, id) == []
  {
    assert RowsOf([], id) == [];
  }

  lemma PartitionAt(ss: seq<State>, es: seq<Event>, cfg: Config, parse: string -> Option<real>, id: string, j: nat)
    requires IsRun(ss, es, cfg, parse) && j < |es|
    ensures Adds(ss[j], es[j], ss[j + 1], id)
  {
    assert Step(ss[j], es[j], ss[j + 1], cfg, parse);
    ReachableInv(ss, es, cfg, parse, j, id);
    PartitionStep(ss[j], es[j], ss[j + 1], cfg, parse, id);
  }

  /** And those are the session's oldest messages. */
  lemma AccountedAreOldest(ss: seq<State>, es: seq<Event>, cfg: Config, parse: string -> Option<real>, id: string, j: nat)
    requires IsRun(ss, es, cfg, parse) && j < |ss|
    ensures Accounted(ss, es, id, j) <= RowsOf(ss[j].store.messages, id)
  {
    var rows, mark := RowsOf(ss[j].store.messages, id), Watermark(ss[j].store, id);
    WatermarkPartitions(ss, es, cfg, parse, id, j);
    ReachableInv(ss, es, cfg, parse, j, id);
    RowsOfSound(ss[j].store.messages, id);
    var k := CutExists(rows, mark);
    CutBelow(rows, mark, k);
  }

  lemma PartitionStep(s: State, e: Event, s': State, cfg: Config, parse: string -> Option<real>, id: string)
    requires Step(s, e, s', cfg, parse) && Inv(s) && SessionInv(s, id)
    ensures Adds(s, e, s', id)
  {
    StepMessages(s, e, s', cfg, parse);
    StepBook(s, e, s', cfg, parse, id);
    if Closes(e, id) {
      RowsOfSound(s.store.messages, id);
      CloseMoves(RowsOf(s.store.messages, id), Watermark(s.store, id), s.passes[id].window);
    } else {
      LaterRowsStayAbove(s.store.messages, s'.store.messages, id, Watermark(s.store, id));
    }
  }

  lemma {:induction false} LaterRowsStayAbove(rows: seq<MessageRow>, more: seq<MessageRow>, id: string, mark: nat)
    requires rows <= more && forall i | |rows| <= i < |more| :: more[i].id > mark
    ensures UpTo(RowsOf(more, id), mark) == UpTo(RowsOf(rows, id), mark)
    decreases |more|
  {
    if |rows| == |more| {
      assert rows == more;
    } else {
      var init, last := more[..|more| - 1], more[|more| - 1];
      LaterRowsStayAbove(rows, init, id, mark);
      var now, was := RowsOf(more, id), RowsOf(init, id);
      if last.session == id {
        assert now == was + [last] && now[..|now| - 1] == was;
      } else {
        assert now == was;
      }
    }
  }

  /** The watermark never goes back. */
  lemma {:induction false} WatermarkGrows(ss: seq<State>, es: seq<Event>, cfg: Config, parse: string -> Option<real>, id: string, i: nat, j: nat)
    requires IsRun(ss, es, cfg, parse) && i <= j < |ss|
    ensures Watermark(ss[i].store, id) <= Watermark(ss[j].store, id)
  {
    if i == j {
    } else {
      WatermarkGrows(ss, es, cfg, parse, id, i, j - 1);
      assert Step(ss[j - 1], es[j - 1], ss[j], cfg, parse);
      StepBook(ss[j - 1], es[j - 1], ss[j], cfg, parse, id);
      ReachableInv(ss, es, cfg, parse, j - 1, id);
      if Closes(es[j - 1], id) {
        RowsOfSound(ss[j - 1].store.messages, id);
        CloseMoves(RowsOf(ss[j - 1].store.messages, id), Watermark(ss[j - 1].store, id), ss[j - 1].passes[id].window);
      }
    }
  }

  /** Failed passes of a session since its watermark last moved. */
  ghost function FailStreak(es: seq<Event>, id: string, j: nat): nat
    requires j <= |es|
  {
    if j == 0 || Closes(es[j - 1], id) then 0
    else FailStreak(es, id, j - 1) + if es[j - 1] == Fail(id) then 1 else 0
  }

  lemma {:induction false} AttemptsCountFailures(ss: seq<State>, es: seq<Event>, cfg: Config, parse: string -> Option<real>, id: string, j: nat)
    requires IsRun(ss, es, cfg, parse) && j < |ss|
    ensures Attempts(ss[j].store, id) == FailStreak(es, id, j)
    ensures id in ss[j].passes && ss[j].passes[id].phase.GivingUp? ==> FailStreak(es, id, j) >= cfg.poisonAfter
  {
    if j == 0 {
    } else {
      AttemptsCountFailures(ss, es, cfg, parse, id, j - 1);
      assert Step(ss[j - 1], es[j - 1], ss[j], cfg, parse);
      StepBook(ss[j - 1], es[j - 1], ss[j], cfg, parse, id);
    }
  }

  /** A range is given up only after that many failed passes in a row, none of which moved the watermark;
      and what is given up is exactly the window of the last of them. */
  lemma PoisonNeedsFailures(ss: seq<State>, es: seq<Event>, cfg: Config, parse: string -> Option<real>, id: string, now: real, j: nat)
    requires IsRun(ss, es, cfg, parse) && j < |es| && es[j] == Poison(id, now)
    ensures FailStreak(es, id, j) >= cfg.poisonAfter
    ensures id in ss[j].passes && Behind(ss[j + 1], id) == Behind(ss[j], id) + ss[j].passes[id].window
  {
    AttemptsCountFailures(ss, es, cfg, parse, id, j);
    PartitionAt(ss, es, cfg, parse, id, j);
    assert Step(ss[j], es[j], ss[j + 1], cfg, parse);
  }
}
