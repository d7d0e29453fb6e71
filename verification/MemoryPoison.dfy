/** How often was a message tried before it was given up? (internal/memory/extractor/extractor.go) */
module MemoryPoison {
  import opened Options
  import opened MemoryModel
  import opened MemoryExtract
  import opened MemoryWatermark

  // ---------------------------------------------------------------- windows that fail

  /** The messages of a session above its watermark. */
  ghost function Ahead(s: State, id: string): seq<MessageRow> {
    Above(RowsOf(s.store.messages, id), Watermark(s.store, id))
  }

  /** The window that failed, if the event is a failure. */
  ghost function FailedWindow(s: State, e: Event, id: string): seq<MessageRow> {
    if e == Fail(id) && id in s.passes then s.passes[id].window else []
  }

  /** The watermark has not moved since step `i`. */
  ghost predicate Pending(es: seq<Event>, id: string, i: nat, j: nat)
    requires j <= |es|
  {
    i < j && forall l | i <= l < j :: !Closes(es[l], id)
  }

  lemma {:induction false} AboveGrows(rows: seq<MessageRow>, more: seq<MessageRow>, mark: nat)
    requires rows <= more
    ensures Above(rows, mark) <= Above(more, mark)
    decreases |more|
  {
    if |rows| == |more| {
      assert rows == more;
    } else {
      AboveGrows(rows, more[..|more| - 1], mark);
    }
  }

  lemma AheadGrows(s: State, e: Event, s': State, cfg: Config, parse: string -> Option<real>, id: string)
    requires Step(s, e, s', cfg, parse) && !Closes(e, id)
    ensures Ahead(s, id) <= Ahead(s', id)
  {
    StepMessages(s, e, s', cfg, parse);
    StepBook(s, e, s', cfg, parse, id);
    RowsOfGrows(s.store.messages, s'.store.messages, id);
    AboveGrows(RowsOf(s.store.messages, id), RowsOf(s'.store.messages, id), Watermark(s.store, id));
  }

  /** A pass works on the messages next in line. */
  lemma WindowAhead(s: State, id: string)
    requires Inv(s) && SessionInv(s, id) && id in s.passes
    ensures s.passes[id].window <= Ahead(s, id) && s.passes[id].window != []
  {
    var rows, mark := RowsOf(s.store.messages, id), Watermark(s.store, id);
    RowsOfSound(s.store.messages, id);
    var k := CutExists(rows, mark);
    CutAbove(rows, mark, k);
    assert rows[k..][..|s.passes[id].window|] == rows[k..k + |s.passes[id].window|];
  }

  lemma AheadSound(s: State, id: string)
    requires Inv(s)
    ensures Ascending(Ahead(s, id)) && forall i | 0 <= i < |Ahead(s, id)| :: Ahead(s, id)[i].id > Watermark(s.store, id)
  {
    var rows, mark := RowsOf(s.store.messages, id), Watermark(s.store, id);
    RowsOfSound(s.store.messages, id);
    var k := CutExists(rows, mark);
    CutAbove(rows, mark, k);
  }

  /** A window that failed is still next in line, and whatever pass is under way includes it. */
  ghost predicate Retried(s: State, id: string, failed: seq<MessageRow>, cfg: Config) {
    && failed <= Ahead(s, id) && |failed| <= Limit(cfg.passLimit)
    && (id in s.passes ==> |failed| <= |s.passes[id].window|)
  }

  lemma RangeOfAhead(s: State, id: string, limit: int, failed: seq<MessageRow>)
    requires failed <= Ahead(s, id) && |failed| <= Limit(limit)
    ensures |failed| <= |Range(s.store.messages, id, Watermark(s.store, id), limit)|
  {
  }

  lemma StepRetries(s: State, e: Event, s': State, cfg: Config, parse: string -> Option<real>, id: string, failed: seq<MessageRow>)
    requires Step(s, e, s', cfg, parse) && !Closes(e, id) && Retried(s, id, failed, cfg)
    ensures Retried(s', id, failed, cfg)
  {
    AheadGrows(s, e, s', cfg, parse, id);
    if id in s'.passes {
      StepPass(s, e, s', cfg, parse, id);
      RangeOfAhead(s, id, cfg.passLimit, failed);
    }
  }

  lemma {:induction false} WindowsAreLimited(ss: seq<State>, es: seq<Event>, cfg: Config, parse: string -> Option<real>, id: string, j: nat)
    requires IsRun(ss, es, cfg, parse) && j < |ss| && id in ss[j].passes
    ensures |ss[j].passes[id].window| <= Limit(cfg.passLimit)
  {
    if j == 0 {
    } else {
      assert Step(ss[j - 1], es[j - 1], ss[j], cfg, parse);
      StepPass(ss[j - 1], es[j - 1], ss[j], cfg, parse, id);
      if id in ss[j - 1].passes { WindowsAreLimited(ss, es, cfg, parse, id, j - 1); }
    }
  }

  /** Windows only grow until one of them is accounted for. */
  lemma {:induction false} FailedIsRetried(ss: seq<State>, es: seq<Event>, cfg: Config, parse: string -> Option<real>, id: string, i: nat, j: nat)
    requires IsRun(ss, es, cfg, parse) && j <= |es| && Pending(es, id, i, j) && es[i] == Fail(id)
    ensures Retried(ss[j], id, FailedWindow(ss[i], es[i], id), cfg) && FailedWindow(ss[i], es[i], id) != []
    decreases j
  {
    var h := j - 1;
    assert Step(ss[h], es[h], ss[j], cfg, parse);
    if i == h {
      ReachableInv(ss, es, cfg, parse, h, id);
      WindowAhead(ss[h], id);
      WindowsAreLimited(ss, es, cfg, parse, id, h);
    } else {
      FailedIsRetried(ss, es, cfg, parse, id, i, h);
    }
    StepRetries(ss[h], es[h], ss[j], cfg, parse, id, FailedWindow(ss[i], es[i], id));
  }

  /** Once the watermark has moved, it has moved past everything that failed before. */
  lemma {:induction false} FailedIsBehind(ss: seq<State>, es: seq<Event>, cfg: Config, parse: string -> Option<real>, id: string, i: nat, j: nat)
    requires IsRun(ss, es, cfg, parse) && i < j <= |es| && !Pending(es, id, i, j) && es[i] == Fail(id)
    ensures forall m | m in FailedWindow(ss[i], es[i], id) :: m.id <= Watermark(ss[j].store, id)
    decreases j
  {
    var h, failed := j - 1, FailedWindow(ss[i], es[i], id);
    assert Step(ss[h], es[h], ss[j], cfg, parse);
    if i < h && !Pending(es, id, i, h) {
      FailedIsBehind(ss, es, cfg, parse, id, i, h);
      WatermarkGrows(ss, es, cfg, parse, id, h, j);
    } else {
      assert Closes(es[h], id);
      FailedIsRetried(ss, es, cfg, parse, id, i, h);
      ReachableInv(ss, es, cfg, parse, h, id);
      CloseCovers(ss[h], id, failed);
      StepBook(ss[h], es[h], ss[j], cfg, parse, id);
    }
  }

  lemma CloseCovers(s: State, id: string, failed: seq<MessageRow>)
    requires Inv(s) && SessionInv(s, id) && id in s.passes && failed <= Ahead(s, id) && |failed| <= |s.passes[id].window|
    ensures forall m | m in failed :: m.id <= LastId(s.passes[id].window)
  {
    WindowAhead(s, id);
    AheadSound(s, id);
    var ahead, window := Ahead(s, id), s.passes[id].window;
    forall m | m in failed ensures m.id <= LastId(window) {
      var q :| 0 <= q < |failed| && failed[q] == m;
      assert m == ahead[q] && LastId(window) == ahead[|window| - 1].id;
    }
  }

  // ---------------------------------------------------------------- counting

  /** The failed passes so far whose window held the message. */
  ghost function Tried(ss: seq<State>, es: seq<Event>, id: string, m: MessageRow, j: nat): nat
    requires |ss| == |es| + 1 && j <= |es|
  {
    if j == 0 then 0 else Tried(ss, es, id, m, j - 1) + if m in FailedWindow(ss[j - 1], es[j - 1], id) then 1 else 0
  }

  /** The failed passes since the watermark last moved whose window reached beyond position `p`. */
  ghost function Reaching(ss: seq<State>, es: seq<Event>, id: string, p: nat, j: nat): nat
    requires |ss| == |es| + 1 && j <= |es|
  {
    if j == 0 || Closes(es[j - 1], id) then 0
    else Reaching(ss, es, id, p, j - 1) + if p < |FailedWindow(ss[j - 1], es[j - 1], id)| then 1 else 0
  }

  ghost predicate Quiet(es: seq<Event>, id: string, h: nat, j: nat)
    requires j <= |es|
  {
    forall l | h <= l < j :: !Closes(es[l], id)
  }

  /** A failure either is a beginning of `ahead`, or lies below `mark` because the watermark has moved since. */
  ghost predicate Settled(ss: seq<State>, es: seq<Event>, id: string, ahead: seq<MessageRow>, mark: nat, i: nat, j: nat)
    requires |ss| == |es| + 1 && i < j <= |es|
  {
    es[i] == Fail(id) ==>
      var failed := FailedWindow(ss[i], es[i], id);
      if Quiet(es, id, i, j) then failed <= ahead else forall m | m in failed :: m.id <= mark
  }

  lemma FailuresSettle(ss: seq<State>, es: seq<Event>, cfg: Config, parse: string -> Option<real>, id: string, i: nat, j: nat)
    requires IsRun(ss, es, cfg, parse) && i < j <= |es|
    ensures Settled(ss, es, id, Ahead(ss[j], id), Watermark(ss[j].store, id), i, j)
  {
    if es[i] == Fail(id) {
      if Quiet(es, id, i, j) { FailedIsRetried(ss, es, cfg, parse, id, i, j); } else { FailedIsBehind(ss, es, cfg, parse, id, i, j); }
    }
  }

  lemma PlaceInPrefix(failed: seq<MessageRow>, ahead: seq<MessageRow>, p: nat)
    requires failed <= ahead && Ascending(ahead) && p < |ahead|
    ensures ahead[p] in failed <==> p < |failed|
  {
    if p < |failed| { assert failed[p] == ahead[p]; }
    if ahead[p] in failed {
      var q :| 0 <= q < |failed| && failed[q] == ahead[p];
      assert ahead[q] == ahead[p];
    }
  }

  lemma {:induction false} CountsAgree(ss: seq<State>, es: seq<Event>, id: string, ahead: seq<MessageRow>, mark: nat, p: nat, h: nat, j: nat)
    requires |ss| == |es| + 1 && h <= j <= |es| && Ascending(ahead) && p < |ahead| && ahead[p].id > mark
    requires forall i | 0 <= i < j :: Settled(ss, es, id, ahead, mark, i, j)
    ensures Tried(ss, es, id, ahead[p], h) == if Quiet(es, id, h, j) then Reaching(ss, es, id, p, h) else 0
    decreases h
  {
    if h == 0 {
    } else {
      CountsAgree(ss, es, id, ahead, mark, p, h - 1, j);
      assert Settled(ss, es, id, ahead, mark, h - 1, j);
      assert Quiet(es, id, h - 1, j) <==> Quiet(es, id, h, j) && !Closes(es[h - 1], id);
      if Quiet(es, id, h - 1, j) && es[h - 1] == Fail(id) { PlaceInPrefix(FailedWindow(ss[h - 1], es[h - 1], id), ahead, p); }
    }
  }

  /** The exact number: a message that is next in line at position `p` has been in as many failed passes as reached
      beyond that position since the watermark last moved. */
  lemma TriedExactly(ss: seq<State>, es: seq<Event>, cfg: Config, parse: string -> Option<real>, id: string, j: nat, p: nat)
    requires IsRun(ss, es, cfg, parse) && j < |ss| && p < |Ahead(ss[j], id)|
    ensures Tried(ss, es, id, Ahead(ss[j], id)[p], j) == Reaching(ss, es, id, p, j)
  {
    var ahead, mark := Ahead(ss[j], id), Watermark(ss[j].store, id);
    ReachableInv(ss, es, cfg, parse, j, id);
    AheadSound(ss[j], id);
    forall i | 0 <= i < j ensures Settled(ss, es, id, ahead, mark, i, j) { FailuresSettle(ss, es, cfg, parse, id, i, j); }
    CountsAgree(ss, es, id, ahead, mark, p, j, j);
  }

  /** Positions further back are reached less often, and the first is reached by every failure. */
  lemma {:induction false} ReachingFalls(ss: seq<State>, es: seq<Event>, cfg: Config, parse: string -> Option<real>, id: string, p: nat, q: nat, j: nat)
    requires IsRun(ss, es, cfg, parse) && j <= |es| && p <= q
    ensures Reaching(ss, es, id, q, j) <= Reaching(ss, es, id, p, j) <= FailStreak(es, id, j) == Reaching(ss, es, id, 0, j)
    decreases j
  {
    if j == 0 {
    } else {
      ReachingFalls(ss, es, cfg, parse, id, p, q, j - 1);
      assert Step(ss[j - 1], es[j - 1], ss[j], cfg, parse);
    }
  }

  lemma {:induction false} LastPassCounts(ss: seq<State>, es: seq<Event>, cfg: Config, parse: string -> Option<real>, id: string, p: nat, j: nat)
    requires IsRun(ss, es, cfg, parse) && j <= |es| && id in ss[j].passes && ss[j].passes[id].phase.GivingUp?
    requires p < |ss[j].passes[id].window|
    ensures Reaching(ss, es, id, p, j) >= 1
    decreases j
  {
    assert Step(ss[j - 1], es[j - 1], ss[j], cfg, parse);
    if es[j - 1] != Fail(id) { LastPassCounts(ss, es, cfg, parse, id, p, j - 1); }
  }

  /** What giving a range up means for each of its messages: the first has failed as often as the limit asks for,
      every one at least once, and a later one as often as a window reached it, which may be less. */
  lemma GivenUpAfter(ss: seq<State>, es: seq<Event>, cfg: Config, parse: string -> Option<real>, id: string, now: real, j: nat, p: nat)
    requires IsRun(ss, es, cfg, parse) && j < |es| && es[j] == Poison(id, now)
    requires id in ss[j].passes && p < |ss[j].passes[id].window|
    ensures Tried(ss, es, id, ss[j].passes[id].window[p], j) == Reaching(ss, es, id, p, j)
    ensures 1 <= Reaching(ss, es, id, p, j) <= Reaching(ss, es, id, 0, j) == FailStreak(es, id, j)
    ensures Reaching(ss, es, id, 0, j) >= cfg.poisonAfter
  {
    assert Step(ss[j], es[j], ss[j + 1], cfg, parse);
    ReachableInv(ss, es, cfg, parse, j, id);
    WindowAhead(ss[j], id);
    assert ss[j].passes[id].window[p] == Ahead(ss[j], id)[p];
    TriedExactly(ss, es, cfg, parse, id, j, p);
    ReachingFalls(ss, es, cfg, parse, id, 0, p, j);
    LastPassCounts(ss, es, cfg, parse, id, p, j);
    AttemptsCountFailures(ss, es, cfg, parse, id, j);
  }

  /** A message has been in every failed pass since the watermark moved if and only if each of them reached it. */
  lemma {:induction false} FullyTriedExactly(ss: seq<State>, es: seq<Event>, id: string, p: nat, j: nat)
    requires |ss| == |es| + 1 && j <= |es|
    requires forall i {:trigger es[i]} | 0 <= i < j && es[i] == Fail(id) :: FailedWindow(ss[i], es[i], id) != []
    ensures Reaching(ss, es, id, p, j) <= FailStreak(es, id, j)
    ensures Reaching(ss, es, id, p, j) == FailStreak(es, id, j) <==>
            forall i {:trigger es[i]} | 0 <= i < j && Pending(es, id, i, j) && es[i] == Fail(id) :: p < |FailedWindow(ss[i], es[i], id)|
  {
    if j == 0 {
    } else {
      FullyTriedExactly(ss, es, id, p, j - 1);
      forall i | 0 <= i < j - 1 ensures Pending(es, id, i, j) <==> Pending(es, id, i, j - 1) && !Closes(es[j - 1], id) { }
      assert Pending(es, id, j - 1, j) <==> !Closes(es[j - 1], id);
    }
  }

  // ---------------------------------------------------------------- a message that came late

  lemma {:induction false} PrefixCounts(ss: seq<State>, es: seq<Event>, s: State, e: Event, id: string, p: nat, j: nat)
    requires |ss| == |es| + 1 && j <= |es|
    ensures FailStreak(es + [e], id, j) == FailStreak(es, id, j)
    ensures Reaching(ss + [s], es + [e], id, p, j) == Reaching(ss, es, id, p, j)
    decreases j
  {
    if j == 0 {
    } else {
      PrefixCounts(ss, es, s, e, id, p, j - 1);
    }
  }

  const TWICE: Config := Config(0, 2)

  /** A run so far, its last state, and two counts: the failures, and those that reached a second message. */
  ghost predicate Tale(ss: seq<State>, es: seq<Event>, parse: string -> Option<real>, s: State, fails: nat, far: nat) {
    IsRun(ss, es, TWICE, parse) && ss[|es|] == s && FailStreak(es, "s", |es|) == fails && Reaching(ss, es, "s", 1, |es|) == far
  }

  lemma Next(ss: seq<State>, es: seq<Event>, parse: string -> Option<real>, s: State, fails: nat, far: nat, e: Event)
    returns (ss': seq<State>, es': seq<Event>, s': State)
    requires Tale(ss, es, parse, s, fails, far) && Enabled(s, e) && !Closes(e, "s")
    ensures es' == es + [e] && s' == Apply(s, e, TWICE, parse)
    ensures Tale(ss', es', parse, s', fails + if e == Fail("s") then 1 else 0, far + if 1 < |FailedWindow(s, e, "s")| then 1 else 0)
  {
    s' := Apply(s, e, TWICE, parse);
    ss', es' := ss + [s'], es + [e];
    forall i | 0 <= i < |es'| ensures Step(ss'[i], es'[i], ss'[i + 1], TWICE, parse) {
      assert i < |es| ==> Step(ss[i], es[i], ss[i + 1], TWICE, parse);
    }
    PrefixCounts(ss, es, s', e, "s", 1, |es|);
  }

  /** A store with one session, never extracted, and all rows its own. */
  predicate Scene(s: State, rows: seq<MessageRow>, attempts: nat) {
    && s.store.messages == rows && s.store.nextId == |rows| + 1
    && (forall i | 0 <= i < |rows| :: rows[i].session == "s" && rows[i].id > 0)
    && "s" in s.store.sessions && s.store.sessions["s"].identity.user == "u"
    && s.store.sessions["s"].extraction.through.None? && s.store.sessions["s"].extraction.attempts == attempts
  }

  lemma {:induction false} AllAhead(rows: seq<MessageRow>)
    requires forall i | 0 <= i < |rows| :: rows[i].session == "s" && rows[i].id > 0
    ensures RowsOf(rows, "s") == rows && Above(rows, 0) == rows
  {
    if rows == [] {
    } else {
      AllAhead(rows[..|rows| - 1]);
      assert rows == rows[..|rows| - 1] + [rows[|rows| - 1]];
    }
  }

  /** One transcript entry arrives. */
  function Arrival(m: Message): Call {
    Call("u", Request("s", "p", 0.0, 0, Identity("u", "", "", 0.0, "p", "", "", false, ""), ""), true, Some([m]), 0.0, false, false)
  }

  lemma ArrivalAdds(s: Store, m: Message, parse: string -> Option<real>)
    requires m.uuid == "" && ("s" in s.sessions ==> s.sessions["s"].identity.user == "u")
    ensures var t := Ingest(s, Arrival(m), parse);
      && t.messages == s.messages + [MessageRow(s.nextId, "s", "p", m)] && t.nextId == s.nextId + 1
      && "s" in t.sessions && t.sessions["s"].identity.user == "u"
      && t.sessions["s"].extraction == if "s" in s.sessions then s.sessions["s"].extraction else UNTOUCHED
  {
    assert InsertAll(s, "s", "p", [m]) == InsertOne(InsertAll(s, "s", "p", []), "s", "p", m) by { assert [m][..0] == []; }
  }

  /** A message arrives while no pass is under way. */
  lemma Arrives(ss: seq<State>, es: seq<Event>, parse: string -> Option<real>, s: State, fails: nat, far: nat, m: Message)
    returns (ss': seq<State>, es': seq<Event>, s': State)
    requires Tale(ss, es, parse, s, fails, far) && s.passes == map[] && m.uuid == ""
    requires s == INITIAL || Scene(s, s.store.messages, fails)
    ensures Tale(ss', es', parse, s', fails, far) && s'.passes == map[]
    ensures s'.store.messages == s.store.messages + [MessageRow(s.store.nextId, "s", "p", m)]
    ensures Scene(s', s'.store.messages, if s == INITIAL then 0 else fails)
  {
    ArrivalAdds(s.store, m, parse);
    ss', es', s' := Next(ss, es, parse, s, fails, far, Receive(Arrival(m)));
  }

  lemma LoadsAll(s: State, attempts: nat, parse: string -> Option<real>)
    requires Scene(s, s.store.messages, attempts) && s.passes == map[] && 0 < |s.store.messages| <= 400
    ensures Enabled(s, Load("s")) && Apply(s, Load("s"), TWICE, parse) == s.(passes := map["s" := Pass(s.store.messages, Loaded)])
  {
    AllAhead(s.store.messages);
  }

  lemma Begins(s: State, rows: seq<MessageRow>, attempts: nat, parse: string -> Option<real>)
    requires Scene(s, rows, attempts) && s.passes == map["s" := Pass(rows, Loaded)] && rows != []
    ensures Enabled(s, Begin("s", 0.0))
    ensures var s' := Apply(s, Begin("s", 0.0), TWICE, parse);
      Scene(s', rows, attempts) && s'.passes == map["s" := Pass(rows, Attempting)]
  {
  }

  lemma Fails(s: State, rows: seq<MessageRow>, attempts: nat, parse: string -> Option<real>)
    requires Scene(s, rows, attempts) && s.passes == map["s" := Pass(rows, Attempting)] && rows != []
    ensures Enabled(s, Fail("s"))
    ensures var s' := Apply(s, Fail("s"), TWICE, parse);
      Scene(s', rows, attempts + 1) && s'.passes == if attempts + 1 >= 2 then map["s" := Pass(rows, GivingUp)] else map[]
  {
  }

  /** A pass over everything fails. */
  lemma PassFails(ss: seq<State>, es: seq<Event>, parse: string -> Option<real>, s: State, fails: nat, far: nat)
    returns (ss': seq<State>, es': seq<Event>, s': State)
    requires Tale(ss, es, parse, s, fails, far) && s.passes == map[] && Scene(s, s.store.messages, fails)
    requires 0 < |s.store.messages| <= 400
    ensures Tale(ss', es', parse, s', fails + 1, far + if 1 < |s.store.messages| then 1 else 0)
    ensures Scene(s', s.store.messages, fails + 1)
    ensures s'.passes == if fails + 1 >= 2 then map["s" := Pass(s.store.messages, GivingUp)] else map[]
  {
    var rows := s.store.messages;
    LoadsAll(s, fails, parse);
    ss', es', s' := Next(ss, es, parse, s, fails, far, Load("s"));
    Begins(s', rows, fails, parse);
    ss', es', s' := Next(ss', es', parse, s', fails, far, Begin("s", 0.0));
    Fails(s', rows, fails, parse);
    ss', es', s' := Next(ss', es', parse, s', fails, far, Fail("s"));
  }

  lemma TwoPassesFail(parse: string -> Option<real>, x: Message, y: Message) returns (ss: seq<State>, es: seq<Event>, s: State)
    requires x.uuid == "" && y.uuid == ""
    ensures Tale(ss, es, parse, s, 2, 1) && Scene(s, [MessageRow(1, "s", "p", x), MessageRow(2, "s", "p", y)], 2)
    ensures s.passes == map["s" := Pass(s.store.messages, GivingUp)]
  {
    ss, es, s := [INITIAL], [], INITIAL;
    assert Tale(ss, es, parse, s, 0, 0);
    ss, es, s := Arrives(ss, es, parse, s, 0, 0, x);
    ss, es, s := PassFails(ss, es, parse, s, 0, 0);
    ss, es, s := Arrives(ss, es, parse, s, 1, 0, y);
    ss, es, s := PassFails(ss, es, parse, s, 1, 0);
  }

  /** A message can be given up after a single failure, although two are asked for: it arrives when the first pass has
      failed, joins the window of the second, and goes with it. */
  lemma GivenUpAfterOne(parse: string -> Option<real>, x: Message, y: Message) returns (ss: seq<State>, es: seq<Event>, s: State)
    requires x.uuid == "" && y.uuid == ""
    ensures IsRun(ss, es, TWICE, parse) && ss[|es|] == s && Enabled(s, Poison("s", 0.0))
    ensures s.passes["s"].window == [MessageRow(1, "s", "p", x), MessageRow(2, "s", "p", y)]
    ensures Tried(ss, es, "s", MessageRow(1, "s", "p", x), |es|) == 2 && Tried(ss, es, "s", MessageRow(2, "s", "p", y), |es|) == 1
  {
    ss, es, s := TwoPassesFail(parse, x, y);
    AllAhead(s.store.messages);
    TriedExactly(ss, es, TWICE, parse, "s", |es|, 0);
    TriedExactly(ss, es, TWICE, parse, "s", |es|, 1);
    ReachingFalls(ss, es, TWICE, parse, "s", 0, 1, |es|);
  }
}
