/** Automatic extraction: which sessions a cycle lists, and why none of them waits for ever
    (internal/store/memory_sessions_extract.go). */
module MemoryFairness {
  import opened Options
  import opened MemoryModel
  import opened MemoryExtract
  import MemoryWatermark

  datatype Gate = Gate(platforms: set<string>, maxAge: real, quiet: real, backoff1: real, backoff2: real, backoff3: real)

  function Backoff(g: Gate, attempts: nat): real {
    if attempts == 1 then g.backoff1 else if attempts == 2 then g.backoff2 else g.backoff3
  }

  predicate HasNew(s: Store, id: string) {
    exists i :: 0 <= i < |s.messages| && s.messages[i].session == id && s.messages[i].id > Watermark(s, id)
  }

  predicate BackedOff(x: Extraction, g: Gate, now: real) {
    x.attempts == 0 || x.lastAttemptAt.None? || x.lastAttemptAt.value + Backoff(g, x.attempts) <= now
  }

  predicate Eligible(s: Store, id: string, g: Gate, now: real) {
    && id in s.sessions
    && var row := s.sessions[id];
    && !row.identity.isSubagent && row.identity.platform in g.platforms
    && row.lastActivityAt.Some? && row.lastActivityAt.value >= now - g.maxAge
    && (row.lastIngestedAt.None? || row.lastIngestedAt.value < now - g.quiet)
    && HasNew(s, id)
    && BackedOff(row.extraction, g, now)
  }

  function PageSize(limit: int): (n: nat)
    ensures n > 0
  {
    if limit <= 0 || limit > 500 then 50 else limit
  }

  function Attempted(s: Store, id: string): real
    requires id in s.sessions
  {
    if s.sessions[id].extraction.lastAttemptAt.Some? then s.sessions[id].extraction.lastAttemptAt.value else 0.0
  }

  /** Least recently attempted first, then most recently active. */
  predicate InOrder(s: Store, a: string, b: string)
    requires a in s.sessions && b in s.sessions
    requires s.sessions[a].lastActivityAt.Some? && s.sessions[b].lastActivityAt.Some?
  {
    || Attempted(s, a) < Attempted(s, b)
    || (Attempted(s, a) == Attempted(s, b)
        && s.sessions[a].lastActivityAt.value >= s.sessions[b].lastActivityAt.value)
  }

  /** What the query may return; ties beyond its order are the database's choice. */
  ghost predicate IsListing(s: Store, g: Gate, now: real, limit: int, l: seq<string>) {
    && (forall i, j | 0 <= i < j < |l| :: l[i] != l[j])
    && (forall i | 0 <= i < |l| :: Eligible(s, l[i], g, now))
    && (forall i, j | 0 <= i < j < |l| :: InOrder(s, l[i], l[j]))
    && |l| <= PageSize(limit)
    && (forall y | Eligible(s, y, g, now) && y !in l ::
          |l| == PageSize(limit) && forall i | 0 <= i < |l| :: InOrder(s, l[i], y))
  }

  /** From one cycle to the next, sessions may arrive, attempts are never unmade, and every listed session
      is stamped later than anything the table held. */
  ghost predicate Advances(s: Store, l: seq<string>, s': Store) {
    && s.sessions.Keys <= s'.sessions.Keys
    && (forall y | y in s.sessions :: Attempted(s', y) >= Attempted(s, y))
    && (forall y, z | y in l && y in s.sessions && z in s.sessions :: Attempted(s', y) > Attempted(s, z))
  }

  ghost predicate IsHistory(ss: seq<Store>, ls: seq<seq<string>>, ts: seq<real>, g: Gate, limit: int) {
    && |ss| == |ls| + 1 && |ts| == |ls|
    && forall c {:trigger ls[c]} | 0 <= c < |ls| :: IsListing(ss[c], g, ts[c], limit, ls[c]) && Advances(ss[c], ls[c], ss[c + 1])
  }

  /** The sessions attempted no later than `x`. */
  ghost function Ahead(s: Store, x: string): set<string>
    requires x in s.sessions
  {
    set y | y in s.sessions && y != x && Attempted(s, y) <= Attempted(s, x)
  }

  ghost function Arrivals(ss: seq<Store>, m: nat): nat
    requires m < |ss|
  {
    if m == 0 then 0 else Arrivals(ss, m - 1) + |ss[m].sessions.Keys - ss[m - 1].sessions.Keys|
  }

  /** Cycle `c` leaves `x` waiting: it is eligible, not listed and not attempted. */
  ghost predicate Skips(ss: seq<Store>, ls: seq<seq<string>>, ts: seq<real>, g: Gate, x: string, c: nat)
    requires |ss| == |ls| + 1 && |ts| == |ls| && c < |ls|
  {
    && Eligible(ss[c], x, g, ts[c]) && x !in ls[c]
    && x in ss[c + 1].sessions && Attempted(ss[c + 1], x) == Attempted(ss[c], x)
  }

  /** All cycles before `m` do. */
  ghost predicate Waits(ss: seq<Store>, ls: seq<seq<string>>, ts: seq<real>, g: Gate, x: string, m: nat)
    requires |ss| == |ls| + 1 && |ts| == |ls| && m <= |ls|
  {
    forall c: nat | c < m :: Skips(ss, ls, ts, g, x, c)
  }

  // ---------------------------------------------------------------- what the gate lets through

  lemma {:induction false} AboveFinds(rows: seq<MessageRow>, id: string, mark: nat)
    ensures Above(RowsOf(rows, id), mark) != [] <==> exists i :: 0 <= i < |rows| && rows[i].session == id && rows[i].id > mark
  {
    if rows == [] {
    } else {
      var init, last := rows[..|rows| - 1], rows[|rows| - 1];
      AboveFinds(init, id, mark);
      var mine := RowsOf(init, id);
      if last.session == id {
        assert (mine + [last])[..|mine|] == mine;
      } else {
        assert mine + [] == mine;
      }
      if i :| 0 <= i < |rows| && rows[i].session == id && rows[i].id > mark && i < |init| { assert init[i] == rows[i]; }
      if i :| 0 <= i < |init| && init[i].session == id && init[i].id > mark { assert rows[i] == init[i]; }
    }
  }

  /** The gate and the pass agree: a session that passes the gate has a window to extract. */
  lemma EligibleHasWindow(s: Store, id: string, g: Gate, now: real, limit: int)
    requires Eligible(s, id, g, now)
    ensures Range(s.messages, id, Watermark(s, id), limit) != []
  {
    AboveFinds(s.messages, id, Watermark(s, id));
  }

  // ---------------------------------------------------------------- counting

  ghost function Elements(l: seq<string>): set<string> {
    set y | y in l
  }

  lemma {:induction false} DistinctCount(l: seq<string>)
    requires forall i, j | 0 <= i < j < |l| :: l[i] != l[j]
    ensures |Elements(l)| == |l|
  {
    if l == [] {
    } else {
      var init, last := l[..|l| - 1], l[|l| - 1];
      DistinctCount(init);
      assert Elements(l) == Elements(init) + {last};
    }
  }

  lemma SubsetCount(a: set<string>, b: set<string>)
    requires a <= b
    ensures |a| <= |b|
  {
    assert b == a + (b - a);
  }

  /** Passing `x` over takes a full page of sessions from ahead of it to behind it. */
  lemma PassedOver(s: Store, g: Gate, now: real, limit: int, l: seq<string>, s': Store, x: string)
    requires IsListing(s, g, now, limit, l) && Advances(s, l, s')
    requires Eligible(s, x, g, now) && x !in l && x in s'.sessions && Attempted(s', x) == Attempted(s, x)
    ensures |Ahead(s', x)| + PageSize(limit) <= |Ahead(s, x)| + |s'.sessions.Keys - s.sessions.Keys|
  {
    var listed, arrived := Elements(l), s'.sessions.Keys - s.sessions.Keys;
    DistinctCount(l);
    forall y | y in listed ensures y in Ahead(s, x) {
      var i :| 0 <= i < |l| && l[i] == y;
      assert InOrder(s, l[i], x);
    }
    assert Ahead(s', x) <= (Ahead(s, x) - listed) + arrived;
    SubsetCount(Ahead(s', x), (Ahead(s, x) - listed) + arrived);
    assert |Ahead(s, x) - listed| == |Ahead(s, x)| - |listed|;
  }

  // ---------------------------------------------------------------- theorems

  /** Waiting is paid for: every cycle that passes `x` over uses up a page of the sessions that were ahead
      of it at the start or arrived since. */
  lemma {:induction false} WaitingIsBounded(ss: seq<Store>, ls: seq<seq<string>>, ts: seq<real>, g: Gate, limit: int, x: string, m: nat)
    requires IsHistory(ss, ls, ts, g, limit) && m <= |ls| && Waits(ss, ls, ts, g, x, m)
    requires x in ss[0].sessions
    ensures x in ss[m].sessions
    ensures |Ahead(ss[m], x)| + m * PageSize(limit) <= |Ahead(ss[0], x)| + Arrivals(ss, m)
  {
    if m == 0 {
    } else {
      WaitingIsBounded(ss, ls, ts, g, limit, x, m - 1);
      OneCycle(ss, ls, ts, g, limit, x, m - 1);
      OneMore(m, PageSize(limit));
    }
  }

  lemma OneCycle(ss: seq<Store>, ls: seq<seq<string>>, ts: seq<real>, g: Gate, limit: int, x: string, c: nat)
    requires IsHistory(ss, ls, ts, g, limit) && c < |ls| && Skips(ss, ls, ts, g, x, c)
    ensures |Ahead(ss[c + 1], x)| + PageSize(limit) <= |Ahead(ss[c], x)| + |ss[c + 1].sessions.Keys - ss[c].sessions.Keys|
  {
    assert IsListing(ss[c], g, ts[c], limit, ls[c]);
    PassedOver(ss[c], g, ts[c], limit, ls[c], ss[c + 1], x);
  }

  lemma OneMore(m: nat, page: nat)
    requires m > 0
    ensures m * page == (m - 1) * page + page
  {
  }

  /** No starvation: with a fixed set of sessions, one that stays eligible and has `n` others attempted no
      later than it is listed within `n / page + 1` cycles. */
  lemma NoStarvation(ss: seq<Store>, ls: seq<seq<string>>, ts: seq<real>, g: Gate, limit: int, x: string)
    requires IsHistory(ss, ls, ts, g, limit) && x in ss[0].sessions
    requires forall c | 0 <= c < |ss| :: ss[c].sessions.Keys == ss[0].sessions.Keys
    requires |ls| > |Ahead(ss[0], x)| / PageSize(limit)
    requires forall c {:trigger ls[c]} | 0 <= c < |ls| ::
               Eligible(ss[c], x, g, ts[c]) && (x !in ls[c] ==> Attempted(ss[c + 1], x) == Attempted(ss[c], x))
    ensures exists c :: 0 <= c <= |Ahead(ss[0], x)| / PageSize(limit) && x in ls[c]
  {
    var n, page := |Ahead(ss[0], x)|, PageSize(limit);
    var m := n / page + 1;
    if forall c | 0 <= c < m :: x !in ls[c] {
      forall c: nat | c < m ensures Skips(ss, ls, ts, g, x, c) {
        assert x in ss[0].sessions.Keys && ss[c + 1].sessions.Keys == ss[0].sessions.Keys;
        assert x !in ls[c];
      }
      WaitingIsBounded(ss, ls, ts, g, limit, x, m);
      NoArrivals(ss, m);
      Exceeds(n, page);
      assert false;
    }
  }

  lemma {:induction false} NoArrivals(ss: seq<Store>, m: nat)
    requires m < |ss| && forall c | 0 <= c < |ss| :: ss[c].sessions.Keys == ss[0].sessions.Keys
    ensures Arrivals(ss, m) == 0
  {
    if m == 0 {
    } else {
      NoArrivals(ss, m - 1);
      assert ss[m].sessions.Keys - ss[m - 1].sessions.Keys == {};
    }
  }

  lemma Exceeds(n: nat, page: nat)
    requires page > 0
    ensures (n / page + 1) * page > n
  {
    assert n == page * (n / page) + n % page;
  }

  // ---------------------------------------------------------------- cycles of a run

  function LastAttempt(s: Store, id: string): Option<real> {
    if id in s.sessions then s.sessions[id].extraction.lastAttemptAt else None
  }

  /** When the last pass over the session began. */
  ghost function LastBegin(es: seq<Event>, id: string, j: nat): Option<real>
    requires j <= |es|
  {
    if j == 0 then None
    else if es[j - 1].Begin? && es[j - 1].session == id then Some(es[j - 1].now)
    else LastBegin(es, id, j - 1)
  }

  lemma StepStamps(s: State, e: Event, s': State, cfg: Config, parse: string -> Option<real>, id: string)
    requires Step(s, e, s', cfg, parse)
    ensures LastAttempt(s'.store, id) == if e.Begin? && e.session == id then Some(e.now) else LastAttempt(s.store, id)
    ensures s.store.sessions.Keys <= s'.store.sessions.Keys
  {
  }

  /** The stamp of a session is the time at which its last pass began. */
  lemma {:induction false} StampIsLastBegin(ss: seq<State>, es: seq<Event>, cfg: Config, parse: string -> Option<real>, id: string, j: nat)
    requires IsRun(ss, es, cfg, parse) && j <= |es|
    ensures LastAttempt(ss[j].store, id) == LastBegin(es, id, j)
    decreases j
  {
    if j == 0 {
    } else {
      StampIsLastBegin(ss, es, cfg, parse, id, j - 1);
      assert Step(ss[j - 1], es[j - 1], ss[j], cfg, parse);
      StepStamps(ss[j - 1], es[j - 1], ss[j], cfg, parse, id);
    }
  }

  lemma {:induction false} SessionsStay(ss: seq<State>, es: seq<Event>, cfg: Config, parse: string -> Option<real>, i: nat, j: nat)
    requires IsRun(ss, es, cfg, parse) && i <= j <= |es|
    ensures ss[i].store.sessions.Keys <= ss[j].store.sessions.Keys
    decreases j
  {
    if i == j {
    } else {
      SessionsStay(ss, es, cfg, parse, i, j - 1);
      assert Step(ss[j - 1], es[j - 1], ss[j], cfg, parse);
      StepStamps(ss[j - 1], es[j - 1], ss[j], cfg, parse, "");
    }
  }

  /** The clock moves on: passes begin after the epoch, none begins before an earlier one, and those of a cycle begin
      after those before it. */
  ghost predicate Clocked(es: seq<Event>, i: nat) {
    && (forall a | 0 <= a < |es| && es[a].Begin? :: es[a].now > 0.0)
    && (forall a, b | 0 <= a < b < |es| && es[a].Begin? && es[b].Begin? :: es[a].now <= es[b].now && (a < i <= b ==> es[a].now < es[b].now))
  }

  ghost predicate BeginsIn(es: seq<Event>, id: string, i: nat, j: nat)
    requires i <= j <= |es|
  {
    exists k :: i <= k < j && es[k].Begin? && es[k].session == id
  }

  lemma {:induction false} LastBeginIs(es: seq<Event>, id: string, j: nat)
    requires j <= |es|
    ensures LastBegin(es, id, j).Some? ==> exists k :: 0 <= k < j && es[k].Begin? && es[k].session == id && es[k].now == LastBegin(es, id, j).value
    ensures LastBegin(es, id, j).None? ==> forall k | 0 <= k < j :: !(es[k].Begin? && es[k].session == id)
  {
    if j == 0 {
    } else {
      LastBeginIs(es, id, j - 1);
    }
  }

  lemma {:induction false} LastBeginLater(es: seq<Event>, id: string, i: nat, j: nat)
    requires i <= j <= |es|
    ensures if BeginsIn(es, id, i, j) then exists k :: i <= k < j && es[k].Begin? && LastBegin(es, id, j) == Some(es[k].now)
            else LastBegin(es, id, j) == LastBegin(es, id, i)
    decreases j
  {
    if i == j {
    } else {
      LastBeginLater(es, id, i, j - 1);
      if k :| i <= k < j && es[k].Begin? && es[k].session == id && k < j - 1 { assert BeginsIn(es, id, i, j - 1); }
    }
  }

  /** A cycle of a run in which every listed session is passed over advances the table as fairness needs it. */
  lemma CycleAdvances(ss: seq<State>, es: seq<Event>, cfg: Config, parse: string -> Option<real>, l: seq<string>, i: nat, j: nat)
    requires IsRun(ss, es, cfg, parse) && i <= j <= |es| && Clocked(es, i)
    requires forall y | y in l :: BeginsIn(es, y, i, j)
    ensures Advances(ss[i].store, l, ss[j].store)
  {
    var s, s' := ss[i].store, ss[j].store;
    SessionsStay(ss, es, cfg, parse, i, j);
    forall y | y in s.sessions
      ensures Attempted(s', y) >= Attempted(s, y)
      ensures y in l ==> forall z | z in s.sessions :: Attempted(s', y) > Attempted(s, z)
    {
      assert y in s'.sessions.Keys;
      StampIsLastBegin(ss, es, cfg, parse, y, i);
      StampIsLastBegin(ss, es, cfg, parse, y, j);
      LastBeginLater(es, y, i, j);
      if BeginsIn(es, y, i, j) {
        forall z | z in s.sessions ensures Attempted(s', y) > Attempted(s, z) {
          StampIsLastBegin(ss, es, cfg, parse, z, i);
          LastBeginIs(es, z, i);
        }
      }
    }
  }

  /** The stores at the given places of a run. */
  ghost function StoresAt(ss: seq<State>, at: seq<nat>): seq<Store>
    requires forall c | 0 <= c < |at| :: at[c] < |ss|
  {
    seq(|at|, c requires 0 <= c < |at| => ss[at[c]].store)
  }

  /** So the listings of a run whose cycles begin a pass over every session they list are a history, and no session that
      stays eligible starves. */
  lemma CyclesAreHistory(ss: seq<State>, es: seq<Event>, cfg: Config, parse: string -> Option<real>,
                         at: seq<nat>, ls: seq<seq<string>>, ts: seq<real>, g: Gate, limit: int)
    requires IsRun(ss, es, cfg, parse) && |at| == |ls| + 1 && |ts| == |ls|
    requires forall c | 0 <= c < |at| :: at[c] < |ss|
    requires forall c {:trigger ls[c]} | 0 <= c < |ls| ::
               && at[c] <= at[c + 1] && Clocked(es, at[c])
               && IsListing(ss[at[c]].store, g, ts[c], limit, ls[c])
               && forall y | y in ls[c] :: BeginsIn(es, y, at[c], at[c + 1])
    ensures IsHistory(StoresAt(ss, at), ls, ts, g, limit)
  {
    var stores := StoresAt(ss, at);
    forall c {:trigger ls[c]} | 0 <= c < |ls|
      ensures IsListing(stores[c], g, ts[c], limit, ls[c]) && Advances(stores[c], ls[c], stores[c + 1])
    {
      CycleAdvances(ss, es, cfg, parse, ls[c], at[c], at[c + 1]);
    }
  }

  // ---------------------------------------------------------------- the gate in terms of a run

  /** The pause after so many failed passes in a row. */
  predicate PauseOver(g: Gate, failures: nat, begun: Option<real>, now: real) {
    || failures == 0 || begun.None?
    || (failures == 1 && begun.value + g.backoff1 <= now)
    || (failures == 2 && begun.value + g.backoff2 <= now)
    || (failures >= 3 && begun.value + g.backoff3 <= now)
  }

  /** A session passes the gate exactly when it is a main session of a listed platform, was active within the maximal
      age, received nothing during the quiet period, has messages to extract, and the pause after its failed passes in a
      row, counted from the beginning of the last, is over. */
  lemma EligibleExactly(ss: seq<State>, es: seq<Event>, cfg: Config, parse: string -> Option<real>, id: string, g: Gate, now: real, j: nat)
    requires IsRun(ss, es, cfg, parse) && j <= |es|
    ensures var s := ss[j].store;
      Eligible(s, id, g, now) <==>
        && id in s.sessions
        && var row := s.sessions[id];
        && row.identity.isSubagent == false && row.identity.platform in g.platforms
        && row.lastActivityAt.Some? && now - row.lastActivityAt.value <= g.maxAge
        && (row.lastIngestedAt.Some? ==> now - row.lastIngestedAt.value > g.quiet)
        && Range(s.messages, id, Watermark(s, id), cfg.passLimit) != []
        && PauseOver(g, MemoryWatermark.FailStreak(es, id, j), LastBegin(es, id, j), now)
  {
    AboveFinds(ss[j].store.messages, id, Watermark(ss[j].store, id));
    MemoryWatermark.AttemptsCountFailures(ss, es, cfg, parse, id, j);
    StampIsLastBegin(ss, es, cfg, parse, id, j);
  }

  // ---------------------------------------------------------------- what a cycle lists

  /** Eligible sessions that come no later: attempted earlier, or at the same time and active no less recently. */
  ghost function NoLater(s: Store, g: Gate, now: real, id: string): set<string>
    requires Eligible(s, id, g, now)
  {
    set y | y in s.sessions && y != id && Eligible(s, y, g, now)
            && (Attempted(s, y) < Attempted(s, id)
                || (Attempted(s, y) == Attempted(s, id) && s.sessions[id].lastActivityAt.value <= s.sessions[y].lastActivityAt.value))
  }

  /** As many as asked for, and fifty if that is not between 1 and 500. */
  predicate IsPage(limit: int, page: nat) {
    if 1 <= limit && limit < 501 then page == limit else page == 50
  }

  /** A cycle lists eligible sessions only, no more than a page, and leaves one out only for a page of others that come no
      later. */
  lemma ListedUnlessFull(s: Store, g: Gate, now: real, limit: int, l: seq<string>, id: string, page: nat)
    requires IsListing(s, g, now, limit, l) && IsPage(limit, page)
    ensures |l| <= page && (id in l ==> Eligible(s, id, g, now))
    ensures Eligible(s, id, g, now) && |NoLater(s, g, now, id)| < page ==> id in l
  {
    if Eligible(s, id, g, now) && id !in l {
      DistinctCount(l);
      forall y | y in Elements(l) ensures y in NoLater(s, g, now, id) {
        var i :| 0 <= i < |l| && l[i] == y;
        assert InOrder(s, l[i], id);
      }
      SubsetCount(Elements(l), NoLater(s, g, now, id));
    }
  }

  /** And in that order. */
  lemma ListedInOrder(s: Store, g: Gate, now: real, limit: int, l: seq<string>, i: nat, j: nat)
    requires IsListing(s, g, now, limit, l) && i < j < |l|
    ensures Eligible(s, l[j], g, now) && l[i] in NoLater(s, g, now, l[j])
  {
    assert InOrder(s, l[i], l[j]);
  }

  lemma {:induction false} FirstOf(s: Store, g: Gate, now: real, ids: set<string>) returns (x: string)
    requires ids != {} && forall y | y in ids :: y in s.sessions && Eligible(s, y, g, now)
    ensures x in ids && x in s.sessions && Eligible(s, x, g, now)
    ensures forall y | y in ids :: Eligible(s, y, g, now) && InOrder(s, x, y)
    decreases |ids|
  {
    x :| x in ids;
    if ids != {x} {
      var z := FirstOf(s, g, now, ids - {x});
      if !InOrder(s, x, z) { x := z; }
    }
  }

  /** `l` lists the first of the eligible sessions, and `left` are the others. */
  ghost predicate Parted(s: Store, g: Gate, now: real, l: seq<string>, left: set<string>) {
    && (forall y :: y in left <==> y in s.sessions && Eligible(s, y, g, now) && y !in l)
    && (forall i | 0 <= i < |l| :: Eligible(s, l[i], g, now))
    && (forall i, j | 0 <= i < j < |l| :: l[i] != l[j] && InOrder(s, l[i], l[j]))
    && (forall i, y | 0 <= i < |l| && y in left :: InOrder(s, l[i], y))
  }

  lemma PartNext(s: Store, g: Gate, now: real, l: seq<string>, left: set<string>) returns (x: string)
    requires Parted(s, g, now, l, left) && left != {}
    ensures x in left && Parted(s, g, now, l + [x], left - {x})
  {
    x := FirstOf(s, g, now, left);
    var more := l + [x];
    assert forall y :: y in more <==> y in l || y == x;
  }

  /** Every table has a listing. */
  lemma SomeListing(s: Store, g: Gate, now: real, limit: int) returns (l: seq<string>)
    ensures IsListing(s, g, now, limit, l)
  {
    l := [];
    var left := set y | y in s.sessions && Eligible(s, y, g, now);
    while |l| < PageSize(limit) && left != {}
      invariant |l| <= PageSize(limit) && Parted(s, g, now, l, left)
      decreases |left|
    {
      var x := PartNext(s, g, now, l, left);
      l, left := l + [x], left - {x};
    }
  }
}
