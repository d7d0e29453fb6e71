/** The per-IP limiter whose check and record are separate critical sections
    (internal/web/handlers.go, `ipRateLimiter`). */
module SlidingWindow {

  type Thread = nat

  datatype Config = Config(window: nat, max: nat)

  /** The attempts after `cutoff`. */
  function Recent(attempts: seq<int>, cutoff: int): (r: seq<int>)
  {
    if attempts == [] then []
    else Recent(attempts[..|attempts| - 1], cutoff)
         + if attempts[|attempts| - 1] > cutoff then [attempts[|attempts| - 1]] else []
  }

  function Of(m: map<string, seq<int>>, ip: string): seq<int> { if ip in m then m[ip] else [] }

  /** `attempts` is what the limiter keeps; `recorded` is everything that was ever recorded. `passed` are
      the requests that were let through and have not yet been recorded. */
  datatype State = State(
    now: int,
    attempts: map<string, seq<int>>,
    recorded: map<string, seq<int>>,
    passed: map<Thread, string>)

  const INITIAL: State := State(0, map[], map[], map[])

  datatype Event =
    | Tick(to: int)
    | Allow(t: Thread, ip: string)
    | Record(t: Thread)
    | Leave(t: Thread) // a request that is let through but never recorded, as a successful login
    | Cleanup

  predicate Enabled(s: State, e: Event) {
    match e
    case Tick(to) => s.now <= to
    case Allow(t, _) => t !in s.passed
    case Record(t) => t in s.passed
    case Leave(t) => t in s.passed
    case Cleanup => true
  }

  /** The answer of `allow`. */
  predicate Allows(c: Config, s: State, ip: string) { |Recent(Of(s.attempts, ip), s.now - c.window)| < c.max }

  function Trimmed(m: map<string, seq<int>>, cutoff: int): map<string, seq<int>> {
    map ip | ip in m && Recent(m[ip], cutoff) != [] :: Recent(m[ip], cutoff)
  }

  function AttemptsAfter(c: Config, s: State, e: Event): map<string, seq<int>>
    requires Enabled(s, e)
  {
    match e
    case Allow(_, ip) => s.attempts[ip := Recent(Of(s.attempts, ip), s.now - c.window)]
    case Record(t) => s.attempts[s.passed[t] := Of(s.attempts, s.passed[t]) + [s.now]]
    case Cleanup => Trimmed(s.attempts, s.now - c.window)
    case _ => s.attempts
  }

  function PassedAfter(c: Config, s: State, e: Event): map<Thread, string>
    requires Enabled(s, e)
  {
    match e
    case Allow(t, ip) => if Allows(c, s, ip) then s.passed[t := ip] else s.passed
    case Record(t) => map u | u in s.passed && u != t :: s.passed[u]
    case Leave(t) => map u | u in s.passed && u != t :: s.passed[u]
    case _ => s.passed
  }

  function Apply(c: Config, s: State, e: Event): (s': State)
    requires Enabled(s, e)
  {
    State(if e.Tick? then e.to else s.now, AttemptsAfter(c, s, e),
          if e.Record? then s.recorded[s.passed[e.t] := Of(s.recorded, s.passed[e.t]) + [s.now]] else s.recorded,
          PassedAfter(c, s, e))
  }

  ghost predicate Step(c: Config, s: State, e: Event, s': State) { Enabled(s, e) && s' == Apply(c, s, e) }

  ghost predicate IsRun(c: Config, ss: seq<State>, es: seq<Event>) {
    && |ss| == |es| + 1
    && ss[0] == INITIAL
    && forall i {:trigger es[i]} | 0 <= i < |es| :: Step(c, ss[i], es[i], ss[i + 1])
  }
}

module SlidingWindowProofs {
  import opened SlidingWindow

  // ---------------------------------------------------------------- trimming is invisible

  lemma {:induction false} RecentTwice(s: seq<int>, low: int, high: int)
    requires low <= high
    ensures Recent(Recent(s, low), high) == Recent(s, high)
  {
    if s == [] {
    } else {
      RecentTwice(s[..|s| - 1], low, high);
      var kept := Recent(s[..|s| - 1], low);
      if s[|s| - 1] > low { assert (kept + [s[|s| - 1]])[..|kept|] == kept; } else { assert kept + [] == kept; }
    }
  }

  /** Which of the attempts came after `cutoff`. */
  function After(s: seq<int>, cutoff: int): set<nat> {
    set i: nat | i < |s| && s[i] > cutoff
  }

  lemma {:induction false} RecentIsAfter(s: seq<int>, cutoff: int)
    ensures |Recent(s, cutoff)| == |After(s, cutoff)|
  {
    if s == [] {
      assert After(s, cutoff) == {};
    } else {
      var n := |s| - 1;
      RecentIsAfter(s[..n], cutoff);
      assert After(s, cutoff) == After(s[..n], cutoff) + if s[n] > cutoff then {n} else {};
    }
  }

  /** The filter keeps exactly the attempts after `cutoff`, in their order. */
  lemma {:induction false} RecentKeeps(s: seq<int>, cutoff: int) returns (at: seq<nat>)
    ensures |at| == |Recent(s, cutoff)| && (forall i, j | 0 <= i < j < |at| :: at[i] < at[j])
    ensures forall k | 0 <= k < |at| :: at[k] < |s| && Recent(s, cutoff)[k] == s[at[k]]
    ensures forall i: nat | i < |s| :: i in at <==> s[i] > cutoff
  {
    at := [];
    if s != [] {
      var n := |s| - 1;
      var init := s[..n];
      var before := RecentKeeps(init, cutoff);
      assert forall i: nat | i < n :: init[i] == s[i];
      if s[n] > cutoff {
        at := before + [n];
        assert Recent(s, cutoff) == Recent(init, cutoff) + [s[n]];
        assert n in at by { assert at[|before|] == n; }
        forall i: nat | i < n ensures i in at <==> s[i] > cutoff { assert i in at <==> i in before; }
      } else {
        at := before;
        assert Recent(s, cutoff) == Recent(init, cutoff);
      }
    }
  }

  lemma RecentAppend(s: seq<int>, t: int, cutoff: int)
    ensures Recent(s + [t], cutoff) == Recent(s, cutoff) + if t > cutoff then [t] else []
  {
    assert (s + [t])[..|s|] == s;
  }

  /** What the limiter still keeps agrees with the full record on everything that can matter. */
  ghost predicate FaithfulFor(c: Config, s: State, ip: string) {
    Recent(Of(s.attempts, ip), s.now - c.window) == Recent(Of(s.recorded, ip), s.now - c.window)
  }

  lemma TickKeepsFaithful(c: Config, s: State, to: int, ip: string)
    requires s.now <= to && FaithfulFor(c, s, ip)
    ensures FaithfulFor(c, Apply(c, s, Tick(to)), ip)
  {
    RecentTwice(Of(s.attempts, ip), s.now - c.window, to - c.window);
    RecentTwice(Of(s.recorded, ip), s.now - c.window, to - c.window);
  }

  lemma RecordKeepsFaithful(c: Config, s: State, t: Thread, ip: string)
    requires t in s.passed && FaithfulFor(c, s, ip)
    ensures FaithfulFor(c, Apply(c, s, Record(t)), ip)
  {
    RecentAppend(Of(s.attempts, ip), s.now, s.now - c.window);
    RecentAppend(Of(s.recorded, ip), s.now, s.now - c.window);
  }

  lemma TrimKeepsFaithful(c: Config, s: State, s': State, ip: string)
    requires FaithfulFor(c, s, ip) && s'.now == s.now && s'.recorded == s.recorded
    requires var kept := Of(s.attempts, ip); Of(s'.attempts, ip) in {kept, Recent(kept, s.now - c.window)}
    ensures FaithfulFor(c, s', ip)
  {
    RecentTwice(Of(s.attempts, ip), s.now - c.window, s.now - c.window);
  }

  lemma AllowKeepsFaithful(c: Config, s: State, t: Thread, other: string, ip: string)
    requires t !in s.passed && FaithfulFor(c, s, ip)
    ensures FaithfulFor(c, Apply(c, s, Allow(t, other)), ip)
  {
    var kept, cutoff := Of(s.attempts, ip), s.now - c.window;
    assert Of(AttemptsAfter(c, s, Allow(t, other)), ip) == if other == ip then Recent(kept, cutoff) else kept;
    TrimKeepsFaithful(c, s, Apply(c, s, Allow(t, other)), ip);
  }

  lemma TrimmedOf(m: map<string, seq<int>>, cutoff: int, ip: string)
    ensures Of(Trimmed(m, cutoff), ip) == Recent(Of(m, ip), cutoff)
  {
  }

  lemma CleanupKeepsFaithful(c: Config, s: State, ip: string)
    requires FaithfulFor(c, s, ip)
    ensures FaithfulFor(c, Apply(c, s, Cleanup), ip)
  {
    TrimmedOf(s.attempts, s.now - c.window, ip);
    assert AttemptsAfter(c, s, Cleanup) == Trimmed(s.attempts, s.now - c.window);
    TrimKeepsFaithful(c, s, Apply(c, s, Cleanup), ip);
  }

  lemma StepKeepsFaithful(c: Config, s: State, e: Event, ip: string)
    requires Enabled(s, e) && FaithfulFor(c, s, ip)
    ensures FaithfulFor(c, Apply(c, s, e), ip)
  {
    match e
    case Tick(to) => TickKeepsFaithful(c, s, to, ip);
    case Record(t) => RecordKeepsFaithful(c, s, t, ip);
    case Allow(t, other) => AllowKeepsFaithful(c, s, t, other, ip);
    case Cleanup => CleanupKeepsFaithful(c, s, ip);
    case Leave(_) =>
  }

  lemma {:induction false} AlwaysFaithful(c: Config, ss: seq<State>, es: seq<Event>, i: nat, ip: string)
    requires IsRun(c, ss, es) && i < |ss|
    ensures FaithfulFor(c, ss[i], ip)
  {
    if i == 0 {
    } else {
      AlwaysFaithful(c, ss, es, i - 1, ip);
      var s, e := ss[i - 1], es[i - 1];
      assert Step(c, s, e, ss[i]);
      StepKeepsFaithful(c, s, e, ip);
    }
  }

  /** Every answer is the one a limiter without any trimming would give: fewer than `max` attempts were
      recorded in the past window. */
  lemma AnswersIgnoreTrimming(c: Config, ss: seq<State>, es: seq<Event>, i: nat, ip: string)
    requires IsRun(c, ss, es) && i < |ss|
    ensures Allows(c, ss[i], ip) <==> |After(Of(ss[i].recorded, ip), ss[i].now - c.window)| < c.max
  {
    AlwaysFaithful(c, ss, es, i, ip);
    RecentIsAfter(Of(ss[i].recorded, ip), ss[i].now - c.window);
  }

  // ---------------------------------------------------------------- the bound under races

  function Holders(passed: map<Thread, string>, ip: string): set<Thread> { set t | t in passed && passed[t] == ip }

  function PassedFor(s: State, ip: string): set<Thread> { Holders(s.passed, ip) }

  /** How many attempts fall into the window of this length that starts after `begin`. */
  function Within(attempts: seq<int>, begin: int, length: nat): nat {
    if attempts == [] then 0
    else Within(attempts[..|attempts| - 1], begin, length)
         + if begin < attempts[|attempts| - 1] <= begin + length then 1 else 0
  }

  lemma {:induction false} WithinRecent(s: seq<int>, begin: int, length: nat, cutoff: int)
    requires cutoff <= begin
    ensures Within(s, begin, length) <= |Recent(s, cutoff)|
  {
    if s == [] {
    } else {
      WithinRecent(s[..|s| - 1], begin, length, cutoff);
    }
  }

  lemma {:induction false} RecentShrinks(s: seq<int>, low: int, high: int)
    requires low <= high
    ensures |Recent(s, high)| <= |Recent(s, low)|
  {
    if s == [] {
    } else {
      RecentShrinks(s[..|s| - 1], low, high);
    }
  }

  /** Attempts in the past window and requests on their way to being recorded, taken together. */
  function Load(c: Config, s: State, ip: string): nat {
    |Recent(Of(s.recorded, ip), s.now - c.window)| + |PassedFor(s, ip)|
  }

  ghost predicate WindowsBounded(c: Config, s: State, ip: string, bound: nat) {
    forall begin: int :: Within(Of(s.recorded, ip), begin, c.window) <= bound
  }

  lemma HoldersAdd(p: map<Thread, string>, t: Thread, who: string, ip: string)
    requires t !in p
    ensures |Holders(p[t := who], ip)| == |Holders(p, ip)| + if who == ip then 1 else 0
  {
    if who == ip {
      assert Holders(p[t := who], ip) == Holders(p, ip) + {t};
    } else {
      assert Holders(p[t := who], ip) == Holders(p, ip);
    }
  }

  lemma HoldersDrop(p: map<Thread, string>, t: Thread, ip: string)
    requires t in p
    ensures |Holders(map u | u in p && u != t :: p[u], ip)| == |Holders(p, ip)| - if p[t] == ip then 1 else 0
  {
    var q := map u | u in p && u != t :: p[u];
    if p[t] == ip {
      assert Holders(p, ip) == Holders(q, ip) + {t};
    } else {
      assert Holders(q, ip) == Holders(p, ip);
    }
  }

  lemma PassedCount(c: Config, s: State, e: Event, ip: string)
    requires Enabled(s, e)
    ensures var s' := Apply(c, s, e);
      |PassedFor(s', ip)| == |PassedFor(s, ip)|
        + (if e.Allow? && e.ip == ip && Allows(c, s, ip) then 1 else 0)
        - (if (e.Record? || e.Leave?) && s.passed[e.t] == ip then 1 else 0)
  {
    if e.Allow? { HoldersAdd(s.passed, e.t, e.ip, ip); }
    if e.Record? || e.Leave? { HoldersDrop(s.passed, e.t, ip); }
  }

  /** How a step changes the number of attempts in the past window. */
  lemma RecentCount(c: Config, s: State, e: Event, ip: string)
    requires Enabled(s, e)
    ensures var s' := Apply(c, s, e);
      |Recent(Of(s'.recorded, ip), s'.now - c.window)|
      <= |Recent(Of(s.recorded, ip), s.now - c.window)| + if e.Record? && s.passed[e.t] == ip then 1 else 0
  {
    var was, s' := Of(s.recorded, ip), Apply(c, s, e);
    if e.Tick? {
      RecentShrinks(was, s.now - c.window, e.to - c.window);
    } else if e.Record? && s.passed[e.t] == ip {
      assert Of(s'.recorded, ip) == was + [s.now];
      RecentAppend(was, s.now, s.now - c.window);
    } else {
      assert Of(s'.recorded, ip) == was && s'.now == s.now;
    }
  }

  lemma StepKeepsLoad(c: Config, s: State, e: Event, ip: string, k: nat)
    requires Enabled(s, e) && FaithfulFor(c, s, ip) && |PassedFor(Apply(c, s, e), ip)| <= k
    requires Load(c, s, ip) < c.max + k
    ensures Load(c, Apply(c, s, e), ip) < c.max + k
  {
    PassedCount(c, s, e, ip);
    RecentCount(c, s, e, ip);
  }

  lemma StepKeepsWindows(c: Config, s: State, e: Event, ip: string, bound: nat)
    requires Enabled(s, e) && WindowsBounded(c, s, ip, bound) && Load(c, s, ip) <= bound
    ensures WindowsBounded(c, Apply(c, s, e), ip, bound)
  {
    if e.Record? && s.passed[e.t] == ip {
      var full := Of(s.recorded, ip);
      assert e.t in PassedFor(s, ip);
      assert (full + [s.now])[..|full|] == full;
      forall begin: int ensures Within(full + [s.now], begin, c.window) <= bound {
        if begin < s.now <= begin + c.window {
          WithinRecent(full, begin, c.window, s.now - c.window);
        }
      }
    }
  }

  lemma {:induction false} LoadBounded(c: Config, ss: seq<State>, es: seq<Event>, i: nat, ip: string, k: nat)
    requires IsRun(c, ss, es) && i < |ss| && k > 0
    requires forall j | 0 <= j <= i :: |PassedFor(ss[j], ip)| <= k
    ensures Load(c, ss[i], ip) < c.max + k
    ensures WindowsBounded(c, ss[i], ip, c.max + k - 1)
  {
    if i == 0 {
    } else {
      LoadBounded(c, ss, es, i - 1, ip, k);
      AlwaysFaithful(c, ss, es, i - 1, ip);
      StepKeepsLoad(c, ss[i - 1], es[i - 1], ip, k);
      StepKeepsWindows(c, ss[i - 1], es[i - 1], ip, c.max + k - 1);
    }
  }

  /** The bound under races: with at most `k` requests of an IP between check and record at any time, no
      window of the configured length ever sees more than max + k - 1 recorded attempts; without
      overlap (k = 1) that is `max`. */
  lemma RaceBound(c: Config, ss: seq<State>, es: seq<Event>, i: nat, ip: string, k: nat, begin: int)
    requires IsRun(c, ss, es) && i < |ss| && k > 0
    requires forall j | 0 <= j <= i :: |PassedFor(ss[j], ip)| <= k
    ensures Within(Of(ss[i].recorded, ip), begin, c.window) <= c.max + k - 1
  {
    LoadBounded(c, ss, es, i, ip, k);
  }
  // ---------------------------------------------------------------- the bound is reached

  /** Some run in which at most `k` requests of `ip` overlap leads here. */
  ghost predicate Arises(c: Config, s: State, ip: string, k: nat) {
    exists ss, es :: IsRun(c, ss, es) && ss[|es|] == s && forall j | 0 <= j < |ss| :: |PassedFor(ss[j], ip)| <= k
  }

  lemma Arise(c: Config, s: State, e: Event, ip: string, k: nat)
    requires Arises(c, s, ip, k) && Enabled(s, e) && |PassedFor(Apply(c, s, e), ip)| <= k
    ensures Arises(c, Apply(c, s, e), ip, k)
  {
    var ss, es :| IsRun(c, ss, es) && ss[|es|] == s && forall j | 0 <= j < |ss| :: |PassedFor(ss[j], ip)| <= k;
    var ss', es' := ss + [Apply(c, s, e)], es + [e];
    forall i | 0 <= i < |es'| ensures Step(c, ss'[i], es'[i], ss'[i + 1]) {
      assert i < |es| ==> Step(c, ss[i], es[i], ss[i + 1]);
    }
    assert IsRun(c, ss', es') && ss'[|es'|] == Apply(c, s, e);
  }

  function Zeros(n: nat): (z: seq<int>)
    ensures |z| == n && forall i | 0 <= i < n :: z[i] == 0
  {
    seq(n, i => 0)
  }

  /** At time zero `n` attempts are recorded and the requests 0, ..., p - 1 are on their way. */
  ghost predicate Crowd(s: State, ip: string, n: nat, p: nat) {
    && s.now == 0 && Of(s.attempts, ip) == Zeros(n) && Of(s.recorded, ip) == Zeros(n)
    && s.passed == Group(ip, p)
  }

  function Group(ip: string, p: nat): (g: map<Thread, string>)
    ensures forall t: nat :: t in g <==> t < p
    ensures forall t: nat :: t in g ==> g[t] == ip
  {
    if p == 0 then map[] else Group(ip, p - 1)[p - 1 := ip]
  }

  lemma {:induction false} ZerosAreRecent(n: nat, cutoff: int)
    requires cutoff < 0
    ensures Recent(Zeros(n), cutoff) == Zeros(n)
  {
    if n == 0 {
    } else {
      ZerosAreRecent(n - 1, cutoff);
      assert Zeros(n)[..n - 1] == Zeros(n - 1);
      assert Zeros(n) == Zeros(n - 1) + [0];
    }
  }

  lemma {:induction false} ZerosWithin(n: nat, length: nat)
    requires length > 0
    ensures Within(Zeros(n), 0 - length as int, length) == n
  {
    if n == 0 {
    } else {
      ZerosWithin(n - 1, length);
      assert Zeros(n)[..n - 1] == Zeros(n - 1);
    }
  }

  lemma {:induction false} CrowdPassed(s: State, ip: string, n: nat, p: nat)
    requires Crowd(s, ip, n, p)
    ensures |PassedFor(s, ip)| == p
    decreases p
  {
    if p == 0 {
    } else {
      var fewer := s.(passed := Group(ip, p - 1));
      CrowdPassed(fewer, ip, n, p - 1);
      assert PassedFor(s, ip) == PassedFor(fewer, ip) + {p - 1};
    }
  }

  /** One more request is let through. */
  lemma CrowdEnters(c: Config, s: State, ip: string, n: nat, p: nat, k: nat) returns (s': State)
    requires c.window > 0 && n < c.max && p < k && Crowd(s, ip, n, p) && Arises(c, s, ip, k)
    ensures Crowd(s', ip, n, p + 1) && Arises(c, s', ip, k)
  {
    s' := Apply(c, s, Allow(p, ip));
    ZerosAreRecent(n, s.now - c.window);
    assert s'.passed == Group(ip, p + 1);
    CrowdPassed(s', ip, n, p + 1);
    Arise(c, s, Allow(p, ip), ip, k);
  }

  /** One of them is recorded. */
  lemma CrowdRecords(c: Config, s: State, ip: string, n: nat, p: nat, k: nat) returns (s': State)
    requires 0 < p <= k && Crowd(s, ip, n, p) && Arises(c, s, ip, k)
    ensures Crowd(s', ip, n + 1, p - 1) && Arises(c, s', ip, k)
  {
    s' := Apply(c, s, Record(p - 1));
    assert Zeros(n) + [0] == Zeros(n + 1);
    assert s'.passed == Group(ip, p - 1);
    CrowdPassed(s', ip, n + 1, p - 1);
    Arise(c, s, Record(p - 1), ip, k);
  }

  /** Requests that do not overlap fill the window up to one short of the limit. */
  lemma FillUp(c: Config, ip: string, k: nat) returns (s: State)
    requires c.window > 0 && c.max > 0 && k > 0
    ensures Crowd(s, ip, c.max - 1, 0) && Arises(c, s, ip, k)
  {
    s := INITIAL;
    var es: seq<Event> := [];
    assert PassedFor(INITIAL, ip) == {};
    assert IsRun(c, [INITIAL], es) && [INITIAL][|es|] == s;
    for n := 0 to c.max - 1
      invariant Crowd(s, ip, n, 0) && Arises(c, s, ip, k)
    {
      s := CrowdEnters(c, s, ip, n, 0, k);
      s := CrowdRecords(c, s, ip, n, 1, k);
    }
  }

  /** Then `k` requests pass the check before any of them is recorded. */
  lemma Gather(c: Config, ip: string, k: nat) returns (s: State)
    requires c.window > 0 && c.max > 0 && k > 0
    ensures Crowd(s, ip, c.max - 1, k) && Arises(c, s, ip, k)
  {
    s := FillUp(c, ip, k);
    for p := 0 to k
      invariant Crowd(s, ip, c.max - 1, p) && Arises(c, s, ip, k)
    {
      s := CrowdEnters(c, s, ip, c.max - 1, p, k);
    }
  }

  /** The bound cannot be improved: some run with at most `k` overlapping requests records max + k - 1
      attempts in one window. */
  lemma RaceBoundIsReached(c: Config, ip: string, k: nat) returns (s: State)
    requires c.window > 0 && c.max > 0 && k > 0
    ensures Arises(c, s, ip, k)
    ensures Within(Of(s.recorded, ip), 0 - c.window as int, c.window) == c.max + k - 1
  {
    s := Gather(c, ip, k);
    for r := 0 to k
      invariant Crowd(s, ip, c.max - 1 + r, k - r) && Arises(c, s, ip, k)
    {
      s := CrowdRecords(c, s, ip, c.max - 1 + r, k - r, k);
    }
    ZerosWithin(c.max + k - 1, c.window);
  }
}

/** The limiter object. */
module IpRateLimiter {
  import opened SlidingWindow

  /** The filter loop of `allow` and `cleanup`: it compacts the slice within its own array. */
  method CompactInPlace(a: array<int>, cutoff: int) returns (n: nat)
    modifies a
    ensures n <= a.Length && a[..n] == Recent(old(a[..]), cutoff)
  {
    n := 0;
    for i := 0 to a.Length
      invariant n <= i && a[..n] == Recent(old(a[..])[..i], cutoff) && a[i..] == old(a[..])[i..]
    {
      ghost var seen := old(a[..])[..i + 1];
      assert seen[..i] == old(a[..])[..i] && seen[i] == a[i];
      if a[i] > cutoff {
        a[n] := a[i];
        n := n + 1;
      }
    }
    assert old(a[..])[..a.Length] == old(a[..]);
  }

  class IpRateLimiter {
    var attempts: map<string, seq<int>>
    const window: nat
    const max: nat

    constructor (window: nat, max: nat)
      ensures this.window == window && this.max == max && attempts == map[]
    {
      this.window, this.max := window, max;
      attempts := map[];
    }

    method Allow(ip: string, now: int) returns (ok: bool)
      modifies this
      ensures attempts == old(attempts)[ip := Recent(Of(old(attempts), ip), now - window)]
      ensures ok == (|Recent(Of(old(attempts), ip), now - window)| < max)
    {
      var recent := if ip in attempts then attempts[ip] else [];
      var a := new int[|recent|](i requires 0 <= i < |recent| => recent[i]);
      assert a[..] == recent;
      var n := CompactInPlace(a, now - window);
      attempts := attempts[ip := a[..n]];
      ok := n < max;
    }

    method Record(ip: string, now: int)
      modifies this
      ensures attempts == old(attempts)[ip := Of(old(attempts), ip) + [now]]
    {
      attempts := attempts[ip := (if ip in attempts then attempts[ip] else []) + [now]];
    }

    method Cleanup(now: int)
      modifies this
      ensures attempts == Trimmed(old(attempts), now - window)
    {
      var cutoff := now - window;
      ghost var before := attempts;
      var left := attempts.Keys;
      while left != {}
        invariant left <= before.Keys && attempts.Keys <= before.Keys && left <= attempts.Keys
        invariant forall ip | ip in left :: attempts[ip] == before[ip]
        invariant forall ip | ip in before && ip !in left ::
            if Recent(before[ip], cutoff) == [] then ip !in attempts
            else ip in attempts && attempts[ip] == Recent(before[ip], cutoff)
      {
        var ip :| ip in left;
        var recent := attempts[ip];
        var a := new int[|recent|](i requires 0 <= i < |recent| => recent[i]);
        assert a[..] == recent;
        var n := CompactInPlace(a, cutoff);
        if n == 0 {
          attempts := map other | other in attempts && other != ip :: attempts[other];
        } else {
          attempts := attempts[ip := a[..n]];
        }
        left := left - {ip};
      }
    }
  }
}
