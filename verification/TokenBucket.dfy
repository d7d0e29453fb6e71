/** Per-user token buckets with eviction of idle ones (internal/server/ratelimit.go). Time is in seconds;
    the arithmetic is exact. */
module TokenBucket {

  /** `gain(d)` is what `d` seconds add to a bucket; `burst` is the size of a bucket. */
  datatype Config = Config(gain: real -> real, burst: nat)

  /** The configuration `NewRateLimiter` makes: so many tokens per second. */
  function PerSecond(rate: real, burst: nat): Config { Config((d: real) => d * rate, burst) }

  datatype Bucket = Bucket(tokens: real, lastFill: real)

  type Buckets = map<string, Bucket>

  const IDLE_LIMIT: real := 600.0

  function Capped(c: Config, x: real): real { if x > c.burst as real then c.burst as real else x }

  /** What a user could spend at `now`: the specification of the limiter in one number. */
  function Level(c: Config, m: Buckets, key: string, now: real): real {
    if key in m then Capped(c, m[key].tokens + c.gain(now - m[key].lastFill)) else c.burst as real
  }

  /** One call of `allow`. */
  function Called(c: Config, m: Buckets, key: string, now: real): Buckets {
    var level := Level(c, m, key, now);
    m[key := Bucket(if level < 1.0 then level else level - 1.0, now)]
  }

  /** One round of `cleanup`. */
  function Evicted(m: Buckets, now: real): Buckets {
    map key | key in m && !(m[key].lastFill < now - IDLE_LIMIT) :: m[key]
  }

  datatype Event = Call(key: string, at: real) | Cleanup(at: real)

  predicate Admits(c: Config, m: Buckets, e: Event) { e.Call? && Level(c, m, e.key, e.at) >= 1.0 }

  /** With `evicts` false, cleaning up does nothing: the limiter never forgets. */
  function Apply(c: Config, evicts: bool, m: Buckets, e: Event): Buckets {
    match e
    case Call(key, now) => Called(c, m, key, now)
    case Cleanup(now) => if evicts then Evicted(m, now) else m
  }

  /** Which events of a trace are admitted calls. */
  function Answers(c: Config, evicts: bool, m: Buckets, es: seq<Event>): (answers: seq<bool>)
    decreases |es|
  {
    if es == [] then [] else [Admits(c, m, es[0])] + Answers(c, evicts, Apply(c, evicts, m, es[0]), es[1..])
  }

  /** How many calls of one user a trace admits. */
  function Admitted(c: Config, evicts: bool, m: Buckets, es: seq<Event>, key: string): nat
    decreases |es|
  {
    if es == [] then 0
    else (if Admits(c, m, es[0]) && es[0].key == key then 1 else 0)
         + Admitted(c, evicts, Apply(c, evicts, m, es[0]), es[1..], key)
  }

  function After(c: Config, evicts: bool, m: Buckets, es: seq<Event>): Buckets
    decreases |es|
  {
    if es == [] then m else After(c, evicts, Apply(c, evicts, m, es[0]), es[1..])
  }

  predicate Ordered(es: seq<Event>) {
    forall i, j | 0 <= i < j < |es| :: es[i].at <= es[j].at
  }
}

/** The admission bound, and when eviction can be noticed. */
module TokenBucketProofs {
  import opened TokenBucket

  function Plus(x: real, y: real): real { x + y }

  /** Time yields tokens steadily: never fewer than none, and in two stretches as much as in one. */
  ghost predicate Steady(c: Config) {
    && (forall x, y {:trigger Plus(x, y)} :: c.gain(Plus(x, y)) == c.gain(x) + c.gain(y))
    && (forall x :: x >= 0.0 ==> c.gain(x) >= 0.0)
  }

  lemma PerSecondIsSteady(rate: real, burst: nat)
    requires rate >= 0.0
    ensures Steady(PerSecond(rate, burst))
  {
    var c := PerSecond(rate, burst);
    forall x, y ensures c.gain(Plus(x, y)) == c.gain(x) + c.gain(y) {
      assert (x + y) * rate == x * rate + y * rate;
    }
    forall x | x >= 0.0 ensures c.gain(x) >= 0.0 {
      assert x * rate >= 0.0;
    }
  }

  /** Buckets hold between nothing and a full burst, and were filled in the past. */
  predicate Sane(c: Config, m: Buckets, now: real) {
    forall key | key in m :: m[key].lastFill <= now && 0.0 <= m[key].tokens <= c.burst as real
  }

  /** Ten idle minutes fill any bucket. */
  predicate RefillsWhileIdle(c: Config) { c.gain(IDLE_LIMIT) >= c.burst as real }

  // ---------------------------------------------------------------- levels

  /** How the level moves while nothing happens. */
  lemma LevelLater(c: Config, m: Buckets, key: string, t: real, t': real)
    requires Steady(c) && t <= t'
    ensures c.gain(t' - t) >= 0.0
    ensures Level(c, m, key, t') == Capped(c, Level(c, m, key, t) + c.gain(t' - t))
  {
    if key in m {
      assert Plus(t - m[key].lastFill, t' - t) == t' - m[key].lastFill;
    }
  }

  lemma LevelBounds(c: Config, m: Buckets, key: string, now: real)
    requires Steady(c) && Sane(c, m, now)
    ensures 0.0 <= Level(c, m, key, now) <= c.burst as real
  {
  }

  /** Forgetting a bucket after ten idle minutes leaves the level alone when they fill any bucket. */
  lemma EvictionKeepsLevel(c: Config, m: Buckets, now: real, key: string)
    requires Steady(c) && Sane(c, m, now) && RefillsWhileIdle(c)
    ensures Level(c, Evicted(m, now), key, now) == Level(c, m, key, now)
  {
    if key in m && m[key].lastFill < now - IDLE_LIMIT {
      var extra := now - IDLE_LIMIT - m[key].lastFill;
      assert Plus(IDLE_LIMIT, extra) == now - m[key].lastFill;
      assert c.gain(extra) >= 0.0;
    }
  }

  lemma NoTimeNoGain(c: Config)
    requires Steady(c)
    ensures c.gain(0.0) == 0.0
  {
    var none: real := 0.0;
    assert Plus(none, none) == none;
  }

  /** A step costs a user one token for an admitted call, and nothing otherwise. */
  lemma StepCost(c: Config, evicts: bool, m: Buckets, e: Event, key: string)
    requires Steady(c) && Sane(c, m, e.at) && (evicts ==> RefillsWhileIdle(c))
    ensures Level(c, Apply(c, evicts, m, e), key, e.at)
         == Level(c, m, key, e.at) - if Admits(c, m, e) && e.key == key then 1.0 else 0.0
  {
    if e.Call? {
      NoTimeNoGain(c);
      LevelBounds(c, m, e.key, e.at);
      LevelBounds(c, m, key, e.at);
      var m' := Called(c, m, e.key, e.at);
      if key == e.key {
        assert Level(c, m', key, e.at) == Capped(c, m'[key].tokens + c.gain(0.0));
      }
    } else if evicts {
      EvictionKeepsLevel(c, m, e.at, key);
    }
  }

  lemma StepStaysSane(c: Config, evicts: bool, m: Buckets, e: Event)
    requires Steady(c) && Sane(c, m, e.at)
    ensures Sane(c, Apply(c, evicts, m, e), e.at)
  {
    if e.Call? { LevelBounds(c, m, e.key, e.at); }
  }

  // ---------------------------------------------------------------- eviction is invisible

  ghost predicate SameLevels(c: Config, m: Buckets, n: Buckets, now: real) {
    forall key :: Level(c, m, key, now) == Level(c, n, key, now)
  }

  lemma {:induction false} SameAnswers(c: Config, m: Buckets, n: Buckets, es: seq<Event>, start: real)
    requires Steady(c) && RefillsWhileIdle(c)
    requires Ordered(es) && (es != [] ==> start <= es[0].at)
    requires SameLevels(c, m, n, start) && Sane(c, m, start) && Sane(c, n, start)
    ensures Answers(c, true, m, es) == Answers(c, false, n, es)
    decreases |es|
  {
    if es == [] {
    } else {
      var e := es[0];
      var m', n' := Apply(c, true, m, e), Apply(c, false, n, e);
      forall key ensures Level(c, m, key, e.at) == Level(c, n, key, e.at) {
        LevelLater(c, m, key, start, e.at);
        LevelLater(c, n, key, start, e.at);
      }
      forall key ensures Level(c, m', key, e.at) == Level(c, n', key, e.at) {
        StepCost(c, true, m, e, key);
        StepCost(c, false, n, e, key);
      }
      StepStaysSane(c, true, m, e);
      StepStaysSane(c, false, n, e);
      SameAnswers(c, m', n', es[1..], e.at);
    }
  }

  // ---------------------------------------------------------------- the bound

  function LastTime(es: seq<Event>): real
    requires es != []
  {
    es[|es| - 1].at
  }

  lemma LevelAtMost(c: Config, m: Buckets, key: string, t: real, t': real)
    requires Steady(c) && t <= t'
    ensures Level(c, m, key, t') <= Level(c, m, key, t) + c.gain(t' - t)
  {
    LevelLater(c, m, key, t, t');
  }

  lemma GainSplits(c: Config, t: real, t': real, t'': real)
    requires Steady(c)
    ensures c.gain(t'' - t) == c.gain(t' - t) + c.gain(t'' - t')
  {
    assert Plus(t' - t, t'' - t') == t'' - t;
  }

  ghost predicate WithinLevel(c: Config, evicts: bool, m: Buckets, es: seq<Event>, key: string)
    requires es != []
  {
    Admitted(c, evicts, m, es, key) as real <= Level(c, m, key, es[0].at) + c.gain(LastTime(es) - es[0].at)
  }

  lemma AdmittedOnce(c: Config, evicts: bool, m: Buckets, es: seq<Event>, key: string)
    requires Steady(c) && |es| == 1 && Sane(c, m, es[0].at) && (evicts ==> RefillsWhileIdle(c))
    ensures WithinLevel(c, evicts, m, es, key)
  {
    StepStaysSane(c, evicts, m, es[0]);
    StepCost(c, evicts, m, es[0], key);
    LevelBounds(c, Apply(c, evicts, m, es[0]), key, es[0].at);
    NoTimeNoGain(c);
  }

  lemma AdmittedNext(c: Config, evicts: bool, m: Buckets, es: seq<Event>, key: string)
    requires Steady(c) && |es| > 1 && es[0].at <= es[1].at && Sane(c, m, es[0].at) && (evicts ==> RefillsWhileIdle(c))
    requires WithinLevel(c, evicts, Apply(c, evicts, m, es[0]), es[1..], key)
    ensures WithinLevel(c, evicts, m, es, key)
  {
    StepCost(c, evicts, m, es[0], key);
    LevelAtMost(c, Apply(c, evicts, m, es[0]), key, es[0].at, es[1].at);
    GainSplits(c, es[0].at, es[1].at, LastTime(es));
  }

  /** A trace admits no more calls of a user than the level it starts from plus what time yields. */
  lemma {:induction false} AdmittedFromLevel(c: Config, evicts: bool, m: Buckets, es: seq<Event>, key: string)
    requires Steady(c) && Ordered(es) && es != [] && Sane(c, m, es[0].at)
    requires evicts ==> RefillsWhileIdle(c)
    ensures WithinLevel(c, evicts, m, es, key)
    decreases |es|
  {
    if |es| == 1 {
      AdmittedOnce(c, evicts, m, es, key);
    } else {
      StepStaysSane(c, evicts, m, es[0]);
      AdmittedFromLevel(c, evicts, Apply(c, evicts, m, es[0]), es[1..], key);
      AdmittedNext(c, evicts, m, es, key);
    }
  }

  lemma {:induction false} AfterStaysSane(c: Config, evicts: bool, m: Buckets, es: seq<Event>, start: real, now: real)
    requires Steady(c) && Sane(c, m, start) && Ordered(es)
    requires start <= now && forall i | 0 <= i < |es| :: start <= es[i].at <= now
    ensures Sane(c, After(c, evicts, m, es), now)
    decreases |es|
  {
    if es == [] {
    } else {
      StepStaysSane(c, evicts, m, es[0]);
      AfterStaysSane(c, evicts, Apply(c, evicts, m, es[0]), es[1..], es[0].at, now);
    }
  }

  // ---------------------------------------------------------------- who is admitted

  /** The buckets after a trace from the start. */
  function Reached(c: Config, evicts: bool, es: seq<Event>): Buckets {
    if es == [] then map[] else Apply(c, evicts, Reached(c, evicts, es[..|es| - 1]), es[|es| - 1])
  }

  lemma {:induction false} AfterSnoc(c: Config, evicts: bool, m: Buckets, es: seq<Event>, e: Event)
    ensures After(c, evicts, m, es + [e]) == Apply(c, evicts, After(c, evicts, m, es), e)
    decreases |es|
  {
    if es == [] {
      assert [e][1..] == [];
    } else {
      AfterSnoc(c, evicts, Apply(c, evicts, m, es[0]), es[1..], e);
      assert (es + [e])[1..] == es[1..] + [e];
    }
  }

  lemma {:induction false} ReachedIsAfter(c: Config, evicts: bool, es: seq<Event>)
    ensures Reached(c, evicts, es) == After(c, evicts, map[], es)
  {
    if es == [] {
    } else {
      ReachedIsAfter(c, evicts, es[..|es| - 1]);
      AfterSnoc(c, evicts, map[], es[..|es| - 1], es[|es| - 1]);
      assert es == es[..|es| - 1] + [es[|es| - 1]];
    }
  }

  /** When a user was admitted, in order. */
  function Admissions(c: Config, evicts: bool, es: seq<Event>, key: string): seq<real> {
    if es == [] then []
    else
      var init, e := es[..|es| - 1], es[|es| - 1];
      Admissions(c, evicts, init, key) + if e.Call? && e.key == key && Admits(c, Reached(c, evicts, init), e) then [e.at] else []
  }

  /** After these admissions there is room for `x` more at `t`: the burst allows it, and so does, for every one of them,
      the burst with what time has yielded since. */
  ghost predicate Room(c: Config, times: seq<real>, t: real, x: real) {
    && c.burst as real >= x
    && forall i | 0 <= i < |times| :: c.burst as real + c.gain(t - times[i]) >= x + (|times| - i) as real
  }

  lemma RoomAfter(c: Config, times: seq<real>, u: real, t: real, x: real)
    requires Steady(c) && u <= t
    ensures Room(c, times, t, x) <==> c.burst as real >= x && Room(c, times, u, x - c.gain(t - u))
    ensures Room(c, times + [u], t, x) <==> c.burst as real >= x && Room(c, times, u, x + 1.0 - c.gain(t - u))
  {
    forall i | 0 <= i < |times| ensures c.gain(t - times[i]) == c.gain(u - times[i]) + c.gain(t - u) {
      GainSplits(c, times[i], u, t);
    }
    var more := times + [u];
    assert more[|times|] == u && forall i | 0 <= i < |times| :: more[i] == times[i];
    assert Room(c, more, t, x) ==> forall i | 0 <= i < |times| :: c.burst as real + c.gain(t - more[i]) >= x + (|more| - i) as real;
  }

  lemma {:induction false} ReachedIsSane(c: Config, evicts: bool, es: seq<Event>, t: real)
    requires Steady(c) && Ordered(es) && (es != [] ==> LastTime(es) <= t)
    ensures Sane(c, Reached(c, evicts, es), t)
  {
    if es == [] {
    } else {
      ReachedIsSane(c, evicts, es[..|es| - 1], es[|es| - 1].at);
      StepStaysSane(c, evicts, Reached(c, evicts, es[..|es| - 1]), es[|es| - 1]);
    }
  }

  lemma {:induction false} LevelIsRoom(c: Config, evicts: bool, es: seq<Event>, key: string, t: real, x: real)
    requires Steady(c) && (evicts ==> RefillsWhileIdle(c)) && Ordered(es) && (es != [] ==> LastTime(es) <= t)
    ensures Level(c, Reached(c, evicts, es), key, t) >= x <==> Room(c, Admissions(c, evicts, es, key), t, x)
    decreases |es|
  {
    if es == [] {
    } else {
      var init, e := es[..|es| - 1], es[|es| - 1];
      var m, times := Reached(c, evicts, init), Admissions(c, evicts, init, key);
      ReachedIsSane(c, evicts, init, e.at);
      LevelStep(c, evicts, m, e, key, t, x);
      RoomAfter(c, times, e.at, t, x);
      if Admits(c, m, e) && e.key == key {
        LevelIsRoom(c, evicts, init, key, e.at, x + 1.0 - c.gain(t - e.at));
      } else {
        LevelIsRoom(c, evicts, init, key, e.at, x - c.gain(t - e.at));
        assert Admissions(c, evicts, es, key) == times;
      }
    }
  }

  lemma LevelStep(c: Config, evicts: bool, m: Buckets, e: Event, key: string, t: real, x: real)
    requires Steady(c) && Sane(c, m, e.at) && (evicts ==> RefillsWhileIdle(c)) && e.at <= t
    ensures var cost := if Admits(c, m, e) && e.key == key then 1.0 else 0.0;
      Level(c, Apply(c, evicts, m, e), key, t) >= x <==> c.burst as real >= x && Level(c, m, key, e.at) >= x + cost - c.gain(t - e.at)
  {
    StepCost(c, evicts, m, e, key);
    LevelLater(c, Apply(c, evicts, m, e), key, e.at, t);
  }

  /** The limiter is as generous as its bound allows: it admits a call if and only if no stretch that ends with it would
      then hold more admissions than the burst plus what its time yields. */
  lemma AdmitsExactly(c: Config, evicts: bool, es: seq<Event>, key: string, t: real)
    requires Steady(c) && (evicts ==> RefillsWhileIdle(c)) && Ordered(es) && (es != [] ==> LastTime(es) <= t)
    ensures Admits(c, After(c, evicts, map[], es), Call(key, t)) <==> Room(c, Admissions(c, evicts, es, key), t, 1.0)
  {
    LevelIsRoom(c, evicts, es, key, t, 1.0);
    ReachedIsAfter(c, evicts, es);
  }

  // ---------------------------------------------------------------- the exact condition

  /** The limiter answers every trace as if it never forgot a user. */
  ghost predicate EvictionInvisible(c: Config) {
    forall es: seq<Event> | Ordered(es) :: Answers(c, true, map[], es) == Answers(c, false, map[], es)
  }

  /** The admissions of one user in the stretch from event `i` up to event `j` of a trace. */
  function AdmittedBetween(c: Config, evicts: bool, es: seq<Event>, i: nat, j: nat, key: string): nat
    requires i < j <= |es|
  {
    Admitted(c, evicts, After(c, evicts, map[], es[..i]), es[i..j], key)
  }

  /** In no stretch of any trace is a user admitted more often than the burst plus what time yields. */
  ghost predicate Bounded(c: Config, evicts: bool) {
    forall es: seq<Event>, i: nat, j: nat, key: string | Ordered(es) && i < j <= |es| ::
      AdmittedBetween(c, evicts, es, i, j, key) as real <= c.burst as real + c.gain(es[j - 1].at - es[i].at)
  }

  lemma BoundHolds(c: Config, evicts: bool)
    requires Steady(c) && (evicts ==> RefillsWhileIdle(c))
    ensures Bounded(c, evicts)
  {
    forall es: seq<Event>, i: nat, j: nat, key: string | Ordered(es) && i < j <= |es|
      ensures AdmittedBetween(c, evicts, es, i, j, key) as real <= c.burst as real + c.gain(es[j - 1].at - es[i].at)
    {
      var m := After(c, evicts, map[], es[..i]);
      var start := if i == 0 then es[i].at else es[0].at;
      AfterStaysSane(c, evicts, map[], es[..i], start, es[i].at);
      AdmittedFromLevel(c, evicts, m, es[i..j], key);
      LevelBounds(c, m, key, es[i].at);
    }
  }
  // A user spends a whole burst, stays away just over ten minutes, and comes back after a cleanup.

  function Calls(key: string, at: real, n: nat): (es: seq<Event>)
    ensures |es| == n && forall i | 0 <= i < n :: es[i] == Call(key, at)
  {
    seq(n, i => Call(key, at))
  }

  function Comeback(key: string, away: real, n: nat): seq<Event> {
    Calls(key, 0.0, n) + ([Cleanup(away)] + Calls(key, away, n))
  }

  lemma {:induction false} AdmittedConcat(c: Config, evicts: bool, m: Buckets, es: seq<Event>, fs: seq<Event>, key: string)
    ensures Admitted(c, evicts, m, es + fs, key)
         == Admitted(c, evicts, m, es, key) + Admitted(c, evicts, After(c, evicts, m, es), fs, key)
    decreases |es|
  {
    if es == [] {
      assert es + fs == fs;
    } else {
      AdmittedConcat(c, evicts, Apply(c, evicts, m, es[0]), es[1..], fs, key);
      assert (es + fs)[1..] == es[1..] + fs;
    }
  }

  /** Calls at one moment are all admitted as far as the level reaches, and only its user's bucket changes. */
  lemma {:induction false} AllAdmitted(c: Config, m: Buckets, key: string, at: real, n: nat)
    requires Steady(c) && Sane(c, m, at) && n as real <= Level(c, m, key, at)
    ensures Admitted(c, true, m, Calls(key, at, n), key) == n
    ensures n > 0 ==> exists tokens :: After(c, true, m, Calls(key, at, n)) == m[key := Bucket(tokens, at)]
    decreases n
  {
    if n == 0 {
    } else {
      var e, m', rest := Call(key, at), Called(c, m, key, at), Calls(key, at, n)[1..];
      assert rest == Calls(key, at, n - 1);
      NoTimeNoGain(c);
      LevelBounds(c, m, key, at);
      StepStaysSane(c, true, m, e);
      assert Level(c, m', key, at) == Level(c, m, key, at) - 1.0;
      AllAdmitted(c, m', key, at, n - 1);
      if n == 1 {
        assert After(c, true, m', rest) == m[key := m'[key]];
      } else {
        var tokens :| After(c, true, m', rest) == m'[key := Bucket(tokens, at)];
        assert m'[key := Bucket(tokens, at)] == m[key := Bucket(tokens, at)];
      }
    }
  }

  /** After the absence the evicting limiter grants a second whole burst. */
  lemma ComebackAdmitted(c: Config, key: string, away: real)
    requires Steady(c) && away > IDLE_LIMIT && c.burst > 0
    ensures Admitted(c, true, map[], Comeback(key, away, c.burst), key) == 2 * c.burst
    ensures Ordered(Comeback(key, away, c.burst))
  {
    var n := c.burst;
    var first, second := Calls(key, 0.0, n), Calls(key, away, n);
    AllAdmitted(c, map[], key, 0.0, n);
    AdmittedConcat(c, true, map[], first, [Cleanup(away)] + second, key);
    var m := After(c, true, map[], first);
    assert Evicted(m, away) == map[];
    assert ([Cleanup(away)] + second)[1..] == second;
    AllAdmitted(c, map[], key, away, n);
  }

  lemma {:induction false} SameAnswersSameCount(c: Config, m: Buckets, n: Buckets, es: seq<Event>, key: string)
    requires Answers(c, true, m, es) == Answers(c, false, n, es)
    ensures Admitted(c, true, m, es, key) == Admitted(c, false, n, es, key)
    decreases |es|
  {
    if es == [] {
    } else {
      var m', n' := Apply(c, true, m, es[0]), Apply(c, false, n, es[0]);
      assert Answers(c, true, m', es[1..]) == Answers(c, true, m, es)[1..];
      assert Answers(c, false, n', es[1..]) == Answers(c, false, n, es)[1..];
      SameAnswersSameCount(c, m', n', es[1..], key);
    }
  }

  /** An absence over ten minutes that yields less than a burst. */
  lemma ShortRefill(rate: real, burst: nat) returns (away: real)
    requires rate >= 0.0 && IDLE_LIMIT * rate < burst as real
    ensures away > IDLE_LIMIT && away * rate < burst as real
  {
    if rate == 0.0 {
      away := 601.0;
    } else {
      var slack := (burst as real - IDLE_LIMIT * rate) / 2.0;
      away := IDLE_LIMIT + slack / rate;
      assert slack / rate > 0.0;
      assert slack / rate * rate == slack;
      assert away * rate == IDLE_LIMIT * rate + slack / rate * rate;
    }
  }

  lemma ComebackBreaksBound(c: Config, away: real)
    requires Steady(c) && away > IDLE_LIMIT && c.gain(away) < c.burst as real
    ensures !Bounded(c, true) && !EvictionInvisible(c)
  {
    var es := Comeback("u", away, c.burst);
    assert c.gain(away) >= 0.0;
    ComebackAdmitted(c, "u", away);
    var last := |es| - 1;
    assert es[0].at == 0.0 && es[last].at == away;
    assert es[..0] == [] && es[0..|es|] == es;
    assert AdmittedBetween(c, true, es, 0, |es|, "u") == 2 * c.burst;
    BoundHolds(c, false);
    assert AdmittedBetween(c, false, es, 0, |es|, "u") as real <= c.burst as real + c.gain(es[last].at - es[0].at);
    if Answers(c, true, map[], es) == Answers(c, false, map[], es) {
      SameAnswersSameCount(c, map[], map[], es, "u");
    }
  }

  /** The exact condition. A limiter that never forgets always keeps the bound; the one with eviction keeps
      it, and answers like the one that never forgets, if and only if ten minutes refill a whole burst. */
  lemma EvictionExactly(rate: real, burst: nat)
    requires rate >= 0.0
    ensures Bounded(PerSecond(rate, burst), false)
    ensures EvictionInvisible(PerSecond(rate, burst)) <==> 600.0 * rate >= burst as real
    ensures Bounded(PerSecond(rate, burst), true) <==> 600.0 * rate >= burst as real
  {
    var c := PerSecond(rate, burst);
    PerSecondIsSteady(rate, burst);
    BoundHolds(c, false);
    assert c.gain(IDLE_LIMIT) == IDLE_LIMIT * rate;
    if IDLE_LIMIT * rate >= burst as real {
      BoundHolds(c, true);
      forall es: seq<Event> | Ordered(es) ensures Answers(c, true, map[], es) == Answers(c, false, map[], es) {
        SameAnswers(c, map[], map[], es, if es == [] then 0.0 else es[0].at);
      }
    } else {
      var away := ShortRefill(rate, burst);
      ComebackBreaksBound(c, away);
    }
  }
}

/** The limiter object. */
module RateLimiter {
  import opened TokenBucket

  class RateLimiter {
    var buckets: Buckets
    const rate: real
    const burst: nat

    constructor (rate: real, burst: nat)
      ensures this.rate == rate && this.burst == burst && buckets == map[]
    {
      this.rate, this.burst := rate, burst;
      buckets := map[];
    }

    method Allow(key: string, now: real) returns (ok: bool)
      modifies this
      ensures ok == Admits(PerSecond(rate, burst), old(buckets), Call(key, now))
      ensures buckets == Apply(PerSecond(rate, burst), true, old(buckets), Call(key, now))
    {
      if key !in buckets {
        buckets := buckets[key := Bucket(burst as real, now)];
      }
      var b := buckets[key];
      var elapsed := now - b.lastFill;
      var tokens := b.tokens + elapsed * rate;
      if tokens > burst as real {
        tokens := burst as real;
      }
      if tokens < 1.0 {
        ok := false;
      } else {
        tokens := tokens - 1.0;
        ok := true;
      }
      buckets := buckets[key := Bucket(tokens, now)];
    }

    method Cleanup(now: real)
      modifies this
      ensures buckets == Apply(PerSecond(rate, burst), true, old(buckets), TokenBucket.Cleanup(now))
    {
      var cutoff := now - IDLE_LIMIT;
      var left := buckets.Keys;
      while left != {}
        invariant left <= old(buckets).Keys
        invariant buckets == map key | key in old(buckets) && (key in left || !(old(buckets)[key].lastFill < cutoff)) :: old(buckets)[key]
      {
        var key :| key in left;
        if buckets[key].lastFill < cutoff {
          buckets := map k | k in buckets && k != key :: buckets[k];
        }
        left := left - {key};
      }
    }
  }
}
