/** Two corollaries of the exact condition: a cache that is always warm is enough, and a cold start with
    two callers is not. */
module OAuthWarmCache {
  import opened Options
  import opened OAuthModel
  import opened OAuthSingleFlight
  import opened OAuthRotation

  /** The refresh token a call carries. */
  function TokenOf(p: Phase): string {
    match p
    case Leading(_, _, snapshot) => if snapshot.Some? then snapshot.value.refresh else ""
    case Ready(_, _, held, _, _) => held.refresh
    case Moved(_, _, held, _) => held.refresh
    case Exchanged(_, _, renewed) => renewed.refresh
    case Saved(_, _, renewed) => renewed.refresh
    case Loaded(_, found) => found.refresh
    case Authorized(_, granted) => granted.refresh
    case _ => ""
  }

  /** Nobody but `t` has the token. */
  ghost predicate Exclusive(m: Manager, t: Thread, token: string) {
    && token !in m.discarded
    && (forall s | s in m.tokens :: m.tokens[s].refresh != token)
    && (forall u | u in m.calls && u != t :: TokenOf(m.calls[u]) != token)
  }

  /** No lazy load is under way, and what a callback is about to cache is still its own. */
  ghost predicate WarmInv(m: Manager) {
    forall t | t in m.calls ::
      && !m.calls[t].Missed? && !m.calls[t].Loaded?
      && (m.calls[t].Authorized? && m.calls[t].granted.refresh != "" ==> Exclusive(m, t, m.calls[t].granted.refresh))
  }

  lemma PhaseLeavesTokenAlone(m: Manager, e: Event, t: Thread, token: string)
    requires RefsInRange(m) && Enabled(m, e) && !e.ReRegister? && !e.ReadStored?
    requires token != "" && token in m.home && Exclusive(m, t, token) && e.t != t
    ensures TokenOf(PhaseAfter(m, e)) != token
  {
    if e.t in m.calls { assert TokenOf(m.calls[e.t]) != token; }
  }

  lemma CacheLeavesTokenAlone(m: Manager, e: Event, t: Thread, token: string, s: Server)
    requires RefsInRange(m) && Enabled(m, e)
    requires Exclusive(m, t, token) && (e.ReRegister? || e.t != t) && s in CacheAfter(m, e)
    ensures CacheAfter(m, e)[s].refresh != token
  {
    if !e.ReRegister? && e.t in m.calls { assert TokenOf(m.calls[e.t]) != token; }
  }

  lemma ExclusiveStays(m: Manager, e: Event, t: Thread)
    requires RefsInRange(m) && Enabled(m, e) && HomeInv(m) && WarmInv(m) && !e.Miss?
    requires t in m.calls && m.calls[t].Authorized? && m.calls[t].granted.refresh != ""
    requires e.ReRegister? || e.t != t
    ensures Exclusive(Apply(m, e), t, m.calls[t].granted.refresh)
  {
    var token, m' := m.calls[t].granted.refresh, Apply(m, e);
    assert Exclusive(m, t, token) && PhaseAtHome(m, m.calls[t]);
    forall s | s in m'.tokens ensures m'.tokens[s].refresh != token { CacheLeavesTokenAlone(m, e, t, token, s); }
    if !e.ReRegister? {
      if e.t in m.calls { assert TokenOf(m.calls[e.t]) != token; }
      PhaseLeavesTokenAlone(m, e, t, token);
    }
  }

  lemma NewGrantIsExclusive(m: Manager, e: Event)
    requires RefsInRange(m) && Enabled(m, e) && HomeInv(m) && e.Authorize? && e.granted.refresh != ""
    ensures Exclusive(Apply(m, e), e.t, e.granted.refresh)
  {
    forall u | u in m.calls ensures TokenOf(m.calls[u]) != e.granted.refresh { assert PhaseAtHome(m, m.calls[u]); }
    forall s | s in m.tokens ensures m.tokens[s].refresh != e.granted.refresh { assert AtHome(m, m.tokens[s], s); }
  }

  lemma StepKeepsWarm(m: Manager, e: Event)
    requires RefsInRange(m) && Enabled(m, e) && HomeInv(m) && WarmInv(m) && !e.Miss?
    ensures WarmInv(Apply(m, e))
  {
    var m' := Apply(m, e);
    forall t | t in m'.calls
      ensures !m'.calls[t].Missed? && !m'.calls[t].Loaded?
      ensures m'.calls[t].Authorized? && m'.calls[t].granted.refresh != "" ==> Exclusive(m', t, m'.calls[t].granted.refresh)
    {
      if e.ReRegister? || e.t != t {
        if m.calls[t].Authorized? && m.calls[t].granted.refresh != "" { ExclusiveStays(m, e, t); }
      } else if e.Authorize? && e.granted.refresh != "" {
        NewGrantIsExclusive(m, e);
      }
    }
  }

  /** Every lookup finds the cache warm, and every renewed token is saved. */
  predicate WarmAndSaved(es: seq<Event>) {
    forall k | 0 <= k < |es| :: !es[k].Miss? && (es[k].Save? ==> es[k].written)
  }

  lemma {:induction false} WarmRun(ms: seq<Manager>, es: seq<Event>, i: nat)
    requires IsRun(ms, es) && WarmAndSaved(es) && i < |ms|
    ensures HomeInv(ms[i]) && WarmInv(ms[i])
  {
    if i == 0 {
    } else {
      WarmRun(ms, es, i - 1);
      ReachableInv(ms, es, i - 1);
      StepKeepsHome(ms[i - 1], es[i - 1]);
      StepKeepsWarm(ms[i - 1], es[i - 1]);
    }
  }

  /** With a warm cache and successful saves no discarded token is ever presented again, whatever
      callbacks and re-registrations happen meanwhile. */
  lemma WarmCacheNeverPresentsDiscarded(ms: seq<Manager>, es: seq<Event>, i: nat)
    requires IsRun(ms, es) && WarmAndSaved(es) && i < |es| && es[i].Exchange?
    ensures ms[i].calls[es[i].t].held.refresh !in ms[i].discarded
  {
    forall k | 0 <= k < i ensures !StaleWrite(ms[k], es[k]) {
      WarmRun(ms, es, k);
      var e := es[k];
      if e.CacheGranted? {
        assert ms[k].calls[e.t].granted.refresh != "" ==> Exclusive(ms[k], e.t, ms[k].calls[e.t].granted.refresh);
      }
    }
    NeverPresentedAgain(ms, es, i);
  }

  // ---------------------------------------------------------------- a cold start

  predicate SavesSucceed(es: seq<Event>) { forall k | 0 <= k < |es| && es[k].Save? :: es[k].written }

  /** Some run in which every save succeeds leads here. */
  ghost predicate Arises(m: Manager) {
    exists ms, es :: IsRun(ms, es) && SavesSucceed(es) && ms[|es|] == m
  }

  lemma Arise(m: Manager, e: Event) returns (m': Manager)
    requires Arises(m) && RefsInRange(m) && Enabled(m, e) && (e.Save? ==> e.written)
    ensures m' == Apply(m, e) && Arises(m') && RefsInRange(m')
  {
    var ms, es :| IsRun(ms, es) && SavesSucceed(es) && ms[|es|] == m;
    m' := Apply(m, e);
    RunExtends(ms, es, e, m');
    ReachableInv(ms + [m'], es + [e], |es| + 1);
    assert SavesSucceed(es + [e]) && (ms + [m'])[|es + [e]|] == m';
  }

  lemma StartArises()
    ensures Arises(INITIAL)
  {
    var es: seq<Event> := [];
    assert IsRun([INITIAL], es) && SavesSucceed(es) && [INITIAL][|es|] == INITIAL;
  }

  const OLD: TokenSet := TokenSet("a0", "r0")
  const NEW: TokenSet := TokenSet("a1", "r1")

  /** Two callers find the cache empty. */
  lemma BothMiss() returns (m: Manager)
    ensures Arises(m) && RefsInRange(m)
    ensures m == Manager(map[], map[], [], map["s" := OLD],
                         map[0 := Authorized("s", OLD), 1 := Missed("s"), 2 := Missed("s")], map["r0" := "s"], {})
  {
    StartArises();
    m := Arise(INITIAL, Authorize(0, "s", OLD));
    m := Arise(m, Miss(1, "s"));
    m := Arise(m, Miss(2, "s"));
  }

  /** Both read the stored token; one of them caches it. */
  lemma BothLoad() returns (m: Manager)
    ensures Arises(m) && RefsInRange(m)
    ensures m == Manager(map["s" := OLD], map[], [], map["s" := OLD],
                         map[0 := Authorized("s", OLD), 1 := Over("s"), 2 := Loaded("s", OLD)], map["r0" := "s"], {})
  {
    m := BothMiss();
    m := Arise(m, ReadStored(1));
    m := Arise(m, ReadStored(2));
    m := Arise(m, CacheLoaded(1));
  }

  /** A refresh is about to ask the provider. */
  lemma OneAsks() returns (m: Manager)
    ensures Arises(m) && RefsInRange(m)
    ensures 2 in m.calls && m.calls[2] == Loaded("s", OLD) && 4 !in m.calls
    ensures 3 in m.calls && m.calls[3] == Ready("s", 0, OLD, Some(OLD), false)
    ensures m.refreshing == map["s" := 0] && "r1" !in m.home
  {
    m := BothLoad();
    m := Arise(m, Enter(3, "s"));
    m := Arise(m, ReadConfig(3));
  }

  /** It exchanges the token for a new one. */
  lemma OneExchanges() returns (m: Manager)
    ensures Arises(m) && RefsInRange(m)
    ensures 2 in m.calls && m.calls[2] == Loaded("s", OLD) && 4 !in m.calls
    ensures 3 in m.calls && m.calls[3] == Exchanged("s", 0, NEW)
    ensures m.refreshing == map["s" := 0] && "r0" in m.discarded
  {
    m := OneAsks();
    m := Arise(m, Exchange(3, Granted(NEW)));
  }

  /** It finishes while the second caller still holds what it read. */
  lemma OneRefreshes() returns (m: Manager)
    ensures Arises(m) && RefsInRange(m)
    ensures m.refreshing == map[] && "r0" in m.discarded
    ensures 2 in m.calls && m.calls[2] == Loaded("s", OLD) && 4 !in m.calls
    ensures 3 in m.calls && m.calls[3] == Unregistered("s", 0, Refreshed)
  {
    m := OneExchanges();
    m := Arise(m, Save(3, true));
    m := Arise(m, CacheRenewed(3));
    m := Arise(m, Unregister(3));
  }

  /** A cold start with two callers defeats single use: the second caller then caches the token it had
      read, and the next refresh is about to present a token that the provider has already replaced. */
  lemma ColdStartPresentsDiscarded() returns (m: Manager, t: Thread)
    ensures Arises(m) && RefsInRange(m) && Enabled(m, Exchange(t, InvalidGrant))
    ensures m.calls[t].held.refresh in m.discarded
  {
    m := OneRefreshes();
    m := Arise(m, CacheLoaded(2));
    t := 4;
    m := Arise(m, Enter(t, "s"));
    m := Arise(m, ReadConfig(t));
  }

  /** A refresh that succeeded guarantees no tokens: a re-registration in between, and the caller that returns
      from the refresh to read the cache again finds nothing there. */
  lemma RefreshedYetGone() returns (m: Manager)
    ensures Arises(m) && RefsInRange(m)
    ensures 3 in m.calls && m.calls[3] == Returned("s", 0, Refreshed) && "s" !in m.tokens
  {
    m := OneRefreshes();
    m := Arise(m, CloseDone(3));
    m := Arise(m, ReRegister("s"));
  }
}
