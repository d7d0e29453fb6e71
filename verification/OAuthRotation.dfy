/** When can a discarded refresh token be presented again? */
module OAuthRotation {
  import opened Options
  import opened OAuthModel
  import opened OAuthSingleFlight

  /** A token set kept for a server carries a refresh token issued to that server. */
  predicate AtHome(m: Manager, ts: TokenSet, s: Server) {
    ts.refresh != "" ==> ts.refresh in m.home && m.home[ts.refresh] == s
  }

  predicate PhaseAtHome(m: Manager, p: Phase) {
    match p
    case Leading(s, _, snapshot) => snapshot.Some? ==> AtHome(m, snapshot.value, s)
    case Ready(s, _, held, config, _) => held.refresh != "" && AtHome(m, held, s) && (config.Some? ==> AtHome(m, config.value, s))
    case Moved(s, _, held, config) => held.refresh != "" && AtHome(m, held, s) && (config.Some? ==> AtHome(m, config.value, s))
    case Exchanged(s, _, renewed) => AtHome(m, renewed, s)
    case Saved(s, _, renewed) => AtHome(m, renewed, s)
    case Loaded(s, found) => AtHome(m, found, s)
    case Authorized(s, granted) => AtHome(m, granted, s)
    case _ => true
  }

  ghost predicate HomeInv(m: Manager) {
    && (forall s | s in m.tokens :: AtHome(m, m.tokens[s], s))
    && (forall s | s in m.stored :: AtHome(m, m.stored[s], s))
    && (forall t | t in m.calls :: PhaseAtHome(m, m.calls[t]))
    && (forall r | r in m.discarded :: r in m.home)
    && "" !in m.discarded
  }

  /** The provider has answered the leader of this server, and the answer has not reached the cache. */
  ghost predicate MidExchange(m: Manager, s: Server)
    requires RefsInRange(m)
  {
    && s in m.refreshing
    && var t := m.results[m.refreshing[s]].owner;
    && t in m.calls && (m.calls[t].Exchanged? || m.calls[t].Saved?)
  }

  /** No discarded token can be picked up by a new leader, nor is any about to be presented. */
  ghost predicate Sound(m: Manager)
    requires RefsInRange(m)
  {
    && (forall s | s in m.tokens && m.tokens[s].refresh in m.discarded :: MidExchange(m, s))
    && (forall t | t in m.calls :: PhaseSound(m, m.calls[t]))
  }

  predicate PhaseSound(m: Manager, p: Phase) {
    && (p.Leading? && p.snapshot.Some? ==> p.snapshot.value.refresh !in m.discarded)
    && (p.Ready? || p.Moved? ==> p.held.refresh !in m.discarded)
    && (p.Exchanged? || p.Saved? ==> p.renewed.refresh !in m.discarded)
  }

  /** The steps that put a discarded token within reach: a renewed token that could not be saved while
      the cache still holds the old one, and a cache write from outside the single-flight section whose
      token was exchanged in the meantime. */
  ghost predicate StaleWrite(m: Manager, e: Event)
    requires RefsInRange(m) && Enabled(m, e)
  {
    match e
    case Save(t, written) =>
      !written && m.calls[t].server in m.tokens && m.tokens[m.calls[t].server].refresh in m.discarded
    case CacheLoaded(t) => m.calls[t].found.refresh in m.discarded && !MidExchange(m, m.calls[t].server)
    case CacheGranted(t) => m.calls[t].granted.refresh in m.discarded && !MidExchange(m, m.calls[t].server)
    case _ => false
  }

  // ---------------------------------------------------------------- tokens stay with their server

  lemma HomeGrows(m: Manager, e: Event, ts: TokenSet, s: Server)
    requires RefsInRange(m) && Enabled(m, e) && AtHome(m, ts, s)
    ensures AtHome(Apply(m, e), ts, s)
  {
  }

  lemma PhaseAfterAtHome(m: Manager, e: Event)
    requires RefsInRange(m) && Enabled(m, e) && !e.ReRegister?
    requires e.t in m.calls ==> PhaseAtHome(m, m.calls[e.t])
    requires forall s | s in m.tokens :: AtHome(m, m.tokens[s], s)
    requires forall s | s in m.stored :: AtHome(m, m.stored[s], s)
    ensures PhaseAtHome(Apply(m, e), PhaseAfter(m, e))
  {
  }

  lemma CacheAtHome(m: Manager, e: Event, s: Server)
    requires RefsInRange(m) && Enabled(m, e) && HomeInv(m) && s in CacheAfter(m, e)
    ensures AtHome(Apply(m, e), CacheAfter(m, e)[s], s)
  {
    if !e.ReRegister? && e.t in m.calls { assert PhaseAtHome(m, m.calls[e.t]); }
    HomeGrows(m, e, CacheAfter(m, e)[s], s);
  }

  lemma StoredAtHome(m: Manager, e: Event, s: Server)
    requires RefsInRange(m) && Enabled(m, e) && s in StoredAfter(m, e)
    requires !e.ReRegister? && e.t in m.calls ==> PhaseAtHome(m, m.calls[e.t])
    requires s in m.stored ==> AtHome(m, m.stored[s], s)
    ensures AtHome(Apply(m, e), StoredAfter(m, e)[s], s)
  {
    if !e.Authorize? { HomeGrows(m, e, StoredAfter(m, e)[s], s); }
  }

  lemma StepKeepsHome(m: Manager, e: Event)
    requires RefsInRange(m) && Enabled(m, e) && HomeInv(m)
    ensures HomeInv(Apply(m, e))
  {
    var m' := Apply(m, e);
    forall t | t in m'.calls ensures PhaseAtHome(m', m'.calls[t]) {
      if e.ReRegister? || t != e.t { assert PhaseAtHome(m, m.calls[t]); } else { PhaseAfterAtHome(m, e); }
    }
    forall s | s in m'.tokens ensures AtHome(m', m'.tokens[s], s) { CacheAtHome(m, e, s); }
    forall s | s in m'.stored ensures AtHome(m', m'.stored[s], s) { StoredAtHome(m, e, s); }
    if Rotates(e) { assert PhaseAtHome(m, m.calls[e.t]); }
  }

  // ---------------------------------------------------------------- the exact condition

  /** A rotation discards a token that no other server holds. */
  lemma RotationIsLocal(m: Manager, e: Event, ts: TokenSet, s: Server)
    requires Inv(m) && HomeInv(m) && Enabled(m, e) && Rotates(e)
    requires AtHome(m, ts, s) && s != m.calls[e.t].server && ts.refresh !in m.discarded
    ensures ts.refresh !in Apply(m, e).discarded
  {
    assert PhaseAtHome(m, m.calls[e.t]);
  }

  lemma OtherPhaseSound(m: Manager, e: Event, t: Thread)
    requires Inv(m) && HomeInv(m) && Sound(m) && Enabled(m, e)
    requires t in m.calls && (e.ReRegister? || e.t != t)
    ensures PhaseSound(Apply(m, e), m.calls[t])
  {
    var p := m.calls[t];
    assert PhaseSound(m, p) && PhaseAtHome(m, p) && LeaderInv(m, t);
    if Rotates(e) && Leads(p) {
      assert LeaderInv(m, e.t);
      if p.Leading? && p.snapshot.Some? { RotationIsLocal(m, e, p.snapshot.value, p.server); }
      if p.Ready? || p.Moved? { RotationIsLocal(m, e, p.held, p.server); }
      if p.Exchanged? || p.Saved? { RotationIsLocal(m, e, p.renewed, p.server); }
    }
  }

  lemma OwnPhaseSound(m: Manager, e: Event)
    requires RefsInRange(m) && Enabled(m, e) && !e.ReRegister?
    requires e.t in m.calls ==> PhaseSound(m, m.calls[e.t]) && PhaseAtHome(m, m.calls[e.t])
    requires e.Enter? && e.server !in m.refreshing && e.server in m.tokens ==> m.tokens[e.server].refresh !in m.discarded
    requires forall r | r in m.discarded :: r in m.home
    requires "" !in m.discarded
    ensures PhaseSound(Apply(m, e), PhaseAfter(m, e))
  {
  }

  lemma PhasesStaySound(m: Manager, e: Event)
    requires Inv(m) && HomeInv(m) && Sound(m) && Enabled(m, e)
    ensures forall t | t in Apply(m, e).calls :: PhaseSound(Apply(m, e), Apply(m, e).calls[t])
  {
    forall t | t in Apply(m, e).calls ensures PhaseSound(Apply(m, e), Apply(m, e).calls[t]) {
      if e.ReRegister? || e.t != t {
        OtherPhaseSound(m, e, t);
      } else {
        if e.Enter? && e.server !in m.refreshing { assert !MidExchange(m, e.server); }
        OwnPhaseSound(m, e);
      }
    }
  }

  /** While the leader of a server does not act itself, nothing changes for that server. */
  lemma BystandersKeepExchange(m: Manager, e: Event, s: Server)
    requires Inv(m) && Enabled(m, e) && RefsInRange(Apply(m, e))
    requires s in m.refreshing && (e.ReRegister? || e.t != m.results[m.refreshing[s]].owner)
    ensures MidExchange(Apply(m, e), s) <==> MidExchange(m, s)
  {
    if e.Unregister? { assert LeaderInv(m, e.t); }
    if e.CloseDone? { assert LeaderInv(m, e.t); }
  }

  /** What the leader's own step means for the exchange. */
  lemma LeaderMovesExchange(m: Manager, e: Event, s: Server)
    requires RefsInRange(m) && Enabled(m, e) && RefsInRange(Apply(m, e))
    requires s in m.refreshing && !e.ReRegister? && e.t == m.results[m.refreshing[s]].owner
    requires e.t in m.calls && Leads(m.calls[e.t]) && m.calls[e.t].server == s
    ensures MidExchange(Apply(m, e), s) <==> (e.Exchange? && e.reply.Granted?) || (e.Save? && e.written)
  {
  }

  lemma NewcomersHaveNoExchange(m: Manager, e: Event, s: Server)
    requires Inv(m) && Enabled(m, e) && RefsInRange(Apply(m, e)) && s !in m.refreshing
    ensures !MidExchange(Apply(m, e), s)
  {
  }

  /** The cache entry of one server after a step that is no stale write. */
  lemma CacheStaysSound(m: Manager, e: Event, s: Server)
    requires Inv(m) && HomeInv(m) && Sound(m) && Enabled(m, e) && RefsInRange(Apply(m, e)) && !StaleWrite(m, e)
    requires s in CacheAfter(m, e) && CacheAfter(m, e)[s].refresh in Apply(m, e).discarded
    ensures MidExchange(Apply(m, e), s)
  {
    if s in m.refreshing {
      var t := m.results[m.refreshing[s]].owner;
      assert LeaderInv(m, t) && PhaseSound(m, m.calls[t]) && PhaseAtHome(m, m.calls[t]);
      if e.ReRegister? || e.t != t {
        CacheByOthers(m, e, s);
        BystandersKeepExchange(m, e, s);
      } else {
        LeaderMovesExchange(m, e, s);
        CacheByLeader(m, e, s);
      }
    } else {
      CacheByOthers(m, e, s);
      assert false;
    }
  }

  /** Others can only leave a discarded token in the cache during an exchange. */
  lemma CacheByOthers(m: Manager, e: Event, s: Server)
    requires Inv(m) && HomeInv(m) && Sound(m) && Enabled(m, e) && RefsInRange(Apply(m, e)) && !StaleWrite(m, e)
    requires s in m.refreshing ==> e.ReRegister? || e.t != m.results[m.refreshing[s]].owner
    requires s in CacheAfter(m, e) && CacheAfter(m, e)[s].refresh in Apply(m, e).discarded
    ensures MidExchange(m, s)
  {
    if !e.ReRegister? && e.t in m.calls { assert LeaderInv(m, e.t) && PhaseAtHome(m, m.calls[e.t]); }
    if Rotates(e) && m.tokens[s].refresh !in m.discarded {
      assert AtHome(m, m.tokens[s], s);
      RotationIsLocal(m, e, m.tokens[s], s);
    }
  }

  lemma CacheByLeader(m: Manager, e: Event, s: Server)
    requires RefsInRange(m) && Enabled(m, e) && !StaleWrite(m, e) && !e.ReRegister?
    requires e.t in m.calls && Leads(m.calls[e.t]) && m.calls[e.t].server == s && PhaseSound(m, m.calls[e.t])
    requires s in m.tokens && m.tokens[s].refresh in m.discarded ==> m.calls[e.t].Exchanged? || m.calls[e.t].Saved?
    requires s in CacheAfter(m, e) && CacheAfter(m, e)[s].refresh in Apply(m, e).discarded
    ensures (e.Exchange? && e.reply.Granted?) || (e.Save? && e.written)
  {
  }

  lemma StaleWriteBreaks(m: Manager, e: Event)
    requires Inv(m) && HomeInv(m) && Sound(m) && Enabled(m, e) && RefsInRange(Apply(m, e)) && StaleWrite(m, e)
    ensures !Sound(Apply(m, e))
  {
    var s := m.calls[e.t].server;
    var m' := Apply(m, e);
    assert LeaderInv(m, e.t);
    assert s in m'.tokens && m'.tokens[s].refresh in m'.discarded;
    if s in m.refreshing {
      if e.t == m.results[m.refreshing[s]].owner { LeaderMovesExchange(m, e, s); } else { BystandersKeepExchange(m, e, s); }
    } else {
      NewcomersHaveNoExchange(m, e, s);
    }
  }

  /** The exact condition: a step keeps every discarded token out of reach if and only if it is not a
      stale write. */
  lemma SoundExactly(m: Manager, e: Event)
    requires Inv(m) && HomeInv(m) && Sound(m) && Enabled(m, e)
    ensures RefsInRange(Apply(m, e))
    ensures Sound(Apply(m, e)) <==> !StaleWrite(m, e)
  {
    StepKeepsInv(m, e);
    if StaleWrite(m, e) {
      StaleWriteBreaks(m, e);
    } else {
      PhasesStaySound(m, e);
      forall s | s in Apply(m, e).tokens && Apply(m, e).tokens[s].refresh in Apply(m, e).discarded
        ensures MidExchange(Apply(m, e), s)
      {
        CacheStaysSound(m, e, s);
      }
    }
  }

  /** Once a discarded token sits in the cache outside an exchange, the next refresh presents it. */
  lemma UnsoundCachePresentsDiscarded(m: Manager, t: Thread, s: Server)
    requires Inv(m) && s in m.tokens && m.tokens[s].refresh in m.discarded && m.tokens[s].refresh != ""
    requires s !in m.refreshing && t !in m.calls
    ensures RefsInRange(Apply(m, Enter(t, s))) && Enabled(Apply(m, Enter(t, s)), ReadConfig(t))
    ensures var m' := Apply(Apply(m, Enter(t, s)), ReadConfig(t));
      RefsInRange(m') && Enabled(m', Exchange(t, InvalidGrant)) && m'.calls[t].held.refresh in m'.discarded
  {
    StepKeepsInv(m, Enter(t, s));
    StepKeepsInv(Apply(m, Enter(t, s)), ReadConfig(t));
  }

  // ---------------------------------------------------------------- whole runs

  lemma {:induction false} SoundRun(ms: seq<Manager>, es: seq<Event>, i: nat)
    requires IsRun(ms, es) && i < |ms|
    requires forall k | 0 <= k < i :: !StaleWrite(ms[k], es[k])
    ensures Inv(ms[i]) && HomeInv(ms[i]) && Sound(ms[i])
  {
    ReachableInv(ms, es, i);
    if i > 0 {
      SoundRun(ms, es, i - 1);
      StepKeepsHome(ms[i - 1], es[i - 1]);
      SoundExactly(ms[i - 1], es[i - 1]);
    }
  }

  /** In a run without stale writes no discarded refresh token is ever presented to the provider. */
  lemma NeverPresentedAgain(ms: seq<Manager>, es: seq<Event>, i: nat)
    requires IsRun(ms, es) && i < |es| && es[i].Exchange?
    requires forall k | 0 <= k < i :: !StaleWrite(ms[k], es[k])
    ensures ms[i].calls[es[i].t].held.refresh !in ms[i].discarded
  {
    SoundRun(ms, es, i);
    assert PhaseSound(ms[i], ms[i].calls[es[i].t]);
  }
}
