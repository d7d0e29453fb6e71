/** Where the manager's tokens come from: every token set it ever holds was granted to that server as a whole. */
module OAuthOrigins {
  import opened Options
  import opened OAuthModel
  import opened OAuthSingleFlight

  type Known = iset<(Server, TokenSet)>

  predicate PhaseKnown(p: Phase, known: Known) {
    match p
    case Leading(s, _, snapshot) => snapshot.Some? ==> (s, snapshot.value) in known
    case Ready(s, _, held, config, _) => (s, held) in known && (config.Some? ==> (s, config.value) in known)
    case Moved(s, _, held, config) => (s, held) in known && (config.Some? ==> (s, config.value) in known)
    case Exchanged(s, _, renewed) => (s, renewed) in known
    case Saved(s, _, renewed) => (s, renewed) in known
    case Loaded(s, found) => (s, found) in known
    case Authorized(s, granted) => (s, granted) in known
    case _ => true
  }

  ghost predicate AllKnown(m: Manager, known: Known) {
    && (forall s | s in m.tokens :: (s, m.tokens[s]) in known)
    && (forall s | s in m.stored :: (s, m.stored[s]) in known)
    && (forall t | t in m.calls :: PhaseKnown(m.calls[t], known))
  }

  /** What the provider hands out in this step: an authorization as it is, and in exchange for a refresh token the new
      access token, with the new refresh token or, if there is none, the one that was presented. */
  predicate Grants(m: Manager, e: Event, s: Server, ts: TokenSet) {
    || (e.Authorize? && e.server == s && e.granted == ts)
    || (e.Exchange? && e.reply.Granted? && e.t in m.calls && m.calls[e.t].Ready? && m.calls[e.t].server == s
        && ts.access == e.reply.tokens.access
        && ts.refresh == if e.reply.tokens.refresh == "" then m.calls[e.t].held.refresh else e.reply.tokens.refresh)
  }

  lemma KnownPhase(m: Manager, e: Event, known: Known)
    requires RefsInRange(m) && Enabled(m, e) && !e.ReRegister?
    requires e.t in m.calls ==> PhaseKnown(m.calls[e.t], known)
    requires forall s | s in m.tokens :: (s, m.tokens[s]) in known
    requires forall s | s in m.stored :: (s, m.stored[s]) in known
    requires forall s, ts | Grants(m, e, s, ts) :: (s, ts) in known
    ensures PhaseKnown(PhaseAfter(m, e), known)
  {
    if e.Authorize? { assert Grants(m, e, e.server, e.granted); }
    if e.Exchange? && e.reply.Granted? { assert Grants(m, e, m.calls[e.t].server, PhaseAfter(m, e).renewed); }
  }

  lemma KnownMaps(m: Manager, e: Event, known: Known)
    requires RefsInRange(m) && Enabled(m, e)
    requires !e.ReRegister? && e.t in m.calls ==> PhaseKnown(m.calls[e.t], known)
    requires forall s | s in m.tokens :: (s, m.tokens[s]) in known
    requires forall s | s in m.stored :: (s, m.stored[s]) in known
    requires forall s, ts | Grants(m, e, s, ts) :: (s, ts) in known
    ensures forall s | s in CacheAfter(m, e) :: (s, CacheAfter(m, e)[s]) in known
    ensures forall s | s in StoredAfter(m, e) :: (s, StoredAfter(m, e)[s]) in known
  {
    if e.Authorize? { assert Grants(m, e, e.server, e.granted); }
  }

  lemma StepKnown(m: Manager, e: Event, known: Known)
    requires RefsInRange(m) && Enabled(m, e) && AllKnown(m, known)
    requires forall s, ts | Grants(m, e, s, ts) :: (s, ts) in known
    ensures AllKnown(Apply(m, e), known)
  {
    KnownMaps(m, e, known);
    if !e.ReRegister? { KnownPhase(m, e, known); }
  }

  /** Everything granted in the first `n` steps. */
  ghost function GrantedBefore(ms: seq<Manager>, es: seq<Event>, n: nat): Known
    requires |ms| == |es| + 1 && n <= |es|
  {
    iset s, ts | (exists k :: 0 <= k < n && Grants(ms[k], es[k], s, ts)) :: (s, ts)
  }

  lemma {:induction false} RunKnown(ms: seq<Manager>, es: seq<Event>, n: nat, j: nat)
    requires IsRun(ms, es) && j <= n <= |es|
    ensures AllKnown(ms[j], GrantedBefore(ms, es, n))
    decreases j
  {
    if j == 0 {
    } else {
      RunKnown(ms, es, n, j - 1);
      assert Step(ms[j - 1], es[j - 1], ms[j]);
      StepKnown(ms[j - 1], es[j - 1], GrantedBefore(ms, es, n));
    }
  }

  /** What is cached or stored for a server was granted to that server before, access and refresh token together: tokens
      are never mixed up between servers or between grants, whatever calls overlap and whatever statements fail. */
  lemma HeldWasGranted(ms: seq<Manager>, es: seq<Event>, j: nat, s: Server)
    requires IsRun(ms, es) && j <= |es|
    ensures s in ms[j].tokens ==> exists k :: 0 <= k < j && Grants(ms[k], es[k], s, ms[j].tokens[s])
    ensures s in ms[j].stored ==> exists k :: 0 <= k < j && Grants(ms[k], es[k], s, ms[j].stored[s])
  {
    RunKnown(ms, es, j, j);
  }

  /** And so is what a refresh presents: both halves of it came from one grant to that server. */
  lemma PresentedWasGranted(ms: seq<Manager>, es: seq<Event>, j: nat)
    requires IsRun(ms, es) && j < |es| && es[j].Exchange?
    ensures es[j].t in ms[j].calls && ms[j].calls[es[j].t].Ready?
    ensures exists k :: 0 <= k < j && Grants(ms[k], es[k], ms[j].calls[es[j].t].server, ms[j].calls[es[j].t].held)
  {
    assert Step(ms[j], es[j], ms[j + 1]);
    RunKnown(ms, es, j, j);
    assert PhaseKnown(ms[j].calls[es[j].t], GrantedBefore(ms, es, j));
  }
}
