/** Token refresh with any number of concurrent callers (internal/oauth/oauth.go).

    Each event is one critical section of the manager, one database statement or one exchange with the
    provider. Following section 6 of RFC 6749, a refresh token is discarded once the provider has issued
    a new one in exchange for it. */
module OAuthModel {
  import opened Options

  type Server = string
  type Thread = nat
  type ResultRef = nat

  /** An empty refresh token means that there is none. */
  datatype TokenSet = TokenSet(access: string, refresh: string)

  datatype Outcome = Refreshed | NoRefreshToken | Misconfigured | TokenRejected | ProviderFailed | SaveFailed | ContextEnded

  /** One in-flight refresh that waiters share. */
  datatype RefreshResult = RefreshResult(owner: Thread, server: Server, done: bool, err: Option<Outcome>)

  datatype Reply =
    | Granted(tokens: TokenSet)
    | InvalidGrant
    | NotFound(rediscovered: bool)
    | OtherError

  /** Where a call stands. */
  datatype Phase =
      // refreshToken
    | Waiting(server: Server, rid: ResultRef)
    | Leading(server: Server, rid: ResultRef, snapshot: Option<TokenSet>)
      // the refresh token about to be presented, and the tokens in the configuration that was read
    | Ready(server: Server, rid: ResultRef, held: TokenSet, config: Option<TokenSet>, retried: bool)
    | Moved(server: Server, rid: ResultRef, held: TokenSet, config: Option<TokenSet>)
    | Exchanged(server: Server, rid: ResultRef, renewed: TokenSet)
    | Saved(server: Server, rid: ResultRef, renewed: TokenSet)
    | Clearing(server: Server, rid: ResultRef)
    | Cleared(server: Server, rid: ResultRef)
    | Finishing(server: Server, rid: ResultRef, outcome: Outcome)
    | Unregistered(server: Server, rid: ResultRef, outcome: Outcome)
    | Returned(server: Server, rid: ResultRef, outcome: Outcome)
      // the lazy load of GetAccessToken and GetTokenInfo
    | Missed(server: Server)
    | Loaded(server: Server, found: TokenSet)
      // HandleCallback
    | Authorized(server: Server, granted: TokenSet)
    | Over(server: Server)

  /** Calls that have not got the provider's answer yet. */
  predicate Asks(p: Phase) { p.Leading? || p.Ready? || p.Moved? }

  /** Calls that run `doRefreshToken` or are about to report its result. */
  predicate Leads(p: Phase) {
    Asks(p) || p.Exchanged? || p.Saved? || p.Clearing? || p.Cleared? || p.Finishing?
  }

  datatype Manager = Manager(
    tokens: map<Server, TokenSet>,       // the cache
    refreshing: map<Server, ResultRef>,
    results: seq<RefreshResult>,
    stored: map<Server, TokenSet>,       // tokens in the database
    calls: map<Thread, Phase>,
    home: map<string, Server>,           // every refresh token ever issued, and to whom
    discarded: set<string>)

  const INITIAL: Manager := Manager(map[], map[], [], map[], map[], map[], {})

  datatype Event =
    | Enter(t: Thread, server: Server)
    | GiveUp(t: Thread, why: Outcome)
    | Exchange(t: Thread, reply: Reply)
    | Save(t: Thread, written: bool)
    | CacheRenewed(t: Thread)
    | ReadConfig(t: Thread)
    | RewriteConfig(t: Thread, written: bool) // new endpoints, and with them the tokens as they were read
    | ClearStored(t: Thread, written: bool)
    | ClearCache(t: Thread)
    | Unregister(t: Thread)
    | CloseDone(t: Thread)
    | Wake(t: Thread)
    | StopWaiting(t: Thread)
    | Miss(t: Thread, server: Server)
    | ReadStored(t: Thread)
    | CacheLoaded(t: Thread)
    | Authorize(t: Thread, server: Server, granted: TokenSet)
    | CacheGranted(t: Thread)
    | ReRegister(server: Server)

  predicate RefsInRange(m: Manager) {
    && (forall s | s in m.refreshing :: m.refreshing[s] < |m.results|)
    && (forall t | t in m.calls && HasResult(m.calls[t]) :: m.calls[t].rid < |m.results|)
  }

  predicate HasResult(p: Phase) { Leads(p) || p.Waiting? || p.Unregistered? || p.Returned? }

  /** A provider never hands out a refresh token twice. */
  predicate NewToken(m: Manager, refresh: string) { refresh == "" || refresh !in m.home }

  predicate HasRefreshToken(p: Phase) { p.Leading? && p.snapshot.Some? && p.snapshot.value.refresh != "" }

  predicate Enabled(m: Manager, e: Event)
    requires RefsInRange(m)
  {
    match e
    case Enter(t, _) => t !in m.calls
    case GiveUp(t, why) =>
      t in m.calls && m.calls[t].Leading?
      && if HasRefreshToken(m.calls[t]) then why.Misconfigured? else why.NoRefreshToken?
    case ReadConfig(t) => t in m.calls && HasRefreshToken(m.calls[t])
    case Exchange(t, reply) =>
      t in m.calls && m.calls[t].Ready? && (reply.Granted? ==> NewToken(m, reply.tokens.refresh))
    case RewriteConfig(t, _) => t in m.calls && m.calls[t].Moved?
    case Save(t, _) => t in m.calls && m.calls[t].Exchanged?
    case CacheRenewed(t) => t in m.calls && m.calls[t].Saved?
    case ClearStored(t, _) => t in m.calls && m.calls[t].Clearing?
    case ClearCache(t) => t in m.calls && m.calls[t].Cleared?
    case Unregister(t) => t in m.calls && m.calls[t].Finishing?
    case CloseDone(t) => t in m.calls && m.calls[t].Unregistered?
    case Wake(t) => t in m.calls && m.calls[t].Waiting? && m.results[m.calls[t].rid].done && m.results[m.calls[t].rid].err.Some?
    case StopWaiting(t) => t in m.calls && m.calls[t].Waiting?
    case Miss(t, s) => t !in m.calls && s !in m.tokens
    case ReadStored(t) => t in m.calls && m.calls[t].Missed?
    case CacheLoaded(t) => t in m.calls && m.calls[t].Loaded?
    case Authorize(t, _, granted) => t !in m.calls && NewToken(m, granted.refresh)
    case CacheGranted(t) => t in m.calls && m.calls[t].Authorized?
    case ReRegister(_) => true
  }

  /** Events that leave results and registrations alone and move one call on. */
  predicate MovesOn(e: Event) { !e.Enter? && !e.Unregister? && !e.CloseDone? && !e.ReRegister? }

  /** Where the acting call goes. */
  function PhaseAfter(m: Manager, e: Event): Phase
    requires RefsInRange(m) && Enabled(m, e) && !e.ReRegister?
  {
    match e
    case Enter(_, s) =>
      if s in m.refreshing then Waiting(s, m.refreshing[s])
      else Leading(s, |m.results|, if s in m.tokens then Some(m.tokens[s]) else None)
    case ReadConfig(t) =>
      var p := m.calls[t];
      Ready(p.server, p.rid, p.snapshot.value, if p.server in m.stored then Some(m.stored[p.server]) else None, false)
    case RewriteConfig(t, _) => Ready(m.calls[t].server, m.calls[t].rid, m.calls[t].held, m.calls[t].config, true)
    case Unregister(t) => Unregistered(m.calls[t].server, m.calls[t].rid, m.calls[t].outcome)
    case CloseDone(t) => Returned(m.calls[t].server, m.calls[t].rid, m.calls[t].outcome)
    case GiveUp(t, why) => Finishing(m.calls[t].server, m.calls[t].rid, why)
    case Exchange(t, reply) =>
      var p := m.calls[t];
      (match reply
       case Granted(ts) =>
         // a provider that sends no new refresh token leaves the old one in force
         Exchanged(p.server, p.rid, if ts.refresh == "" then ts.(refresh := p.held.refresh) else ts)
       case InvalidGrant => Clearing(p.server, p.rid)
       case NotFound(rediscovered) =>
         if rediscovered && !p.retried then Moved(p.server, p.rid, p.held, p.config) else Finishing(p.server, p.rid, ProviderFailed)
       case OtherError => Finishing(p.server, p.rid, ProviderFailed))
    case Save(t, written) =>
      var p := m.calls[t];
      if written then Saved(p.server, p.rid, p.renewed) else Finishing(p.server, p.rid, SaveFailed)
    case CacheRenewed(t) => Finishing(m.calls[t].server, m.calls[t].rid, Refreshed)
    case ClearStored(t, _) => Cleared(m.calls[t].server, m.calls[t].rid)
    case ClearCache(t) => Finishing(m.calls[t].server, m.calls[t].rid, TokenRejected)
    case Wake(t) => Returned(m.calls[t].server, m.calls[t].rid, m.results[m.calls[t].rid].err.value)
    case StopWaiting(t) => Returned(m.calls[t].server, m.calls[t].rid, ContextEnded)
    case Miss(_, s) => Missed(s)
    case ReadStored(t) =>
      var s := m.calls[t].server;
      if s in m.stored then Loaded(s, m.stored[s]) else Over(s)
    case CacheLoaded(t) => Over(m.calls[t].server)
    case Authorize(_, s, granted) => Authorized(s, granted)
    case CacheGranted(t) => Over(m.calls[t].server)
  }

  /** The cache afterwards. */
  function CacheAfter(m: Manager, e: Event): map<Server, TokenSet>
    requires RefsInRange(m) && Enabled(m, e)
  {
    match e
    case CacheRenewed(t) => m.tokens[m.calls[t].server := m.calls[t].renewed]
    case CacheLoaded(t) => m.tokens[m.calls[t].server := m.calls[t].found]
    case CacheGranted(t) => m.tokens[m.calls[t].server := m.calls[t].granted]
    case ClearCache(t) => m.tokens - {m.calls[t].server}
    case ReRegister(s) => m.tokens - {s}
    case _ => m.tokens
  }

  /** The database afterwards. */
  function StoredAfter(m: Manager, e: Event): map<Server, TokenSet>
    requires RefsInRange(m) && Enabled(m, e)
  {
    match e
    case Save(t, true) => m.stored[m.calls[t].server := m.calls[t].renewed]
    case RewriteConfig(t, true) =>
      var p := m.calls[t];
      if p.config.Some? then m.stored[p.server := p.config.value] else m.stored - {p.server}
    case ClearStored(t, true) => m.stored - {m.calls[t].server}
    case Authorize(_, s, granted) => m.stored[s := granted]
    case ReRegister(s) => m.stored - {s}
    case _ => m.stored
  }

  /** Does this exchange replace the refresh token? */
  predicate Rotates(e: Event) { e.Exchange? && e.reply.Granted? && e.reply.tokens.refresh != "" }

  function HomeAfter(m: Manager, e: Event): map<string, Server>
    requires RefsInRange(m) && Enabled(m, e)
  {
    if Rotates(e) then m.home[e.reply.tokens.refresh := m.calls[e.t].server]
    else if e.Authorize? && e.granted.refresh != "" then m.home[e.granted.refresh := e.server]
    else m.home
  }

  function DiscardedAfter(m: Manager, e: Event): set<string>
    requires RefsInRange(m) && Enabled(m, e)
  {
    if Rotates(e) then m.discarded + {m.calls[e.t].held.refresh} else m.discarded
  }

  function ResultsAfter(m: Manager, e: Event): seq<RefreshResult>
    requires RefsInRange(m) && Enabled(m, e)
  {
    match e
    case Enter(t, s) => if s in m.refreshing then m.results else m.results + [RefreshResult(t, s, false, None)]
    case Unregister(t) => m.results[m.calls[t].rid := m.results[m.calls[t].rid].(err := Some(m.calls[t].outcome))]
    case CloseDone(t) => m.results[m.calls[t].rid := m.results[m.calls[t].rid].(done := true)]
    case _ => m.results
  }

  function RefreshingAfter(m: Manager, e: Event): map<Server, ResultRef>
    requires RefsInRange(m) && Enabled(m, e)
  {
    match e
    case Enter(_, s) => if s in m.refreshing then m.refreshing else m.refreshing[s := |m.results|]
    case Unregister(t) => m.refreshing - {m.calls[t].server}
    case _ => m.refreshing
  }

  function Apply(m: Manager, e: Event): (m': Manager)
    requires RefsInRange(m) && Enabled(m, e)
  {
    Manager(CacheAfter(m, e), RefreshingAfter(m, e), ResultsAfter(m, e), StoredAfter(m, e),
            if e.ReRegister? then m.calls else m.calls[e.t := PhaseAfter(m, e)],
            HomeAfter(m, e), DiscardedAfter(m, e))
  }

  ghost predicate Step(m: Manager, e: Event, m': Manager) {
    RefsInRange(m) && Enabled(m, e) && m' == Apply(m, e)
  }

  ghost predicate IsRun(ms: seq<Manager>, es: seq<Event>) {
    && |ms| == |es| + 1
    && ms[0] == INITIAL
    && forall i {:trigger es[i]} | 0 <= i < |es| :: Step(ms[i], es[i], ms[i + 1])
  }

  lemma RunExtends(ms: seq<Manager>, es: seq<Event>, e: Event, m': Manager)
    requires IsRun(ms, es) && Step(ms[|es|], e, m')
    ensures IsRun(ms + [m'], es + [e])
  {
    var ms', es' := ms + [m'], es + [e];
    forall i | 0 <= i < |es'| ensures Step(ms'[i], es'[i], ms'[i + 1]) {
      assert i < |es| ==> Step(ms[i], es[i], ms[i + 1]);
    }
  }
}

/** One refresh at a time per server, and one result for everybody who waited for it. */
module OAuthSingleFlight {
  import opened Options
  import opened OAuthModel

  /** A call that leads is registered, and owns its result. */
  ghost predicate LeaderInv(m: Manager, t: Thread)
    requires RefsInRange(m) && t in m.calls
  {
    var p := m.calls[t];
    && (HasResult(p) ==> m.results[p.rid].server == p.server)
    && (Leads(p) ==> p.server in m.refreshing && m.refreshing[p.server] == p.rid
                     && m.results[p.rid].owner == t && m.results[p.rid].err.None? && !m.results[p.rid].done)
    && (p.Unregistered? ==> m.results[p.rid].owner == t && m.results[p.rid].err == Some(p.outcome) && !m.results[p.rid].done)
    && (p.Returned? && !p.outcome.ContextEnded? ==> m.results[p.rid].done && m.results[p.rid].err == Some(p.outcome))
    && (Leads(p) && p.Finishing? ==> !p.outcome.ContextEnded?)
  }

  ghost predicate Inv(m: Manager) {
    && RefsInRange(m)
    && (forall t | t in m.calls :: LeaderInv(m, t))
    && (forall s | s in m.refreshing ::
          var r := m.results[m.refreshing[s]];
          r.server == s && r.owner in m.calls && Leads(m.calls[r.owner]) && m.calls[r.owner].rid == m.refreshing[s])
  }
  /** A call moves on while results and registrations stay. */
  lemma MoveKeepsInv(m: Manager, m': Manager, t: Thread, p: Phase)
    requires Inv(m) && m'.results == m.results && m'.refreshing == m.refreshing && m'.calls == m.calls[t := p]
    requires t in m.calls && Leads(m.calls[t]) ==> Leads(p) && p.rid == m.calls[t].rid
    requires HasResult(p) ==> p.rid < |m.results|
    requires RefsInRange(m') ==> LeaderInv(m', t)
    ensures Inv(m')
  {
    assert RefsInRange(m');
    forall u | u in m'.calls ensures LeaderInv(m', u) {
      if u != t { assert LeaderInv(m, u); }
    }
  }

  lemma PhaseMoves(m: Manager, e: Event)
    requires RefsInRange(m) && Enabled(m, e) && MovesOn(e)
    requires e.t in m.calls ==> LeaderInv(m, e.t)
    ensures var p := PhaseAfter(m, e);
      && (e.t in m.calls && Leads(m.calls[e.t]) ==>
            Leads(p) && p.rid == m.calls[e.t].rid && p.server == m.calls[e.t].server && (p.Finishing? ==> !p.outcome.ContextEnded?))
      && (!(e.t in m.calls && Leads(m.calls[e.t])) ==> !Leads(p) && !p.Unregistered? && !p.Waiting?)
      && (p.Returned? ==> p.rid < |m.results| && m.results[p.rid].server == p.server
                          && (p.outcome.ContextEnded? || (m.results[p.rid].done && m.results[p.rid].err == Some(p.outcome))))
  {
  }

  lemma MovingKeepsInv(m: Manager, e: Event)
    requires Inv(m) && Enabled(m, e) && MovesOn(e)
    ensures Inv(Apply(m, e))
  {
    PhaseMoves(m, e);
    MoveKeepsInv(m, Apply(m, e), e.t, PhaseAfter(m, e));
  }

  lemma ReRegisterKeepsInv(m: Manager, s: Server)
    requires Inv(m)
    ensures Inv(Apply(m, ReRegister(s)))
  {
    var m' := Apply(m, ReRegister(s));
    forall t | t in m'.calls ensures LeaderInv(m', t) { assert LeaderInv(m, t); }
  }

  lemma OthersKeepLeaderInv(m: Manager, e: Event, u: Thread)
    requires RefsInRange(m) && Enabled(m, e) && (e.Enter? || e.Unregister?) && RefsInRange(Apply(m, e))
    requires u in m.calls && u != e.t && LeaderInv(m, u)
    requires e.Unregister? ==> LeaderInv(m, e.t)
    ensures LeaderInv(Apply(m, e), u)
  {
  }

  lemma EnterKeepsInv(m: Manager, t: Thread, s: Server)
    requires Inv(m) && Enabled(m, Enter(t, s))
    ensures Inv(Apply(m, Enter(t, s)))
  {
    var m' := Apply(m, Enter(t, s));
    if s in m.refreshing {
      MoveKeepsInv(m, m', t, m'.calls[t]);
    } else {
      assert RefsInRange(m');
      forall u | u in m'.calls ensures LeaderInv(m', u) {
        if u != t { OthersKeepLeaderInv(m, Enter(t, s), u); }
      }
    }
  }

  lemma UnregisterKeepsInv(m: Manager, t: Thread)
    requires Inv(m) && Enabled(m, Unregister(t))
    ensures Inv(Apply(m, Unregister(t)))
  {
    var m' := Apply(m, Unregister(t));
    assert LeaderInv(m, t);
    assert RefsInRange(m');
    forall u | u in m'.calls ensures LeaderInv(m', u) {
      if u != t { OthersKeepLeaderInv(m, Unregister(t), u); }
    }
  }

  lemma CloseDoneKeepsInv(m: Manager, t: Thread)
    requires Inv(m) && Enabled(m, CloseDone(t))
    ensures Inv(Apply(m, CloseDone(t)))
  {
  }

  lemma StepKeepsInv(m: Manager, e: Event)
    requires Inv(m) && Enabled(m, e)
    ensures Inv(Apply(m, e))
  {
    match e
    case Enter(t, s) => EnterKeepsInv(m, t, s);
    case Unregister(t) => UnregisterKeepsInv(m, t);
    case CloseDone(t) => CloseDoneKeepsInv(m, t);
    case ReRegister(s) => ReRegisterKeepsInv(m, s);
    case _ => MovingKeepsInv(m, e);
  }

  lemma {:induction false} ReachableInv(ms: seq<Manager>, es: seq<Event>, i: nat)
    requires IsRun(ms, es) && i < |ms|
    ensures Inv(ms[i])
  {
    if i == 0 {
    } else {
      ReachableInv(ms, es, i - 1);
      StepKeepsInv(ms[i - 1], es[i - 1]);
    }
  }

  /** Single flight: in every reachable state a server has at most one call that leads a refresh, and
      the server is registered as refreshing exactly while it has one. */
  lemma SingleFlight(ms: seq<Manager>, es: seq<Event>, i: nat, s: Server)
    requires IsRun(ms, es) && i < |ms|
    ensures forall t, u | t in ms[i].calls && u in ms[i].calls && Leads(ms[i].calls[t]) && Leads(ms[i].calls[u])
                          && ms[i].calls[t].server == s == ms[i].calls[u].server :: t == u
    ensures s in ms[i].refreshing <==> exists t :: t in ms[i].calls && Leads(ms[i].calls[t]) && ms[i].calls[t].server == s
  {
    ReachableInv(ms, es, i);
    var m := ms[i];
    forall t, u | t in m.calls && u in m.calls && Leads(m.calls[t]) && Leads(m.calls[u])
                  && m.calls[t].server == s == m.calls[u].server
      ensures t == u
    {
      assert LeaderInv(m, t) && LeaderInv(m, u);
    }
  }

  /** The leader of a finished refresh has returned its outcome. */
  ghost predicate OwnerReturned(m: Manager, r: ResultRef)
    requires r < |m.results|
  {
    var x := m.results[r];
    x.done ==> x.err.Some? && x.owner in m.calls && m.calls[x.owner] == Returned(x.server, r, x.err.value)
  }

  lemma StepKeepsReturned(m: Manager, e: Event, r: ResultRef)
    requires Inv(m) && Enabled(m, e) && r < |m.results| && OwnerReturned(m, r)
    ensures r < |Apply(m, e).results| && OwnerReturned(Apply(m, e), r)
  {
    if e.Unregister? || e.CloseDone? { assert LeaderInv(m, e.t); }
  }

  lemma {:induction false} LeaderReturned(ms: seq<Manager>, es: seq<Event>, i: nat, r: ResultRef)
    requires IsRun(ms, es) && i < |ms| && r < |ms[i].results|
    ensures OwnerReturned(ms[i], r)
  {
    assert i > 0;
    ReachableInv(ms, es, i - 1);
    assert Step(ms[i - 1], es[i - 1], ms[i]);
    if r < |ms[i - 1].results| {
      LeaderReturned(ms, es, i - 1, r);
      StepKeepsReturned(ms[i - 1], es[i - 1], r);
    }
  }

  /** Everybody who shared a refresh and did not give up returns the outcome that its leader returned. */
  lemma SharedOutcome(ms: seq<Manager>, es: seq<Event>, i: nat, t: Thread)
    requires IsRun(ms, es) && i < |ms| && t in ms[i].calls
    requires ms[i].calls[t].Returned? && !ms[i].calls[t].outcome.ContextEnded?
    ensures var p := ms[i].calls[t];
      && p.rid < |ms[i].results| && ms[i].results[p.rid].owner in ms[i].calls
      && ms[i].calls[ms[i].results[p.rid].owner] == p
  {
    ReachableInv(ms, es, i);
    assert LeaderInv(ms[i], t);
    LeaderReturned(ms, es, i, ms[i].calls[t].rid);
  }

  lemma StepKeepsOutcome(m: Manager, e: Event, r: ResultRef)
    requires Inv(m) && Enabled(m, e) && r < |m.results| && m.results[r].err.Some?
    ensures r < |Apply(m, e).results| && Apply(m, e).results[r].err == m.results[r].err
  {
    if e.Unregister? { assert LeaderInv(m, e.t); }
  }

  /** The outcome of a refresh is fixed when its leader reports it. */
  lemma {:induction false} OutcomeIsFinal(ms: seq<Manager>, es: seq<Event>, i: nat, j: nat, r: ResultRef)
    requires IsRun(ms, es) && i <= j < |ms| && r < |ms[i].results| && ms[i].results[r].err.Some?
    ensures r < |ms[j].results| && ms[j].results[r].err == ms[i].results[r].err
  {
    if i == j {
    } else {
      OutcomeIsFinal(ms, es, i, j - 1, r);
      ReachableInv(ms, es, j - 1);
      StepKeepsOutcome(ms[j - 1], es[j - 1], r);
    }
  }
}
