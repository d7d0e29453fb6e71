/** The manager object with its calls: `refreshToken` and `GetAccessToken`, step by step, while other calls do
    whatever they may between any two steps. The ghost log makes every theorem about runs a theorem about this
    object. */
module OAuthManager {
  import opened Options
  import opened OAuthModel
  import OAuthSingleFlight
  import opened OAuthAfterRefresh

  /** What happens around one call of `refreshToken`: the steps of others before each of its own, the provider's
      answers, and which statements succeed. */
  datatype Surroundings = Surroundings(
    configured: bool, reply: Reply, rewrites: bool, second: Reply, saves: bool, clears: bool, cancelled: bool,
    others: seq<seq<Event>>)

  function Gap(w: Surroundings, i: nat): seq<Event> {
    if i < |w.others| then w.others[i] else []
  }

  /** The answer that decides the refresh: the second one if the first led to a new endpoint. */
  function Deciding(w: Surroundings): Reply {
    if w.reply == NotFound(true) then w.second else w.reply
  }

  /** A granted answer brings a new access token, and a new refresh token unless it has none. */
  function Renewed(held: TokenSet, granted: TokenSet): TokenSet {
    TokenSet(granted.access, if granted.refresh == "" then held.refresh else granted.refresh)
  }

  /** Where an answer leads. */
  predicate LeadsTo(reply: Reply, p: Phase, s: Server, rid: ResultRef, held: TokenSet) {
    match reply
    case Granted(ts) => p == Exchanged(s, rid, Renewed(held, ts))
    case InvalidGrant => p == Clearing(s, rid)
    case NotFound(_) => p == Finishing(s, rid, ProviderFailed)
    case OtherError => p == Finishing(s, rid, ProviderFailed)
  }

  /** The answer received; a refresh token handed out twice, which no provider does, counts as an error. */
  predicate Received(reply: Reply, answer: Reply, home: map<string, Server>) {
    reply == answer || (Repeats(answer, home) && reply.OtherError?)
  }

  predicate Repeats(answer: Reply, home: map<string, Server>) {
    answer.Granted? && answer.tokens.refresh != "" && answer.tokens.refresh in home
  }

  /** What `GetAccessToken` comes to; reading the cache again after a refresh may find nothing there. */
  datatype Access = Token(access: string) | NoTokens | RefreshFailed(why: Outcome) | NilPointer

  function PutBack(stored: map<Server, TokenSet>, s: Server, config: Option<TokenSet>): map<Server, TokenSet> {
    if config.Some? then stored[s := config.value] else stored - {s}
  }

  lemma PutBackExactly(stored: map<Server, TokenSet>, s: Server, config: Option<TokenSet>)
    ensures var now := PutBack(stored, s, config);
      (if s in now then Some(now[s]) else None) == config && now - {s} == stored - {s}
  {
  }

  predicate By(e: Event, mine: set<Thread>) {
    !e.ReRegister? && e.t in mine
  }

  function Exchanges(es: seq<Event>, t: Thread): nat {
    if es == [] then 0
    else Exchanges(es[..|es| - 1], t) + if es[|es| - 1].Exchange? && es[|es| - 1].t == t then 1 else 0
  }

  lemma ExchangesNext(es: seq<Event>, e: Event, t: Thread)
    ensures Exchanges(es + [e], t) == Exchanges(es, t) + if e.Exchange? && e.t == t then 1 else 0
  {
    assert (es + [e])[..|es|] == es;
  }

  class Manager {
    var tokens: map<Server, TokenSet>
    var refreshing: map<Server, ResultRef>
    var results: seq<RefreshResult> // the refreshResult objects made so far
    var stored: map<Server, TokenSet> // the database
    var calls: map<Thread, Phase> // where each call stands
    var home: map<string, Server> // the provider's record of refresh tokens
    var discarded: set<string>

    ghost var states: seq<OAuthModel.Manager>
    ghost var log: seq<Event>

    function Value(): OAuthModel.Manager
      reads this
    {
      OAuthModel.Manager(tokens, refreshing, results, stored, calls, home, discarded)
    }

    ghost predicate Valid()
      reads this
    {
      IsRun(states, log) && states[|log|] == Value() && RefsInRange(Value())
    }

    constructor ()
      ensures Valid() && Value() == INITIAL && log == []
    {
      tokens, refreshing, results, stored, calls, home, discarded := map[], map[], [], map[], map[], map[], {};
      states, log := [INITIAL], [];
    }

    ghost method Note(e: Event)
      requires IsRun(states, log) && RefsInRange(states[|log|]) && Enabled(states[|log|], e)
      requires Value() == Apply(states[|log|], e)
      modifies `states, `log
      ensures Valid() && log == old(log) + [e]
      ensures forall t :: Exchanges(log, t) == Exchanges(old(log), t) + if e.Exchange? && e.t == t then 1 else 0
    {
      forall t ensures Exchanges(log + [e], t) == Exchanges(log, t) + if e.Exchange? && e.t == t then 1 else 0 {
        ExchangesNext(log, e, t);
      }
      RunExtends(states, log, e, Value());
      states, log := states + [Value()], log + [e];
      OAuthSingleFlight.ReachableInv(states, log, |log|);
    }

    /** What other calls leave alone. */
    twostate predicate Untouched(mine: set<Thread>)
      reads this
    {
      old(home).Keys <= home.Keys && forall t | t in mine ::
        && Exchanges(log, t) == Exchanges(old(log), t)
        && (t in calls <==> t in old(calls)) && (t in calls && t in old(calls) ==> calls[t] == old(calls)[t])
    }

    /** A step of another call, or a re-registration, if it is possible now. */
    method Perform(e: Event, mine: set<Thread>)
      requires Valid()
      modifies this
      ensures Valid() && Untouched(mine)
    {
      if By(e, mine) || !Enabled(Value(), e) { return; }
      var m := Apply(Value(), e);
      tokens, refreshing, results, stored := m.tokens, m.refreshing, m.results, m.stored;
      calls, home, discarded := m.calls, m.home, m.discarded;
      Note(e);
    }

    method PerformAll(es: seq<Event>, mine: set<Thread>)
      requires Valid()
      modifies this
      ensures Valid() && Untouched(mine)
      ensures es == [] ==> Value() == old(Value())
    {
      for i := 0 to |es|
        invariant Valid() && Untouched(mine)
        invariant i == 0 ==> Value() == old(Value())
      {
        Perform(es[i], mine);
      }
    }

    // -------------------------------------------------------------- refreshToken

    /** The first critical section: join the refresh in flight, or lead a new one. */
    method BeginRefresh(t: Thread, s: Server) returns (leads: bool, rid: ResultRef, snapshot: Option<TokenSet>)
      requires Valid() && t !in calls
      modifies this
      ensures Valid() && t in calls && Exchanges(log, t) == Exchanges(old(log), t)
      ensures leads == (s !in old(refreshing))
      ensures calls[t] == if leads then Leading(s, rid, snapshot) else Waiting(s, rid)
      ensures leads ==> snapshot == if s in old(tokens) then Some(old(tokens)[s]) else None
    {
      if s in refreshing {
        leads, rid, snapshot := false, refreshing[s], None;
        calls := calls[t := Waiting(s, rid)];
      } else {
        leads, rid := true, |results|;
        results := results + [RefreshResult(t, s, false, None)];
        refreshing := refreshing[s := rid];
        snapshot := if s in tokens then Some(tokens[s]) else None;
        calls := calls[t := Leading(s, rid, snapshot)];
      }
      Note(Enter(t, s));
    }

    /** The wait for somebody else's refresh: its outcome once it is published, or the end of the context. */
    method Await(t: Thread, s: Server, rid: ResultRef, cancelled: bool) returns (err: Outcome)
      requires Valid() && t in calls && calls[t] == Waiting(s, rid)
      modifies this
      ensures Valid() && t in calls && calls[t] == Returned(s, rid, err) && Exchanges(log, t) == Exchanges(old(log), t)
      ensures results == old(results) && rid < |results|
      ensures err.ContextEnded? || (results[rid].done && results[rid].err == Some(err))
    {
      if !cancelled && results[rid].done && results[rid].err.Some? {
        err := results[rid].err.value;
        calls := calls[t := Returned(s, rid, err)];
        Note(Wake(t));
      } else {
        err := ContextEnded;
        calls := calls[t := Returned(s, rid, err)];
        Note(StopWaiting(t));
      }
    }

    /** Reads the configuration of the server, and the stored tokens with it. */
    method ReadConfiguration(t: Thread, s: Server, rid: ResultRef, held: TokenSet) returns (config: Option<TokenSet>)
      requires Valid() && t in calls && calls[t] == Leading(s, rid, Some(held)) && held.refresh != ""
      modifies this
      ensures Valid() && t in calls && calls[t] == Ready(s, rid, held, config, false) && Exchanges(log, t) == Exchanges(old(log), t)
      ensures config == (if s in stored then Some(stored[s]) else None) && stored == old(stored) && tokens == old(tokens)
    {
      config := if s in stored then Some(stored[s]) else None;
      calls := calls[t := Ready(s, rid, held, config, false)];
      Note(ReadConfig(t));
    }

    /** One request to the provider with the refresh token the call holds. */
    method Ask(t: Thread, s: Server, rid: ResultRef, held: TokenSet, config: Option<TokenSet>, retried: bool, answer: Reply)
      returns (reply: Reply)
      requires Valid() && t in calls && calls[t] == Ready(s, rid, held, config, retried)
      modifies this
      ensures Valid() && t in calls && Exchanges(log, t) == Exchanges(old(log), t) + 1
      ensures Received(reply, answer, home) && old(home).Keys <= home.Keys
      ensures if reply == NotFound(true) && !retried then calls[t] == Moved(s, rid, held, config) else LeadsTo(reply, calls[t], s, rid, held)
    {
      // a provider never hands out a refresh token twice
      reply := if answer.Granted? && !NewToken(Value(), answer.tokens.refresh) then OtherError else answer;
      match reply {
        case Granted(ts) =>
          var renewed := if ts.refresh == "" then ts.(refresh := held.refresh) else ts;
          calls := calls[t := Exchanged(s, rid, renewed)];
          if ts.refresh != "" {
            home := home[ts.refresh := s];
            discarded := discarded + {held.refresh};
          }
        case InvalidGrant => calls := calls[t := Clearing(s, rid)];
        case NotFound(rediscovered) =>
          calls := calls[t := if rediscovered && !retried then Moved(s, rid, held, config) else Finishing(s, rid, ProviderFailed)];
        case OtherError => calls := calls[t := Finishing(s, rid, ProviderFailed)];
      }
      Note(Exchange(t, reply));
    }

    /** Stores the configuration with the new endpoints. The tokens in it are those read at the start, and they
        replace whatever has been stored since; a write that fails changes nothing. */
    method RewriteConfiguration(t: Thread, s: Server, rid: ResultRef, held: TokenSet, config: Option<TokenSet>, written: bool)
      requires Valid() && t in calls && calls[t] == Moved(s, rid, held, config)
      modifies this
      ensures Valid() && t in calls && calls[t] == Ready(s, rid, held, config, true) && Exchanges(log, t) == Exchanges(old(log), t)
      ensures written ==> (if s in stored then Some(stored[s]) else None) == config && stored - {s} == old(stored) - {s}
      ensures tokens == old(tokens) && (!written ==> stored == old(stored))
    {
      PutBackExactly(stored, s, config);
      if written { stored := PutBack(stored, s, config); }
      calls := calls[t := Ready(s, rid, held, config, true)];
      Note(RewriteConfig(t, written));
    }

    /** The call ends without tokens; nothing else changes. */
    method GiveUpWith(t: Thread, s: Server, rid: ResultRef, snapshot: Option<TokenSet>, why: Outcome)
      requires Valid() && t in calls && calls[t] == Leading(s, rid, snapshot)
      requires if HasRefreshToken(calls[t]) then why.Misconfigured? else why.NoRefreshToken?
      modifies this
      ensures Valid() && t in calls && calls[t] == Finishing(s, rid, why) && Exchanges(log, t) == Exchanges(old(log), t)
    {
      calls := calls[t := Finishing(s, rid, why)];
      Note(GiveUp(t, why));
    }

    /** Saves the renewed tokens and then caches them; a failed save leaves the cache alone. */
    method SaveAndCache(t: Thread, s: Server, rid: ResultRef, renewed: TokenSet, saves: bool, gap: seq<Event>) returns (err: Outcome)
      requires Valid() && t in calls && calls[t] == Exchanged(s, rid, renewed)
      modifies this
      ensures Valid() && t in calls && calls[t] == Finishing(s, rid, err) && Exchanges(log, t) == Exchanges(old(log), t)
      ensures err == if saves then Refreshed else SaveFailed
      ensures if saves then s in tokens && tokens[s] == renewed else tokens == old(tokens) && stored == old(stored)
      ensures saves && gap == [] ==> stored == old(stored)[s := renewed] && tokens == old(tokens)[s := renewed]
    {
      if !saves {
        calls := calls[t := Finishing(s, rid, SaveFailed)];
        Note(Save(t, false));
        return SaveFailed;
      }
      stored := stored[s := renewed];
      calls := calls[t := Saved(s, rid, renewed)];
      Note(Save(t, true));
      PerformAll(gap, {t});
      CacheSaved(t, s, rid, renewed);
      err := Refreshed;
    }

    method CacheSaved(t: Thread, s: Server, rid: ResultRef, renewed: TokenSet)
      requires Valid() && t in calls && calls[t] == Saved(s, rid, renewed)
      modifies this
      ensures Valid() && t in calls && calls[t] == Finishing(s, rid, Refreshed) && Exchanges(log, t) == Exchanges(old(log), t)
      ensures tokens == old(tokens)[s := renewed] && stored == old(stored)
    {
      tokens := tokens[s := renewed];
      calls := calls[t := Finishing(s, rid, Refreshed)];
      Note(CacheRenewed(t));
    }

    /** The database part of `clearTokens`. */
    method ClearDatabase(t: Thread, s: Server, rid: ResultRef, written: bool)
      requires Valid() && t in calls && calls[t] == Clearing(s, rid)
      modifies this
      ensures Valid() && t in calls && calls[t] == Cleared(s, rid) && Exchanges(log, t) == Exchanges(old(log), t)
      ensures tokens == old(tokens) && stored == if written then old(stored) - {s} else old(stored)
    {
      if written { stored := stored - {s}; }
      calls := calls[t := Cleared(s, rid)];
      Note(ClearStored(t, written));
    }

    /** The cache part of `clearTokens`. */
    method ClearCached(t: Thread, s: Server, rid: ResultRef)
      requires Valid() && t in calls && calls[t] == Cleared(s, rid)
      modifies this
      ensures Valid() && t in calls && calls[t] == Finishing(s, rid, TokenRejected) && Exchanges(log, t) == Exchanges(old(log), t)
      ensures tokens == old(tokens) - {s} && stored == old(stored)
    {
      tokens := tokens - {s};
      calls := calls[t := Finishing(s, rid, TokenRejected)];
      Note(ClearCache(t));
    }

    /** Drops tokens whose refresh token the provider refused, from the database and then from the cache. The cache
        is empty at the end, whatever the database did and whatever others did in between. */
    method Clear(t: Thread, s: Server, rid: ResultRef, clears: bool, gap: seq<Event>)
      requires Valid() && t in calls && calls[t] == Clearing(s, rid)
      modifies this
      ensures Valid() && t in calls && calls[t] == Finishing(s, rid, TokenRejected) && Exchanges(log, t) == Exchanges(old(log), t)
      ensures s !in tokens
      ensures gap == [] ==> tokens == old(tokens) - {s} && stored == if clears then old(stored) - {s} else old(stored)
    {
      ClearDatabase(t, s, rid, clears);
      PerformAll(gap, {t});
      ClearCached(t, s, rid);
    }

    /** The requests to the provider: at most two, the second only after the endpoint had moved. */
    method AskProvider(t: Thread, s: Server, rid: ResultRef, held: TokenSet, w: Surroundings) returns (reply: Reply)
      requires Valid() && t in calls && calls[t] == Leading(s, rid, Some(held)) && held.refresh != ""
      modifies this
      ensures Valid() && t in calls
      ensures Received(reply, Deciding(w), home) && LeadsTo(reply, calls[t], s, rid, held)
      ensures Exchanges(old(log), t) < Exchanges(log, t) <= Exchanges(old(log), t) + 2
    {
      var config;
      reply, config := AskFirst(t, s, rid, held, w);
      if reply == NotFound(true) { reply := AskAgain(t, s, rid, held, config, w); }
      PerformAll(Gap(w, 4), {t});
    }

    /** The first request, with the configuration as it was read. */
    method AskFirst(t: Thread, s: Server, rid: ResultRef, held: TokenSet, w: Surroundings)
      returns (reply: Reply, config: Option<TokenSet>)
      requires Valid() && t in calls && calls[t] == Leading(s, rid, Some(held)) && held.refresh != ""
      modifies this
      ensures Valid() && t in calls && Exchanges(log, t) == Exchanges(old(log), t) + 1
      ensures Received(reply, w.reply, home)
      ensures if reply == NotFound(true) then calls[t] == Moved(s, rid, held, config) else LeadsTo(reply, calls[t], s, rid, held)
    {
      PerformAll(Gap(w, 0), {t});
      config := ReadConfiguration(t, s, rid, held);
      PerformAll(Gap(w, 1), {t});
      reply := Ask(t, s, rid, held, config, false, w.reply);
    }

    /** The second request, after the new endpoint was stored. */
    method AskAgain(t: Thread, s: Server, rid: ResultRef, held: TokenSet, config: Option<TokenSet>, w: Surroundings)
      returns (reply: Reply)
      requires Valid() && t in calls && calls[t] == Moved(s, rid, held, config)
      modifies this
      ensures Valid() && t in calls && Exchanges(log, t) == Exchanges(old(log), t) + 1
      ensures Received(reply, w.second, home) && LeadsTo(reply, calls[t], s, rid, held)
    {
      PerformAll(Gap(w, 2), {t});
      RewriteConfiguration(t, s, rid, held, config, w.rewrites);
      PerformAll(Gap(w, 3), {t});
      reply := Ask(t, s, rid, held, config, true, w.second);
    }

    /** `doRefreshToken`. */
    method DoRefresh(t: Thread, s: Server, rid: ResultRef, snapshot: Option<TokenSet>, w: Surroundings) returns (err: Outcome)
      requires Valid() && t in calls && calls[t] == Leading(s, rid, snapshot)
      modifies this
      ensures Valid() && t in calls && calls[t] == Finishing(s, rid, err)
      ensures Exchanges(log, t) <= Exchanges(old(log), t) + 2
      ensures err.NoRefreshToken? <==> snapshot.None? || snapshot.value.refresh == ""
      ensures err.Refreshed? ==> w.saves && Exchanges(old(log), t) < Exchanges(log, t)
      ensures err.Refreshed? ==> Deciding(w).Granted? && s in tokens && tokens[s] == Renewed(snapshot.value, Deciding(w).tokens)
      ensures err.SaveFailed? ==> Deciding(w).Granted? && !w.saves
      ensures !err.NoRefreshToken? && w.configured && Deciding(w).Granted? && !Repeats(Deciding(w), home) ==>
                err == if w.saves then Refreshed else SaveFailed
      ensures err.Misconfigured? <==> !err.NoRefreshToken? && !w.configured
      ensures err.TokenRejected? <==> !err.NoRefreshToken? && w.configured && Deciding(w).InvalidGrant?
      ensures err.TokenRejected? ==> s !in tokens
      ensures err.ProviderFailed? && !Deciding(w).Granted? <==>
                !err.NoRefreshToken? && w.configured && (Deciding(w).NotFound? || Deciding(w).OtherError?)
    {
      if snapshot.None? || snapshot.value.refresh == "" {
        GiveUpWith(t, s, rid, snapshot, NoRefreshToken);
        return NoRefreshToken;
      }
      if !w.configured {
        GiveUpWith(t, s, rid, snapshot, Misconfigured);
        return Misconfigured;
      }
      var _ := AskProvider(t, s, rid, snapshot.value, w);
      match calls[t] {
        case Exchanged(_, _, renewed) => err := SaveAndCache(t, s, rid, renewed, w.saves, Gap(w, 5));
        case Clearing(_, _) =>
          Clear(t, s, rid, w.clears, Gap(w, 5));
          err := TokenRejected;
        case Finishing(_, _, why) => err := why;
      }
    }

    /** The second critical section: the outcome is published and the server unregistered. */
    method Unregister(t: Thread, s: Server, rid: ResultRef, err: Outcome)
      requires Valid() && t in calls && calls[t] == Finishing(s, rid, err)
      modifies this
      ensures Valid() && t in calls && calls[t] == Unregistered(s, rid, err) && Exchanges(log, t) == Exchanges(old(log), t)
      ensures s !in refreshing && !err.ContextEnded?
    {
      OAuthSingleFlight.ReachableInv(states, log, |log|);
      assert OAuthSingleFlight.LeaderInv(Value(), t);
      results := results[rid := results[rid].(err := Some(err))];
      refreshing := refreshing - {s};
      calls := calls[t := Unregistered(s, rid, err)];
      Note(OAuthModel.Unregister(t));
    }

    /** `close(result.done)`: the result was open, so it is closed once. */
    method CloseDone(t: Thread, s: Server, rid: ResultRef, err: Outcome)
      requires Valid() && t in calls && calls[t] == Unregistered(s, rid, err)
      modifies this
      ensures Valid() && t in calls && calls[t] == Returned(s, rid, err) && Exchanges(log, t) == Exchanges(old(log), t)
      ensures rid < |old(results)| && !old(results[rid]).done
      ensures rid < |results| && results[rid].owner == t && results[rid].done && results[rid].err == Some(err)
    {
      OAuthSingleFlight.ReachableInv(states, log, |log|);
      assert OAuthSingleFlight.LeaderInv(Value(), t);
      results := results[rid := results[rid].(done := true)];
      calls := calls[t := Returned(s, rid, err)];
      Note(OAuthModel.CloseDone(t));
    }

    /** A whole call of `refreshToken`. Who finds a refresh in flight never contacts the provider and returns that
        refresh's outcome or the end of its own context; who does not leads one, asks at most twice, and leaves
        its outcome for the others. */
    method RefreshToken(t: Thread, s: Server, w: Surroundings) returns (err: Outcome)
      requires Valid() && t !in calls
      modifies this
      ensures Valid() && t in calls && calls[t].Returned? && calls[t].server == s && calls[t].outcome == err
      ensures s in old(refreshing) ==> Exchanges(log, t) == Exchanges(old(log), t)
      ensures Exchanges(log, t) <= Exchanges(old(log), t) + 2
      ensures !err.ContextEnded? ==>
                calls[t].rid < |results| && results[calls[t].rid].done && results[calls[t].rid].err == Some(err)
      ensures s !in old(refreshing) ==> !err.ContextEnded? && results[calls[t].rid].owner == t
      ensures s !in old(refreshing) ==>
                && (err.NoRefreshToken? <==> s !in old(tokens) || old(tokens)[s].refresh == "")
                && (err.Misconfigured? <==> !err.NoRefreshToken? && !w.configured)
                && (err.TokenRejected? <==> !err.NoRefreshToken? && w.configured && Deciding(w).InvalidGrant?)
                && (err.Refreshed? ==> Deciding(w).Granted? && w.saves)
    {
      var leads, rid, snapshot := BeginRefresh(t, s);
      if leads {
        err := DoRefresh(t, s, rid, snapshot, w);
        Unregister(t, s, rid, err);
        PerformAll(Gap(w, 6), {t});
        CloseDone(t, s, rid, err);
      } else {
        PerformAll(Gap(w, 0), {t});
        err := Await(t, s, rid, w.cancelled);
      }
    }

    // -------------------------------------------------------------- GetAccessToken

    method Missing(t: Thread, s: Server)
      requires Valid() && t !in calls && s !in tokens
      modifies this
      ensures Valid() && calls == old(calls)[t := Missed(s)] && stored == old(stored)
    {
      calls := calls[t := Missed(s)];
      Note(Miss(t, s));
    }

    method ReadDatabase(t: Thread, s: Server) returns (loaded: Option<TokenSet>)
      requires Valid() && t in calls && calls[t] == Missed(s)
      modifies this
      ensures Valid() && calls == old(calls)[t := if loaded.Some? then Loaded(s, loaded.value) else Over(s)]
      ensures loaded == (if s in old(stored) then Some(old(stored)[s]) else None) && stored == old(stored)
    {
      loaded := if s in stored then Some(stored[s]) else None;
      calls := calls[t := if loaded.Some? then Loaded(s, loaded.value) else Over(s)];
      Note(ReadStored(t));
    }

    method CacheRead(t: Thread, s: Server, loaded: TokenSet)
      requires Valid() && t in calls && calls[t] == Loaded(s, loaded)
      modifies this
      ensures Valid() && calls == old(calls)[t := Over(s)] && s in tokens && tokens[s] == loaded
    {
      tokens := tokens[s := loaded];
      calls := calls[t := Over(s)];
      Note(CacheLoaded(t));
    }

    /** The lazy load: the stored tokens are read and then cached, with nothing to tie the two together. */
    method Load(t: Thread, s: Server, readable: bool, before: seq<Event>, between: seq<Event>, mine: set<Thread>) returns (found: Option<TokenSet>)
      requires Valid() && t in mine && t !in calls && s !in tokens
      modifies this
      ensures Valid() && forall u | u in mine && u != t :: u in calls <==> u in old(calls)
      ensures found.Some? ==> s in tokens && tokens[s] == found.value
      ensures before == [] ==> found == if readable && s in old(stored) then Some(old(stored)[s]) else None
    {
      Missing(t, s);
      PerformAll(before, mine);
      if !readable { return None; }
      found := ReadDatabase(t, s);
      if found.None? { return; }
      PerformAll(between, mine);
      CacheRead(t, s, found.value);
    }

    /** A whole call of `GetAccessToken`; `t` and `u` stand for its load and its refresh. A cached token that is
        not expired is returned and nothing changes. After a load or a refresh the token returned is the one in
        the cache at that moment; after a refresh there may be none, and then the call meets a nil pointer. */
    method GetAccessToken(t: Thread, u: Thread, s: Server, expired: bool, readable: bool, w: Surroundings, last: seq<Event>)
      returns (r: Access)
      requires Valid() && t !in calls && u !in calls && t != u
      modifies this
      ensures Valid()
      ensures s in old(tokens) && !expired ==> r == Token(old(tokens)[s].access) && Value() == old(Value()) && log == old(log)
      ensures s !in old(tokens) || expired ==> (r.Token? ==> s in tokens && r.access == tokens[s].access)
      ensures r.NoTokens? ==> s !in old(tokens)
      ensures s !in old(tokens) && w.others == [] ==>
                && (r.NoTokens? <==> !readable || s !in old(stored))
                && (!expired && !r.NoTokens? ==> r == Token(old(stored)[s].access))
      ensures r.RefreshFailed? ==> expired && !r.why.Refreshed?
      ensures r.NilPointer? ==> expired && s !in tokens
      ensures expired && r.Token? ==> exists i :: CachedSinceRenewal(states, log, s, r.access, i)
      ensures expired && (r.Token? || r.NilPointer?) ==> (r.NilPointer? <==> exists i :: DroppedSinceRenewal(states, log, s, i))
    {
      var ts: TokenSet;
      if s in tokens {
        ts := tokens[s];
      } else {
        var found := Load(t, s, readable, Gap(w, 7), Gap(w, 8), {t, u});
        if found.None? { return NoTokens; }
        ts := found.value;
      }
      if expired {
        var err := RefreshToken(u, s, w);
        if err != Refreshed { return RefreshFailed(err); }
        PerformAll(last, {t, u});
        LostExactly(states, log, u);
        if s !in tokens { return NilPointer; }
        ts := tokens[s];
        ghost var i := RenewedOrLater(states, log, u);
      }
      r := Token(ts.access);
    }

    // -------------------------------------------------------------- HandleCallback

    method StoreGranted(t: Thread, s: Server, granted: TokenSet)
      requires Valid() && t !in calls && NewToken(Value(), granted.refresh)
      modifies this
      ensures Valid() && t in calls && calls[t] == Authorized(s, granted)
      ensures stored == old(stored)[s := granted] && tokens == old(tokens)
    {
      stored := stored[s := granted];
      if granted.refresh != "" { home := home[granted.refresh := s]; }
      calls := calls[t := Authorized(s, granted)];
      Note(Authorize(t, s, granted));
    }

    /** The end of an authorization: the granted tokens are stored, then cached. */
    method HandleCallback(t: Thread, s: Server, granted: TokenSet, gap: seq<Event>)
      requires Valid() && t !in calls && NewToken(Value(), granted.refresh)
      modifies this
      ensures Valid() && s in tokens && tokens[s] == granted
      ensures gap == [] ==> stored == old(stored)[s := granted] && tokens == old(tokens)[s := granted]
    {
      StoreGranted(t, s, granted);
      PerformAll(gap, {t});
      tokens := tokens[s := granted];
      calls := calls[t := Over(s)];
      Note(CacheGranted(t));
    }
  }
}
