/** After a successful refresh: when does a caller find the cache empty? */
module OAuthAfterRefresh {
  import opened Options
  import opened OAuthModel
  import opened OAuthSingleFlight

  /** The step caches tokens of the server. */
  predicate Writes(m: Manager, e: Event, s: Server) {
    (e.CacheRenewed? || e.CacheLoaded? || e.CacheGranted?) && e.t in m.calls && m.calls[e.t].server == s
  }

  /** The step drops them: a re-registration, or another refresh whose token the provider refused. */
  predicate Removes(m: Manager, e: Event, s: Server) {
    e == ReRegister(s) || (e.ClearCache? && e.t in m.calls && m.calls[e.t].server == s)
  }

  lemma CacheStep(m: Manager, e: Event, s: Server)
    requires RefsInRange(m) && Enabled(m, e)
    ensures s in Apply(m, e).tokens <==> Writes(m, e, s) || (s in m.tokens && !Removes(m, e, s))
  {
  }

  /** Step `k` drops the tokens of the server, and nobody has cached any since. */
  ghost predicate DroppedAt(ms: seq<Manager>, es: seq<Event>, s: Server, k: nat, j: nat)
    requires |ms| == |es| + 1 && j <= |es|
  {
    k < j && Removes(ms[k], es[k], s) && forall l | k < l < j :: !Writes(ms[l], es[l], s)
  }

  ghost predicate Dropped(ms: seq<Manager>, es: seq<Event>, s: Server, i: nat, j: nat)
    requires |ms| == |es| + 1 && j <= |es|
  {
    exists k :: i <= k && DroppedAt(ms, es, s, k, j)
  }

  lemma DroppedNext(ms: seq<Manager>, es: seq<Event>, s: Server, i: nat, j: nat)
    requires |ms| == |es| + 1 && i <= j < |es|
    ensures Dropped(ms, es, s, i, j + 1) <==> Removes(ms[j], es[j], s) || (Dropped(ms, es, s, i, j) && !Writes(ms[j], es[j], s))
  {
    var n := j + 1;
    if Removes(ms[j], es[j], s) { assert DroppedAt(ms, es, s, j, n); }
    if k: nat :| i <= k && DroppedAt(ms, es, s, k, j) && !Writes(ms[j], es[j], s) { assert DroppedAt(ms, es, s, k, n); }
    if k: nat :| i <= k && DroppedAt(ms, es, s, k, n) && k < j { assert DroppedAt(ms, es, s, k, j); }
  }

  /** A server whose tokens were cached after step `i` is without tokens if and only if they were dropped since. */
  lemma {:induction false} GoneExactly(ms: seq<Manager>, es: seq<Event>, s: Server, i: nat, j: nat)
    requires IsRun(ms, es) && i <= j <= |es| && s in ms[i].tokens
    ensures s !in ms[j].tokens <==> Dropped(ms, es, s, i, j)
    decreases j
  {
    if i == j {
    } else {
      GoneExactly(ms, es, s, i, j - 1);
      assert Step(ms[j - 1], es[j - 1], ms[j]);
      CacheStep(ms[j - 1], es[j - 1], s);
      DroppedNext(ms, es, s, i, j - 1);
    }
  }

  /** The call has succeeded in refreshing and is about to report that, or has. */
  predicate Succeeded(p: Phase) {
    (p.Finishing? || p.Unregistered? || p.Returned?) && p.outcome.Refreshed?
  }

  /** How a call comes to succeed: it caches what it got, or it has succeeded before, or it shares a result. */
  lemma SuccessStep(m: Manager, e: Event)
    requires RefsInRange(m) && Enabled(m, e) && !e.ReRegister? && Succeeded(PhaseAfter(m, e))
    ensures e.t in m.calls && HasResult(m.calls[e.t])
    ensures PhaseAfter(m, e).server == m.calls[e.t].server && PhaseAfter(m, e).rid == m.calls[e.t].rid
    ensures e.CacheRenewed? || Succeeded(m.calls[e.t]) || (e.Wake? && m.results[m.calls[e.t].rid].done)
  {
  }

  lemma OwnersStay(m: Manager, e: Event, r: ResultRef)
    requires RefsInRange(m) && Enabled(m, e) && r < |m.results|
    ensures r < |Apply(m, e).results| && Apply(m, e).results[r].owner == m.results[r].owner
  {
  }

  /** The call leads, or led, the refresh that its result stands for, and it succeeded. */
  predicate LedWell(m: Manager, t: Thread) {
    t in m.calls && Succeeded(m.calls[t]) && m.calls[t].rid < |m.results| && m.results[m.calls[t].rid].owner == t
  }

  /** One step back from a leader's success. */
  lemma LeaderStep(m: Manager, e: Event, t: Thread)
    requires RefsInRange(m) && Enabled(m, e) && LedWell(Apply(m, e), t)
    requires forall r | 0 <= r < |m.results| :: OwnerReturned(m, r)
    ensures t in m.calls && m.calls[t].server == Apply(m, e).calls[t].server
    ensures e == CacheRenewed(t) || LedWell(m, t)
  {
    if !e.ReRegister? && e.t == t { SuccessStep(m, e); }
    assert HasResult(m.calls[t]);
    var r := m.calls[t].rid;
    OwnersStay(m, e, r);
    assert OwnerReturned(m, r);
  }

  /** The leader of a successful refresh cached what it got. */
  lemma {:induction false} RenewalOf(ms: seq<Manager>, es: seq<Event>, j: nat, t: Thread) returns (i: nat)
    requires IsRun(ms, es) && j < |ms| && LedWell(ms[j], t)
    ensures i < j && es[i] == CacheRenewed(t) && t in ms[i].calls && ms[i].calls[t].server == ms[j].calls[t].server
  {
    assert j > 0;
    var h := j - 1;
    ReachableInv(ms, es, h);
    assert Step(ms[h], es[h], ms[j]);
    forall r | 0 <= r < |ms[h].results| ensures OwnerReturned(ms[h], r) { LeaderReturned(ms, es, h, r); }
    LeaderStep(ms[h], es[h], t);
    if es[h] == CacheRenewed(t) { i := h; } else { i := RenewalOf(ms, es, h, t); }
  }

  /** A caller that returned from a successful refresh, its own or a shared one, finds no tokens if and only if,
      since its leader cached the renewed ones, somebody dropped them and nobody cached any again. */
  lemma EmptyExactly(ms: seq<Manager>, es: seq<Event>, j: nat, t: Thread) returns (i: nat)
    requires IsRun(ms, es) && j < |ms| && t in ms[j].calls && ms[j].calls[t].Returned? && ms[j].calls[t].outcome.Refreshed?
    ensures var p := ms[j].calls[t];
      && p.rid < |ms[j].results| && i < j && es[i] == CacheRenewed(ms[j].results[p.rid].owner) && Writes(ms[i], es[i], p.server)
      && (p.server !in ms[j].tokens <==> Dropped(ms, es, p.server, i + 1, j))
  {
    var p := ms[j].calls[t];
    SharedOutcome(ms, es, j, t);
    var owner := ms[j].results[p.rid].owner;
    i := RenewalOf(ms, es, j, owner);
    assert Step(ms[i], es[i], ms[i + 1]);
    assert p.server in ms[i + 1].tokens;
    GoneExactly(ms, es, p.server, i + 1, j);
  }

  /** Step `i` is a refresh that caches renewed tokens of the server, and they have been dropped since for good. */
  ghost predicate DroppedSinceRenewal(ms: seq<Manager>, es: seq<Event>, s: Server, i: nat)
    requires |ms| == |es| + 1
  {
    i < |es| && es[i].CacheRenewed? && Writes(ms[i], es[i], s) && Dropped(ms, es, s, i + 1, |es|)
  }

  /** The same for the last state of a run, in terms of the log alone. */
  lemma LostExactly(ms: seq<Manager>, es: seq<Event>, t: Thread)
    requires IsRun(ms, es)
    requires t in ms[|es|].calls && ms[|es|].calls[t].Returned? && ms[|es|].calls[t].outcome.Refreshed?
    ensures var s := ms[|es|].calls[t].server; s !in ms[|es|].tokens <==> exists i :: DroppedSinceRenewal(ms, es, s, i)
  {
    var s := ms[|es|].calls[t].server;
    var i := EmptyExactly(ms, es, |es|, t);
    if s !in ms[|es|].tokens { assert DroppedSinceRenewal(ms, es, s, i); }
    if h: nat :| DroppedSinceRenewal(ms, es, s, h) {
      assert Step(ms[h], es[h], ms[h + 1]);
      CacheStep(ms[h], es[h], s);
      GoneExactly(ms, es, s, h + 1, |es|);
    }
  }

  // ---------------------------------------------------------------- where cached tokens come from

  /** The tokens a step caches. */
  function Written(m: Manager, e: Event): TokenSet
    requires RefsInRange(m) && Enabled(m, e) && (e.CacheRenewed? || e.CacheLoaded? || e.CacheGranted?)
  {
    match e
    case CacheRenewed(t) => m.calls[t].renewed
    case CacheLoaded(t) => m.calls[t].found
    case CacheGranted(t) => m.calls[t].granted
  }

  lemma CacheValue(m: Manager, e: Event, s: Server)
    requires RefsInRange(m) && Enabled(m, e) && s in Apply(m, e).tokens
    ensures if Writes(m, e, s) then Apply(m, e).tokens[s] == Written(m, e)
            else s in m.tokens && Apply(m, e).tokens[s] == m.tokens[s] && !Removes(m, e, s)
  {
  }

  /** Cached tokens were cached by some step, and have not been replaced or dropped since. */
  lemma {:induction false} CachedBy(ms: seq<Manager>, es: seq<Event>, j: nat, s: Server) returns (i: nat)
    requires IsRun(ms, es) && j <= |es| && s in ms[j].tokens
    ensures i < j && RefsInRange(ms[i]) && Enabled(ms[i], es[i]) && Writes(ms[i], es[i], s)
    ensures ms[j].tokens[s] == Written(ms[i], es[i])
    ensures forall l | i < l < j :: !Writes(ms[l], es[l], s) && !Removes(ms[l], es[l], s)
    decreases j
  {
    assert j > 0;
    i := j - 1;
    assert Step(ms[i], es[i], ms[j]);
    CacheValue(ms[i], es[i], s);
    if !Writes(ms[i], es[i], s) { i := CachedBy(ms, es, i, s); }
  }

  /** The provider granted `ts` in step `k`; what the call makes of it. */
  ghost predicate GrantedAt(ms: seq<Manager>, es: seq<Event>, k: nat, t: Thread, ts: TokenSet, renewed: TokenSet)
    requires |ms| == |es| + 1
  {
    && k < |es| && es[k] == Exchange(t, Granted(ts)) && t in ms[k].calls && ms[k].calls[t].Ready?
    && renewed.access == ts.access
    && renewed.refresh == (if ts.refresh == "" then ms[k].calls[t].held.refresh else ts.refresh)
  }

  /** Renewed tokens are those of the provider's last answer: its access token, and its refresh token or, if it has
      none, the one that was presented. */
  lemma {:induction false} RenewedFromAnswer(ms: seq<Manager>, es: seq<Event>, j: nat, t: Thread) returns (k: nat, ts: TokenSet)
    requires IsRun(ms, es) && j <= |es| && t in ms[j].calls && (ms[j].calls[t].Exchanged? || ms[j].calls[t].Saved?)
    ensures k < j && GrantedAt(ms, es, k, t, ts, ms[j].calls[t].renewed)
    ensures forall l | k < l < j :: !(es[l].Exchange? && es[l].t == t)
    decreases j
  {
    assert j > 0;
    k := j - 1;
    assert Step(ms[k], es[k], ms[j]);
    if es[k].Exchange? && es[k].t == t {
      ts := es[k].reply.tokens;
    } else {
      k, ts := RenewedFromAnswer(ms, es, j - 1, t);
    }
  }

  /** So a refresh never caches the access token it set out to replace, unless the provider sent it again. */
  lemma CachedIsAnswered(ms: seq<Manager>, es: seq<Event>, j: nat, t: Thread) returns (k: nat, ts: TokenSet)
    requires IsRun(ms, es) && j < |es| && es[j] == CacheRenewed(t)
    ensures t in ms[j].calls && ms[j].calls[t].server in ms[j + 1].tokens
    ensures k < j && GrantedAt(ms, es, k, t, ts, ms[j + 1].tokens[ms[j].calls[t].server])
    ensures forall l | k < l < j :: !(es[l].Exchange? && es[l].t == t)
  {
    assert Step(ms[j], es[j], ms[j + 1]);
    k, ts := RenewedFromAnswer(ms, es, j, t);
  }

  /** Step `i` cached this access token, and it is a renewal or came after one. */
  ghost predicate CachedSinceRenewal(ms: seq<Manager>, es: seq<Event>, s: Server, access: string, i: nat)
    requires |ms| == |es| + 1
  {
    && i < |es| && RefsInRange(ms[i]) && Enabled(ms[i], es[i]) && Writes(ms[i], es[i], s)
    && Written(ms[i], es[i]).access == access
    && exists h | 0 <= h <= i :: es[h].CacheRenewed? && Writes(ms[h], es[h], s)
  }

  /** What a caller finds after a successful refresh was cached by that refresh or later. */
  lemma RenewedOrLater(ms: seq<Manager>, es: seq<Event>, t: Thread) returns (i: nat)
    requires IsRun(ms, es)
    requires t in ms[|es|].calls && ms[|es|].calls[t].Returned? && ms[|es|].calls[t].outcome.Refreshed?
    requires ms[|es|].calls[t].server in ms[|es|].tokens
    ensures var s := ms[|es|].calls[t].server; CachedSinceRenewal(ms, es, s, ms[|es|].tokens[s].access, i)
  {
    var s := ms[|es|].calls[t].server;
    var h := EmptyExactly(ms, es, |es|, t);
    i := CachedBy(ms, es, |es|, s);
    assert h <= i;
  }
}
