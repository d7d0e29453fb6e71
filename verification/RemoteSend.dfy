/** Sending to a remote MCP server: token changes, session re-establishment and the retry after a 401
    (internal/proxy/remote_proxy.go). */
module RemoteModel {
  import opened Options

  const UNAUTHORIZED := 401
  const OK := 200

  /** The server's answer to one exchange: nothing at all, or a status, a session id (perhaps empty) and a
      body that may not parse. */
  datatype Reply = NoReply | Reply(status: int, session: string, body: Option<string>)

  datatype Exchange = Exchange(verb: string, session: string, token: string)

  /** The surroundings: what the n-th request for a token and the n-th exchange answer, and whether a forced
      refresh succeeds. Without OAuth the credential is fixed. */
  datatype World = World(oauth: bool, manager: bool, fixed: string,
                         token: nat -> Option<string>, reply: nat -> Reply, refreshes: bool)

  /** `issued` is the token under which the session was opened; `asked` counts token requests. */
  datatype State = State(session: string, lastToken: string, issued: string, asked: nat, log: seq<Exchange>)

  datatype Result = Result(status: int, response: Option<string>)

  // ---------------------------------------------------------------- authentication

  function Token(s: State, w: World): Option<string> {
    if !w.oauth then Some(w.fixed) else if !w.manager then None else w.token(s.asked)
  }

  predicate Refreshed(s: State, w: World) {
    w.oauth && Token(s, w).Some? && s.lastToken != "" && s.lastToken != Token(s, w).value
  }

  function Authenticated(s: State, w: World): State {
    if !w.oauth || !w.manager then s
    else s.(asked := s.asked + 1, lastToken := if Token(s, w).Some? then Token(s, w).value else s.lastToken)
  }

  // ---------------------------------------------------------------- one exchange

  function Exchanged(s: State, w: World, verb: string, token: string): State {
    var r := w.reply(|s.log|);
    var t := s.(log := s.log + [Exchange(verb, s.session, token)]);
    if r.Reply? && r.status == OK && r.session != "" then t.(session := r.session, issued := token) else t
  }

  function Answer(r: Reply): Result {
    if r.NoReply? then Result(0, None)
    else if r.status != OK then Result(r.status, None)
    else Result(OK, r.body)
  }

  predicate Reopens(s: State, w: World) {
    Refreshed(s, w) && s.session != ""
  }

  /** The state in which the request itself goes out: the session was re-opened first if the token had changed,
      and an initialize never carries one. */
  function Prepared(s: State, w: World, verb: string): State
    decreases if s.session != "" then 1 else 0, 0
  {
    var a := Authenticated(s, w);
    var b := if Reopens(s, w) then DoSend(a.(session := ""), w, "initialize").0
             else if Refreshed(s, w) then a.(session := "") else a;
    if verb == "initialize" then b.(session := "") else b
  }

  function DoSend(s: State, w: World, verb: string): (State, Result)
    decreases if s.session != "" then 1 else 0, 1
  {
    if Token(s, w).None? then (Authenticated(s, w), Result(0, None))
    else
      var b := Prepared(s, w, verb);
      (Exchanged(b, w, verb, Token(s, w).value), Answer(w.reply(|b.log|)))
  }

  /** How deep calls of DoSend nest. */
  function Nesting(s: State, w: World): nat
    decreases if s.session != "" then 1 else 0
  {
    1 + if Reopens(s, w) then Nesting(Authenticated(s, w).(session := ""), w) else 0
  }

  // ---------------------------------------------------------------- a whole send

  predicate Retries(r: Result, w: World) {
    r.status == UNAUTHORIZED && w.oauth && w.manager
  }

  function Send(s: State, w: World, verb: string): (State, Option<string>) {
    var (t, r) := DoSend(s, w, verb);
    if !Retries(r, w) then (t, r.response)
    else if !w.refreshes then (t, None)
    else
      var u := DoSend(t.(session := "", lastToken := ""), w, "initialize").0;
      var (v, q) := DoSend(u, w, verb);
      (v, q.response)
  }

  function Notify(s: State, w: World, verb: string): State {
    var a := Authenticated(s, w);
    if Token(s, w).None? then a else a.(log := a.log + [Exchange(verb, s.session, Token(s, w).value)])
  }
}

module RemoteProofs {
  import opened Options
  import opened RemoteModel

  // ---------------------------------------------------------------- the two ways a request goes out

  /** Without a session there is nothing to re-open. */
  lemma Direct(s: State, w: World, verb: string)
    requires s.session == "" && Token(s, w).Some?
    ensures DoSend(s, w, verb) == (Exchanged(Authenticated(s, w), w, verb, Token(s, w).value), Answer(w.reply(|s.log|)))
  {
    assert Prepared(s, w, verb) == Authenticated(s, w);
  }

  /** With a session and a new token, an initialize goes first. */
  lemma Reopening(s: State, w: World, verb: string)
    requires Reopens(s, w) && w.token(s.asked + 1).Some?
    ensures var t1, t2 := Token(s, w).value, w.token(s.asked + 1).value;
      var first := State("", t2, s.issued, s.asked + 2, s.log);
      var b := Exchanged(first, w, "initialize", t2);
      var c := if verb == "initialize" then b.(session := "") else b;
      DoSend(s, w, verb) == (Exchanged(c, w, verb, t1), Answer(w.reply(|s.log| + 1)))
  {
    var a := Authenticated(s, w).(session := "");
    Direct(a, w, "initialize");
    assert Authenticated(a, w) == State("", w.token(s.asked + 1).value, s.issued, s.asked + 2, s.log);
  }

  // ---------------------------------------------------------------- what comes back

  /** A reply of 200 returns its body, and any other returns nothing. */
  predicate Returns(reply: Reply, response: Option<string>) {
    response == if reply.Reply? && reply.status == 200 then reply.body else None
  }

  /** The credential a request goes out with: the fixed one, or the manager's next token. */
  function Credential(w: World, asked: nat): Option<string> {
    if !w.oauth then Some(w.fixed) else if w.manager then w.token(asked) else None
  }

  /** The session a request goes out with: none for an initialize, and none of before once the token has changed. */
  ghost predicate Carries(s: State, w: World, verb: string, token: string, log: seq<Exchange>)
    requires |log| > |s.log|
  {
    var sent := log[|log| - 1].session;
    if verb == "initialize" then sent == ""
    else if !w.oauth || s.lastToken == "" || s.lastToken == token then sent == s.session
    else if s.session == "" then sent == ""
    else if |log| == |s.log| + 1 then sent == ""
    else
      // the session that the initialize just before opened, if it did
      var greeting := w.reply(|log| - 2);
      sent == if greeting.Reply? && greeting.status == 200 then greeting.session else ""
  }

  /** The session kept afterwards: the one a reply of 200 names, else the one sent. */
  predicate Keeps(reply: Reply, sent: string, session: string) {
    session == if reply.Reply? && reply.status == 200 && reply.session != "" then reply.session else sent
  }

  /** One request. Without a credential nothing goes out and nothing comes back. Otherwise the last exchange is the
      request under its credential; its reply is what comes back, and decides which session is kept. */
  ghost predicate Serves(s: State, w: World, verb: string, t: State, r: Result) {
    var token := Credential(w, s.asked);
    && (token.None? ==> t.log == s.log && t.session == s.session && r == Result(0, None))
    && (token.Some? ==>
          && |t.log| > |s.log| && s.log <= t.log
          && var last, reply := t.log[|t.log| - 1], w.reply(|t.log| - 1);
          && last.verb == verb && last.token == token.value && Carries(s, w, verb, token.value, t.log)
          && Returns(reply, r.response) && r.status == (if reply.Reply? then reply.status else 0)
          && Keeps(reply, last.session, t.session))
  }

  lemma OneRequest(s: State, w: World, verb: string)
    ensures var (t, r) := DoSend(s, w, verb); Serves(s, w, verb, t, r)
  {
    if Reopens(s, w) {
      if w.token(s.asked + 1).Some? { RequestAfterOpening(s, w, verb); } else { RequestUnopened(s, w, verb); }
    } else {
      RequestAsIs(s, w, verb);
    }
  }

  lemma RequestAsIs(s: State, w: World, verb: string)
    requires !Reopens(s, w)
    ensures var (t, r) := DoSend(s, w, verb); Serves(s, w, verb, t, r)
  {
    if Token(s, w).Some? { assert DoSend(s, w, verb).0 == Exchanged(Prepared(s, w, verb), w, verb, Token(s, w).value); }
  }

  lemma RequestAfterOpening(s: State, w: World, verb: string)
    requires Reopens(s, w) && w.token(s.asked + 1).Some?
    ensures var (t, r) := DoSend(s, w, verb); Serves(s, w, verb, t, r)
  {
    Reopening(s, w, verb);
  }

  lemma RequestUnopened(s: State, w: World, verb: string)
    requires Reopens(s, w) && w.token(s.asked + 1).None?
    ensures var (t, r) := DoSend(s, w, verb); Serves(s, w, verb, t, r)
  {
    Unopened(s, w, verb);
  }

  /** A session that cannot be re-opened for want of a token. */
  lemma Unopened(s: State, w: World, verb: string)
    requires Reopens(s, w) && w.token(s.asked + 1).None?
    ensures var b := State("", Token(s, w).value, s.issued, s.asked + 2, s.log);
      DoSend(s, w, verb) == (Exchanged(b, w, verb, Token(s, w).value), Answer(w.reply(|s.log|)))
  {
    var a := Authenticated(s, w).(session := "");
    assert DoSend(a, w, "initialize").0 == Authenticated(a, w);
  }

  /** A whole send returns the body of the reply to its last request. What comes back is never anything else; and when
      credentials are to be had, it comes back whenever that reply is a 200. A failed refresh leaves a 401 as the last. */
  lemma SendReturns(s: State, w: World, verb: string)
    ensures var (v, response) := Send(s, w, verb);
      && (response.Some? ==> |v.log| > |s.log| && v.log[|v.log| - 1].verb == verb && Returns(w.reply(|v.log| - 1), response))
      && (!w.oauth || (w.manager && forall n :: w.token(n).Some?) ==>
            |v.log| > |s.log| && v.log[|v.log| - 1].verb == verb && Returns(w.reply(|v.log| - 1), response))
  {
    var token := Token(s, w);
    OneRequest(s, w, verb);
    var (t, r) := DoSend(s, w, verb);
    if token.Some? && Retries(r, w) && w.refreshes {
      var clear := t.(session := "", lastToken := "");
      SendTwice(clear, w, "initialize");
      var u := DoSend(clear, w, "initialize").0;
      OneRequest(u, w, verb);
    }
  }

  // ---------------------------------------------------------------- bounds

  /** Calls nest at most two deep, because the session is gone before the inner one. */
  lemma NestsTwice(s: State, w: World)
    ensures Nesting(s, w) <= if s.session != "" then 2 else 1
  {
  }

  ghost function Cost(s: State): nat {
    if s.session != "" then 2 else 1
  }

  lemma SendOnce(s: State, w: World, verb: string)
    requires s.session == ""
    ensures var t := DoSend(s, w, verb).0; s.log <= t.log && |t.log| <= |s.log| + 1
  {
  }

  lemma SendTwice(s: State, w: World, verb: string)
    ensures var t := DoSend(s, w, verb).0; s.log <= t.log && |t.log| <= |s.log| + Cost(s)
  {
    if Reopens(s, w) { SendOnce(Authenticated(s, w).(session := ""), w, "initialize"); }
  }

  /** One send makes at most five exchanges, whatever the tokens, statuses and session ids. */
  lemma AtMostFive(s: State, w: World, verb: string)
    ensures var t := Send(s, w, verb).0; s.log <= t.log && |t.log| <= |s.log| + 5
  {
    var (t, r) := DoSend(s, w, verb);
    SendTwice(s, w, verb);
    if Retries(r, w) && w.refreshes {
      var clear := t.(session := "", lastToken := "");
      SendTwice(clear, w, "initialize");
      SendTwice(DoSend(clear, w, "initialize").0, w, verb);
    }
  }

  /** After a 401 and a successful refresh, a session is opened without one, the request goes out again, and
      its second answer is the result. */
  lemma RetryAfter401(s: State, w: World, verb: string)
    requires w.oauth && w.manager && w.refreshes && forall n :: w.token(n).Some?
    requires DoSend(s, w, verb).1.status == 401
    ensures var t := DoSend(s, w, verb).0;
      var (v, response) := Send(s, w, verb);
      && t.log + [Exchange("initialize", "", w.token(t.asked).value)] <= v.log
      && |v.log| >= |t.log| + 2 && v.log[|v.log| - 1].verb == verb
      && Returns(w.reply(|v.log| - 1), response)
  {
    var t := DoSend(s, w, verb).0;
    Reopened(t, w);
    var u := DoSend(t.(session := "", lastToken := ""), w, "initialize").0;
    LastIsRequest(u, w, verb);
    var (v, q) := DoSend(u, w, verb);
    assert Send(s, w, verb) == (v, q.response);
  }

  /** Without that, one request is all there is. */
  lemma NoRetry(s: State, w: World, verb: string)
    requires DoSend(s, w, verb).1.status != 401 || !w.oauth || !w.manager || !w.refreshes
    ensures var (t, r) := DoSend(s, w, verb); Send(s, w, verb).0 == t
  {
  }

  lemma Reopened(t: State, w: World)
    requires w.oauth && w.manager && w.token(t.asked).Some?
    ensures DoSend(t.(session := "", lastToken := ""), w, "initialize").0.log
         == t.log + [Exchange("initialize", "", w.token(t.asked).value)]
  {
    Direct(t.(session := "", lastToken := ""), w, "initialize");
  }

  lemma LastIsRequest(s: State, w: World, verb: string)
    requires Token(s, w).Some?
    ensures var (t, r) := DoSend(s, w, verb);
      && s.log <= t.log && |t.log| > |s.log| && t.log[|t.log| - 1].verb == verb
      && r == Answer(w.reply(|t.log| - 1))
  {
    if Reopens(s, w) { SendOnce(Authenticated(s, w).(session := ""), w, "initialize"); }
  }

  function FreshToken(n: nat): Option<string> {
    Some(seq(n + 1, i => 't'))
  }

  /** A server that always hands out sessions and first refuses the request. */
  function Grudging(n: nat): Reply {
    Reply(if n == 1 then UNAUTHORIZED else OK, "s", Some("done"))
  }

  /** Five do happen: the token changes at every step. */
  lemma FiveHappen()
    ensures var w := World(true, true, "", FreshToken, Grudging, true);
            |Send(State("s", "old", "old", 0, []), w, "tools/call").0.log| == 5
  {
    var w := World(true, true, "", FreshToken, Grudging, true);
    var s := State("s", "old", "old", 0, []);
    assert |FreshToken(0).value| == 1 && |FreshToken(2).value| == 3 && |FreshToken(3).value| == 4;
    Reopening(s, w, "tools/call");
    var (t, r) := DoSend(s, w, "tools/call");
    assert |t.log| == 2 && t.asked == 2 && r.status == UNAUTHORIZED;
    var clear := t.(session := "", lastToken := "");
    Direct(clear, w, "initialize");
    var u := DoSend(clear, w, "initialize").0;
    assert |u.log| == 3 && u.session == "s" && u.asked == 3 && |u.lastToken| == 3;
    Reopening(u, w, "tools/call");
  }

  // ---------------------------------------------------------------- initialize

  /** No initialize carries a session. */
  ghost predicate Bare(log: seq<Exchange>, n: nat) {
    forall i | n <= i < |log| :: log[i].verb == "initialize" ==> log[i].session == ""
  }

  lemma BareOnce(s: State, w: World, verb: string)
    requires s.session == ""
    ensures Bare(DoSend(s, w, verb).0.log, |s.log|)
  {
  }

  lemma BareTwice(s: State, w: World, verb: string)
    ensures Bare(DoSend(s, w, verb).0.log, |s.log|)
  {
    if Reopens(s, w) {
      var a := Authenticated(s, w).(session := "");
      BareOnce(a, w, "initialize");
      SendOnce(a, w, "initialize");
    }
  }

  lemma InitializeIsBare(s: State, w: World, verb: string)
    ensures Bare(Send(s, w, verb).0.log, |s.log|)
  {
    var (t, r) := DoSend(s, w, verb);
    BareTwice(s, w, verb);
    SendTwice(s, w, verb);
    if Retries(r, w) && w.refreshes {
      var clear := t.(session := "", lastToken := "");
      BareTwice(clear, w, "initialize");
      SendTwice(clear, w, "initialize");
      var u := DoSend(clear, w, "initialize").0;
      BareTwice(u, w, verb);
      SendTwice(u, w, verb);
    }
  }

  // ---------------------------------------------------------------- sessions and their tokens

  /** The session was opened under the token that will be compared next time. */
  predicate Coherent(s: State) {
    s.session != "" ==> s.issued == s.lastToken && s.lastToken != ""
  }

  /** Access tokens have at least one character (section A.12 of RFC 6749). */
  ghost predicate TokensNamed(w: World) {
    w.oauth && forall n :: w.token(n) != Some("")
  }

  /** The token changed twice within the call, and the reply to the request itself names a session. */
  predicate ChangesTwice(s: State, w: World) {
    && Reopens(s, w)
    && w.token(s.asked + 1).Some? && w.token(s.asked + 1) != Token(s, w)
    && var r := w.reply(|s.log| + 1); r.Reply? && r.status == OK && r.session != ""
  }

  lemma CoherentOnce(s: State, w: World, verb: string)
    requires TokensNamed(w) && s.session == ""
    ensures Coherent(DoSend(s, w, verb).0)
  {
  }

  /** A request keeps session and token together if and only if the token does not change twice within it. */
  lemma CoherentExactly(s: State, w: World, verb: string)
    requires TokensNamed(w) && Coherent(s)
    ensures Coherent(DoSend(s, w, verb).0) <==> !ChangesTwice(s, w)
  {
    if Reopens(s, w) {
      var a := Authenticated(s, w).(session := "");
      CoherentOnce(a, w, "initialize");
      assert a.asked == s.asked + 1 && a.lastToken == Token(s, w).value;
      if w.token(s.asked + 1).Some? { Reopening(s, w, verb); }
    }
  }

  /** Whether the token changes twice within the request, or within its repetition when there is one. */
  ghost predicate SendChangesTwice(s: State, w: World, verb: string) {
    var (t, r) := DoSend(s, w, verb);
    if Retries(r, w) then w.refreshes && ChangesTwice(DoSend(t.(session := "", lastToken := ""), w, "initialize").0, w)
    else ChangesTwice(s, w)
  }

  /** The same for a whole send: clearing the session before the retry makes good whatever went before. */
  lemma SendCoherentExactly(s: State, w: World, verb: string)
    requires TokensNamed(w) && Coherent(s)
    ensures Coherent(Send(s, w, verb).0) <==> !SendChangesTwice(s, w, verb)
  {
    var (t, r) := DoSend(s, w, verb);
    CoherentExactly(s, w, verb);
    if Retries(r, w) {
      if w.refreshes {
        var clear := t.(session := "", lastToken := "");
        CoherentOnce(clear, w, "initialize");
        CoherentExactly(DoSend(clear, w, "initialize").0, w, verb);
      } else if ChangesTwice(s, w) {
        Reopening(s, w, verb);
      }
    }
  }

  function AlwaysOpens(n: nat): Reply {
    Reply(OK, "s", Some("done"))
  }

  /** It happens: a coherent session, a token that changes twice, and a server that names a session in every
      reply. Afterwards the session is that of the first new token, the token compared next the second. */
  lemma IncoherentSend()
    ensures var w := World(true, true, "", FreshToken, AlwaysOpens, true);
            var s := State("s", "old", "old", 0, []);
      && TokensNamed(w) && Coherent(s) && ChangesTwice(s, w)
      && !Coherent(Send(s, w, "tools/call").0)
  {
    var w := World(true, true, "", FreshToken, AlwaysOpens, true);
    var s := State("s", "old", "old", 0, []);
    assert forall n: nat :: |FreshToken(n).value| == n + 1;
    assert |FreshToken(0).value| == 1 && |FreshToken(1).value| == 2;
    CoherentExactly(s, w, "tools/call");
    Reopening(s, w, "tools/call");
  }

  /** A notification keeps them together if and only if there is no session or the token is the old one. */
  lemma NotifyCoherentExactly(s: State, w: World, verb: string)
    requires TokensNamed(w) && Coherent(s)
    ensures Coherent(Notify(s, w, verb)) <==> s.session == "" || Token(s, w).None? || Token(s, w).value == s.lastToken
  {
  }

  /** After a notification with a new token, the next request goes out with the new token and the session of
      the old one; without the notification it would have opened a new session first. */
  lemma NotificationHidesRefresh(s: State, w: World, note: string, verb: string, token: string)
    requires w.oauth && w.manager && Coherent(s) && s.session != "" && s.lastToken != "" && s.lastToken != token
    requires forall n | n >= s.asked :: w.token(n) == Some(token)
    requires verb != "initialize"
    ensures Reopens(s, w) && s.log + [Exchange("initialize", "", token)] <= DoSend(s, w, verb).0.log
    ensures var n := Notify(s, w, note);
      && !Reopens(n, w)
      && DoSend(n, w, verb).0.log == n.log + [Exchange(verb, s.session, token)]
      && s.issued != token
  {
    assert w.token(s.asked) == Some(token) && w.token(s.asked + 1) == Some(token);
    Reopening(s, w, verb);
  }
}

/** The proxy as an object. */
module RemoteProxy {
  import opened Options
  import opened RemoteModel
  import opened RemoteProofs

  class RemoteProxy {
    var sessionId: string
    var lastToken: string
    ghost var issued: string
    var asked: nat
    var log: seq<Exchange>

    ghost function Now(): State
      reads this
    {
      State(sessionId, lastToken, issued, asked, log)
    }

    constructor ()
      ensures Now() == State("", "", "", 0, [])
    {
      sessionId, lastToken, issued, asked, log := "", "", "", 0, [];
    }

    method ApplyAuth(w: World) returns (token: Option<string>, refreshed: bool)
      modifies this
      ensures Now() == Authenticated(old(Now()), w)
      ensures token == Token(old(Now()), w) && refreshed == Refreshed(old(Now()), w)
      ensures token == Credential(w, old(asked)) && sessionId == old(sessionId) && log == old(log)
      ensures refreshed <==> w.oauth && token.Some? && old(lastToken) != "" && old(lastToken) != token.value
      ensures lastToken == if w.oauth && token.Some? then token.value else old(lastToken)
      ensures asked == if w.oauth && w.manager then old(asked) + 1 else old(asked)
    {
      refreshed := false;
      if !w.oauth { return Some(w.fixed), false; }
      if !w.manager { return None, false; }
      token := w.token(asked);
      asked := asked + 1;
      if token.None? { return; }
      if lastToken != "" && lastToken != token.value { refreshed := true; }
      lastToken := token.value;
    }

    method Reinitialize(w: World) returns (r: Result, ghost depth: nat)
      modifies this
      ensures (Now(), r) == RemoteModel.DoSend(old(Now()), w, "initialize")
      ensures depth == Nesting(old(Now()), w)
      decreases if sessionId != "" then 1 else 0, 1
    {
      r, depth := this.DoSend(w, "initialize");
    }

    /** One request, with the session re-opened first when the token changed under it. `depth` counts how deep
        the calls nest: at most two, because the session is gone before the inner one. */
    method DoSend(w: World, verb: string) returns (r: Result, ghost depth: nat)
      modifies this
      ensures (Now(), r) == RemoteModel.DoSend(old(Now()), w, verb)
      ensures depth == Nesting(old(Now()), w) <= if old(sessionId) != "" then 2 else 1
      ensures Serves(old(Now()), w, verb, Now(), r)
      decreases if sessionId != "" then 1 else 0, 0
    {
      depth := 1;
      NestsTwice(Now(), w);
      OneRequest(Now(), w, verb);
      var token, refreshed := ApplyAuth(w);
      if token.None? { return Result(0, None), depth; }
      if refreshed {
        var had := sessionId != "";
        sessionId := "";
        if had {
          var _, inner := Reinitialize(w);
          depth := depth + inner;
        }
      }
      if verb == "initialize" { sessionId := ""; }
      assert Now() == Prepared(old(Now()), w, verb);
      var reply := w.reply(|log|);
      log := log + [Exchange(verb, sessionId, token.value)];
      if reply.NoReply? { return Result(0, None), depth; }
      if reply.status != OK { return Result(reply.status, None), depth; }
      if reply.session != "" { sessionId, issued := reply.session, token.value; }
      r := Result(OK, reply.body);
    }

    method Send(w: World, verb: string) returns (response: Option<string>)
      modifies this
      ensures (Now(), response) == RemoteModel.Send(old(Now()), w, verb)
      ensures old(log) <= log && |log| <= |old(log)| + 5 && Bare(log, |old(log)|)
      ensures response.Some? ==> |log| > |old(log)| && log[|log| - 1].verb == verb && Returns(w.reply(|log| - 1), response)
      ensures !w.oauth || (w.manager && forall n :: w.token(n).Some?) ==>
                |log| > |old(log)| && log[|log| - 1].verb == verb && Returns(w.reply(|log| - 1), response)
    {
      SendReturns(Now(), w, verb);
      AtMostFive(Now(), w, verb);
      InitializeIsBare(Now(), w, verb);
      var r, _ := DoSend(w, verb);
      if r.status == UNAUTHORIZED && w.oauth && w.manager {
        if !w.refreshes { return None; }
        r := Retry(w, verb);
      }
      response := r.response;
    }

    /** A fresh session, and the request once more. */
    method Retry(w: World, verb: string) returns (r: Result)
      modifies this
      ensures (Now(), r) == RemoteModel.DoSend(RemoteModel.DoSend(old(Now()).(session := "", lastToken := ""), w, "initialize").0, w, verb)
    {
      sessionId, lastToken := "", "";
      var _, _ := Reinitialize(w);
      var again, _ := DoSend(w, verb);
      r := again;
    }

    method SendNotification(w: World, verb: string)
      modifies this
      ensures Now() == Notify(old(Now()), w, verb)
      ensures sessionId == old(sessionId)
      ensures var token := Credential(w, old(asked));
        log == if token.Some? then old(log) + [Exchange(verb, old(sessionId), token.value)] else old(log)
    {
      var sid := sessionId;
      var token, _ := ApplyAuth(w);
      if token.None? { return; }
      log := log + [Exchange(verb, sid, token.value)];
    }
  }
}
