/** Matching requests and responses over a stdio server (internal/proxy/stdio_bridge.go).

    Any number of callers run `Send`, one reader goroutine runs `readLoop`, and `Close` may come at any
    moment. Each event is one critical section or one channel operation. A channel operation that Go
    would answer with a panic, or on which the reader would block, is recorded as a fault, which stays. */
module StdioModel {
  import opened Options

  type Caller = nat
  type ChanRef = nat

  datatype Response = Response(id: string, body: string)

  /** A channel with room for one response. `owner` and `key` are the call and the request id it was
      made for; `sends` counts the responses ever put into it. */
  datatype Channel = Channel(owner: Caller, key: string, buffer: seq<Response>, closed: bool, sends: nat)

  datatype Outcome = Answer(resp: Response) | NilAnswer | BridgeClosed | WriteFailure | Cancelled

  datatype Call =
    | Checked(id: string)
    | Registered(id: string, ch: ChanRef)
    | Waiting(id: string, ch: ChanRef)
    | Done(id: string, outcome: Outcome)

  predicate InFlight(c: Call) { c.Registered? || c.Waiting? }

  datatype Fault = NoFault | SendOnClosed | SendBlocks | CloseOfClosed

  datatype Bridge = Bridge(
    pending: map<string, ChanRef>,
    chans: seq<Channel>,
    closed: bool,
    drained: bool,
    calls: map<Caller, Call>,
    inHand: Option<(ChanRef, Response)>, // what the reader has taken and not yet handed over
    fault: Fault)

  const INITIAL: Bridge := Bridge(map[], [], false, false, map[], None, NoFault)

  datatype Event =
    | Start(t: Caller, id: string) // the closed check
    | Register(t: Caller)
    | WriteFailed(t: Caller)
    | Written(t: Caller)
    | Receive(t: Caller)
    | Cancel(t: Caller)
    | Read(resp: Response)
    | HandOver
    | SetClosed
    | Drain

  predicate RefsInRange(s: Bridge) {
    && (forall id | id in s.pending :: s.pending[id] < |s.chans|)
    && (forall t | t in s.calls && InFlight(s.calls[t]) :: s.calls[t].ch < |s.chans|)
    && (s.inHand.Some? ==> s.inHand.value.0 < |s.chans|)
  }

  predicate Enabled(s: Bridge, e: Event)
    requires RefsInRange(s)
  {
    match e
    case Start(t, _) => t !in s.calls
    case Register(t) => t in s.calls && s.calls[t].Checked?
    case WriteFailed(t) => t in s.calls && s.calls[t].Registered?
    case Written(t) => t in s.calls && s.calls[t].Registered?
    case Receive(t) =>
      t in s.calls && s.calls[t].Waiting? && (s.chans[s.calls[t].ch].buffer != [] || s.chans[s.calls[t].ch].closed)
    case Cancel(t) => t in s.calls && s.calls[t].Waiting?
    case Read(_) => s.inHand.None?
    case HandOver => s.inHand.Some?
    case SetClosed => !s.closed
    case Drain => s.closed && !s.drained
  }

  /** Where the acting caller goes. */
  function CallAfter(s: Bridge, e: Event): Call
    requires RefsInRange(s) && Enabled(s, e) && IsCallers(e)
  {
    match e
    case Start(_, id) => if s.closed then Done(id, BridgeClosed) else Checked(id)
    case Register(t) => Registered(s.calls[t].id, |s.chans|)
    case WriteFailed(t) => Done(s.calls[t].id, WriteFailure)
    case Written(t) => Waiting(s.calls[t].id, s.calls[t].ch)
    case Receive(t) =>
      var c := s.chans[s.calls[t].ch];
      Done(s.calls[t].id, if c.buffer != [] then Answer(c.buffer[0]) else NilAnswer)
    case Cancel(t) => Done(s.calls[t].id, Cancelled)
  }

  predicate IsCallers(e: Event) {
    e.Start? || e.Register? || e.WriteFailed? || e.Written? || e.Receive? || e.Cancel?
  }

  function PendingAfter(s: Bridge, e: Event): map<string, ChanRef>
    requires RefsInRange(s) && Enabled(s, e)
  {
    match e
    case Register(t) => s.pending[s.calls[t].id := |s.chans|]
    case WriteFailed(t) => s.pending - {s.calls[t].id}
    case Cancel(t) => s.pending - {s.calls[t].id}
    case Read(r) => s.pending - {r.id}
    case Drain => map[]
    case _ => s.pending
  }

  /** What a channel operation would do wrong. */
  function FaultOf(s: Bridge, e: Event): Fault
    requires RefsInRange(s) && Enabled(s, e)
  {
    match e
    case HandOver =>
      var c := s.chans[s.inHand.value.0];
      if c.closed then SendOnClosed else if c.buffer != [] then SendBlocks else s.fault
    case Drain => if exists id :: id in s.pending && s.chans[s.pending[id]].closed then CloseOfClosed else s.fault
    case _ => s.fault
  }

  /** These channels, closed. */
  function ClosedAt(chans: seq<Channel>, refs: set<ChanRef>): seq<Channel> {
    seq(|chans|, i requires 0 <= i < |chans| => if i in refs then chans[i].(closed := true) else chans[i])
  }

  function ChansAfter(s: Bridge, e: Event): seq<Channel>
    requires RefsInRange(s) && Enabled(s, e)
  {
    match e
    case Register(t) => s.chans + [Channel(t, s.calls[t].id, [], false, 0)]
    case Receive(t) => s.chans[s.calls[t].ch := s.chans[s.calls[t].ch].(buffer := [])]
    case HandOver =>
      var (ch, r) := s.inHand.value;
      s.chans[ch := s.chans[ch].(buffer := [r], sends := s.chans[ch].sends + 1)]
    case Drain => ClosedAt(s.chans, s.pending.Values)
    case _ => s.chans
  }

  function InHandAfter(s: Bridge, e: Event): Option<(ChanRef, Response)>
    requires RefsInRange(s) && Enabled(s, e)
  {
    match e
    case Read(r) => if r.id in s.pending then Some((s.pending[r.id], r)) else None
    case HandOver => None
    case _ => s.inHand
  }

  function Apply(s: Bridge, e: Event): (s': Bridge)
    requires RefsInRange(s) && Enabled(s, e)
  {
    Bridge(PendingAfter(s, e), ChansAfter(s, e), s.closed || e.SetClosed?, s.drained || e.Drain?,
           if IsCallers(e) then s.calls[e.t := CallAfter(s, e)] else s.calls,
           InHandAfter(s, e), FaultOf(s, e))
  }

  lemma StepKeepsRefs(s: Bridge, e: Event)
    requires RefsInRange(s) && Enabled(s, e)
    ensures RefsInRange(Apply(s, e))
  {
  }

  ghost predicate Step(s: Bridge, e: Event, s': Bridge) {
    RefsInRange(s) && Enabled(s, e) && s' == Apply(s, e)
  }

  ghost predicate IsRun(ss: seq<Bridge>, es: seq<Event>) {
    && |ss| == |es| + 1
    && ss[0] == INITIAL
    && forall i {:trigger es[i]} | 0 <= i < |es| :: Step(ss[i], es[i], ss[i + 1])
  }

  lemma RunExtends(ss: seq<Bridge>, es: seq<Event>, e: Event, s': Bridge)
    requires IsRun(ss, es) && Step(ss[|es|], e, s')
    ensures IsRun(ss + [s'], es + [e])
  {
    var ss', es' := ss + [s'], es + [e];
    forall i | 0 <= i < |es'| ensures Step(ss'[i], es'[i], ss'[i + 1]) {
      assert i < |es| ==> Step(ss[i], es[i], ss[i + 1]);
    }
  }
}

/** What holds in every interleaving. */
module StdioSafety {
  import opened Options
  import opened StdioModel

  /** A channel nobody has used yet. */
  predicate Untouched(c: Channel) { !c.closed && c.buffer == [] && c.sends == 0 }

  ghost predicate ChannelsInv(s: Bridge)
    requires RefsInRange(s)
  {
    && s.fault.NoFault?
    && (forall id | id in s.pending :: Untouched(s.chans[s.pending[id]]) && s.chans[s.pending[id]].key == id)
    && (forall i | 0 <= i < |s.chans| :: s.chans[i].sends <= 1 && (s.chans[i].closed ==> s.chans[i].sends == 0)
          && |s.chans[i].buffer| <= 1 && (s.chans[i].buffer != [] ==> s.chans[i].buffer[0].id == s.chans[i].key))
    && (s.inHand.Some? ==>
          var (ch, r) := s.inHand.value;
          Untouched(s.chans[ch]) && s.chans[ch].key == r.id && (forall id | id in s.pending :: s.pending[id] != ch))
  }

  ghost predicate CallsInv(s: Bridge)
    requires RefsInRange(s)
  {
    && (forall t | t in s.calls && InFlight(s.calls[t]) ::
          s.chans[s.calls[t].ch].key == s.calls[t].id && s.chans[s.calls[t].ch].owner == t)
    && (forall t | t in s.calls && s.calls[t].Done? && s.calls[t].outcome.Answer? ::
          s.calls[t].outcome.resp.id == s.calls[t].id)
  }

  ghost predicate Inv(s: Bridge) {
    RefsInRange(s) && ChannelsInv(s) && CallsInv(s)
  }

  // The invariant is kept, shown for one group of events at a time.

  predicate Bookkeeping(e: Event) { e.Start? || e.WriteFailed? || e.Written? || e.Cancel? }

  lemma BookkeepingKeepsInv(s: Bridge, e: Event)
    requires Inv(s) && Enabled(s, e) && Bookkeeping(e)
    ensures Inv(Apply(s, e))
  {
  }

  lemma RegisterKeepsInv(s: Bridge, t: Caller)
    requires Inv(s) && Enabled(s, Register(t))
    ensures Inv(Apply(s, Register(t)))
  {
  }

  lemma ReceiveKeepsInv(s: Bridge, t: Caller)
    requires Inv(s) && Enabled(s, Receive(t))
    ensures Inv(Apply(s, Receive(t)))
  {
    StepKeepsRefs(s, Receive(t));
  }

  lemma ReaderKeepsInv(s: Bridge, e: Event)
    requires Inv(s) && Enabled(s, e) && (e.Read? || e.HandOver?)
    ensures Inv(Apply(s, e))
  {
  }

  lemma CloseKeepsInv(s: Bridge, e: Event)
    requires Inv(s) && Enabled(s, e) && (e.SetClosed? || e.Drain?)
    ensures Inv(Apply(s, e))
  {
  }

  lemma StepKeepsInv(s: Bridge, e: Event)
    requires Inv(s) && Enabled(s, e)
    ensures Inv(Apply(s, e))
  {
    match e
    case Register(t) => RegisterKeepsInv(s, t);
    case Receive(t) => ReceiveKeepsInv(s, t);
    case Read(_) => ReaderKeepsInv(s, e);
    case HandOver => ReaderKeepsInv(s, e);
    case SetClosed => CloseKeepsInv(s, e);
    case Drain => CloseKeepsInv(s, e);
    case _ => BookkeepingKeepsInv(s, e);
  }

  lemma {:induction false} ReachableInv(ss: seq<Bridge>, es: seq<Event>, i: nat)
    requires IsRun(ss, es) && i < |ss|
    ensures Inv(ss[i])
  {
    if i == 0 {
    } else {
      ReachableInv(ss, es, i - 1);
      StepKeepsInv(ss[i - 1], es[i - 1]);
    }
  }

  /** Listed channels are open, and each is listed once. */
  lemma ListedChannels(ss: seq<Bridge>, es: seq<Event>, i: nat)
    requires IsRun(ss, es) && i < |ss|
    ensures RefsInRange(ss[i])
    ensures forall id | id in ss[i].pending :: !ss[i].chans[ss[i].pending[id]].closed
    ensures forall a, b | a in ss[i].pending && b in ss[i].pending && a != b :: ss[i].pending[a] != ss[i].pending[b]
  {
    ReachableInv(ss, es, i);
    assert forall id | id in ss[i].pending :: ss[i].chans[ss[i].pending[id]].key == id;
  }

  /** Channel safety, duplicate ids included: nothing is ever sent on a closed channel, the reader never
      blocks on a full one, no channel is closed twice, and each channel carries at most one response. */
  lemma ChannelSafety(ss: seq<Bridge>, es: seq<Event>, i: nat, ch: ChanRef)
    requires IsRun(ss, es) && i < |ss| && ch < |ss[i].chans|
    ensures ss[i].fault.NoFault?
    ensures ss[i].chans[ch].sends <= 1
    ensures ss[i].chans[ch].closed ==> ss[i].chans[ch].sends == 0
    ensures i < |es| && es[i].HandOver? && ss[i].inHand.Some? && ss[i].inHand.value.0 == ch ==>
              !ss[i].chans[ch].closed && ss[i].chans[ch].buffer == []
    ensures i < |es| && es[i].Drain? && ch in ss[i].pending.Values ==> !ss[i].chans[ch].closed
  {
    ReachableInv(ss, es, i);
  }

  /** A waiting call can return as soon as a response lies in its channel or the channel is closed, and not before
      unless its context ends. */
  lemma ReturnsExactly(ss: seq<Bridge>, es: seq<Event>, i: nat, t: Caller)
    requires IsRun(ss, es) && i < |ss| && t in ss[i].calls && ss[i].calls[t].Waiting?
    ensures RefsInRange(ss[i]) && Enabled(ss[i], Cancel(t))
    ensures var c := ss[i].chans[ss[i].calls[t].ch];
      && (Enabled(ss[i], Receive(t)) <==> c.buffer != [] || c.closed)
      && (c.closed && c.buffer == [] ==> Enabled(ss[i], Receive(t)) && Apply(ss[i], Receive(t)).calls[t] == Done(ss[i].calls[t].id, NilAnswer))
      && (c.buffer != [] ==> Enabled(ss[i], Receive(t)) && Apply(ss[i], Receive(t)).calls[t] == Done(ss[i].calls[t].id, Answer(c.buffer[0])))
  {
    ReachableInv(ss, es, i);
  }

  /** A caller that gets an answer gets one that carries its own id. */
  lemma AnswersMatch(ss: seq<Bridge>, es: seq<Event>, i: nat, t: Caller)
    requires IsRun(ss, es) && i < |ss| && t in ss[i].calls
    requires ss[i].calls[t].Done? && ss[i].calls[t].outcome.Answer?
    ensures ss[i].calls[t].outcome.resp.id == ss[i].calls[t].id
  {
    ReachableInv(ss, es, i);
  }

  // ---------------------------------------------------------------- one caller's view

  /** The bridge as seen from one call in flight: its channel, whether the reader would find that
      channel under the call's id, and the response the reader is about to put into it. */
  datatype Link = Link(call: Call, chan: Channel, listed: bool, held: Option<Response>)

  ghost function LinkOf(s: Bridge, t: Caller): Link
    requires RefsInRange(s) && t in s.calls && InFlight(s.calls[t])
  {
    var c := s.calls[t];
    Link(c, s.chans[c.ch], c.id in s.pending && s.pending[c.id] == c.ch,
         if s.inHand.Some? && s.inHand.value.0 == c.ch then Some(s.inHand.value.1) else None)
  }

  /** Everything a step can do to a call in flight. */
  ghost predicate LinkNext(s: Bridge, e: Event, t: Caller)
    requires RefsInRange(s) && Enabled(s, e) && t in s.calls && InFlight(s.calls[t])
  {
    var s', l := Apply(s, e), LinkOf(s, t);
    RefsInRange(s') && t in s'.calls &&
    if InFlight(s'.calls[t]) then
      var l' := LinkOf(s', t);
      || l' == l
      || (e == Written(t) && l' == l.(call := Waiting(l.call.id, l.call.ch)))
      || ((e.Register? || e.WriteFailed? || e.Cancel?) && e.t != t && s.calls[e.t].id == l.call.id && l' == l.(listed := false))
      || (e.Read? && l.listed && e.resp.id == l.call.id && l' == l.(listed := false, held := Some(e.resp)))
      || (e.HandOver? && l.held.Some?
          && l' == l.(held := None, chan := l.chan.(buffer := [l.held.value], sends := l.chan.sends + 1)))
      || (e.Drain? && l.listed && l' == l.(listed := false, chan := l.chan.(closed := true)))
    else
      || (e == WriteFailed(t) && s'.calls[t] == Done(l.call.id, WriteFailure))
      || (e == Cancel(t) && s'.calls[t] == Done(l.call.id, Cancelled))
      || (e == Receive(t) && l.chan.buffer != [] && s'.calls[t] == Done(l.call.id, Answer(l.chan.buffer[0])))
      || (e == Receive(t) && l.chan.buffer == [] && l.chan.closed && s'.calls[t] == Done(l.call.id, NilAnswer))
  }

  lemma BookkeepingLink(s: Bridge, e: Event, t: Caller)
    requires Inv(s) && Enabled(s, e) && Bookkeeping(e) && t in s.calls && InFlight(s.calls[t])
    ensures LinkNext(s, e, t)
  {
    BookkeepingKeepsInv(s, e);
    var s' := Apply(s, e);
    assert s'.chans == s.chans && s'.inHand == s.inHand;
    if e.t != t {
      assert s'.calls[t] == s.calls[t];
      if e.Start? || e.Written? || s.calls[e.t].id != s.calls[t].id {
        assert LinkOf(s', t) == LinkOf(s, t);
      }
    }
  }

  lemma RegisterLink(s: Bridge, u: Caller, t: Caller)
    requires Inv(s) && Enabled(s, Register(u)) && t in s.calls && InFlight(s.calls[t])
    ensures LinkNext(s, Register(u), t)
  {
  }

  lemma ReceiveLink(s: Bridge, u: Caller, t: Caller)
    requires Inv(s) && Enabled(s, Receive(u)) && t in s.calls && InFlight(s.calls[t])
    ensures LinkNext(s, Receive(u), t)
  {
    ReceiveKeepsInv(s, u);
    if u != t { assert LinkOf(Apply(s, Receive(u)), t) == LinkOf(s, t); }
  }

  lemma ReaderLink(s: Bridge, e: Event, t: Caller)
    requires Inv(s) && Enabled(s, e) && (e.Read? || e.HandOver?) && t in s.calls && InFlight(s.calls[t])
    ensures LinkNext(s, e, t)
  {
    ReaderKeepsInv(s, e);
    assert Apply(s, e).calls == s.calls;
  }

  lemma CloseLink(s: Bridge, e: Event, t: Caller)
    requires Inv(s) && Enabled(s, e) && (e.SetClosed? || e.Drain?) && t in s.calls && InFlight(s.calls[t])
    ensures LinkNext(s, e, t)
  {
    var ch := s.calls[t].ch;
    assert ch in s.pending.Values <==> LinkOf(s, t).listed;
  }

  lemma StepLink(s: Bridge, e: Event, t: Caller)
    requires Inv(s) && Enabled(s, e) && t in s.calls && InFlight(s.calls[t])
    ensures LinkNext(s, e, t)
  {
    match e
    case Register(u) => RegisterLink(s, u, t);
    case Receive(u) => ReceiveLink(s, u, t);
    case Read(_) => ReaderLink(s, e, t);
    case HandOver => ReaderLink(s, e, t);
    case SetClosed => CloseLink(s, e, t);
    case Drain => CloseLink(s, e, t);
    case _ => BookkeepingLink(s, e, t);
  }

  lemma FinishedStays(s: Bridge, e: Event, t: Caller)
    requires RefsInRange(s) && Enabled(s, e) && t in s.calls && s.calls[t].Done?
    ensures t in Apply(s, e).calls && Apply(s, e).calls[t] == s.calls[t]
  {
  }

  // ---------------------------------------------------------------- distinct ids

  /** `t` registers an id that no other call in flight uses. */
  ghost predicate Unshared(s: Bridge, t: Caller)
    requires t in s.calls
  {
    forall u | u in s.calls && u != t && InFlight(s.calls[u]) :: s.calls[u].id != s.calls[t].id
  }

  ghost predicate DistinctRegistrations(ss: seq<Bridge>, es: seq<Event>)
    requires IsRun(ss, es)
  {
    forall i | 0 <= i < |es| && es[i].Register? :: Unshared(ss[i], es[i].t)
  }

  /** The caller's response is under way, or its channel was closed. */
  predicate Served(l: Link) { l.chan.buffer != [] || l.chan.closed || l.held.Some? }

  ghost predicate IdsDistinct(s: Bridge) {
    forall t, u | t in s.calls && u in s.calls && t != u && InFlight(s.calls[t]) && InFlight(s.calls[u]) ::
      s.calls[t].id != s.calls[u].id
  }

  /** Every call in flight can still be reached by the reader, or has been served. */
  ghost predicate Routed(s: Bridge)
    requires RefsInRange(s)
  {
    && IdsDistinct(s)
    && (forall t | t in s.calls && InFlight(s.calls[t]) :: LinkOf(s, t).listed || Served(LinkOf(s, t)))
  }

  lemma StepKeepsIdsDistinct(s: Bridge, e: Event)
    requires RefsInRange(s) && IdsDistinct(s) && Enabled(s, e)
    requires e.Register? ==> Unshared(s, e.t)
    ensures IdsDistinct(Apply(s, e))
  {
  }

  lemma NewInFlight(s: Bridge, e: Event, t: Caller)
    requires RefsInRange(s) && Enabled(s, e) && t in Apply(s, e).calls && InFlight(Apply(s, e).calls[t])
    ensures e == Register(t) || (t in s.calls && InFlight(s.calls[t]))
  {
  }

  lemma StepKeepsRouted(s: Bridge, e: Event)
    requires Inv(s) && Routed(s) && Enabled(s, e)
    requires e.Register? ==> Unshared(s, e.t)
    ensures RefsInRange(Apply(s, e)) && Routed(Apply(s, e))
  {
    StepKeepsInv(s, e);
    StepKeepsIdsDistinct(s, e);
    var s' := Apply(s, e);
    forall t | t in s'.calls && InFlight(s'.calls[t]) ensures LinkOf(s', t).listed || Served(LinkOf(s', t)) {
      NewInFlight(s, e, t);
      if e != Register(t) {
        StepLink(s, e, t);
      }
    }
  }

  lemma {:induction false} AlwaysRouted(ss: seq<Bridge>, es: seq<Event>, i: nat)
    requires IsRun(ss, es) && DistinctRegistrations(ss, es) && i < |ss|
    ensures RefsInRange(ss[i]) && Routed(ss[i])
  {
    if i == 0 {
    } else {
      AlwaysRouted(ss, es, i - 1);
      ReachableInv(ss, es, i - 1);
      var s, e := ss[i - 1], es[i - 1];
      assert Step(s, e, ss[i]);
      StepKeepsRouted(s, e);
    }
  }

  /** The response `r` belongs to caller `t` and is on its way, has arrived, or was given up by `t`. */
  ghost predicate Bound(s: Bridge, t: Caller, r: Response)
    requires RefsInRange(s)
  {
    && t in s.calls
    && if InFlight(s.calls[t]) then
         LinkOf(s, t).held == Some(r) || LinkOf(s, t).chan.buffer == [r]
       else
         && s.calls[t].Done?
         && (s.calls[t].outcome == Answer(r) || s.calls[t].outcome.Cancelled? || s.calls[t].outcome.WriteFailure?)
  }

  lemma StepKeepsBound(s: Bridge, e: Event, t: Caller, r: Response)
    requires Inv(s) && Enabled(s, e) && Bound(s, t, r)
    ensures RefsInRange(Apply(s, e)) && Bound(Apply(s, e), t, r)
  {
    if InFlight(s.calls[t]) {
      StepLink(s, e, t);
    } else {
      FinishedStays(s, e, t);
      StepKeepsRefs(s, e);
    }
  }

  lemma {:induction false} BoundSince(ss: seq<Bridge>, es: seq<Event>, i: nat, j: nat, t: Caller, r: Response)
    requires IsRun(ss, es) && i <= j < |ss| && RefsInRange(ss[i]) && Bound(ss[i], t, r)
    ensures RefsInRange(ss[j]) && Bound(ss[j], t, r)
  {
    if i == j {
    } else {
      BoundSince(ss, es, i, j - 1, t, r);
      ReachableInv(ss, es, j - 1);
      StepKeepsBound(ss[j - 1], es[j - 1], t, r);
    }
  }

  /** With pairwise distinct ids in flight, a response read while its caller is still unserved goes to
      that caller: from then on the caller is about to get it, has it, has returned it, or gave up. */
  lemma ResponseReachesItsCaller(ss: seq<Bridge>, es: seq<Event>, i: nat, j: nat, t: Caller)
    requires IsRun(ss, es) && DistinctRegistrations(ss, es) && i < j < |ss|
    requires es[i].Read? && t in ss[i].calls && InFlight(ss[i].calls[t])
    requires RefsInRange(ss[i]) && !Served(LinkOf(ss[i], t))
    requires ss[i].calls[t].id == es[i].resp.id
    ensures RefsInRange(ss[j]) && Bound(ss[j], t, es[i].resp)
  {
    AlwaysRouted(ss, es, i);
    ReachableInv(ss, es, i);
    StepLink(ss[i], es[i], t);
    BoundSince(ss, es, i + 1, j, t, es[i].resp);
  }

  // ---------------------------------------------------------------- duplicate ids

  /** Nobody holds the other end of the caller's channel any more. */
  ghost predicate Orphaned(s: Bridge, t: Caller)
    requires RefsInRange(s)
  {
    && t in s.calls
    && if InFlight(s.calls[t]) then
         !LinkOf(s, t).listed && !Served(LinkOf(s, t))
       else
         s.calls[t].Done? && (s.calls[t].outcome.Cancelled? || s.calls[t].outcome.WriteFailure?)
  }

  /** `e` is a step of another call with the same id that replaces or removes the listing under that id. */
  ghost predicate NamesakeActs(s: Bridge, e: Event, t: Caller) {
    && t in s.calls
    && (e.Register? || e.WriteFailed? || e.Cancel?)
    && e.t != t && e.t in s.calls && s.calls[e.t].id == s.calls[t].id
  }

  /** A listed caller that nobody has served yet is cut off by exactly these steps. */
  lemma CutOffExactly(s: Bridge, e: Event, t: Caller)
    requires Inv(s) && Enabled(s, e) && t in s.calls && InFlight(s.calls[t])
    requires LinkOf(s, t).listed && !Served(LinkOf(s, t)) && !(IsCallers(e) && e.t == t)
    ensures RefsInRange(Apply(s, e))
    ensures Orphaned(Apply(s, e), t) <==> NamesakeActs(s, e, t)
  {
    StepKeepsInv(s, e);
    StepLink(s, e, t);
    if NamesakeActs(s, e, t) { NamesakeUnlists(s, e, t); }
  }

  lemma NamesakeUnlists(s: Bridge, e: Event, t: Caller)
    requires Inv(s) && Enabled(s, e) && t in s.calls && InFlight(s.calls[t]) && NamesakeActs(s, e, t)
    ensures RefsInRange(Apply(s, e)) && t in Apply(s, e).calls && InFlight(Apply(s, e).calls[t])
    ensures !LinkOf(Apply(s, e), t).listed
  {
    StepKeepsRefs(s, e);
  }

  /** Step `k` of the run cuts `t` off. */
  ghost predicate CutAt(ss: seq<Bridge>, es: seq<Event>, k: nat, t: Caller)
    requires IsRun(ss, es) && k < |es|
  {
    && RefsInRange(ss[k]) && t in ss[k].calls && InFlight(ss[k].calls[t])
    && LinkOf(ss[k], t).listed && !Served(LinkOf(ss[k], t)) && NamesakeActs(ss[k], es[k], t)
  }

  lemma CutOrphans(ss: seq<Bridge>, es: seq<Event>, k: nat, t: Caller)
    requires IsRun(ss, es) && k < |es| && CutAt(ss, es, k, t)
    ensures RefsInRange(ss[k + 1]) && Orphaned(ss[k + 1], t)
  {
    ReachableInv(ss, es, k);
    assert Step(ss[k], es[k], ss[k + 1]);
    CutOffExactly(ss[k], es[k], t);
  }

  /** The step that made a call in flight an orphan. */
  lemma {:induction false} OrphanWasCut(ss: seq<Bridge>, es: seq<Event>, j: nat, t: Caller) returns (k: nat)
    requires IsRun(ss, es) && j < |ss| && RefsInRange(ss[j]) && Orphaned(ss[j], t) && InFlight(ss[j].calls[t])
    ensures k < j && CutAt(ss, es, k, t)
  {
    assert j > 0;
    var s, e := ss[j - 1], es[j - 1];
    ReachableInv(ss, es, j - 1);
    assert Step(s, e, ss[j]);
    NewInFlight(s, e, t);
    k := 0;
    if e != Register(t) {
      StepLink(s, e, t);
      if LinkOf(s, t).listed { k := j - 1; } else { k := OrphanWasCut(ss, es, j - 1, t); }
    }
  }

  /** Over whole runs: a call in flight is an orphan if and only if some earlier step of a namesake cut it off. */
  lemma OrphanedExactly(ss: seq<Bridge>, es: seq<Event>, j: nat, t: Caller)
    requires IsRun(ss, es) && j < |ss| && t in ss[j].calls && InFlight(ss[j].calls[t])
    ensures RefsInRange(ss[j]) && (Orphaned(ss[j], t) <==> exists k :: 0 <= k < j && CutAt(ss, es, k, t))
  {
    ReachableInv(ss, es, j);
    if Orphaned(ss[j], t) {
      var k := OrphanWasCut(ss, es, j, t);
    }
    if k :| 0 <= k < j && CutAt(ss, es, k, t) {
      CutOrphans(ss, es, k, t);
      OrphanNeverAnswered(ss, es, k + 1, j, t);
    }
  }

  /** A caller that was cut off never gets an answer: whatever is read later, and even when the bridge
      is closed, it returns only by cancellation or because its own write fails. */
  lemma {:induction false} OrphanNeverAnswered(ss: seq<Bridge>, es: seq<Event>, i: nat, j: nat, t: Caller)
    requires IsRun(ss, es) && i <= j < |ss| && RefsInRange(ss[i]) && Orphaned(ss[i], t)
    ensures RefsInRange(ss[j]) && Orphaned(ss[j], t)
    ensures ss[j].calls[t].Done? ==> ss[j].calls[t].outcome.Cancelled? || ss[j].calls[t].outcome.WriteFailure?
  {
    if i == j {
    } else {
      OrphanNeverAnswered(ss, es, i, j - 1, t);
      ReachableInv(ss, es, j - 1);
      if InFlight(ss[j - 1].calls[t]) {
        StepLink(ss[j - 1], es[j - 1], t);
      } else {
        FinishedStays(ss[j - 1], es[j - 1], t);
        StepKeepsRefs(ss[j - 1], es[j - 1]);
      }
    }
  }

  /** A bridge on which nothing went wrong and nothing was closed. */
  function Open(pending: map<string, ChanRef>, chans: seq<Channel>, calls: map<Caller, Call>): Bridge {
    Bridge(pending, chans, false, false, calls, None, NoFault)
  }

  /** Two calls with one id: the second registration cuts the first off. */
  lemma SecondRegistersOverFirst(id: string) returns (ss: seq<Bridge>, es: seq<Event>)
    ensures IsRun(ss, es) && es == [Start(0, id), Register(0), Written(0), Start(1, id), Register(1)]
    ensures var c := [Channel(0, id, [], false, 0), Channel(1, id, [], false, 0)];
      ss[5] == Open(map[id := 1], c, map[0 := Waiting(id, 0), 1 := Registered(id, 1)])
    ensures RefsInRange(ss[5]) && Orphaned(ss[5], 0) && InFlight(ss[5].calls[0])
  {
    ss, es := FirstRegisters(id);
    var c := [Channel(0, id, [], false, 0)];
    var s3 := Open(map[id := 0], c, map[0 := Waiting(id, 0)]);
    RunExtends(ss, es, Written(0), s3);
    ss, es := ss + [s3], es + [Written(0)];
    ss, es := SecondEnters(ss, es, id, c);
  }

  lemma FirstRegisters(id: string) returns (ss: seq<Bridge>, es: seq<Event>)
    ensures IsRun(ss, es) && es == [Start(0, id), Register(0)]
    ensures ss[2] == Open(map[id := 0], [Channel(0, id, [], false, 0)], map[0 := Registered(id, 0)])
  {
    var s1 := Open(map[], [], map[0 := Checked(id)]);
    var s2 := Open(map[id := 0], [Channel(0, id, [], false, 0)], map[0 := Registered(id, 0)]);
    ss, es := [INITIAL], [];
    RunExtends(ss, es, Start(0, id), s1);
    ss, es := ss + [s1], es + [Start(0, id)];
    RunExtends(ss, es, Register(0), s2);
    ss, es := ss + [s2], es + [Register(0)];
  }

  lemma SecondEnters(ss: seq<Bridge>, es: seq<Event>, id: string, c: seq<Channel>) returns (ss': seq<Bridge>, es': seq<Event>)
    requires IsRun(ss, es) && c == [Channel(0, id, [], false, 0)] && ss[|es|] == Open(map[id := 0], c, map[0 := Waiting(id, 0)])
    ensures IsRun(ss', es') && es' == es + [Start(1, id), Register(1)]
    ensures ss'[|es'|] == Open(map[id := 1], c + [Channel(1, id, [], false, 0)], map[0 := Waiting(id, 0), 1 := Registered(id, 1)])
  {
    var s4 := Open(map[id := 0], c, map[0 := Waiting(id, 0), 1 := Checked(id)]);
    RunExtends(ss, es, Start(1, id), s4);
    ss', es' := ss + [s4], es + [Start(1, id)];
    var s5 := Open(map[id := 1], c + [Channel(1, id, [], false, 0)], map[0 := Waiting(id, 0), 1 := Registered(id, 1)]);
    RunExtends(ss', es', Register(1), s5);
    ss', es' := ss' + [s5], es' + [Register(1)];
  }

  /** Then the first gives up and takes the second's listing with it: both are orphans, though the second was
      the last to register. */
  lemma FirstUnlistsSecond(id: string) returns (ss: seq<Bridge>, es: seq<Event>)
    ensures IsRun(ss, es) && |es| == 7 && es[6] == Cancel(0)
    ensures RefsInRange(ss[7]) && Orphaned(ss[7], 1) && ss[7].calls[1] == Waiting(id, 1)
  {
    ss, es := SecondRegistersOverFirst(id);
    var c := [Channel(0, id, [], false, 0), Channel(1, id, [], false, 0)];
    var s6 := Open(map[id := 1], c, map[0 := Waiting(id, 0), 1 := Waiting(id, 1)]);
    RunExtends(ss, es, Written(1), s6);
    ss, es := ss + [s6], es + [Written(1)];
    var s7 := Open(map[], c, map[0 := Done(id, Cancelled), 1 := Waiting(id, 1)]);
    RunExtends(ss, es, Cancel(0), s7);
    ss, es := ss + [s7], es + [Cancel(0)];
  }

  // ---------------------------------------------------------------- closing

  lemma {:induction false} ServedStays(ss: seq<Bridge>, es: seq<Event>, i: nat, j: nat, t: Caller)
    requires IsRun(ss, es) && i <= j < |ss| && RefsInRange(ss[i]) && t in ss[i].calls && InFlight(ss[i].calls[t])
    requires Served(LinkOf(ss[i], t))
    ensures RefsInRange(ss[j]) && t in ss[j].calls
    ensures if InFlight(ss[j].calls[t]) then Served(LinkOf(ss[j], t)) else ss[j].calls[t].Done?
  {
    if i == j {
    } else {
      ServedStays(ss, es, i, j - 1, t);
      ReachableInv(ss, es, j - 1);
      assert Step(ss[j - 1], es[j - 1], ss[j]);
      StepKeepsRefs(ss[j - 1], es[j - 1]);
      if InFlight(ss[j - 1].calls[t]) {
        StepLink(ss[j - 1], es[j - 1], t);
      } else {
        FinishedStays(ss[j - 1], es[j - 1], t);
      }
    }
  }

  /** With distinct ids, closing the bridge leaves nobody waiting in vain: every call in flight when the list is
      drained has its response under way or its channel closed from then on, until it returns. */
  lemma CloseReleases(ss: seq<Bridge>, es: seq<Event>, k: nat, j: nat, t: Caller)
    requires IsRun(ss, es) && DistinctRegistrations(ss, es) && k < j < |ss| && es[k].Drain?
    requires t in ss[k].calls && InFlight(ss[k].calls[t])
    ensures RefsInRange(ss[j]) && t in ss[j].calls
    ensures if InFlight(ss[j].calls[t]) then Served(LinkOf(ss[j], t)) else ss[j].calls[t].Done?
  {
    ServedAtDrain(ss, es, k, t);
    ServedStays(ss, es, k + 1, j, t);
  }

  lemma ServedAtDrain(ss: seq<Bridge>, es: seq<Event>, k: nat, t: Caller)
    requires IsRun(ss, es) && DistinctRegistrations(ss, es) && k < |es| && es[k].Drain?
    requires t in ss[k].calls && InFlight(ss[k].calls[t])
    ensures RefsInRange(ss[k + 1]) && t in ss[k + 1].calls && InFlight(ss[k + 1].calls[t]) && Served(LinkOf(ss[k + 1], t))
  {
    AlwaysRouted(ss, es, k);
    ReachableInv(ss, es, k);
    assert Step(ss[k], es[k], ss[k + 1]);
    DrainServes(ss[k], t);
  }

  lemma DrainServes(s: Bridge, t: Caller)
    requires Inv(s) && Routed(s) && Enabled(s, Drain) && t in s.calls && InFlight(s.calls[t])
    ensures RefsInRange(Apply(s, Drain)) && InFlight(Apply(s, Drain).calls[t]) && Served(LinkOf(Apply(s, Drain), t))
  {
    StepKeepsRefs(s, Drain);
    CloseLink(s, Drain, t);
    assert !LinkOf(Apply(s, Drain), t).listed;
  }

  lemma {:induction false} DrainedStays(ss: seq<Bridge>, es: seq<Event>, i: nat, j: nat)
    requires IsRun(ss, es) && i <= j < |ss| && ss[i].drained
    ensures ss[j].drained
  {
    if i == j {
    } else {
      DrainedStays(ss, es, i, j - 1);
      assert Step(ss[j - 1], es[j - 1], ss[j]);
    }
  }

  /** The call still waits on an open channel, or returned by itself. */
  ghost predicate Unreleased(s: Bridge, t: Caller)
    requires RefsInRange(s)
  {
    && t in s.calls
    && if InFlight(s.calls[t]) then !LinkOf(s, t).chan.closed
       else s.calls[t].Done? && s.calls[t].outcome != NilAnswer && s.calls[t].outcome != BridgeClosed
  }

  lemma StepKeepsUnreleased(s: Bridge, e: Event, t: Caller)
    requires Inv(s) && s.drained && Enabled(s, e) && Unreleased(s, t)
    ensures RefsInRange(Apply(s, e)) && Unreleased(Apply(s, e), t)
  {
    StepKeepsRefs(s, e);
    if InFlight(s.calls[t]) { StepLink(s, e, t); } else { FinishedStays(s, e, t); }
  }

  /** A call that registers after that is not released by anybody: it returns with an answer, or by its own
      context or write error, never because the bridge is closed. */
  lemma {:induction false} LateCallsAreNotReleased(ss: seq<Bridge>, es: seq<Event>, i: nat, j: nat, t: Caller)
    requires IsRun(ss, es) && i < j < |ss| && ss[i].drained && es[i] == Register(t)
    ensures RefsInRange(ss[j]) && Unreleased(ss[j], t)
  {
    assert Step(ss[j - 1], es[j - 1], ss[j]);
    if j == i + 1 {
      StepKeepsRefs(ss[i], es[i]);
    } else {
      LateCallsAreNotReleased(ss, es, i, j - 1, t);
      DrainedStays(ss, es, i, j - 1);
      ReachableInv(ss, es, j - 1);
      StepKeepsUnreleased(ss[j - 1], es[j - 1], t);
    }
  }

  /** Such calls exist: one that finds the bridge open, is overtaken by the whole of `Close`, and only then registers
      waits on an open channel with nothing to receive. */
  lemma OvertakenByClose(id: string) returns (ss: seq<Bridge>, es: seq<Event>)
    ensures IsRun(ss, es) && es == [Start(0, id), SetClosed, Drain, Register(0), Written(0)] && ss[3].drained
    ensures ss[5] == Bridge(map[id := 0], [Channel(0, id, [], false, 0)], true, true, map[0 := Waiting(id, 0)], None, NoFault)
    ensures RefsInRange(ss[5]) && !Enabled(ss[5], Receive(0)) && Unreleased(ss[5], 0)
  {
    ss, es := ClosedAfterCheck(id);
    var s4 := Bridge(map[id := 0], [Channel(0, id, [], false, 0)], true, true, map[0 := Registered(id, 0)], None, NoFault);
    RunExtends(ss, es, Register(0), s4);
    ss, es := ss + [s4], es + [Register(0)];
    var s5 := s4.(calls := map[0 := Waiting(id, 0)]);
    RunExtends(ss, es, Written(0), s5);
    ss, es := ss + [s5], es + [Written(0)];
  }

  lemma ClosedAfterCheck(id: string) returns (ss: seq<Bridge>, es: seq<Event>)
    ensures IsRun(ss, es) && es == [Start(0, id), SetClosed, Drain]
    ensures ss[3] == Bridge(map[], [], true, true, map[0 := Checked(id)], None, NoFault)
  {
    var s1 := Open(map[], [], map[0 := Checked(id)]);
    ss, es := [INITIAL], [];
    RunExtends(ss, es, Start(0, id), s1);
    ss, es := ss + [s1], es + [Start(0, id)];
    var s2 := s1.(closed := true);
    RunExtends(ss, es, SetClosed, s2);
    ss, es := ss + [s2], es + [SetClosed];
    var s3 := s2.(drained := true);
    assert Apply(s2, Drain) == s3;
    RunExtends(ss, es, Drain, s3);
    ss, es := ss + [s3], es + [Drain];
  }

  /** A call that starts on a closed bridge is over at once: it has failed for that reason, stays so, and never
      registers. */
  lemma {:induction false} ClosedRefuses(ss: seq<Bridge>, es: seq<Event>, i: nat, j: nat, t: Caller, id: string)
    requires IsRun(ss, es) && i < j < |ss| && ss[i].closed && es[i] == Start(t, id)
    ensures t in ss[j].calls && ss[j].calls[t] == Done(id, BridgeClosed)
    ensures ss[i + 1].pending == ss[i].pending && ss[i + 1].chans == ss[i].chans
    ensures forall l | i <= l < j :: es[l] != Register(t)
    decreases j
  {
    assert Step(ss[i], es[i], ss[i + 1]);
    if j > i + 1 {
      ClosedRefuses(ss, es, i, j - 1, t, id);
      assert Step(ss[j - 1], es[j - 1], ss[j]);
      FinishedStays(ss[j - 1], es[j - 1], t);
    }
  }

  /** And only such a call fails for that reason. */
  lemma {:induction false} RefusedOnlyWhenClosed(ss: seq<Bridge>, es: seq<Event>, j: nat, t: Caller, id: string) returns (i: nat)
    requires IsRun(ss, es) && j < |ss| && t in ss[j].calls && ss[j].calls[t] == Done(id, BridgeClosed)
    ensures i < j && es[i] == Start(t, id) && ss[i].closed
  {
    assert j > 0;
    i := j - 1;
    assert Step(ss[i], es[i], ss[j]);
    if es[i] != Start(t, id) { i := RefusedOnlyWhenClosed(ss, es, j - 1, t, id); }
  }
}
