/** The bridge object: the critical sections of `Send`, `readLoop` and `Close` as methods that update
    its fields. The ghost log makes every theorem about runs a theorem about this object. */
module StdioBridge {
  import opened Options
  import opened StdioModel
  import StdioSafety

  class Bridge {
    var pending: map<string, ChanRef>
    var closed: bool
    var chans: seq<Channel> // the channels made so far

    ghost var states: seq<StdioModel.Bridge>
    ghost var log: seq<Event>

    ghost function Now(): StdioModel.Bridge
      requires states != []
      reads this
    {
      states[|states| - 1]
    }

    ghost predicate Valid()
      reads this
    {
      && IsRun(states, log)
      && Now().pending == pending && Now().closed == closed && Now().chans == chans
    }

    /** The object went from `before` to its present state by exactly this event. */
    twostate predicate Did(e: Event)
      reads this
    {
      old(states) != [] && states != [] && log == old(log) + [e] && RefsInRange(old(Now())) && Enabled(old(Now()), e)
      && Now() == Apply(old(Now()), e)
    }

    constructor ()
      ensures Valid() && Now() == INITIAL && log == []
    {
      pending, closed, chans := map[], false, [];
      states, log := [INITIAL], [];
    }

    ghost method Note(e: Event)
      requires IsRun(states, log) && RefsInRange(Now()) && Enabled(Now(), e)
      modifies `states, `log
      ensures IsRun(states, log) && Did(e)
    {
      RunExtends(states, log, e, Apply(Now(), e));
      states, log := states + [Apply(Now(), e)], log + [e];
    }

    /** The beginning of `Send`. */
    method Start(t: Caller, id: string) returns (ok: bool)
      requires Valid() && t !in Now().calls
      modifies this
      ensures Valid() && Did(StdioModel.Start(t, id)) && ok == !closed == !old(closed)
      ensures Now().calls == old(Now().calls)[t := if ok then Checked(id) else Done(id, BridgeClosed)]
      ensures pending == old(pending) && chans == old(chans)
    {
      StdioSafety.ReachableInv(states, log, |log|);
      ok := !closed;
      Note(StdioModel.Start(t, id));
    }

    /** Makes a channel and lists it under the request id. */
    method Register(t: Caller, id: string) returns (ch: ChanRef)
      requires Valid() && t in Now().calls && Now().calls[t] == Checked(id)
      modifies this
      ensures Valid() && Did(StdioModel.Register(t)) && Now().calls[t] == Registered(id, ch)
      ensures ch == |old(chans)| && chans == old(chans) + [Channel(t, id, [], false, 0)] && pending == old(pending)[id := ch]
    {
      StdioSafety.ReachableInv(states, log, |log|);
      ch := |chans|;
      chans := chans + [Channel(t, id, [], false, 0)];
      pending := pending[id := ch];
      Note(StdioModel.Register(t));
    }

    /** What `Send` does when the request cannot be written. */
    method AbandonWrite(t: Caller, id: string)
      requires Valid() && t in Now().calls && Now().calls[t].Registered? && Now().calls[t].id == id
      modifies this
      ensures Valid() && Did(WriteFailed(t)) && Now().calls[t] == Done(id, WriteFailure)
      ensures pending == old(pending) - {id} && chans == old(chans)
    {
      StdioSafety.ReachableInv(states, log, |log|);
      pending := pending - {id};
      Note(WriteFailed(t));
    }

    /** What `Send` does when its context ends first. */
    method AbandonWait(t: Caller, id: string)
      requires Valid() && t in Now().calls && Now().calls[t].Waiting? && Now().calls[t].id == id
      modifies this
      ensures Valid() && Did(Cancel(t)) && Now().calls[t] == Done(id, Cancelled)
      ensures pending == old(pending) - {id} && chans == old(chans)
    {
      StdioSafety.ReachableInv(states, log, |log|);
      pending := pending - {id};
      Note(Cancel(t));
    }

    /** The receive at the end of `Send`; a closed channel yields no response. */
    method Receive(t: Caller, ch: ChanRef) returns (resp: Option<Response>)
      requires Valid() && RefsInRange(Now()) && t in Now().calls && Now().calls[t].Waiting? && Now().calls[t].ch == ch
      requires Enabled(Now(), StdioModel.Receive(t))
      modifies this
      ensures Valid() && Did(StdioModel.Receive(t))
      ensures Now().calls[t].outcome == if resp.Some? then Answer(resp.value) else NilAnswer
      ensures resp.Some? ==> resp.value.id == old(Now().calls[t].id)
      ensures ch < |old(chans)| && resp == if old(chans[ch].buffer) != [] then Some(old(chans[ch].buffer[0])) else None
      ensures chans == old(chans)[ch := old(chans[ch]).(buffer := [])] && pending == old(pending)
    {
      StdioSafety.ReachableInv(states, log, |log|);
      if chans[ch].buffer != [] {
        resp := Some(chans[ch].buffer[0]);
        chans := chans[ch := chans[ch].(buffer := [])];
      } else {
        resp := None;
      }
      Note(StdioModel.Receive(t));
    }

    /** The reader looks up whom a response is for. */
    method TakeFor(resp: Response) returns (ch: Option<ChanRef>)
      requires Valid() && Now().inHand.None?
      modifies this
      ensures Valid() && Did(Read(resp))
      ensures Now().inHand == if ch.Some? then Some((ch.value, resp)) else None
      ensures ch == (if resp.id in old(pending) then Some(old(pending)[resp.id]) else None)
      ensures pending == old(pending) - {resp.id} && chans == old(chans)
    {
      StdioSafety.ReachableInv(states, log, |log|);
      ch := None;
      if resp.id in pending {
        ch := Some(pending[resp.id]);
        pending := pending - {resp.id};
      }
      Note(Read(resp));
    }

    /** The reader's send. It needs no precondition beyond what the reader holds: the channel is open
        and empty, whatever happened since it was taken. */
    method HandOver(ch: ChanRef, resp: Response)
      requires Valid() && Now().inHand == Some((ch, resp))
      modifies this
      ensures Valid() && Did(StdioModel.HandOver)
      ensures ch < |old(chans)| && !old(chans[ch]).closed && old(chans[ch]).buffer == []
      ensures chans == old(chans)[ch := old(chans[ch]).(buffer := [resp], sends := 1)]
    {
      StdioSafety.ReachableInv(states, log, |log|);
      chans := chans[ch := chans[ch].(buffer := [resp], sends := chans[ch].sends + 1)];
      Note(StdioModel.HandOver);
    }

    /** The two parts of `Close`. */
    method SetClosed()
      requires Valid() && !closed
      modifies this
      ensures Valid() && Did(StdioModel.SetClosed) && closed && pending == old(pending) && chans == old(chans)
    {
      StdioSafety.ReachableInv(states, log, |log|);
      closed := true;
      Note(StdioModel.SetClosed);
    }

    method DrainPending()
      requires Valid() && closed && !Now().drained
      modifies this
      ensures Valid() && Did(Drain) && pending == map[]
      ensures |chans| == |old(chans)| && forall ch | 0 <= ch < |chans| ::
                chans[ch] == if ch in old(pending).Values then old(chans)[ch].(closed := true) else old(chans)[ch]
    {
      StdioSafety.ListedChannels(states, log, |log|);
      chans := CloseEach(pending, chans);
      pending := map[];
      Note(Drain);
    }

  }

  /** The loop of `Close`: every listed channel is open when it is closed. */
  method CloseEach(pending: map<string, ChanRef>, chans: seq<Channel>) returns (closed: seq<Channel>)
    requires forall id | id in pending :: pending[id] < |chans| && !chans[pending[id]].closed
    requires forall a, b | a in pending && b in pending && a != b :: pending[a] != pending[b]
    ensures closed == ClosedAt(chans, pending.Values)
  {
    closed := chans;
    var left := pending.Keys;
    ghost var done: set<ChanRef> := {};
    while left != {}
      invariant left <= pending.Keys
      invariant done == set id | id in pending && id !in left :: pending[id]
      invariant closed == ClosedAt(chans, done)
    {
      var id :| id in left;
      assert !closed[pending[id]].closed;
      done := done + {pending[id]};
      closed := closed[pending[id] := closed[pending[id]].(closed := true)];
      left := left - {id};
    }
    assert done == pending.Values;
  }
}
