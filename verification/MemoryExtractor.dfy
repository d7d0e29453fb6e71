/** The extractor as an object over the message store. Each method is one statement of a pass; `Extract` is
    the pass itself, with arbitrary ingests of other callers between its statements. */
module MemoryExtractor {
  import opened Options
  import opened MemoryModel
  import opened MemoryExtract
  import opened MemoryWatermark

  datatype Outcome = Error | NothingNew | NoContent | Completed | Failed | Poisoned

  /** How one chunk fared: the deadline struck before or during the call, the call, the provenance row. */
  datatype Chunk = Chunk(late: bool, cut: bool, accepted: bool, recorded: bool)

  /** What a pass meets: failing statements, whether the window holds anything new, the memory backend, the
      chunks, and the calls that other users make before and during the pass. */
  datatype Surroundings = Surroundings(
    loads: bool, hasContent: bool, backendUp: bool, begins: bool, chunks: seq<Chunk>, counts: bool, closes: bool,
    before: seq<Call>, during: seq<Call>, now: real)

  predicate Fine(c: Chunk) {
    !c.late && !c.cut && c.accepted && c.recorded
  }

  /** The chunk loop: a failed chunk does not stop it, the deadline does. */
  method SendChunks(chunks: seq<Chunk>) returns (failed: bool, aborted: bool)
    ensures failed || aborted <==> exists c :: c in chunks && !Fine(c)
    ensures !aborted ==> forall c | c in chunks :: !c.late && !c.cut
  {
    failed, aborted := false, false;
    for i := 0 to |chunks|
      invariant !aborted && (failed <==> exists k :: 0 <= k < i && !Fine(chunks[k]))
      invariant forall k | 0 <= k < i :: !chunks[k].late && !chunks[k].cut
    {
      var c := chunks[i];
      assert c in chunks;
      if c.late || c.cut { aborted := true; return; }
      if !c.accepted { failed := true; }
      if !c.recorded { failed := true; }
    }
  }

  /** How a pass over a window ends. Nothing to send: the window is closed. Otherwise the backend must be there and the
      attempt recorded; if every chunk is fine the window is closed, and else the failure is counted and, the last one
      allowed, the window given up. A statement that fails ends the pass with an error. */
  ghost predicate Ends(w: Surroundings, lastChance: bool, o: Outcome) {
    var sends, fine := w.hasContent && w.backendUp && w.begins, forall c | c in w.chunks :: Fine(c);
    && (o.NoContent? <==> !w.hasContent && w.closes)
    && (o.Completed? <==> sends && fine && w.closes)
    && (o.Failed? <==> sends && !fine && w.counts && !lastChance)
    && (o.Poisoned? <==> sends && !fine && w.counts && lastChance && w.closes)
    && !o.NothingNew?
  }

  class Extractor {
    var sessions: map<string, SessionRow>
    var messages: seq<MessageRow>
    var nextId: nat
    const cfg: Config
    const parse: string -> Option<real>
    ghost var passes: map<string, Pass>
    ghost var states: seq<State>
    ghost var events: seq<Event>

    ghost predicate Valid()
      reads this
    {
      && IsRun(states, events, cfg, parse)
      && states[|events|] == Now()
    }

    ghost function Now(): State
      reads this
    {
      State(Store(sessions, messages, nextId), passes)
    }

    twostate predicate Did(e: Event)
      reads this
    {
      && events == old(events) + [e] && |states| == |events| + 1
      && Enabled(old(Now()), e) && Now() == Apply(old(Now()), e, cfg, parse)
    }

    constructor (cfg: Config, parse: string -> Option<real>)
      ensures Valid() && Now() == INITIAL && this.cfg == cfg && this.parse == parse
    {
      sessions, messages, nextId, passes := map[], [], 1, map[];
      this.cfg, this.parse := cfg, parse;
      states, events := [INITIAL], [];
    }

    ghost method Note(e: Event)
      requires IsRun(states, events, cfg, parse) && Enabled(states[|events|], e)
      requires Now().store == StoreAfter(states[|events|], e, parse)
      modifies `passes, `states, `events
      ensures Valid() && events == old(events) + [e] && |states| == |events| + 1
      ensures Now() == Apply(old(states[|events|]), e, cfg, parse)
    {
      passes := PassesAfter(states[|events|], e, cfg);
      var was, did := states, events;
      states, events := states + [Now()], events + [e];
      forall i {:trigger events[i]} | 0 <= i < |events|
        ensures Step(states[i], events[i], states[i + 1], cfg, parse)
      {
        if i < |did| { assert events[i] == did[i] && Step(was[i], did[i], was[i + 1], cfg, parse); }
      }
    }

    method Receive(c: Call)
      requires Valid()
      modifies this
      ensures Valid() && Did(Event.Receive(c))
    {
      var s := Ingest(Store(sessions, messages, nextId), c, parse);
      sessions, messages, nextId := s.sessions, s.messages, s.nextId;
      Note(Event.Receive(c));
    }

    /** Other users' calls leave a session's bookkeeping and its pass alone. */
    method ReceiveAll(cs: seq<Call>, ghost id: string)
      requires Valid()
      modifies this
      ensures Valid() && passes == old(passes)
      ensures id in old(sessions) ==> id in sessions
      ensures Watermark(Now().store, id) == old(Watermark(Now().store, id))
      ensures Attempts(Now().store, id) == old(Attempts(Now().store, id))
    {
      for i := 0 to |cs|
        invariant Valid() && passes == old(passes)
        invariant id in old(sessions) ==> id in sessions
        invariant Watermark(Now().store, id) == old(Watermark(Now().store, id))
        invariant Attempts(Now().store, id) == old(Attempts(Now().store, id))
      {
        ghost var was := Now();
        Receive(cs[i]);
        StepBook(was, Event.Receive(cs[i]), Now(), cfg, parse, id);
      }
    }

    method GetRange(id: string) returns (window: seq<MessageRow>)
      requires Valid() && Enabled(Now(), Load(id))
      modifies this
      ensures Valid() && Did(Load(id))
      ensures window == Range(messages, id, Watermark(Now().store, id), cfg.passLimit)
      ensures IsWindow(messages, id, Watermark(Now().store, id), cfg.passLimit, window) && messages == old(messages)
    {
      ReachableInv(states, events, cfg, parse, |events|, id);
      var mark := if sessions[id].extraction.through.Some? then sessions[id].extraction.through.value else 0;
      window := Range(messages, id, mark, cfg.passLimit);
      RangeIsWindow(messages, id, mark, cfg.passLimit);
      Note(Load(id));
    }

    method BeginAttempt(id: string, now: real)
      requires Valid() && Enabled(Now(), Begin(id, now))
      modifies this
      ensures Valid() && Did(Begin(id, now))
      ensures sessions == old(sessions)[id := old(sessions[id]).(extraction := sessions[id].extraction)]
      ensures sessions[id].extraction == old(sessions[id].extraction).(lastAttemptAt := Some(now))
    {
      var row := sessions[id];
      sessions := sessions[id := row.(extraction := row.extraction.(lastAttemptAt := Some(now)))];
      Note(Begin(id, now));
    }

    method CompletePass(id: string, throughId: nat, now: real)
      requires Valid() && Enabled(Now(), Complete(id, now)) && throughId == LastId(passes[id].window)
      modifies this
      ensures Valid() && Did(Complete(id, now))
      ensures sessions == old(sessions)[id := old(sessions[id]).(extraction := sessions[id].extraction)]
      ensures sessions[id].extraction ==
              old(sessions[id].extraction).(through := Some(throughId), extractedAt := Some(now), attempts := 0)
    {
      var row := sessions[id];
      var x := row.extraction.(through := Some(throughId), extractedAt := Some(now), attempts := 0);
      sessions := sessions[id := row.(extraction := x)];
      Note(Complete(id, now));
    }

    method FailPass(id: string) returns (attempts: nat)
      requires Valid() && Enabled(Now(), Fail(id))
      modifies this
      ensures Valid() && Did(Fail(id))
      ensures attempts == Attempts(Now().store, id)
      ensures sessions == old(sessions)[id := old(sessions[id]).(extraction := sessions[id].extraction)]
      ensures sessions[id].extraction == old(sessions[id].extraction).(attempts := old(sessions[id].extraction.attempts) + 1)
    {
      var row := sessions[id];
      attempts := row.extraction.attempts + 1;
      sessions := sessions[id := row.(extraction := row.extraction.(attempts := attempts))];
      Note(Fail(id));
    }

    method PoisonRange(id: string, throughId: nat, now: real)
      requires Valid() && Enabled(Now(), Poison(id, now)) && throughId == LastId(passes[id].window)
      modifies this
      ensures Valid() && Did(Poison(id, now))
      ensures sessions == old(sessions)[id := old(sessions[id]).(extraction := sessions[id].extraction)]
      ensures sessions[id].extraction ==
              old(sessions[id].extraction).(through := Some(throughId), poisonedAt := Some(now), attempts := 0)
    {
      var row := sessions[id];
      var x := row.extraction.(through := Some(throughId), poisonedAt := Some(now), attempts := 0);
      sessions := sessions[id := row.(extraction := x)];
      Note(Poison(id, now));
    }

    ghost method GiveBack(id: string)
      requires Valid() && id in passes
      modifies this
      ensures Valid() && Did(Leave(id))
    {
      Note(Leave(id));
    }

    /** One pass. The watermark moves exactly when the pass completes or gives its range up, and giving up
        takes the configured number of failures. */
    method Extract(id: string, w: Surroundings) returns (o: Outcome)
      requires Valid() && id !in passes
      modifies this
      ensures Valid() && id !in passes
      ensures o in {NoContent, Completed, Poisoned} <==> Watermark(Now().store, id) != old(Watermark(Now().store, id))
      ensures Watermark(Now().store, id) >= old(Watermark(Now().store, id))
      ensures o in {NoContent, Completed, Poisoned} ==> Attempts(Now().store, id) == 0
      ensures id == "" || id !in old(sessions) || !w.loads ==> o.Error? && Now() == old(Now())
      ensures id != "" && id in old(sessions) && w.loads ==>
                && (o.NothingNew? <==> forall m | m in old(messages) && m.session == id :: m.id <= old(Watermark(Now().store, id)))
                && (!o.NothingNew? ==> Ends(w, old(Attempts(Now().store, id)) + 1 >= cfg.poisonAfter, o))
      ensures o.Failed? ==> Attempts(Now().store, id) == old(Attempts(Now().store, id)) + 1
      ensures o.Failed? ==> Attempts(Now().store, id) < cfg.poisonAfter
      ensures o.Poisoned? ==> old(Attempts(Now().store, id)) + 1 >= cfg.poisonAfter
    {
      if id == "" || id !in sessions || !w.loads { return Error; }
      var window := GetRange(id);
      if window == [] { return NothingNew; }
      ReceiveAll(w.before, id);
      var throughId := LastId(window);
      o := Finish(id, w, throughId);
    }

    method Finish(id: string, w: Surroundings, throughId: nat) returns (o: Outcome)
      requires Valid() && InPhase(Now(), id, Loaded) && throughId == LastId(passes[id].window)
      modifies this
      ensures Valid() && id !in passes
      ensures Watermark(Now().store, id) ==
              if o in {NoContent, Completed, Poisoned} then throughId else old(Watermark(Now().store, id))
      ensures o in {NoContent, Completed, Poisoned} ==> Attempts(Now().store, id) == 0
      ensures Ends(w, old(Attempts(Now().store, id)) + 1 >= cfg.poisonAfter, o)
      ensures o.Failed? ==> Attempts(Now().store, id) == old(Attempts(Now().store, id)) + 1 < cfg.poisonAfter
      ensures o.Poisoned? ==> old(Attempts(Now().store, id)) + 1 >= cfg.poisonAfter
      ensures throughId > old(Watermark(Now().store, id))
    {
      ghost var was := Now();
      NextIsAhead(was, id);
      if !w.hasContent {
        if !w.closes { GiveBack(id); return Error; }
        CompletePass(id, throughId, w.now);
        return NoContent;
      }
      if !w.backendUp || !w.begins { GiveBack(id); return Error; }
      BeginAttempt(id, w.now);
      var failed, aborted := SendChunks(w.chunks);
      ReceiveAll(w.during, id);
      o := Settle(id, w, throughId, failed || aborted);
    }

    method Settle(id: string, w: Surroundings, throughId: nat, bad: bool) returns (o: Outcome)
      requires Valid() && InPhase(Now(), id, Attempting) && throughId == LastId(passes[id].window)
      modifies this
      ensures Valid() && id !in passes
      ensures Watermark(Now().store, id) ==
              if o in {NoContent, Completed, Poisoned} then throughId else old(Watermark(Now().store, id))
      ensures o in {NoContent, Completed, Poisoned} ==> Attempts(Now().store, id) == 0
      ensures o.Completed? <==> !bad && w.closes
      ensures o.Failed? <==> bad && w.counts && old(Attempts(Now().store, id)) + 1 < cfg.poisonAfter
      ensures o.Poisoned? <==> bad && w.counts && old(Attempts(Now().store, id)) + 1 >= cfg.poisonAfter && w.closes
      ensures o.Failed? ==> Attempts(Now().store, id) == old(Attempts(Now().store, id)) + 1 < cfg.poisonAfter
      ensures o.Poisoned? ==> old(Attempts(Now().store, id)) + 1 >= cfg.poisonAfter
      ensures !o.NothingNew? && !o.NoContent?
    {
      if bad {
        if !w.counts { GiveBack(id); return Error; }
        var attempts := FailPass(id);
        if attempts < cfg.poisonAfter { return Failed; }
        if !w.closes { GiveBack(id); return Error; }
        PoisonRange(id, throughId, w.now);
        return Poisoned;
      }
      if !w.closes { GiveBack(id); return Error; }
      CompletePass(id, throughId, w.now);
      o := Completed;
    }

    lemma NextIsAhead(s: State, id: string)
      requires Valid() && s == Now() && id in passes
      ensures passes[id].window != [] && LastId(passes[id].window) > Watermark(s.store, id)
    {
      ReachableInv(states, events, cfg, parse, |events|, id);
      RowsOfSound(messages, id);
      CloseMoves(RowsOf(messages, id), Watermark(s.store, id), passes[id].window);
    }
  }
}
