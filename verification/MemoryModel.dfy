/** The transcript store: sessions, their messages, and the ingest transaction
    (internal/memory/service.go, internal/store/memory_messages.go, internal/store/memory_sessions.go). */
module MemoryModel {
  import opened Options

  /** One transcript entry as parsed. An empty uuid is stored as NULL and never counts as a duplicate. */
  datatype Message = Message(uuid: string, parentUuid: string, epoch: int, timestamp: string, role: string, content: string)

  datatype MessageRow = MessageRow(id: nat, session: string, platform: string, message: Message)

  /** The columns that the first ingest of a session fixes. */
  datatype Identity = Identity(
    user: string, projectDir: string, filePath: string, indexedAt: real, platform: string,
    rawCwd: string, projectKey: string, isSubagent: bool, sourceParent: string)

  /** Bookkeeping of the extractor. */
  datatype Extraction = Extraction(
    through: Option<nat>, attempts: nat, lastAttemptAt: Option<real>, poisonedAt: Option<real>, extractedAt: Option<real>)

  datatype SessionRow = SessionRow(
    identity: Identity, fileMtime: real, lastSeenAt: real, bytesSeen: int,
    lastIngestedAt: Option<real>, lastActivityAt: Option<real>, counters: string, extraction: Extraction)

  const UNTOUCHED: Extraction := Extraction(None, 0, None, None, None)

  datatype Store = Store(sessions: map<string, SessionRow>, messages: seq<MessageRow>, nextId: nat)

  const EMPTY: Store := Store(map[], [], 1)

  datatype Request = Request(
    session: string, platform: string, fileMtime: real, bytesSeen: int, identity: Identity, counters: string)

  // ---------------------------------------------------------------- messages

  predicate HasKey(rows: seq<MessageRow>, session: string, uuid: string) {
    exists i :: 0 <= i < |rows| && rows[i].session == session && rows[i].message.uuid == uuid
  }

  /** The insert statement with its conflict clause. */
  predicate Skips(rows: seq<MessageRow>, session: string, m: Message) {
    m.uuid != "" && HasKey(rows, session, m.uuid)
  }

  function InsertOne(s: Store, session: string, platform: string, m: Message): Store {
    if Skips(s.messages, session, m) then s
    else s.(messages := s.messages + [MessageRow(s.nextId, session, platform, m)], nextId := s.nextId + 1)
  }

  function InsertAll(s: Store, session: string, platform: string, ms: seq<Message>): Store
    decreases |ms|
  {
    if ms == [] then s
    else InsertOne(InsertAll(s, session, platform, ms[..|ms| - 1]), session, platform, ms[|ms| - 1])
  }

  // ---------------------------------------------------------------- sessions

  function UpsertRow(s: Store, r: Request): SessionRow {
    if r.session in s.sessions
    then s.sessions[r.session].(fileMtime := r.fileMtime, lastSeenAt := r.fileMtime, bytesSeen := r.bytesSeen)
    else SessionRow(r.identity, r.fileMtime, r.fileMtime, r.bytesSeen, None, None, "", UNTOUCHED)
  }

  function Later(last: Option<real>, activity: Option<real>): Option<real> {
    if activity.None? then last
    else var floor := if last.Some? then last.value else 0.0;
         Some(if floor < activity.value then activity.value else floor)
  }

  function Stamp(row: SessionRow, now: real, activity: Option<real>, counters: string): SessionRow {
    row.(lastIngestedAt := Some(now),
         lastActivityAt := Later(row.lastActivityAt, activity),
         counters := if counters == "" then row.counters else counters)
  }

  // ---------------------------------------------------------------- ingest

  datatype Outcome = Ingested(added: nat) | InvalidRequest | ParseError | ForeignSession | StorageError

  /** One call and what its surroundings answer: whether the platform has a parser, what it parses, and
      whether a statement fails before or after the ownership check (the commit included). */
  datatype Call = Call(
    user: string, request: Request, known: bool, parsed: Option<seq<Message>>, now: real,
    failsEarly: bool, failsLate: bool)

  predicate Foreign(s: Store, c: Call) {
    c.request.session in s.sessions && s.sessions[c.request.session].identity.user != c.user
  }

  /** The newest timestamp that parses. */
  function Newest(ms: seq<Message>, parse: string -> Option<real>): Option<real> {
    if ms == [] then None
    else
      var rest, t := Newest(ms[..|ms| - 1], parse), parse(ms[|ms| - 1].timestamp);
      if t.None? then rest else if rest.None? || t.value > rest.value then t else rest
  }

  function Result(s: Store, c: Call): Outcome {
    if c.request.session == "" || c.request.platform == "" || !c.known then InvalidRequest
    else if c.parsed.None? then ParseError
    else if c.failsEarly then StorageError
    else if Foreign(s, c) then ForeignSession
    else if c.failsLate then StorageError
    else
      var rows := InsertAll(s, c.request.session, c.request.platform, c.parsed.value).messages;
      Ingested(if |rows| >= |s.messages| then |rows| - |s.messages| else 0)
  }

  predicate Accepted(s: Store, c: Call) {
    && c.request.session != "" && c.request.platform != "" && c.known && c.parsed.Some?
    && !c.failsEarly && !Foreign(s, c) && !c.failsLate
  }

  /** The row the caller's request writes: the identity is taken from the authenticated user. */
  function WithUser(c: Call): Request {
    c.request.(identity := c.request.identity.(user := c.user, platform := c.request.platform, indexedAt := c.request.fileMtime))
  }

  function Ingest(s: Store, c: Call, parse: string -> Option<real>): Store {
    if !Accepted(s, c) then s
    else
      var r, ms := WithUser(c), c.parsed.value;
      var row := Stamp(UpsertRow(s, r), c.now, Newest(ms, parse), r.counters);
      InsertAll(s, r.session, r.platform, ms).(sessions := s.sessions[r.session := row])
  }
}

/** What ingest guarantees over any sequence of calls. */
module MemoryIngest {
  import opened Options
  import opened MemoryModel

  // ---------------------------------------------------------------- inserts

  /** Rows are only ever appended. */
  lemma {:induction false} InsertAllGrows(s: Store, session: string, platform: string, ms: seq<Message>)
    ensures s.messages <= InsertAll(s, session, platform, ms).messages
    ensures InsertAll(s, session, platform, ms).sessions == s.sessions
  {
    if ms == [] {
    } else {
      InsertAllGrows(s, session, platform, ms[..|ms| - 1]);
    }
  }

  lemma HasKeyGrows(rows: seq<MessageRow>, more: seq<MessageRow>, session: string, uuid: string)
    requires rows <= more && HasKey(rows, session, uuid)
    ensures HasKey(more, session, uuid)
  {
    var i :| 0 <= i < |rows| && rows[i].session == session && rows[i].message.uuid == uuid;
    assert more[i] == rows[i];
  }

  /** Splitting a chunk anywhere gives the same rows. */
  lemma {:induction false} InsertAllConcat(s: Store, session: string, platform: string, xs: seq<Message>, ys: seq<Message>)
    ensures InsertAll(s, session, platform, xs + ys) == InsertAll(InsertAll(s, session, platform, xs), session, platform, ys)
    decreases |ys|
  {
    if ys == [] {
      assert xs + ys == xs;
    } else {
      InsertAllConcat(s, session, platform, xs, ys[..|ys| - 1]);
      assert (xs + ys)[..|xs + ys| - 1] == xs + ys[..|ys| - 1];
    }
  }

  /** Which keys a chunk leaves behind: the old ones and its own. */
  lemma {:induction false} KeysAfter(s: Store, session: string, platform: string, ms: seq<Message>, other: string, uuid: string)
    requires uuid != ""
    ensures HasKey(InsertAll(s, session, platform, ms).messages, other, uuid) <==>
            HasKey(s.messages, other, uuid) || (other == session && exists i :: 0 <= i < |ms| && ms[i].uuid == uuid)
  {
    if ms == [] {
    } else {
      var init, m := ms[..|ms| - 1], ms[|ms| - 1];
      KeysAfter(s, session, platform, init, other, uuid);
      KeysAfterOne(InsertAll(s, session, platform, init), session, platform, m, other, uuid);
      if i :| 0 <= i < |ms| && ms[i].uuid == uuid { assert i < |init| ==> init[i].uuid == uuid; }
      if i :| 0 <= i < |init| && init[i].uuid == uuid { assert ms[i].uuid == uuid; }
    }
  }

  lemma KeysAfterOne(s: Store, session: string, platform: string, m: Message, other: string, uuid: string)
    requires uuid != ""
    ensures HasKey(InsertOne(s, session, platform, m).messages, other, uuid) <==>
            HasKey(s.messages, other, uuid) || (other == session && m.uuid == uuid)
  {
    var rows := InsertOne(s, session, platform, m).messages;
    if HasKey(s.messages, other, uuid) { HasKeyGrows(s.messages, rows, other, uuid); }
    if !Skips(s.messages, session, m) { assert rows[|s.messages|] == MessageRow(s.nextId, session, platform, m); }
  }

  /** Message `i` of a chunk is new to the session: it has no uuid, or one that no stored row of the session and no
      earlier message of the chunk has. */
  ghost predicate IsNew(rows: seq<MessageRow>, session: string, ms: seq<Message>, i: nat)
    requires i < |ms|
  {
    || ms[i].uuid == ""
    || (&& (forall k | 0 <= k < |rows| :: !(rows[k].session == session && rows[k].message.uuid == ms[i].uuid))
        && (forall k | 0 <= k < i :: ms[k].uuid != ms[i].uuid))
  }

  /** `t` holds the rows of `s` and, behind them, one row for each of the messages `at` of the chunk, which are the new
      ones: in their order, numbered consecutively, and unaltered. */
  ghost predicate AddsNew(s: Store, t: Store, session: string, platform: string, ms: seq<Message>, at: seq<nat>) {
    && |t.messages| == |s.messages| + |at| && s.messages <= t.messages && t.nextId == s.nextId + |at|
    && (forall i, j | 0 <= i < j < |at| :: at[i] < at[j])
    && (forall k | 0 <= k < |at| :: at[k] < |ms| && t.messages[|s.messages| + k] == MessageRow(s.nextId + k, session, platform, ms[at[k]]))
    && (forall i | 0 <= i < |ms| :: i in at <==> IsNew(s.messages, session, ms, i))
  }

  /** Inserting a chunk adds exactly its new messages. */
  lemma {:induction false} InsertAddsNew(s: Store, session: string, platform: string, ms: seq<Message>) returns (at: seq<nat>)
    ensures AddsNew(s, InsertAll(s, session, platform, ms), session, platform, ms, at)
    decreases |ms|
  {
    at := [];
    if ms == [] {
    } else {
      var n := |ms| - 1;
      var init, m := ms[..n], ms[n];
      var before := InsertAddsNew(s, session, platform, init);
      var t := InsertAll(s, session, platform, init);
      SkipsKnown(s, session, platform, ms);
      at := if Skips(t.messages, session, m) then before else before + [n];
      NewInLonger(s, session, ms, before, at);
    }
  }

  lemma SkipsKnown(s: Store, session: string, platform: string, ms: seq<Message>)
    requires ms != []
    ensures Skips(InsertAll(s, session, platform, ms[..|ms| - 1]).messages, session, ms[|ms| - 1]) <==> !IsNew(s.messages, session, ms, |ms| - 1)
  {
    var n := |ms| - 1;
    if ms[n].uuid != "" {
      KeysAfter(s, session, platform, ms[..n], session, ms[n].uuid);
      if i :| 0 <= i < n && ms[i].uuid == ms[n].uuid { assert ms[..n][i].uuid == ms[n].uuid; }
    }
  }

  lemma NewInLonger(s: Store, session: string, ms: seq<Message>, before: seq<nat>, at: seq<nat>)
    requires ms != [] && forall i | 0 <= i < |ms| - 1 :: i in before <==> IsNew(s.messages, session, ms[..|ms| - 1], i)
    requires forall i | i in before :: i < |ms| - 1
    requires at == if IsNew(s.messages, session, ms, |ms| - 1) then before + [|ms| - 1] else before
    ensures forall i | 0 <= i < |ms| :: i in at <==> IsNew(s.messages, session, ms, i)
  {
    var n := |ms| - 1;
    var init := ms[..n];
    forall i | 0 <= i < n ensures IsNew(s.messages, session, init, i) <==> IsNew(s.messages, session, ms, i) {
      assert init[i] == ms[i] && forall k | 0 <= k < i :: init[k] == ms[k];
    }
    assert n in at <==> IsNew(s.messages, session, ms, n);
  }

  /** How many messages of a chunk carry no uuid. */
  function Anonymous(ms: seq<Message>): nat {
    if ms == [] then 0 else Anonymous(ms[..|ms| - 1]) + if ms[|ms| - 1].uuid == "" then 1 else 0
  }

  /** Of a chunk whose keys are all there already, only the messages without a uuid are stored again. */
  lemma {:induction false} KnownChunkAdds(s: Store, session: string, platform: string, ms: seq<Message>)
    requires forall i | 0 <= i < |ms| :: ms[i].uuid != "" ==> HasKey(s.messages, session, ms[i].uuid)
    ensures |InsertAll(s, session, platform, ms).messages| == |s.messages| + Anonymous(ms)
  {
    if ms == [] {
    } else {
      var init, m := ms[..|ms| - 1], ms[|ms| - 1];
      KnownChunkAdds(s, session, platform, init);
      InsertAllGrows(s, session, platform, init);
      if m.uuid != "" { HasKeyGrows(s.messages, InsertAll(s, session, platform, init).messages, session, m.uuid); }
    }
  }

  lemma {:induction false} AnonymousIsZero(ms: seq<Message>)
    ensures Anonymous(ms) == 0 <==> forall k | 0 <= k < |ms| :: ms[k].uuid != ""
  {
    if ms == [] {
    } else {
      var init := ms[..|ms| - 1];
      AnonymousIsZero(init);
      if k :| 0 <= k < |init| && init[k].uuid == "" { assert ms[k].uuid == ""; }
    }
  }

  // ---------------------------------------------------------------- runs of calls

  ghost predicate IsRun(ss: seq<Store>, cs: seq<Call>, parse: string -> Option<real>) {
    && |ss| == |cs| + 1
    && ss[0] == EMPTY
    && forall i {:trigger cs[i]} | 0 <= i < |cs| :: ss[i + 1] == Ingest(ss[i], cs[i], parse)
  }

  lemma RunExtends(ss: seq<Store>, cs: seq<Call>, c: Call, parse: string -> Option<real>)
    requires IsRun(ss, cs, parse)
    ensures IsRun(ss + [Ingest(ss[|cs|], c, parse)], cs + [c], parse)
  {
    var ss', cs' := ss + [Ingest(ss[|cs|], c, parse)], cs + [c];
    forall i {:trigger cs'[i]} | 0 <= i < |cs'| ensures ss'[i + 1] == Ingest(ss'[i], cs'[i], parse) {
      if i < |cs| { assert cs'[i] == cs[i]; }
    }
  }

  /** Every call is atomic: it succeeds, or it leaves the store as it was. A call for somebody else's
      session, or one with an unreadable transcript, never succeeds. */
  lemma AllOrNothing(s: Store, c: Call, parse: string -> Option<real>)
    ensures Result(s, c).Ingested? <==> Accepted(s, c)
    ensures !Result(s, c).Ingested? ==> Ingest(s, c, parse) == s
    ensures Foreign(s, c) ==> Ingest(s, c, parse) == s
    ensures Result(s, c).InvalidRequest? <==> c.request.session == "" || c.request.platform == "" || !c.known
    ensures Result(s, c).ParseError? <==> !Result(s, c).InvalidRequest? && c.parsed.None?
    ensures Result(s, c).ForeignSession? <==> !Result(s, c).InvalidRequest? && c.parsed.Some? && !c.failsEarly && Foreign(s, c)
    ensures Result(s, c).Ingested? ==> |Ingest(s, c, parse).messages| == |s.messages| + Result(s, c).added
  {
    if Accepted(s, c) { InsertAllGrows(s, c.request.session, c.request.platform, c.parsed.value); }
  }

  /** An accepted call stores the new messages of its transcript, unaltered, and reports how many. */
  lemma StoresTranscript(s: Store, c: Call, parse: string -> Option<real>) returns (at: seq<nat>)
    requires Accepted(s, c)
    ensures AddsNew(s, Ingest(s, c, parse), c.request.session, c.request.platform, c.parsed.value, at)
    ensures Result(s, c) == Ingested(|at|)
  {
    at := InsertAddsNew(s, c.request.session, c.request.platform, c.parsed.value);
  }

  /** `t` is `s` with the new messages of an accepted call. */
  ghost predicate Transcribed(s: Store, c: Call, t: Store, added: nat) {
    c.parsed.Some? && exists at :: AddsNew(s, t, c.request.session, c.request.platform, c.parsed.value, at) && |at| == added
  }

  lemma IngestTranscribes(s: Store, c: Call, parse: string -> Option<real>)
    ensures Result(s, c).Ingested? ==> Transcribed(s, c, Ingest(s, c, parse), Result(s, c).added)
  {
    if Accepted(s, c) { var at := StoresTranscript(s, c, parse); }
  }

  lemma {:induction false} MessagesGrow(ss: seq<Store>, cs: seq<Call>, parse: string -> Option<real>, i: nat, j: nat)
    requires IsRun(ss, cs, parse) && i <= j < |ss|
    ensures ss[i].messages <= ss[j].messages
  {
    if i == j {
    } else {
      MessagesGrow(ss, cs, parse, i, j - 1);
      var c := cs[j - 1];
      if Accepted(ss[j - 1], c) { InsertAllGrows(ss[j - 1], c.request.session, c.request.platform, c.parsed.value); }
    }
  }

  /** Replay: once a chunk was accepted, an accepted call that sends it again, however much later, adds
      exactly its messages without a uuid. So replay is harmless if and only if every message has one. */
  lemma ReplayAdds(ss: seq<Store>, cs: seq<Call>, parse: string -> Option<real>, i: nat, j: nat)
    requires IsRun(ss, cs, parse) && i < j < |cs| && Accepted(ss[i], cs[i]) && Accepted(ss[j], cs[j])
    requires cs[j].parsed == cs[i].parsed && cs[j].request.session == cs[i].request.session
    ensures var ms := cs[i].parsed.value;
      && Result(ss[j], cs[j]) == Ingested(Anonymous(ms))
      && (ss[j + 1].messages == ss[j].messages <==> forall k | 0 <= k < |ms| :: ms[k].uuid != "")
  {
    var r, ms := cs[i].request, cs[i].parsed.value;
    MessagesGrow(ss, cs, parse, i + 1, j);
    forall k | 0 <= k < |ms| && ms[k].uuid != "" ensures HasKey(ss[j].messages, r.session, ms[k].uuid) {
      KeysAfter(ss[i], r.session, r.platform, ms, r.session, ms[k].uuid);
      HasKeyGrows(ss[i + 1].messages, ss[j].messages, r.session, ms[k].uuid);
    }
    KnownChunkAdds(ss[j], r.session, cs[j].request.platform, ms);
    InsertAllGrows(ss[j], r.session, cs[j].request.platform, ms);
    AnonymousIsZero(ms);
  }

  /** Such a replay: one message without a uuid, sent twice and stored twice. */
  lemma AnonymousReplayed(c: Call, m: Message, parse: string -> Option<real>) returns (ss: seq<Store>)
    requires c.request.session != "" && c.request.platform != "" && c.known && !c.failsEarly && !c.failsLate
    requires c.parsed == Some([m]) && m.uuid == ""
    ensures IsRun(ss, [c, c], parse) && Result(ss[0], c) == Ingested(1) == Result(ss[1], c)
    ensures |ss[2].messages| == 2 && ss[2].messages[0].message == m == ss[2].messages[1].message
  {
    var one := Ingest(EMPTY, c, parse);
    var two := Ingest(one, c, parse);
    ss := [EMPTY, one, two];
    assert [m][..0] == [];
    InsertOnlyOne(EMPTY, c.request.session, c.request.platform, m);
    InsertOnlyOne(one, c.request.session, c.request.platform, m);
  }

  lemma InsertOnlyOne(s: Store, session: string, platform: string, m: Message)
    requires m.uuid == ""
    ensures InsertAll(s, session, platform, [m]).messages == s.messages + [MessageRow(s.nextId, session, platform, m)]
  {
    assert [m][..0] == [];
    assert InsertAll(s, session, platform, []) == s;
  }

  /** Sending a chunk in two parts leaves the same messages as sending it whole. */
  lemma SplitIsHarmless(s: Store, c: Call, xs: seq<Message>, ys: seq<Message>, parse: string -> Option<real>)
    requires Accepted(s, c) && c.parsed == Some(xs + ys)
    ensures var first := Ingest(s, c.(parsed := Some(xs)), parse);
      && Ingest(first, c.(parsed := Some(ys)), parse).messages == Ingest(s, c, parse).messages
  {
    var r := c.request;
    InsertAllConcat(s, r.session, r.platform, xs, ys);
    var first := Ingest(s, c.(parsed := Some(xs)), parse);
    OnlyMessagesMatter(InsertAll(s, r.session, r.platform, xs), first, r.session, r.platform, ys);
  }

  lemma {:induction false} OnlyMessagesMatter(s: Store, t: Store, session: string, platform: string, ms: seq<Message>)
    requires s.messages == t.messages && s.nextId == t.nextId
    ensures InsertAll(s, session, platform, ms).messages == InsertAll(t, session, platform, ms).messages
    ensures InsertAll(s, session, platform, ms).nextId == InsertAll(t, session, platform, ms).nextId
  {
    if ms == [] {
    } else {
      OnlyMessagesMatter(s, t, session, platform, ms[..|ms| - 1]);
    }
  }

  /** The keys stored are exactly those of the accepted calls. */
  lemma {:induction false} KeysAreUnion(ss: seq<Store>, cs: seq<Call>, parse: string -> Option<real>, j: nat, session: string, uuid: string)
    requires IsRun(ss, cs, parse) && j < |ss| && uuid != ""
    ensures HasKey(ss[j].messages, session, uuid) <==>
            exists i, k :: 0 <= i < j && Accepted(ss[i], cs[i]) && cs[i].request.session == session
                           && 0 <= k < |cs[i].parsed.value| && cs[i].parsed.value[k].uuid == uuid
  {
    if j == 0 {
    } else {
      KeysAreUnion(ss, cs, parse, j - 1, session, uuid);
      var c := cs[j - 1];
      if Accepted(ss[j - 1], c) {
        KeysAfter(ss[j - 1], c.request.session, c.request.platform, c.parsed.value, session, uuid);
      }
    }
  }

  // ---------------------------------------------------------------- what stays as it was

  /** Ids ascend, stay below the next one, and no key is stored twice. */
  ghost predicate RowsInv(rows: seq<MessageRow>, nextId: nat) {
    && (forall i | 0 <= i < |rows| :: 0 < rows[i].id < nextId)
    && (forall i, j | 0 <= i < j < |rows| :: rows[i].id < rows[j].id)
    && (forall i, j | 0 <= i < j < |rows| && rows[i].message.uuid != "" ::
          !(rows[i].session == rows[j].session && rows[i].message.uuid == rows[j].message.uuid))
  }

  lemma {:induction false} InsertAllKeepsRows(s: Store, session: string, platform: string, ms: seq<Message>)
    requires s.nextId > 0 && RowsInv(s.messages, s.nextId)
    ensures var t := InsertAll(s, session, platform, ms); t.nextId > 0 && RowsInv(t.messages, t.nextId)
  {
    if ms == [] {
    } else {
      InsertAllKeepsRows(s, session, platform, ms[..|ms| - 1]);
      var t := InsertAll(s, session, platform, ms[..|ms| - 1]);
      assert Skips(t.messages, session, ms[|ms| - 1]) <==>
             ms[|ms| - 1].uuid != "" && HasKey(t.messages, session, ms[|ms| - 1].uuid);
    }
  }

  lemma {:induction false} ReachableRows(ss: seq<Store>, cs: seq<Call>, parse: string -> Option<real>, i: nat)
    requires IsRun(ss, cs, parse) && i < |ss|
    ensures ss[i].nextId > 0 && RowsInv(ss[i].messages, ss[i].nextId)
  {
    if i == 0 {
    } else {
      ReachableRows(ss, cs, parse, i - 1);
      var c := cs[i - 1];
      assert ss[i] == Ingest(ss[i - 1], c, parse);
      if Accepted(ss[i - 1], c) { InsertAllKeepsRows(ss[i - 1], c.request.session, c.request.platform, c.parsed.value); }
    }
  }

  /** The owner and the other insert-only columns of a session stay as first written, and the time of the
      last activity never goes back. */
  lemma {:induction false} SessionsKeepIdentity(ss: seq<Store>, cs: seq<Call>, parse: string -> Option<real>, i: nat, j: nat, session: string)
    requires IsRun(ss, cs, parse) && i <= j < |ss| && session in ss[i].sessions
    ensures session in ss[j].sessions
    ensures ss[j].sessions[session].identity == ss[i].sessions[session].identity
    ensures ss[j].sessions[session].extraction == ss[i].sessions[session].extraction
    ensures ss[i].sessions[session].lastActivityAt.Some? ==>
              ss[j].sessions[session].lastActivityAt.Some?
              && ss[i].sessions[session].lastActivityAt.value <= ss[j].sessions[session].lastActivityAt.value
  {
    if i == j {
    } else {
      SessionsKeepIdentity(ss, cs, parse, i, j - 1, session);
      assert ss[j] == Ingest(ss[j - 1], cs[j - 1], parse);
    }
  }

  lemma {:induction false} NewestIsMaximum(ms: seq<Message>, parse: string -> Option<real>)
    ensures Newest(ms, parse).Some? ==> exists m :: m in ms && parse(m.timestamp) == Newest(ms, parse)
    ensures forall m | m in ms && parse(m.timestamp).Some? ::
              Newest(ms, parse).Some? && parse(m.timestamp).value <= Newest(ms, parse).value
    decreases |ms|
  {
    if ms == [] {
    } else {
      var init, last := ms[..|ms| - 1], ms[|ms| - 1];
      NewestIsMaximum(init, parse);
      assert last in ms && forall m | m in init :: m in ms;
      assert forall m | m in ms :: m == last || m in init;
    }
  }

  /** `t` is the time of a message accepted for the session before call `j`. */
  ghost predicate Heard(ss: seq<Store>, cs: seq<Call>, parse: string -> Option<real>, session: string, j: nat, t: real)
    requires |ss| == |cs| + 1 && j <= |cs|
  {
    exists i :: 0 <= i < j && HeardIn(ss[i], cs[i], parse, session, t)
  }

  ghost predicate HeardIn(s: Store, c: Call, parse: string -> Option<real>, session: string, t: real) {
    Accepted(s, c) && c.request.session == session && exists m :: m in c.parsed.value && parse(m.timestamp) == Some(t)
  }

  function LastActivity(s: Store, session: string): Option<real> {
    if session in s.sessions then s.sessions[session].lastActivityAt else None
  }

  ghost predicate IsLatest(ss: seq<Store>, cs: seq<Call>, parse: string -> Option<real>, session: string, j: nat)
    requires |ss| == |cs| + 1 && j <= |cs|
  {
    var last := LastActivity(ss[j], session);
    && (last.Some? ==> last.value >= 0.0 && (last.value == 0.0 || Heard(ss, cs, parse, session, j, last.value)))
    && (forall t | Heard(ss, cs, parse, session, j, t) :: last.Some? && t <= last.value)
  }

  lemma HeardNext(ss: seq<Store>, cs: seq<Call>, parse: string -> Option<real>, session: string, j: nat, t: real)
    requires |ss| == |cs| + 1 && j < |cs|
    ensures Heard(ss, cs, parse, session, j + 1, t) <==>
            Heard(ss, cs, parse, session, j, t) || HeardIn(ss[j], cs[j], parse, session, t)
  {
  }

  lemma ActivityAfter(s: Store, c: Call, parse: string -> Option<real>, session: string)
    ensures LastActivity(Ingest(s, c, parse), session) ==
            if Accepted(s, c) && c.request.session == session
            then Later(LastActivity(s, session), Newest(c.parsed.value, parse)) else LastActivity(s, session)
  {
  }

  lemma HeardAtMost(s: Store, c: Call, parse: string -> Option<real>, session: string, t: real)
    requires HeardIn(s, c, parse, session, t)
    ensures var now := LastActivity(Ingest(s, c, parse), session); now.Some? && t <= now.value
  {
    ActivityAfter(s, c, parse, session);
    NewestIsMaximum(c.parsed.value, parse);
    var m :| m in c.parsed.value && parse(m.timestamp) == Some(t);
  }

  lemma ActivityWasHeard(s: Store, c: Call, parse: string -> Option<real>, session: string)
    requires var was := LastActivity(s, session); was.Some? ==> was.value >= 0.0
    ensures var was, now := LastActivity(s, session), LastActivity(Ingest(s, c, parse), session);
      && (was.Some? ==> now.Some? && was.value <= now.value)
      && (now.Some? ==> now.value >= 0.0 && (now.value == 0.0 || now == was || HeardIn(s, c, parse, session, now.value)))
  {
    ActivityAfter(s, c, parse, session);
    if Accepted(s, c) && c.request.session == session { NewestIsMaximum(c.parsed.value, parse); }
  }

  lemma LatestStep(ss: seq<Store>, cs: seq<Call>, parse: string -> Option<real>, session: string, j: nat)
    requires |ss| == |cs| + 1 && j < |cs| && ss[j + 1] == Ingest(ss[j], cs[j], parse) && IsLatest(ss, cs, parse, session, j)
    ensures IsLatest(ss, cs, parse, session, j + 1)
  {
    var next, now := j + 1, LastActivity(ss[j + 1], session);
    ActivityWasHeard(ss[j], cs[j], parse, session);
    if now.Some? { HeardNext(ss, cs, parse, session, j, now.value); }
    forall t | Heard(ss, cs, parse, session, next, t) ensures now.Some? && t <= now.value {
      HeardNext(ss, cs, parse, session, j, t);
      if HeardIn(ss[j], cs[j], parse, session, t) { HeardAtMost(ss[j], cs[j], parse, session, t); }
    }
  }

  /** The last activity of a session is the latest time heard of it in any accepted call, but not before
      the epoch. */
  lemma {:induction false} LastActivityIsLatest(ss: seq<Store>, cs: seq<Call>, parse: string -> Option<real>, session: string, j: nat)
    requires IsRun(ss, cs, parse) && j <= |cs|
    ensures IsLatest(ss, cs, parse, session, j)
    decreases j
  {
    if j == 0 {
    } else {
      LastActivityIsLatest(ss, cs, parse, session, j - 1);
      assert ss[j] == Ingest(ss[j - 1], cs[j - 1], parse);
      LatestStep(ss, cs, parse, session, j - 1);
    }
  }

  /** What the first call of a session writes for good: the caller, the request, and its modification time as the time
      of indexing. */
  function Founded(c: Call): Identity {
    var q := c.request;
    Identity(c.user, q.identity.projectDir, q.identity.filePath, q.fileMtime, q.platform,
             q.identity.rawCwd, q.identity.projectKey, q.identity.isSubagent, q.identity.sourceParent)
  }

  /** The session belongs to the user whose call created it and keeps what that call wrote for good; it shows what the
      latest call reported, its extraction is not touched, and no other session changes. */
  lemma OwnerIsCaller(s: Store, c: Call, parse: string -> Option<real>)
    requires Accepted(s, c)
    ensures c.request.session in Ingest(s, c, parse).sessions
    ensures var row := Ingest(s, c, parse).sessions[c.request.session];
      && row.identity.user == c.user && row.fileMtime == row.lastSeenAt == c.request.fileMtime
      && row.bytesSeen == c.request.bytesSeen && row.lastIngestedAt == Some(c.now)
      && if c.request.session in s.sessions then
           var was := s.sessions[c.request.session];
           && row.identity == was.identity && row.extraction == was.extraction
           && row.counters == (if c.request.counters == "" then was.counters else c.request.counters)
         else
           row.identity == Founded(c) && row.counters == c.request.counters && row.extraction == Extraction(None, 0, None, None, None)
    ensures forall other | other in s.sessions && other != c.request.session ::
              other in Ingest(s, c, parse).sessions && Ingest(s, c, parse).sessions[other] == s.sessions[other]
  {
  }
}

/** The ingest service: its tables are the fields, and a call that does not commit leaves them alone. */
module MemoryService {
  import opened Options
  import opened MemoryModel
  import opened MemoryIngest

  /** The newest timestamp of a chunk: a maximum of those that parse, and absent only when none does. */
  method NewestTimestamp(ms: seq<Message>, parse: string -> Option<real>) returns (newest: Option<real>)
    ensures newest == Newest(ms, parse)
    ensures newest.None? <==> forall m | m in ms :: parse(m.timestamp).None?
    ensures newest.Some? ==> exists m :: m in ms && parse(m.timestamp) == newest
    ensures forall m | m in ms && parse(m.timestamp).Some? :: newest.Some? && parse(m.timestamp).value <= newest.value
  {
    newest := None;
    for i := 0 to |ms|
      invariant newest == Newest(ms[..i], parse)
      invariant newest.None? <==> forall k | 0 <= k < i :: parse(ms[k].timestamp).None?
      invariant newest.Some? ==> exists m :: m in ms && parse(m.timestamp) == newest
      invariant forall k | 0 <= k < i && parse(ms[k].timestamp).Some? ::
                  newest.Some? && parse(ms[k].timestamp).value <= newest.value
    {
      assert ms[..i + 1][..i] == ms[..i];
      assert ms[i] in ms;
      var t := parse(ms[i].timestamp);
      if t.Some? && (newest.None? || t.value > newest.value) { newest := t; }
    }
    assert ms[..|ms|] == ms;
  }

  class Service {
    var sessions: map<string, SessionRow>
    var messages: seq<MessageRow>
    var nextId: nat
    const parse: string -> Option<real>
    ghost var states: seq<Store>
    ghost var calls: seq<Call>

    ghost predicate Valid()
      reads this
    {
      && IsRun(states, calls, parse)
      && states[|calls|] == Now()
    }

    ghost function Now(): Store
      reads this
    {
      Store(sessions, messages, nextId)
    }

    constructor (parse: string -> Option<real>)
      ensures Valid() && Now() == EMPTY && calls == [] && this.parse == parse
    {
      sessions, messages, nextId := map[], [], 1;
      this.parse := parse;
      states, calls := [EMPTY], [];
    }

    /** The insert loop of one transaction, on the transaction's own copy of the table. */
    static method BulkInsert(start: Store, session: string, platform: string, ms: seq<Message>)
      returns (s: Store, stored: nat)
      ensures s == InsertAll(start, session, platform, ms)
      ensures exists at :: AddsNew(start, s, session, platform, ms, at) && |at| == stored
    {
      s, stored := start, 0;
      for i := 0 to |ms|
        invariant s == InsertAll(start, session, platform, ms[..i])
        invariant |s.messages| == |start.messages| + stored
      {
        assert ms[..i + 1][..i] == ms[..i];
        if !Skips(s.messages, session, ms[i]) {
          s := s.(messages := s.messages + [MessageRow(s.nextId, session, platform, ms[i])], nextId := s.nextId + 1);
          stored := stored + 1;
        }
      }
      assert ms[..|ms|] == ms;
      ghost var at := InsertAddsNew(start, session, platform, ms);
    }

    method Ingest(c: Call) returns (r: Outcome)
      requires Valid()
      modifies this
      ensures Valid() && calls == old(calls) + [c] && |states| == |calls| + 1
      ensures Now() == MemoryModel.Ingest(old(Now()), c, parse)
      ensures r == Result(old(Now()), c)
      ensures !r.Ingested? ==> Now() == old(Now())
      ensures r.Ingested? ==> Transcribed(old(Now()), c, Now(), r.added)
    {
      ghost var was := Now();
      AllOrNothing(was, c, parse);
      IngestTranscribes(was, c, parse);
      r := InvalidRequest;
      if c.request.session != "" && c.request.platform != "" && c.known {
        r := Transact(c);
      }
      RunExtends(states, calls, c, parse);
      states, calls := states + [Now()], calls + [c];
    }

    /** Parse, check the owner, upsert, insert, stamp and commit; anything else rolls back. */
    method Transact(c: Call) returns (r: Outcome)
      requires c.request.session != "" && c.request.platform != "" && c.known
      modifies `sessions, `messages, `nextId
      ensures Now() == MemoryModel.Ingest(old(Now()), c, parse)
      ensures r == Result(old(Now()), c)
    {
      if c.parsed.None? { return ParseError; }
      var ms := c.parsed.value;
      var activity := NewestTimestamp(ms, parse);
      if c.failsEarly { return StorageError; }
      var id := c.request.session;
      if id in sessions && sessions[id].identity.user != c.user { return ForeignSession; }
      var q := WithUser(c);
      var row := UpsertRow(Store(sessions, messages, nextId), q);
      var s, stored := BulkInsert(Store(sessions, messages, nextId), id, q.platform, ms);
      InsertAllGrows(Now(), id, q.platform, ms);
      row := Stamp(row, c.now, activity, q.counters);
      if c.failsLate { return StorageError; }
      sessions, messages, nextId := sessions[id := row], s.messages, s.nextId;
      r := Ingested(stored);
    }
  }
}
