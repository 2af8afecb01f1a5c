/** Whole-run facts about the server and its clients. */
module ServerTheorems {
  import opened Wire
  import opened PeerCodes
  import opened RateLimit
  import opened Filters
  import opened Channels
  import opened Rooms
  import opened Histories
  import opened Replica
  import opened Server
  import opened ServerInvariant
  import Slots

  // ---- Accounting across rooms, connections and slots ----

  function MemberSessions(conns: map<ConnId, Conn>, ids: set<ConnId>): set<nat>
    requires ids <= conns.Keys
  {
    set c | c in ids && conns[c].phase.Member? :: conns[c].phase.sessionId
  }

  lemma {:induction false} FewerSessionsThanConnections(conns: map<ConnId, Conn>, ids: set<ConnId>)
    requires ids <= conns.Keys
    ensures |MemberSessions(conns, ids)| <= |ids|
    decreases |ids|
  {
    if ids != {} {
      var c :| c in ids;
      FewerSessionsThanConnections(conns, ids - {c});
      var rest := MemberSessions(conns, ids - {c});
      if conns[c].phase.Member? {
        assert MemberSessions(conns, ids) == rest + {conns[c].phase.sessionId};
      } else {
        assert MemberSessions(conns, ids) == rest;
      }
    }
  }

  /** In every reachable state each room entry belongs to exactly one live registered
      connection, so the peers of all rooms together are no more than the slots in use,
      which are no more than the limit. */
  lemma PeersFitInSlots(max: nat, events: seq<Event>)
    requires Exec(Start(max), events).Some?
    ensures var s := Exec(Start(max), events).value;
            && (forall ip, p :: InRoom(s.table.rooms, ip, p) ==>
                  forall c :: (c in s.conns && IsOwner(s.conns[c], ip, p)) <==> c == p.sender)
            && |SessionIds(s.table.rooms)| <= |s.conns| == s.slots.active <= max
  {
    EveryRunKeepsInv(max, events);
    var s := Exec(Start(max), events).value;
    var sessions := MemberSessions(s.conns, s.conns.Keys);
    forall n | n in SessionIds(s.table.rooms) ensures n in sessions {
      var ip, p :| ip in s.table.rooms && p in s.table.rooms[ip] && p.sessionId == n;
      assert InRoom(s.table.rooms, ip, p);
      assert IsOwner(s.conns[p.sender], ip, p);
    }
    SubsetSize(SessionIds(s.table.rooms), sessions);
    FewerSessionsThanConnections(s.conns, s.conns.Keys);
    forall ip, p, c | InRoom(s.table.rooms, ip, p)
      ensures (c in s.conns && IsOwner(s.conns[c], ip, p)) <==> c == p.sender
    {
      if c in s.conns && IsOwner(s.conns[c], ip, p) {
        assert IsMember(s, c) && IsMember(s, p.sender);
      }
    }
  }

  // ---- Entries and sessions ----

  /** The event registers a connection of room `ip` under `code`. */
  ghost predicate JoinsAs(s: State, e: Event, ip: string, code: string) {
    && e.Receive? && e.frame.Text? && e.c in s.conns && s.conns[e.c].ip == ip
    && TextJoins(s, e.c, e.now, e.frame.size, e.frame.content, code)
  }

  /** The event is the entry's own cleanup or a later registration of its code in its room. */
  ghost predicate EndsEntry(s: State, e: Event, ip: string, p: PeerInfo) {
    e == Cleanup(p.sender) || JoinsAs(s, e, ip, p.Code())
  }

  lemma RoomsChangeOnlyHere(s: State, e: Event)
    requires RoomsOk(s) && Enabled(s, e) && !e.Cleanup?
    requires forall ip, code :: !JoinsAs(s, e, ip, code)
    ensures Next(s, e).table.rooms == s.table.rooms
  {
    if e.Receive? && e.frame.Text? {
      forall code ensures !TextJoins(s, e.c, e.now, e.frame.size, e.frame.content, code) {
        assert !JoinsAs(s, e, s.conns[e.c].ip, code);
      }
      OnTextKeepsRooms(s, e.c, e.now, e.frame.size, e.frame.content);
    }
  }

  lemma TableAfterJoin(s: State, e: Event, ip: string, code: string)
    requires Enabled(s, e) && JoinsAs(s, e, ip, code)
    ensures e.frame.content.Some? && e.frame.content.value.Register?
    ensures var info := PeerInfo(e.frame.content.value.peer.(peerCode := code), e.c, 0);
            AfterAdd(s.table, ip, info).1.Ok? && Next(s, e).table == AfterAdd(s.table, ip, info).0
  {
    var m := WithLimiter(s, e.c, Check(s.conns[e.c].limiter, e.now).0);
    assert Next(s, e) == Join(m, e.c, code, e.frame.content.value.peer);
  }

  /** An entry leaves its room exactly at its own session's cleanup, or when its code is
      registered again in that room. */
  lemma EntryEndsExactly(s: State, e: Event, ip: string, p: PeerInfo)
    requires Inv(s) && Enabled(s, e) && InRoom(s.table.rooms, ip, p)
    ensures InRoom(Next(s, e).table.rooms, ip, p) <==> !EndsEntry(s, e, ip, p)
  {
    assert IsOwner(s.conns[p.sender], ip, p);
    if e.Cleanup? {
      var Conn(ip', _, Member(_, code, sessionId, _)) := s.conns[e.c];
      EntriesAfterRemove(s.table, ip', code, sessionId);
      assert IsMember(s, e.c) && IsMember(s, p.sender);
    } else if ip', code :| JoinsAs(s, e, ip', code) {
      TableAfterJoin(s, e, ip', code);
      EntriesAfterAdd(s.table, ip', PeerInfo(e.frame.content.value.peer.(peerCode := code), e.c, 0));
    } else {
      RoomsChangeOnlyHere(s, e);
    }
  }

  /** A new entry belongs to a connection that was registering. */
  lemma EntriesComeFromRegistrations(s: State, e: Event, ip: string, q: PeerInfo)
    requires Inv(s) && Enabled(s, e) && InRoom(Next(s, e).table.rooms, ip, q)
    ensures InRoom(s.table.rooms, ip, q) || (q.sender in s.conns && s.conns[q.sender].phase.Registering?)
  {
    if e.Cleanup? {
      var Conn(ip', _, Member(_, code, sessionId, _)) := s.conns[e.c];
      EntriesAfterRemove(s.table, ip', code, sessionId);
    } else if ip', code :| JoinsAs(s, e, ip', code) {
      TableAfterJoin(s, e, ip', code);
      EntriesAfterAdd(s.table, ip', PeerInfo(e.frame.content.value.peer.(peerCode := code), e.c, 0));
    } else {
      RoomsChangeOnlyHere(s, e);
    }
  }

  /** From any reachable state, an entry stays through every run whose events do not end it. */
  lemma {:induction false} EntryStaysUntilEnded(s: State, events: seq<Event>, ip: string, p: PeerInfo)
    requires Inv(s) && InRoom(s.table.rooms, ip, p) && Exec(s, events).Some?
    requires forall i :: 0 <= i < |events| && Exec(s, events[..i]).Some? ==>
               !EndsEntry(Exec(s, events[..i]).value, events[i], ip, p)
    ensures Inv(Exec(s, events).value) && InRoom(Exec(s, events).value.table.rooms, ip, p)
  {
    if events != [] {
      var n := |events| - 1;
      forall i | 0 <= i < n ensures events[..n][..i] == events[..i] {}
      EntryStaysUntilEnded(s, events[..n], ip, p);
      EntryEndsExactly(Exec(s, events[..n]).value, events[n], ip, p);
      StepKeepsInv(Exec(s, events[..n]).value, events[n]);
    }
  }

  /** `c` is registered but its entry was replaced. */
  ghost predicate Replaced(s: State, c: ConnId) {
    IsMember(s, c) && forall ip, p :: InRoom(s.table.rooms, ip, p) ==> p.sender != c
  }

  /** Once replaced, a connection stays replaced until its cleanup. */
  lemma {:induction false} ReplacedStaysReplaced(s: State, events: seq<Event>, c: ConnId)
    requires Inv(s) && Replaced(s, c) && Exec(s, events).Some? && Cleanup(c) !in events
    ensures Inv(Exec(s, events).value) && Replaced(Exec(s, events).value, c)
  {
    if events != [] {
      var n := |events| - 1;
      ReplacedStaysReplaced(s, events[..n], c);
      var m, e := Exec(s, events[..n]).value, events[n];
      StepKeepsInv(m, e);
      MembersStayMembers(m, e, c);
      forall ip, p | InRoom(Next(m, e).table.rooms, ip, p) ensures p.sender != c {
        EntriesComeFromRegistrations(m, e, ip, p);
      }
    }
  }

  lemma ServeKeepsConns(s: State, c: ConnId, content: Option<ClientMessage>)
    requires c in s.conns && s.conns[c].phase.Member?
    ensures Serve(s, c, content).conns == s.conns
  {}

  lemma MemberText(s: State, c: ConnId, now: nat, size: nat, content: Option<ClientMessage>)
    requires c in s.conns && InLoop(s.conns[c]) && s.conns[c].phase.Member?
    ensures c in OnText(s, c, now, size, content).conns
    ensures PhaseStep(s.conns[c].phase, OnText(s, c, now, size, content).conns[c].phase)
  {
    ServeKeepsConns(WithLimiter(s, c, Check(s.conns[c].limiter, now).0), c, content);
  }

  lemma MembersStayMembers(s: State, e: Event, c: ConnId)
    requires Inv(s) && Enabled(s, e) && IsMember(s, c) && e != Cleanup(c)
    ensures IsMember(Next(s, e), c)
    ensures var before, after := s.conns[c].phase, Next(s, e).conns[c].phase;
            && after.sessionId == before.sessionId && after.snapshot == before.snapshot
            && (after.stage.Added? <==> before.stage.Added? && e != Announce(c))
  {
    if e.Load? || e.c != c {
      StepKeepsOtherConns(s, e, c);
    } else if e.Receive? && e.frame.Text? {
      MemberText(s, c, e.now, e.frame.size, e.frame.content);
    }
  }

  /** The cleanup of a replaced connection, whenever it comes, changes no room and sends
      nothing. Otherwise it takes out its own entry, and every other open member of the room
      is told once. */
  lemma CleanupTouchesOnlyItsOwnEntry(s: State, c: ConnId)
    requires Inv(s) && Enabled(s, Cleanup(c))
    ensures Replaced(s, c) <==> Next(s, Cleanup(c)).table == s.table
    ensures !Replaced(s, c) ==>
              forall ip, q :: InRoom(s.table.rooms, ip, q) && q.sender != c ==>
                Next(s, Cleanup(c)).table.net.Of(q.sender) == s.table.net.Of(q.sender) +
                  (if ip == s.conns[c].ip && s.table.net.IsOpen(q.sender)
                   then [PeerLeft(s.conns[c].phase.code)] else [])
  {
    var Conn(ip, _, Member(_, code, sessionId, _)) := s.conns[c];
    var room := RoomAt(s.table.rooms, ip);
    KeepAll(OtherEntry(code, sessionId), room);
    assert Replaced(s, c) <==> Keep(OtherEntry(code, sessionId), room) == room by {
      forall ip', p | InRoom(s.table.rooms, ip', p)
        ensures p.sender == c <==> (ip' == ip && p.Code() == code && p.sessionId == sessionId)
      {
        assert IsOwner(s.conns[p.sender], ip', p);
        assert IsMember(s, p.sender) && IsMember(s, c);
      }
      forall p | p in room ensures InRoom(s.table.rooms, ip, p) {}
    }
    if !Replaced(s, c) {
      forall ip', q | InRoom(s.table.rooms, ip', q) && q.sender != c
        ensures Next(s, Cleanup(c)).table.net.Of(q.sender) == s.table.net.Of(q.sender) +
                  (if ip' == ip && s.table.net.IsOpen(q.sender) then [PeerLeft(code)] else [])
      {
        assert IsOwner(s.conns[q.sender], ip', q);
        assert IsMember(s, q.sender) && IsMember(s, c);
        BroadcastReachesKept(s, ip, OtherEntry(code, sessionId), PeerLeft(code), ip', q);
      }
      EntriesAfterRemove(s.table, ip, code, sessionId);
    }
  }

  /** A registration enters the peer with its normal code, its own data, its own channel and
      a new session, and tells exactly the open members with other codes, once. */
  lemma JoiningTellsTheRoom(s: State, c: ConnId, code: string, peer: PeerData)
    requires CanJoin(s, c, code, peer)
    ensures var s', data := Join(s, c, code, peer), peer.(peerCode := code);
            && InRoom(s'.table.rooms, s.conns[c].ip, PeerInfo(data, c, s.table.nextSessionId))
            && forall ip, q :: InRoom(s.table.rooms, ip, q) ==>
                 s'.table.net.Of(q.sender) == s.table.net.Of(q.sender) +
                   (if ip == s.conns[c].ip && q.Code() != code && s.table.net.IsOpen(q.sender)
                    then [PeerJoined(data)] else [])
  {
    var ip, info := s.conns[c].ip, PeerInfo(peer.(peerCode := code), c, 0);
    EntriesAfterAdd(s.table, ip, info);
    forall ip', q | InRoom(s.table.rooms, ip', q)
      ensures Join(s, c, code, peer).table.net.Of(q.sender) == s.table.net.Of(q.sender) +
                (if ip' == ip && q.Code() != code && s.table.net.IsOpen(q.sender) then [PeerJoined(info.data)] else [])
    {
      BroadcastReachesKept(s, ip, OtherCode(code), PeerJoined(info.data), ip', q);
    }
  }

  // ---- The client's view ----

  /** `c` is the current entry `p` of room `ip`, and its client has been sent the snapshot. */
  ghost predicate Announced(s: State, ip: string, p: PeerInfo) {
    && InRoom(s.table.rooms, ip, p)
    && s.table.net.IsOpen(p.sender)
    && IsMember(s, p.sender) && !s.conns[p.sender].phase.stage.Added?
  }

  lemma OwnCodeIsForeign(typed: string, room: Room, phase: Phase, h: seq<ServerMessage>)
    requires HistoryOk(room, phase, h) && !phase.stage.Added?
    requires ValidatePeerCode(typed) == Ok(phase.code)
    ensures Foreign(typed, h)
  {
    if IsNormal(typed) {
      NormalCodesAreFixed(typed);
      assert typed == phase.code;
    }
    assert NeverMentions(h, typed);
    forall i | 0 <= i < |h| && h[i].Peers? ensures typed !in CodesOf(h[i].peers) {
      SnapshotAt(h, i);
      assert h[i].peers in Snapshots(h);
      assert h[i].peers == phase.snapshot;
    }
  }

  lemma {:induction false} SnapshotAt(h: seq<ServerMessage>, i: nat)
    requires i < |h| && h[i].Peers?
    ensures h[i].peers in Snapshots(h)
  {
    if i < |h| - 1 { SnapshotAt(h[..|h| - 1], i); }
  }

  /** The client's list in a state that satisfies the server's invariant. */
  lemma ViewInState(s: State, ip: string, p: PeerInfo, typed: string)
    requires RoomsOk(s) && Announced(s, ip, p) && ValidatePeerCode(typed) == Ok(p.Code())
    ensures var h, others := s.table.net.Of(p.sender), Codes(s.table.rooms[ip]) - {p.Code()};
            var stale := StaleCodes(h, s.conns[p.sender].phase.snapshot);
            CodesOf(View(typed, h)) == others + stale && others !! stale
  {
    var phase, h := s.conns[p.sender].phase, s.table.net.Of(p.sender);
    assert IsOwner(s.conns[p.sender], ip, p);
    assert HistoryOk(s.table.rooms[ip], phase, h);
    OwnCodeIsForeign(typed, s.table.rooms[ip], phase, h);
    ViewIsReplayPlusStale(typed, h, phase.snapshot);
  }

  /** In every run, for every current member whose channel is open and whose `Peers` message
      was sent: the client's list, folded from its whole channel, holds each other code of
      the room, and besides these exactly the stale codes. So no present peer is missed, and
      the list is right if and only if nothing is stale. `typed` is the code as the client
      spells it. */
  lemma ClientsConverge(max: nat, events: seq<Event>, ip: string, p: PeerInfo, typed: string)
    requires Exec(Start(max), events).Some?
    requires Announced(Exec(Start(max), events).value, ip, p)
    requires ValidatePeerCode(typed) == Ok(p.Code())
    ensures var s := Exec(Start(max), events).value;
            var h, others := s.table.net.Of(p.sender), Codes(s.table.rooms[ip]) - {p.Code()};
            var stale := StaleCodes(h, s.conns[p.sender].phase.snapshot);
            && CodesOf(View(typed, h)) == others + stale
            && others !! stale
            && (CodesOf(View(typed, h)) == others <==> stale == {})
            && ProperList(typed, View(typed, h))
  {
    EveryRunKeepsInv(max, events);
    var s := Exec(Start(max), events).value;
    ViewInState(s, ip, p, typed);
    ViewIsProper(typed, s.table.net.Of(p.sender));
  }

  // ---- Routing ----

  ghost predicate Accepts(s: State, c: ConnId, now: nat, size: nat) {
    && IsMember(s, c) && s.conns[c].phase.stage.Looping?
    && Check(s.conns[c].limiter, now).1.Accept? && size <= MAX_MESSAGE_BYTES
  }

  /** The step enqueues one message on one open channel and touches no room. */
  ghost predicate SendsOnly(s: State, s': State, ch: ChannelId, msg: ServerMessage) {
    && s'.table.rooms == s.table.rooms
    && forall x :: s'.table.net.Of(x) == s.table.net.Of(x) + (if x == ch && s.table.net.IsOpen(ch) then [msg] else [])
  }

  lemma SendingSendsOnly(s: State, ch: ChannelId, msg: ServerMessage)
    ensures SendsOnly(s, SendTo(s, ch, msg), ch, msg)
  {}

  /** The rate limiter and the size check passed: the message is served. */
  lemma AcceptedMessagesAreServed(s: State, c: ConnId, now: nat, size: nat, content: Option<ClientMessage>)
    requires Accepts(s, c, now, size)
    ensures Next(s, Receive(c, now, Text(size, content))) ==
            Serve(WithLimiter(s, c, Check(s.conns[c].limiter, now).0), c, content)
  {}

  lemma RelayGoesToOneChannel(s: State, c: ConnId, code: string, ch: ChannelId, to: string, payload: Payload)
    ensures if s.table.net.IsOpen(ch)
            then SendsOnly(s, RelayTo(s, c, code, ch, to, payload), ch, Relay(code, payload))
            else SendsOnly(s, RelayTo(s, c, code, ch, to, payload), c, Error(PeerGone(to)))
  {
    SendingSendsOnly(s, ch, Relay(code, payload));
    SendingSendsOnly(s, c, Error(PeerGone(to)));
  }

  lemma LookupFindsTheEntry(rooms: RoomMap, ip: string, code: string, p: PeerInfo)
    requires ValidRooms(rooms) && HasCode(rooms, ip, p, code)
    ensures Lookup(rooms, ip, code) == Some(p)
  {
    var q := Lookup(rooms, ip, code).value;
    CodesIdentifyEntries(rooms[ip], p, q);
  }

  /** A `signal` addressed to any spelling of a code reaches the entry with that code in the
      sender's own room, once, with the sender's code and the payload as sent; if its channel
      is closed, only the sender hears of it. */
  lemma SignalsAreRouted(
    s: State, c: ConnId, now: nat, size: nat, to: string, payload: Payload, target: string, p: PeerInfo)
    requires Inv(s) && Accepts(s, c, now, size)
    requires IsNormal(target) && IsSpelling(to, target)
    requires HasCode(s.table.rooms, s.conns[c].ip, p, target)
    ensures var s' := Next(s, Receive(c, now, Text(size, Some(Signal(to, payload)))));
            if s.table.net.IsOpen(p.sender)
            then SendsOnly(s, s', p.sender, Relay(s.conns[c].phase.code, payload))
            else SendsOnly(s, s', c, Error(PeerGone(target)))
  {
    ValidatorsNameTheSpelledCode(to, target);
    var m := WithLimiter(s, c, Check(s.conns[c].limiter, now).0);
    AcceptedMessagesAreServed(s, c, now, size, Some(Signal(to, payload)));
    LookupFindsTheEntry(s.table.rooms, s.conns[c].ip, target, p);
    assert Serve(m, c, Some(Signal(to, payload))) == RelayTo(m, c, s.conns[c].phase.code, p.sender, target, payload);
    RelayGoesToOneChannel(m, c, s.conns[c].phase.code, p.sender, target, payload);
  }

  /** If the sender's room has no such entry, whatever other rooms hold, nothing is relayed. */
  lemma SignalsStayInTheRoom(s: State, c: ConnId, now: nat, size: nat, to: string, payload: Payload, target: string)
    requires Inv(s) && Accepts(s, c, now, size)
    requires IsNormal(target) && IsSpelling(to, target)
    requires forall p :: !HasCode(s.table.rooms, s.conns[c].ip, p, target)
    ensures SendsOnly(s, Next(s, Receive(c, now, Text(size, Some(Signal(to, payload))))), c,
                      Error(PeerNotFound(target)))
  {
    ValidatorsNameTheSpelledCode(to, target);
    var m := WithLimiter(s, c, Check(s.conns[c].limiter, now).0);
    AcceptedMessagesAreServed(s, c, now, size, Some(Signal(to, payload)));
    SendingSendsOnly(m, c, Error(PeerNotFound(target)));
  }

  lemma CodesIdentifyEntries(room: Room, p: PeerInfo, q: PeerInfo)
    requires UniqueCodes(room) && p in room && q in room && p.Code() == q.Code()
    ensures p == q
  {
    var i, j :| 0 <= i < |room| && 0 <= j < |room| && room[i] == p && room[j] == q;
    assert i == j;
  }

  /** A `signal` to a text that spells no code is answered with an error and goes nowhere. */
  lemma BadTargetsGoNowhere(s: State, c: ConnId, now: nat, size: nat, to: string, payload: Payload)
    requires Inv(s) && Accepts(s, c, now, size)
    requires forall target :: !(IsNormal(target) && IsSpelling(to, target))
    ensures ValidateSignalTarget(to).Err?
    ensures SendsOnly(s, Next(s, Receive(c, now, Text(size, Some(Signal(to, payload))))), c,
                      Error(InvalidCode(ValidateSignalTarget(to).error)))
  {
    if ValidateSignalTarget(to).Ok? {
      ValidatorsNameTheSpelledCode(to, ValidateSignalTarget(to).value);
    }
  }

  lemma ManualLookupIsRight(rooms: RoomMap, code: string)
    requires ValidRooms(rooms)
    ensures LookupAnswer(rooms, code, ManualLookup(rooms, code))
  {
    if ip, p :| HasCode(rooms, ip, p, code) {
      if ip', q :| HasCode(rooms, ip', q, code) && ip' != ip {
        assert LookupAnswer(rooms, code, Ambiguous);
      } else {
        forall ip', q | HasCode(rooms, ip', q, code) ensures ip' == ip && q == p {
          CodesIdentifyEntries(rooms[ip], p, q);
        }
        assert LookupAnswer(rooms, code, Found(p.sender));
      }
    } else {
      assert LookupAnswer(rooms, code, NotFound);
    }
  }

  /** A `manual_signal` is relayed exactly when one entry of all rooms has the code. */
  lemma ManualSignalsAreRouted(s: State, c: ConnId, now: nat, size: nat, to: string, payload: Payload, target: string,
                               r: ManualPeerLookup)
    requires Inv(s) && Accepts(s, c, now, size)
    requires IsNormal(target) && IsSpelling(to, target) && LookupAnswer(s.table.rooms, target, r)
    ensures var s' := Next(s, Receive(c, now, Text(size, Some(ManualSignal(to, payload)))));
            match r
            case Found(ch) => if s.table.net.IsOpen(ch)
                              then SendsOnly(s, s', ch, Relay(s.conns[c].phase.code, payload))
                              else SendsOnly(s, s', c, Error(PeerGone(target)))
            case Ambiguous => SendsOnly(s, s', c, Error(PeerAmbiguous(target)))
            case NotFound => SendsOnly(s, s', c, Error(PeerNotFound(target)))
  {
    ValidatorsNameTheSpelledCode(to, target);
    ManualLookupIsRight(s.table.rooms, target);
    LookupAnswerIsUnique(s.table.rooms, target, r, ManualLookup(s.table.rooms, target));
    var m := WithLimiter(s, c, Check(s.conns[c].limiter, now).0);
    AcceptedMessagesAreServed(s, c, now, size, Some(ManualSignal(to, payload)));
    match r
    case Found(ch) => RelayGoesToOneChannel(m, c, s.conns[c].phase.code, ch, target, payload);
    case Ambiguous => SendingSendsOnly(m, c, Error(PeerAmbiguous(target)));
    case NotFound => SendingSendsOnly(m, c, Error(PeerNotFound(target)));
  }
}
