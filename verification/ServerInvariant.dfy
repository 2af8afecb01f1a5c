/** What every step of the server keeps. */
module ServerInvariant {
  import opened Wire
  import opened Utf8Text
  import opened PeerCodes
  import opened RateLimit
  import opened Filters
  import opened Channels
  import opened Rooms
  import opened Histories
  import opened Server
  import Slots

  // ---- The invariant ----

  predicate IsOwner(conn: Conn, ip: string, p: PeerInfo) {
    && conn.ip == ip
    && conn.phase.Member?
    && conn.phase.code == p.Code()
    && conn.phase.sessionId == p.sessionId
  }

  /** Each entry of each room belongs to the live connection that reads its channel. */
  ghost predicate Owned(s: State) {
    forall ip, p :: InRoom(s.table.rooms, ip, p) ==> p.sender in s.conns && IsOwner(s.conns[p.sender], ip, p)
  }

  predicate IsMember(s: State, c: ConnId) { c in s.conns && s.conns[c].phase.Member? }

  /** No two registered connections share a session. */
  ghost predicate SessionsOk(s: State) {
    && (forall c :: IsMember(s, c) ==> s.conns[c].phase.sessionId < s.table.nextSessionId)
    && (forall c, d | IsMember(s, c) && IsMember(s, d) ::
          s.conns[c].phase.sessionId == s.conns[d].phase.sessionId ==> c == d)
  }

  ghost predicate NormalCodes(s: State) {
    forall c :: IsMember(s, c) ==> IsNormal(s.conns[c].phase.code)
  }

  /** A connection that has not registered was sent nothing about rooms. */
  ghost predicate UnregisteredAreQuiet(s: State) {
    forall c :: c in s.conns && s.conns[c].phase.Registering? ==> Quiet(s.table.net.Of(c))
  }

  /** The joins and leaves sent since the snapshot, replayed on the snapshot, give the room. */
  ghost predicate HistoryOk(room: Room, phase: Phase, h: seq<ServerMessage>) {
    && phase.Member?
    && Replay(h, CodesOf(phase.snapshot)) == Codes(room) - {phase.code}
    && Snapshots(h) == (if phase.stage.Added? then [] else [phase.snapshot])
    && MentionsOthers(h, phase.code)
    && forall x :: x in CodesOf(phase.snapshot) ==> IsNormal(x) && x != phase.code
  }

  ghost predicate HistoriesOk(s: State) {
    forall ip, p :: InRoom(s.table.rooms, ip, p) && s.table.net.IsOpen(p.sender) && p.sender in s.conns ==>
      HistoryOk(s.table.rooms[ip], s.conns[p.sender].phase, s.table.net.Of(p.sender))
  }

  ghost predicate RoomsOk(s: State) {
    && Valid(s.table)
    && Owned(s)
    && SessionsOk(s)
    && NormalCodes(s)
    && s.conns.Keys <= s.table.net.history.Keys
    && UnregisteredAreQuiet(s)
    && HistoriesOk(s)
  }

  /** Every live connection holds one slot. */
  ghost predicate SlotsOk(s: State) {
    Slots.Inv(s.slots) && s.slots.guards == s.conns.Keys
  }

  predicate LimiterOk(conn: Conn) {
    && conn.limiter.violations <= CLOSE_THRESHOLD
    && (conn.phase.Registering? || (conn.phase.Member? && !conn.phase.stage.Closing?) ==>
          conn.limiter.violations < CLOSE_THRESHOLD)
  }

  ghost predicate LimitersOk(s: State) {
    forall c :: c in s.conns ==> LimiterOk(s.conns[c])
  }

  ghost predicate Inv(s: State) { RoomsOk(s) && SlotsOk(s) && LimitersOk(s) }

  // ---- Steps that tell no client about a room ----

  predicate QuietExtension(h: seq<ServerMessage>, h': seq<ServerMessage>) {
    h' == h || (|h'| == |h| + 1 && h'[..|h|] == h && IsQuiet(h'[|h|]))
  }

  predicate PhaseStep(before: Phase, after: Phase) {
    || after == before
    || (before.Registering? && after.Done?)
    || (before.Member? && before.stage.Looping? && after == before.(stage := Closing))
  }

  ghost predicate QuietStep(s: State, s': State) {
    && s'.slots == s.slots
    && s'.table.rooms == s.table.rooms
    && s'.table.nextSessionId >= s.table.nextSessionId
    && s'.table.net.closed == s.table.net.closed
    && s'.table.net.history.Keys == s.table.net.history.Keys
    && s'.conns.Keys == s.conns.Keys
    && (forall ch :: QuietExtension(s.table.net.Of(ch), s'.table.net.Of(ch)))
    && (forall c :: c in s.conns ==> s'.conns[c].ip == s.conns[c].ip && PhaseStep(s.conns[c].phase, s'.conns[c].phase))
  }

  lemma QuietExtensionIsSilent(h: seq<ServerMessage>, h': seq<ServerMessage>, start: set<string>)
    requires QuietExtension(h, h')
    ensures Replay(h', start) == Replay(h, start) && Snapshots(h') == Snapshots(h)
    ensures Quiet(h) ==> Quiet(h')
    ensures forall code :: MentionsOthers(h, code) ==> MentionsOthers(h', code)
  {
    if h' != h {
      OneMore(h, h'[|h|], start);
      assert h' == h + [h'[|h|]];
    }
  }

  lemma QuietStepKeepsOwners(s: State, s': State)
    requires RoomsOk(s) && QuietStep(s, s')
    ensures Valid(s'.table) && Owned(s') && SessionsOk(s') && NormalCodes(s')
  {
    forall c ensures IsMember(s', c) <==> IsMember(s, c) {
      if c in s.conns { assert PhaseStep(s.conns[c].phase, s'.conns[c].phase); }
    }
  }

  lemma QuietStepKeepsHistories(s: State, s': State)
    requires RoomsOk(s) && QuietStep(s, s')
    ensures UnregisteredAreQuiet(s') && HistoriesOk(s')
  {
    forall c | c in s'.conns && s'.conns[c].phase.Registering? ensures Quiet(s'.table.net.Of(c)) {
      QuietExtensionIsSilent(s.table.net.Of(c), s'.table.net.Of(c), {});
    }
    forall ip, p | InRoom(s'.table.rooms, ip, p) && s'.table.net.IsOpen(p.sender) && p.sender in s'.conns
      ensures HistoryOk(s'.table.rooms[ip], s'.conns[p.sender].phase, s'.table.net.Of(p.sender))
    {
      assert InRoom(s.table.rooms, ip, p);
      assert PhaseStep(s.conns[p.sender].phase, s'.conns[p.sender].phase);
      var snapshot := s.conns[p.sender].phase.snapshot;
      QuietExtensionIsSilent(s.table.net.Of(p.sender), s'.table.net.Of(p.sender), CodesOf(snapshot));
    }
  }

  lemma QuietStepKeepsRooms(s: State, s': State)
    requires RoomsOk(s) && QuietStep(s, s')
    ensures RoomsOk(s')
  {
    QuietStepKeepsOwners(s, s');
    QuietStepKeepsHistories(s, s');
  }

  lemma SendIsQuiet(s: State, ch: ChannelId, msg: ServerMessage)
    requires IsQuiet(msg)
    ensures QuietStep(s, SendTo(s, ch, msg))
  {
    var net, net' := s.table.net, s.table.net.Send(ch, msg);
    forall x ensures QuietExtension(net.Of(x), net'.Of(x)) {}
  }

  lemma RelayIsQuiet(s: State, c: ConnId, code: string, target: ChannelId, to: string, payload: Payload)
    ensures QuietStep(s, RelayTo(s, c, code, target, to, payload))
  {
    SendIsQuiet(s, target, Relay(code, payload));
    SendIsQuiet(s, c, Error(PeerGone(to)));
  }

  lemma ServeIsQuiet(s: State, c: ConnId, content: Option<ClientMessage>)
    requires c in s.conns && s.conns[c].phase.Member?
    ensures QuietStep(s, Serve(s, c, content))
  {
    forall text: ErrorText ensures QuietStep(s, Reply(s, c, text)) { SendIsQuiet(s, c, Error(text)); }
    forall code, target, to, payload ensures QuietStep(s, RelayTo(s, c, code, target, to, payload)) {
      RelayIsQuiet(s, c, code, target, to, payload);
    }
  }

  /** A registering connection is told why it may not join, and may have to leave. */
  lemma RefusalIsQuiet(s: State, c: ConnId, text: ErrorText, next: nat)
    requires c in s.conns && s.conns[c].phase.Registering? && next >= s.table.nextSessionId
    ensures QuietStep(s, Reply(s, c, text))
    ensures QuietStep(s, WithPhase(Reply(s.(table := s.table.(nextSessionId := next)), c, text), c, Done))
  {
    SendIsQuiet(s, c, Error(text));
  }

  /** The message is a `register` that the server accepts under `code`. */
  predicate Joins(s: State, c: ConnId, content: Option<ClientMessage>, code: string)
    requires c in s.conns
  {
    && content.Some? && content.value.Register?
    && Utf8Len(content.value.peer.deviceName) <= MAX_DEVICE_NAME_BYTES
    && ValidatePeerCode(content.value.peer.peerCode) == Ok(code)
    && AfterAdd(s.table, s.conns[c].ip, PeerInfo(content.value.peer.(peerCode := code), c, 0)).1.Ok?
  }

  lemma RegisterIsQuietUnlessItJoins(s: State, c: ConnId, content: Option<ClientMessage>)
    requires RoomsOk(s) && c in s.conns && s.conns[c].phase.Registering?
    requires forall code :: !Joins(s, c, content, code)
    ensures QuietStep(s, Enroll(s, c, content))
  {
    forall text: ErrorText, next: nat | next >= s.table.nextSessionId
      ensures QuietStep(s, Reply(s, c, text))
      ensures QuietStep(s, WithPhase(Reply(s.(table := s.table.(nextSessionId := next)), c, text), c, Done))
    {
      RefusalIsQuiet(s, c, text, next);
    }
    if content.Some? && content.value.Register? && Utf8Len(content.value.peer.deviceName) <= MAX_DEVICE_NAME_BYTES {
      match ValidatePeerCode(content.value.peer.peerCode)
      case Err(e) =>
        assert s.(table := s.table.(nextSessionId := s.table.nextSessionId)) == s;
      case Ok(code) =>
        assert !Joins(s, c, content, code);
        RefusalIsExactAndHarmless(s.table, s.conns[c].ip, PeerInfo(content.value.peer.(peerCode := code), c, 0));
        var table := AfterAdd(s.table, s.conns[c].ip, PeerInfo(content.value.peer.(peerCode := code), c, 0)).0;
        assert table == s.table.(nextSessionId := s.table.nextSessionId + 1);
    }
  }

  lemma LeaveIsQuiet(s: State, c: ConnId)
    requires c in s.conns && InLoop(s.conns[c])
    ensures QuietStep(s, Leave(s, c))
  {}

  // ---- Broadcasts to part of a room ----

  lemma SameSenderSameEntry(s: State, ip1: string, p: PeerInfo, ip2: string, q: PeerInfo)
    requires Valid(s.table) && Owned(s)
    requires InRoom(s.table.rooms, ip1, p) && InRoom(s.table.rooms, ip2, q) && p.sender == q.sender
    ensures ip1 == ip2 && p == q
  {
    assert IsOwner(s.conns[p.sender], ip1, p) && IsOwner(s.conns[p.sender], ip2, q);
  }

  lemma SendersAreDistinct(s: State, ip: string, keep: PeerInfo -> bool)
    requires Valid(s.table) && Owned(s)
    ensures Distinct(Senders(Keep(keep, RoomAt(s.table.rooms, ip))))
  {
    var kept := Keep(keep, RoomAt(s.table.rooms, ip));
    if ip in s.table.rooms { KeepValidRoom(keep, s.table.rooms[ip]); }
    forall i, j | 0 <= i < j < |kept| ensures kept[i].sender != kept[j].sender {
      assert kept[i] in kept && kept[j] in kept;
      assert InRoom(s.table.rooms, ip, kept[i]) && InRoom(s.table.rooms, ip, kept[j]);
      if kept[i].sender == kept[j].sender { SameSenderSameEntry(s, ip, kept[i], ip, kept[j]); }
    }
  }

  /** Exactly the kept entries of that room receive the message. */
  lemma BroadcastReachesKept(s: State, ip: string, keep: PeerInfo -> bool, msg: ServerMessage, ip': string, q: PeerInfo)
    requires Valid(s.table) && Owned(s) && InRoom(s.table.rooms, ip', q)
    ensures var net := s.table.net;
            Broadcast(net, Senders(Keep(keep, RoomAt(s.table.rooms, ip))), msg).Of(q.sender) ==
            net.Of(q.sender) + (if ip' == ip && keep(q) && net.IsOpen(q.sender) then [msg] else [])
  {
    var kept := Keep(keep, RoomAt(s.table.rooms, ip));
    SendersAreDistinct(s, ip, keep);
    BroadcastAt(s.table.net, Senders(kept), msg, q.sender);
    if ip' == ip && keep(q) {
      var i :| 0 <= i < |kept| && kept[i] == q;
      assert Senders(kept)[i] == q.sender;
    }
    if q.sender in Senders(kept) {
      var i :| 0 <= i < |kept| && kept[i].sender == q.sender;
      assert kept[i] in kept;
      SameSenderSameEntry(s, ip, kept[i], ip', q);
    }
  }

  /** A connection that is in no room receives nothing. */
  lemma BroadcastMissesOutsiders(s: State, ip: string, keep: PeerInfo -> bool, msg: ServerMessage, c: ConnId)
    requires Valid(s.table) && Owned(s) && c in s.conns && !s.conns[c].phase.Member?
    ensures Broadcast(s.table.net, Senders(Keep(keep, RoomAt(s.table.rooms, ip))), msg).Of(c) == s.table.net.Of(c)
  {
    var kept := Keep(keep, RoomAt(s.table.rooms, ip));
    SendersAreDistinct(s, ip, keep);
    BroadcastAt(s.table.net, Senders(kept), msg, c);
    if c in Senders(kept) {
      var i :| 0 <= i < |kept| && kept[i].sender == c;
      assert kept[i] in kept;
      assert InRoom(s.table.rooms, ip, kept[i]);
    }
  }

  lemma RoomCodesAreNormal(s: State, ip: string)
    requires Owned(s) && NormalCodes(s)
    ensures forall x :: x in Codes(RoomAt(s.table.rooms, ip)) ==> IsNormal(x)
  {
    forall p | p in RoomAt(s.table.rooms, ip) ensures IsNormal(p.Code()) {
      assert InRoom(s.table.rooms, ip, p);
      assert IsMember(s, p.sender);
    }
  }

  /** News of one normal code that the room gained or lost keeps a history right. */
  lemma HistoryAfterNews(room: Room, room': Room, phase: Phase, h: seq<ServerMessage>, m: ServerMessage, code: string)
    requires HistoryOk(room, phase, h)
    requires (m.PeerJoined? || m.PeerLeft?) && Mentions(m, code) && IsNormal(code) && code != phase.code
    requires Codes(room') == Apply(Codes(room), m)
    ensures HistoryOk(room', phase, h + [m])
  {
    OneMore(h, m, CodesOf(phase.snapshot));
  }

  // ---- Joining a room ----

  ghost predicate CanJoin(s: State, c: ConnId, code: string, peer: PeerData) {
    && RoomsOk(s) && c in s.conns && s.conns[c].phase.Registering? && IsNormal(code)
    && AfterAdd(s.table, s.conns[c].ip, PeerInfo(peer.(peerCode := code), c, 0)).1.Ok?
  }

  lemma JoinKeepsOwners(s: State, c: ConnId, code: string, peer: PeerData)
    requires CanJoin(s, c, code, peer)
    ensures var s' := Join(s, c, code, peer); Valid(s'.table) && Owned(s') && SessionsOk(s') && NormalCodes(s')
  {
    var ip, info := s.conns[c].ip, PeerInfo(peer.(peerCode := code), c, 0);
    AddKeepsValid(s.table, ip, info);
    EntriesAfterAdd(s.table, ip, info);
    var s' := Join(s, c, code, peer);
    forall d ensures IsMember(s', d) <==> d == c || IsMember(s, d) {}
  }

  lemma QuietHistoryIsOk(room: Room, phase: Phase, h: seq<ServerMessage>)
    requires Quiet(h) && phase.Member? && phase.stage.Added?
    requires CodesOf(phase.snapshot) == Codes(room) - {phase.code}
    requires forall x :: x in CodesOf(phase.snapshot) ==> IsNormal(x)
    ensures HistoryOk(room, phase, h)
  {
    ReplayQuiet(h, CodesOf(phase.snapshot));
  }

  lemma JoinedHistory(s: State, c: ConnId, code: string, peer: PeerData)
    requires CanJoin(s, c, code, peer)
    ensures var s' := Join(s, c, code, peer);
            s.conns[c].ip in s'.table.rooms &&
            HistoryOk(s'.table.rooms[s.conns[c].ip], s'.conns[c].phase, s'.table.net.Of(c))
  {
    var ip, info := s.conns[c].ip, PeerInfo(peer.(peerCode := code), c, 0);
    RoomAfterAdd(s.table, ip, info);
    BroadcastMissesOutsiders(s, ip, OtherCode(code), PeerJoined(info.data), c);
    var (t', r) := AfterAdd(s.table, ip, info);
    RoomCodesAreNormal(s, ip);
    QuietHistoryIsOk(t'.rooms[ip], Member(Added, code, r.value.1, r.value.0), s.table.net.Of(c));
  }

  lemma JoinSeenByOthers(s: State, c: ConnId, code: string, peer: PeerData, ip': string, q: PeerInfo)
    requires CanJoin(s, c, code, peer)
    requires InRoom(s.table.rooms, ip', q) && s.table.net.IsOpen(q.sender)
    requires !(ip' == s.conns[c].ip && q.Code() == code)
    ensures var s' := Join(s, c, code, peer);
            ip' in s'.table.rooms && q.sender in s'.conns &&
            HistoryOk(s'.table.rooms[ip'], s'.conns[q.sender].phase, s'.table.net.Of(q.sender))
  {
    var ip, info := s.conns[c].ip, PeerInfo(peer.(peerCode := code), c, 0);
    RoomAfterAdd(s.table, ip, info);
    BroadcastReachesKept(s, ip, OtherCode(code), PeerJoined(info.data), ip', q);
    var h, phase := s.table.net.Of(q.sender), s.conns[q.sender].phase;
    assert HistoryOk(s.table.rooms[ip'], phase, h);
    if ip' == ip {
      var room' := AfterAdd(s.table, ip, info).0.rooms[ip];
      HistoryAfterNews(s.table.rooms[ip], room', phase, h, PeerJoined(info.data), code);
    } else {
      assert h + [] == h;
    }
  }

  lemma JoinKeepsRooms(s: State, c: ConnId, code: string, peer: PeerData)
    requires CanJoin(s, c, code, peer)
    ensures RoomsOk(Join(s, c, code, peer))
  {
    var ip, info, s' := s.conns[c].ip, PeerInfo(peer.(peerCode := code), c, 0), Join(s, c, code, peer);
    JoinKeepsOwners(s, c, code, peer);
    EntriesAfterAdd(s.table, ip, info);
    forall d | d in s'.conns && s'.conns[d].phase.Registering? ensures Quiet(s'.table.net.Of(d)) {
      BroadcastMissesOutsiders(s, ip, OtherCode(code), PeerJoined(info.data), d);
    }
    forall ip', q | InRoom(s'.table.rooms, ip', q) && s'.table.net.IsOpen(q.sender) && q.sender in s'.conns
      ensures HistoryOk(s'.table.rooms[ip'], s'.conns[q.sender].phase, s'.table.net.Of(q.sender))
    {
      if InRoom(s.table.rooms, ip', q) && !(ip' == ip && q.Code() == code) {
        JoinSeenByOthers(s, c, code, peer, ip', q);
      } else {
        JoinedHistory(s, c, code, peer);
      }
    }
  }

  // ---- Announcing and leaving ----

  lemma AnnouncedHistory(room: Room, phase: Phase, h: seq<ServerMessage>)
    requires HistoryOk(room, phase, h) && phase.stage.Added?
    ensures HistoryOk(room, phase.(stage := Looping), h + [Peers(phase.snapshot)])
  {
    OneMore(h, Peers(phase.snapshot), CodesOf(phase.snapshot));
  }

  lemma AnnounceKeepsOwners(s: State, c: ConnId)
    requires RoomsOk(s) && Enabled(s, Announce(c))
    ensures var s' := Next(s, Announce(c)); Valid(s'.table) && Owned(s') && SessionsOk(s') && NormalCodes(s')
    ensures UnregisteredAreQuiet(Next(s, Announce(c)))
  {
    var s' := Next(s, Announce(c));
    forall d ensures IsMember(s', d) <==> IsMember(s, d) {}
  }

  lemma AnnounceKeepsRooms(s: State, c: ConnId)
    requires RoomsOk(s) && Enabled(s, Announce(c))
    ensures RoomsOk(Next(s, Announce(c)))
  {
    var s' := Next(s, Announce(c));
    AnnounceKeepsOwners(s, c);
    forall ip, q | InRoom(s'.table.rooms, ip, q) && s'.table.net.IsOpen(q.sender) && q.sender in s'.conns
      ensures HistoryOk(s'.table.rooms[ip], s'.conns[q.sender].phase, s'.table.net.Of(q.sender))
    {
      assert InRoom(s.table.rooms, ip, q);
      var phase := s.conns[q.sender].phase;
      assert HistoryOk(s.table.rooms[ip], phase, s.table.net.Of(q.sender));
      if q.sender == c { AnnouncedHistory(s.table.rooms[ip], phase, s.table.net.Of(c)); }
    }
  }

  lemma CleanupKeepsOwners(s: State, c: ConnId)
    requires RoomsOk(s) && Enabled(s, Cleanup(c))
    ensures var s' := Next(s, Cleanup(c)); Valid(s'.table) && Owned(s') && SessionsOk(s') && NormalCodes(s')
  {
    var Conn(ip, _, Member(_, code, sessionId, _)) := s.conns[c];
    RemoveKeepsValid(s.table, ip, code, sessionId);
    EntriesAfterRemove(s.table, ip, code, sessionId);
    var s' := Next(s, Cleanup(c));
    forall d ensures IsMember(s', d) <==> d != c && IsMember(s, d) {}
  }

  lemma CodesAfterRemove(t: Table, ip: string, code: string, sessionId: nat)
    requires Valid(t) && AfterRemove(t, ip, code, sessionId) != t
    ensures Codes(RoomAt(AfterRemove(t, ip, code, sessionId).rooms, ip)) == Codes(RoomAt(t.rooms, ip)) - {code}
  {
    var room := RoomAt(t.rooms, ip);
    var kept := Keep(OtherEntry(code, sessionId), room);
    KeepAll(OtherEntry(code, sessionId), room);
    var gone :| gone in room && gone.Code() == code && gone.sessionId == sessionId;
    forall p | p in room && p.Code() == code ensures p == gone {
      var i, j :| 0 <= i < |room| && 0 <= j < |room| && room[i] == p && room[j] == gone;
      assert i == j;
    }
    forall x ensures x in Codes(kept) <==> x in Codes(room) - {code} {
      if x in Codes(room) - {code} {
        var p :| p in room && p.Code() == x;
        assert p in kept;
      }
    }
  }

  lemma LeaveSeenByOthers(s: State, c: ConnId, ip': string, q: PeerInfo)
    requires RoomsOk(s) && Enabled(s, Cleanup(c))
    requires InRoom(Next(s, Cleanup(c)).table.rooms, ip', q) && s.table.net.IsOpen(q.sender)
    ensures var s' := Next(s, Cleanup(c));
            q.sender in s'.conns && HistoryOk(s'.table.rooms[ip'], s'.conns[q.sender].phase, s'.table.net.Of(q.sender))
  {
    var Conn(ip, _, Member(_, code, sessionId, _)) := s.conns[c];
    var t' := AfterRemove(s.table, ip, code, sessionId);
    EntriesAfterRemove(s.table, ip, code, sessionId);
    assert InRoom(s.table.rooms, ip', q);
    assert IsOwner(s.conns[q.sender], ip', q);
    assert q.sender != c && IsMember(s, c);
    var h, phase := s.table.net.Of(q.sender), s.conns[q.sender].phase;
    assert HistoryOk(s.table.rooms[ip'], phase, h);
    if t' != s.table {
      BroadcastReachesKept(s, ip, OtherEntry(code, sessionId), PeerLeft(code), ip', q);
      if ip' == ip {
        CodesAfterRemove(s.table, ip, code, sessionId);
        RemovedCodeIsGone(s.table, ip, code, sessionId, q);
        HistoryAfterNews(s.table.rooms[ip], t'.rooms[ip], phase, h, PeerLeft(code), code);
      } else {
        assert h + [] == h;
      }
    }
  }

  lemma RemovedCodeIsGone(t: Table, ip: string, code: string, sessionId: nat, q: PeerInfo)
    requires Valid(t) && AfterRemove(t, ip, code, sessionId) != t
    requires InRoom(AfterRemove(t, ip, code, sessionId).rooms, ip, q)
    ensures q.Code() != code
  {
    CodesAfterRemove(t, ip, code, sessionId);
    assert q.Code() in Codes(AfterRemove(t, ip, code, sessionId).rooms[ip]);
  }

  lemma CleanupKeepsRooms(s: State, c: ConnId)
    requires RoomsOk(s) && Enabled(s, Cleanup(c))
    ensures RoomsOk(Next(s, Cleanup(c)))
  {
    var Conn(ip, _, Member(_, code, sessionId, _)) := s.conns[c];
    var s' := Next(s, Cleanup(c));
    CleanupKeepsOwners(s, c);
    forall d | d in s'.conns && s'.conns[d].phase.Registering? ensures Quiet(s'.table.net.Of(d)) {
      BroadcastMissesOutsiders(s, ip, OtherEntry(code, sessionId), PeerLeft(code), d);
    }
    forall ip', q | InRoom(s'.table.rooms, ip', q) && s'.table.net.IsOpen(q.sender) && q.sender in s'.conns
      ensures HistoryOk(s'.table.rooms[ip'], s'.conns[q.sender].phase, s'.table.net.Of(q.sender))
    {
      LeaveSeenByOthers(s, c, ip', q);
    }
  }

  // ---- Every step ----

  /** The text is a `register` message that makes `c` a member under `code`. */
  ghost predicate TextJoins(s: State, c: ConnId, now: nat, size: nat, content: Option<ClientMessage>, code: string)
    requires c in s.conns
  {
    && s.conns[c].phase.Registering?
    && Check(s.conns[c].limiter, now).1.Accept?
    && size <= MAX_MESSAGE_BYTES
    && Joins(s, c, content, code)
  }

  function WithLimiter(s: State, c: ConnId, limiter: Limiter): State
    requires c in s.conns
  {
    s.(conns := s.conns[c := s.conns[c].(limiter := limiter)])
  }

  lemma LimiterIsQuiet(s: State, c: ConnId, limiter: Limiter)
    requires c in s.conns
    ensures QuietStep(s, WithLimiter(s, c, limiter))
  {}

  lemma OnTextKeepsRooms(s: State, c: ConnId, now: nat, size: nat, content: Option<ClientMessage>)
    requires RoomsOk(s) && c in s.conns && InLoop(s.conns[c])
    ensures RoomsOk(OnText(s, c, now, size, content))
    ensures (forall code :: !TextJoins(s, c, now, size, content, code)) ==>
              OnText(s, c, now, size, content).table.rooms == s.table.rooms
    ensures (forall code :: !TextJoins(s, c, now, size, content, code)) ==>
              forall ch :: QuietExtension(s.table.net.Of(ch), OnText(s, c, now, size, content).table.net.Of(ch))
    ensures OnText(s, c, now, size, content).table.net.closed == s.table.net.closed
    ensures OnText(s, c, now, size, content).table.net.history.Keys == s.table.net.history.Keys
    ensures OnText(s, c, now, size, content).slots == s.slots
    ensures OnText(s, c, now, size, content).conns.Keys == s.conns.Keys
  {
    var (limiter, verdict) := Check(s.conns[c].limiter, now);
    var m := WithLimiter(s, c, limiter);
    var s' := OnText(s, c, now, size, content);
    LimiterIsQuiet(s, c, limiter);
    QuietStepKeepsRooms(s, m);
    if code :| TextJoins(s, c, now, size, content, code) {
      SpellingIsStripping(content.value.peer.peerCode, code);
      ValidatorsNameTheSpelledCode(content.value.peer.peerCode, code);
      assert s' == Join(m, c, code, content.value.peer);
      JoinKeepsRooms(m, c, code, content.value.peer);
    } else {
      assert QuietStep(m, s') by {
        match verdict
        case Close => LeaveIsQuiet(m, c);
        case Reject => SendIsQuiet(m, c, Error(RateLimited));
        case Accept =>
          SendIsQuiet(m, c, Error(MessageTooLarge(size)));
          if size <= MAX_MESSAGE_BYTES {
            if m.conns[c].phase.Member? {
              ServeIsQuiet(m, c, content);
            } else {
              forall code ensures !Joins(m, c, content, code) { assert !TextJoins(s, c, now, size, content, code); }
              RegisterIsQuietUnlessItJoins(m, c, content);
            }
          }
      }
      QuietStepKeepsRooms(m, s');
    }
  }

  lemma ReceiveKeepsRooms(s: State, c: ConnId, now: nat, frame: Frame)
    requires RoomsOk(s) && Enabled(s, Receive(c, now, frame))
    ensures RoomsOk(Next(s, Receive(c, now, frame)))
  {
    match frame
    case Text(size, content) => OnTextKeepsRooms(s, c, now, size, content);
    case Binary =>
      SendIsQuiet(s, c, Error(BinaryNotAccepted));
      QuietStepKeepsRooms(s, Reply(s, c, BinaryNotAccepted));
    case Control =>
    case Gone =>
      LeaveIsQuiet(s, c);
      QuietStepKeepsRooms(s, Leave(s, c));
  }

  lemma LeaveKeepsRooms(s: State, c: ConnId)
    requires RoomsOk(s) && Enabled(s, TimeOut(c))
    ensures RoomsOk(Next(s, TimeOut(c)))
  {
    LeaveIsQuiet(s, c);
    QuietStepKeepsRooms(s, Leave(s, c));
  }

  lemma ExchangeKeepsOwners(s: State, t: Slots.ThreadId, c: ConnId, ip: string, now: nat)
    requires RoomsOk(s) && Enabled(s, Exchange(t, c, ip, now))
    ensures var s' := Next(s, Exchange(t, c, ip, now));
            Valid(s'.table) && Owned(s') && SessionsOk(s') && NormalCodes(s')
  {
    var s' := Next(s, Exchange(t, c, ip, now));
    forall d ensures IsMember(s', d) <==> IsMember(s, d) {}
  }

  lemma ExchangeKeepsRooms(s: State, t: Slots.ThreadId, c: ConnId, ip: string, now: nat)
    requires RoomsOk(s) && Enabled(s, Exchange(t, c, ip, now))
    ensures RoomsOk(Next(s, Exchange(t, c, ip, now)))
  {
    ExchangeKeepsOwners(s, t, c, ip, now);
  }

  lemma ReleaseKeepsRooms(s: State, c: ConnId)
    requires RoomsOk(s) && Enabled(s, Release(c))
    ensures RoomsOk(Next(s, Release(c)))
  {
    var s' := Next(s, Release(c));
    forall d ensures IsMember(s', d) <==> IsMember(s, d) {}
  }

  lemma CloseKeepsRooms(s: State, c: ConnId)
    requires RoomsOk(s) && Enabled(s, CloseChannel(c))
    ensures RoomsOk(Next(s, CloseChannel(c)))
  {
    var s' := Next(s, CloseChannel(c));
    forall d ensures IsMember(s', d) <==> IsMember(s, d) {}
  }

  lemma StepKeepsRooms(s: State, e: Event)
    requires RoomsOk(s) && Enabled(s, e)
    ensures RoomsOk(Next(s, e))
  {
    match e
    case Load(_) =>
    case Exchange(t, c, ip, now) => ExchangeKeepsRooms(s, t, c, ip, now);
    case Receive(c, now, frame) => ReceiveKeepsRooms(s, c, now, frame);
    case Announce(c) => AnnounceKeepsRooms(s, c);
    case TimeOut(c) => LeaveKeepsRooms(s, c);
    case Cleanup(c) => CleanupKeepsRooms(s, c);
    case Release(c) => ReleaseKeepsRooms(s, c);
    case CloseChannel(c) => CloseKeepsRooms(s, c);
  }

  /** Only accepting and releasing touch the slots and the set of connections. */
  lemma OthersKeepSlots(s: State, e: Event)
    requires RoomsOk(s) && Enabled(s, e) && !(e.Load? || e.Exchange? || e.Release?)
    ensures Next(s, e).slots == s.slots && Next(s, e).conns.Keys == s.conns.Keys
  {
    if e.Receive? && e.frame.Text? { OnTextKeepsRooms(s, e.c, e.now, e.frame.size, e.frame.content); }
  }

  lemma SlotEventsKeepSlots(s: State, e: Event)
    requires SlotsOk(s) && Enabled(s, e) && (e.Load? || e.Exchange? || e.Release?)
    ensures Next(s, e).slots == Slots.Next(s.slots, SlotStep(e))
    ensures Next(s, e).slots.guards == Next(s, e).conns.Keys
  {}

  lemma StepKeepsSlots(s: State, e: Event)
    requires RoomsOk(s) && SlotsOk(s) && Enabled(s, e)
    ensures SlotsOk(Next(s, e)) && Next(s, e).slots.max == s.slots.max
  {
    if e.Load? || e.Exchange? || e.Release? {
      SlotEventsKeepSlots(s, e);
      Slots.StepKeepsInv(s.slots, SlotStep(e));
    } else {
      OthersKeepSlots(s, e);
    }
  }

  /** A step changes at most the connection it is about. */
  lemma StepKeepsOtherConns(s: State, e: Event, d: ConnId)
    requires Enabled(s, e) && d in s.conns && (e.Load? || e.c != d)
    ensures d in Next(s, e).conns && Next(s, e).conns[d] == s.conns[d]
  {}

  lemma StepKeepsLimiters(s: State, e: Event)
    requires LimitersOk(s) && Enabled(s, e)
    ensures LimitersOk(Next(s, e))
  {
    var s' := Next(s, e);
    forall d | d in s'.conns ensures LimiterOk(s'.conns[d]) {
      if d in s.conns && (e.Load? || e.c != d) { StepKeepsOtherConns(s, e, d); }
      else if e.Receive? && e.frame.Text? { OnTextKeepsLimiter(s, d, e.now, e.frame.size, e.frame.content); }
    }
  }

  /** The handler stops at the first `Close` verdict, so the counter never passes the threshold. */
  lemma OnTextKeepsLimiter(s: State, c: ConnId, now: nat, size: nat, content: Option<ClientMessage>)
    requires c in s.conns && InLoop(s.conns[c]) && LimiterOk(s.conns[c])
    ensures var s' := OnText(s, c, now, size, content);
            c in s'.conns && s'.conns[c].limiter == Check(s.conns[c].limiter, now).0 && LimiterOk(s'.conns[c])
  {}

  lemma StepKeepsInv(s: State, e: Event)
    requires Inv(s) && Enabled(s, e)
    ensures Inv(Next(s, e)) && Next(s, e).slots.max == s.slots.max
  {
    StepKeepsRooms(s, e);
    StepKeepsSlots(s, e);
    StepKeepsLimiters(s, e);
  }

  /** The invariant holds in every state of every run. */
  lemma {:induction false} EveryRunKeepsInv(max: nat, events: seq<Event>)
    requires Exec(Start(max), events).Some?
    ensures Inv(Exec(Start(max), events).value)
    ensures Exec(Start(max), events).value.slots.max == max
  {
    if events != [] {
      EveryRunKeepsInv(max, events[..|events| - 1]);
      StepKeepsInv(Exec(Start(max), events[..|events| - 1]).value, events[|events| - 1]);
    }
  }
}
