/** The room manager: peers grouped by address, with session-guarded removal.

    The functions on `Table` say what each operation does to the rooms, the session counter
    and the channels; class `RoomManager` does the same steps in place. Each operation is
    one atomic step. */
module Rooms {
  import opened Wire
  import opened Filters
  import opened Channels

  const MAX_PEERS_PER_ROOM: nat := 256
  const MAX_ROOMS: nat := 65_536

  /** A room entry: the peer's data, its channel and the session that registered it. */
  datatype PeerInfo = PeerInfo(data: PeerData, sender: ChannelId, sessionId: nat) {
    function Code(): string { data.peerCode }
  }

  type Room = seq<PeerInfo>
  type RoomMap = map<string, Room>

  datatype Table = Table(rooms: RoomMap, nextSessionId: nat, net: Network)

  datatype ManualPeerLookup = Found(sender: ChannelId) | NotFound | Ambiguous

  type AddResult = Result<(seq<PeerData>, nat), ErrorText>

  // ---- Specification of the operations ----

  function RoomAt(rooms: RoomMap, ip: string): Room { if ip in rooms then rooms[ip] else [] }

  function Senders(room: Room): (r: seq<ChannelId>)
    ensures |r| == |room| && forall i :: 0 <= i < |r| ==> r[i] == room[i].sender
  {
    seq(|room|, i requires 0 <= i < |room| => room[i].sender)
  }

  function DataOf(room: Room): (r: seq<PeerData>)
    ensures |r| == |room| && forall i :: 0 <= i < |r| ==> r[i] == room[i].data
  {
    seq(|room|, i requires 0 <= i < |room| => room[i].data)
  }

  function OtherCode(code: string): PeerInfo -> bool { (p: PeerInfo) => p.Code() != code }

  function OtherEntry(code: string, sessionId: nat): PeerInfo -> bool {
    (p: PeerInfo) => !(p.Code() == code && p.sessionId == sessionId)
  }

  function AfterAdd(t: Table, ip: string, peer: PeerInfo): (Table, AddResult) {
    var sessionId := t.nextSessionId;
    var counted := t.(nextSessionId := sessionId + 1);
    var others := Keep(OtherCode(peer.Code()), RoomAt(t.rooms, ip));
    if ip !in t.rooms && |t.rooms| >= MAX_ROOMS then (counted, Err(RoomLimitReached))
    else if |others| >= MAX_PEERS_PER_ROOM then (counted, Err(RoomFull))
    else
      (counted.(rooms := t.rooms[ip := others + [peer.(sessionId := sessionId)]],
                net := Broadcast(t.net, Senders(others), PeerJoined(peer.data))),
       Ok((DataOf(others), sessionId)))
  }

  function AfterRemove(t: Table, ip: string, code: string, sessionId: nat): Table {
    var room := RoomAt(t.rooms, ip);
    var kept := Keep(OtherEntry(code, sessionId), room);
    if |kept| == |room| then t
    else t.(rooms := if kept == [] then t.rooms - {ip} else t.rooms[ip := kept],
            net := Broadcast(t.net, Senders(kept), PeerLeft(code)))
  }

  // ---- Room invariants ----

  ghost predicate UniqueCodes(room: Room) {
    forall i, j :: 0 <= i < j < |room| ==> room[i].Code() != room[j].Code()
  }

  ghost predicate ValidRoom(room: Room) {
    0 < |room| <= MAX_PEERS_PER_ROOM && UniqueCodes(room)
  }

  ghost predicate ValidRooms(rooms: RoomMap) {
    && |rooms| <= MAX_ROOMS
    && forall ip :: ip in rooms ==> ValidRoom(rooms[ip])
  }

  ghost predicate InRoom(rooms: RoomMap, ip: string, p: PeerInfo) {
    ip in rooms && p in rooms[ip]
  }

  /** Session ids identify entries across all rooms and were all handed out already. */
  ghost predicate UniqueSessions(rooms: RoomMap, next: nat) {
    && (forall ip, p :: InRoom(rooms, ip, p) ==> p.sessionId < next)
    && (forall ip1, ip2, p, q :: InRoom(rooms, ip1, p) && InRoom(rooms, ip2, q) ==>
          p.sessionId == q.sessionId ==> ip1 == ip2 && p == q)
  }

  ghost predicate Valid(t: Table) {
    ValidRooms(t.rooms) && UniqueSessions(t.rooms, t.nextSessionId)
  }

  function Codes(room: Room): set<string> { set p | p in room :: p.Code() }

  /** Registration replaces the entry with the same code in the same room, if there is one,
      and changes no other entry of any room. */
  lemma EntriesAfterAdd(t: Table, ip: string, peer: PeerInfo)
    requires AfterAdd(t, ip, peer).1.Ok?
    ensures forall ip', q :: InRoom(AfterAdd(t, ip, peer).0.rooms, ip', q) <==>
              || (InRoom(t.rooms, ip', q) && !(ip' == ip && q.Code() == peer.Code()))
              || (ip' == ip && q == peer.(sessionId := t.nextSessionId))
  {
    var rooms' := AfterAdd(t, ip, peer).0.rooms;
    var others, added := Keep(OtherCode(peer.Code()), RoomAt(t.rooms, ip)), peer.(sessionId := t.nextSessionId);
    forall q ensures q in rooms'[ip] <==> q in others || q == added {
      assert rooms'[ip] == others + [added];
    }
  }

  /** Removal takes out the entry with that code and that session, and no other. */
  lemma EntriesAfterRemove(t: Table, ip: string, code: string, sessionId: nat)
    ensures forall ip', q :: InRoom(AfterRemove(t, ip, code, sessionId).rooms, ip', q) <==>
              InRoom(t.rooms, ip', q) && !(ip' == ip && q.Code() == code && q.sessionId == sessionId)
  {
    KeepAll(OtherEntry(code, sessionId), RoomAt(t.rooms, ip));
  }

  lemma KeepValidRoom(p: PeerInfo -> bool, room: Room)
    requires UniqueCodes(room)
    ensures UniqueCodes(Keep(p, room))
  {
    KeepPairwise(p, room, (a: PeerInfo, b: PeerInfo) => a.Code() != b.Code());
  }

  lemma AddKeepsRooms(t: Table, ip: string, peer: PeerInfo)
    requires Valid(t)
    ensures ValidRooms(AfterAdd(t, ip, peer).0.rooms)
  {
    var rooms := AfterAdd(t, ip, peer).0.rooms;
    if ip in t.rooms {
      assert rooms.Keys == t.rooms.Keys;
    } else if rooms != t.rooms {
      assert rooms.Keys == t.rooms.Keys + {ip};
    }
    assert |rooms.Keys| == |rooms| && |t.rooms.Keys| == |t.rooms|;
    var others := Keep(OtherCode(peer.Code()), RoomAt(t.rooms, ip));
    KeepValidRoom(OtherCode(peer.Code()), RoomAt(t.rooms, ip));
    forall i | 0 <= i < |others| ensures others[i].Code() != peer.Code() {
      assert others[i] in others;
    }
  }

  lemma AddKeepsValid(t: Table, ip: string, peer: PeerInfo)
    requires Valid(t)
    ensures Valid(AfterAdd(t, ip, peer).0)
  {
    AddKeepsRooms(t, ip, peer);
    if AfterAdd(t, ip, peer).1.Ok? {
      EntriesAfterAdd(t, ip, peer);
    }
  }

  lemma RemoveKeepsRooms(t: Table, ip: string, code: string, sessionId: nat)
    requires Valid(t)
    ensures ValidRooms(AfterRemove(t, ip, code, sessionId).rooms)
  {
    var rooms := AfterRemove(t, ip, code, sessionId).rooms;
    assert |rooms.Keys| == |rooms| && |t.rooms.Keys| == |t.rooms|;
    assert rooms.Keys <= t.rooms.Keys by {
      KeepAll(OtherEntry(code, sessionId), RoomAt(t.rooms, ip));
    }
    SubsetSize(rooms.Keys, t.rooms.Keys);
    KeepValidRoom(OtherEntry(code, sessionId), RoomAt(t.rooms, ip));
  }

  lemma RemoveKeepsValid(t: Table, ip: string, code: string, sessionId: nat)
    requires Valid(t)
    ensures Valid(AfterRemove(t, ip, code, sessionId))
  {
    RemoveKeepsRooms(t, ip, code, sessionId);
    EntriesAfterRemove(t, ip, code, sessionId);
  }

  lemma {:induction false} SubsetSize<T>(a: set<T>, b: set<T>)
    requires a <= b
    ensures |a| <= |b|
    decreases |a|
  {
    if a != {} {
      var x :| x in a;
      SubsetSize(a - {x}, b - {x});
    }
  }

  /** When registration is refused: a new room beyond the room limit, or a full room that
      does not already hold the code. A refusal changes no room and sends nothing; in
      particular a reconnect is never refused. */
  lemma RefusalIsExactAndHarmless(t: Table, ip: string, peer: PeerInfo)
    requires Valid(t)
    ensures var (t', r) := AfterAdd(t, ip, peer);
            && (r.Err? <==> || (ip !in t.rooms && |t.rooms| == 65_536)
                            || (ip in t.rooms && |t.rooms[ip]| == 256
                                && peer.Code() !in Codes(t.rooms[ip])))
            && (r == Err(RoomLimitReached) <==> ip !in t.rooms && |t.rooms| == 65_536)
            && (r.Err? ==> t'.rooms == t.rooms && t'.net == t.net && (r.error.RoomLimitReached? || r.error.RoomFull?))
            && (r.Ok? ==> r.value.1 == t.nextSessionId)
  {
    var room := RoomAt(t.rooms, ip);
    KeepAll(OtherCode(peer.Code()), room);
    if p :| p in room && p.Code() == peer.Code() {
      assert peer.Code() in Codes(room);
    }
  }

  /** What a successful registration leaves in the room. */
  lemma RoomAfterAdd(t: Table, ip: string, peer: PeerInfo)
    requires AfterAdd(t, ip, peer).1.Ok?
    ensures var (t', r) := AfterAdd(t, ip, peer);
            && ip in t'.rooms
            && (forall q :: q in t'.rooms[ip] <==>
                  (q in RoomAt(t.rooms, ip) && q.Code() != peer.Code()) || q == peer.(sessionId := t.nextSessionId))
            && Codes(t'.rooms[ip]) == Codes(RoomAt(t.rooms, ip)) + {peer.Code()}
            && (set d | d in r.value.0 :: d.peerCode) == Codes(RoomAt(t.rooms, ip)) - {peer.Code()}
            && (forall d :: d in r.value.0 <==>
                  exists q :: q in RoomAt(t.rooms, ip) && q.Code() != peer.Code() && q.data == d)
  {
    var (t', r) := AfterAdd(t, ip, peer);
    var room := RoomAt(t.rooms, ip);
    var others := Keep(OtherCode(peer.Code()), room);
    var added := peer.(sessionId := t.nextSessionId);
    assert added in t'.rooms[ip] && added.Code() == peer.Code();
    forall c ensures c in Codes(t'.rooms[ip]) <==> c in Codes(room) + {peer.Code()} {
      if c in Codes(room) && c != peer.Code() {
        var q :| q in room && q.Code() == c;
        assert q in others;
        assert q in t'.rooms[ip];
      }
    }
    DataCodes(others);
    forall q | q in others ensures q.data in DataOf(others) {
      var i :| 0 <= i < |others| && others[i] == q;
      assert DataOf(others)[i] == q.data;
    }
    forall d | d in DataOf(others) ensures exists q :: q in others && q.data == d {
      var i :| 0 <= i < |others| && DataOf(others)[i] == d;
      assert others[i] in others && others[i].data == d;
    }
  }

  lemma DataCodes(room: Room)
    ensures (set d | d in DataOf(room) :: d.peerCode) == Codes(room)
  {
    var data := DataOf(room);
    forall d | d in data ensures d.peerCode in Codes(room) {
      var i :| 0 <= i < |room| && data[i] == d;
      assert room[i] in room;
    }
    forall p | p in room ensures exists d :: d in data && d.peerCode == p.Code() {
      var i :| 0 <= i < |room| && room[i] == p;
      assert data[i] in data;
    }
  }

  /** Registration within the room limit, told from the room without the stale entry. That
      entry is taken out before the room's size is compared, so a room still full after that
      never held the code, and is unchanged. */
  lemma RefusingOrAdding(t: Table, ip: string, peer: PeerInfo)
    requires ip in t.rooms || |t.rooms| < MAX_ROOMS
    requires |RoomAt(t.rooms, ip)| <= MAX_PEERS_PER_ROOM
    ensures var others := Keep(OtherCode(peer.Code()), RoomAt(t.rooms, ip));
            AfterAdd(t, ip, peer) ==
            if |others| >= MAX_PEERS_PER_ROOM then
              (Table(t.rooms[ip := others], t.nextSessionId + 1, t.net), Err(RoomFull))
            else
              (Table(t.rooms[ip := others][ip := others + [peer.(sessionId := t.nextSessionId)]], t.nextSessionId + 1,
                     Broadcast(t.net, Senders(others), PeerJoined(peer.data))),
               Ok((DataOf(others), t.nextSessionId)))
  {
    var others := Keep(OtherCode(peer.Code()), RoomAt(t.rooms, ip));
    var room := others + [peer.(sessionId := t.nextSessionId)];
    if |others| >= MAX_PEERS_PER_ROOM {
      KeepAll(OtherCode(peer.Code()), RoomAt(t.rooms, ip));
      assert t.rooms[ip := others] == t.rooms;
    } else {
      assert t.rooms[ip := others][ip := room] == t.rooms[ip := room];
    }
  }

  // ---- The manager ----

  ghost predicate HasCode(rooms: RoomMap, ip: string, p: PeerInfo, code: string) {
    InRoom(rooms, ip, p) && p.Code() == code
  }

  /** The answer to a manual lookup: it depends on which entries hold the code. */
  ghost predicate LookupAnswer(rooms: RoomMap, code: string, r: ManualPeerLookup) {
    match r
    case Found(ch) =>
      exists ip, p :: HasCode(rooms, ip, p, code) && p.sender == ch
                      && forall ip', q :: HasCode(rooms, ip', q, code) ==> ip' == ip && q == p
    case NotFound => forall ip, p :: !HasCode(rooms, ip, p, code)
    case Ambiguous =>
      exists ip1, ip2, p, q :: HasCode(rooms, ip1, p, code) && HasCode(rooms, ip2, q, code) && ip1 != ip2
  }

  /** Exactly one answer is right for given rooms. */
  lemma LookupAnswerIsUnique(rooms: RoomMap, code: string, r1: ManualPeerLookup, r2: ManualPeerLookup)
    requires LookupAnswer(rooms, code, r1) && LookupAnswer(rooms, code, r2)
    ensures r1 == r2
  {}

  class RoomManager {
    var rooms: RoomMap
    var nextSessionId: nat
    var net: Network

    function Value(): Table
      reads this
    {
      Table(rooms, nextSessionId, net)
    }

    constructor (net: Network)
      ensures Value() == Table(map[], 1, net) && Valid(Value())
    {
      rooms, nextSessionId, this.net := map[], 1, net;
    }

    /** The index of the entry with this code, or the length of the room. */
    method Position(ip: string, code: string) returns (i: nat)
      requires ip in rooms
      ensures i <= |rooms[ip]|
      ensures forall j :: 0 <= j < i ==> rooms[ip][j].Code() != code
      ensures i < |rooms[ip]| ==> rooms[ip][i].Code() == code
    {
      i := 0;
      while i < |rooms[ip]|
        invariant i <= |rooms[ip]|
        invariant forall j :: 0 <= j < i ==> rooms[ip][j].Code() != code
      {
        if rooms[ip][i].Code() == code { return; }
        i := i + 1;
      }
    }

    method SendAll(room: Room, msg: ServerMessage)
      modifies this`net
      ensures net == Broadcast(old(net), Senders(room), msg)
    {
      var targets := Senders(room);
      for i := 0 to |room|
        invariant net == Broadcast(old(net), targets[..i], msg)
      {
        assert targets[..i + 1][..i] == targets[..i];
        net := net.Send(room[i].sender, msg);
      }
      assert targets[..|room|] == targets;
    }

    /** Opens the room, creating it if needed, and takes out a stale entry with this code. */
    method OpenRoomWithout(ip: string, code: string)
      requires ip in rooms ==> UniqueCodes(rooms[ip])
      modifies this`rooms
      ensures rooms == old(rooms)[ip := Keep(OtherCode(code), RoomAt(old(rooms), ip))]
    {
      if ip !in rooms { rooms := rooms[ip := []]; }
      var room := rooms[ip];
      var pos := Position(ip, code);
      if pos < |room| {
        RemovingAtDropsTheCode(room, pos);
        rooms := rooms[ip := room[..pos] + room[pos + 1..]];
      } else {
        KeepAll(OtherCode(code), room);
      }
    }

    method Snapshot(room: Room) returns (existing: seq<PeerData>)
      ensures existing == DataOf(room)
    {
      existing := [];
      for i := 0 to |room|
        invariant existing == DataOf(room)[..i]
      {
        existing := existing + [room[i].data];
      }
    }

    /** The successful end of a registration: the room as it was is told and returned, and
        the peer comes last in it. */
    method Enter(ip: string, peer: PeerInfo, sessionId: nat) returns (existing: seq<PeerData>)
      requires ip in rooms
      modifies this`rooms, this`net
      ensures existing == DataOf(old(rooms)[ip])
      ensures net == Broadcast(old(net), Senders(old(rooms)[ip]), PeerJoined(peer.data))
      ensures rooms == old(rooms)[ip := old(rooms)[ip] + [peer.(sessionId := sessionId)]]
    {
      var room := rooms[ip];
      existing := Snapshot(room);
      SendAll(room, PeerJoined(peer.data));
      rooms := rooms[ip := room + [peer.(sessionId := sessionId)]];
    }

    /** Registration, step by step; it relies on nothing but the size and the codes of the room. */
    method Register(ip: string, peer: PeerInfo) returns (r: AddResult)
      requires ip in rooms ==> |rooms[ip]| <= MAX_PEERS_PER_ROOM && UniqueCodes(rooms[ip])
      modifies this
      ensures (Value(), r) == AfterAdd(old(Value()), ip, peer)
    {
      var sessionId := nextSessionId;
      nextSessionId := nextSessionId + 1;
      if ip !in rooms && |rooms| >= MAX_ROOMS {
        return Err(RoomLimitReached);
      }
      RefusingOrAdding(old(Value()), ip, peer);
      OpenRoomWithout(ip, peer.Code());
      if |rooms[ip]| >= MAX_PEERS_PER_ROOM {
        return Err(RoomFull);
      }
      var existing := Enter(ip, peer, sessionId);
      return Ok((existing, sessionId));
    }

    method AddPeer(ip: string, peer: PeerInfo) returns (r: AddResult)
      requires Valid(Value())
      modifies this
      ensures Valid(Value())
      ensures (Value(), r) == AfterAdd(old(Value()), ip, peer)
    {
      AddKeepsValid(Value(), ip, peer);
      r := Register(ip, peer);
    }

    /** Tells the rest of the room about a departure, and drops the room if it is empty. */
    method AnnounceDeparture(ip: string, code: string)
      requires ip in rooms
      modifies this`rooms, this`net
      ensures net == Broadcast(old(net), Senders(old(rooms)[ip]), PeerLeft(code))
      ensures rooms == if old(rooms)[ip] == [] then old(rooms) - {ip} else old(rooms)
    {
      SendAll(rooms[ip], PeerLeft(code));
      if rooms[ip] == [] { rooms := rooms - {ip}; }
    }

    /** Removal, step by step. */
    method Unregister(ip: string, code: string, sessionId: nat)
      modifies this`rooms, this`net
      ensures Value() == AfterRemove(old(Value()), ip, code, sessionId)
    {
      if ip in rooms {
        var lenBefore := |rooms[ip]|;
        rooms := rooms[ip := Keep(OtherEntry(code, sessionId), rooms[ip])];
        if |rooms[ip]| == lenBefore {
          KeepAll(OtherEntry(code, sessionId), old(rooms)[ip]);
          assert rooms == old(rooms);
          return;
        }
        AnnounceDeparture(ip, code);
        assert rooms == AfterRemove(old(Value()), ip, code, sessionId).rooms;
      }
    }

    method RemovePeer(ip: string, code: string, sessionId: nat)
      requires Valid(Value())
      modifies this
      ensures Valid(Value())
      ensures Value() == AfterRemove(old(Value()), ip, code, sessionId)
    {
      RemoveKeepsValid(Value(), ip, code, sessionId);
      Unregister(ip, code, sessionId);
    }

    method FindPeer(ip: string, code: string) returns (r: Option<ChannelId>)
      requires Valid(Value())
      ensures forall p :: HasCode(rooms, ip, p, code) ==> r == Some(p.sender)
      ensures r.Some? ==> exists p :: HasCode(rooms, ip, p, code)
    {
      if ip in rooms {
        var room := rooms[ip];
        for i := 0 to |room|
          invariant forall j :: 0 <= j < i ==> room[j].Code() != code
        {
          if room[i].Code() == code {
            assert HasCode(rooms, ip, room[i], code);
            return Some(room[i].sender);
          }
        }
      }
      return None;
    }

    /** Rooms are visited in any order. */
    method FindPeerManual(code: string) returns (r: ManualPeerLookup)
      requires Valid(Value())
      ensures LookupAnswer(rooms, code, r)
    {
      var found: Option<ChannelId> := None;
      var todo := rooms.Keys;
      ghost var where, entry := "", PeerInfo(PeerData(code, "", Phone, None, None), 0, 0);
      while todo != {}
        invariant todo <= rooms.Keys
        invariant found == None ==> forall ip, p :: HasCode(rooms, ip, p, code) ==> ip in todo
        invariant found.Some? ==> HasCode(rooms, where, entry, code) && where !in todo && found.value == entry.sender
        invariant found.Some? ==> forall ip, p :: HasCode(rooms, ip, p, code) ==>
                    ip in todo || (ip == where && p == entry)
        decreases todo
      {
        var ip :| ip in todo;
        todo := todo - {ip};
        var room := rooms[ip];
        ghost var before := found;
        for i := 0 to |room|
          invariant forall j :: 0 <= j < i && room[j].Code() == code ==> found.Some? && before.None?
          invariant found == before || (before.None? && found.Some? && where == ip && entry in room[..i])
          invariant found == None ==> forall ip', p :: HasCode(rooms, ip', p, code) ==> ip' in todo || ip' == ip
          invariant found.Some? ==> HasCode(rooms, where, entry, code) && where !in todo && found.value == entry.sender
          invariant before.Some? ==> where != ip
          invariant found.Some? ==> forall ip', p :: HasCode(rooms, ip', p, code) ==>
                      ip' in todo || (ip' == where && p == entry) || (ip' == ip && p in room[i..])
        {
          if room[i].Code() == code {
            assert HasCode(rooms, ip, room[i], code);
            if found.Some? {
              return Ambiguous;
            }
            found := Some(room[i].sender);
            where, entry := ip, room[i];
          }
        }
      }
      r := match found case Some(ch) => Found(ch) case None => NotFound;
    }

    /** The number of entries in all rooms, counted room by room in any order. */
    method PeerCount() returns (n: nat)
      requires Valid(Value())
      ensures n == |SessionIds(rooms)|
    {
      n := 0;
      var todo := rooms.Keys;
      assert SessionIdsIn(rooms, {}) == {};
      while todo != {}
        invariant todo <= rooms.Keys
        invariant n == |SessionIdsIn(rooms, rooms.Keys - todo)|
        decreases todo
      {
        var ip :| ip in todo;
        CountOneMoreRoom(rooms, nextSessionId, rooms.Keys - todo, ip);
        assert rooms.Keys - (todo - {ip}) == (rooms.Keys - todo) + {ip};
        todo := todo - {ip};
        n := n + |rooms[ip]|;
      }
      assert rooms.Keys - todo == rooms.Keys;
    }
  }

  lemma RemovingAtDropsTheCode(room: Room, pos: nat)
    requires UniqueCodes(room) && pos < |room|
    ensures Keep(OtherCode(room[pos].Code()), room) == room[..pos] + room[pos + 1..]
  {
    forall j | 0 <= j < |room| && j != pos ensures room[j].Code() != room[pos].Code() {
      if j < pos { assert room[j].Code() != room[pos].Code(); }
    }
    KeepAllButOne(OtherCode(room[pos].Code()), room, pos);
  }

  function SessionIdsIn(rooms: RoomMap, ips: set<string>): set<nat>
    requires ips <= rooms.Keys
  {
    set ip, p | ip in ips && p in rooms[ip] :: p.sessionId
  }

  /** One id for each entry of each room. */
  function SessionIds(rooms: RoomMap): set<nat> { SessionIdsIn(rooms, rooms.Keys) }

  function RoomSessionIds(room: Room): set<nat> { set p | p in room :: p.sessionId }

  lemma CountOneMoreRoom(rooms: RoomMap, next: nat, ips: set<string>, ip: string)
    requires ValidRooms(rooms) && UniqueSessions(rooms, next)
    requires ips <= rooms.Keys && ip in rooms && ip !in ips
    ensures |SessionIdsIn(rooms, ips + {ip})| == |SessionIdsIn(rooms, ips)| + |rooms[ip]|
  {
    var room := rooms[ip];
    forall i, j | 0 <= i < j < |room| ensures room[i].sessionId != room[j].sessionId {
      assert InRoom(rooms, ip, room[i]) && InRoom(rooms, ip, room[j]);
    }
    RoomSessionCount(room);
    forall ip', p, q | ip' in ips && p in rooms[ip'] && q in room ensures p.sessionId != q.sessionId {
      assert InRoom(rooms, ip', p) && InRoom(rooms, ip, q);
    }
    assert SessionIdsIn(rooms, ips + {ip}) == SessionIdsIn(rooms, ips) + RoomSessionIds(room);
    assert SessionIdsIn(rooms, ips) !! RoomSessionIds(room);
  }

  lemma {:induction false} RoomSessionCount(room: Room)
    requires forall i, j :: 0 <= i < j < |room| ==> room[i].sessionId != room[j].sessionId
    ensures |RoomSessionIds(room)| == |room|
  {
    if room != [] {
      var init, last := room[..|room| - 1], room[|room| - 1];
      RoomSessionCount(init);
      assert RoomSessionIds(room) == RoomSessionIds(init) + {last.sessionId};
      assert last.sessionId !in RoomSessionIds(init);
    }
  }
}
