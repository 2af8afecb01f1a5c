/** A run in which a client lists a peer that is not in its room. */
module StaleRun {
  import opened Wire
  import opened Utf8Text
  import opened PeerCodes
  import opened RateLimit
  import opened Filters
  import opened Channels
  import opened Rooms
  import opened Histories
  import opened Replica
  import opened Server
  import opened ServerInvariant
  import opened ServerTheorems
  import Slots

  function Enter(peer: PeerData): Frame { Text(0, Some(Register(peer))) }

  /** Two peers whose registrations are accepted as they are. */
  predicate Cast(a: PeerData, b: PeerData) {
    && IsNormal(a.peerCode) && IsNormal(b.peerCode) && a.peerCode != b.peerCode
    && Utf8Len(a.deviceName) <= MAX_DEVICE_NAME_BYTES && Utf8Len(b.deviceName) <= MAX_DEVICE_NAME_BYTES
  }

  /** `b` registers and is announced. `a` registers and takes its snapshot. `b` leaves before
      the `Peers` message of `a` is sent. */
  function Events(a: PeerData, b: PeerData): seq<Event> {
    [Load(0), Exchange(0, 1, "local", 0), Load(0), Exchange(0, 2, "local", 0),
     Receive(1, 0, Enter(b)), Announce(1),
     Receive(2, 0, Enter(a)), TimeOut(1), Cleanup(1), Announce(2)]
  }

  /** States that follow one another are a run. */
  lemma {:induction false} StatesAreARun(events: seq<Event>, at: nat -> State)
    requires forall i :: 0 <= i < |events| ==> Enabled(at(i), events[i]) && Next(at(i), events[i]) == at(i + 1)
    ensures Exec(at(0), events) == Some(at(|events|))
  {
    if events != [] {
      StatesAreARun(events[..|events| - 1], at);
    }
  }

  function Slot(active: nat, guards: set<nat>): Slots.Slots {
    Slots.Slots(2, active, active, map[0 := Slots.Idle], map[], guards)
  }

  function Accepted(conns: set<ConnId>): State
    requires conns <= {1, 2}
  {
    State(Slot(|conns|, conns), Table(map[], 1, Network(map c | c in conns :: [], {})),
          map c | c in conns :: Conn("local", Fresh(0), Registering))
  }

  /** Both connections accepted. */
  function TwoAccepted(): State {
    State(Slot(2, {1, 2}), Table(map[], 1, Network(map[1 := [], 2 := []], {})),
          map[1 := Conn("local", Fresh(0), Registering), 2 := Conn("local", Fresh(0), Registering)])
  }

  lemma BothAccepted()
    ensures Accepted({1} + {2}) == TwoAccepted()
  {
    assert {1} + {2} == {1, 2};
    assert Accepted({1, 2}).conns == TwoAccepted().conns;
    assert Accepted({1, 2}).table.net.history == TwoAccepted().table.net.history;
    assert |{1, 2}| == 2;
  }

  function Loaded(s: Slots.Slots): Slots.Slots {
    s.(threads := map[0 := Slots.Loaded(s.active, s.changes)])
  }

  function Loading(s: State): State { s.(slots := Loaded(s.slots)) }

  lemma TakeSlot(guards: set<nat>, c: nat)
    requires c !in guards && |guards| < 2
    ensures var s := Slot(|guards|, guards);
            && Slots.Enabled(s, Slots.Load(0)) && Slots.Next(s, Slots.Load(0)) == Loaded(s)
            && Slots.Enabled(Loaded(s), Slots.Exchange(0, c)) && Slots.ExchangeSucceeds(Loaded(s), 0)
            && Slots.Next(Loaded(s), Slots.Exchange(0, c)) == Slot(|guards + {c}|, guards + {c})
  {
    assert |guards + {c}| == |guards| + 1;
  }

  /** The accept loop loads the counter and takes the slot it saw free. */
  lemma AcceptOne(conns: set<ConnId>, c: ConnId)
    requires conns <= {1, 2} && c in {1, 2} && c !in conns && |conns| < 2
    ensures var s := Accepted(conns);
            && Enabled(s, Load(0)) && Next(s, Load(0)) == Loading(s)
            && Enabled(Loading(s), Exchange(0, c, "local", 0))
            && Next(Loading(s), Exchange(0, c, "local", 0)) == Accepted(conns + {c})
  {
    TakeSlot(conns, c);
    var s, next := Accepted(conns), Accepted(conns + {c});
    assert s.conns[c := Conn("local", Fresh(0), Registering)] == next.conns;
    assert s.table.net.history[c := []] == next.table.net.history;
  }

  /** The first acceptance starts from a slot counter no thread has touched. */
  lemma FirstSlot()
    ensures var s := Start(2);
            && Enabled(s, Load(0)) && Next(s, Load(0)) == Loading(s)
            && Enabled(Loading(s), Exchange(0, 1, "local", 0))
            && Next(Loading(s), Exchange(0, 1, "local", 0)) == Accepted({1})
  {
    var s2 := Next(Loading(Start(2)), Exchange(0, 1, "local", 0));
    assert s2.slots == Slot(1, {1});
    assert s2.conns == Accepted({1}).conns;
    assert s2.table.net.history == Accepted({1}).table.net.history;
  }

  const L := Limiter(49, 0, 0)

  function EntryA(a: PeerData): PeerInfo { PeerInfo(a, 2, 2) }

  function EntryB(b: PeerData): PeerInfo { PeerInfo(b, 1, 1) }

  function Table1(room: Room, next: nat, h1: seq<ServerMessage>, h2: seq<ServerMessage>): Table {
    Table(map["local" := room], next, Network(map[1 := h1, 2 := h2], {}))
  }

  function Conns(p1: Phase, l2: Limiter, p2: Phase): map<ConnId, Conn> {
    map[1 := Conn("local", L, p1), 2 := Conn("local", l2, p2)]
  }

  function World(table: Table, conns: map<ConnId, Conn>): State { State(Slot(2, {1, 2}), table, conns) }

  // The states after the fifth event, the sixth, and so on.

  function S5(a: PeerData, b: PeerData): State {
    World(Table1([EntryB(b)], 2, [], []), Conns(Member(Added, b.peerCode, 1, []), Fresh(0), Registering))
  }

  function S6(a: PeerData, b: PeerData): State {
    World(Table1([EntryB(b)], 2, [Peers([])], []), Conns(Member(Looping, b.peerCode, 1, []), Fresh(0), Registering))
  }

  function S7(a: PeerData, b: PeerData): State {
    World(Table1([EntryB(b), EntryA(a)], 3, [Peers([]), PeerJoined(a)], []),
          Conns(Member(Looping, b.peerCode, 1, []), L, Member(Added, a.peerCode, 2, [b])))
  }

  function S8(a: PeerData, b: PeerData): State {
    World(Table1([EntryB(b), EntryA(a)], 3, [Peers([]), PeerJoined(a)], []),
          Conns(Member(Closing, b.peerCode, 1, []), L, Member(Added, a.peerCode, 2, [b])))
  }

  function S9(a: PeerData, b: PeerData): State {
    World(Table1([EntryA(a)], 3, [Peers([]), PeerJoined(a)], [PeerLeft(b.peerCode)]),
          Conns(Done, L, Member(Added, a.peerCode, 2, [b])))
  }

  function S10(a: PeerData, b: PeerData): State {
    World(Table1([EntryA(a)], 3, [Peers([]), PeerJoined(a)], [PeerLeft(b.peerCode), Peers([b])]),
          Conns(Done, L, Member(Looping, a.peerCode, 2, [b])))
  }

  lemma EnterSucceeds(s: State, c: ConnId, peer: PeerData)
    requires c in s.conns && s.conns[c].phase.Registering? && s.conns[c].limiter == Fresh(0)
    requires IsNormal(peer.peerCode) && Utf8Len(peer.deviceName) <= MAX_DEVICE_NAME_BYTES
    ensures Next(s, Receive(c, 0, Enter(peer))) == Join(WithLimiter(s, c, L), c, peer.peerCode, peer)
  {
    NormalCodesAreFixed(peer.peerCode);
    assert peer.(peerCode := peer.peerCode) == peer;
  }

  lemma JoinWith(s: State, c: ConnId, peer: PeerData, table: Table, existing: seq<PeerData>, sessionId: nat)
    requires c in s.conns
    requires AfterAdd(s.table, s.conns[c].ip, PeerInfo(peer, c, 0)) == (table, Ok((existing, sessionId)))
    ensures Join(s, c, peer.peerCode, peer) ==
            WithPhase(s.(table := table), c, Member(Added, peer.peerCode, sessionId, existing))
  {
    assert peer.(peerCode := peer.peerCode) == peer;
  }

  /** The state after the registration of a peer that the room admits. */
  lemma EnterJoins(s: State, s': State, c: ConnId, peer: PeerData, existing: seq<PeerData>, sessionId: nat)
    requires c in s.conns && s.conns[c] == Conn("local", Fresh(0), Registering)
    requires IsNormal(peer.peerCode) && Utf8Len(peer.deviceName) <= MAX_DEVICE_NAME_BYTES
    requires AfterAdd(s.table, "local", PeerInfo(peer, c, 0)) == (s'.table, Ok((existing, sessionId)))
    requires s'.slots == s.slots
    requires s'.conns == s.conns[c := Conn("local", L, Member(Added, peer.peerCode, sessionId, existing))]
    ensures Enabled(s, Receive(c, 0, Enter(peer))) && Next(s, Receive(c, 0, Enter(peer))) == s'
  {
    EnterSucceeds(s, c, peer);
    JoinWith(WithLimiter(s, c, L), c, peer, s'.table, existing, sessionId);
  }

  lemma BroadcastToOne(net: Network, c: ChannelId, msg: ServerMessage)
    ensures Broadcast(net, [c], msg) == net.Send(c, msg)
  {
    assert [c][..0] == [];
  }

  lemma RoomOfOne(p: PeerInfo, keep: PeerInfo -> bool)
    ensures Keep(keep, [p]) == if keep(p) then [p] else []
    ensures Senders([p]) == [p.sender] && DataOf([p]) == [p.data]
  {
    assert [p][..0] == [];
  }

  lemma BEnters(a: PeerData, b: PeerData)
    requires Cast(a, b)
    ensures Enabled(TwoAccepted(), Receive(1, 0, Enter(b))) && Next(TwoAccepted(), Receive(1, 0, Enter(b))) == S5(a, b)
  {
    BAdded(a, b);
    EnterJoins(TwoAccepted(), S5(a, b), 1, b, [], 1);
  }

  lemma BAdded(a: PeerData, b: PeerData)
    requires Cast(a, b)
    ensures AfterAdd(TwoAccepted().table, "local", PeerInfo(b, 1, 0)) == (S5(a, b).table, Ok(([], 1)))
  {
    var t := TwoAccepted().table;
    assert Senders([]) == [] && DataOf([]) == [];
    assert [] + [EntryB(b)] == [EntryB(b)];
    assert t.rooms["local" := [EntryB(b)]] == S5(a, b).table.rooms;
  }

  lemma BIsAnnounced(a: PeerData, b: PeerData)
    requires Cast(a, b)
    ensures Enabled(S5(a, b), Announce(1)) && Next(S5(a, b), Announce(1)) == S6(a, b)
  {
    assert [] + [Peers([])] == [Peers([])];
    assert Next(S5(a, b), Announce(1)).table.net.history == S6(a, b).table.net.history;
    assert Next(S5(a, b), Announce(1)).conns == S6(a, b).conns;
  }

  /** A registration in a room that holds one entry, with another code. */
  lemma AddToOne(net: Network, ip: string, next: nat, q: PeerInfo, peer: PeerInfo)
    requires q.Code() != peer.Code()
    ensures AfterAdd(Table(map[ip := [q]], next, net), ip, peer) ==
            (Table(map[ip := [q, peer.(sessionId := next)]], next + 1, net.Send(q.sender, PeerJoined(peer.data))),
             Ok(([q.data], next)))
  {
    RoomOfOne(q, OtherCode(peer.Code()));
    BroadcastToOne(net, q.sender, PeerJoined(peer.data));
    assert [q] + [peer.(sessionId := next)] == [q, peer.(sessionId := next)];
    assert map[ip := [q]][ip := [q, peer.(sessionId := next)]] == map[ip := [q, peer.(sessionId := next)]];
  }

  lemma AAdded(a: PeerData, b: PeerData)
    requires Cast(a, b)
    ensures AfterAdd(S6(a, b).table, "local", PeerInfo(a, 2, 0)) == (S7(a, b).table, Ok(([b], 2)))
  {
    AddToOne(S6(a, b).table.net, "local", 2, EntryB(b), PeerInfo(a, 2, 0));
    assert [Peers([])] + [PeerJoined(a)] == [Peers([]), PeerJoined(a)];
    assert S6(a, b).table.net.Send(1, PeerJoined(a)).history == S7(a, b).table.net.history;
  }

  lemma AEnters(a: PeerData, b: PeerData)
    requires Cast(a, b)
    ensures Enabled(S6(a, b), Receive(2, 0, Enter(a))) && Next(S6(a, b), Receive(2, 0, Enter(a))) == S7(a, b)
  {
    AAdded(a, b);
    EnterJoins(S6(a, b), S7(a, b), 2, a, [b], 2);
  }

  lemma BTimesOut(a: PeerData, b: PeerData)
    requires Cast(a, b)
    ensures Enabled(S7(a, b), TimeOut(1)) && Next(S7(a, b), TimeOut(1)) == S8(a, b)
  {
    assert Next(S7(a, b), TimeOut(1)).conns == S8(a, b).conns;
  }

  lemma BRemoved(a: PeerData, b: PeerData)
    requires Cast(a, b)
    ensures AfterRemove(S8(a, b).table, "local", b.peerCode, 1) == S9(a, b).table
  {
    var room := [EntryB(b), EntryA(a)];
    assert room[..1] == [EntryB(b)];
    RoomOfOne(EntryB(b), OtherEntry(b.peerCode, 1));
    RoomOfOne(EntryA(a), OtherEntry(b.peerCode, 1));
    assert Keep(OtherEntry(b.peerCode, 1), room) == [EntryA(a)];
    BroadcastToOne(S8(a, b).table.net, 2, PeerLeft(b.peerCode));
    assert [] + [PeerLeft(b.peerCode)] == [PeerLeft(b.peerCode)];
    assert S8(a, b).table.net.Send(2, PeerLeft(b.peerCode)).history == S9(a, b).table.net.history;
    assert S8(a, b).table.rooms["local" := [EntryA(a)]] == S9(a, b).table.rooms;
  }

  lemma BLeaves(a: PeerData, b: PeerData)
    requires Cast(a, b)
    ensures Enabled(S8(a, b), Cleanup(1)) && Next(S8(a, b), Cleanup(1)) == S9(a, b)
  {
    BRemoved(a, b);
    assert S8(a, b).conns[1] == Conn("local", L, Member(Closing, b.peerCode, 1, []));
    assert Next(S8(a, b), Cleanup(1)) == WithPhase(S8(a, b).(table := S9(a, b).table), 1, Done);
    assert Next(S8(a, b), Cleanup(1)).conns == S9(a, b).conns;
  }

  lemma AIsAnnounced(a: PeerData, b: PeerData)
    requires Cast(a, b)
    ensures Enabled(S9(a, b), Announce(2)) && Next(S9(a, b), Announce(2)) == S10(a, b)
  {
    assert [PeerLeft(b.peerCode)] + [Peers([b])] == [PeerLeft(b.peerCode), Peers([b])];
    assert Next(S9(a, b), Announce(2)).table.net.history == S10(a, b).table.net.history;
    assert Next(S9(a, b), Announce(2)).conns == S10(a, b).conns;
  }

  function Accepting(i: nat): State {
    if i == 0 then Start(2) else if i == 1 then Loading(Start(2)) else if i == 2 then Accepted({1})
    else if i == 3 then Loading(Accepted({1})) else TwoAccepted()
  }

  /** The state after `i` events. */
  function After(a: PeerData, b: PeerData, i: nat): State {
    if i <= 4 then Accepting(i) else if i == 5 then S5(a, b) else if i == 6 then S6(a, b) else if i == 7 then S7(a, b)
    else if i == 8 then S8(a, b) else if i == 9 then S9(a, b) else S10(a, b)
  }

  lemma AcceptsFollow(a: PeerData, b: PeerData, i: nat)
    requires Cast(a, b) && i < 4
    ensures Enabled(After(a, b, i), Events(a, b)[i]) && Next(After(a, b, i), Events(a, b)[i]) == After(a, b, i + 1)
  {
    if i < 2 { FirstSlot(); }
    else {
      AcceptOne({1}, 2);
      BothAccepted();
    }
  }

  lemma BeginningFollows(a: PeerData, b: PeerData, i: nat)
    requires Cast(a, b) && 4 <= i <= 5
    ensures Enabled(After(a, b, i), Events(a, b)[i]) && Next(After(a, b, i), Events(a, b)[i]) == After(a, b, i + 1)
  {
    if i == 4 { BEnters(a, b); } else { BIsAnnounced(a, b); }
  }

  lemma EndFollows(a: PeerData, b: PeerData, i: nat)
    requires Cast(a, b) && 8 <= i < 10
    ensures Enabled(After(a, b, i), Events(a, b)[i]) && Next(After(a, b, i), Events(a, b)[i]) == After(a, b, i + 1)
  {
    if i == 8 { BLeaves(a, b); } else { AIsAnnounced(a, b); }
  }

  lemma Follows(a: PeerData, b: PeerData, i: nat)
    requires Cast(a, b) && i < 10
    ensures Enabled(After(a, b, i), Events(a, b)[i]) && Next(After(a, b, i), Events(a, b)[i]) == After(a, b, i + 1)
  {
    if i < 4 { AcceptsFollow(a, b, i); }
    else if i < 6 { BeginningFollows(a, b, i); }
    else if i == 6 { AEnters(a, b); }
    else if i == 7 { BTimesOut(a, b); }
    else { EndFollows(a, b, i); }
  }

  lemma TheRun(a: PeerData, b: PeerData)
    requires Cast(a, b)
    ensures Exec(Start(2), Events(a, b)) == Some(S10(a, b))
  {
    var at := (i: nat) => After(a, b, i);
    forall i | 0 <= i < 10
      ensures Enabled(at(i), Events(a, b)[i]) && Next(at(i), Events(a, b)[i]) == at(i + 1)
    {
      Follows(a, b, i);
    }
    StatesAreARun(Events(a, b), at);
  }

  lemma ViewOfTwo(a: PeerData, b: PeerData, list: seq<PeerData>)
    requires list == [b] && a.peerCode != b.peerCode
    ensures View(a.peerCode, [PeerLeft(b.peerCode), Peers(list)]) == [b]
  {
    var h := [PeerLeft(b.peerCode), Peers(list)];
    assert h[..1] == [PeerLeft(b.peerCode)] && h[..1][..0] == [];
    assert View(a.peerCode, h[..1]) == [];
    assert list[..0] == [];
    assert MergeAll(a.peerCode, [], list) == Merge(a.peerCode, [], b);
  }

  /** After this run the client of `a` lists `b`, and the room of `a` holds only `a`. */
  lemma AClientCanListAnAbsentPeer(a: PeerData, b: PeerData)
    requires Cast(a, b)
    ensures Exec(Start(2), Events(a, b)).Some?
    ensures var s := Exec(Start(2), Events(a, b)).value;
            && Announced(s, "local", EntryA(a))
            && Codes(s.table.rooms["local"]) == {a.peerCode}
            && CodesOf(View(a.peerCode, s.table.net.Of(2))) == {b.peerCode}
  {
    TheRun(a, b);
    ViewOfTwo(a, b, [b]);
  }
}
