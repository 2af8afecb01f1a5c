/** Which peers a client lists wrongly, told from the events of the run. */
module Staleness {
  import opened Wire
  import opened PeerCodes
  import opened Filters
  import opened Channels
  import opened Rooms
  import opened Histories
  import opened Replica
  import opened Server
  import opened ServerInvariant
  import opened ServerTheorems

  function CodesAt(s: State, ip: string): set<string> { Codes(RoomAt(s.table.rooms, ip)) }

  /** The event takes the entry with code `x` out of room `ip`. */
  ghost predicate Departs(s: State, e: Event, ip: string, x: string) {
    && e.Cleanup? && IsMember(s, e.c) && !Replaced(s, e.c)
    && s.conns[e.c].ip == ip && s.conns[e.c].phase.code == x
  }

  // ---- Codes of a room ----

  lemma CleanupCodes(s: State, c: ConnId, ip: string, x: string)
    requires Inv(s) && Enabled(s, Cleanup(c))
    ensures x in CodesAt(Next(s, Cleanup(c)), ip) <==> x in CodesAt(s, ip) && !Departs(s, Cleanup(c), ip, x)
  {
    var Conn(ip', _, Member(_, code, sessionId, _)) := s.conns[c];
    CleanupTouchesOnlyItsOwnEntry(s, c);
    if !Replaced(s, c) && ip' == ip {
      CodesAfterRemove(s.table, ip, code, sessionId);
    }
  }

  /** A code is in a room after an event exactly if it was there and did not depart, or joined. */
  lemma CodesStep(s: State, e: Event, ip: string, x: string)
    requires Inv(s) && Enabled(s, e)
    ensures x in CodesAt(Next(s, e), ip) <==>
              (x in CodesAt(s, ip) && !Departs(s, e, ip, x)) || JoinsAs(s, e, ip, x)
  {
    if e.Cleanup? {
      CleanupCodes(s, e.c, ip, x);
    } else if ip', code :| JoinsAs(s, e, ip', code) {
      TableAfterJoin(s, e, ip', code);
      RoomAfterAdd(s.table, ip', PeerInfo(e.frame.content.value.peer.(peerCode := code), e.c, 0));
    } else {
      RoomsChangeOnlyHere(s, e);
    }
  }

  /** Code `x` was not in the room at first and has not joined since, or the last of its joins
      and departures in the run is a departure. */
  ghost predicate Gone(s: State, events: seq<Event>, ip: string, x: string)
    requires Exec(s, events).Some?
  {
    if events == [] then x !in CodesAt(s, ip)
    else
      var n := |events| - 1;
      var m := Exec(s, events[..n]).value;
      !JoinsAs(m, events[n], ip, x) && (Departs(m, events[n], ip, x) || Gone(s, events[..n], ip, x))
  }

  lemma {:induction false} RunKeeps(s: State, events: seq<Event>)
    requires Inv(s) && Exec(s, events).Some?
    ensures Inv(Exec(s, events).value)
    ensures Exec(s, events).value.table.nextSessionId >= s.table.nextSessionId
  {
    if events != [] {
      var m := Exec(s, events[..|events| - 1]).value;
      RunKeeps(s, events[..|events| - 1]);
      StepKeepsInv(m, events[|events| - 1]);
      SessionsGrow(m, events[|events| - 1]);
    }
  }

  lemma SessionsGrow(s: State, e: Event)
    requires Enabled(s, e)
    ensures Next(s, e).table.nextSessionId >= s.table.nextSessionId
  {}

  lemma {:induction false} GoneExactly(s: State, events: seq<Event>, ip: string, x: string)
    requires Inv(s) && Exec(s, events).Some?
    ensures Gone(s, events, ip, x) <==> x !in CodesAt(Exec(s, events).value, ip)
  {
    if events != [] {
      var n := |events| - 1;
      GoneExactly(s, events[..n], ip, x);
      RunKeeps(s, events[..n]);
      CodesStep(Exec(s, events[..n]).value, events[n], ip, x);
    }
  }

  // ---- Current members ----

  /** `p` is an entry of room `ip` with an open channel. */
  ghost predicate Current(s: State, ip: string, p: PeerInfo) {
    InRoom(s.table.rooms, ip, p) && s.table.net.IsOpen(p.sender)
  }

  lemma ChannelsStayClosed(s: State, e: Event)
    requires Inv(s) && Enabled(s, e)
    ensures s.table.net.closed <= Next(s, e).table.net.closed
  {
    if e.Receive? && e.frame.Text? { OnTextKeepsRooms(s, e.c, e.now, e.frame.size, e.frame.content); }
  }

  /** Sessions are not reused, so an entry that is gone does not come back. */
  lemma CurrentBefore(s: State, e: Event, ip: string, p: PeerInfo)
    requires Inv(s) && Enabled(s, e) && p.sessionId < s.table.nextSessionId && Current(Next(s, e), ip, p)
    ensures Current(s, ip, p) && IsMember(s, p.sender)
    ensures IsMember(Next(s, e), p.sender)
    ensures var before, after := s.conns[p.sender].phase, Next(s, e).conns[p.sender].phase;
            && after.snapshot == before.snapshot
            && (after.stage.Added? <==> before.stage.Added? && e != Announce(p.sender))
  {
    ChannelsStayClosed(s, e);
    if e.Cleanup? {
      var Conn(ip', _, Member(_, code, sessionId, _)) := s.conns[e.c];
      EntriesAfterRemove(s.table, ip', code, sessionId);
    } else if ip', code :| JoinsAs(s, e, ip', code) {
      TableAfterJoin(s, e, ip', code);
      EntriesAfterAdd(s.table, ip', PeerInfo(e.frame.content.value.peer.(peerCode := code), e.c, 0));
    } else {
      RoomsChangeOnlyHere(s, e);
    }
    assert IsOwner(s.conns[p.sender], ip, p);
    EntryEndsExactly(s, e, ip, p);
    MembersStayMembers(s, e, p.sender);
  }

  lemma {:induction false} SnapshotStays(s: State, events: seq<Event>, ip: string, p: PeerInfo)
    requires Inv(s) && InRoom(s.table.rooms, ip, p)
    requires Exec(s, events).Some? && Current(Exec(s, events).value, ip, p)
    ensures IsMember(s, p.sender) && IsMember(Exec(s, events).value, p.sender)
    ensures Exec(s, events).value.conns[p.sender].phase.snapshot == s.conns[p.sender].phase.snapshot
  {
    assert IsOwner(s.conns[p.sender], ip, p);
    if events != [] {
      var m := Exec(s, events[..|events| - 1]).value;
      RunKeeps(s, events[..|events| - 1]);
      CurrentBefore(m, events[|events| - 1], ip, p);
      SnapshotStays(s, events[..|events| - 1], ip, p);
    }
  }

  // ---- What a member is told in one step ----

  /** At most one message, and which kinds it can be, given the codes of the room before and
      after the event. */
  ghost predicate IsNews(e: Event, p: PeerInfo, before: set<string>, after: set<string>, news: seq<ServerMessage>) {
    && |news| <= 1
    && forall i :: 0 <= i < |news| ==>
         && (news[i].Peers? ==> e == Announce(p.sender))
         && (news[i].PeerLeft? ==> news[i].peerCode in before)
         && (news[i].PeerJoined? ==> news[i].peer.peerCode in after)
  }

  /** The entry `p` of room `ip` stays and is sent `news`. */
  ghost predicate Tells(s: State, e: Event, ip: string, p: PeerInfo, news: seq<ServerMessage>)
    requires Enabled(s, e)
  {
    && Next(s, e).table.net.Of(p.sender) == s.table.net.Of(p.sender) + news
    && IsNews(e, p, CodesAt(s, ip), CodesAt(Next(s, e), ip), news)
  }

  lemma JoinSends(s: State, e: Event, ip: string, p: PeerInfo, ip': string, code: string)
    returns (news: seq<ServerMessage>)
    requires Inv(s) && Enabled(s, e) && Current(s, ip, p) && InRoom(Next(s, e).table.rooms, ip, p)
    requires JoinsAs(s, e, ip', code)
    ensures Next(s, e).table.net.Of(p.sender) == s.table.net.Of(p.sender) + news
    ensures news == [] || (ip' == ip && |news| == 1 && news[0].PeerJoined? && news[0].peer.peerCode == code)
  {
    var data := e.frame.content.value.peer.(peerCode := code);
    TableAfterJoin(s, e, ip', code);
    EntryEndsExactly(s, e, ip, p);
    BroadcastReachesKept(s, ip', OtherCode(code), PeerJoined(data), ip, p);
    news := if ip' == ip then [PeerJoined(data)] else [];
  }

  lemma JoinTells(s: State, e: Event, ip: string, p: PeerInfo, ip': string, code: string)
    returns (news: seq<ServerMessage>)
    requires Inv(s) && Enabled(s, e) && Current(s, ip, p) && InRoom(Next(s, e).table.rooms, ip, p)
    requires JoinsAs(s, e, ip', code)
    ensures Tells(s, e, ip, p, news)
  {
    news := JoinSends(s, e, ip, p, ip', code);
    CodesStep(s, e, ip, code);
  }

  lemma TextIsQuiet(s: State, e: Event, ch: ChannelId)
    requires Inv(s) && Enabled(s, e) && e.Receive? && e.frame.Text?
    requires forall ip', code :: !JoinsAs(s, e, ip', code)
    ensures QuietExtension(s.table.net.Of(ch), Next(s, e).table.net.Of(ch))
  {
    forall code ensures !TextJoins(s, e.c, e.now, e.frame.size, e.frame.content, code) {
      assert !JoinsAs(s, e, s.conns[e.c].ip, code);
    }
    OnTextKeepsRooms(s, e.c, e.now, e.frame.size, e.frame.content);
  }

  lemma TextTells(s: State, e: Event, ip: string, p: PeerInfo) returns (news: seq<ServerMessage>)
    requires Inv(s) && Enabled(s, e) && e.Receive? && e.frame.Text?
    requires forall ip', code :: !JoinsAs(s, e, ip', code)
    ensures Tells(s, e, ip, p, news)
  {
    TextIsQuiet(s, e, p.sender);
    var h, h' := s.table.net.Of(p.sender), Next(s, e).table.net.Of(p.sender);
    news := h'[|h|..];
    assert h' == h'[..|h|] + news;
  }

  lemma OtherEventsTell(s: State, e: Event, ip: string, p: PeerInfo) returns (news: seq<ServerMessage>)
    requires Inv(s) && Enabled(s, e) && InRoom(s.table.rooms, ip, p) && !e.Cleanup? && !(e.Receive? && e.frame.Text?)
    ensures Tells(s, e, ip, p, news)
  {
    assert p.sender in s.table.net.history;
    news := Next(s, e).table.net.Of(p.sender)[|s.table.net.Of(p.sender)|..];
  }

  lemma OwnCodeIsInRoom(s: State, c: ConnId)
    requires Inv(s) && IsMember(s, c) && !Replaced(s, c)
    ensures s.conns[c].phase.code in CodesAt(s, s.conns[c].ip)
  {
    var ip, q :| InRoom(s.table.rooms, ip, q) && q.sender == c;
    assert IsOwner(s.conns[c], ip, q);
  }

  lemma CleanupTells(s: State, c: ConnId, ip: string, p: PeerInfo) returns (news: seq<ServerMessage>)
    requires Inv(s) && Enabled(s, Cleanup(c)) && Current(s, ip, p) && InRoom(Next(s, Cleanup(c)).table.rooms, ip, p)
    ensures Tells(s, Cleanup(c), ip, p, news)
  {
    CleanupTouchesOnlyItsOwnEntry(s, c);
    EntryEndsExactly(s, Cleanup(c), ip, p);
    if !Replaced(s, c) { OwnCodeIsInRoom(s, c); }
    news := if !Replaced(s, c) && ip == s.conns[c].ip then [PeerLeft(s.conns[c].phase.code)] else [];
  }

  lemma StepTells(s: State, e: Event, ip: string, p: PeerInfo) returns (news: seq<ServerMessage>)
    requires Inv(s) && Enabled(s, e) && Current(s, ip, p) && InRoom(Next(s, e).table.rooms, ip, p)
    ensures Tells(s, e, ip, p, news)
  {
    if ip', code :| JoinsAs(s, e, ip', code) {
      news := JoinTells(s, e, ip, p, ip', code);
    } else if e.Receive? && e.frame.Text? {
      news := TextTells(s, e, ip, p);
    } else if e.Cleanup? {
      news := CleanupTells(s, e.c, ip, p);
    } else {
      news := OtherEventsTell(s, e, ip, p);
    }
  }

  // ---- Staleness ----

  /** Of the codes in its snapshot, a member was last told of a departure for exactly those
      that are not in the room. */
  lemma LastWordTellsTheRoom(room: Room, phase: Phase, h: seq<ServerMessage>, x: string)
    requires HistoryOk(room, phase, h) && x in CodesOf(phase.snapshot)
    ensures LastWordIsLeft(h, x) <==> x !in Codes(room)
  {
    ReplayFrom(h, CodesOf(phase.snapshot), x);
  }

  /** Stale when `Peers` is sent: the codes in the snapshot that are not in the room by then. */
  lemma StaleWhenAnnounced(s: State, ip: string, p: PeerInfo, x: string)
    requires Inv(s) && Enabled(s, Announce(p.sender)) && Current(s, ip, p)
    ensures var snapshot := s.conns[p.sender].phase.snapshot;
            Stale(Next(s, Announce(p.sender)).table.net.Of(p.sender), x) <==>
              x in CodesOf(snapshot) && x !in CodesAt(s, ip)
  {
    var phase, h := s.conns[p.sender].phase, s.table.net.Of(p.sender);
    assert HistoryOk(s.table.rooms[ip], phase, h);
    if x in CodesOf(phase.snapshot) { LastWordTellsTheRoom(s.table.rooms[ip], phase, h, x); }
    assert (h + [Peers(phase.snapshot)])[..|h|] == h;
  }

  /** No stale code is in the room. */
  lemma StaleIsAbsent(s: State, ip: string, p: PeerInfo, x: string)
    requires Inv(s) && Announced(s, ip, p) && Stale(s.table.net.Of(p.sender), x)
    ensures x in CodesOf(s.conns[p.sender].phase.snapshot) && x !in CodesAt(s, ip)
  {
    var phase, h := s.conns[p.sender].phase, s.table.net.Of(p.sender);
    assert HistoryOk(s.table.rooms[ip], phase, h);
    StaleIsListed(h, phase.snapshot, x);
    StaleEndsInLeft(h, x);
    LastWordTellsTheRoom(s.table.rooms[ip], phase, h, x);
  }

  lemma {:induction false} StaleIsListed(h: seq<ServerMessage>, snapshot: seq<PeerData>, x: string)
    requires Snapshots(h) == [snapshot] && Stale(h, x)
    ensures x in CodesOf(snapshot)
  {
    if h[|h| - 1].Peers? {
      assert Snapshots(h)[|Snapshots(h)| - 1] == h[|h| - 1].peers;
    } else {
      StaleIsListed(h[..|h| - 1], snapshot, x);
    }
  }

  lemma {:induction false} StaleEndsInLeft(h: seq<ServerMessage>, x: string)
    requires Stale(h, x)
    ensures LastWordIsLeft(h, x)
  {
    if !h[|h| - 1].Peers? { StaleEndsInLeft(h[..|h| - 1], x); }
  }

  /** After `Peers`, a code stays stale until it joins again, and none becomes stale. */
  lemma StaleStep(s: State, e: Event, ip: string, p: PeerInfo, x: string)
    requires Inv(s) && Enabled(s, e) && Announced(s, ip, p) && Announced(Next(s, e), ip, p)
    ensures Stale(Next(s, e).table.net.Of(p.sender), x) <==>
              Stale(s.table.net.Of(p.sender), x) && !JoinsAs(s, e, ip, x)
  {
    var h, h' := s.table.net.Of(p.sender), Next(s, e).table.net.Of(p.sender);
    var news := StepTells(s, e, ip, p);
    CodesStep(s, e, ip, x);
    StepKeepsInv(s, e);
    if Stale(h, x) { StaleIsAbsent(s, ip, p, x); }
    if Stale(h', x) { StaleIsAbsent(Next(s, e), ip, p, x); }
    StaleByNews(h, news, x);
  }

  lemma StaleByNews(h: seq<ServerMessage>, news: seq<ServerMessage>, x: string)
    requires |news| <= 1 && forall i :: 0 <= i < |news| ==> !news[i].Peers?
    ensures Stale(h + news, x) <==> Stale(h, x) && NeverMentions(news, x)
  {
    if news == [] {
      assert h + news == h;
    } else {
      assert news == [news[0]] && (h + news)[..|h|] == h;
    }
  }

  ghost predicate JoinsAt(s: State, events: seq<Event>, j: nat, ip: string, x: string) {
    j < |events| && Exec(s, events[..j]).Some? && JoinsAs(Exec(s, events[..j]).value, events[j], ip, x)
  }

  ghost predicate JoinsAfter(s: State, events: seq<Event>, k: nat, ip: string, x: string) {
    exists j :: k < j < |events| && JoinsAt(s, events, j, ip, x)
  }

  lemma JoinsAfterByTheLast(s: State, events: seq<Event>, n: nat, k: nat, ip: string, x: string)
    requires k < n && n + 1 == |events|
    ensures JoinsAfter(s, events, k, ip, x) <==> JoinsAfter(s, events[..n], k, ip, x) || JoinsAt(s, events, n, ip, x)
  {
    forall j | 0 <= j < n ensures JoinsAt(s, events[..n], j, ip, x) <==> JoinsAt(s, events, j, ip, x) {
      assert events[..n][..j] == events[..j];
    }
  }

  lemma StaleAtStep(s: State, events: seq<Event>, ip: string, p: PeerInfo, x: string)
    requires Inv(s) && InRoom(s.table.rooms, ip, p)
    requires Exec(s, events).Some? && Current(Exec(s, events).value, ip, p)
    requires Enabled(Exec(s, events).value, Announce(p.sender))
    ensures IsMember(s, p.sender)
    ensures Stale(Next(Exec(s, events).value, Announce(p.sender)).table.net.Of(p.sender), x) <==>
              x in CodesOf(s.conns[p.sender].phase.snapshot) && Gone(s, events, ip, x)
  {
    SnapshotStays(s, events, ip, p);
    GoneExactly(s, events, ip, x);
    RunKeeps(s, events);
    StaleWhenAnnounced(Exec(s, events).value, ip, p, x);
  }

  /** One step after `Peers`: a stale code stays stale unless it joins. */
  lemma StaleLater(s: State, events: seq<Event>, n: nat, k: nat, ip: string, p: PeerInfo, x: string)
    requires k < n && n + 1 == |events| && Exec(s, events).Some?
    requires Inv(Exec(s, events[..n]).value)
    requires Announced(Exec(s, events[..n]).value, ip, p) && Announced(Exec(s, events).value, ip, p)
    ensures Stale(Exec(s, events).value.table.net.Of(p.sender), x) <==>
              Stale(Exec(s, events[..n]).value.table.net.Of(p.sender), x) && !JoinsAt(s, events, n, ip, x)
    ensures JoinsAfter(s, events, k, ip, x) <==> JoinsAfter(s, events[..n], k, ip, x) || JoinsAt(s, events, n, ip, x)
  {
    StaleStep(Exec(s, events[..n]).value, events[n], ip, p, x);
    JoinsAfterByTheLast(s, events, n, k, ip, x);
  }

  /** `p` announced by the end of the run was current and announced one event before, unless
      that event announced it. */
  lemma AnnouncedBefore(s: State, events: seq<Event>, ip: string, p: PeerInfo)
    requires Inv(s) && InRoom(s.table.rooms, ip, p) && events != []
    requires Exec(s, events).Some? && Current(Exec(s, events).value, ip, p)
    ensures var m, e := Exec(s, events[..|events| - 1]).value, events[|events| - 1];
            && Inv(m) && Current(m, ip, p) && IsMember(m, p.sender) && IsMember(Exec(s, events).value, p.sender)
            && (Announced(Exec(s, events).value, ip, p) <==> Announced(m, ip, p) || e == Announce(p.sender))
  {
    RunKeeps(s, events[..|events| - 1]);
    CurrentBefore(Exec(s, events[..|events| - 1]).value, events[|events| - 1], ip, p);
  }

  /** Which codes a client lists although they are not in its room, for every run from a
      state in which it has joined, with its `Peers` message sent at step `k`: the codes of its
      snapshot whose last news in the room before that step was a departure, and which have
      not joined since. */
  lemma {:induction false} StaleExactly(s: State, events: seq<Event>, k: nat, ip: string, p: PeerInfo, x: string)
    requires Inv(s) && InRoom(s.table.rooms, ip, p)
    requires Exec(s, events).Some? && Current(Exec(s, events).value, ip, p)
    requires k < |events| && events[k] == Announce(p.sender)
    ensures Announced(Exec(s, events).value, ip, p) && IsMember(s, p.sender)
    ensures Exec(s, events[..k]).Some?
    ensures var snapshot := s.conns[p.sender].phase.snapshot;
            Stale(Exec(s, events).value.table.net.Of(p.sender), x) <==>
              x in CodesOf(snapshot) && Gone(s, events[..k], ip, x) && !JoinsAfter(s, events, k, ip, x)
  {
    var n := |events| - 1;
    AnnouncedBefore(s, events, ip, p);
    if n == k {
      StaleAtStep(s, events[..k], ip, p, x);
    } else {
      StaleExactly(s, events[..n], k, ip, p, x);
      assert events[..n][..k] == events[..k];
      StaleLater(s, events, n, k, ip, p, x);
    }
  }

  /** So, for every run of the server and every client that has joined by the end of `before`
      and is a current member at the end: what its list holds, told from the events alone. */
  lemma ListedExactly(
    max: nat, before: seq<Event>, events: seq<Event>, k: nat, ip: string, p: PeerInfo, typed: string, x: string)
    requires Exec(Start(max), before).Some? && InRoom(Exec(Start(max), before).value.table.rooms, ip, p)
    requires Exec(Exec(Start(max), before).value, events).Some?
    requires Current(Exec(Exec(Start(max), before).value, events).value, ip, p)
    requires k < |events| && events[k] == Announce(p.sender) && ValidatePeerCode(typed) == Ok(p.Code())
    ensures var s := Exec(Start(max), before).value;
            IsMember(s, p.sender) && Exec(s, events[..k]).Some? &&
            (x in CodesOf(View(typed, Exec(s, events).value.table.net.Of(p.sender))) <==>
              || (x in CodesAt(Exec(s, events).value, ip) && x != p.Code())
              || (x in CodesOf(s.conns[p.sender].phase.snapshot)
                  && Gone(s, events[..k], ip, x) && !JoinsAfter(s, events, k, ip, x)))
  {
    EveryRunKeepsInv(max, before);
    var s := Exec(Start(max), before).value;
    RunKeeps(s, events);
    StaleExactly(s, events, k, ip, p, x);
    SnapshotStays(s, events, ip, p);
    ViewInState(Exec(s, events).value, ip, p, typed);
  }
}
