/** The rate limiter at work in the server: how many relays one connection can cause. */
module RelayBound {
  import opened Wire
  import opened Utf8Text
  import opened PeerCodes
  import opened Filters
  import opened RateLimit
  import opened Channels
  import opened Rooms
  import opened Server
  import opened ServerInvariant
  import opened ServerTheorems
  import opened Handling

  // ---- The limiter of a connection over a run ----

  /** When the texts read from connection `c` arrived. */
  function TextTimes(events: seq<Event>, c: ConnId): seq<nat> {
    if events == [] then []
    else
      var e := events[|events| - 1];
      TextTimes(events[..|events| - 1], c) + (if e.Receive? && e.c == c && e.frame.Text? then [e.now] else [])
  }

  /** When `c` was last offered a slot; only the last offer can have succeeded. */
  function StartTime(events: seq<Event>, c: ConnId): nat {
    if events == [] then 0
    else
      var e := events[|events| - 1];
      if e.Exchange? && e.c == c then e.now else StartTime(events[..|events| - 1], c)
  }

  /** The connection's limiter is that of its own texts, made when it was accepted. */
  ghost predicate LimiterFollows(s: State, events: seq<Event>, c: ConnId) {
    && (c !in s.table.net.history ==> TextTimes(events, c) == [])
    && (c in s.conns ==> s.conns[c].limiter == After(StartTime(events, c), TextTimes(events, c)))
  }

  lemma OwnTextMovesLimiter(s: State, e: Event, c: ConnId)
    requires Inv(s) && Enabled(s, e) && c in s.conns && e.Receive? && e.c == c
    ensures c in Next(s, e).conns
    ensures Next(s, e).conns[c].limiter ==
            if e.frame.Text? then Check(s.conns[c].limiter, e.now).0 else s.conns[c].limiter
  {
    if e.frame.Text? { OnTextKeepsLimiter(s, c, e.now, e.frame.size, e.frame.content); }
  }

  lemma OtherStepsKeepLimiter(s: State, e: Event, c: ConnId)
    requires Inv(s) && Enabled(s, e) && c in s.conns && c in Next(s, e).conns && !(e.Receive? && e.c == c)
    ensures Next(s, e).conns[c].limiter == s.conns[c].limiter && !(e.Exchange? && e.c == c)
  {
    if e.Load? || e.c != c { StepKeepsOtherConns(s, e, c); }
  }

  /** Channels are never forgotten, and a new connection is an accepted one. */
  lemma NewConnections(s: State, e: Event, c: ConnId)
    requires Inv(s) && Enabled(s, e)
    ensures c in s.table.net.history ==> c in Next(s, e).table.net.history
    ensures c in Next(s, e).conns && c !in s.conns ==>
              && e.Exchange? && e.c == c && c !in s.table.net.history
              && Next(s, e).conns[c] == Conn(e.ip, Fresh(e.now), Registering)
  {
    if !(e.Load? || e.Exchange? || e.Release?) { OthersKeepSlots(s, e); }
    StepKeepsHistories(s, e);
  }

  lemma StepKeepsHistories(s: State, e: Event)
    requires Inv(s) && Enabled(s, e)
    ensures s.table.net.history.Keys <= Next(s, e).table.net.history.Keys
  {
    if e.Receive? && e.frame.Text? { OnTextKeepsRooms(s, e.c, e.now, e.frame.size, e.frame.content); }
  }

  lemma TextTimesOneMore(events: seq<Event>, c: ConnId)
    requires events != []
    ensures var n := |events| - 1;
            var isText := events[n].Receive? && events[n].c == c && events[n].frame.Text?;
            && TextTimes(events, c) == TextTimes(events[..n], c) + (if isText then [events[n].now] else [])
            && (forall t0 :: After(t0, TextTimes(events, c)) ==
                  if isText then Check(After(t0, TextTimes(events[..n], c)), events[n].now).0
                  else After(t0, TextTimes(events[..n], c)))
  {
    var n := |events| - 1;
    var times := TextTimes(events[..n], c);
    assert (times + [TimeOf(events[n])])[..|times|] == times;
    assert times + [] == times;
  }

  function TimeOf(e: Event): nat { if e.Receive? || e.Exchange? then e.now else 0 }

  lemma LimiterFollowsStep(s: State, events: seq<Event>, c: ConnId)
    requires events != [] && Inv(s) && Enabled(s, events[|events| - 1])
    requires LimiterFollows(s, events[..|events| - 1], c)
    ensures LimiterFollows(Next(s, events[|events| - 1]), events, c)
  {
    var e := events[|events| - 1];
    NewConnections(s, e, c);
    TextTimesOneMore(events, c);
    if c in s.conns && e.Receive? && e.c == c {
      OwnTextMovesLimiter(s, e, c);
    } else if c in s.conns && c in Next(s, e).conns {
      OtherStepsKeepLimiter(s, e, c);
    }
  }

  lemma {:induction false} LimiterFollowsTheTexts(max: nat, events: seq<Event>, c: ConnId)
    requires Exec(Start(max), events).Some?
    ensures Inv(Exec(Start(max), events).value)
    ensures LimiterFollows(Exec(Start(max), events).value, events, c)
  {
    EveryRunKeepsInv(max, events);
    if events != [] {
      var n := |events| - 1;
      LimiterFollowsTheTexts(max, events[..n], c);
      LimiterFollowsStep(Exec(Start(max), events[..n]).value, events, c);
    }
  }

  /** In every run of the server, the verdict on a connection's next text is the one that the
      position of the text among the connection's own texts calls for; other connections have
      no influence. */
  lemma VerdictInRun(max: nat, events: seq<Event>, c: ConnId, now: nat)
    requires Exec(Start(max), events).Some? && c in Exec(Start(max), events).value.conns
    ensures var times := TextTimes(events, c) + [now];
            var j := IndexInWindow(StartTime(events, c), times, |times| - 1);
            TextVerdict(Exec(Start(max), events).value, c, now) ==
              (if j <= 50 then Accept else if j < 53 then Reject else Close)
  {
    LimiterFollowsTheTexts(max, events, c);
    var times := TextTimes(events, c) + [now];
    assert times[..|times| - 1] == TextTimes(events, c);
    VerdictIsPosition(StartTime(events, c), times, |times| - 1);
  }

  // ---- Relays ----

  /** The relays enqueued between two states, as places in channels. */
  ghost function NewRelays(net: Network, net': Network): set<(ChannelId, nat)> {
    set ch, i | ch in net'.history && |net.Of(ch)| <= i < |net'.history[ch]| && net'.history[ch][i].Relay? :: (ch, i)
  }

  lemma OneMessageOneRelay(s: State, s': State, ch: ChannelId, msg: ServerMessage)
    requires SendsOnly(s, s', ch, msg)
    ensures |NewRelays(s.table.net, s'.table.net)| <= (if msg.Relay? then 1 else 0)
  {
    var added, place := NewRelays(s.table.net, s'.table.net), (ch, |s.table.net.Of(ch)|);
    forall x | x in added ensures x == place && msg.Relay? {
      assert s'.table.net.Of(x.0) == s'.table.net.history[x.0];
    }
    if msg.Relay? { SubsetSize(added, {place}); } else { assert added == {}; }
  }

  lemma NothingSentNothingRelayed(net: Network, net': Network)
    requires net'.history == net.history
    ensures NewRelays(net, net') == {}
  {}

  lemma OneSendOneRelay(s: State, ch: ChannelId, msg: ServerMessage)
    ensures |NewRelays(s.table.net, SendTo(s, ch, msg).table.net)| <= (if msg.Relay? then 1 else 0)
  {
    SendingSendsOnly(s, ch, msg);
    OneMessageOneRelay(s, SendTo(s, ch, msg), ch, msg);
  }

  /** Serving a text sends one message or none. */
  lemma ServingSendsOnce(s: State, c: ConnId, content: Option<ClientMessage>)
    requires c in s.conns && s.conns[c].phase.Member?
    ensures Serve(s, c, content) == s || exists ch, msg :: Serve(s, c, content) == SendTo(s, ch, msg)
  {}

  lemma ServingRelaysOnce(s: State, c: ConnId, content: Option<ClientMessage>)
    requires c in s.conns && s.conns[c].phase.Member?
    ensures |NewRelays(s.table.net, Serve(s, c, content).table.net)| <= 1
  {
    ServingSendsOnce(s, c, content);
    if ch, msg :| Serve(s, c, content) == SendTo(s, ch, msg) {
      OneSendOneRelay(s, ch, msg);
    } else {
      NothingSentNothingRelayed(s.table.net, s.table.net);
    }
  }

  /** A broadcast that is no relay adds none. */
  lemma {:induction false} BroadcastRelaysNothing(net: Network, targets: seq<ChannelId>, msg: ServerMessage)
    requires !msg.Relay?
    ensures NewRelays(net, Broadcast(net, targets, msg)) == {}
    ensures forall ch :: |Broadcast(net, targets, msg).Of(ch)| >= |net.Of(ch)|
  {
    if targets != [] {
      BroadcastRelaysNothing(net, targets[..|targets| - 1], msg);
      var before, net' := Broadcast(net, targets[..|targets| - 1], msg), Broadcast(net, targets, msg);
      forall x | x in NewRelays(net, net') ensures x in NewRelays(net, before) {
        assert before.Of(x.0) == before.history[x.0];
      }
    }
  }

  /** Only a text that a member is allowed to send can be relayed, and only once. */
  lemma ReceivingRelays(s: State, c: ConnId, now: nat, frame: Frame)
    requires Inv(s) && Enabled(s, Receive(c, now, frame))
    ensures |NewRelays(s.table.net, Next(s, Receive(c, now, frame)).table.net)| <=
            (if frame.Text? && TextVerdict(s, c, now).Accept? && s.conns[c].phase.Member? then 1 else 0)
  {
    if frame.Text? {
      TextRelays(s, c, now, frame.size, frame.content);
    } else {
      OtherFrames(s, c, now);
      var s' := Next(s, Receive(c, now, frame));
      if frame.Binary? {
        OneMessageOneRelay(s, s', c, Error(BinaryNotAccepted));
      } else {
        NothingSentNothingRelayed(s.table.net, s'.table.net);
      }
    }
  }

  lemma TextRelays(s: State, c: ConnId, now: nat, size: nat, content: Option<ClientMessage>)
    requires Inv(s) && Enabled(s, Receive(c, now, Text(size, content)))
    ensures |NewRelays(s.table.net, Next(s, Receive(c, now, Text(size, content))).table.net)| <=
            (if TextVerdict(s, c, now).Accept? && s.conns[c].phase.Member? then 1 else 0)
  {
    var s' := Next(s, Receive(c, now, Text(size, content)));
    if TextVerdict(s, c, now).Close? {
      ClosingTextsStopTheHandler(s, c, now, size, content);
      NothingSentNothingRelayed(s.table.net, s'.table.net);
    } else if TextVerdict(s, c, now).Reject? {
      RejectedTextsAreRefused(s, c, now, size, content);
      OneMessageOneRelay(s, s', c, Error(RateLimited));
    } else if size > 1024 * 1024 {
      OversizedTextsAreRefused(s, c, now, size, content);
      OneMessageOneRelay(s, s', c, Error(MessageTooLarge(size)));
    } else if s.conns[c].phase.Member? {
      AcceptedMessagesAreServed(s, c, now, size, content);
      ServingRelaysOnce(WithLimiter(s, c, Check(s.conns[c].limiter, now).0), c, content);
    } else {
      RegistrationRelaysNothing(s, c, now, size, content);
    }
  }

  lemma RegistrationRelaysNothing(s: State, c: ConnId, now: nat, size: nat, content: Option<ClientMessage>)
    requires RoomsOk(s) && ReachesRegistration(s, c, now, size)
    ensures NewRelays(s.table.net, Next(s, Receive(c, now, Text(size, content))).table.net) == {}
  {
    var s' := Next(s, Receive(c, now, Text(size, content)));
    NonRegistrationsAreRefused(s, c, now, size, content);
    if content.None? {
      OneMessageOneRelay(s, s', c, Error(Malformed));
    } else if !content.value.Register? {
      OneMessageOneRelay(s, s', c, Error(RegisterFirst));
    } else if |Utf8(content.value.peer.deviceName)| > 256 {
      OneMessageOneRelay(s, s', c, Error(DeviceNameTooLong));
    } else {
      EnteringRelaysNothing(s, c, now, size, content.value.peer);
    }
  }

  lemma EnteringRelaysNothing(s: State, c: ConnId, now: nat, size: nat, peer: PeerData)
    requires RoomsOk(s) && ReachesRegistration(s, c, now, size) && |Utf8(peer.deviceName)| <= 256
    ensures NewRelays(s.table.net, Next(s, Receive(c, now, Text(size, Some(Register(peer))))).table.net) == {}
  {
    var s' := Next(s, Receive(c, now, Text(size, Some(Register(peer)))));
    RegistrationOutcome(s, c, now, size, peer);
    match ValidatePeerCode(peer.peerCode)
    case Err(e) => OneMessageOneRelay(s, s', c, Error(InvalidCode(e)));
    case Ok(code) =>
      var info := PeerInfo(peer.(peerCode := code), c, 0);
      match AfterAdd(s.table, s.conns[c].ip, info).1
      case Err(e) => OneMessageOneRelay(s, s', c, Error(e));
      case Ok(_) =>
        RegistrationTexts(s, c, now, size, Some(Register(peer)));
        Utf8LenCountsBytes(peer.deviceName);
        var others := Keep(OtherCode(code), RoomAt(s.table.rooms, s.conns[c].ip));
        BroadcastRelaysNothing(s.table.net, Senders(others), PeerJoined(info.data));
  }

  // ---- The bound ----

  /** How many relays connection `c` caused at times `t` with `from <= t < to`. */
  ghost function RelayedBy(s: State, events: seq<Event>, c: ConnId, from: nat, to: nat): nat
    requires Exec(s, events).Some?
  {
    if events == [] then 0
    else
      var n := |events| - 1;
      var m, e := Exec(s, events[..n]).value, events[n];
      RelayedBy(s, events[..n], c, from, to) + Caused(m, e, c, from, to)
  }

  ghost function Caused(s: State, e: Event, c: ConnId, from: nat, to: nat): nat
    requires Enabled(s, e)
  {
    if e.Receive? && e.c == c && from <= e.now < to then |NewRelays(s.table.net, Next(s, e).table.net)| else 0
  }

  /** Only received frames cause relays, so every relay is counted for some connection. */
  lemma OnlyReceivingRelays(s: State, e: Event)
    requires Inv(s) && Enabled(s, e) && !e.Receive?
    ensures NewRelays(s.table.net, Next(s, e).table.net) == {}
  {
    if e.Announce? {
      OneSendOneRelay(s, e.c, Peers(s.conns[e.c].phase.snapshot));
    } else if e.Cleanup? {
      var Conn(ip, _, Member(_, code, sessionId, _)) := s.conns[e.c];
      BroadcastRelaysNothing(s.table.net, Senders(Keep(OtherEntry(code, sessionId), RoomAt(s.table.rooms, ip))),
                             PeerLeft(code));
    }
  }

  /** The clock, as read for connection `c`, does not run backwards. */
  ghost predicate ClockRuns(events: seq<Event>, c: ConnId) {
    forall i, j :: 0 <= i < j < |events| && IsTimed(events[i], c) && IsTimed(events[j], c) ==>
      TimeOf(events[i]) <= TimeOf(events[j])
  }

  predicate IsTimed(e: Event, c: ConnId) { (e.Receive? || e.Exchange?) && e.c == c }

  lemma {:induction false} TextTimesAreTimes(events: seq<Event>, c: ConnId, t: nat)
    requires t in TextTimes(events, c)
    ensures exists i :: 0 <= i < |events| && IsTimed(events[i], c) && TimeOf(events[i]) == t
  {
    var n := |events| - 1;
    if t in TextTimes(events[..n], c) {
      TextTimesAreTimes(events[..n], c, t);
      var i :| 0 <= i < n && IsTimed(events[..n][i], c) && TimeOf(events[..n][i]) == t;
      assert events[i] == events[..n][i];
    } else {
      assert IsTimed(events[n], c) && TimeOf(events[n]) == t;
    }
  }

  lemma {:induction false} StartTimeIsATime(events: seq<Event>, c: ConnId)
    ensures StartTime(events, c) == 0 ||
            exists i :: 0 <= i < |events| && IsTimed(events[i], c) && TimeOf(events[i]) == StartTime(events, c)
  {
    if events != [] {
      var n := |events| - 1;
      if events[n].Exchange? && events[n].c == c {
        assert IsTimed(events[n], c) && TimeOf(events[n]) == StartTime(events, c);
      } else {
        StartTimeIsATime(events[..n], c);
        if i :| 0 <= i < n && IsTimed(events[..n][i], c) && TimeOf(events[..n][i]) == StartTime(events[..n], c) {
          assert events[i] == events[..n][i];
        }
      }
    }
  }

  /** A text comes after everything before it. */
  lemma TextComesLast(events: seq<Event>, c: ConnId)
    requires events != [] && ClockRuns(events, c) && IsTimed(events[|events| - 1], c)
    ensures var n := |events| - 1;
            && StartTime(events[..n], c) <= TimeOf(events[n])
            && (forall t :: t in TextTimes(events[..n], c) ==> t <= TimeOf(events[n]))
  {
    var n := |events| - 1;
    StartTimeIsATime(events[..n], c);
    if i :| 0 <= i < n && IsTimed(events[..n][i], c) && TimeOf(events[..n][i]) == StartTime(events[..n], c) {
      assert events[i] == events[..n][i];
    }
    forall t | t in TextTimes(events[..n], c) ensures t <= TimeOf(events[n]) {
      TextTimesAreTimes(events[..n], c, t);
      var i :| 0 <= i < n && IsTimed(events[..n][i], c) && TimeOf(events[..n][i]) == t;
      assert events[i] == events[..n][i];
    }
  }

  lemma OrderedOneMore(t0: nat, times: seq<nat>, now: nat)
    requires Ordered(t0, times) && t0 <= now && forall t :: t in times ==> t <= now
    ensures Ordered(t0, times + [now])
  {
    forall i | 0 <= i < |times| ensures times[i] <= now { assert times[i] in times; }
  }

  lemma {:induction false} TextTimesAreOrdered(max: nat, events: seq<Event>, c: ConnId)
    requires Exec(Start(max), events).Some? && ClockRuns(events, c)
    ensures Ordered(StartTime(events, c), TextTimes(events, c))
  {
    if events != [] {
      var n := |events| - 1;
      TextTimesAreOrdered(max, events[..n], c);
      LimiterFollowsTheTexts(max, events[..n], c);
      var e := events[n];
      if IsTimed(e, c) { TextComesLast(events, c); }
      if e.Receive? && e.c == c && e.frame.Text? {
        OrderedOneMore(StartTime(events[..n], c), TextTimes(events[..n], c), e.now);
      }
    }
  }

  /** One text more: how many of the texts were accepted. */
  lemma AcceptedOneMore(t0: nat, times: seq<nat>, now: nat, from: nat, to: nat)
    ensures Accepted(t0, times + [now], from, to) ==
            Accepted(t0, times, from, to) +
            (if from <= now < to && Check(After(t0, times), now).1.Accept? then 1 else 0)
  {
    assert (times + [now])[..|times|] == times;
  }

  lemma CausedIsAccepted(s: State, events: seq<Event>, c: ConnId, from: nat, to: nat)
    requires events != [] && Inv(s) && Enabled(s, events[|events| - 1])
    requires LimiterFollows(s, events[..|events| - 1], c)
    ensures var n := |events| - 1;
            Accepted(StartTime(events[..n], c), TextTimes(events[..n], c), from, to) + Caused(s, events[n], c, from, to)
            <= Accepted(StartTime(events, c), TextTimes(events, c), from, to)
  {
    var n := |events| - 1;
    var e, t0, times := events[n], StartTime(events[..n], c), TextTimes(events[..n], c);
    assert times + [] == times;
    if e.Receive? && e.c == c {
      ReceivingRelays(s, c, e.now, e.frame);
      if e.frame.Text? { AcceptedOneMore(t0, times, e.now, from, to); }
    } else if e.Exchange? && e.c == c {
      assert times == [];
    }
  }

  lemma {:induction false} RelaysAreAcceptedTexts(max: nat, events: seq<Event>, c: ConnId, from: nat, to: nat)
    requires Exec(Start(max), events).Some?
    ensures RelayedBy(Start(max), events, c, from, to) <=
            Accepted(StartTime(events, c), TextTimes(events, c), from, to)
  {
    if events != [] {
      var n := |events| - 1;
      RelaysAreAcceptedTexts(max, events[..n], c, from, to);
      LimiterFollowsTheTexts(max, events[..n], c);
      CausedIsAccepted(Exec(Start(max), events[..n]).value, events, c, from, to);
    }
  }

  lemma AtMostTheRate(relays: nat, t0: nat, times: seq<nat>, from: nat, to: nat, k: nat)
    requires Ordered(t0, times) && k >= 1 && to == from + k * 1_000_000_000
    requires relays <= Accepted(t0, times, from, to)
    ensures relays <= 50 * (k + 1)
  {
    RateBound(t0, times, from, k);
  }

  /** In every run of the server a connection causes at most 50(k + 1) relays within any
      half-open interval of k seconds, on all channels together. */
  lemma RelaysAreBounded(max: nat, events: seq<Event>, c: ConnId, from: nat, to: nat, k: nat)
    requires Exec(Start(max), events).Some? && ClockRuns(events, c)
    requires k >= 1 && to == from + k * 1_000_000_000
    ensures RelayedBy(Start(max), events, c, from, to) <= 50 * (k + 1)
  {
    RelaysAreAcceptedTexts(max, events, c, from, to);
    TextTimesAreOrdered(max, events, c);
    AtMostTheRate(RelayedBy(Start(max), events, c, from, to), StartTime(events, c), TextTimes(events, c), from, to, k);
  }
}
