/** What a handler does with each frame it reads: which error its client gets, and what ends it. */
module Handling {
  import opened Wire
  import opened Utf8Text
  import opened PeerCodes
  import opened RateLimit
  import opened Channels
  import opened Rooms
  import opened Server
  import opened ServerInvariant
  import opened ServerTheorems

  /** The client of `c` is sent this error and nobody else is sent anything; no room changes,
      and the handler goes on as before. */
  ghost predicate Refuses(s: State, s': State, c: ConnId, text: ErrorText) {
    && SendsOnly(s, s', c, Error(text))
    && s'.conns.Keys == s.conns.Keys && c in s.conns && s'.conns[c].phase == s.conns[c].phase
  }

  /** The handler of `c` stops reading: a member goes on to its cleanup, another one is done. */
  ghost predicate Stops(s: State, s': State, c: ConnId) {
    && s'.conns.Keys == s.conns.Keys && c in s.conns
    && (if s.conns[c].phase.Member?
        then s'.conns[c].phase == s.conns[c].phase.(stage := Closing)
        else s'.conns[c].phase == Done)
  }

  function TextVerdict(s: State, c: ConnId, now: nat): Verdict
    requires c in s.conns
  {
    Check(s.conns[c].limiter, now).1
  }

  // ---- Before the content is looked at ----

  /** A text over the rate is answered with that error, whatever it says. */
  lemma RejectedTextsAreRefused(s: State, c: ConnId, now: nat, size: nat, content: Option<ClientMessage>)
    requires Enabled(s, Receive(c, now, Text(size, content))) && TextVerdict(s, c, now).Reject?
    ensures Refuses(s, Next(s, Receive(c, now, Text(size, content))), c, RateLimited)
  {
    SendingSendsOnly(WithLimiter(s, c, Check(s.conns[c].limiter, now).0), c, Error(RateLimited));
  }

  /** The third such text in a row stops the handler; nobody is sent anything. */
  lemma ClosingTextsStopTheHandler(s: State, c: ConnId, now: nat, size: nat, content: Option<ClientMessage>)
    requires Enabled(s, Receive(c, now, Text(size, content))) && TextVerdict(s, c, now).Close?
    ensures var s' := Next(s, Receive(c, now, Text(size, content)));
            s'.table == s.table && Stops(s, s', c)
  {}

  /** A text of more than 1 MiB is answered with its size, whatever it says. */
  lemma OversizedTextsAreRefused(s: State, c: ConnId, now: nat, size: nat, content: Option<ClientMessage>)
    requires Enabled(s, Receive(c, now, Text(size, content))) && TextVerdict(s, c, now).Accept?
    requires size > 1024 * 1024
    ensures Refuses(s, Next(s, Receive(c, now, Text(size, content))), c, MessageTooLarge(size))
  {
    SendingSendsOnly(WithLimiter(s, c, Check(s.conns[c].limiter, now).0), c, Error(MessageTooLarge(size)));
  }

  // ---- Registration ----

  /** The text passed the rate limit and the size limit before the client registered. */
  ghost predicate ReachesRegistration(s: State, c: ConnId, now: nat, size: nat) {
    && c in s.conns && s.conns[c].phase.Registering?
    && TextVerdict(s, c, now).Accept? && size <= 1024 * 1024
  }

  lemma RegistrationTexts(s: State, c: ConnId, now: nat, size: nat, content: Option<ClientMessage>)
    requires ReachesRegistration(s, c, now, size)
    ensures Next(s, Receive(c, now, Text(size, content))) ==
            Enroll(WithLimiter(s, c, Check(s.conns[c].limiter, now).0), c, content)
  {}

  /** Anything but a `register` message, and one with a device name of more than 256 bytes,
      earns an error and leaves the handler waiting for a registration. */
  lemma NonRegistrationsAreRefused(s: State, c: ConnId, now: nat, size: nat, content: Option<ClientMessage>)
    requires ReachesRegistration(s, c, now, size)
    ensures var s' := Next(s, Receive(c, now, Text(size, content)));
            && (content.None? ==> Refuses(s, s', c, Malformed))
            && (content.Some? && !content.value.Register? ==> Refuses(s, s', c, RegisterFirst))
            && (content.Some? && content.value.Register? && |Utf8(content.value.peer.deviceName)| > 256 ==>
                  Refuses(s, s', c, DeviceNameTooLong))
  {
    RegistrationTexts(s, c, now, size, content);
    var m := WithLimiter(s, c, Check(s.conns[c].limiter, now).0);
    forall text: ErrorText ensures SendsOnly(m, Reply(m, c, text), c, Error(text)) {
      SendingSendsOnly(m, c, Error(text));
    }
    if content.Some? && content.value.Register? { Utf8LenCountsBytes(content.value.peer.deviceName); }
  }

  /** What a registration under `code` comes to in the room: an error for a refused peer,
      which ends the handler, or membership. */
  ghost predicate EntersOrStops(s: State, s': State, c: ConnId, code: string, peer: PeerData)
    requires c in s.conns
  {
    match AfterAdd(s.table, s.conns[c].ip, PeerInfo(peer.(peerCode := code), c, 0)).1
    case Err(e) => SendsOnly(s, s', c, Error(e)) && Stops(s, s', c)
    case Ok((snapshot, session)) => c in s'.conns && s'.conns[c].phase == Member(Added, code, session, snapshot)
  }

  /** A registration with an invalid code is told so and ends the handler; one with a valid
      code goes to the room. */
  lemma RegistrationOutcome(s: State, c: ConnId, now: nat, size: nat, peer: PeerData)
    requires RoomsOk(s) && ReachesRegistration(s, c, now, size) && |Utf8(peer.deviceName)| <= 256
    ensures var s', r := Next(s, Receive(c, now, Text(size, Some(Register(peer))))), ValidatePeerCode(peer.peerCode);
            && (r.Err? ==> SendsOnly(s, s', c, Error(InvalidCode(r.error))) && Stops(s, s', c))
            && (r.Ok? ==> EntersOrStops(s, s', c, r.value, peer))
  {
    RegistrationTexts(s, c, now, size, Some(Register(peer)));
    var m := WithLimiter(s, c, Check(s.conns[c].limiter, now).0);
    Utf8LenCountsBytes(peer.deviceName);
    match ValidatePeerCode(peer.peerCode)
    case Err(e) => SendingSendsOnly(m, c, Error(InvalidCode(e)));
    case Ok(code) =>
      var info := PeerInfo(peer.(peerCode := code), c, 0);
      RefusalIsExactAndHarmless(s.table, s.conns[c].ip, info);
      var (table, r) := AfterAdd(s.table, s.conns[c].ip, info);
      if r.Err? { SendingSendsOnly(m.(table := table), c, Error(r.error)); }
  }

  // ---- Members ----

  /** A member's texts that are neither signals: a ping does nothing, a second `register`
      message and a text that does not parse earn an error. */
  lemma OtherMemberTexts(s: State, c: ConnId, now: nat, size: nat, content: Option<ClientMessage>)
    requires Accepts(s, c, now, size)
    ensures var s' := Next(s, Receive(c, now, Text(size, content)));
            && (content == Some(Ping) ==> s'.table == s.table && s'.conns.Keys == s.conns.Keys
                                          && s'.conns[c].phase == s.conns[c].phase)
            && (content.Some? && content.value.Register? ==> Refuses(s, s', c, AlreadyRegistered))
            && (content.None? ==> Refuses(s, s', c, Malformed))
  {
    AcceptedMessagesAreServed(s, c, now, size, content);
    var m := WithLimiter(s, c, Check(s.conns[c].limiter, now).0);
    SendingSendsOnly(m, c, Error(AlreadyRegistered));
    SendingSendsOnly(m, c, Error(Malformed));
  }

  // ---- Frames that are no text ----

  /** A binary frame earns an error, a control frame nothing; the end of the stream and the
      idle timeout stop the handler silently. */
  lemma OtherFrames(s: State, c: ConnId, now: nat)
    requires c in s.conns && InLoop(s.conns[c])
    ensures Refuses(s, Next(s, Receive(c, now, Binary)), c, BinaryNotAccepted)
    ensures Next(s, Receive(c, now, Control)) == s
    ensures Next(s, Receive(c, now, Gone)).table == s.table && Stops(s, Next(s, Receive(c, now, Gone)), c)
    ensures s.conns[c].phase.Member? ==>
              Next(s, TimeOut(c)).table == s.table && Stops(s, Next(s, TimeOut(c)), c)
  {
    SendingSendsOnly(s, c, Error(BinaryNotAccepted));
  }

  // ---- What ends a handler ----

  /** A registration that is refused for good: an invalid code, or no place in the room. */
  predicate IsTurnedAway(s: State, c: ConnId, content: Option<ClientMessage>)
    requires c in s.conns
  {
    && content.Some? && content.value.Register?
    && var peer := content.value.peer;
       && |Utf8(peer.deviceName)| <= 256
       && (ValidatePeerCode(peer.peerCode).Ok? ==>
             AfterAdd(s.table, s.conns[c].ip,
                      PeerInfo(peer.(peerCode := ValidatePeerCode(peer.peerCode).value), c, 0)).1.Err?)
  }

  /** The idle timeout, the end of the stream, a text so far over the rate that it closes, or
      a registration that is turned away. */
  ghost predicate EndsHandler(s: State, e: Event, c: ConnId)
    requires c in s.conns
  {
    || e == TimeOut(c)
    || (e.Receive? && e.c == c && e.frame.Gone?)
    || (e.Receive? && e.c == c && e.frame.Text?
        && (TextVerdict(s, c, e.now).Close?
            || (ReachesRegistration(s, c, e.now, e.frame.size) && IsTurnedAway(s, c, e.frame.content))))
  }

  predicate HasStopped(phase: Phase) { phase.Done? || (phase.Member? && phase.stage.Closing?) }

  lemma TextEndsExactly(s: State, c: ConnId, now: nat, size: nat, content: Option<ClientMessage>)
    requires RoomsOk(s) && Enabled(s, Receive(c, now, Text(size, content)))
    ensures var s' := Next(s, Receive(c, now, Text(size, content)));
            && c in s'.conns
            && (HasStopped(s'.conns[c].phase) <==> EndsHandler(s, Receive(c, now, Text(size, content)), c))
  {
    if TextVerdict(s, c, now).Close? {
      ClosingTextsStopTheHandler(s, c, now, size, content);
    } else if TextVerdict(s, c, now).Reject? {
      RejectedTextsAreRefused(s, c, now, size, content);
    } else if size > 1024 * 1024 {
      OversizedTextsAreRefused(s, c, now, size, content);
    } else if s.conns[c].phase.Member? {
      AcceptedMessagesAreServed(s, c, now, size, content);
      ServeKeepsConns(WithLimiter(s, c, Check(s.conns[c].limiter, now).0), c, content);
    } else {
      NonRegistrationsAreRefused(s, c, now, size, content);
      if content.Some? && content.value.Register? && |Utf8(content.value.peer.deviceName)| <= 256 {
        RegistrationOutcome(s, c, now, size, content.value.peer);
      }
    }
  }

  /** A handler that reads stops reading exactly at these events. */
  lemma HandlerEndsExactly(s: State, e: Event, c: ConnId)
    requires RoomsOk(s) && Enabled(s, e) && c in s.conns && InLoop(s.conns[c])
    ensures c in Next(s, e).conns
    ensures HasStopped(Next(s, e).conns[c].phase) <==> EndsHandler(s, e, c)
  {
    if e.Load? || e.c != c {
      StepKeepsOtherConns(s, e, c);
    } else if e.Receive? && e.frame.Text? {
      TextEndsExactly(s, c, e.now, e.frame.size, e.frame.content);
    } else if e.Receive? {
      OtherFrames(s, c, e.now);
    }
  }

  // ---- Every handler can finish ----

  lemma {:induction false} ExecFromFront(s: State, e: Event, rest: seq<Event>)
    requires Enabled(s, e) && Exec(Next(s, e), rest).Some?
    ensures Exec(s, [e] + rest) == Exec(Next(s, e), rest)
  {
    var events := [e] + rest;
    if rest == [] {
      assert events == [e] && events[..0] == [];
    } else {
      ExecFromFront(s, e, rest[..|rest| - 1]);
      assert events[..|events| - 1] == [e] + rest[..|rest| - 1];
    }
  }

  /** What the handler of `c` can do on its own when its client sends nothing more. */
  function NextOwn(s: State, c: ConnId): Event
    requires c in s.conns
  {
    match s.conns[c].phase
    case Registering => Receive(c, 0, Gone)
    case Member(Added, _, _, _) => Announce(c)
    case Member(Looping, _, _, _) => TimeOut(c)
    case Member(Closing, _, _, _) => Cleanup(c)
    case Done => Release(c)
  }

  function StepsLeft(phase: Phase): nat {
    match phase
    case Registering => 2
    case Member(Added, _, _, _) => 4
    case Member(Looping, _, _, _) => 3
    case Member(Closing, _, _, _) => 2
    case Done => 1
  }

  lemma OwnStep(s: State, c: ConnId)
    requires Inv(s) && c in s.conns && !s.conns[c].phase.Done?
    ensures var e := NextOwn(s, c);
            && Enabled(s, e) && Next(s, e).slots == s.slots && c in Next(s, e).conns
            && StepsLeft(Next(s, e).conns[c].phase) < StepsLeft(s.conns[c].phase)
  {
    OthersKeepSlots(s, NextOwn(s, c));
  }

  /** From every reachable state, whatever the other handlers do not do, a connection can run
      to its end within four steps of its own, and frees its slot. */
  lemma {:induction false} EveryConnectionCanFinish(s: State, c: ConnId) returns (events: seq<Event>)
    requires Inv(s) && c in s.conns
    ensures |events| <= 4 && (forall e :: e in events ==> !e.Load? && e.c == c)
    ensures Exec(s, events).Some?
    ensures var s' := Exec(s, events).value;
            c !in s'.conns && s'.slots.active == s.slots.active - 1 && s'.slots.guards == s.slots.guards - {c}
    ensures |events| == StepsLeft(s.conns[c].phase)
    decreases StepsLeft(s.conns[c].phase)
  {
    var e := NextOwn(s, c);
    if s.conns[c].phase.Done? {
      events := [e];
      ExecFromFront(s, e, []);
    } else {
      OwnStep(s, c);
      StepKeepsInv(s, e);
      var rest := EveryConnectionCanFinish(Next(s, e), c);
      events := [e] + rest;
      ExecFromFront(s, e, rest);
    }
  }
}
