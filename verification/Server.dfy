/** The rendezvous server as a step system: the accept loop's slot protocol, the lifecycle of
    every connection, the rooms and the channels.

    A connection handler registers, announces the room to its own client, serves messages
    and finally removes itself. Handlers run concurrently; here their atomic actions are
    interleaved in any order. */
module Server {
  import opened Wire
  import opened Utf8Text
  import opened PeerCodes
  import opened RateLimit
  import opened Channels
  import opened Rooms
  import Slots

  const MAX_MESSAGE_BYTES: nat := 1_048_576
  const MAX_DEVICE_NAME_BYTES: nat := 256

  type ConnId = nat

  /** `Added`: in the room, the `Peers` message not yet sent. `Looping`: serving messages.
      `Closing`: the loop is left, cleanup not yet done. */
  datatype Stage = Added | Looping | Closing

  datatype Phase =
    | Registering
    | Member(stage: Stage, code: string, sessionId: nat, snapshot: seq<PeerData>)
    | Done

  /** `ip` is the room key. */
  datatype Conn = Conn(ip: string, limiter: Limiter, phase: Phase)

  datatype State = State(slots: Slots.Slots, table: Table, conns: map<ConnId, Conn>)

  /** What a handler reads from its socket; `content` is `None` for text that does not parse. */
  datatype Frame = Text(size: nat, content: Option<ClientMessage>) | Binary | Control | Gone

  datatype Event =
    | Load(t: Slots.ThreadId)
    | Exchange(t: Slots.ThreadId, c: ConnId, ip: string, now: nat)
    | Receive(c: ConnId, now: nat, frame: Frame)
    | Announce(c: ConnId)
    | TimeOut(c: ConnId)
    | Cleanup(c: ConnId)
    | Release(c: ConnId)
    | CloseChannel(c: ConnId)

  function Start(max: nat): State {
    State(Slots.Empty(max), Table(map[], 1, Network(map[], {})), map[])
  }

  // ---- Effects of a handler ----

  function WithPhase(s: State, c: ConnId, phase: Phase): State
    requires c in s.conns
  {
    s.(conns := s.conns[c := s.conns[c].(phase := phase)])
  }

  function SendTo(s: State, c: ConnId, msg: ServerMessage): State {
    s.(table := s.table.(net := s.table.net.Send(c, msg)))
  }

  function Reply(s: State, c: ConnId, text: ErrorText): State { SendTo(s, c, Error(text)) }

  /** Leaving the message loop, or the handler before registration. */
  function Leave(s: State, c: ConnId): State
    requires c in s.conns
  {
    var phase := s.conns[c].phase;
    WithPhase(s, c, if phase.Member? then phase.(stage := Closing) else Done)
  }

  /** A validated `register` message: join the room, or report why not and return. */
  function Join(s: State, c: ConnId, code: string, peer: PeerData): State
    requires c in s.conns
  {
    var (table, r) := AfterAdd(s.table, s.conns[c].ip, PeerInfo(peer.(peerCode := code), c, 0));
    var s := s.(table := table);
    match r
    case Ok((existing, sessionId)) => WithPhase(s, c, Member(Added, code, sessionId, existing))
    case Err(e) => WithPhase(Reply(s, c, e), c, Done)
  }

  function Enroll(s: State, c: ConnId, content: Option<ClientMessage>): State
    requires c in s.conns
  {
    match content
    case Some(Register(peer)) =>
      if Utf8Len(peer.deviceName) > MAX_DEVICE_NAME_BYTES then Reply(s, c, DeviceNameTooLong)
      else (match ValidatePeerCode(peer.peerCode)
            case Err(e) => WithPhase(Reply(s, c, InvalidCode(e)), c, Done)
            case Ok(code) => Join(s, c, code, peer))
    case Some(_) => Reply(s, c, RegisterFirst)
    case None => Reply(s, c, Malformed)
  }

  /** Relays to a found channel; a closed one is reported to the sender. */
  function RelayTo(s: State, c: ConnId, code: string, target: ChannelId, to: string, payload: Payload): State {
    if s.table.net.IsOpen(target) then SendTo(s, target, Relay(code, payload))
    else Reply(s, c, PeerGone(to))
  }

  /** The entry of a room that holds a code, if any. */
  ghost function Lookup(rooms: RoomMap, ip: string, code: string): Option<PeerInfo> {
    if exists p :: HasCode(rooms, ip, p, code)
    then var p :| HasCode(rooms, ip, p, code); Some(p)
    else None
  }

  /** The answer of the manual lookup; `LookupAnswerIsUnique` says there is only one. */
  ghost function ManualLookup(rooms: RoomMap, code: string): ManualPeerLookup {
    if exists r :: LookupAnswer(rooms, code, r)
    then var r :| LookupAnswer(rooms, code, r); r
    else NotFound
  }

  ghost function Serve(s: State, c: ConnId, content: Option<ClientMessage>): State
    requires c in s.conns && s.conns[c].phase.Member?
  {
    var Conn(ip, _, Member(_, code, _, _)) := s.conns[c];
    match content
    case Some(Signal(to, payload)) =>
      (match ValidateSignalTarget(to)
       case Err(e) => Reply(s, c, InvalidCode(e))
       case Ok(target) =>
         (match Lookup(s.table.rooms, ip, target)
          case Some(p) => RelayTo(s, c, code, p.sender, target, payload)
          case None => Reply(s, c, PeerNotFound(target))))
    case Some(ManualSignal(to, payload)) =>
      (match ValidateSignalTarget(to)
       case Err(e) => Reply(s, c, InvalidCode(e))
       case Ok(target) =>
         (match ManualLookup(s.table.rooms, target)
          case Found(sender) => RelayTo(s, c, code, sender, target, payload)
          case Ambiguous => Reply(s, c, PeerAmbiguous(target))
          case NotFound => Reply(s, c, PeerNotFound(target))))
    case Some(Ping) => s
    case Some(Register(_)) => Reply(s, c, AlreadyRegistered)
    case None => Reply(s, c, Malformed)
  }

  ghost function OnText(s: State, c: ConnId, now: nat, size: nat, content: Option<ClientMessage>): State
    requires c in s.conns
  {
    var (limiter, verdict) := Check(s.conns[c].limiter, now);
    var s := s.(conns := s.conns[c := s.conns[c].(limiter := limiter)]);
    match verdict
    case Close => Leave(s, c)
    case Reject => Reply(s, c, RateLimited)
    case Accept =>
      if size > MAX_MESSAGE_BYTES then Reply(s, c, MessageTooLarge(size))
      else if s.conns[c].phase.Member? then Serve(s, c, content)
      else Enroll(s, c, content)
  }

  // ---- Steps ----

  predicate InLoop(conn: Conn) {
    conn.phase.Registering? || (conn.phase.Member? && conn.phase.stage.Looping?)
  }

  function SlotStep(e: Event): Slots.Step
    requires e.Load? || e.Exchange? || e.Release?
  {
    match e
    case Load(t) => Slots.Load(t)
    case Exchange(t, c, _, _) => Slots.Exchange(t, c)
    case Release(c) => Slots.Drop(c)
  }

  /** Connection ids are not reused: an id names one accepted connection of the whole run. */
  predicate Enabled(s: State, e: Event) {
    match e
    case Load(t) => Slots.Enabled(s.slots, SlotStep(e))
    case Exchange(t, c, ip, now) => Slots.Enabled(s.slots, SlotStep(e)) && c !in s.table.net.history
    case Receive(c, _, _) => c in s.conns && InLoop(s.conns[c])
    case Announce(c) => c in s.conns && s.conns[c].phase.Member? && s.conns[c].phase.stage.Added?
    case TimeOut(c) => c in s.conns && s.conns[c].phase.Member? && s.conns[c].phase.stage.Looping?
    case Cleanup(c) => c in s.conns && s.conns[c].phase.Member? && s.conns[c].phase.stage.Closing?
    case Release(c) => c in s.conns && s.conns[c].phase.Done? && Slots.Enabled(s.slots, SlotStep(e))
    case CloseChannel(c) => c in s.table.net.history
  }

  ghost function Next(s: State, e: Event): State
    requires Enabled(s, e)
  {
    match e
    case Load(_) => s.(slots := Slots.Next(s.slots, SlotStep(e)))
    case Exchange(t, c, ip, now) =>
      var slots := Slots.Next(s.slots, SlotStep(e));
      if Slots.ExchangeSucceeds(s.slots, t) then
        State(slots,
              s.table.(net := s.table.net.(history := s.table.net.history[c := []])),
              s.conns[c := Conn(ip, Fresh(now), Registering)])
      else s.(slots := slots)
    case Receive(c, now, frame) =>
      (match frame
       case Text(size, content) => OnText(s, c, now, size, content)
       case Binary => Reply(s, c, BinaryNotAccepted)
       case Control => s
       case Gone => Leave(s, c))
    case Announce(c) =>
      var phase := s.conns[c].phase;
      WithPhase(SendTo(s, c, Peers(phase.snapshot)), c, phase.(stage := Looping))
    case TimeOut(c) => Leave(s, c)
    case Cleanup(c) =>
      var Conn(ip, _, Member(_, code, sessionId, _)) := s.conns[c];
      WithPhase(s.(table := AfterRemove(s.table, ip, code, sessionId)), c, Done)
    case Release(c) => s.(slots := Slots.Next(s.slots, SlotStep(e)), conns := s.conns - {c})
    case CloseChannel(c) => s.(table := s.table.(net := s.table.net.(closed := s.table.net.closed + {c})))
  }

  /** The state after a run, or `None` if some event was not possible. */
  ghost function Exec(s: State, events: seq<Event>): Option<State> {
    if events == [] then Some(s)
    else
      var n := |events| - 1;
      match Exec(s, events[..n])
      case None => None
      case Some(m) => if Enabled(m, events[n]) then Some(Next(m, events[n])) else None
  }
}
