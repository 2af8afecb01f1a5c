/** The native session state: phase, connected peer, pending peers, trust and generation.

    The functions here say what each call and each daemon event does. */
module Sessions {
  import opened Wire
  import opened Pins

  datatype Trust =
    | Unverified(sas: string)
    | Verified
    | Legacy
    | Mismatch(deviceName: string, oldKeyPrefix: string)

  datatype PeerSession = PeerSession(
    peerCode: string, deviceName: string, deviceType: string, trust: Trust, identityKey: Option<string>)

  datatype DiscoveredPeer = DiscoveredPeer(peerCode: string, deviceName: string, deviceType: string)

  datatype PairingRequest = PairingRequest(requestId: string, deviceName: string, deviceType: string, sas: string)

  /** `Disconnected` is shown to the user only; the contract knows the other five. */
  datatype Phase = Idle | Requesting | IncomingRequest | Connecting | Connected | Disconnected(reason: string)

  /** `attached`: the bridge to the daemon is open. `trail` records the contract phase after
      every assignment to `phase`. */
  datatype Session = Session(
    phase: Phase,
    connectedPeer: Option<PeerSession>,
    peerCount: nat,
    pendingRequest: Option<PairingRequest>,
    pendingAccept: Option<PeerSession>,
    pendingInitiator: Option<DiscoveredPeer>,
    generation: nat,
    attached: bool,
    online: bool,
    pins: Option<PinMap>,
    trail: seq<Phase>)

  function Canonical(p: Phase): Phase { if p.Disconnected? then Idle else p }

  function Initial(): Session {
    Session(Idle, None, 0, None, None, None, 0, false, false, None, [Idle])
  }

  function Enter(s: Session, p: Phase): Session {
    s.(phase := p, trail := s.trail + [Canonical(p)])
  }

  // ---- Phase transitions ----

  function Cleared(s: Session): Session {
    s.(connectedPeer := None, peerCount := 0, pendingRequest := None, pendingAccept := None, pendingInitiator := None)
  }

  function Reset(s: Session): Session {
    Cleared(Enter(s.(generation := s.generation + 1), Idle))
  }

  function Disconnect(s: Session, reason: string): Session { Cleared(Enter(s, Disconnected(reason))) }

  function ResetIfDisconnected(s: Session): Session { if s.phase.Disconnected? then Reset(s) else s }

  function BeginRequest(s: Session, peer: DiscoveredPeer): Session {
    var s := ResetIfDisconnected(s);
    if s.phase.Idle? then Enter(s, Requesting).(pendingInitiator := Some(peer)) else s
  }

  function ReceiveRequest(s: Session): Session {
    var s := ResetIfDisconnected(s);
    if s.phase.Idle? then Enter(s, IncomingRequest) else s
  }

  predicate CanBeginConnecting(s: Session) { s.phase.Requesting? || s.phase.IncomingRequest? }

  function BeginConnecting(s: Session): Session {
    if CanBeginConnecting(s) then Enter(s, Connecting) else s
  }

  function MarkConnected(s: Session): Session {
    if s.phase.Connecting? then Enter(s, Connected) else s
  }

  function Stop(s: Session): Session { Reset(s.(attached := false, online := false)) }

  // ---- User decisions ----

  function SetTrust(s: Session, trust: Trust): Session {
    if s.connectedPeer.Some? then s.(connectedPeer := Some(s.connectedPeer.value.(trust := trust))) else s
  }

  function MarkVerified(s: Session): Session { SetTrust(s, Verified) }

  function Decide(s: Session, allow: bool): Session {
    if !s.attached then s
    else
      var s := if allow && s.pendingRequest.Some? then
                 var r := s.pendingRequest.value;
                 s.(pendingAccept := Some(PeerSession(r.requestId, r.deviceName, r.deviceType,
                                                      if r.sas == "" then Legacy else Unverified(r.sas), None)))
               else s;
      s.(pendingRequest := None)
  }

  /** The accept button of an incoming request. */
  function AcceptIncoming(s: Session, from: DiscoveredPeer): Session {
    if CanBeginConnecting(s) then
      var peer := PeerSession(from.peerCode, from.deviceName, from.deviceType, Legacy, None);
      BeginConnecting(s).(pendingAccept := Some(peer))
    else s.(pendingAccept := None)
  }

  // ---- Daemon events ----

  datatype IpcEvent =
    | PairingRequested(request: PairingRequest)
    | StatusUpdate(peers: nat)
    | SessionConnected(remoteId: Option<string>)
    | SessionSas(sas: Option<string>, key: Option<string>)
    | SessionEnded(reason: string)
    | SessionError(reason: string)
    | BridgeDisconnected
    | Other  // transfer events and everything unknown

  /** The stashed peer becomes the connected one: an accepted peer first, then the peer
      this device asked for, then a nameless one. */
  function Adopt(s: Session, remoteId: Option<string>): Session {
    if s.pendingAccept.Some? then
      s.(connectedPeer := Some(s.pendingAccept.value.(identityKey := remoteId)), pendingAccept := None)
    else if s.pendingInitiator.Some? then
      var t := s.pendingInitiator.value;
      var code := if remoteId.Some? then remoteId.value else t.peerCode;
      var peer := PeerSession(code, t.deviceName, t.deviceType, Legacy, remoteId);
      s.(connectedPeer := Some(peer), pendingInitiator := None)
    else if remoteId.Some? then
      s.(connectedPeer := Some(PeerSession(remoteId.value, "Peer", "desktop", Legacy, remoteId)))
    else s
  }

  function OnConnected(s: Session, remoteId: Option<string>): Session {
    var s := BeginConnecting(s);
    if s.phase.Connecting? then Adopt(MarkConnected(s), remoteId) else s
  }

  function PresentedKey(s: Session, key: Option<string>): Option<string> {
    if key.Some? then key else if s.connectedPeer.Some? then s.connectedPeer.value.identityKey else None
  }

  function PeerName(s: Session): Option<string> {
    if s.connectedPeer.Some? then Some(s.connectedPeer.value.deviceName) else None
  }

  ghost function SasMismatch(s: Session, key: Option<string>): Option<string> {
    var presented := PresentedKey(s, key);
    if presented.Some? && s.connectedPeer.Some? && s.pins.Some?
    then MismatchOf(s.pins.value, presented.value, s.connectedPeer.value.deviceName)
    else None
  }

  function SetKey(s: Session, key: string): Session {
    if s.connectedPeer.Some? then s.(connectedPeer := Some(s.connectedPeer.value.(identityKey := Some(key)))) else s
  }

  function PinKey(s: Session, key: string): Session {
    if s.pins.Some? then s.(pins := Some(AfterPin(s.pins.value, key, PeerName(s)))) else s
  }

  ghost function OnSas(s: Session, sas: Option<string>, key: Option<string>): Session {
    var presented := PresentedKey(s, key);
    var oldKey := SasMismatch(s, key);
    if sas.None? then s
    else if oldKey.Some? then
      SetKey(SetTrust(s, Mismatch(s.connectedPeer.value.deviceName, oldKey.value)), presented.value)
    else
      var s := SetTrust(s, Unverified(sas.value));
      if presented.Some? then PinKey(SetKey(s, presented.value), presented.value) else s
  }

  ghost function OnIpc(s: Session, e: IpcEvent): Session {
    match e
    case PairingRequested(request) => s.(pendingRequest := Some(request))
    case StatusUpdate(peers) =>
      var s := s.(peerCount := peers);
      if peers == 0 && s.phase.Connected? then Disconnect(s, "peer disconnected") else s
    case SessionConnected(remoteId) => OnConnected(s, remoteId)
    case SessionSas(sas, key) => OnSas(s, sas, key)
    case SessionEnded(reason) => Disconnect(s, reason)
    case SessionError(reason) => Disconnect(s, reason)
    case BridgeDisconnected => Stop(Disconnect(s.(online := false), "bridge lost"))
    case Other => s
  }

  // ---- WebTransport sessions, seen only in the daemon's log ----

  function OnWtSas(s: Session, sas: Option<string>): Session {
    if sas.Some? && s.phase.Connected? then SetTrust(s, Unverified(sas.value)) else s
  }

  function OnWtUp(s: Session, sas: Option<string>): Session {
    if !s.phase.Connecting? then s
    else
      var s := MarkConnected(s);
      var s := if s.pendingAccept.Some? then
                 s.(connectedPeer := s.pendingAccept, pendingAccept := None)
               else if s.pendingInitiator.Some? then
                 var t := s.pendingInitiator.value;
                 var peer := PeerSession(t.peerCode, t.deviceName, t.deviceType, Legacy, None);
                 s.(connectedPeer := Some(peer), pendingInitiator := None)
               else s;
      OnWtSas(s, sas)
  }

  function OnWtDown(s: Session): Session {
    if s.phase.Connected? then Disconnect(s, "WT session ended") else s
  }

  // ---- Transfer gating ----

  predicate IsTransferAllowed(phase: Phase, trust: Trust) {
    phase.Connected? && (trust.Verified? || trust.Legacy?)
  }

  /** What the session view tests before it shows the transfer area. */
  predicate TransferAllowed(s: Session) {
    s.connectedPeer.Some? && IsTransferAllowed(s.phase, s.connectedPeer.value.trust)
  }

  /** The approve button is part of the prompt that an unverified peer is shown with. */
  predicate ApproveOffered(s: Session) {
    s.phase.Connected? && s.connectedPeer.Some? && s.connectedPeer.value.trust.Unverified?
  }

  // ---- Steps and runs ----

  datatype Step =
    | Ipc(event: IpcEvent)
    | Attach(loaded: Option<PinMap>, success: bool)  // start(); `loaded` is the stored pin file
    | Observe(online: bool)
    | UserRequests(peer: DiscoveredPeer)
    | RequestArrives
    | RemoteAccepts
    | UserAccepts(from: DiscoveredPeer)
    | UserDecides(allow: bool)
    | UserApproves
    | UserDisconnects(reason: string)
    | UserDismisses
    | ResetAll  // cancel, decline, or declined by the other side
    | StopBridge
    | WtUp(wtSas: Option<string>)
    | WtSas(wtSas: Option<string>)
    | WtDown

  function OnAttach(s: Session, loaded: Option<PinMap>, success: bool): Session {
    var s := s.(pins := if s.pins.None? then loaded else s.pins);
    if s.attached then s else s.(attached := success, online := success)
  }

  predicate Enabled(s: Session, e: Step) {
    (e.Ipc? || e.Observe? ==> s.attached) && (e.UserApproves? ==> ApproveOffered(s))
  }

  ghost function Next(s: Session, e: Step): Session {
    match e
    case Ipc(event) => OnIpc(s, event)
    case Attach(loaded, success) => OnAttach(s, loaded, success)
    case Observe(online) => s.(online := online)
    case UserRequests(peer) => BeginRequest(s, peer)
    case RequestArrives => ReceiveRequest(s)
    case RemoteAccepts => BeginConnecting(s)
    case UserAccepts(from) => AcceptIncoming(s, from)
    case UserDecides(allow) => Decide(s, allow)
    case UserApproves => MarkVerified(s)
    case UserDisconnects(reason) => Disconnect(s, reason)
    case UserDismisses => ResetIfDisconnected(s)
    case ResetAll => Reset(s)
    case StopBridge => Stop(s)
    case WtUp(sas) => OnWtUp(s, sas)
    case WtSas(sas) => OnWtSas(s, sas)
    case WtDown => OnWtDown(s)
  }

  /** The state after a run, or `None` if some step was not possible. */
  ghost function Exec(s: Session, steps: seq<Step>): Option<Session> {
    if steps == [] then Some(s)
    else
      var n := |steps| - 1;
      match Exec(s, steps[..n])
      case None => None
      case Some(m) => if Enabled(m, steps[n]) then Some(Next(m, steps[n])) else None
  }
}
