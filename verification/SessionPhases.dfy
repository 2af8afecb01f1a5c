/** Which steps move a session, which end it, and what it starts with. */
module SessionPhases {
  import opened Wire
  import opened Pins
  import opened Sessions
  import opened SessionTheorems

  // ---- Beginning ----

  predicate CanStart(p: Phase) { p.Idle? || p.Disconnected? }

  /** The steps that take a session forward, each exactly from the phases where it counts. */
  lemma PhasesEnteredExactly(s: Session, e: Step)
    ensures var p, q := s.phase, Next(s, e).phase;
            && (q.Requesting? && q != p <==> e.UserRequests? && CanStart(p))
            && (q.IncomingRequest? && q != p <==> e.RequestArrives? && CanStart(p))
            && (q.Connecting? && q != p <==>
                  (e.RemoteAccepts? || e.UserAccepts?) && (p.Requesting? || p.IncomingRequest?))
            && (q.Connected? && q != p <==>
                  || (e.Ipc? && e.event.SessionConnected? && IsPending(p))
                  || (e.WtUp? && p.Connecting?))
  {
    if e.Ipc? { IpcEntersExactly(s, e.event); }
  }

  lemma IpcEntersExactly(s: Session, e: IpcEvent)
    ensures var p, q := s.phase, OnIpc(s, e).phase;
            && (q.Requesting? || q.IncomingRequest? || q.Connecting? ==> q == p)
            && (q.Connected? && q != p <==> e.SessionConnected? && IsPending(p))
  {
    if e.SessionSas? { SasKeepsTheRest(s, e.sas, e.key); }
  }

  // ---- Ending ----

  /** The notice that a step leaves behind when it ends a session. */
  function EndNotice(s: Session, e: Step): Option<string> {
    match e
    case Ipc(SessionEnded(reason)) => Some(reason)
    case Ipc(SessionError(reason)) => Some(reason)
    case Ipc(StatusUpdate(peers)) => if peers == 0 && s.phase.Connected? then Some("peer disconnected") else None
    case WtDown => if s.phase.Connected? then Some("WT session ended") else None
    case UserDisconnects(reason) => Some(reason)
    case _ => None
  }

  /** Steps that end whatever session there is without a notice. */
  predicate IsHardReset(e: Step) { e.ResetAll? || e.StopBridge? || e == Ipc(BridgeDisconnected) }

  /** Nothing of a session is left. */
  predicate IsClear(s: Session) {
    && s.connectedPeer.None? && s.peerCount == 0 && s.pendingRequest.None?
    && s.pendingAccept.None? && s.pendingInitiator.None?
  }

  lemma IpcEndsExactly(s: Session, e: IpcEvent)
    ensures var notice, s' := EndNotice(s, Ipc(e)), OnIpc(s, e);
            && (notice.Some? ==> s'.phase == Disconnected(notice.value) && IsClear(s'))
            && (e.BridgeDisconnected? ==> s'.phase == Idle && IsClear(s') && !s'.attached && !s'.online)
            && (notice.None? && !e.BridgeDisconnected? && !s.phase.Idle? && !s.phase.Disconnected? ==>
                  !s'.phase.Idle? && !s'.phase.Disconnected?)
            && (notice.None? && !e.BridgeDisconnected? && CanStart(s.phase) ==> s'.phase == s.phase)
  {
    if e.SessionSas? { SasKeepsTheRest(s, e.sas, e.key); }
  }

  /** What ends a session, from any phase: the step leaves its notice, or none and an idle
      phase, and either way no peer, request or stash, and transfers are blocked. No other step
      leaves a session; with these and the phases entered, every phase change is accounted for. */
  lemma SessionsEndExactly(s: Session, e: Step)
    ensures var notice, s' := EndNotice(s, e), Next(s, e);
            && (notice.Some? ==> s'.phase == Disconnected(notice.value) && IsClear(s') && !TransferAllowed(s'))
            && (IsHardReset(e) ==> s'.phase == Idle && IsClear(s') && !TransferAllowed(s'))
            && (e.UserDismisses? && s.phase.Disconnected? ==> s'.phase == Idle && IsClear(s'))
            && (!CanStart(s.phase) ==> (CanStart(s'.phase) <==> notice.Some? || IsHardReset(e)))
            && (CanStart(s.phase) && CanStart(s'.phase) && s'.phase != s.phase ==>
                  notice.Some? || IsHardReset(e) || e.UserDismisses?)
  {
    if e.Ipc? { IpcEndsExactly(s, e.event); }
  }

  predicate EndsConnected(e: Step) {
    || e.WtDown? || e.UserDisconnects? || IsHardReset(e)
    || (e.Ipc? && (e.event.SessionEnded? || e.event.SessionError? || e.event == StatusUpdate(0)))
  }

  /** A connected session stays connected exactly through the steps that are none of these. */
  lemma ConnectedEndsExactly(s: Session, e: Step)
    requires s.phase.Connected?
    ensures Next(s, e).phase.Connected? <==> !EndsConnected(e)
  {
    SessionsEndExactly(s, e);
    PhasesEnteredExactly(s, e);
  }

  ghost predicate ConnectedAt(s: Session, steps: seq<Step>, i: nat) {
    i <= |steps| && Exec(s, steps[..i]).Some? && Exec(s, steps[..i]).value.phase.Connected?
  }

  ghost predicate StaysConnected(s: Session, steps: seq<Step>) {
    forall i :: 0 <= i <= |steps| ==> ConnectedAt(s, steps, i)
  }

  /** Over a run: connected all along exactly if none of these steps is in it. */
  lemma {:induction false} StaysConnectedExactly(s: Session, steps: seq<Step>)
    requires s.phase.Connected? && Exec(s, steps).Some?
    ensures StaysConnected(s, steps) <==> forall i :: 0 <= i < |steps| ==> !EndsConnected(steps[i])
  {
    if steps != [] {
      var n := |steps| - 1;
      StaysConnectedExactly(s, steps[..n]);
      StaysConnectedByTheLast(s, steps, n);
      if StaysConnected(s, steps[..n]) { ConnectedAtTheEnd(s, steps, n); }
    } else {
      assert steps[..0] == steps;
    }
  }

  lemma StaysConnectedByTheLast(s: Session, steps: seq<Step>, n: nat)
    requires n + 1 == |steps|
    ensures StaysConnected(s, steps) <==> StaysConnected(s, steps[..n]) && ConnectedAt(s, steps, n + 1)
  {
    forall i | 0 <= i <= n ensures ConnectedAt(s, steps[..n], i) <==> ConnectedAt(s, steps, i) {
      assert steps[..n][..i] == steps[..i];
    }
  }

  lemma ConnectedAtTheEnd(s: Session, steps: seq<Step>, n: nat)
    requires n + 1 == |steps| && Exec(s, steps).Some? && StaysConnected(s, steps[..n])
    ensures ConnectedAt(s, steps, n + 1) <==> !EndsConnected(steps[n])
  {
    assert ConnectedAt(s, steps[..n], n) && steps[..n][..n] == steps[..n] && steps[..n + 1] == steps;
    ConnectedEndsExactly(Exec(s, steps[..n]).value, steps[n]);
  }

  // ---- The other fields ----

  /** The pending request, the peer count and the bridge change at these steps only, and pins
      are loaded once. */
  lemma OtherFieldsExactly(s: Session, e: Step)
    ensures var s' := Next(s, e);
            var ends := EndNotice(s, e).Some? || Resets(s, e);
            && s'.pendingRequest == (if ends || (e.UserDecides? && s.attached) then None
                                     else if e.Ipc? && e.event.PairingRequested? then Some(e.event.request)
                                     else s.pendingRequest)
            && s'.peerCount == (if ends then 0
                                else if e.Ipc? && e.event.StatusUpdate? then e.event.peers else s.peerCount)
            && s'.attached == (if e.StopBridge? || e == Ipc(BridgeDisconnected) then false
                               else if e.Attach? then s.attached || e.success else s.attached)
            && s'.online == (if e.StopBridge? || e == Ipc(BridgeDisconnected) then false
                             else if e.Observe? then e.online
                             else if e.Attach? && !s.attached then e.success else s.online)
            && (e.Attach? ==> s'.pins == if s.pins.Some? then s.pins else e.loaded)
  {
    if e.Ipc? { IpcFieldsExactly(s, e.event); }
  }

  lemma IpcFieldsExactly(s: Session, e: IpcEvent)
    ensures var s' := OnIpc(s, e);
            var ends := EndNotice(s, Ipc(e)).Some? || e.BridgeDisconnected?;
            && s'.pendingRequest == (if ends then None
                                     else if e.PairingRequested? then Some(e.request) else s.pendingRequest)
            && s'.peerCount == (if ends then 0 else if e.StatusUpdate? then e.peers else s.peerCount)
            && s'.attached == (s.attached && !e.BridgeDisconnected?)
            && s'.online == (s.online && !e.BridgeDisconnected?)
  {
    if e.SessionSas? { SasKeepsOtherFields(s, e.sas, e.key); }
  }

  lemma SasKeepsOtherFields(s: Session, sas: Option<string>, key: Option<string>)
    ensures var s' := OnSas(s, sas, key);
            && s'.pendingRequest == s.pendingRequest && s'.peerCount == s.peerCount
            && s'.attached == s.attached && s'.online == s.online
  {}

  /** The stashed peers change at these steps only: an acceptance stashes its peer if it
      comes in time, and clears the stash if not; a request stashes the peer asked for; the step
      that connects takes one of them out. */
  lemma StashesExactly(s: Session, e: Step)
    ensures var s' := Next(s, e);
            var ends := EndNotice(s, e).Some? || Resets(s, e);
            var connects := s'.phase.Connected? && !s.phase.Connected?;
            && s'.pendingAccept ==
               (if ends || connects then None
                else if e.UserAccepts? then
                  if s'.phase != s.phase
                  then Some(PeerSession(e.from.peerCode, e.from.deviceName, e.from.deviceType, Legacy, None))
                  else None
                else if e.UserDecides? && e.allow && s.attached && s.pendingRequest.Some? then
                  var r := s.pendingRequest.value;
                  Some(PeerSession(r.requestId, r.deviceName, r.deviceType,
                                   if r.sas == "" then Legacy else Unverified(r.sas), None))
                else s.pendingAccept)
            && s'.pendingInitiator ==
               (if e.UserRequests? && CanStart(s.phase) then Some(e.peer)
                else if ends || (connects && s.pendingAccept.None?) then None
                else s.pendingInitiator)
  {
    if e.Ipc? { IpcStashesExactly(s, e.event); }
  }

  lemma IpcStashesExactly(s: Session, e: IpcEvent)
    ensures var s' := OnIpc(s, e);
            var ends := EndNotice(s, Ipc(e)).Some? || e.BridgeDisconnected?;
            var connects := s'.phase.Connected? && !s.phase.Connected?;
            && s'.pendingAccept == (if ends || connects then None else s.pendingAccept)
            && s'.pendingInitiator == (if ends || (connects && s.pendingAccept.None?) then None else s.pendingInitiator)
  {
    if e.SessionSas? { SasKeepsTheRest(s, e.sas, e.key); }
  }

  // ---- Whose session it is, and what it starts with ----

  /** The code that comes with the step that connects. */
  function CodeOf(e: Step): Option<string> { if e.WtUp? then e.wtSas else None }

  /** The identity that comes with it. */
  function IdOf(e: Step): Option<string> {
    if e.Ipc? && e.event.SessionConnected? then e.event.remoteId else None
  }

  /** The peer of a new session, for every run from a request or an arriving one to the step
      that connects: the peer accepted last, with the trust it was accepted with; otherwise the
      peer asked for; otherwise one without a name, if the event names any. */
  lemma PeerOfASession(s: Session, steps: seq<Step>, e: Step)
    requires Inv(s) && Exec(s, steps).Some? && StaysPending(s, steps)
    requires Connects(e) && Next(Exec(s, steps).value, e).phase.Connected?
    ensures var accepted, s' := AcceptedPeer(s, steps), Next(Exec(s, steps).value, e);
            && s'.pendingAccept.None?
            && (accepted.Some? ==>
                  && s'.connectedPeer.Some? && s'.pendingInitiator == s.pendingInitiator
                  && s'.connectedPeer.value.peerCode == accepted.value.peerCode
                  && s'.connectedPeer.value.deviceName == accepted.value.deviceName
                  && s'.connectedPeer.value.deviceType == accepted.value.deviceType
                  && s'.connectedPeer.value.trust == AfterCode(accepted.value.trust, CodeOf(e)))
            && (accepted.None? && s.pendingInitiator.Some? ==>
                  && s'.connectedPeer.Some? && s'.pendingInitiator.None?
                  && s'.connectedPeer.value.deviceName == s.pendingInitiator.value.deviceName
                  && s'.connectedPeer.value.deviceType == s.pendingInitiator.value.deviceType
                  && s'.connectedPeer.value.trust == AfterCode(Legacy, CodeOf(e))
                  && s'.connectedPeer.value.peerCode ==
                     (if IdOf(e).Some? then IdOf(e).value else s.pendingInitiator.value.peerCode))
            && (e.Ipc? && s'.connectedPeer.Some? ==> s'.connectedPeer.value.identityKey == IdOf(e))
            && (accepted.None? && s.pendingInitiator.None? ==>
                  if IdOf(e).Some?
                  then s'.connectedPeer == Some(PeerSession(IdOf(e).value, "Peer", "desktop", Legacy, IdOf(e)))
                  else s'.connectedPeer.None?)
  {
    PendingRunKeepsStashes(s, steps);
    PendingRunKeepsInv(s, steps);
  }

  lemma {:induction false} PendingRunKeepsInv(s: Session, steps: seq<Step>)
    requires Inv(s) && Exec(s, steps).Some?
    ensures Inv(Exec(s, steps).value)
  {
    if steps != [] {
      PendingRunKeepsInv(s, steps[..|steps| - 1]);
      StepKeepsInv(Exec(s, steps[..|steps| - 1]).value, steps[|steps| - 1]);
    }
  }

  lemma {:induction false} WithoutAcceptance(s: Session, steps: seq<Step>)
    requires Exec(s, steps).Some? && forall e :: e in steps ==> !e.UserDecides? && !e.UserAccepts?
    ensures AcceptedPeer(s, steps) == s.pendingAccept
  {
    if steps != [] {
      WithoutAcceptance(s, steps[..|steps| - 1]);
      assert steps[|steps| - 1] in steps;
    }
  }

  /** A request that arrives and is accepted connects under the name of the peer accepted,
      however long that takes, and transfers are allowed unless a code comes with it. */
  lemma AcceptedRequestsConnectTheirPeer(s0: Session, from: DiscoveredPeer, steps: seq<Step>, e: Step)
    requires Inv(s0) && CanStart(s0.phase)
    requires var s := Next(Next(s0, RequestArrives), UserAccepts(from));
             && Exec(s, steps).Some? && StaysPending(s, steps)
             && Connects(e) && Next(Exec(s, steps).value, e).phase.Connected?
    requires forall x :: x in steps ==> !x.UserDecides? && !x.UserAccepts?
    ensures var s' := Next(Exec(Next(Next(s0, RequestArrives), UserAccepts(from)), steps).value, e);
            && s'.connectedPeer.Some?
            && s'.connectedPeer.value.peerCode == from.peerCode
            && s'.connectedPeer.value.deviceName == from.deviceName
            && s'.connectedPeer.value.deviceType == from.deviceType
            && (TransferAllowed(s') <==> CodeOf(e).None?)
  {
    var s1 := Next(s0, RequestArrives);
    var s := Next(s1, UserAccepts(from));
    StepKeepsInv(s0, RequestArrives);
    StepKeepsInv(s1, UserAccepts(from));
    PhasesEnteredExactly(s0, RequestArrives);
    assert s.pendingAccept == Some(PeerSession(from.peerCode, from.deviceName, from.deviceType, Legacy, None));
    WithoutAcceptance(s, steps);
    PeerOfASession(s, steps, e);
  }

  /** Transfers are allowed from the start unless the session began with a code. */
  predicate BeginsOpen(accepted: Option<PeerSession>, e: Step) {
    CodeOf(e).None? && (accepted.None? || accepted.value.trust.Legacy?)
  }

  lemma TransfersAtTheStart(s: Session, steps: seq<Step>, e: Step)
    requires Inv(s) && Exec(s, steps).Some? && StaysPending(s, steps)
    requires Connects(e) && Next(Exec(s, steps).value, e).phase.Connected?
    ensures var s' := Next(Exec(s, steps).value, e);
            Inv(s') && (s'.connectedPeer.Some? ==> (TransferAllowed(s') <==> BeginsOpen(AcceptedPeer(s, steps), e)))
  {
    PendingRunKeepsInv(s, steps);
    StepKeepsInv(Exec(s, steps).value, e);
    PendingRunKeepsStashes(s, steps);
    PeerOfASession(s, steps, e);
  }

  /** Whether transfers are allowed at any time in a session, for every run from a request to
      its connection in `s'` and on through the session: the user's approval, or a code, has
      the last word; if there was neither, they are allowed unless the session began with a code. */
  lemma TransfersInASession(s: Session, steps: seq<Step>, e: Step, s': Session, session: seq<Step>)
    requires Inv(s) && Exec(s, steps).Some? && StaysPending(s, steps)
    requires Connects(e) && s' == Next(Exec(s, steps).value, e) && s'.phase.Connected?
    requires Exec(s', session).Some?
    requires forall i :: 0 <= i <= |session| && Exec(s', session[..i]).Some? ==>
               Exec(s', session[..i]).value.connectedPeer.Some?
    ensures TransferAllowed(Exec(s', session).value) <==>
              (if LastDecision(session).Some? then LastDecision(session).value.UserApproves?
               else BeginsOpen(AcceptedPeer(s, steps), e))
  {
    TransfersAtTheStart(s, steps, e);
    LastWord(s', session);
  }

  lemma LastWord(s: Session, session: seq<Step>)
    requires Inv(s) && Exec(s, session).Some?
    requires forall i :: 0 <= i <= |session| && Exec(s, session[..i]).Some? ==>
               Exec(s, session[..i]).value.connectedPeer.Some?
    ensures s.connectedPeer.Some?
    ensures TransferAllowed(Exec(s, session).value) <==>
              (if LastDecision(session).Some? then LastDecision(session).value.UserApproves? else TransferAllowed(s))
  {
    ApprovalIsTheLastWord(s, session);
  }
}
