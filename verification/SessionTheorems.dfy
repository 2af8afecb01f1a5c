/** Whole-run facts about native sessions. */
module SessionTheorems {
  import opened Wire
  import opened Pins
  import opened Sessions

  // ---- The phase contract ----

  /** The nine transitions of the session contract. */
  predicate LegalEdge(p: Phase, q: Phase) {
    || (p.Idle? && (q.Requesting? || q.IncomingRequest?))
    || ((p.Requesting? || p.IncomingRequest?) && q.Connecting?)
    || (p.Connecting? && q.Connected?)
    || (!p.Idle? && q.Idle?)
  }

  ghost predicate LegalTrail(trail: seq<Phase>) {
    && trail != [] && trail[0].Idle?
    && (forall i :: 0 <= i < |trail| ==> !trail[i].Disconnected?)
    && (forall i :: 0 <= i < |trail| - 1 ==> trail[i + 1] == trail[i] || LegalEdge(trail[i], trail[i + 1]))
  }

  ghost predicate PhaseOk(s: Session) {
    LegalTrail(s.trail) && s.trail[|s.trail| - 1] == Canonical(s.phase)
  }

  // ---- Data that goes with a phase ----

  predicate FreshTrust(t: Trust) { t.Legacy? || t.Unverified? }

  ghost predicate DataOk(s: Session) {
    && (s.connectedPeer.Some? ==> s.phase.Connected?)
    && (s.pendingInitiator.Some? ==> s.phase.Requesting? || s.phase.Connecting? || s.phase.Connected?)
    && (s.pendingAccept.Some? ==> FreshTrust(s.pendingAccept.value.trust))
  }

  ghost predicate Inv(s: Session) { PhaseOk(s) && DataOk(s) }

  lemma EnterKeepsPhase(s: Session, p: Phase)
    requires PhaseOk(s) && (Canonical(p) == Canonical(s.phase) || LegalEdge(Canonical(s.phase), Canonical(p)))
    ensures PhaseOk(Enter(s, p))
  {}

  lemma ConnectingKeepsPhase(s: Session)
    requires PhaseOk(s)
    ensures PhaseOk(BeginConnecting(s)) && PhaseOk(MarkConnected(s)) && PhaseOk(MarkConnected(BeginConnecting(s)))
  {
    var m := BeginConnecting(s);
    if CanBeginConnecting(s) { EnterKeepsPhase(s, Connecting); }
    if s.phase.Connecting? { EnterKeepsPhase(s, Connected); }
    if m.phase.Connecting? { EnterKeepsPhase(m, Connected); }
  }

  lemma EndingKeepsInv(s: Session, reason: string)
    requires Inv(s)
    ensures Inv(Reset(s)) && Inv(Disconnect(s, reason)) && Inv(Stop(s)) && Inv(ResetIfDisconnected(s))
  {
    EnterKeepsPhase(s.(generation := s.generation + 1), Idle);
    EnterKeepsPhase(s, Disconnected(reason));
    EnterKeepsPhase(s.(attached := false, online := false, generation := s.generation + 1), Idle);
  }

  lemma StartingKeepsInv(s: Session, peer: DiscoveredPeer)
    requires Inv(s)
    ensures Inv(BeginRequest(s, peer)) && Inv(ReceiveRequest(s))
  {
    EndingKeepsInv(s, "");
    var m := ResetIfDisconnected(s);
    if m.phase.Idle? {
      EnterKeepsPhase(m, Requesting);
      EnterKeepsPhase(m, IncomingRequest);
    }
  }

  /** Becoming connected adopts a stashed peer, with the trust it was stashed with. */
  lemma ConnectingKeepsInv(s: Session, id: Option<string>)
    requires Inv(s)
    ensures Inv(BeginConnecting(s)) && Inv(OnConnected(s, id))
  {
    ConnectingKeepsPhase(s);
  }

  lemma WtUpKeepsInv(s: Session, sas: Option<string>)
    requires Inv(s)
    ensures Inv(OnWtUp(s, sas))
  {
    ConnectingKeepsPhase(s);
  }

  lemma AcceptingKeepsInv(s: Session, from: DiscoveredPeer)
    requires Inv(s)
    ensures Inv(AcceptIncoming(s, from))
  {
    ConnectingKeepsPhase(s);
  }

  lemma SasKeepsTheRest(s: Session, sas: Option<string>, key: Option<string>)
    ensures var s' := OnSas(s, sas, key);
            && s'.phase == s.phase && s'.trail == s.trail && s'.pendingAccept == s.pendingAccept
            && s'.pendingInitiator == s.pendingInitiator && (s'.connectedPeer.Some? <==> s.connectedPeer.Some?)
  {}

  lemma SasKeepsInv(s: Session, sas: Option<string>, key: Option<string>)
    requires Inv(s)
    ensures Inv(OnSas(s, sas, key))
  {
    SasKeepsTheRest(s, sas, key);
  }

  lemma EndingEventsKeepInv(s: Session, e: IpcEvent)
    requires Inv(s) && (e.SessionEnded? || e.SessionError? || e.StatusUpdate? || e.BridgeDisconnected?)
    ensures Inv(OnIpc(s, e))
  {
    match e
    case SessionEnded(reason) => EndingKeepsInv(s, reason);
    case SessionError(reason) => EndingKeepsInv(s, reason);
    case StatusUpdate(n) =>
      assert Inv(s.(peerCount := n));
      EndingKeepsInv(s.(peerCount := n), "peer disconnected");
    case BridgeDisconnected =>
      assert Inv(s.(online := false));
      EndingKeepsInv(s.(online := false), "bridge lost");
      EndingKeepsInv(Disconnect(s.(online := false), "bridge lost"), "");
    case _ =>
  }

  lemma IpcKeepsInv(s: Session, e: IpcEvent)
    requires Inv(s)
    ensures Inv(OnIpc(s, e))
  {
    match e
    case SessionConnected(id) => ConnectingKeepsInv(s, id);
    case SessionSas(sas, key) => SasKeepsInv(s, sas, key);
    case PairingRequested(_) =>
    case Other =>
    case _ => EndingEventsKeepInv(s, e);
  }

  lemma QuietStepsKeepInv(s: Session, e: Step)
    requires Inv(s) && (e.Attach? || e.Observe? || e.UserDecides? || e.UserApproves? || e.WtSas?)
    ensures Inv(Next(s, e))
  {
    var s' := Next(s, e);
    assert s'.phase == s.phase && s'.trail == s.trail && s'.pendingInitiator == s.pendingInitiator
           && (s'.connectedPeer.Some? <==> s.connectedPeer.Some?);
  }

  lemma StepKeepsInv(s: Session, e: Step)
    requires Inv(s)
    ensures Inv(Next(s, e))
  {
    match e
    case Ipc(event) => IpcKeepsInv(s, event);
    case UserRequests(peer) => StartingKeepsInv(s, peer);
    case RequestArrives => StartingKeepsInv(s, DiscoveredPeer("", "", ""));
    case RemoteAccepts => ConnectingKeepsInv(s, None);
    case UserAccepts(from) => AcceptingKeepsInv(s, from);
    case UserDisconnects(reason) => EndingKeepsInv(s, reason);
    case UserDismisses => EndingKeepsInv(s, "");
    case ResetAll => EndingKeepsInv(s, "");
    case StopBridge => EndingKeepsInv(s, "");
    case WtUp(sas) => WtUpKeepsInv(s, sas);
    case WtDown => EndingKeepsInv(s, "WT session ended");
    case _ => QuietStepsKeepInv(s, e);
  }

  /** In every run the phases passed through are stutters and contract transitions, the
      connected peer exists only while connected, and a peer stashed by the initiator only
      between its request and the end of the session. */
  lemma {:induction false} EveryRunFollowsTheContract(steps: seq<Step>)
    requires Exec(Initial(), steps).Some?
    ensures Inv(Exec(Initial(), steps).value)
  {
    if steps != [] {
      EveryRunFollowsTheContract(steps[..|steps| - 1]);
      StepKeepsInv(Exec(Initial(), steps[..|steps| - 1]).value, steps[|steps| - 1]);
    }
  }

  lemma IpcGrowsTrail(s: Session, e: IpcEvent)
    ensures s.trail <= OnIpc(s, e).trail
  {
    if e.SessionSas? { SasKeepsTheRest(s, e.sas, e.key); }
  }

  lemma TrailGrows(s: Session, e: Step)
    ensures s.trail <= Next(s, e).trail
  {
    if e.Ipc? { IpcGrowsTrail(s, e.event); }
  }

  lemma {:induction false} PrefixRuns(s: Session, steps: seq<Step>, i: nat)
    requires i <= |steps| && Exec(s, steps).Some?
    ensures Exec(s, steps[..i]).Some? && Exec(s, steps[..i]).value.trail <= Exec(s, steps).value.trail
  {
    if i == |steps| {
      assert steps[..i] == steps;
    } else {
      PrefixRuns(s, steps[..|steps| - 1], i);
      assert steps[..|steps| - 1][..i] == steps[..i];
      TrailGrows(Exec(s, steps[..|steps| - 1]).value, steps[|steps| - 1]);
    }
  }

  /** The trail is append-only and misses no state: the phase of every state of a run stands
      on the final trail, where that state's own trail ends. */
  lemma TrailRecordsTheRun(steps: seq<Step>, i: nat)
    requires i <= |steps| && Exec(Initial(), steps).Some?
    ensures Exec(Initial(), steps[..i]).Some?
    ensures var m, trail := Exec(Initial(), steps[..i]).value, Exec(Initial(), steps).value.trail;
            m.trail <= trail && m.trail != [] && trail[|m.trail| - 1] == Canonical(m.phase)
  {
    PrefixRuns(Initial(), steps, i);
    EveryRunFollowsTheContract(steps[..i]);
  }

  /** A connected phase comes out of a request and a connecting phase, with no idle since. */
  lemma {:induction false} ConnectedComesFromARequest(trail: seq<Phase>, i: nat)
    requires LegalTrail(trail) && i < |trail| && trail[i].Connected?
    ensures exists j, k :: 0 <= j < k < i && (trail[j].Requesting? || trail[j].IncomingRequest?) && trail[k].Connecting?
                           && forall m :: j <= m <= i ==> !trail[m].Idle?
  {
    var k := LastOther(trail, i);
    assert LegalEdge(trail[k], trail[k + 1]);
    var j := LastOther(trail, k);
    assert LegalEdge(trail[j], trail[j + 1]);
  }

  /** The last position before `i` with another phase than position `i`. */
  lemma {:induction false} LastOther(trail: seq<Phase>, i: nat) returns (j: nat)
    requires LegalTrail(trail) && i < |trail| && !trail[i].Idle?
    ensures j < i && trail[j] != trail[i]
    ensures forall m :: j < m <= i ==> trail[m] == trail[i]
  {
    j := i - 1;
    if trail[j] == trail[i] {
      j := LastOther(trail, j);
    }
  }

  // ---- Whose session it is ----

  /** The trust of a peer that was `t` before a code from the log was shown. */
  function AfterCode(t: Trust, sas: Option<string>): Trust { if sas.Some? then Unverified(sas.value) else t }

  /** Whichever way a session is noticed, through an event or through the log, the same
      stashed peer is connected, with the trust it was stashed with until a code is shown;
      only the event brings a key. */
  lemma BothPathsConnectTheSamePeer(s: Session, remoteId: Option<string>, sas: Option<string>)
    requires s.phase.Connecting? && (s.pendingAccept.Some? || s.pendingInitiator.Some?)
    ensures var p, q := OnConnected(s, remoteId), OnWtUp(s, sas);
            && p.phase == q.phase == Connected && p.connectedPeer.Some? && q.connectedPeer.Some?
            && p.connectedPeer.value.deviceName == q.connectedPeer.value.deviceName
            && p.connectedPeer.value.deviceType == q.connectedPeer.value.deviceType
            && q.connectedPeer.value.trust == AfterCode(p.connectedPeer.value.trust, sas)
            && p.connectedPeer.value.identityKey == remoteId
            && p.pendingAccept == q.pendingAccept == None
            && p.pendingInitiator == q.pendingInitiator
            && (p.pendingInitiator == s.pendingInitiator <==> s.pendingAccept.Some? || s.pendingInitiator.None?)
  {}

  predicate IsPending(p: Phase) { p.Requesting? || p.IncomingRequest? || p.Connecting? }

  ghost predicate StaysPending(s: Session, steps: seq<Step>) {
    forall i :: 0 <= i <= |steps| && Exec(s, steps[..i]).Some? ==> IsPending(Exec(s, steps[..i]).value.phase)
  }

  /** The peer of the last acceptance since `s`, unless an acceptance after it was refused. */
  ghost function AcceptedPeer(s: Session, steps: seq<Step>): Option<PeerSession>
    requires Exec(s, steps).Some?
  {
    if steps == [] then s.pendingAccept
    else
      var n := |steps| - 1;
      AfterAccept(Exec(s, steps[..n]).value, steps[n], AcceptedPeer(s, steps[..n]))
  }

  function AfterAccept(m: Session, e: Step, before: Option<PeerSession>): Option<PeerSession> {
    match e
    case UserDecides(true) =>
      if m.attached && m.pendingRequest.Some? then
        var r := m.pendingRequest.value;
        Some(PeerSession(r.requestId, r.deviceName, r.deviceType,
                         if r.sas == "" then Legacy else Unverified(r.sas), None))
      else before
    case UserAccepts(from) =>
      if CanBeginConnecting(m) then Some(PeerSession(from.peerCode, from.deviceName, from.deviceType, Legacy, None))
      else None
    case _ => before
  }

  lemma IpcKeepsStashes(s: Session, e: IpcEvent)
    requires IsPending(s.phase) && IsPending(OnIpc(s, e).phase)
    ensures OnIpc(s, e).pendingInitiator == s.pendingInitiator && OnIpc(s, e).pendingAccept == s.pendingAccept
  {
    if e.SessionSas? { SasKeepsTheRest(s, e.sas, e.key); }
  }

  lemma PendingStepKeepsStashes(s: Session, e: Step)
    requires IsPending(s.phase) && IsPending(Next(s, e).phase)
    ensures Next(s, e).pendingInitiator == s.pendingInitiator
    ensures Next(s, e).pendingAccept == AfterAccept(s, e, s.pendingAccept)
  {
    if e.Ipc? { IpcKeepsStashes(s, e.event); }
  }

  lemma {:induction false} PendingRunKeepsStashes(s: Session, steps: seq<Step>)
    requires Exec(s, steps).Some? && StaysPending(s, steps)
    ensures IsPending(Exec(s, steps).value.phase)
    ensures Exec(s, steps).value.pendingInitiator == s.pendingInitiator
    ensures Exec(s, steps).value.pendingAccept == AcceptedPeer(s, steps)
  {
    assert steps[..|steps|] == steps;
    if steps != [] {
      var n := |steps| - 1;
      forall i | 0 <= i <= n ensures steps[..n][..i] == steps[..i] {}
      PendingRunKeepsStashes(s, steps[..n]);
      PendingStepKeepsStashes(Exec(s, steps[..n]).value, steps[n]);
    }
  }

  predicate Connects(e: Step) { e.WtUp? || (e.Ipc? && e.event.SessionConnected?) }

  /** A session that this device asked for connects under the name of the peer it asked for
      exactly if no acceptance of another request is outstanding. Otherwise it carries the
      accepted peer's name, and the peer asked for stays stashed. */
  lemma ConnectsTheRequestedPeerExactly(s0: Session, b: DiscoveredPeer, steps: seq<Step>, e: Step)
    requires s0.phase.Idle? || s0.phase.Disconnected?
    requires Exec(Next(s0, UserRequests(b)), steps).Some? && StaysPending(Next(s0, UserRequests(b)), steps)
    requires Connects(e) && Next(Exec(Next(s0, UserRequests(b)), steps).value, e).phase.Connected?
    ensures var s := Next(s0, UserRequests(b));
            var s' := Next(Exec(s, steps).value, e);
            var accepted := AcceptedPeer(s, steps);
            && s'.connectedPeer.Some?
            && (s'.pendingInitiator.None? <==> accepted.None?)
            && s'.pendingInitiator == (if accepted.None? then None else Some(b))
            && s'.connectedPeer.value.deviceName == (if accepted.None? then b.deviceName else accepted.value.deviceName)
            && s'.connectedPeer.value.deviceType == (if accepted.None? then b.deviceType else accepted.value.deviceType)
  {
    PendingRunKeepsStashes(Next(s0, UserRequests(b)), steps);
  }

  lemma ExecAt(s: Session, steps: seq<Step>, i: nat, m: Session)
    requires i < |steps| && Exec(s, steps[..i]) == Some(m) && Enabled(m, steps[i])
    ensures Exec(s, steps[..i + 1]) == Some(Next(m, steps[i]))
  {
    assert steps[..i + 1][..i] == steps[..i];
  }

  /** So a session can carry another name than that of the peer asked for: a request from `r`
      is allowed, `b` is asked and accepts, and the session connects under the name of `r`. */
  lemma ASessionCanCarryAnotherName(s: Session, r: PairingRequest, b: DiscoveredPeer, id: string)
    requires s.phase.Idle? && s.attached && s.pendingRequest == Some(r)
    ensures var steps := [UserDecides(true), UserRequests(b), RemoteAccepts, Ipc(SessionConnected(Some(id)))];
            && Exec(s, steps).Some?
            && var s' := Exec(s, steps).value;
            && s'.phase.Connected? && s'.connectedPeer.Some? && s'.pendingInitiator == Some(b)
            && s'.connectedPeer.value.deviceName == r.deviceName
            && s'.connectedPeer.value.trust == (if r.sas == "" then Legacy else Unverified(r.sas))
  {
    var steps := [UserDecides(true), UserRequests(b), RemoteAccepts, Ipc(SessionConnected(Some(id)))];
    var m1 := Decide(s, true);
    var m2 := BeginRequest(m1, b);
    var m3 := BeginConnecting(m2);
    ExecAt(s, steps, 0, s);
    ExecAt(s, steps, 1, m1);
    ExecAt(s, steps, 2, m2);
    ExecAt(s, steps, 3, m3);
    assert steps[..4] == steps;
  }

  /** Such a state is reached from the start by attaching to the daemon and its request. */
  lemma ARequestCanBePending(r: PairingRequest)
    ensures var run := Exec(Initial(), [Attach(None, true), Ipc(PairingRequested(r))]);
            run.Some? && run.value.phase.Idle? && run.value.attached && run.value.pendingRequest == Some(r)
  {
    var steps := [Attach(None, true), Ipc(PairingRequested(r))];
    ExecAt(Initial(), steps, 0, Initial());
    ExecAt(Initial(), steps, 1, Initial().(attached := true, online := true));
    assert steps[..2] == steps;
  }

  // ---- Generations ----

  /** The step performs a canonical reset. */
  predicate Resets(s: Session, e: Step) {
    || e.ResetAll?
    || e.StopBridge?
    || e == Ipc(BridgeDisconnected)
    || ((e.UserRequests? || e.RequestArrives? || e.UserDismisses?) && s.phase.Disconnected?)
  }

  lemma IpcCountsResets(s: Session, e: IpcEvent)
    ensures OnIpc(s, e).generation == s.generation + (if e.BridgeDisconnected? then 1 else 0)
  {}

  lemma GenerationCountsResets(s: Session, e: Step)
    ensures Next(s, e).generation == s.generation + (if Resets(s, e) then 1 else 0)
  {
    if e.Ipc? { IpcCountsResets(s, e.event); }
  }

  ghost predicate ResetsAt(s: Session, steps: seq<Step>, i: nat) {
    i < |steps| && Exec(s, steps[..i]).Some? && Resets(Exec(s, steps[..i]).value, steps[i])
  }

  lemma ResetsOfAPrefix(s: Session, steps: seq<Step>, n: nat, i: nat)
    requires i < n <= |steps|
    ensures ResetsAt(s, steps[..n], i) <==> ResetsAt(s, steps, i)
  {
    assert steps[..n][..i] == steps[..i];
  }

  /** The last step of a run resets or not, and the earlier ones are those of the shorter run. */
  lemma ResetsByTheLast(s: Session, steps: seq<Step>, n: nat)
    requires n + 1 == |steps|
    ensures (forall i :: 0 <= i < |steps| ==> !ResetsAt(s, steps, i))
            <==> !ResetsAt(s, steps, n) && forall i :: 0 <= i < n ==> !ResetsAt(s, steps[..n], i)
  {
    forall i | 0 <= i < n ensures ResetsAt(s, steps[..n], i) <==> ResetsAt(s, steps, i) {
      ResetsOfAPrefix(s, steps, n, i);
    }
  }

  /** A captured generation is still current exactly if no reset happened since. */
  lemma {:induction false} StaleGenerationsNeverMatch(s: Session, steps: seq<Step>)
    requires Exec(s, steps).Some?
    ensures Exec(s, steps).value.generation >= s.generation
    ensures Exec(s, steps).value.generation == s.generation <==> forall i :: 0 <= i < |steps| ==> !ResetsAt(s, steps, i)
  {
    if steps != [] {
      var n := |steps| - 1;
      StaleGenerationsNeverMatch(s, steps[..n]);
      GenerationCountsResets(Exec(s, steps[..n]).value, steps[n]);
      ResetsByTheLast(s, steps, n);
    }
  }

  // ---- Approval ----

  /** Steps that show a code to compare, and the approval of one. */
  predicate ShowsCode(e: Step) {
    (e.Ipc? && e.event.SessionSas? && e.event.sas.Some?) || (e.WtSas? && e.wtSas.Some?)
  }

  predicate Decides(e: Step) { ShowsCode(e) || e.UserApproves? }

  /** The last step that shows a code or approves one. */
  function LastDecision(steps: seq<Step>): Option<Step> {
    if steps == [] then None
    else if Decides(steps[|steps| - 1]) then Some(steps[|steps| - 1])
    else LastDecision(steps[..|steps| - 1])
  }

  /** A shown code leaves the peer unverified, or mismatched, and otherwise the same. */
  lemma SasTrust(s: Session, sas: Option<string>, key: Option<string>)
    requires s.connectedPeer.Some?
    ensures var s' := OnSas(s, sas, key);
            && s'.phase == s.phase && s'.connectedPeer.Some?
            && s'.connectedPeer.value.peerCode == s.connectedPeer.value.peerCode
            && s'.connectedPeer.value.deviceName == s.connectedPeer.value.deviceName
            && (if sas.None? then s' == s
                else s'.connectedPeer.value.trust.Unverified? || s'.connectedPeer.value.trust.Mismatch?)
  {}

  lemma SasWithoutPeer(s: Session, sas: Option<string>, key: Option<string>)
    requires s.connectedPeer.None?
    ensures var s' := OnSas(s, sas, key); s'.(pins := s.pins) == s
  {}

  lemma IpcWithinSession(s: Session, e: IpcEvent)
    requires DataOk(s) && s.connectedPeer.Some? && OnIpc(s, e).connectedPeer.Some?
    ensures var p, q := s.connectedPeer.value, OnIpc(s, e).connectedPeer.value;
            q.peerCode == p.peerCode && q.deviceName == p.deviceName
    ensures TransferAllowed(OnIpc(s, e)) == (TransferAllowed(s) && !(e.SessionSas? && e.sas.Some?))
  {
    match e
    case SessionSas(sas, key) => SasTrust(s, sas, key);
    case _ =>
  }

  /** While a peer stays connected it is the same peer, and only codes and approvals change
      whether transfers are allowed. */
  lemma StepWithinSession(s: Session, e: Step)
    requires DataOk(s) && Enabled(s, e) && s.connectedPeer.Some? && Next(s, e).connectedPeer.Some?
    ensures var p, q := s.connectedPeer.value, Next(s, e).connectedPeer.value;
            q.peerCode == p.peerCode && q.deviceName == p.deviceName
    ensures TransferAllowed(Next(s, e)) ==
              (if e.UserApproves? then true else if ShowsCode(e) then false else TransferAllowed(s))
  {
    if e.Ipc? { IpcWithinSession(s, e.event); }
  }

  /** Within one session, transfers are allowed exactly if the user's approval is the last
      word on the codes shown, or no code was shown and they were allowed to begin with. */
  lemma {:induction false} ApprovalIsTheLastWord(s: Session, steps: seq<Step>)
    requires Inv(s) && Exec(s, steps).Some?
    requires forall i :: 0 <= i <= |steps| && Exec(s, steps[..i]).Some? ==>
               Exec(s, steps[..i]).value.connectedPeer.Some?
    ensures Inv(Exec(s, steps).value)
    ensures TransferAllowed(Exec(s, steps).value) <==>
              match LastDecision(steps)
              case None => TransferAllowed(s)
              case Some(e) => e.UserApproves?
    ensures Exec(s, steps).value.connectedPeer.Some? && s.connectedPeer.Some?
    ensures Exec(s, steps).value.connectedPeer.value.deviceName == s.connectedPeer.value.deviceName
    ensures Exec(s, steps).value.connectedPeer.value.peerCode == s.connectedPeer.value.peerCode
  {
    assert steps[..|steps|] == steps;
    if steps != [] {
      var n := |steps| - 1;
      forall i | 0 <= i <= n ensures steps[..n][..i] == steps[..i] {}
      ApprovalIsTheLastWord(s, steps[..n]);
      var m := Exec(s, steps[..n]).value;
      StepWithinSession(m, steps[n]);
      StepKeepsInv(m, steps[n]);
    } else {
      assert steps[..0] == steps;
    }
  }

  lemma IpcStartsUnapproved(s: Session, e: IpcEvent)
    requires DataOk(s) && OnIpc(s, e).connectedPeer.Some?
    ensures s.connectedPeer.None? ==> FreshTrust(OnIpc(s, e).connectedPeer.value.trust)
    ensures OnIpc(s, e).connectedPeer.value.trust.Verified? <==>
              s.connectedPeer.Some? && s.connectedPeer.value.trust.Verified? && !(e.SessionSas? && e.sas.Some?)
  {
    match e
    case SessionSas(sas, key) =>
      if s.connectedPeer.Some? { SasTrust(s, sas, key); } else { SasWithoutPeer(s, sas, key); }
    case _ =>
  }

  /** A session begins unapproved: its peer is unverified or has no identity support. Within
      a session a peer is `Verified` exactly by the user's approval, until a code is shown. */
  lemma SessionsStartUnapproved(s: Session, e: Step)
    requires Inv(s) && Enabled(s, e) && Next(s, e).connectedPeer.Some?
    ensures s.connectedPeer.None? ==> FreshTrust(Next(s, e).connectedPeer.value.trust)
    ensures Next(s, e).connectedPeer.value.trust.Verified? <==>
              s.connectedPeer.Some? && (e.UserApproves? || (s.connectedPeer.value.trust.Verified? && !ShowsCode(e)))
    ensures e.UserApproves? ==> s.connectedPeer.Some? && s.connectedPeer.value.trust.Unverified?
  {
    if e.Ipc? { IpcStartsUnapproved(s, e.event); }
  }

  // ---- Key continuity ----

  ghost predicate PinsOk(s: Session) { s.pins.Some? ==> OneKeyPerName(s.pins.value) }

  ghost predicate LoadsProperPins(e: Step) {
    e.Attach? && e.loaded.Some? ==> OneKeyPerName(e.loaded.value)
  }

  ghost predicate Pinned(s: Session, key: string, name: Option<string>) {
    s.pins.Some? && key in s.pins.value && s.pins.value[key] == name
  }

  lemma SasKeepsPins(s: Session, sas: Option<string>, key: Option<string>)
    requires PinsOk(s)
    ensures PinsOk(OnSas(s, sas, key))
    ensures forall k, name :: Pinned(s, k, name) ==> Pinned(OnSas(s, sas, key), k, name)
  {
    var presented := PresentedKey(s, key);
    if sas.Some? && SasMismatch(s, key).None? && presented.Some? && s.pins.Some? {
      PinningKeepsOneKeyPerName(s.pins.value, presented.value, PeerName(s));
    }
  }

  lemma OnlySasEventsPin(s: Session, e: IpcEvent)
    requires !e.SessionSas?
    ensures OnIpc(s, e).pins == s.pins
  {}

  lemma OnlySasPins(s: Session, e: Step)
    requires !(e.Ipc? && e.event.SessionSas?) && !e.Attach?
    ensures Next(s, e).pins == s.pins
  {
    if e.Ipc? { OnlySasEventsPin(s, e.event); }
  }

  lemma StepKeepsPins(s: Session, e: Step)
    requires PinsOk(s) && LoadsProperPins(e)
    ensures PinsOk(Next(s, e))
    ensures forall k, name :: Pinned(s, k, name) ==> Pinned(Next(s, e), k, name)
  {
    if e.Ipc? && e.event.SessionSas? { SasKeepsPins(s, e.event.sas, e.event.key); }
    else if !e.Attach? { OnlySasPins(s, e); }
  }

  /** No run alters or drops a pin, or gives a name a second key. */
  lemma {:induction false} PinsArePermanent(s: Session, steps: seq<Step>)
    requires PinsOk(s) && Exec(s, steps).Some? && forall e :: e in steps ==> LoadsProperPins(e)
    ensures PinsOk(Exec(s, steps).value)
    ensures forall k, name :: Pinned(s, k, name) ==> Pinned(Exec(s, steps).value, k, name)
  {
    if steps != [] {
      PinsArePermanent(s, steps[..|steps| - 1]);
      StepKeepsPins(Exec(s, steps[..|steps| - 1]).value, steps[|steps| - 1]);
    }
  }

  /** Once a name is pinned, a peer of that name that presents any other key, in the event or
      remembered from its connection, is reported as a mismatch naming the pinned key, however
      long the run in between; transfers are then blocked and the store is left as it was. */
  lemma PinnedNamesRejectOtherKeys(
    s: Session, steps: seq<Step>, pinned: string, name: string, sas: string, key: Option<string>, presented: string)
    requires PinsOk(s) && Exec(s, steps).Some? && forall e :: e in steps ==> LoadsProperPins(e)
    requires Pinned(s, pinned, Some(name)) && presented != pinned
    requires Exec(s, steps).value.connectedPeer.Some? && Exec(s, steps).value.connectedPeer.value.deviceName == name
    requires PresentedKey(Exec(s, steps).value, key) == Some(presented)
    ensures var m := Exec(s, steps).value;
            var s' := OnSas(m, Some(sas), key);
            && s'.connectedPeer.value.trust == Mismatch(name, KeyPrefix(pinned))
            && !TransferAllowed(s')
            && s'.pins == m.pins
  {
    PinsArePermanent(s, steps);
    var m := Exec(s, steps).value;
    assert Conflicts(m.pins.value, presented, name, pinned);
  }

  /** Another key than `presented` is pinned under the name. */
  ghost predicate AnotherKeyHas(s: Session, name: string, presented: string) {
    exists k :: Pinned(s, k, Some(name)) && k != presented
  }

  /** What a shown code does to a connected peer: a mismatch if and only if the key it
      presents, now or remembered, is another one than a key pinned under its name; otherwise
      it is unverified with that code, and the user may approve it. */
  lemma SasOutcomeExactly(s: Session, sas: string, key: Option<string>)
    requires s.connectedPeer.Some?
    ensures var p := s.connectedPeer.value;
            var presented := if key.Some? then key else p.identityKey;
            var s' := OnSas(s, Some(sas), key);
            && s'.connectedPeer.Some? && s'.connectedPeer.value.identityKey == presented
            && (if presented.Some? && AnotherKeyHas(s, p.deviceName, presented.value)
                then s'.pins == s.pins && !ApproveOffered(s')
                     && exists k :: Pinned(s, k, Some(p.deviceName)) && k != presented.value
                                    && s'.connectedPeer.value.trust == Mismatch(p.deviceName, KeyPrefix(k))
                else s'.connectedPeer.value.trust == Unverified(sas) && (ApproveOffered(s') <==> s.phase.Connected?))
            && !TransferAllowed(s')
  {
    var p := s.connectedPeer.value;
    var presented := PresentedKey(s, key);
    if presented.Some? && s.pins.Some? {
      MismatchExactly(s.pins.value, presented.value, p.deviceName);
      if MismatchOf(s.pins.value, presented.value, p.deviceName).Some? {
        var k :| k in s.pins.value && s.pins.value[k] == Some(p.deviceName) && k != presented.value
                 && MismatchOf(s.pins.value, presented.value, p.deviceName).value == KeyPrefix(k);
        assert Pinned(s, k, Some(p.deviceName));
      }
    }
  }

  /** A device that comes back with its own key, however long the run in between, is no
      mismatch: it is unverified with the new code, and the store is left as it was. */
  lemma ReturningDevicesAreNoMismatch(
    s: Session, steps: seq<Step>, own: string, name: string, sas: string, key: Option<string>)
    requires PinsOk(s) && Exec(s, steps).Some? && forall e :: e in steps ==> LoadsProperPins(e)
    requires Pinned(s, own, Some(name))
    requires Exec(s, steps).value.connectedPeer.Some? && Exec(s, steps).value.connectedPeer.value.deviceName == name
    requires PresentedKey(Exec(s, steps).value, key) == Some(own)
    ensures var m := Exec(s, steps).value;
            var s' := OnSas(m, Some(sas), key);
            && s'.connectedPeer.Some? && s'.connectedPeer.value.trust == Unverified(sas)
            && s'.pins == m.pins
  {
    PinsArePermanent(s, steps);
    var m := Exec(s, steps).value;
    SasOutcomeExactly(m, sas, key);
    assert Pinned(m, own, Some(name));
  }

  /** Some key is pinned under the name. */
  ghost predicate NameIsPinned(s: Session, name: string) {
    exists key :: Pinned(s, key, Some(name))
  }

  /** After a key is presented under a name, the name is pinned exactly if it was before or
      the key was pinned under no name yet: a key that is already pinned elsewhere does not
      bind the new name. */
  lemma NamesArePinnedExactly(s: Session, sas: string, key: Option<string>, presented: string)
    requires s.pins.Some? && s.connectedPeer.Some? && PresentedKey(s, key) == Some(presented)
    ensures var name, s' := s.connectedPeer.value.deviceName, OnSas(s, Some(sas), key);
            && (NameIsPinned(s', name) <==> NameIsPinned(s, name) || presented !in s.pins.value)
            && (!NameIsPinned(s, name) ==> s'.connectedPeer.value.trust == Unverified(sas))
            && (!NameIsPinned(s, name) && presented !in s.pins.value ==> Pinned(s', presented, Some(name)))
  {
    var name, s' := s.connectedPeer.value.deviceName, OnSas(s, Some(sas), key);
    if k :| Pinned(s, k, Some(name)) {
      PinStays(s, Some(sas), key, k, Some(name));
    } else {
      forall k ensures !Conflicts(s.pins.value, presented, name, k) { assert !Pinned(s, k, Some(name)); }
      if presented !in s.pins.value {
        assert Pinned(s', presented, Some(name));
      } else {
        assert s'.pins == s.pins;
        forall k ensures !Pinned(s', k, Some(name)) { assert !Pinned(s, k, Some(name)); }
      }
    }
  }

  lemma PinStays(s: Session, sas: Option<string>, key: Option<string>, k: string, name: Option<string>)
    requires Pinned(s, k, name)
    ensures Pinned(OnSas(s, sas, key), k, name)
  {}

  /** So a second key can be accepted for a name: with `k1` pinned under A, a peer named B
      that presents `k1` and then `k2` is twice unverified and never a mismatch. */
  lemma ASecondKeyCanBeAccepted(s: Session, k1: string, k2: string, sas1: string, sas2: string)
    requires s.connectedPeer.Some? && s.connectedPeer.value.deviceName == "B"
    requires s.pins == Some(map[k1 := Some("A")]) && k1 != k2
    ensures var m := OnSas(s, Some(sas1), Some(k1));
            var s' := OnSas(m, Some(sas2), Some(k2));
            && m.connectedPeer.value.trust == Unverified(sas1)
            && s'.connectedPeer.value.trust == Unverified(sas2)
  {
    var m := OnSas(s, Some(sas1), Some(k1));
    forall k ensures !Pinned(s, k, Some("B")) {}
    NamesArePinnedExactly(s, sas1, Some(k1), k1);
    SasTrust(s, Some(sas1), Some(k1));
    SasTrust(m, Some(sas2), Some(k2));
    forall k ensures !Pinned(m, k, Some("B")) { assert !NameIsPinned(m, "B"); }
    assert m.pins.Some?;
    NamesArePinnedExactly(m, sas2, Some(k2), k2);
  }

  // ---- Batches ----

  /** The part of a batch up to and including the first loss of the bridge. */
  function UpToBridgeLoss(events: seq<IpcEvent>): seq<IpcEvent> {
    if events == [] then []
    else if events[0].BridgeDisconnected? then [events[0]]
    else [events[0]] + UpToBridgeLoss(events[1..])
  }

  ghost function Fold(s: Session, events: seq<IpcEvent>): Session {
    if events == [] then s else OnIpc(Fold(s, events[..|events| - 1]), events[|events| - 1])
  }

  /** Events are folded while the generation they were drained in is current. */
  ghost function FoldWhileCurrent(s: Session, events: seq<IpcEvent>, generation: nat): Session
    decreases |events|
  {
    if events == [] || s.generation != generation then s
    else FoldWhileCurrent(OnIpc(s, events[0]), events[1..], generation)
  }

  lemma {:induction false} FoldFromFront(s: Session, events: seq<IpcEvent>)
    requires events != []
    ensures Fold(s, events) == Fold(OnIpc(s, events[0]), events[1..])
  {
    if |events| > 1 {
      FoldFromFront(s, events[..|events| - 1]);
      assert events[..|events| - 1][1..] == events[1..][..|events| - 2];
    } else {
      assert events[..0] == [] && events[1..] == [];
    }
  }

  /** A batch has the effect of its events up to the loss of the bridge, in order, and a loss
      of the bridge leaves nothing of the session. */
  lemma {:induction false} BatchStopsAtBridgeLoss(s: Session, events: seq<IpcEvent>)
    ensures FoldWhileCurrent(s, events, s.generation) == Fold(s, UpToBridgeLoss(events))
    ensures BridgeDisconnected in events ==>
              var s' := FoldWhileCurrent(s, events, s.generation);
              && s'.phase.Idle? && !s'.attached && !s'.online
              && s'.connectedPeer.None? && s'.peerCount == 0 && s'.pendingRequest.None?
              && s'.pendingAccept.None? && s'.pendingInitiator.None?
              && s'.generation == s.generation + 1
    decreases |events|
  {
    if events != [] {
      var m := OnIpc(s, events[0]);
      GenerationCountsResets(s, Ipc(events[0]));
      FoldFromFront(s, UpToBridgeLoss(events));
      if !events[0].BridgeDisconnected? {
        BatchStopsAtBridgeLoss(m, events[1..]);
        assert UpToBridgeLoss(events)[1..] == UpToBridgeLoss(events[1..]);
        assert BridgeDisconnected in events ==> BridgeDisconnected in events[1..];
      }
    }
  }
}
