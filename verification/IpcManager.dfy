/** The session manager: the object that owns the session state and updates it in place. */
module IpcManager {
  import opened Wire
  import opened Pins
  import opened Sessions
  import opened SessionTheorems

  class Manager {
    var sessionPhase: Phase
    var connectedPeer: Option<PeerSession>
    var connectedPeerCount: nat
    var pendingRequest: Option<PairingRequest>
    var pendingAcceptPeer: Option<PeerSession>
    var pendingInitiatorPeer: Option<DiscoveredPeer>
    var generation: nat
    var hasHandle: bool
    var isConnected: bool
    var pinStore: PinStore?
    var trail: seq<Phase>

    function Value(): Session
      reads this, pinStore
    {
      Session(sessionPhase, connectedPeer, connectedPeerCount, pendingRequest, pendingAcceptPeer, pendingInitiatorPeer,
              generation, hasHandle, isConnected, if pinStore == null then None else Some(pinStore.pins), trail)
    }

    ghost predicate Valid()
      reads this, pinStore
    {
      Inv(Value()) && PinsOk(Value())
    }

    constructor ()
      ensures Value() == Initial() && Valid()
    {
      sessionPhase, connectedPeer, connectedPeerCount := Idle, None, 0;
      pendingRequest, pendingAcceptPeer, pendingInitiatorPeer := None, None, None;
      generation, hasHandle, isConnected, pinStore, trail := 0, false, false, null, [Idle];
    }

    method SetPhase(p: Phase)
      modifies this`sessionPhase, this`trail
      ensures sessionPhase == p && trail == old(trail) + [Canonical(p)]
    {
      sessionPhase := p;
      trail := trail + [Canonical(p)];
    }

    method ClearSession()
      modifies this`connectedPeer, this`connectedPeerCount
      modifies this`pendingRequest, this`pendingAcceptPeer, this`pendingInitiatorPeer
      ensures Value() == Cleared(old(Value()))
    {
      connectedPeer := None;
      connectedPeerCount := 0;
      pendingRequest := None;
      pendingAcceptPeer := None;
      pendingInitiatorPeer := None;
    }

    method ResetSession() returns (gen: nat)
      requires Valid()
      modifies this
      ensures Valid() && old(trail) <= trail
      ensures pinStore == old(pinStore) && Value() == Reset(old(Value())) && gen == generation
    {
      generation := generation + 1;
      SetPhase(Idle);
      ClearSession();
      gen := generation;
    }

    method DisconnectSession(reason: string)
      requires Valid()
      modifies this
      ensures Valid() && old(trail) <= trail
      ensures pinStore == old(pinStore) && Value() == Disconnect(old(Value()), reason)
    {
      SetPhase(Disconnected(reason));
      ClearSession();
    }

    method DismissDisconnect()
      requires Valid()
      modifies this
      ensures Valid() && old(trail) <= trail
      ensures pinStore == old(pinStore) && Value() == ResetIfDisconnected(old(Value()))
    {
      if sessionPhase.Disconnected? { var _ := ResetSession(); }
    }

    method BeginRequest(peer: DiscoveredPeer) returns (ok: bool)
      requires Valid()
      modifies this
      ensures Valid() && old(trail) <= trail
      ensures pinStore == old(pinStore) && Value() == Sessions.BeginRequest(old(Value()), peer)
      ensures ok <==> old(sessionPhase).Idle? || old(sessionPhase).Disconnected?
    {
      DismissDisconnect();
      if !sessionPhase.Idle? { return false; }
      SetPhase(Requesting);
      pendingInitiatorPeer := Some(peer);
      return true;
    }

    method ReceiveRequest() returns (ok: bool)
      requires Valid()
      modifies this
      ensures Valid() && old(trail) <= trail
      ensures pinStore == old(pinStore) && Value() == Sessions.ReceiveRequest(old(Value()))
      ensures ok <==> old(sessionPhase).Idle? || old(sessionPhase).Disconnected?
    {
      DismissDisconnect();
      if !sessionPhase.Idle? { return false; }
      SetPhase(IncomingRequest);
      return true;
    }

    method BeginConnecting() returns (ok: bool)
      requires Valid()
      modifies this`sessionPhase, this`trail
      ensures Valid() && old(trail) <= trail
      ensures Value() == Sessions.BeginConnecting(old(Value())) && ok == CanBeginConnecting(old(Value()))
    {
      if !(sessionPhase.Requesting? || sessionPhase.IncomingRequest?) { return false; }
      SetPhase(Connecting);
      return true;
    }

    method MarkConnected() returns (ok: bool)
      requires Valid()
      modifies this`sessionPhase, this`trail
      ensures Valid() && old(trail) <= trail
      ensures Value() == Sessions.MarkConnected(old(Value())) && ok == old(sessionPhase).Connecting?
    {
      if !sessionPhase.Connecting? { return false; }
      SetPhase(Connected);
      return true;
    }

    method AcceptIncoming(from: DiscoveredPeer) returns (ok: bool)
      requires Valid()
      modifies this
      ensures Valid() && old(trail) <= trail
      ensures pinStore == old(pinStore) && Value() == Sessions.AcceptIncoming(old(Value()), from)
    {
      pendingAcceptPeer := Some(PeerSession(from.peerCode, from.deviceName, from.deviceType, Legacy, None));
      ok := BeginConnecting();
      if !ok { pendingAcceptPeer := None; }
    }

    method SendPairingDecision(allow: bool)
      requires Valid()
      modifies this`pendingAcceptPeer, this`pendingRequest
      ensures Valid() && old(trail) <= trail
      ensures Value() == Decide(old(Value()), allow)
    {
      if !hasHandle { return; }
      if allow && pendingRequest.Some? {
        var r := pendingRequest.value;
        pendingAcceptPeer := Some(PeerSession(r.requestId, r.deviceName, r.deviceType,
                                              if r.sas == "" then Legacy else Unverified(r.sas), None));
      }
      pendingRequest := None;
    }

    method MarkVerified()
      requires Valid()
      modifies this`connectedPeer
      ensures Valid() && old(trail) <= trail
      ensures Value() == Sessions.MarkVerified(old(Value()))
    {
      SetPeerTrust(Verified);
    }

    method Start(loaded: Option<PinMap>, success: bool)
      requires Valid() && (loaded.Some? ==> OneKeyPerName(loaded.value))
      modifies this
      ensures Valid() && old(trail) <= trail && Value() == OnAttach(old(Value()), loaded, success)
    {
      if loaded.Some? && pinStore == null {
        pinStore := new PinStore(loaded.value);
      }
      if hasHandle { return; }
      hasHandle, isConnected := success, success;
    }

    method Stop()
      requires Valid()
      modifies this
      ensures Valid() && old(trail) <= trail
      ensures pinStore == old(pinStore) && Value() == Sessions.Stop(old(Value()))
    {
      hasHandle := false;
      isConnected := false;
      var _ := ResetSession();
    }

    method OnSessionConnected(remoteId: Option<string>)
      requires Valid()
      modifies this
      ensures Valid() && old(trail) <= trail
      ensures pinStore == old(pinStore) && Value() == OnConnected(old(Value()), remoteId)
    {
      ConnectingKeepsInv(Value(), remoteId);
      if sessionPhase.Requesting? || sessionPhase.IncomingRequest? { var _ := BeginConnecting(); }
      var ok := MarkConnected();
      if ok { AdoptPeer(remoteId); }
    }

    method AdoptPeer(remoteId: Option<string>)
      modifies this`connectedPeer, this`pendingAcceptPeer, this`pendingInitiatorPeer
      ensures Value() == Adopt(old(Value()), remoteId)
    {
      if pendingAcceptPeer.Some? {
        connectedPeer := Some(pendingAcceptPeer.value.(identityKey := remoteId));
        pendingAcceptPeer := None;
      } else if pendingInitiatorPeer.Some? {
        var target := pendingInitiatorPeer.value;
        var code := if remoteId.Some? then remoteId.value else target.peerCode;
        connectedPeer := Some(PeerSession(code, target.deviceName, target.deviceType, Legacy, remoteId));
        pendingInitiatorPeer := None;
      } else if remoteId.Some? {
        connectedPeer := Some(PeerSession(remoteId.value, "Peer", "desktop", Legacy, remoteId));
      }
    }

    method OnWtSessionUp(sas: Option<string>)
      requires Valid()
      modifies this
      ensures Valid() && old(trail) <= trail
      ensures pinStore == old(pinStore) && Value() == OnWtUp(old(Value()), sas)
    {
      WtUpKeepsInv(Value(), sas);
      if !sessionPhase.Connecting? { return; }
      var _ := MarkConnected();
      if pendingAcceptPeer.Some? {
        connectedPeer := pendingAcceptPeer;
        pendingAcceptPeer := None;
      } else if pendingInitiatorPeer.Some? {
        var target := pendingInitiatorPeer.value;
        connectedPeer := Some(PeerSession(target.peerCode, target.deviceName, target.deviceType, Legacy, None));
        pendingInitiatorPeer := None;
      }
      ApplyWtVerificationCode(sas);
    }

    method ApplyWtVerificationCode(sas: Option<string>)
      requires Valid()
      modifies this`connectedPeer
      ensures Valid() && old(trail) <= trail
      ensures Value() == OnWtSas(old(Value()), sas)
    {
      if sas.Some? && sessionPhase.Connected? { SetPeerTrust(Unverified(sas.value)); }
    }

    method SetPeerTrust(trust: Trust)
      modifies this`connectedPeer
      ensures Value() == SetTrust(old(Value()), trust)
    {
      if connectedPeer.Some? { connectedPeer := Some(connectedPeer.value.(trust := trust)); }
    }

    /** The key that the event or the connection presents, and the key pinned against it. */
    method LookUpKey(key: Option<string>) returns (presented: Option<string>, oldKey: Option<string>)
      requires Valid()
      ensures presented == PresentedKey(Value(), key) && oldKey == SasMismatch(Value(), key)
    {
      presented := if key.Some? then key else if connectedPeer.Some? then connectedPeer.value.identityKey else None;
      oldKey := None;
      if presented.Some? && connectedPeer.Some? && pinStore != null {
        oldKey := pinStore.CheckMismatch(presented.value, connectedPeer.value.deviceName);
      }
    }

    method OnSessionSas(sas: Option<string>, key: Option<string>)
      requires Valid()
      modifies this, pinStore
      ensures Valid() && old(trail) <= trail && pinStore == old(pinStore) && Value() == OnSas(old(Value()), sas, key)
    {
      SasKeepsInv(Value(), sas, key);
      SasKeepsPins(Value(), sas, key);
      if sas.None? { return; }
      var presented, oldKey := LookUpKey(key);
      if oldKey.Some? {
        SetPeerTrust(Mismatch(connectedPeer.value.deviceName, oldKey.value));
        connectedPeer := Some(connectedPeer.value.(identityKey := presented));
      } else {
        SetPeerTrust(Unverified(sas.value));
        if presented.Some? { RememberKey(presented.value); }
      }
    }

    method RememberKey(key: string)
      modifies this`connectedPeer, pinStore
      ensures Value() == PinKey(SetKey(old(Value()), key), key)
    {
      if connectedPeer.Some? { connectedPeer := Some(connectedPeer.value.(identityKey := Some(key))); }
      if pinStore != null {
        pinStore.Pin(key, if connectedPeer.Some? then Some(connectedPeer.value.deviceName) else None);
      }
    }

    method HandleEvent(e: IpcEvent)
      requires Valid()
      modifies this, pinStore
      ensures Valid() && old(trail) <= trail && pinStore == old(pinStore) && Value() == OnIpc(old(Value()), e)
    {
      match e
      case PairingRequested(request) => pendingRequest := Some(request);
      case StatusUpdate(peers) =>
        connectedPeerCount := peers;
        if connectedPeerCount == 0 && sessionPhase.Connected? { DisconnectSession("peer disconnected"); }
      case SessionConnected(remoteId) => OnSessionConnected(remoteId);
      case SessionSas(sas, key) => OnSessionSas(sas, key);
      case SessionEnded(reason) => DisconnectSession(reason);
      case SessionError(reason) => DisconnectSession(reason);
      case BridgeDisconnected =>
        isConnected := false;
        DisconnectSession("bridge lost");
        Stop();
      case Other =>
    }

    /** Handles one drained batch; a reset in the middle makes the rest stale. */
    method Poll(online: bool, events: seq<IpcEvent>)
      requires Valid()
      modifies this, pinStore
      ensures Valid() && pinStore == old(pinStore) && old(trail) <= trail
      ensures !old(hasHandle) ==> Value() == old(Value())
      ensures old(hasHandle) ==> Value() == Fold(old(Value()).(online := online), UpToBridgeLoss(events))
    {
      if !hasHandle { return; }
      isConnected := online;
      ghost var start := Value();
      var gen := generation;
      var i := 0;
      while i < |events| && generation == gen
        invariant i <= |events|
        invariant Valid() && pinStore == old(pinStore) && old(trail) <= trail
        invariant FoldWhileCurrent(Value(), events[i..], gen) == FoldWhileCurrent(start, events, gen)
      {
        HandleEvent(events[i]);
        assert events[i..][0] == events[i] && events[i..][1..] == events[i + 1..];
        i := i + 1;
      }
      BatchStopsAtBridgeLoss(start, events);
    }
  }
}
