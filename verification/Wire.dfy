/** Messages exchanged between the rendezvous server and its clients. */
module Wire {

  datatype Option<+T> = None | Some(value: T)

  datatype Result<+T, +E> = Ok(value: T) | Err(error: E)

  datatype DeviceType = Phone | Tablet | Laptop | Desktop

  /** What other members of a room learn about a peer. */
  datatype PeerData = PeerData(
    peerCode: string,
    deviceName: string,
    deviceType: DeviceType,
    wtUrl: Option<string>,
    wtCertHash: Option<string>)

  /** A relayed JSON value; the server never looks inside. */
  type Payload = string

  datatype ClientMessage =
    | Register(peer: PeerData)
    | Signal(to: string, payload: Payload)
    | ManualSignal(to: string, payload: Payload)
    | Ping

  /** Why a peer code or a signal target was refused. */
  datatype CodeError = EmptyCode | CodeTooLong | CodeNotAlphanumeric

  /** The texts the server puts in `error` messages. */
  datatype ErrorText =
    | RateLimited
    | MessageTooLarge(size: nat)
    | DeviceNameTooLong
    | InvalidCode(reason: CodeError)
    | RegisterFirst
    | AlreadyRegistered
    | Malformed
    | BinaryNotAccepted
    | RoomLimitReached
    | RoomFull
    | PeerNotFound(code: string)
    | PeerAmbiguous(code: string)
    | PeerGone(code: string)

  datatype ServerMessage =
    | Peers(peers: seq<PeerData>)
    | PeerJoined(peer: PeerData)
    | PeerLeft(peerCode: string)
    | Relay(from: string, payload: Payload)
    | Error(message: ErrorText)
}
