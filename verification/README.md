# Verified model of the LocalBolt rendezvous server and native session core

This project models, and proves properties of, four parts of LocalBolt.

**The rendezvous server** (`signal/`). `Rooms` holds the room manager: each operation is given
as a function on a `Table` (rooms, session counter, channels) and again as a method of class
`RoomManager` that works in place and is proved equal to the function. `Slots` is the
load / compare-exchange / drop protocol of the connection counter, one atomic instruction a
step. `Server` interleaves the atomic actions of all connection handlers with the slot
protocol; joining a room and sending `Peers` are two steps, as in the program.
`ServerInvariant` proves what every step keeps, `ServerTheorems` the facts about whole runs,
`Handling` what each received frame does and `RelayBound` the limiter's effect over whole runs.
`RateLimit`, `PeerCodes`, `Utf8Text` and `RoomKeys` are the limiter, the two code validators, the
byte counts and the choice of the room.

**The client's peer list** (`native/shared/src/signaling.rs`). `Replica` folds the messages of one
connection into a list. `ServerTheorems.ClientsConverge` joins it to the server: the list holds
every other code of the room, plus exactly the codes whose departure was sent before `Peers` and
that were not mentioned since. So the list is not always right; it is right if and only if there
are no such codes. `Staleness` says from the events of a run alone which codes these are, and
`StaleRun` gives a ten-event run in which the list is wrong.

**The native session** (`BoltBridge.swift`, `LocalBoltApp.swift`). `Sessions` says what each call,
button and daemon event does; `IpcManager.Manager` and `Pins.PinStore` are the objects that do it
in place, and every method of the manager keeps the phase contract, the data that goes with each
phase and one key per name. `SessionTheorems` proves these, generations, approval, key continuity
and batches over all runs; `SessionPhases` proves which steps move and end a session, whose name
it carries and whether it may transfer.

**Bounded logs and queues** (`daemon.rs`, `ipc.rs`, `DaemonManager.poll`). `DaemonLog` and
`EventQueue` compare the bounded copies with the full stream; `SessionLines` says which texts the
monitor recognises.

Where the code and its documentation differ, the model follows the code. `RateLimit` is
documented as a sliding window but is a fixed one: `RateLimit.RateBoundIsReached` accepts a
hundred messages within one second. The address tests are documented as fc00::/7 and fe80::/10,
but the texts they look for also fit addresses such as fc::1 and miss fe81::1 to febf::1;
`IPv6Texts.IPv6TestsExactly` gives the exact groups.

A channel is the whole history of what was enqueued on it, and it can be closed at any time.
Times, the decisions of users and of the daemon, the order in which handlers run and the order
in which maps are enumerated are inputs and therefore arbitrary. The address syntax of the standard
library is a parameter of `RoomKeys.RoomKey`.

## Model

| member | source | states |
|---|---|---|
| Rooms.RoomManager.AddPeer | signal/src/room.rs:98-171 | registration in place equals the specified new table and answer, and keeps the room invariants |
| Rooms.RoomManager.OpenRoomWithout | signal/src/room.rs:116-130 | opening the room and taking out the stale entry leaves exactly the entries with other codes |
| Rooms.RoomManager.RemovePeer | signal/src/room.rs:182-228 | session-guarded removal in place equals the specified new table, and keeps the room invariants |
| Rooms.RoomManager.SendAll | signal/src/room.rs:148-156 | the send loop equals a broadcast to the room's channels |
| Rooms.RoomManager.FindPeer | signal/src/room.rs:243-252 | the answer is the channel of the entry with the code in the caller's room, and nothing if there is none |
| Rooms.RoomManager.FindPeerManual | signal/src/room.rs:261-279 | in any enumeration order: the one entry with the code, ambiguous if two rooms hold it, not found if none does |
| Rooms.LookupAnswerIsUnique | signal/src/room.rs:261-279 | the manual answer is determined by the rooms, not by the enumeration order |
| Rooms.RoomManager.PeerCount | signal/src/room.rs:287-289 | the count over all rooms is the number of distinct session ids in them |
| Rooms.EntriesAfterAdd | signal/src/room.rs:116-170 | registration replaces the entry with the same code in the same room and changes no other entry |
| Rooms.EntriesAfterRemove | signal/src/room.rs:182-226 | removal takes out the entry with that code and session and no other |
| Rooms.AddKeepsValid | signal/src/room.rs:106-170 | unique codes, no empty room, 256 peers a room, 65536 rooms and unique session ids survive registration |
| Rooms.RemoveKeepsValid | signal/src/room.rs:186-226 | the same invariants survive removal |
| Rooms.RefusalIsExactAndHarmless | signal/src/room.rs:105-140 | registration is refused exactly for a new room beyond the limit or a full room without the code; then no room and no channel changes |
| Rooms.RoomAfterAdd | signal/src/room.rs:142-171 | the codes of the room and of the returned snapshot after registration |
| Channels.BroadcastAt | signal/src/room.rs:152-156 | a broadcast puts one copy on each open target and nothing anywhere else |
| Slots.SlotsAreNeverOversubscribed | signal/src/lib.rs:113-133 | in every interleaving the counter is the number of live guards, within 0 and the limit, and failed exchanges of a thread are no more than changes of the counter |
| Slots.FailedExchangeWasOvertaken | signal/src/lib.rs:119-131 | a failed exchange implies that another thread changed the counter since this thread's load |
| Slots.TurnedAwayExactly | signal/src/lib.rs:114-118 | a thread is turned away exactly if the limit is reached at its load |
| Slots.UndisturbedThreadGetsASlot | signal/src/lib.rs:119-129 | below the limit, a thread that nobody overtakes gets its slot with the first exchange |
| ServerInvariant.EveryRunKeepsInv | signal/src/server.rs:180-637 | rooms, connections, channel histories, slots and limiters agree in every state of every run |
| ServerInvariant.StepKeepsInv | signal/src/server.rs:327-637 | each event of any handler keeps that agreement |
| ServerInvariant.BroadcastReachesKept | signal/src/room.rs:152-209 | exactly the other open members of the room receive a join or leave message |
| ServerInvariant.OnTextKeepsLimiter | signal/src/server.rs:475-488 | a handler stops at the first close verdict, so its violation counter never exceeds 3 |
| Handling.RejectedTextsAreRefused | signal/src/server.rs:480-486 | a text over the rate earns its sender one "rate limited" error and does nothing else, whatever it says and in either phase |
| Handling.ClosingTextsStopTheHandler | signal/src/server.rs:475-479 | the text that closes stops the handler; nothing is sent and no room changes |
| Handling.OversizedTextsAreRefused | signal/src/server.rs:490-495 | a text over 1 MiB earns its sender the size error and does nothing else |
| Handling.NonRegistrationsAreRefused | signal/src/server.rs:356-399 | before registration: the error for a text that does not parse, another message, and a device name of more than 256 UTF-8 bytes; the handler goes on |
| Handling.RegistrationOutcome | signal/src/server.rs:418-448 | an invalid code and a refusal by the room are each told to the client and end the handler; otherwise it is a member with the room's snapshot |
| Handling.OtherMemberTexts | signal/src/server.rs:585-604 | a member's ping does nothing; a second registration and a text that does not parse earn an error |
| Handling.OtherFrames | signal/src/server.rs:605-627 | binary frames earn an error, control frames nothing; the end of the stream and the idle timeout stop the handler silently |
| Handling.HandlerEndsExactly | signal/src/server.rs:327-627 | a handler stops reading exactly at the timeout, the end of the stream, a closing text or a registration that is turned away |
| Handling.EveryConnectionCanFinish | signal/src/lib.rs:145-179 | from every reachable state a connection can run to its end within four steps of its own, and frees its slot |
| RelayBound.NewConnections | signal/src/lib.rs:145-179 | a new connection is one that was just accepted, unregistered, with its room key and a fresh limiter; channels are never forgotten |
| RelayBound.VerdictInRun | signal/src/server.rs:327-349 | in every run of the server the verdict on a connection's next text depends only on the arrival times of its own texts: accept to the 50th of its window, reject the 51st and 52nd, close from the 53rd |
| RelayBound.OnlyReceivingRelays | signal/src/server.rs:498-588 | no event but a received frame relays anything |
| RelayBound.RelaysAreBounded | signal/src/server.rs:475-588 | in every run of the server a connection causes at most 50(k+1) relays, on all channels together, in any half-open interval of k seconds |
| ServerTheorems.PeersFitInSlots | signal/src/lib.rs:145-179 | each entry belongs to exactly one live registered connection; peers in all rooms are at most the slots in use, which are at most the limit |
| ServerTheorems.EntryEndsExactly | signal/src/room.rs:182-199 | an entry leaves its room exactly at its own session's cleanup or at a later registration of its code in that room |
| ServerTheorems.EntryStaysUntilEnded | signal/src/room.rs:122-129 | the same over whole runs |
| ServerTheorems.JoiningTellsTheRoom | signal/src/server.rs:417-448 | a registration enters the peer's data under its normal code with a new session, and tells each open member with another code once |
| ServerInvariant.RegisterIsQuietUnlessItJoins | signal/src/server.rs:356-448 | any other message of an unregistered connection changes no room and tells no client about one |
| ServerTheorems.CleanupTouchesOnlyItsOwnEntry | signal/src/server.rs:630-636 | cleanup changes nothing if and only if the connection was replaced; otherwise each other open member of the room is told once |
| ServerTheorems.ReplacedStaysReplaced | signal/src/room.rs:189-198 | a replaced connection stays replaced until its cleanup, whenever that comes |
| ServerTheorems.ClientsConverge | native/shared/src/signaling.rs:122-158 | for every run and every announced current member with an open channel: the client's list is the room's other codes plus exactly the stale ones, without repetition; it is exact if and only if nothing is stale |
| ServerTheorems.ViewInState | native/shared/src/signaling.rs:122-158 | the same for the client's codes in any state that satisfies the server invariant |
| Staleness.CodesStep | signal/src/room.rs:116-226 | in every step of the server: a code is in a room afterwards exactly if it was there and its entry did not depart, or it joined |
| Staleness.StaleWhenAnnounced | signal/src/server.rs:440-454 | when `Peers` is sent, the stale codes are exactly those of the snapshot that are no longer in the room |
| Staleness.StaleExactly | signal/src/server.rs:440-454 | for every run: a code is stale exactly if it is in the snapshot, its last join or departure before `Peers` is a departure, and it does not join after `Peers` |
| Staleness.ListedExactly | native/shared/src/signaling.rs:122-158 | for every run and every current member: which codes the client lists, told from the room and the joins and departures of the run alone |
| StaleRun.AClientCanListAnAbsentPeer | signal/src/server.rs:440-454 | a concrete run from the empty server after which a client lists a peer that is not in its room |
| Replica.PeerList.OnMessage | native/shared/src/signaling.rs:122-158 | the callback's loops and `retain` on the shared vector equal the specified list |
| Replica.PeerList.Deliver | native/shared/src/signaling.rs:119-191 | delivering a history message by message leaves the view of that history |
| Replica.ViewIsReplayPlusStale | native/shared/src/signaling.rs:122-158 | with one snapshot in the history the list is the replay of joins and leaves plus the stale codes, disjointly |
| Replica.ViewIsProper | native/shared/src/signaling.rs:126-148 | the list never names the client itself and never names a code twice |
| Replica.StaleByPosition | native/shared/src/signaling.rs:122-158 | stale means: listed in `Peers`, the last earlier word was a departure, and no later word |
| Replica.NothingStaleWithoutEarlyDeparture | signal/src/server.rs:450-454 | if no departure is sent before `Peers`, nothing is stale |
| ServerTheorems.SignalsAreRouted | signal/src/server.rs:498-533 | a signal to any spelling of a code puts one message with the sender's code and payload on the channel of that entry of the sender's room, or one error on the sender's if that channel is closed |
| ServerTheorems.SignalsStayInTheRoom | signal/src/server.rs:510-533 | without such an entry in the sender's room only the sender gets an error |
| ServerTheorems.BadTargetsGoNowhere | signal/src/server.rs:500-508 | a text that spells no code only earns its sender an error |
| ServerTheorems.ManualSignalsAreRouted | signal/src/server.rs:534-588 | a manual signal is relayed exactly when one entry of all rooms has the code |
| PeerCodes.ValidatorsNameTheSpelledCode | signal/src/server.rs:89-107 | both validators succeed on exactly the spellings of normal codes, with that code, and always agree |
| PeerCodes.RefusalsAreNamed | signal/src/server.rs:641-658 | which of the three errors a text earns: only hyphens, more than 16 bytes besides hyphens, or a character that is no letter or digit |
| Utf8Text.Utf8SizeIsExact | signal/src/server.rs:76-84 | a character is counted with the bytes of its UTF-8 encoding, which announces its length and can be read back |
| PeerCodes.HyphensAreIgnored | signal/src/server.rs:641-658 | a hyphen inserted anywhere changes neither outcome |
| PeerCodes.NormalCodesAreFixed | signal/src/server.rs:641-658 | validation is idempotent |
| RateLimit.RateLimiter.CheckNow | signal/src/server.rs:141-160 | the check in place equals the specified limiter step and verdict |
| RateLimit.VerdictIsPosition | signal/src/server.rs:141-160 | the verdict is fixed by the message's position in its window: accept to 50, reject 51 and 52, close from 53 |
| RateLimit.ViolationsStayBounded | signal/src/server.rs:327-349 | up to the first close the counter is at most 3, and 3 only there |
| RateLimit.PoliteClientsAreServed | signal/src/server.rs:141-160 | at most 50 messages in every second are all accepted; at most 52 never close the connection |
| RateLimit.RateBound | signal/src/server.rs:141-160 | at most 50(k+1) messages are accepted in any half-open interval of k seconds |
| RateLimit.RateBoundIsReached | signal/src/server.rs:109-115 | that bound is reached for every k, so the window is not a sliding one |
| RoomKeys.TextTestsAreExact | signal/src/server.rs:661-713 | on printed IPv4 addresses the text tests hold exactly for 127.0.0.1, the blocks of RFC 1918, 169.254/16 and 100.64/10 |
| IPv6Texts.IPv6TestsExactly | signal/src/server.rs:700-712 | on a printed IPv6 address that begins with a group, the text tests hold exactly for fc00::/7 and fe80::/10 if and only if that group is not fc, fd, fc0 to fdf or fe81 to febf; for those they err |
| IPv6Texts.CompressedTexts | signal/src/server.rs:696-699 | an address printed with leading colons is taken for a local one only if it is ::1 |
| RoomKeys.TrimmingIsHolding | signal/src/server.rs:219-242 | trimming gives exactly the part of a header value between the blanks around it |
| RoomKeys.FlyAddressDecides | signal/src/server.rs:219-231 | a valid address in Fly-Client-IP decides the room, whatever X-Forwarded-For says |
| RoomKeys.ForwardedForIsSecond | signal/src/server.rs:234-250 | without one, the first entry of X-Forwarded-For decides, if it is a valid address |
| RoomKeys.SocketIsLast | signal/src/server.rs:286-301 | without a valid address in either header, the socket's address decides |
| RoomKeys.FlyAddressIsTheRoom | signal/src/server.rs:277-301 | behind a private or trusted socket, a public IPv4 address in Fly-Client-IP is the room, with any blanks around it and any other header |
| RoomKeys.PublicPeersGetTheirOwnRoom | signal/src/server.rs:277-301 | a public untrusted IPv4 peer gets a room keyed by its own address only, for all headers and proxy lists |
| RoomKeys.RoomOfAnAddressExactly | signal/src/server.rs:277-301 | which IPv4 sockets are in the room of a public address, for all headers and proxy lists: those whose forwarded address is used and is that address, or the address itself where no forwarded one is used; a private socket with a header is among them |
| RoomKeys.LocalRoomExactly | signal/src/server.rs:294-301 | which IPv4 sockets are in the shared room, for all headers and proxy lists |
| Pins.PinStore.CheckMismatch | native/macos/Sources/LocalBolt/BoltBridge.swift:549-554 | a mismatch is reported exactly if another key has the name; with one key per name the answer does not depend on the order of the dictionary |
| Pins.MismatchExactly | native/macos/Sources/LocalBolt/BoltBridge.swift:549-554 | a mismatch is found exactly if a key other than the presented one has the name, and it names such a key |
| Pins.KeyPrefixIs | native/macos/Sources/LocalBolt/BoltBridge.swift:551 | a reported key is its first twelve characters, or all of a shorter one, and three dots |
| Pins.PinStore.Pin | native/macos/Sources/LocalBolt/BoltBridge.swift:531-535 | pinning in place equals the specified map; a pinned key is left as it is |
| Pins.PinningKeepsOneKeyPerName | native/macos/Sources/LocalBolt/BoltBridge.swift:531-554 | pinning after the mismatch check keeps one key per name and alters no pin |
| IpcManager.Manager.BeginRequest | native/macos/Sources/LocalBolt/BoltBridge.swift:716-722 | in-place request, including the reset of a disconnected notice; succeeds exactly from idle or disconnected |
| IpcManager.Manager.ReceiveRequest | native/macos/Sources/LocalBolt/BoltBridge.swift:725-730 | in-place incoming request; succeeds exactly from idle or disconnected |
| IpcManager.Manager.ResetSession | native/macos/Sources/LocalBolt/BoltBridge.swift:751-763 | the reset clears every session field and raises the generation |
| IpcManager.Manager.SendPairingDecision | native/macos/Sources/LocalBolt/BoltBridge.swift:797-817 | a decision stashes the accepted peer and consumes the request |
| IpcManager.Manager.OnSessionConnected | native/macos/Sources/LocalBolt/BoltBridge.swift:884-918 | the connected event adopts the stashed peer in place as specified |
| IpcManager.Manager.OnSessionSas | native/macos/Sources/LocalBolt/BoltBridge.swift:920-942 | the SAS event in place, with its mismatch check and pin, as specified, keeping one key per name |
| IpcManager.Manager.OnWtSessionUp | native/macos/Sources/LocalBolt/LocalBoltApp.swift:253-271 | a session seen only in the log advances the state as specified |
| IpcManager.Manager.AcceptIncoming | native/macos/Sources/LocalBolt/LocalBoltApp.swift:666-682 | accepting stashes the peer and undoes the stash if connecting is refused |
| IpcManager.Manager.HandleEvent | native/macos/Sources/LocalBolt/BoltBridge.swift:866-999 | each daemon event in place equals its specification |
| IpcManager.Manager.Poll | native/macos/Sources/LocalBolt/BoltBridge.swift:842-1003 | one poll folds its batch up to and including the first loss of the bridge |
| SessionTheorems.EveryRunFollowsTheContract | native/macos/Sources/LocalBolt/BoltBridge.swift:710-778 | in every run the phases are stutters and the nine contract edges; a connected peer implies connected; the initiator's stash implies requesting, connecting or connected |
| SessionTheorems.TrailRecordsTheRun | native/macos/Sources/LocalBolt/BoltBridge.swift:710-778 | the recorded phases are append-only: each state's phase stands on the final trail, where that state's own trail ends |
| SessionTheorems.ConnectedComesFromARequest | native/shared/src/contract_parity.rs:38-81 | connected comes out of a request phase and connecting, with no idle since |
| SessionPhases.PhasesEnteredExactly | native/macos/Sources/LocalBolt/BoltBridge.swift:716-745 | which steps enter each of the four phases of a session, and from which phases, as if-and-only-ifs |
| SessionPhases.SessionsEndExactly | native/macos/Sources/LocalBolt/BoltBridge.swift:751-783 | from any phase: which steps end a session, with which notice; then no peer, request or stash is left and transfers are blocked; no other step leaves a session |
| SessionPhases.StaysConnectedExactly | native/macos/Sources/LocalBolt/BoltBridge.swift:866-999 | over any run, a connected session stays connected exactly if none of the ending steps is in it |
| SessionPhases.OtherFieldsExactly | native/macos/Sources/LocalBolt/BoltBridge.swift:866-876 | the pending request, the peer count and the bridge change at named steps only; pins are loaded once |
| SessionPhases.StashesExactly | native/macos/Sources/LocalBolt/BoltBridge.swift:797-817 | which steps stash the accepted peer and the peer asked for, with which data and trust, and which clear them |
| SessionPhases.PeerOfASession | native/macos/Sources/LocalBolt/BoltBridge.swift:884-918 | for every run from a request to its connection: whose name, code, key and trust the session carries: the peer accepted last, else the one asked for, else a nameless one |
| SessionPhases.AcceptedRequestsConnectTheirPeer | native/macos/Sources/LocalBolt/LocalBoltApp.swift:666-682 | an arriving request that is accepted connects, however long it takes, under the accepted peer's name, with transfers allowed unless a code comes with it |
| SessionPhases.TransfersInASession | native/macos/Sources/LocalBolt/BoltBridge.swift:612-622 | for every run from a request through its session: transfers are allowed exactly if approval is the last word on the codes shown, or none was shown and the session did not begin with one |
| SessionTheorems.BothPathsConnectTheSamePeer | native/macos/Sources/LocalBolt/LocalBoltApp.swift:253-271 | a session noticed by an event and one noticed in the log, with or without a code, connect the same stashed peer; its trust is the stashed one until a code is shown |
| SessionTheorems.ConnectsTheRequestedPeerExactly | native/macos/Sources/LocalBolt/BoltBridge.swift:884-918 | for every run from a request to its connection: the peer asked for is adopted exactly if no acceptance of another request is outstanding; otherwise the session carries the accepted peer's name and the peer asked for stays stashed |
| SessionTheorems.ASessionCanCarryAnotherName | native/macos/Sources/LocalBolt/BoltBridge.swift:797-817 | from any idle attached session with a pending request, four steps connect a session that was asked of one peer under the name of another |
| SessionTheorems.StaleGenerationsNeverMatch | native/macos/Sources/LocalBolt/BoltBridge.swift:748-783 | a captured generation is current exactly if no reset happened since |
| SessionTheorems.ApprovalIsTheLastWord | native/macos/Sources/LocalBolt/BoltBridge.swift:612-622 | within a session transfers are allowed exactly if approval is the last word on the codes shown, or none was shown and they were allowed to begin with |
| SessionTheorems.SessionsStartUnapproved | native/macos/Sources/LocalBolt/LocalBoltApp.swift:783-816 | no session starts verified or mismatched; a peer is verified exactly by the user's approval, until a code is shown, and approval comes only from unverified |
| SessionTheorems.PinsArePermanent | native/macos/Sources/LocalBolt/BoltBridge.swift:528-554 | no run alters or drops a pin or gives a name a second key |
| SessionTheorems.SasOutcomeExactly | native/macos/Sources/LocalBolt/BoltBridge.swift:920-942 | a shown code makes a connected peer a mismatch if and only if another key is pinned under its name; otherwise it is unverified with that code, and approval is offered |
| SessionTheorems.ReturningDevicesAreNoMismatch | native/macos/Sources/LocalBolt/BoltBridge.swift:934-941 | after any run, a device that presents its own pinned key again is unverified with the new code, and the store is unchanged |
| SessionTheorems.PinnedNamesRejectOtherKeys | native/macos/Sources/LocalBolt/BoltBridge.swift:920-933 | after any run, a pinned name presented with another key, in the event or remembered from its connection, is a mismatch naming the pinned key, and blocks transfers |
| SessionTheorems.NamesArePinnedExactly | native/macos/Sources/LocalBolt/BoltBridge.swift:531-554 | after a key is presented the name is pinned exactly if it was before or the key was pinned under no name |
| SessionTheorems.ASecondKeyCanBeAccepted | native/macos/Sources/LocalBolt/BoltBridge.swift:531-533 | a key that is already pinned under another name does not bind the new one, so a second key for that name is no mismatch |
| SessionTheorems.BatchStopsAtBridgeLoss | native/macos/Sources/LocalBolt/BoltBridge.swift:854-858 | the generation test makes a batch equal its prefix up to the loss of the bridge, which leaves a fully reset idle session |
| EventQueue.Queue.Push | native/shared/src/ipc.rs:44-55 | the capped queue is the first thousand events pushed since the last drain |
| EventQueue.Queue.Drain | native/shared/src/ipc.rs:85-102 | a drain hands over those events as one text and empties the queue |
| EventQueue.DrainsSplitBack | native/macos/Sources/LocalBolt/BoltBridge.swift:850-856 | splitting the drained text gives exactly those events |
| Lines.SplitJoined | native/shared/src/ipc.rs:95 | splitting joined lines gives them back except empty ones |
| Lines.JoinOfConcat | native/shared/src/ipc.rs:95 | joined lines have a line feed between any two parts and nowhere else |
| DaemonLog.StderrBuffer.Capture | native/shared/src/daemon.rs:202-213 | each captured line keeps the bounded buffer a function of the full log |
| DaemonLog.StderrBuffer.Recent | native/shared/src/daemon.rs:281-296 | the text handed over is made of the buffer's last n lines |
| DaemonLog.BufferIsTheEndOfTheLog | native/shared/src/daemon.rs:206-210 | the buffer is the end of the full log, of exactly known length: all up to 1000 lines, then 501 to 1000 |
| DaemonLog.RecentLinesAreExact | native/shared/src/daemon.rs:289-292 | the last n lines are those of the full log exactly if the buffer holds n or the whole log; always for n up to 501 |
| SessionLines.LifecycleExactly | native/macos/Sources/LocalBolt/BoltBridge.swift:217-222 | a line reports a session registered exactly if "ACTIVE_SESSION registered" occurs in it, and cleared exactly if that does not and "ACTIVE_SESSION cleared" does |
| SessionLines.PrintedCodeExactly | native/macos/Sources/LocalBolt/BoltBridge.swift:211-216 | the code of a line is the six characters after its first "[SAS] " |
| DaemonLog.Monitor.PollOnce | native/macos/Sources/LocalBolt/BoltBridge.swift:190-251 | one poll parses the tail in order and updates text, session flag and session code as specified |
| DaemonLog.PollText | native/macos/Sources/LocalBolt/BoltBridge.swift:198-201 | the text kept after a poll is the last 30 lines of the full log, or the previous text if one of them holds a NUL |
| DaemonLog.CodesBelongToSessions | native/macos/Sources/LocalBolt/BoltBridge.swift:202-240 | no run of polls shows a code without a session, or a code that is not six characters long |
| DaemonLog.PollIsRightExactly | native/macos/Sources/LocalBolt/BoltBridge.swift:202-240 | a poll leaves the flag at what the last session line of the whole log says exactly if the new lines are visible: their last session line is among the 30 lines read and none of these holds a NUL, or it does not change what the whole log says |
| DaemonLog.EveryPollIsRightExactly | native/macos/Sources/LocalBolt/BoltBridge.swift:202-240 | the flag is right after every poll of a run exactly if every batch of new lines is visible |
| DaemonLog.TailPollingFollowsTheFullLog | native/macos/Sources/LocalBolt/BoltBridge.swift:202-240 | with at most 30 lines between polls and no NUL, every batch is visible, so the flag is always right |
| DaemonLog.FlagTellsTheLog | native/macos/Sources/LocalBolt/BoltBridge.swift:202-240 | under the same conditions, after every poll the flag is set exactly if some line of the whole log holds the registered text and no later one the cleared text, or it was set at first and no line clears it |
| DaemonLog.CodeTellsTheTail | native/macos/Sources/LocalBolt/BoltBridge.swift:209-236 | the code shown after a poll: the last one printed up to the last registration in the tail, else the one already shown; none after a clearing line |
| DaemonLog.ALongerBatchCanHideASession | native/macos/Sources/LocalBolt/BoltBridge.swift:198-206 | after any log, a session line that changes the truth and is followed by 30 or more others leaves the flag wrong |
| DaemonLog.ANulLineCanHideASession | native/shared/src/daemon.rs:293-295 | so does one followed by a line that holds a NUL |

## Left out

- Interleaving inside `RoomManager` methods: each is one step. The moment between unlocking a room and removing it when empty, the room limit test before the entry is opened, and the session id taken before the lock are not modelled.
- Finding a relay target and sending to it are one step of `Server`.
- Session ids and generations are unbounded numbers; the wrap of the 64-bit counters after 2^64 registrations or resets is not modelled.
- Handshake, HTTP health reply, sockets, JSON and logging: a handler can stop before registering or leave its loop at any time.
- Panics and task cancellation: one that strikes between `add_peer` and `remove_peer` drops the connection's guard but leaves its entry in the room; then entries can outnumber slots.
- DiscoveryEvent decoding in bolt-app-core is not part of this model: server messages are taken to arrive one to one and in order, for one connection of one plane.
- Peer metadata, list order, several planes sharing one list, the client's event vector, signal vector and `connected` flag.
- `get_room_peers` and `room_count`: easy readers of the rooms.
- RoomKeys.RoomOfAnAddressExactly: about IPv4 sockets and addresses only; the address tests are settled for IPv6 in `IPv6Texts`, and the header rules hold for any socket.
- RoomKeys.LocalRoomExactly: about IPv4 sockets only, for the same reason.
- Pin files on disk: one process lifetime; a loaded pin map is taken to have one key per name. The date and the unused verified flag of a pin are omitted.
- Which session a code found in the daemon's log belongs to: `wtSessionSAS` is modelled, but a code printed for an earlier session can be shown with a later one.
- Transfer phases, sizes and progress, which no session phase guards.
- SwiftUI and GTK views, daemon spawning, command files, CLI, the IPC connection retries, and bolt-core-sdk and bolt-daemon.
- IpcManager.Manager.Start: does not model the delayed retries of a failed first connection, which only repeat the call.
