/** What a channel's history says about the room. */
module Histories {
  import opened Wire
  import opened PeerCodes

  /** The codes in a list of peers. */
  function CodesOf(peers: seq<PeerData>): set<string> { set d | d in peers :: d.peerCode }

  /** Joins and leaves applied in order to a set of codes; other messages do not count. */
  function Replay(h: seq<ServerMessage>, start: set<string>): set<string> {
    if h == [] then start else Apply(Replay(h[..|h| - 1], start), h[|h| - 1])
  }

  function Apply(codes: set<string>, m: ServerMessage): set<string> {
    match m
    case PeerJoined(peer) => codes + {peer.peerCode}
    case PeerLeft(code) => codes - {code}
    case _ => codes
  }

  /** The snapshots sent with `Peers` messages. */
  function Snapshots(h: seq<ServerMessage>): seq<seq<PeerData>> {
    if h == [] then []
    else Snapshots(h[..|h| - 1]) + (if h[|h| - 1].Peers? then [h[|h| - 1].peers] else [])
  }

  predicate Mentions(m: ServerMessage, code: string) {
    (m.PeerJoined? && m.peer.peerCode == code) || (m.PeerLeft? && m.peerCode == code)
  }

  ghost predicate NeverMentions(h: seq<ServerMessage>, code: string) {
    forall i :: 0 <= i < |h| ==> !Mentions(h[i], code)
  }

  /** Every code a history mentions is a normal code other than `code`. */
  ghost predicate MentionsOthers(h: seq<ServerMessage>, code: string) {
    forall i, x :: 0 <= i < |h| && Mentions(h[i], x) ==> IsNormal(x) && x != code
  }

  predicate IsQuiet(m: ServerMessage) { m.Relay? || m.Error? }

  ghost predicate Quiet(h: seq<ServerMessage>) {
    forall i :: 0 <= i < |h| ==> IsQuiet(h[i])
  }

  lemma {:induction false} ReplayQuiet(h: seq<ServerMessage>, start: set<string>)
    requires Quiet(h)
    ensures Replay(h, start) == start && Snapshots(h) == []
  {
    if h != [] { ReplayQuiet(h[..|h| - 1], start); }
  }

  lemma OneMore(h: seq<ServerMessage>, m: ServerMessage, start: set<string>)
    ensures Replay(h + [m], start) == Apply(Replay(h, start), m)
    ensures Snapshots(h + [m]) == Snapshots(h) + (if m.Peers? then [m.peers] else [])
    ensures forall code :: NeverMentions(h, code) && !Mentions(m, code) ==> NeverMentions(h + [m], code)
    ensures forall code :: MentionsOthers(h, code) && (forall x :: Mentions(m, x) ==> IsNormal(x) && x != code) ==>
              MentionsOthers(h + [m], code)
    ensures Quiet(h) && IsQuiet(m) ==> Quiet(h + [m])
  {
    var h' := h + [m];
    assert h'[..|h'| - 1] == h;
    forall code | MentionsOthers(h, code) && forall x :: Mentions(m, x) ==> IsNormal(x) && x != code
      ensures MentionsOthers(h', code)
    {
      forall i, x | 0 <= i < |h'| && Mentions(h'[i], x) ensures IsNormal(x) && x != code {
        if i < |h| { assert h'[i] == h[i]; }
      }
    }
  }
}
