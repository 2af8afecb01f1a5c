/** The client's own list of peers, folded from the messages of one server connection. */
module Replica {
  import opened Wire
  import opened PeerCodes
  import opened Filters
  import opened Histories

  function OtherPeer(code: string): PeerData -> bool { (d: PeerData) => d.peerCode != code }

  predicate Knows(peers: seq<PeerData>, code: string) {
    exists i :: 0 <= i < |peers| && peers[i].peerCode == code
  }

  /** Adds a peer unless it is this client or its code is already listed. */
  function Merge(own: string, peers: seq<PeerData>, d: PeerData): seq<PeerData> {
    if d.peerCode != own && !Knows(peers, d.peerCode) then peers + [d] else peers
  }

  function MergeAll(own: string, peers: seq<PeerData>, list: seq<PeerData>): seq<PeerData> {
    if list == [] then peers else Merge(own, MergeAll(own, peers, list[..|list| - 1]), list[|list| - 1])
  }

  function AfterMessage(own: string, peers: seq<PeerData>, m: ServerMessage): seq<PeerData> {
    match m
    case Peers(list) => MergeAll(own, peers, list)
    case PeerJoined(d) => Merge(own, peers, d)
    case PeerLeft(code) => Keep(OtherPeer(code), peers)
    case _ => peers
  }

  /** The peer list after the messages `h`. */
  function View(own: string, h: seq<ServerMessage>): seq<PeerData> {
    if h == [] then [] else AfterMessage(own, View(own, h[..|h| - 1]), h[|h| - 1])
  }

  /** The discovery callback. `own` is the code as configured, hyphens included. */
  class PeerList {
    const own: string
    var peers: seq<PeerData>

    constructor (own: string)
      ensures this.own == own && peers == View(own, [])
    {
      this.own := own;
      peers := [];
    }

    method IsListed(code: string) returns (listed: bool)
      ensures listed <==> Knows(peers, code)
    {
      for i := 0 to |peers|
        invariant !Knows(peers[..i], code)
      {
        if peers[i].peerCode == code { return true; }
      }
      assert peers[..|peers|] == peers;
      return false;
    }

    method Add(d: PeerData)
      modifies this
      ensures peers == Merge(own, old(peers), d)
    {
      if d.peerCode != own {
        var listed := IsListed(d.peerCode);
        if !listed { peers := peers + [d]; }
      }
    }

    method OnMessage(m: ServerMessage)
      modifies this
      ensures peers == AfterMessage(own, old(peers), m)
    {
      match m
      case Peers(list) =>
        for i := 0 to |list|
          invariant peers == MergeAll(own, old(peers), list[..i])
        {
          assert list[..i + 1][..i] == list[..i];
          Add(list[i]);
        }
        assert list[..|list|] == list;
      case PeerJoined(d) => Add(d);
      case PeerLeft(code) => peers := Keep(OtherPeer(code), peers);
      case _ =>
    }

    /** Delivering a whole history leaves the view of that history. */
    method Deliver(h: seq<ServerMessage>)
      requires peers == []
      modifies this
      ensures peers == View(own, h)
    {
      for i := 0 to |h|
        invariant peers == View(own, h[..i])
      {
        assert h[..i + 1][..i] == h[..i];
        OnMessage(h[i]);
      }
      assert h[..|h|] == h;
    }
  }

  // ---- The view as a set of codes ----

  lemma MergeCodes(own: string, peers: seq<PeerData>, d: PeerData)
    ensures CodesOf(Merge(own, peers, d)) == CodesOf(peers) + (if d.peerCode == own then {} else {d.peerCode})
  {
    var peers' := Merge(own, peers, d);
    if peers' == peers + [d] {
      assert forall x :: x in peers' <==> x in peers || x == d;
    } else if d.peerCode != own {
      var i :| 0 <= i < |peers| && peers[i].peerCode == d.peerCode;
      assert peers[i] in peers;
    }
  }

  lemma {:induction false} MergeAllCodes(own: string, peers: seq<PeerData>, list: seq<PeerData>)
    requires own !in CodesOf(list)
    ensures CodesOf(MergeAll(own, peers, list)) == CodesOf(peers) + CodesOf(list)
  {
    if list != [] {
      var init, last := list[..|list| - 1], list[|list| - 1];
      assert forall x :: x in list <==> x in init || x == last;
      assert last in list;
      MergeAllCodes(own, peers, init);
      MergeCodes(own, MergeAll(own, peers, init), last);
    }
  }

  lemma KeepOtherCodes(peers: seq<PeerData>, code: string)
    ensures CodesOf(Keep(OtherPeer(code), peers)) == CodesOf(peers) - {code}
  {
    var kept := Keep(OtherPeer(code), peers);
    forall d | d in peers && d.peerCode != code ensures d.peerCode in CodesOf(kept) {
      assert d in kept;
    }
  }

  /** The list never names this client, and never names a code twice. */
  ghost predicate ProperList(own: string, peers: seq<PeerData>) {
    && (forall i, j :: 0 <= i < j < |peers| ==> peers[i].peerCode != peers[j].peerCode)
    && (forall i :: 0 <= i < |peers| ==> peers[i].peerCode != own)
  }

  lemma {:induction false} MergeAllKeepsProper(own: string, peers: seq<PeerData>, list: seq<PeerData>)
    requires ProperList(own, peers)
    ensures ProperList(own, MergeAll(own, peers, list))
  {
    if list != [] { MergeAllKeepsProper(own, peers, list[..|list| - 1]); }
  }

  lemma {:induction false} ViewIsProper(own: string, h: seq<ServerMessage>)
    ensures ProperList(own, View(own, h))
  {
    if h != [] {
      var before, m := View(own, h[..|h| - 1]), h[|h| - 1];
      ViewIsProper(own, h[..|h| - 1]);
      match m
      case Peers(list) => MergeAllKeepsProper(own, before, list);
      case PeerLeft(code) =>
        KeepPairwise(OtherPeer(code), before, (a: PeerData, b: PeerData) => a.peerCode != b.peerCode);
        var kept := Keep(OtherPeer(code), before);
        forall i | 0 <= i < |kept| ensures kept[i].peerCode != own { assert kept[i] in before; }
      case _ =>
    }
  }

  // ---- Views and replays ----

  /** The last word about `x` in `h` is a `PeerLeft`. */
  ghost predicate LastWordIsLeft(h: seq<ServerMessage>, x: string) {
    h != [] && if Mentions(h[|h| - 1], x) then h[|h| - 1].PeerLeft? else LastWordIsLeft(h[..|h| - 1], x)
  }

  /** Codes listed in a `Peers` message although they had already left when it was sent, and
      not mentioned since. */
  ghost predicate Stale(h: seq<ServerMessage>, x: string) {
    h != [] &&
    var init, m := h[..|h| - 1], h[|h| - 1];
    if m.Peers? then x in CodesOf(m.peers) && LastWordIsLeft(init, x)
    else Stale(init, x) && !Mentions(m, x)
  }

  ghost function StaleCodes(h: seq<ServerMessage>, snapshot: seq<PeerData>): set<string> {
    set x | x in CodesOf(snapshot) && Stale(h, x)
  }

  /** The same, by position: the departure is before `Peers`, and nothing comes after. */
  lemma {:induction false} StaleByPosition(h: seq<ServerMessage>, i: nat, x: string)
    requires i < |h| && h[i].Peers? && forall j :: i < j < |h| ==> !h[j].Peers?
    ensures Stale(h, x) <==> x in CodesOf(h[i].peers) && LastWordIsLeft(h[..i], x) && NeverMentions(h[i + 1..], x)
  {
    var n := |h| - 1;
    if i < n {
      StaleByPosition(h[..n], i, x);
      assert h[..n][..i] == h[..i];
      assert h[i + 1..] == h[..n][i + 1..] + [h[n]];
    }
  }

  /** Where a replay starts matters only for codes it does not end by removing. */
  lemma {:induction false} ReplayFrom(h: seq<ServerMessage>, start: set<string>, x: string)
    ensures x in Replay(h, start) <==> x in Replay(h, {}) || (x in start && !LastWordIsLeft(h, x))
    ensures LastWordIsLeft(h, x) ==> x !in Replay(h, start)
  {
    if h != [] { ReplayFrom(h[..|h| - 1], start, x); }
  }

  /** `own` is foreign to a history: it is neither mentioned nor listed. */
  ghost predicate Foreign(own: string, h: seq<ServerMessage>) {
    NeverMentions(h, own) && forall i :: 0 <= i < |h| && h[i].Peers? ==> own !in CodesOf(h[i].peers)
  }

  lemma {:induction false} ViewBeforePeers(own: string, h: seq<ServerMessage>)
    requires Foreign(own, h) && Snapshots(h) == []
    ensures CodesOf(View(own, h)) == Replay(h, {})
  {
    if h != [] {
      var before, m := View(own, h[..|h| - 1]), h[|h| - 1];
      ViewBeforePeers(own, h[..|h| - 1]);
      ViewStep(own, before, m);
    }
  }

  lemma ViewStep(own: string, peers: seq<PeerData>, m: ServerMessage)
    requires !Mentions(m, own) && !m.Peers?
    ensures CodesOf(AfterMessage(own, peers, m)) == Apply(CodesOf(peers), m)
  {
    match m
    case PeerJoined(d) => MergeCodes(own, peers, d);
    case PeerLeft(code) => KeepOtherCodes(peers, code);
    case _ =>
  }

  /** With one snapshot in the history, the view is the replay of the joins and leaves on
      the snapshot, plus the stale codes, none of which the replay contains. */
  lemma {:induction false} ViewIsReplayPlusStale(own: string, h: seq<ServerMessage>, snapshot: seq<PeerData>)
    requires Foreign(own, h) && Snapshots(h) == [snapshot]
    ensures CodesOf(View(own, h)) == Replay(h, CodesOf(snapshot)) + StaleCodes(h, snapshot)
    ensures Replay(h, CodesOf(snapshot)) !! StaleCodes(h, snapshot)
  {
    var init, m := h[..|h| - 1], h[|h| - 1];
    if m.Peers? {
      assert (Snapshots(init) + [m.peers])[|Snapshots(init)|] == m.peers;
      assert Snapshots(init) == [] && m.peers == snapshot;
      ViewBeforePeers(own, init);
      MergeAllCodes(own, View(own, init), snapshot);
      forall x ensures x in Replay(init, CodesOf(snapshot)) <==>
                       x in Replay(init, {}) || (x in CodesOf(snapshot) && !LastWordIsLeft(init, x))
               ensures LastWordIsLeft(init, x) ==> x !in Replay(init, CodesOf(snapshot))
      {
        ReplayFrom(init, CodesOf(snapshot), x);
      }
    } else {
      ViewIsReplayPlusStale(own, init, snapshot);
      ViewStep(own, View(own, init), m);
    }
  }

  /** If no departure is sent before `Peers`, nothing is stale. */
  lemma {:induction false} NothingStaleWithoutEarlyDeparture(h: seq<ServerMessage>, i: nat, snapshot: seq<PeerData>)
    requires i < |h| && h[i] == Peers(snapshot) && forall j :: i < j < |h| ==> !h[j].Peers?
    requires forall j :: 0 <= j < i ==> !h[j].PeerLeft?
    ensures StaleCodes(h, snapshot) == {}
  {
    forall x ensures !Stale(h, x) {
      StaleByPosition(h, i, x);
      NoDepartureNoLastWord(h[..i], x);
    }
  }

  lemma {:induction false} NoDepartureNoLastWord(h: seq<ServerMessage>, x: string)
    requires forall j :: 0 <= j < |h| ==> !h[j].PeerLeft?
    ensures !LastWordIsLeft(h, x)
  {
    if h != [] { NoDepartureNoLastWord(h[..|h| - 1], x); }
  }
}
