/** The unbounded channels that carry server messages to connections. Each channel is its
    whole history: every message ever enqueued on it, in order. */
module Channels {
  import opened Wire

  type ChannelId = nat

  datatype Network = Network(history: map<ChannelId, seq<ServerMessage>>, closed: set<ChannelId>) {

    predicate IsOpen(c: ChannelId) { c in history && c !in closed }

    function Of(c: ChannelId): seq<ServerMessage> { if c in history then history[c] else [] }

    /** Sending on a channel whose receiver is gone fails and enqueues nothing. */
    function Send(c: ChannelId, msg: ServerMessage): Network {
      if IsOpen(c) then this.(history := history[c := history[c] + [msg]]) else this
    }
  }

  function Broadcast(net: Network, targets: seq<ChannelId>, msg: ServerMessage): (r: Network)
    ensures r.history.Keys == net.history.Keys && r.closed == net.closed
  {
    if targets == [] then net
    else Broadcast(net, targets[..|targets| - 1], msg).Send(targets[|targets| - 1], msg)
  }

  ghost predicate Distinct<T>(s: seq<T>) {
    forall i, j :: 0 <= i < j < |s| ==> s[i] != s[j]
  }

  /** A broadcast puts one copy on every open target and touches nothing else. */
  lemma {:induction false} BroadcastAt(net: Network, targets: seq<ChannelId>, msg: ServerMessage, c: ChannelId)
    requires Distinct(targets)
    ensures Broadcast(net, targets, msg).Of(c) ==
            net.Of(c) + (if c in targets && net.IsOpen(c) then [msg] else [])
  {
    if targets != [] {
      var init, last := targets[..|targets| - 1], targets[|targets| - 1];
      BroadcastAt(net, init, msg, c);
      assert forall x :: x in targets <==> x in init || x == last;
      assert last !in init;
    }
  }
}
