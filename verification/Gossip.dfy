/** The block-gossip task of one node (`GossipTask`), and what it does to the node's abstract
    state (`Handle`).

    Cryptography is represented by two fields of a package: whether its signature checks, and
    the key it names.  A header is represented by its hash and its number.
 */
module Gossip {

  type PeerId = nat

  datatype Header = Header(hash: nat, number: nat)

  /** What is forwarded to the engine control task. */
  datatype Head = Head(hash: nat, number: nat)

  datatype Package = Package(header: Header, seqNo: nat, publicKey: nat, signed: bool)

  datatype Config = Config(sequencerPubkey: nat, sequencerEnabled: bool, hasPrivkey: bool)

  datatype Command = SendPackage(to: PeerId, package: Package)

  datatype Event =
    | Established(peer: PeerId, channel: nat)
    | Closed(peer: PeerId)
    | Received(peer: PeerId, package: Package)
    | Commit(headers: seq<Header>)
    | Reorg
    | Lagged
    | StateClosed

  /** The part of a node's state that later behaviour depends on, with the history of heads it
      has forwarded. */
  datatype Node = Node(connections: set<PeerId>, highest: nat, forwarded: seq<Head>)

  const NEW_NODE := Node({}, 0, [])

  /** The package passes both the signature and the public-key test. */
  predicate Authentic(key: nat, p: Package) {
    p.signed && p.publicKey == key
  }

  function HeadOf(p: Package): Head {
    Head(p.header.hash, p.header.number)
  }

  function NewPackage(key: nat, tip: Header): Package {
    Package(tip, tip.number, key, true)
  }

  function Flood(peers: set<PeerId>, p: Package): set<Command> {
    set peer | peer in peers :: SendPackage(peer, p)
  }

  predicate Accepts(config: Config, n: Node, p: Package) {
    Authentic(config.sequencerPubkey, p) && n.highest < p.seqNo
  }

  /** The node after one event, and the packages it hands to its connections. */
  function Handle(config: Config, n: Node, e: Event): (Node, set<Command>) {
    match e
    case Established(peer, _) => (n.(connections := n.connections + {peer}), {})
    case Closed(peer) => (n.(connections := n.connections - {peer}), {})
    case Received(peer, p) =>
      if Accepts(config, n, p) then
        (n.(highest := p.seqNo, forwarded := n.forwarded + [HeadOf(p)]), Flood(n.connections - {peer}, p))
      else (n, {})
    case Commit(headers) =>
      if headers != [] && config.sequencerEnabled && config.hasPrivkey then
        (n, Flood(n.connections, NewPackage(config.sequencerPubkey, headers[|headers| - 1])))
      else (n, {})
    case Reorg => (n, {})
    case Lagged => (n, {})
    case StateClosed => (n, {})
  }

  /** The node and everything sent, after a whole stream of events; the stream ends early when
      the canonical-state subscription closes. */
  function Replay(config: Config, n: Node, events: seq<Event>): (Node, multiset<Command>)
    decreases |events|
  {
    if events == [] || events[0].StateClosed? then (n, multiset{})
    else
      var (n1, sent) := Handle(config, n, events[0]);
      var (n2, rest) := Replay(config, n1, events[1..]);
      (n2, multiset(sent) + rest)
  }

  lemma {:induction false} FloodStep(done: set<PeerId>, peer: PeerId, p: Package)
    requires peer !in done
    ensures multiset(Flood(done + {peer}, p)) == multiset(Flood(done, p)) + multiset{SendPackage(peer, p)}
  {
    assert Flood(done + {peer}, p) == Flood(done, p) + {SendPackage(peer, p)};
  }

  // ---------------------------------------------------------------- connections

  /** The event opens or closes the connection to `peer`. */
  predicate About(e: Event, peer: PeerId) {
    (e.Established? && e.peer == peer) || (e.Closed? && e.peer == peer)
  }

  /** After any events a peer is connected exactly when the last event about it opened the
      connection; one that no event was about is connected as before. */
  lemma {:induction false} ConnectedMeansEstablishedLast(config: Config, n: Node, events: seq<Event>, peer: PeerId)
    requires forall i :: 0 <= i < |events| ==> !events[i].StateClosed?
    ensures
      var connected := peer in Replay(config, n, events).0.connections;
      || (exists i :: 0 <= i < |events| && LastAbout(events, i, peer) && connected == events[i].Established?)
      || ((forall i :: 0 <= i < |events| ==> !About(events[i], peer)) && connected == (peer in n.connections))
    decreases |events|
  {
    if events != [] {
      var next := Handle(config, n, events[0]).0;
      ConnectedMeansEstablishedLast(config, next, events[1..], peer);
      if forall i :: 0 <= i < |events[1..]| ==> !About(events[1..][i], peer) {
        assert forall i :: 0 < i < |events| ==> events[i] == events[1..][i - 1];
        assert About(events[0], peer) ==> LastAbout(events, 0, peer);
      } else {
        var connected := peer in Replay(config, n, events).0.connections;
        var i :| 0 <= i < |events[1..]| && LastAbout(events[1..], i, peer) && connected == events[1..][i].Established?;
        assert forall j :: i + 1 < j < |events| ==> events[j] == events[1..][j - 1];
        assert LastAbout(events, i + 1, peer);
      }
    }
  }

  ghost predicate LastAbout(events: seq<Event>, i: nat, peer: PeerId)
    requires i < |events|
  {
    About(events[i], peer) && forall j :: i < j < |events| ==> !About(events[j], peer)
  }

  // ---------------------------------------------------------------- the event loop

  class GossipTask {
    const config: Config
    var connections: map<PeerId, nat>
    var highestSeqNo: nat
    /** Every value put on the preconf watch channel, oldest first. */
    var forwarded: seq<Head>
    /** Every command handed to a connection. */
    var sent: multiset<Command>

    constructor (config: Config)
      ensures this.config == config && View() == NEW_NODE && sent == multiset{}
    {
      this.config := config;
      connections, highestSeqNo, forwarded, sent := map[], 0, [], multiset{};
    }

    ghost function View(): Node
      reads this
    {
      Node(connections.Keys, highestSeqNo, forwarded)
    }

    /** Sends to every connection except `skip`, in whatever order the map yields them. */
    method SendToAllBut(skip: set<PeerId>, p: Package)
      modifies this`sent
      ensures sent == old(sent) + multiset(Flood(connections.Keys - skip, p))
    {
      var todo := connections.Keys;
      ghost var done: set<PeerId> := {};
      assert Flood(done, p) == {};
      while todo != {}
        invariant todo <= connections.Keys
        invariant done == connections.Keys - todo - skip
        invariant sent == old(sent) + multiset(Flood(done, p))
        decreases todo
      {
        var peer :| peer in todo;
        todo := todo - {peer};
        if peer in skip {
          assert connections.Keys - todo - skip == done;
          continue;
        }
        FloodStep(done, peer, p);
        assert connections.Keys - todo - skip == done + {peer};
        done := done + {peer};
        sent := sent + multiset{SendPackage(peer, p)};
      }
      assert done == connections.Keys - skip;
    }

    method HandleGossipPackage(peer: PeerId, p: Package)
      modifies this`highestSeqNo, this`forwarded, this`sent
      ensures View() == Handle(config, old(View()), Received(peer, p)).0
      ensures sent == old(sent) + multiset(Handle(config, old(View()), Received(peer, p)).1)
      ensures
        if p.signed && p.publicKey == config.sequencerPubkey && p.seqNo > old(highestSeqNo) then
          && highestSeqNo == p.seqNo
          && forwarded == old(forwarded) + [Head(p.header.hash, p.header.number)]
          && sent == old(sent) + multiset(set to | to in connections && to != peer :: SendPackage(to, p))
        else highestSeqNo == old(highestSeqNo) && forwarded == old(forwarded) && sent == old(sent)
    {
      assert Flood(connections.Keys - {peer}, p) == set to | to in connections && to != peer :: SendPackage(to, p);
      if !p.signed {
        return;
      }
      if p.publicKey != config.sequencerPubkey {
        return;
      }
      if p.seqNo <= highestSeqNo {
        return;
      }
      highestSeqNo := p.seqNo;
      forwarded := forwarded + [Head(p.header.hash, p.header.number)];
      SendToAllBut({peer}, p);
    }

    method BroadcastNewBlock(tip: Header)
      modifies this`sent
      ensures sent == old(sent) + multiset(Handle(config, View(), Commit([tip])).1)
      ensures
        sent == old(sent) + if config.sequencerEnabled && config.hasPrivkey then
          multiset(set to | to in connections ::
            SendPackage(to, Package(tip, tip.number, config.sequencerPubkey, true)))
        else multiset{}
    {
      if !config.sequencerEnabled {
        return;
      }
      if !config.hasPrivkey {
        return;
      }
      SendToAllBut({}, Package(tip, tip.number, config.sequencerPubkey, true));
      assert connections.Keys - {} == connections.Keys;
    }

    method HandleEvent(e: Event) returns (more: bool)
      modifies this
      ensures more == !e.StateClosed?
      ensures View() == Handle(config, old(View()), e).0
      ensures sent == old(sent) + multiset(Handle(config, old(View()), e).1)
    {
      more := true;
      match e
      case Established(peer, channel) =>
        connections := connections[peer := channel];
      case Closed(peer) =>
        connections := connections - {peer};
      case Received(peer, p) =>
        HandleGossipPackage(peer, p);
      case Commit(headers) =>
        if headers != [] {
          BroadcastNewBlock(headers[|headers| - 1]);
        }
      case Reorg =>
      case Lagged =>
      case StateClosed =>
        more := false;
    }

    /** The event loop. */
    method Run(events: seq<Event>)
      modifies this
      ensures View() == Replay(config, old(View()), events).0
      ensures sent == old(sent) + Replay(config, old(View()), events).1
    {
      ghost var start, before := View(), sent;
      var i := 0;
      while i < |events|
        invariant 0 <= i <= |events|
        invariant Replay(config, start, events).0 == Replay(config, View(), events[i..]).0
        invariant before + Replay(config, start, events).1 == sent + Replay(config, View(), events[i..]).1
      {
        assert events[i..][1..] == events[i + 1..];
        var more := HandleEvent(events[i]);
        if !more {
          return;
        }
        i := i + 1;
      }
    }
  }
}
