/** Any number of gossip tasks exchanging packages: what holds over every run, and what a run
    with fixed, lossless links ends in.
 */
module GossipNetwork {
  import opened Gossip
  import opened Seqs

  /** The sequencer's key, the node that holds it, and all the nodes. */
  datatype World = World(key: nat, sequencer: PeerId, peers: seq<PeerId>)

  datatype Msg = Msg(src: PeerId, dst: PeerId, package: Package)

  /** `issued` is every package the sequencer has signed, `top` the largest of their numbers. */
  datatype Net = Net(nodes: map<PeerId, Node>, flight: multiset<Msg>, issued: set<Package>, top: nat)

  /** `Local` is any event of a node other than receiving a package.  `Drop` loses a package and
      `Inject` is a peer outside the model replaying or inventing one. */
  datatype Step = Deliver(m: Msg) | Local(v: PeerId, e: Event) | Drop(m: Msg) | Inject(m: Msg)

  function ConfigOf(w: World, v: PeerId): Config {
    Config(w.key, v == w.sequencer, v == w.sequencer)
  }

  function PeerSet(peers: seq<PeerId>): set<PeerId> {
    set p | p in peers
  }

  function Post(v: PeerId, commands: set<Command>): multiset<Msg> {
    multiset(set c | c in commands :: Msg(v, c.to, c.package))
  }

  /** Packages with a valid sequencer signature can only be copies of issued ones. */
  predicate Enabled(w: World, net: Net, s: Step) {
    match s
    case Deliver(m) => m in net.flight && m.dst in net.nodes
    case Local(v, e) => v in net.nodes && !e.Received?
    case Drop(m) => m in net.flight
    case Inject(m) => Authentic(w.key, m.package) ==> m.package in net.issued
  }

  predicate Issues(w: World, v: PeerId, e: Event) {
    v == w.sequencer && e.Commit? && e.headers != []
  }

  function Next(w: World, net: Net, s: Step): Net
    requires Enabled(w, net, s)
  {
    match s
    case Deliver(m) =>
      var (n, out) := Handle(ConfigOf(w, m.dst), net.nodes[m.dst], Received(m.src, m.package));
      net.(nodes := net.nodes[m.dst := n], flight := net.flight - multiset{m} + Post(m.dst, out))
    case Local(v, e) =>
      var (n, out) := Handle(ConfigOf(w, v), net.nodes[v], e);
      var net1 := net.(nodes := net.nodes[v := n], flight := net.flight + Post(v, out));
      if Issues(w, v, e) then
        var tip := e.headers[|e.headers| - 1];
        net1.(issued := net.issued + {NewPackage(w.key, tip)}, top := Max(net.top, tip.number))
      else net1
    case Drop(m) => net.(flight := net.flight - multiset{m})
    case Inject(m) => net.(flight := net.flight + multiset{m})
  }

  predicate Runnable(w: World, net: Net, steps: seq<Step>)
    decreases |steps|
  {
    steps == [] || (Enabled(w, net, steps[0]) && Runnable(w, Next(w, net, steps[0]), steps[1..]))
  }

  function Run(w: World, net: Net, steps: seq<Step>): Net
    requires Runnable(w, net, steps)
    decreases |steps|
  {
    if steps == [] then net else Run(w, Next(w, net, steps[0]), steps[1..])
  }

  /** Nothing received, sent or issued yet; connections may be of any shape. */
  ghost predicate Init(w: World, net: Net) {
    && net.flight == multiset{} && net.issued == {} && net.top == 0
    && forall v :: v in net.nodes ==> net.nodes[v].highest == 0 && net.nodes[v].forwarded == []
  }

  // ---------------------------------------------------------------- safety

  ghost predicate StrictlyIncreasing(heads: seq<Head>) {
    forall i, j :: 0 <= i < j < |heads| ==> heads[i].number < heads[j].number
  }

  ghost predicate Issued(net: Net, h: Head) {
    exists p :: p in net.issued && HeadOf(p) == h
  }

  ghost predicate NodeSafe(net: Net, n: Node) {
    && StrictlyIncreasing(n.forwarded)
    && (forall i :: 0 <= i < |n.forwarded| ==> Issued(net, n.forwarded[i]))
    && n.highest == (if n.forwarded == [] then 0 else n.forwarded[|n.forwarded| - 1].number)
  }

  ghost predicate SafetyInv(w: World, net: Net) {
    && (forall p :: p in net.issued ==> p.seqNo == p.header.number && p.seqNo <= net.top)
    && (forall m :: m in net.flight && Authentic(w.key, m.package) ==> m.package in net.issued)
    && (forall v :: v in net.nodes ==> NodeSafe(net, net.nodes[v]))
  }

  lemma {:induction false} NodeSafeMonotone(a: Net, b: Net, n: Node)
    requires NodeSafe(a, n) && a.issued <= b.issued
    ensures NodeSafe(b, n)
  {
    forall i | 0 <= i < |n.forwarded| ensures Issued(b, n.forwarded[i]) {
      assert Issued(a, n.forwarded[i]);
    }
  }

  lemma {:induction false} DeliverSafe(w: World, net: Net, m: Msg)
    requires SafetyInv(w, net) && Enabled(w, net, Deliver(m))
    ensures SafetyInv(w, Next(w, net, Deliver(m)))
  {
    var n := net.nodes[m.dst];
    var (n', out) := Handle(ConfigOf(w, m.dst), n, Received(m.src, m.package));
    if Accepts(ConfigOf(w, m.dst), n, m.package) {
      assert Issued(net, HeadOf(m.package));
      assert NodeSafe(net, n');
    }
    var after := Next(w, net, Deliver(m));
    forall v | v in after.nodes ensures NodeSafe(after, after.nodes[v]) {
      NodeSafeMonotone(net, after, if v == m.dst then n' else net.nodes[v]);
    }
  }

  lemma {:induction false} StepSafe(w: World, net: Net, s: Step)
    requires SafetyInv(w, net) && Enabled(w, net, s)
    ensures SafetyInv(w, Next(w, net, s))
  {
    match s
    case Deliver(m) => DeliverSafe(w, net, m);
    case Local(v, e) => LocalSafe(w, net, v, e);
    case Drop(m) => NodesSafe(net, Next(w, net, s));
    case Inject(m) => NodesSafe(net, Next(w, net, s));
  }

  /** Nodes that forwarded nothing new stay safe. */
  lemma {:induction false} NodesSafe(net: Net, after: Net)
    requires forall v :: v in net.nodes ==> NodeSafe(net, net.nodes[v])
    requires net.nodes.Keys == after.nodes.Keys && net.issued <= after.issued
    requires forall v :: v in net.nodes ==>
                           net.nodes[v].forwarded == after.nodes[v].forwarded
                           && net.nodes[v].highest == after.nodes[v].highest
    ensures forall v :: v in after.nodes ==> NodeSafe(after, after.nodes[v])
  {
    forall v | v in after.nodes ensures NodeSafe(after, after.nodes[v]) {
      NodeSafeMonotone(net, after, net.nodes[v]);
    }
  }

  /** What a broadcast changes: the flight, the issued packages and the top. */
  lemma {:induction false} IssueNext(w: World, net: Net, e: Event)
    requires Enabled(w, net, Local(w.sequencer, e)) && Issues(w, w.sequencer, e)
    ensures
      var after, p := Next(w, net, Local(w.sequencer, e)), NewPackage(w.key, e.headers[|e.headers| - 1]);
      && after.nodes == net.nodes && after.issued == net.issued + {p} && after.top == Max(net.top, p.seqNo)
      && after.flight == net.flight + Post(w.sequencer, Flood(net.nodes[w.sequencer].connections, p))
  {
  }

  lemma {:induction false} QuietNext(w: World, net: Net, v: PeerId, e: Event)
    requires Enabled(w, net, Local(v, e)) && !Issues(w, v, e)
    ensures
      var after := Next(w, net, Local(v, e));
      && after.flight == net.flight && after.issued == net.issued && after.top == net.top
      && after.nodes.Keys == net.nodes.Keys
      && forall u :: u in net.nodes ==>
                       net.nodes[u].forwarded == after.nodes[u].forwarded
                       && net.nodes[u].highest == after.nodes[u].highest
  {
    assert Post(v, {}) == multiset{};
  }

  lemma {:induction false} LocalSafe(w: World, net: Net, v: PeerId, e: Event)
    requires SafetyInv(w, net) && Enabled(w, net, Local(v, e))
    ensures SafetyInv(w, Next(w, net, Local(v, e)))
  {
    var after := Next(w, net, Local(v, e));
    if Issues(w, v, e) {
      IssueNext(w, net, e);
      forall m | m in after.flight && Authentic(w.key, m.package) ensures m.package in after.issued {
        PostFlood(v, net.nodes[v].connections, NewPackage(w.key, e.headers[|e.headers| - 1]), m);
      }
    } else {
      QuietNext(w, net, v, e);
    }
    NodesSafe(net, after);
  }

  lemma {:induction false} InitSafe(w: World, net: Net)
    requires Init(w, net)
    ensures SafetyInv(w, net)
  {
  }

  lemma {:induction false} RunSafe(w: World, net: Net, steps: seq<Step>)
    requires SafetyInv(w, net) && Runnable(w, net, steps)
    ensures SafetyInv(w, Run(w, net, steps))
    decreases |steps|
  {
    if steps != [] {
      StepSafe(w, net, steps[0]);
      RunSafe(w, Next(w, net, steps[0]), steps[1..]);
    }
  }

  /** The step is the sequencer's broadcast of a block with this hash and number. */
  predicate Broadcasts(w: World, s: Step, hash: nat, number: nat) {
    && s.Local? && s.v == w.sequencer && s.e.Commit? && s.e.headers != []
    && s.e.headers[|s.e.headers| - 1].hash == hash && s.e.headers[|s.e.headers| - 1].number == number
  }

  ghost predicate WasBroadcast(w: World, steps: seq<Step>, hash: nat, number: nat) {
    exists k :: 0 <= k < |steps| && Broadcasts(w, steps[k], hash, number)
  }

  /** Every package issued during a run carries the header of some broadcast of that run. */
  lemma {:induction false} IssuedWasBroadcast(w: World, net: Net, steps: seq<Step>, p: Package)
    requires Runnable(w, net, steps) && p in Run(w, net, steps).issued
    ensures p in net.issued || WasBroadcast(w, steps, p.header.hash, p.header.number)
    decreases |steps|
  {
    if steps != [] {
      var next := Next(w, net, steps[0]);
      IssuedWasBroadcast(w, next, steps[1..], p);
      if p in next.issued {
        assert p !in net.issued ==> Broadcasts(w, steps[0], p.header.hash, p.header.number);
      } else {
        var k :| 0 <= k < |steps[1..]| && Broadcasts(w, steps[1..][k], p.header.hash, p.header.number);
        assert steps[k + 1] == steps[1..][k];
      }
    }
  }

  /** Over every run, with peers connecting, closing, losing, replaying and inventing packages:
      each node forwards heads of strictly increasing number, each with the hash and number of a
      block that the sequencer broadcast, and its `highest` is the number of the last one. */
  lemma {:induction false} ForwardedHeadsAreSafe(w: World, net: Net, steps: seq<Step>, v: PeerId)
    requires Init(w, net) && Runnable(w, net, steps)
    requires v in Run(w, net, steps).nodes
    ensures
      var end := Run(w, net, steps);
      var heads := end.nodes[v].forwarded;
      && StrictlyIncreasing(heads)
      && (forall i :: 0 <= i < |heads| ==> Issued(end, heads[i]))
      && (forall i :: 0 <= i < |heads| ==> WasBroadcast(w, steps, heads[i].hash, heads[i].number))
      && end.nodes[v].highest == (if heads == [] then 0 else heads[|heads| - 1].number)
  {
    InitSafe(w, net);
    RunSafe(w, net, steps);
    var end := Run(w, net, steps);
    assert NodeSafe(end, end.nodes[v]);
    var heads := end.nodes[v].forwarded;
    forall i | 0 <= i < |heads| ensures WasBroadcast(w, steps, heads[i].hash, heads[i].number) {
      assert Issued(end, heads[i]);
      var p :| p in end.issued && HeadOf(p) == heads[i];
      IssuedWasBroadcast(w, net, steps, p);
    }
  }

  /** What a delivery does, message by message: an authentic, newer package raises the receiver's
      number, is forwarded, and goes on to every connection but the sender; any other is gone. */
  lemma {:induction false} DeliveryEffect(w: World, net: Net, m: Msg, x: Msg)
    requires Enabled(w, net, Deliver(m))
    ensures
      var before, p := net.nodes[m.dst], m.package;
      var after := Next(w, net, Deliver(m));
      var accepted := p.signed && p.publicKey == w.key && p.seqNo > before.highest;
      var passedOn := accepted && x.src == m.dst && x.dst in before.connections && x.dst != m.src && x.package == p;
      && after.flight[x] + (if x == m then 1 else 0) == net.flight[x] + (if passedOn then 1 else 0)
      && after.issued == net.issued && after.top == net.top && after.nodes.Keys == net.nodes.Keys
      && (forall v :: v in net.nodes && v != m.dst ==> after.nodes[v] == net.nodes[v])
      && after.nodes[m.dst] == if !accepted then before
                               else Node(before.connections, p.seqNo,
                                         before.forwarded + [Head(p.header.hash, p.header.number)])
  {
    PostFlood(m.dst, net.nodes[m.dst].connections - {m.src}, m.package, x);
    assert Post(m.dst, {}) == multiset{};
  }

  /** What a broadcast does, message by message: one signed package with the newest block's header
      and number to every connection of the sequencer. */
  lemma {:induction false} BroadcastEffect(w: World, net: Net, headers: seq<Header>, x: Msg)
    requires Enabled(w, net, Local(w.sequencer, Commit(headers)))
    ensures
      var after := Next(w, net, Local(w.sequencer, Commit(headers)));
      var sent := && headers != [] && x.src == w.sequencer && x.dst in net.nodes[w.sequencer].connections
                  && x.package.header == headers[|headers| - 1] && x.package.seqNo == headers[|headers| - 1].number
                  && x.package.publicKey == w.key && x.package.signed;
      after.nodes == net.nodes && after.flight[x] == net.flight[x] + if sent then 1 else 0
  {
    if headers != [] {
      IssueNext(w, net, Commit(headers));
      PostFlood(w.sequencer, net.nodes[w.sequencer].connections, NewPackage(w.key, headers[|headers| - 1]), x);
    } else {
      QuietNext(w, net, w.sequencer, Commit(headers));
    }
  }

  /** If the sequencer never signs two headers with one number, no two nodes ever forward
      different heads of one number; in particular nodes at the same `highest` agree. */
  lemma {:induction false} NodesAgree(w: World, net: Net, steps: seq<Step>, u: PeerId, v: PeerId, i: nat, j: nat)
    requires Init(w, net) && Runnable(w, net, steps)
    requires
      var end := Run(w, net, steps);
      && (forall p, q :: p in end.issued && q in end.issued && p.seqNo == q.seqNo ==> p.header == q.header)
      && u in end.nodes && i < |end.nodes[u].forwarded|
      && v in end.nodes && j < |end.nodes[v].forwarded|
      && end.nodes[u].forwarded[i].number == end.nodes[v].forwarded[j].number
    ensures
      var end := Run(w, net, steps);
      end.nodes[u].forwarded[i] == end.nodes[v].forwarded[j]
  {
    InitSafe(w, net);
    RunSafe(w, net, steps);
    var end := Run(w, net, steps);
    assert Issued(end, end.nodes[u].forwarded[i]) && Issued(end, end.nodes[v].forwarded[j]);
    var p :| p in end.issued && HeadOf(p) == end.nodes[u].forwarded[i];
    var q :| q in end.issued && HeadOf(q) == end.nodes[v].forwarded[j];
    assert p.header == q.header;
  }

  // ---------------------------------------------------------------- convergence

  /** Fixed links that lose nothing between tasks that keep running. Peers outside the model may
      still throw at any node packages that fail authentication and replays of authentic ones. */
  predicate Lossless(w: World, s: Step) {
    match s
    case Deliver(_) => true
    case Local(_, e) => !e.Established? && !e.Closed? && !e.StateClosed?
    case Drop(_) => false
    case Inject(m) => Authentic(w.key, m.package) ==> m.src !in w.peers && m.dst in w.peers
  }

  ghost predicate AllLossless(w: World, steps: seq<Step>) {
    forall i :: 0 <= i < |steps| ==> Lossless(w, steps[i])
  }

  /** The number a node's neighbours have to catch up with.  The sequencer does not raise its
      own `highest` when it broadcasts. */
  function Level(w: World, net: Net, v: PeerId): nat
    requires v in net.nodes
  {
    if v == w.sequencer then Max(net.nodes[v].highest, net.top) else net.nodes[v].highest
  }

  ghost predicate OnTheWay(w: World, net: Net, u: PeerId, level: nat) {
    exists m :: m in net.flight && m.dst == u && Authentic(w.key, m.package) && level <= m.package.seqNo
  }

  ghost predicate EdgeOk(w: World, net: Net, v: PeerId, u: PeerId)
    requires v in net.nodes && u in net.nodes
  {
    Level(w, net, v) <= net.nodes[u].highest || OnTheWay(w, net, u, Level(w, net, v))
  }

  ghost predicate Wired(w: World, net: Net) {
    && net.nodes.Keys == PeerSet(w.peers) && w.sequencer in net.nodes
    && forall v :: v in net.nodes ==> net.nodes[v].connections <= net.nodes.Keys
  }

  /** No package is ahead of the broadcasts, or of the node that passed it on. */
  ghost predicate MsgOk(w: World, net: Net, m: Msg) {
    && m.dst in net.nodes && m.package.seqNo <= net.top
    && (m.src in net.nodes && m.src != w.sequencer ==> m.package.seqNo <= net.nodes[m.src].highest)
  }

  ghost predicate Bounded(w: World, net: Net) {
    && (forall v :: v in net.nodes ==> net.nodes[v].highest <= net.top)
    && (forall m :: m in net.flight && Authentic(w.key, m.package) ==> MsgOk(w, net, m))
    && (forall p :: p in net.issued ==> p.seqNo <= net.top)
  }

  ghost predicate EdgesOk(w: World, net: Net)
    requires Wired(w, net)
  {
    forall v, u :: v in net.nodes && u in net.nodes[v].connections && u != w.sequencer ==> EdgeOk(w, net, v, u)
  }

  ghost predicate FloodInv(w: World, net: Net) {
    Wired(w, net) && Bounded(w, net) && EdgesOk(w, net)
  }

  lemma {:induction false} PostFlood(v: PeerId, peers: set<PeerId>, p: Package, m: Msg)
    ensures m in Post(v, Flood(peers, p)) <==> m.src == v && m.dst in peers && m.package == p
  {
    if m.src == v && m.dst in peers && m.package == p {
      assert SendPackage(m.dst, p) in Flood(peers, p);
    }
  }

  lemma {:induction false} RejectFloods(w: World, net: Net, m: Msg)
    requires FloodInv(w, net) && Enabled(w, net, Deliver(m))
    requires !Accepts(ConfigOf(w, m.dst), net.nodes[m.dst], m.package)
    ensures FloodInv(w, Next(w, net, Deliver(m)))
  {
    var after := Next(w, net, Deliver(m));
    assert after.nodes == net.nodes;
    assert after.flight == net.flight - multiset{m};
    assert forall x :: x in after.flight ==> x in net.flight;
    forall v, u | v in after.nodes && u in after.nodes[v].connections && u != w.sequencer
      ensures EdgeOk(w, after, v, u)
    {
      assert EdgeOk(w, net, v, u);
      if net.nodes[u].highest < Level(w, net, v) {
        var x :| x in net.flight && x.dst == u && Authentic(w.key, x.package) && Level(w, net, v) <= x.package.seqNo;
        assert x in after.flight;
      }
    }
  }

  lemma {:induction false} AcceptBounds(w: World, net: Net, m: Msg)
    requires FloodInv(w, net) && Enabled(w, net, Deliver(m))
    requires Accepts(ConfigOf(w, m.dst), net.nodes[m.dst], m.package)
    ensures Wired(w, Next(w, net, Deliver(m))) && Bounded(w, Next(w, net, Deliver(m)))
  {
    var after := Next(w, net, Deliver(m));
    forall x | x in after.flight && Authentic(w.key, x.package) ensures MsgOk(w, after, x) {
      PostFlood(m.dst, net.nodes[m.dst].connections - {m.src}, m.package, x);
      assert x in net.flight ==> MsgOk(w, net, x);
    }
  }

  lemma {:induction false} AcceptEdge(w: World, net: Net, m: Msg, v: PeerId, u: PeerId)
    requires FloodInv(w, net) && Enabled(w, net, Deliver(m))
    requires Accepts(ConfigOf(w, m.dst), net.nodes[m.dst], m.package)
    requires v in net.nodes && u in net.nodes[v].connections && u != w.sequencer
    ensures EdgeOk(w, Next(w, net, Deliver(m)), v, u)
  {
    var after := Next(w, net, Deliver(m));
    assert EdgeOk(w, net, v, u);
    if v == m.dst && v != w.sequencer {
      if u != m.src {
        PostFlood(v, net.nodes[v].connections - {m.src}, m.package, Msg(v, u, m.package));
        assert Msg(v, u, m.package) in after.flight;
      }
    } else {
      assert Level(w, after, v) == Level(w, net, v);
      if net.nodes[u].highest < Level(w, net, v) {
        var x :| x in net.flight && x.dst == u && Authentic(w.key, x.package) && Level(w, net, v) <= x.package.seqNo;
        if x != m {
          assert x in after.flight;
        }
      }
    }
  }

  lemma {:induction false} DeliverFloods(w: World, net: Net, m: Msg)
    requires FloodInv(w, net) && Enabled(w, net, Deliver(m))
    ensures FloodInv(w, Next(w, net, Deliver(m)))
  {
    if Accepts(ConfigOf(w, m.dst), net.nodes[m.dst], m.package) {
      AcceptBounds(w, net, m);
      var after := Next(w, net, Deliver(m));
      forall v, u | v in after.nodes && u in after.nodes[v].connections && u != w.sequencer
        ensures EdgeOk(w, after, v, u)
      {
        AcceptEdge(w, net, m, v, u);
      }
    } else {
      RejectFloods(w, net, m);
    }
  }

  lemma {:induction false} QuietLocalFloods(w: World, net: Net, v0: PeerId, e: Event)
    requires FloodInv(w, net) && Enabled(w, net, Local(v0, e)) && Lossless(w, Local(v0, e))
    requires !Issues(w, v0, e)
    ensures FloodInv(w, Next(w, net, Local(v0, e)))
  {
    assert Post(v0, {}) == multiset{};
    assert Next(w, net, Local(v0, e)) == net;
  }

  lemma {:induction false} IssueBounds(w: World, net: Net, e: Event)
    requires FloodInv(w, net) && Enabled(w, net, Local(w.sequencer, e)) && Issues(w, w.sequencer, e)
    ensures Bounded(w, Next(w, net, Local(w.sequencer, e)))
  {
    var after, p := Next(w, net, Local(w.sequencer, e)), NewPackage(w.key, e.headers[|e.headers| - 1]);
    IssueNext(w, net, e);
    forall x | x in after.flight && Authentic(w.key, x.package) ensures MsgOk(w, after, x) {
      PostFlood(w.sequencer, net.nodes[w.sequencer].connections, p, x);
      assert x in net.flight ==> MsgOk(w, net, x);
    }
  }

  lemma {:induction false} IssueEdge(w: World, net: Net, e: Event, v: PeerId, u: PeerId)
    requires FloodInv(w, net) && Enabled(w, net, Local(w.sequencer, e)) && Issues(w, w.sequencer, e)
    requires v in net.nodes && u in net.nodes[v].connections && u != w.sequencer
    ensures EdgeOk(w, Next(w, net, Local(w.sequencer, e)), v, u)
  {
    var after, p := Next(w, net, Local(w.sequencer, e)), NewPackage(w.key, e.headers[|e.headers| - 1]);
    IssueNext(w, net, e);
    assert EdgeOk(w, net, v, u);
    if net.nodes[u].highest < Level(w, net, v) {
      var x :| x in net.flight && x.dst == u && Authentic(w.key, x.package) && Level(w, net, v) <= x.package.seqNo;
      assert x in after.flight;
    }
    if v == w.sequencer {
      PostFlood(v, net.nodes[v].connections, p, Msg(v, u, p));
      assert Msg(v, u, p) in after.flight;
    }
  }

  lemma {:induction false} IssueFloods(w: World, net: Net, e: Event)
    requires FloodInv(w, net) && Enabled(w, net, Local(w.sequencer, e)) && Issues(w, w.sequencer, e)
    ensures FloodInv(w, Next(w, net, Local(w.sequencer, e)))
  {
    var after := Next(w, net, Local(w.sequencer, e));
    IssueNext(w, net, e);
    IssueBounds(w, net, e);
    forall v, u | v in after.nodes && u in after.nodes[v].connections && u != w.sequencer
      ensures EdgeOk(w, after, v, u)
    {
      IssueEdge(w, net, e, v, u);
    }
  }

  lemma {:induction false} StepFloods(w: World, net: Net, s: Step)
    requires FloodInv(w, net) && Enabled(w, net, s) && Lossless(w, s)
    ensures FloodInv(w, Next(w, net, s))
  {
    match s
    case Deliver(m) => DeliverFloods(w, net, m);
    case Local(v, e) =>
      if Issues(w, v, e) {
        IssueFloods(w, net, e);
      } else {
        QuietLocalFloods(w, net, v, e);
      }
    case Drop(_) =>
    case Inject(m) =>
      var after := Next(w, net, s);
      assert forall x :: x in net.flight ==> x in after.flight;
      forall x | x in after.flight && Authentic(w.key, x.package) ensures MsgOk(w, after, x) {
        assert x in net.flight ==> MsgOk(w, net, x);
      }
      forall v, u | v in after.nodes && u in after.nodes[v].connections && u != w.sequencer
        ensures EdgeOk(w, after, v, u)
      {
        assert EdgeOk(w, net, v, u);
      }
  }

  lemma {:induction false} RunFloods(w: World, net: Net, steps: seq<Step>)
    requires FloodInv(w, net) && Runnable(w, net, steps) && AllLossless(w, steps)
    ensures FloodInv(w, Run(w, net, steps))
    ensures forall v :: v in net.nodes ==>
                          v in Run(w, net, steps).nodes
                          && Run(w, net, steps).nodes[v].connections == net.nodes[v].connections
    decreases |steps|
  {
    if steps != [] {
      assert Lossless(w, steps[0]);
      StepFloods(w, net, steps[0]);
      RunFloods(w, Next(w, net, steps[0]), steps[1..]);
    }
  }

  ghost predicate IsPath(net: Net, path: seq<PeerId>) {
    && path != []
    && (forall i :: 0 <= i < |path| ==> path[i] in net.nodes)
    && (forall i :: 0 <= i < |path| - 1 ==> Hop(net, path, i))
  }

  ghost predicate Hop(net: Net, path: seq<PeerId>, i: nat)
    requires i < |path| - 1
  {
    path[i] in net.nodes && path[i + 1] in net.nodes[path[i]].connections
  }

  lemma {:induction false} SameLinksSamePaths(net: Net, end: Net, path: seq<PeerId>)
    requires net.nodes.Keys == end.nodes.Keys
    requires forall p :: p in net.nodes ==> net.nodes[p].connections == end.nodes[p].connections
    requires IsPath(net, path)
    ensures IsPath(end, path)
  {
    forall i | 0 <= i < |path| - 1 ensures Hop(end, path, i) {
      assert Hop(net, path, i);
    }
  }

  lemma {:induction false} PathCaughtUp(w: World, net: Net, path: seq<PeerId>)
    requires FloodInv(w, net) && IsPath(net, path) && path[0] == w.sequencer
    requires forall m :: m in net.flight ==> !Authentic(w.key, m.package)
    ensures Level(w, net, path[|path| - 1]) == net.top
    decreases |path|
  {
    if |path| > 1 {
      var shorter := path[..|path| - 1];
      forall i | 0 <= i < |shorter| - 1 ensures Hop(net, shorter, i) {
        assert Hop(net, path, i);
      }
      assert Hop(net, path, |path| - 2);
      PathCaughtUp(w, net, shorter);
      var v, u := path[|path| - 2], path[|path| - 1];
      assert v == shorter[|shorter| - 1];
      assert u in net.nodes[v].connections;
      if u != w.sequencer {
        assert EdgeOk(w, net, v, u);
      }
    }
  }

  /** With fixed lossless links, whenever no authentic package is in flight every node other
      than the sequencer that a chain of links leads to from the sequencer has `highest` equal to the
      largest number ever broadcast, although packages are never sent back to their sender
      and stale ones are not passed on. */
  lemma {:induction false} QuiescentMeansConverged(w: World, net: Net, steps: seq<Step>, path: seq<PeerId>)
    requires Init(w, net) && Wired(w, net)
    requires Runnable(w, net, steps) && AllLossless(w, steps)
    requires IsPath(net, path) && path[0] == w.sequencer && path[|path| - 1] != w.sequencer
    requires forall m :: m in Run(w, net, steps).flight ==> !Authentic(w.key, m.package)
    ensures
      var end := Run(w, net, steps);
      path[|path| - 1] in end.nodes && end.nodes[path[|path| - 1]].highest == end.top
  {
    RunFloods(w, net, steps);
    var end := Run(w, net, steps);
    SameLinksSamePaths(net, end, path);
    PathCaughtUp(w, end, path);
  }

  // ---------------------------------------------------------------- termination

  /** How far the nodes are behind, in total. */
  function Lag(nodes: map<PeerId, Node>, peers: seq<PeerId>, top: nat): nat
    requires forall p :: p in peers ==> p in nodes && nodes[p].highest <= top
  {
    if peers == [] then 0 else top - nodes[peers[0]].highest + Lag(nodes, peers[1..], top)
  }

  lemma {:induction false} LagMonotone(a: map<PeerId, Node>, b: map<PeerId, Node>, peers: seq<PeerId>, top: nat)
    requires forall p :: p in peers ==> p in a && p in b && a[p].highest <= b[p].highest <= top
    ensures Lag(b, peers, top) <= Lag(a, peers, top)
    ensures (exists p :: p in peers && a[p].highest < b[p].highest) ==> Lag(b, peers, top) < Lag(a, peers, top)
  {
    if peers != [] {
      LagMonotone(a, b, peers[1..], top);
    }
  }

  lemma {:induction false} PeerSetSize(peers: seq<PeerId>)
    ensures |PeerSet(peers)| <= |peers|
  {
    if peers != [] {
      PeerSetSize(peers[1..]);
      assert PeerSet(peers) == {peers[0]} + PeerSet(peers[1..]);
    }
  }

  lemma {:induction false} SubsetSize(a: set<PeerId>, b: set<PeerId>)
    requires a <= b
    ensures |a| <= |b|
  {
    assert b == a + (b - a);
  }

  lemma {:induction false} FloodSize(v: PeerId, peers: set<PeerId>, p: Package)
    ensures |Post(v, Flood(peers, p))| <= |peers|
    decreases peers
  {
    var msgs := set c | c in Flood(peers, p) :: Msg(v, c.to, c.package);
    if peers == {} {
      assert msgs == {};
    } else {
      var q :| q in peers;
      FloodSize(v, peers - {q}, p);
      var fewer := set c | c in Flood(peers - {q}, p) :: Msg(v, c.to, c.package);
      assert Flood(peers, p) == Flood(peers - {q}, p) + {SendPackage(q, p)};
      assert msgs == fewer + {Msg(v, q, p)};
      assert |msgs| <= |fewer| + 1;
    }
  }

  /** Packages in flight, plus what the nodes still behind may send while catching up. */
  function Work(w: World, net: Net): nat
    requires forall p :: p in w.peers ==> p in net.nodes && net.nodes[p].highest <= net.top
  {
    |net.flight| + |w.peers| * Lag(net.nodes, w.peers, net.top)
  }

  lemma {:induction false} ProductDrops(d: nat, a: nat, b: nat)
    requires b < a
    ensures d * b + d <= d * a
    decreases a - b
  {
    assert d * (b + 1) == d * b + d;
    if b + 1 < a {
      ProductDrops(d, a, b + 1);
    }
  }

  lemma {:induction false} AcceptanceShrinksWork(w: World, net: Net, m: Msg)
    requires FloodInv(w, net) && Enabled(w, net, Deliver(m))
    requires Accepts(ConfigOf(w, m.dst), net.nodes[m.dst], m.package)
    requires FloodInv(w, Next(w, net, Deliver(m)))
    ensures Work(w, Next(w, net, Deliver(m))) < Work(w, net)
  {
    var after := Next(w, net, Deliver(m));
    var targets := net.nodes[m.dst].connections - {m.src};
    var out := Post(m.dst, Flood(targets, m.package));
    assert |out| <= |w.peers| by {
      FloodSize(m.dst, targets, m.package);
      SubsetSize(targets, PeerSet(w.peers));
      PeerSetSize(w.peers);
    }
    assert |after.flight| == |net.flight| - 1 + |out|;
    assert m.dst in w.peers;
    LagMonotone(net.nodes, after.nodes, w.peers, net.top);
    ProductDrops(|w.peers|, Lag(net.nodes, w.peers, net.top), Lag(after.nodes, w.peers, net.top));
  }

  lemma {:induction false} DeliveryShrinksWork(w: World, net: Net, m: Msg)
    requires FloodInv(w, net) && Enabled(w, net, Deliver(m))
    ensures FloodInv(w, Next(w, net, Deliver(m)))
    ensures Work(w, Next(w, net, Deliver(m))) < Work(w, net)
  {
    DeliverFloods(w, net, m);
    if Accepts(ConfigOf(w, m.dst), net.nodes[m.dst], m.package) {
      AcceptanceShrinksWork(w, net, m);
    } else {
      var after := Next(w, net, Deliver(m));
      assert after.nodes == net.nodes;
      assert Post(m.dst, {}) == multiset{};
      assert after.flight == net.flight - multiset{m};
      assert |after.flight| == |net.flight| - 1;
    }
  }

  /** Without new broadcasts every run of deliveries is finite: its length is bounded by the
      work present at its start. */
  lemma {:induction false} DeliveriesAreBounded(w: World, net: Net, steps: seq<Step>)
    requires FloodInv(w, net) && Runnable(w, net, steps)
    requires forall i :: 0 <= i < |steps| ==> steps[i].Deliver?
    ensures FloodInv(w, Run(w, net, steps))
    ensures |steps| + Work(w, Run(w, net, steps)) <= Work(w, net)
    decreases |steps|
  {
    if steps != [] {
      assert steps[0].Deliver?;
      DeliveryShrinksWork(w, net, steps[0].m);
      DeliveriesAreBounded(w, Next(w, net, steps[0]), steps[1..]);
    }
  }

  /** From any state reached over lossless links, delivering for as long as anything can be
      delivered takes at most `Work` steps and leaves every reachable node caught up. */
  lemma {:induction false} DeliveringConverges(
    w: World, net: Net, steps: seq<Step>, deliveries: seq<Step>, path: seq<PeerId>)
    requires Init(w, net) && Wired(w, net)
    requires Runnable(w, net, steps) && AllLossless(w, steps)
    requires forall i :: 0 <= i < |deliveries| ==> deliveries[i].Deliver?
    requires Runnable(w, Run(w, net, steps), deliveries)
    requires forall m :: !Enabled(w, Run(w, Run(w, net, steps), deliveries), Deliver(m))
    requires IsPath(net, path) && path[0] == w.sequencer && path[|path| - 1] != w.sequencer
    ensures
      var mid := Run(w, net, steps);
      var end := Run(w, mid, deliveries);
      && (forall p :: p in w.peers ==> p in mid.nodes && mid.nodes[p].highest <= mid.top)
      && |deliveries| <= Work(w, mid)
      && path[|path| - 1] in end.nodes && end.nodes[path[|path| - 1]].highest == end.top
  {
    RunFloods(w, net, steps);
    var mid := Run(w, net, steps);
    DeliveriesAreBounded(w, mid, deliveries);
    RunFloods(w, mid, deliveries);
    var end := Run(w, mid, deliveries);
    SameLinksSamePaths(net, end, path);
    forall m | m in end.flight ensures !Authentic(w.key, m.package) {
      assert !Enabled(w, end, Deliver(m));
    }
    PathCaughtUp(w, end, path);
  }
}
